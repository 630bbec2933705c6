/**
 The whole deployment: API replicas, matchers and the ingestor as processes that interleave freely, crash and
 are redelivered messages; a Redis set that may at any time hold anything; and the outbox publishers. Whatever
 happens, the database is that of a serial run, and everything proved about serial runs holds of it.
 */
module Deployment {
  import opened Options
  import opened Trips
  import opened TripLifecycle
  import opened TripExclusivity
  import opened DriverIndex
  import opened TripMessages
  import O = Outbox
  import OutboxSafety

  datatype World = World(db: Db, index: set<UserId>, procs: map<nat, Proc>, outbox: O.State)

  /** `Deliver` hands a `trip.requested` message to a matcher, with any candidates whatever. */
  datatype Action =
    | Call(pid: nat, tx: Tx)
    | Deliver(pid: nat, trip: TripId, candidates: seq<UserId>)
    | Advance(pid: nat)
    | Crash(pid: nat)
    | Overwrite(index: set<UserId>)
    | Publish(action: O.Action)

  /** The transaction an action runs on trips and drivers, if it runs one. */
  function TxOf(w: World, a: Action): Option<Tx> {
    match a
    case Call(pid, tx) => if pid in w.procs then None else Some(tx)
    case Advance(pid) => if pid in w.procs then NextTx(w.procs[pid]) else None
    case _ => None
  }

  /** An event that a transaction inserts is a new row of the outbox. */
  function AppendNew(o: O.State, before: Db, after: Db): O.State {
    if |after.events| > |before.events| then O.Step(o, O.Append(after.events[|before.events|])) else o
  }

  function Next(w: World, a: Action): World {
    match a
    case Call(pid, tx) =>
      if pid in w.procs then w
      else
        var after := Execute(w.db, tx).db;
        World(after, w.index, w.procs[pid := FollowUp(w.db, tx)], AppendNew(w.outbox, w.db, after))
    case Deliver(pid, t, candidates) =>
      if pid in w.procs then w else World(w.db, w.index, w.procs[pid := Handling(t, candidates)], w.outbox)
    case Advance(pid) =>
      if pid !in w.procs then w
      else
        var (s, rest) := Step(Shared(w.db, w.index), w.procs[pid]);
        World(s.db, s.index, w.procs[pid := rest], AppendNew(w.outbox, w.db, s.db))
    case Crash(pid) => World(w.db, w.index, w.procs - {pid}, w.outbox)
    case Overwrite(index) => World(w.db, index, w.procs, w.outbox)
    case Publish(action) => if action.Append? then w else World(w.db, w.index, w.procs, O.Step(w.outbox, action))
  }

  function After(w: World, actions: seq<Action>): World {
    if actions == [] then w else Next(After(w, actions[..|actions| - 1]), actions[|actions| - 1])
  }

  /** The transactions of a run of the deployment, in the order they commit. */
  function Txs(w: World, actions: seq<Action>): seq<Tx> {
    if actions == [] then []
    else
      var before, tx := actions[..|actions| - 1], TxOf(After(w, actions[..|actions| - 1]), actions[|actions| - 1]);
      Txs(w, before) + if tx.Some? then [tx.value] else []
  }

  ghost predicate Started(w: World) {
    Initial(w.db) && w.procs == map[] && w.outbox == O.EMPTY
  }

  // ---------- the database ----------

  lemma NextIsOneTransaction(w: World, a: Action)
    ensures Next(w, a).db == if TxOf(w, a).Some? then Execute(w.db, TxOf(w, a).value).db else w.db
  {}

  /** Whatever the processes, crashes, deliveries and index contents, the database is that of a serial run of the
      transactions in commit order. */
  lemma {:induction false} EveryInterleavingIsSerial(w: World, actions: seq<Action>)
    ensures After(w, actions).db == Run(w.db, Txs(w, actions))
  {
    if actions != [] {
      var before, a := actions[..|actions| - 1], actions[|actions| - 1];
      EveryInterleavingIsSerial(w, before);
      NextIsOneTransaction(After(w, before), a);
      var tx := TxOf(After(w, before), a);
      if tx.Some? {
        RunSnoc(w.db, Txs(w, before), tx.value);
      } else {
        assert Txs(w, before) + [] == Txs(w, before);
      }
    }
  }

  // ---------- the outbox ----------

  /** The outbox rows are the event log. */
  ghost predicate Mirrors(w: World) {
    && |w.outbox.rows| == |w.db.events|
    && forall i :: 0 <= i < |w.db.events| ==> w.outbox.rows[i].event == w.db.events[i]
  }

  lemma ExecuteAppendsAtMostOne(db: Db, tx: Tx)
    ensures var after := Execute(db, tx).db;
            after.events == db.events || (|after.events| == |db.events| + 1 && after.events[..|db.events|] == db.events)
  {}

  lemma AppendingMirrors(w: World, tx: Tx)
    requires Mirrors(w) && O.Inv(w.outbox)
    ensures var after := Execute(w.db, tx).db;
            var outbox := AppendNew(w.outbox, w.db, after);
            && O.Inv(outbox) && |outbox.rows| == |after.events|
            && forall i :: 0 <= i < |after.events| ==> outbox.rows[i].event == after.events[i]
  {
    var after := Execute(w.db, tx).db;
    ExecuteAppendsAtMostOne(w.db, tx);
    if |after.events| > |w.db.events| {
      OutboxSafety.AppendKeepsInv(w.outbox, after.events[|w.db.events|]);
      assert forall i :: 0 <= i < |w.db.events| ==> after.events[i] == after.events[..|w.db.events|][i];
    }
  }

  lemma PublishingMirrors(w: World, action: O.Action)
    requires Mirrors(w) && O.Inv(w.outbox)
    ensures Mirrors(Next(w, Publish(action))) && O.Inv(Next(w, Publish(action)).outbox)
  {
    if !action.Append? {
      OutboxSafety.StepKeepsInv(w.outbox, action);
      forall i | 0 <= i < |w.outbox.rows|
        ensures i < |O.Step(w.outbox, action).rows| && O.Step(w.outbox, action).rows[i].event == w.outbox.rows[i].event
      {
        OutboxSafety.EventsStay(w.outbox, action, i);
      }
    }
  }

  lemma NextMirrors(w: World, a: Action)
    requires Mirrors(w) && O.Inv(w.outbox)
    ensures Mirrors(Next(w, a)) && O.Inv(Next(w, a).outbox)
  {
    if a.Publish? {
      PublishingMirrors(w, a.action);
    } else if TxOf(w, a).Some? {
      NextIsOneTransaction(w, a);
      AppendingMirrors(w, TxOf(w, a).value);
    } else {
      NextIsOneTransaction(w, a);
    }
  }

  lemma {:induction false} EveryRunMirrors(w: World, actions: seq<Action>)
    requires Started(w)
    ensures Mirrors(After(w, actions)) && O.Inv(After(w, actions).outbox)
  {
    if actions == [] {
      OutboxSafety.EveryRunKeepsInv([]);
    } else {
      EveryRunMirrors(w, actions[..|actions| - 1]);
      NextMirrors(After(w, actions[..|actions| - 1]), actions[|actions| - 1]);
    }
  }

  // ---------- the main results ----------

  /** In every reachable state of the deployment each trip is the replay of its events and has a legal history,
      at most one of them a match. */
  lemma EveryStateIsCoherent(w: World, actions: seq<Action>, t: TripId)
    requires Started(w)
    ensures var db := After(w, actions).db; var es := History(db.events, t);
            && AllCoherent(db) && Legal(Tags(es)) && Matches(es) <= 1
            && (t in db.trips ==> Replay(es) == Tracked(db.trips[t]))
  {
    EveryInterleavingIsSerial(w, actions);
    EveryRunIsCoherent(w.db, Txs(w, actions));
    NoTripIsMatchedTwice(w.db, Txs(w, actions), t);
    assert Coherent(After(w, actions).db, t);
  }

  ghost predicate HarmlessAction(w: World, a: Action) {
    TxOf(w, a).Some? ==> Harmless(w.db, TxOf(w, a).value)
  }

  ghost predicate AlwaysExclusive(w: World, actions: seq<Action>) {
    forall k :: 0 <= k <= |actions| ==> Exclusive(After(w, actions[..k]).db)
  }

  ghost predicate AlwaysHarmless(w: World, actions: seq<Action>) {
    forall k :: 0 <= k < |actions| ==> HarmlessAction(After(w, actions[..k]), actions[k])
  }

  lemma AfterOneMore(w: World, actions: seq<Action>, k: nat)
    requires k < |actions|
    ensures After(w, actions[..k + 1]) == Next(After(w, actions[..k]), actions[k])
  {
    assert actions[..k + 1][..k] == actions[..k];
  }

  lemma {:induction false} HarmlessDeploymentsStayExclusive(w: World, actions: seq<Action>, k: nat)
    requires Started(w) && AlwaysHarmless(w, actions) && k <= |actions|
    ensures Exclusive(After(w, actions[..k]).db)
  {
    if k > 0 {
      HarmlessDeploymentsStayExclusive(w, actions, k - 1);
      var before := After(w, actions[..k - 1]);
      EveryStateIsCoherent(w, actions[..k - 1], 0);
      AfterOneMore(w, actions, k - 1);
      NextIsOneTransaction(before, actions[k - 1]);
      assert HarmlessAction(before, actions[k - 1]);
      if TxOf(before, actions[k - 1]).Some? {
        HarmlessKeepsExclusive(before.db, TxOf(before, actions[k - 1]).value);
      }
    }
  }

  /** Driver exclusivity over every interleaving of the deployment: no driver ever has two active trips or is
      online with one, if and only if no accepted switch to online meets a driver with an active trip. */
  lemma ExclusiveIffHarmless(w: World, actions: seq<Action>)
    requires Started(w)
    ensures AlwaysExclusive(w, actions) <==> AlwaysHarmless(w, actions)
  {
    if AlwaysHarmless(w, actions) {
      forall k | 0 <= k <= |actions|
        ensures Exclusive(After(w, actions[..k]).db)
      {
        HarmlessDeploymentsStayExclusive(w, actions, k);
      }
    }
    if k :| 0 <= k < |actions| && !HarmlessAction(After(w, actions[..k]), actions[k]) {
      var before := After(w, actions[..k]);
      HarmBreaksExclusive(before.db, TxOf(before, actions[k]).value);
      NextIsOneTransaction(before, actions[k]);
      AfterOneMore(w, actions, k);
      assert !Exclusive(After(w, actions[..k + 1]).db);
    }
  }

  /** What the broker holds is the truth: every message in its log is that of one event of the database, a row marked
      published has a message there, and what is sent is accounted for. */
  lemma BrokerLogIsTrue(w: World, actions: seq<Action>)
    requires Started(w)
    ensures var now := After(w, actions);
            && |now.outbox.rows| == |now.db.events|
            && (forall k :: 0 <= k < |now.outbox.tries| ==>
                  && now.outbox.tries[k].row < |now.db.events|
                  && var e := now.db.events[now.outbox.tries[k].row];
                     now.outbox.tries[k].message == OutboxPayload(e.trip, e.kind))
            && (forall i :: 0 <= i < |now.db.events| ==>
                  && (now.outbox.rows[i].published ==> O.Copies(now.outbox.tries, i) >= 1)
                  && O.Copies(now.outbox.tries, i) <=
                     now.outbox.rows[i].attempts + now.outbox.rows[i].aborted + if O.InFlight(now.outbox, i) then 1 else 0)
  {
    EveryRunMirrors(w, actions);
    var now := After(w, actions);
    forall i | 0 <= i < |now.db.events|
      ensures now.outbox.rows[i].published ==> O.Copies(now.outbox.tries, i) >= 1
      ensures O.Copies(now.outbox.tries, i) <=
              now.outbox.rows[i].attempts + now.outbox.rows[i].aborted + if O.InFlight(now.outbox, i) then 1 else 0
    {
      assert O.RowOk(now.outbox, i);
      OutboxSafety.CopiesAreTries(now.outbox.tries, i);
    }
  }
}
