/**
 The Redis set of online drivers, kept beside PostgreSQL by steps that are not part of any transaction: a
 handler, a call or a ping commits first and writes the set later, and anything may happen in between.
 */
module DriverIndex {
  import opened Options
  import opened Trips
  import opened TripLifecycle
  import opened TripExclusivity

  datatype Shared = Shared(db: Db, index: set<UserId>)

  /** What a process still has to do. */
  datatype Proc =
    | Handling(trip: TripId, candidates: seq<UserId>)
    | DroppingStale(driver: UserId, trip: TripId, rest: seq<UserId>)
    | DroppingMatched(driver: UserId)
    | Restoring(driver: UserId)
    | Indexing(driver: UserId, add: bool)
    | Finished

  /** The transaction a process runs in its next step, if it runs one. */
  function NextTx(p: Proc): Option<Tx> {
    if p.Handling? && p.candidates != [] then Some(AssignTx(p.trip, p.candidates[0])) else None
  }

  /** One step: one transaction, one query or one Redis command. */
  function Step(s: Shared, p: Proc): (Shared, Proc) {
    match p
    case Handling(t, candidates) =>
      if candidates == [] then (s, Finished)
      else
        var d := candidates[0];
        var out := Assign(s.db, t, d);
        var rest := candidates[1..];
        var next := if out.reply == Unavailable then DroppingStale(d, t, rest)
                    else if out.reply == Done then DroppingMatched(d)
                    else Handling(t, rest);
        (Shared(out.db, s.index), next)
    case DroppingStale(d, t, rest) => (Shared(s.db, s.index - {d}), Handling(t, rest))
    case DroppingMatched(d) => (Shared(s.db, s.index - {d}), Finished)
    case Restoring(d) =>
      (s, if d in s.db.drivers && s.db.drivers[d].located then Indexing(d, true) else Finished)
    case Indexing(d, add) => (Shared(s.db, if add then s.index + {d} else s.index - {d}), Finished)
    case Finished => (s, Finished)
  }

  function Remaining(p: Proc): nat {
    match p
    case Handling(_, candidates) => 2 * |candidates| + 2
    case DroppingStale(_, _, rest) => 2 * |rest| + 3
    case DroppingMatched(_) => 1
    case Restoring(_) => 2
    case Indexing(_, _) => 1
    case Finished => 0
  }

  /** The process run to its end with nothing in between. */
  function Finish(s: Shared, p: Proc): Shared
    decreases Remaining(p)
  {
    if p == Finished then s else var (after, rest) := Step(s, p); Finish(after, rest)
  }

  /** What the caller of a transaction goes on to do; `db` is the database before it. */
  function FollowUp(db: Db, tx: Tx): Proc {
    if Execute(db, tx).reply != Done then Finished
    else match tx
      case CancelTx(t, _, _) =>
        if t in db.trips && db.trips[t].driver.Some? then Restoring(db.trips[t].driver.value) else Finished
      case CompleteTx(_, actor, _, _) => Restoring(actor)
      case PingTx(d) => Indexing(d, d in db.drivers && PingOnline(db, d))
      case SetStatusTx(d, status) => if status == Online then Restoring(d) else Indexing(d, false)
      case AssignTx(_, d) => DroppingMatched(d)
      case _ => Finished
  }

  // ---------- one uninterrupted handler ----------

  /** The position of the first eligible candidate, or the number of candidates. */
  function FirstEligible(db: Db, candidates: seq<UserId>): nat {
    if candidates == [] || Eligible(db, candidates[0]) then 0 else 1 + FirstEligible(db, candidates[1..])
  }

  lemma {:induction false} FirstEligibleIsFirst(db: Db, candidates: seq<UserId>)
    ensures var k := FirstEligible(db, candidates);
            && k <= |candidates|
            && (k < |candidates| ==> Eligible(db, candidates[k]))
            && (forall i :: 0 <= i < k ==> !Eligible(db, candidates[i]))
  {
    if candidates != [] && !Eligible(db, candidates[0]) {
      FirstEligibleIsFirst(db, candidates[1..]);
    }
  }

  function Elements(ds: seq<UserId>): set<UserId> {
    if ds == [] then {} else {ds[0]} + Elements(ds[1..])
  }

  lemma {:induction false} ElementsAre(ds: seq<UserId>, d: UserId)
    ensures d in Elements(ds) <==> d in ds
  {
    if ds != [] {
      ElementsAre(ds[1..], d);
    }
  }

  /** An uninterrupted handler of a requested trip matches the first eligible candidate, and takes exactly that
      driver and the ineligible ones before it out of the index. */
  lemma {:induction false} HandlerPicksTheFirstEligible(s: Shared, t: TripId, candidates: seq<UserId>)
    requires IsRequested(s.db, t)
    ensures var k := FirstEligible(s.db, candidates);
            && k <= |candidates|
            && Finish(s, Handling(t, candidates)) ==
               if k < |candidates| then Shared(Assign(s.db, t, candidates[k]).db, s.index - Elements(candidates[..k + 1]))
               else Shared(s.db, s.index - Elements(candidates))
    decreases candidates
  {
    FirstEligibleIsFirst(s.db, candidates);
    if candidates == [] {
      assert Step(s, Handling(t, candidates)) == (s, Finished);
    } else {
      var d, rest := candidates[0], candidates[1..];
      if Eligible(s.db, d) {
        var matched := Shared(Assign(s.db, t, d).db, s.index);
        assert Step(s, Handling(t, candidates)) == (matched, DroppingMatched(d));
        assert Finish(matched, DroppingMatched(d)) == Shared(matched.db, s.index - {d});
        assert candidates[..1] == [d] && Elements([d]) == {d};
      } else {
        var dropped := Shared(s.db, s.index - {d});
        assert Step(s, Handling(t, candidates)) == (s, DroppingStale(d, t, rest));
        assert Step(s, DroppingStale(d, t, rest)) == (dropped, Handling(t, rest));
        HandlerPicksTheFirstEligible(dropped, t, rest);
        var k := FirstEligible(s.db, rest);
        if k < |rest| {
          assert candidates[..k + 2][1..] == rest[..k + 1];
        }
      }
    }
  }

  /** The ineligible ones among the candidates. */
  function Ineligible(db: Db, candidates: seq<UserId>): set<UserId> {
    if candidates == [] then {}
    else (if Eligible(db, candidates[0]) then {} else {candidates[0]}) + Ineligible(db, candidates[1..])
  }

  lemma {:induction false} IneligibleAre(db: Db, candidates: seq<UserId>, d: UserId)
    ensures d in Ineligible(db, candidates) <==> d in candidates && !Eligible(db, d)
  {
    if candidates != [] {
      IneligibleAre(db, candidates[1..], d);
    }
  }

  /** A duplicate or late delivery matches nobody and only takes ineligible candidates out of the index. */
  lemma {:induction false} LateHandlerOnlyTidies(s: Shared, t: TripId, candidates: seq<UserId>)
    requires !IsRequested(s.db, t)
    ensures Finish(s, Handling(t, candidates)) == Shared(s.db, s.index - Ineligible(s.db, candidates))
    decreases candidates
  {
    if candidates == [] {
      assert Step(s, Handling(t, candidates)) == (s, Finished);
    } else {
      var d, rest := candidates[0], candidates[1..];
      if Eligible(s.db, d) {
        assert Step(s, Handling(t, candidates)) == (s, Handling(t, rest));
        LateHandlerOnlyTidies(s, t, rest);
      } else {
        var dropped := Shared(s.db, s.index - {d});
        assert Step(s, Handling(t, candidates)) == (s, DroppingStale(d, t, rest));
        assert Step(s, DroppingStale(d, t, rest)) == (dropped, Handling(t, rest));
        LateHandlerOnlyTidies(dropped, t, rest);
      }
    }
  }

  // ---------- runs in which nothing is interrupted ----------

  datatype Call = Request(tx: Tx) | Deliver(trip: TripId, candidates: seq<UserId>)

  function Perform(s: Shared, c: Call): Shared {
    match c
    case Request(tx) => Finish(s.(db := Execute(s.db, tx).db), FollowUp(s.db, tx))
    case Deliver(t, candidates) => Finish(s, Handling(t, candidates))
  }

  function PerformAll(s: Shared, calls: seq<Call>): Shared {
    if calls == [] then s else Perform(PerformAll(s, calls[..|calls| - 1]), calls[|calls| - 1])
  }

  predicate IsOnline(db: Db, d: UserId) {
    d in db.drivers && db.drivers[d].status == Online
  }

  ghost predicate IndexedAreOnline(s: Shared) {
    forall d :: d in s.index ==> IsOnline(s.db, d)
  }

  /** Which drivers a transaction may take offline: the one its follow-up removes from the index. */
  lemma LeavingOnline(db: Db, tx: Tx, d: UserId)
    requires IsOnline(db, d) && !IsOnline(Execute(db, tx).db, d)
    ensures FollowUp(db, tx) == DroppingMatched(d) || FollowUp(db, tx) == Indexing(d, false)
  {}

  /** Which drivers a follow-up adds: only ones the transaction has put or left online. */
  lemma AddingOnline(db: Db, tx: Tx, d: UserId)
    requires AllCoherent(db)
    requires FollowUp(db, tx) == Restoring(d) || FollowUp(db, tx) == Indexing(d, true)
    ensures IsOnline(Execute(db, tx).db, d)
  {
    if tx.CancelTx? {
      assert Coherent(db, tx.trip);
    } else if tx.CompleteTx? {
      assert Coherent(db, tx.trip);
    }
  }

  /** What an uninterrupted follow-up does to the index. */
  function IndexAfter(s: Shared, p: Proc): set<UserId> {
    match p
    case Restoring(d) => if d in s.db.drivers && s.db.drivers[d].located then s.index + {d} else s.index
    case Indexing(d, add) => if add then s.index + {d} else s.index - {d}
    case DroppingMatched(d) => s.index - {d}
    case _ => s.index
  }

  lemma FinishFollowUp(s: Shared, p: Proc)
    requires !p.Handling? && !p.DroppingStale?
    ensures Finish(s, p) == Shared(s.db, IndexAfter(s, p))
  {
    var (after, rest) := Step(s, p);
    if p.Restoring? && rest.Indexing? {
      assert Finish(after, rest) == Step(after, rest).0;
    }
  }

  lemma RequestKeepsIndexed(s: Shared, tx: Tx)
    requires AllCoherent(s.db) && IndexedAreOnline(s)
    ensures IndexedAreOnline(Perform(s, Request(tx)))
  {
    var p := FollowUp(s.db, tx);
    var committed := s.(db := Execute(s.db, tx).db);
    FinishFollowUp(committed, p);
    forall d | d in Perform(s, Request(tx)).index
      ensures IsOnline(committed.db, d)
    {
      if p == Restoring(d) || p == Indexing(d, true) {
        AddingOnline(s.db, tx, d);
      } else {
        assert IsOnline(s.db, d);
        if !IsOnline(committed.db, d) {
          LeavingOnline(s.db, tx, d);
        }
      }
    }
  }

  lemma AssignTakesOneOffline(db: Db, t: TripId, d: UserId, e: UserId)
    requires IsOnline(db, e) && e != d
    ensures IsOnline(Assign(db, t, d).db, e)
  {}

  lemma DeliveryKeepsIndexed(s: Shared, t: TripId, candidates: seq<UserId>)
    requires IndexedAreOnline(s)
    ensures IndexedAreOnline(Perform(s, Deliver(t, candidates)))
  {
    if IsRequested(s.db, t) {
      HandlerPicksTheFirstEligible(s, t, candidates);
      var k := FirstEligible(s.db, candidates);
      if k < |candidates| {
        ElementsAre(candidates[..k + 1], candidates[k]);
        forall e | e in s.index && e != candidates[k]
          ensures IsOnline(Assign(s.db, t, candidates[k]).db, e)
        {
          AssignTakesOneOffline(s.db, t, candidates[k], e);
        }
      }
    } else {
      LateHandlerOnlyTidies(s, t, candidates);
    }
  }

  /** The transactions of an uninterrupted run, in order. */
  function CallTxs(s: Shared, c: Call): seq<Tx> {
    match c
    case Request(tx) => [tx]
    case Deliver(t, candidates) =>
      var k := FirstEligible(s.db, candidates);
      if IsRequested(s.db, t) && k < |candidates| then [AssignTx(t, candidates[k])] else []
  }

  lemma CallIsItsTransactions(s: Shared, c: Call)
    ensures Perform(s, c).db == Run(s.db, CallTxs(s, c))
  {
    match c {
      case Request(tx) =>
        FinishFollowUp(s.(db := Execute(s.db, tx).db), FollowUp(s.db, tx));
        assert [tx][..0] == [];
      case Deliver(t, candidates) =>
        if IsRequested(s.db, t) {
          HandlerPicksTheFirstEligible(s, t, candidates);
          var k := FirstEligible(s.db, candidates);
          if k < |candidates| {
            assert [AssignTx(t, candidates[k])][..0] == [];
          }
        } else {
          LateHandlerOnlyTidies(s, t, candidates);
        }
    }
  }

  lemma CallKeepsCoherent(s: Shared, c: Call)
    requires AllCoherent(s.db)
    ensures AllCoherent(Perform(s, c).db)
  {
    CallIsItsTransactions(s, c);
    var txs := CallTxs(s, c);
    if txs != [] {
      assert txs[..0] == [];
      ExecuteKeepsCoherent(s.db, txs[0]);
    }
  }

  /** While nothing is interrupted the index holds only drivers that PostgreSQL has online. */
  lemma {:induction false} UninterruptedIndexIsOnline(s: Shared, calls: seq<Call>)
    requires Initial(s.db) && IndexedAreOnline(s)
    ensures AllCoherent(PerformAll(s, calls).db) && IndexedAreOnline(PerformAll(s, calls))
  {
    if calls == [] {
      EveryRunIsCoherent(s.db, []);
    } else {
      UninterruptedIndexIsOnline(s, calls[..|calls| - 1]);
      var before, c := PerformAll(s, calls[..|calls| - 1]), calls[|calls| - 1];
      CallKeepsCoherent(before, c);
      match c {
        case Request(tx) => RequestKeepsIndexed(before, tx);
        case Deliver(t, candidates) => DeliveryKeepsIndexed(before, t, candidates);
      }
    }
  }

  // ---------- repair ----------

  /** From any index, one uninterrupted ping makes membership mean online, except for a driver who is online in
      the middle of a trip; nobody else's membership changes. */
  lemma PingRepairsTheIndex(s: Shared, d: UserId)
    requires d in s.db.drivers && s.db.drivers[d].status != Suspended
    ensures var after := Perform(s, Request(PingTx(d)));
            && ((d in after.index <==> IsOnline(after.db, d)) <==> !(IsOnline(s.db, d) && HasActiveTrip(s.db, d)))
            && after.index - {d} == s.index - {d}
  {
    FinishFollowUp(s.(db := Ping(s.db, d).db), FollowUp(s.db, PingTx(d)));
  }

  /** So under driver exclusivity a ping always repairs the driver's entry. */
  lemma PingRepairsExclusiveIndex(db: Db, txs: seq<Tx>, index: set<UserId>, d: UserId)
    requires Initial(db) && HarmlessThroughout(db, txs)
    requires d in Run(db, txs).drivers && Run(db, txs).drivers[d].status != Suspended
    ensures var after := Perform(Shared(Run(db, txs), index), Request(PingTx(d)));
            d in after.index <==> IsOnline(after.db, d)
  {
    HarmlessRunsStayExclusive(db, txs, |txs|);
    assert txs[..|txs|] == txs;
    PingRepairsTheIndex(Shared(Run(db, txs), index), d);
  }

  /** Interrupted, the index can list a driver on a trip: a cancellation frees the driver and is about to
      restore the entry, another trip is matched to the driver and the entry removed, and then the restore
      runs. The next handler that considers the driver only removes the entry again. */
  lemma LateRestoreLeavesAStaleEntry(s: Shared, t: TripId, u: TripId, rider: UserId, d: UserId)
    requires t != u && d in s.db.drivers && s.db.drivers[d].located && s.db.drivers[d].vehicle.Some?
    requires t in s.db.trips && s.db.trips[t] == Trip(rider, Some(d), s.db.drivers[d].vehicle, Matched, None)
    requires IsRequested(s.db, u)
    ensures var cancel := CancelTx(t, rider, Rider);
            var cancelled := Step(s.(db := Execute(s.db, cancel).db), FollowUp(s.db, cancel));
            var matched := Finish(cancelled.0, Handling(u, [d]));
            var stale := Finish(matched, cancelled.1);
            && d in stale.index && d in stale.db.drivers && stale.db.drivers[d].status == OnTrip && Drives(stale.db, d, u)
            && forall other: TripId ::
                 Finish(stale, Handling(other, [d])) == stale.(index := stale.index - {d})
  {
    var cancel := CancelTx(t, rider, Rider);
    var cancelled := Step(s.(db := Execute(s.db, cancel).db), FollowUp(s.db, cancel));
    assert cancelled.1 == Indexing(d, true);
    assert IsRequested(cancelled.0.db, u) && Eligible(cancelled.0.db, d);
    HandlerPicksTheFirstEligible(cancelled.0, u, [d]);
    var matched := Finish(cancelled.0, Handling(u, [d]));
    assert matched.db == Assign(cancelled.0.db, u, d).db;
    FinishFollowUp(matched, cancelled.1);
    var stale := Finish(matched, cancelled.1);
    forall other: TripId
      ensures Finish(stale, Handling(other, [d])) == stale.(index := stale.index - {d})
    {
      ElementsAre([d], d);
      if IsRequested(stale.db, other) {
        HandlerPicksTheFirstEligible(stale, other, [d]);
      } else {
        LateHandlerOnlyTidies(stale, other, [d]);
      }
    }
  }
}
