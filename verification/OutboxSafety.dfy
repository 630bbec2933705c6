/**
 What every interleaving of publishers, failures and rollbacks keeps: publishers hold disjoint rows, every send
 is accounted for exactly once, and nothing is marked published that the broker did not acknowledge.
 */
module OutboxSafety {
  import opened Trips
  import opened TripMessages
  import opened Outbox

  lemma InFlightRowsExist(o: State, i: nat)
    requires Inv(o)
    ensures InFlight(o, i) ==> i < |o.rows|
  {}

  /** A row held by one publisher was sent by no other. */
  lemma OthersDidNotSend(o: State, p: Publisher, q: Publisher, i: nat)
    requires Disjoint(o) && p in o.sessions && q in o.sessions && p != q && i in o.sessions[q].rows
    ensures !SentBy(o.sessions[p], i)
  {}

  lemma AppendKeepsInv(o: State, e: Event)
    requires Inv(o)
    ensures Inv(Step(o, Append(e)))
  {
    var after := Step(o, Append(e));
    NoTriesBeyond(o.tries, |o.rows|);
    InFlightRowsExist(o, |o.rows|);
    forall p | p in after.sessions
      ensures SessionOk(after, p)
    {
      assert SessionOk(o, p);
    }
    forall i: nat | i < |after.rows|
      ensures RowOk(after, i)
    {
      assert InFlight(after, i) == InFlight(o, i);
      if i < |o.rows| {
        assert RowOk(o, i);
      }
    }
  }

  /** Opening a transaction on rows that are available. */
  lemma OpenKeepsInv(o: State, p: Publisher, ids: seq<nat>)
    requires Inv(o) && p !in o.sessions && Increasing(ids)
    requires forall k :: 0 <= k < |ids| ==> ids[k] < |o.rows| && Available(o, ids[k])
    ensures Inv(State(o.rows, o.sessions[p := Session(ids, [])], o.tries))
  {
    var after := State(o.rows, o.sessions[p := Session(ids, [])], o.tries);
    forall q | q in after.sessions
      ensures SessionOk(after, q)
    {
      if q != p {
        assert SessionOk(o, q);
      }
    }
    forall q, i | q in o.sessions && i in o.sessions[q].rows
      ensures i !in ids
    {
      assert Locked(o, i);
    }
    assert Disjoint(after);
    forall i: nat | i < |after.rows|
      ensures RowOk(after, i)
    {
      assert RowOk(o, i);
      NewSessionHasSentNothing(o, p, ids, i);
    }
  }

  lemma NewSessionHasSentNothing(o: State, p: Publisher, ids: seq<nat>, i: nat)
    requires p !in o.sessions
    ensures InFlight(State(o.rows, o.sessions[p := Session(ids, [])], o.tries), i) == InFlight(o, i)
  {
    var after := State(o.rows, o.sessions[p := Session(ids, [])], o.tries);
    if InFlight(o, i) {
      var q :| q in o.sessions && SentBy(o.sessions[q], i);
      assert q in after.sessions && SentBy(after.sessions[q], i);
    }
    if InFlight(after, i) {
      var q :| q in after.sessions && SentBy(after.sessions[q], i);
      assert q in o.sessions && SentBy(o.sessions[q], i);
    }
  }

  lemma NextIsNotInFlight(o: State, p: Publisher)
    requires Inv(o) && CanSend(o, p)
    ensures !InFlight(o, o.sessions[p].rows[|o.sessions[p].outcomes|])
  {
    var s := o.sessions[p];
    var id := s.rows[|s.outcomes|];
    assert SessionOk(o, p);
    forall q | q in o.sessions
      ensures !SentBy(o.sessions[q], id)
    {
      if q != p {
        assert id in s.rows;
        OthersDidNotSend(o, q, p, id);
      }
    }
  }

  lemma OneMoreSent(s: Session, outcome: Outcome, i: nat)
    requires |s.outcomes| < |s.rows|
    ensures SentBy(Session(s.rows, s.outcomes + [outcome]), i) <==> SentBy(s, i) || s.rows[|s.outcomes|] == i
  {
    if SentBy(s, i) {
      var k :| 0 <= k < |s.outcomes| && k < |s.rows| && s.rows[k] == i;
      assert k < |s.outcomes + [outcome]|;
    }
  }

  /** Sending adds the one row to what is in flight. */
  lemma SendPutsInFlight(o: State, p: Publisher, outcome: Outcome, i: nat)
    requires CanSend(o, p)
    ensures InFlight(Step(o, Send(p, outcome)), i) <==>
            InFlight(o, i) || i == o.sessions[p].rows[|o.sessions[p].outcomes|]
  {
    var after := Step(o, Send(p, outcome));
    OneMoreSent(o.sessions[p], outcome, i);
    assert p in after.sessions && (SentBy(after.sessions[p], i) ==> InFlight(after, i));
    if InFlight(o, i) {
      var q :| q in o.sessions && SentBy(o.sessions[q], i);
      assert q in after.sessions && SentBy(after.sessions[q], i);
    }
    if InFlight(after, i) {
      var q :| q in after.sessions && SentBy(after.sessions[q], i);
      assert q in o.sessions;
      assert q != p ==> SentBy(o.sessions[q], i);
    }
  }

  lemma MessagesAgree(p: Publisher, r: Row)
    ensures MessageFrom(p, r) == MessageOf(r)
  {
    if r.event.kind.TripMatched? {
      PublishersAgree(r.event.trip, r.event.kind.driver, r.event.kind.vehicle);
    }
  }

  lemma SendKeepsSession(o: State, p: Publisher, outcome: Outcome, q: Publisher)
    requires CanSend(o, p) && q in o.sessions && SessionOk(o, q)
    ensures SessionOk(Step(o, Send(p, outcome)), q)
  {
    var after, s := Step(o, Send(p, outcome)), Step(o, Send(p, outcome)).sessions[q];
    var t := after.tries[|o.tries|];
    forall k | 0 <= k < |s.outcomes| && s.outcomes[k] == Acknowledged
      ensures AckedIn(after.tries, s.rows[k])
    {
      TriesSnoc(o.tries, t, s.rows[k]);
    }
  }

  lemma SendKeepsRow(o: State, p: Publisher, outcome: Outcome, i: nat)
    requires Inv(o) && CanSend(o, p) && i < |o.rows|
    ensures RowOk(Step(o, Send(p, outcome)), i)
  {
    assert RowOk(o, i);
    NextIsNotInFlight(o, p);
    SendPutsInFlight(o, p, outcome, i);
    TriesSnoc(o.tries, Step(o, Send(p, outcome)).tries[|o.tries|], i);
  }

  lemma SendKeepsInv(o: State, p: Publisher, outcome: Outcome)
    requires Inv(o) && CanSend(o, p)
    ensures Inv(Step(o, Send(p, outcome)))
  {
    var after := Step(o, Send(p, outcome));
    forall q | q in after.sessions
      ensures SessionOk(after, q)
    {
      SendKeepsSession(o, p, outcome, q);
    }
    SendKeepsTheRest(o, p, outcome);
    forall i: nat | i < |after.rows|
      ensures RowOk(after, i)
    {
      SendKeepsRow(o, p, outcome, i);
    }
  }

  lemma SendKeepsTheRest(o: State, p: Publisher, outcome: Outcome)
    requires Disjoint(o) && TriesOk(o) && CanSend(o, p)
    ensures var after := Step(o, Send(p, outcome)); Disjoint(after) && TriesOk(after)
  {
    var after := Step(o, Send(p, outcome));
    assert forall q :: q in o.sessions ==> after.sessions[q].rows == o.sessions[q].rows;
    MessagesAgree(p, o.rows[after.tries[|o.tries|].row]);
  }

  /** Closing a transaction takes its sent rows, and no others, out of flight. */
  lemma CloseLandsItsRows(o: State, p: Publisher, rows: seq<Row>, i: nat)
    requires Disjoint(o) && p in o.sessions
    ensures InFlight(State(rows, o.sessions - {p}, o.tries), i) <==> InFlight(o, i) && !SentBy(o.sessions[p], i)
  {
    var after := State(rows, o.sessions - {p}, o.tries);
    if InFlight(after, i) {
      var q :| q in after.sessions && SentBy(after.sessions[q], i);
      assert q in o.sessions && SentBy(o.sessions[q], i);
      OthersDidNotSend(o, p, q, i);
    }
    if InFlight(o, i) && !SentBy(o.sessions[p], i) {
      var q :| q in o.sessions && SentBy(o.sessions[q], i);
      assert q in after.sessions && SentBy(after.sessions[q], i);
    }
  }

  lemma SentRowsAreInFlight(o: State, p: Publisher, i: nat)
    requires p in o.sessions && SentBy(o.sessions[p], i)
    ensures InFlight(o, i)
  {}

  /** Other open transactions do not see the rows change that a closing one held. */
  lemma CloseKeepsSessions(o: State, p: Publisher, rows: seq<Row>, q: Publisher)
    requires Inv(o) && p in o.sessions && q in o.sessions && q != p && |rows| == |o.rows|
    requires forall i: nat :: i < |rows| && !SentBy(o.sessions[p], i) ==> rows[i] == o.rows[i]
    ensures SessionOk(State(rows, o.sessions - {p}, o.tries), q)
  {
    assert SessionOk(o, q);
    var s := o.sessions[q];
    forall k | 0 <= k < |s.rows|
      ensures s.rows[k] < |rows| && !rows[s.rows[k]].published
    {
      OthersDidNotSend(o, p, q, s.rows[k]);
    }
  }

  lemma CommitKeepsRow(o: State, p: Publisher, i: nat)
    requires Inv(o) && p in o.sessions && |o.sessions[p].outcomes| == |o.sessions[p].rows| && i < |o.rows|
    ensures RowOk(Step(o, Commit(p)), i)
    ensures !SentBy(o.sessions[p], i) ==> Step(o, Commit(p)).rows[i] == o.rows[i]
  {
    var s, after := o.sessions[p], Step(o, Commit(p));
    assert SessionOk(o, p) && RowOk(o, i);
    SettleAt(o.rows, s.rows, s.outcomes, i);
    CloseLandsItsRows(o, p, after.rows, i);
    if SentBy(s, i) {
      SentRowsAreInFlight(o, p, i);
      var k :| 0 <= k < |s.outcomes| && k < |s.rows| && s.rows[k] == i;
      assert after.rows[i] == Settled(o.rows[i], s.outcomes[k]);
    }
  }

  lemma AbortKeepsRow(o: State, p: Publisher, i: nat)
    requires Inv(o) && p in o.sessions && i < |o.rows|
    ensures |o.sessions[p].outcomes| <= |o.sessions[p].rows| && RowOk(Step(o, Abort(p)), i)
    ensures Step(o, Abort(p)).rows[i].published == o.rows[i].published
    ensures !SentBy(o.sessions[p], i) ==> Step(o, Abort(p)).rows[i] == o.rows[i]
  {
    var s, after := o.sessions[p], Step(o, Abort(p));
    assert SessionOk(o, p) && RowOk(o, i);
    RollBackAt(o.rows, s.rows, s.outcomes, i);
    CloseLandsItsRows(o, p, after.rows, i);
    if SentBy(s, i) {
      SentRowsAreInFlight(o, p, i);
      var k :| 0 <= k < |s.outcomes| && k < |s.rows| && s.rows[k] == i;
      assert after.rows[i] == o.rows[i].(aborted := o.rows[i].aborted + 1);
    }
  }

  /** No step but an append touches what a row says; publication is never taken back. */
  lemma EventsStay(o: State, a: Action, i: nat)
    requires i < |o.rows|
    ensures i < |Step(o, a).rows| && Step(o, a).rows[i].event == o.rows[i].event
    ensures o.rows[i].published ==> Step(o, a).rows[i].published
  {
    if a.Commit? && a.publisher in o.sessions && |o.sessions[a.publisher].outcomes| == |o.sessions[a.publisher].rows| {
      SettleKeepsEvents(o.rows, o.sessions[a.publisher].rows, o.sessions[a.publisher].outcomes, i);
    } else if a.Abort? && a.publisher in o.sessions && |o.sessions[a.publisher].outcomes| <= |o.sessions[a.publisher].rows| {
      RollBackKeepsEvents(o.rows, o.sessions[a.publisher].rows, o.sessions[a.publisher].outcomes, i);
    }
  }

  lemma {:induction false} SettleKeepsEvents(rows: seq<Row>, ids: seq<nat>, outcomes: seq<Outcome>, i: nat)
    requires |outcomes| <= |ids| && i < |rows|
    ensures Settle(rows, ids, outcomes)[i].event == rows[i].event
    ensures rows[i].published ==> Settle(rows, ids, outcomes)[i].published
  {
    if outcomes != [] {
      SettleKeepsEvents(rows, ids, outcomes[..|outcomes| - 1], i);
    }
  }

  lemma {:induction false} RollBackKeepsEvents(rows: seq<Row>, ids: seq<nat>, outcomes: seq<Outcome>, i: nat)
    requires |outcomes| <= |ids| && i < |rows|
    ensures RollBack(rows, ids, outcomes)[i].event == rows[i].event
    ensures RollBack(rows, ids, outcomes)[i].published == rows[i].published
  {
    if outcomes != [] {
      RollBackKeepsEvents(rows, ids, outcomes[..|outcomes| - 1], i);
    }
  }

  lemma CloseKeepsInv(o: State, a: Action)
    requires Inv(o) && (a.Commit? || a.Abort?) && a.publisher in o.sessions
    requires a.Commit? ==> |o.sessions[a.publisher].outcomes| == |o.sessions[a.publisher].rows|
    ensures Inv(Step(o, a))
  {
    var p, after := a.publisher, Step(o, a);
    assert SessionOk(o, p);
    forall i: nat | i < |o.rows|
      ensures RowOk(after, i) && after.rows[i].event == o.rows[i].event
      ensures !SentBy(o.sessions[p], i) ==> after.rows[i] == o.rows[i]
    {
      EventsStay(o, a, i);
      if a.Commit? { CommitKeepsRow(o, p, i); } else { AbortKeepsRow(o, p, i); }
    }
    forall q | q in after.sessions
      ensures SessionOk(after, q)
    {
      CloseKeepsSessions(o, p, after.rows, q);
    }
  }

  lemma StepKeepsInv(o: State, a: Action)
    requires Inv(o)
    ensures Inv(Step(o, a))
  {
    if Step(o, a) != o {
      match a {
        case Append(e) => AppendKeepsInv(o, e);
        case BeginFlush(r) =>
          PickIsAvailable(o, 0, BATCH);
          OpenKeepsInv(o, Api(r), Pick(o, 0, BATCH));
        case BeginSingle(m, i) => OpenKeepsInv(o, Matcher(m), [i]);
        case Send(p, outcome) => SendKeepsInv(o, p, outcome);
        case Commit(_) => CloseKeepsInv(o, a);
        case Abort(_) => CloseKeepsInv(o, a);
      }
    }
  }

  lemma {:induction false} EveryRunKeepsInv(actions: seq<Action>)
    ensures Inv(AfterSteps(EMPTY, actions))
  {
    if actions != [] {
      EveryRunKeepsInv(actions[..|actions| - 1]);
      StepKeepsInv(AfterSteps(EMPTY, actions[..|actions| - 1]), actions[|actions| - 1]);
    }
  }

  // ---------- what the invariant says ----------

  /** Two publishers never hold the same row, and never hold a published one. */
  lemma PublishersHoldDisjointRows(actions: seq<Action>, p: Publisher, q: Publisher, i: nat)
    requires var o := AfterSteps(EMPTY, actions); p in o.sessions && i in o.sessions[p].rows
    ensures var o := AfterSteps(EMPTY, actions);
            && (q in o.sessions && i in o.sessions[q].rows ==> p == q)
            && i < |o.rows| && !o.rows[i].published
  {
    EveryRunKeepsInv(actions);
    var o := AfterSteps(EMPTY, actions);
    assert SessionOk(o, p);
    var k :| 0 <= k < |o.sessions[p].rows| && o.sessions[p].rows[k] == i;
  }

  lemma {:induction false} CopiesAreTries(tries: seq<Try>, i: nat)
    ensures Copies(tries, i) <= TriesOf(tries, i)
    ensures AckedIn(tries, i) ==> Copies(tries, i) >= 1
  {
    if tries != [] {
      var before, t := tries[..|tries| - 1], tries[|tries| - 1];
      CopiesAreTries(before, i);
      assert before + [t] == tries;
      TriesSnoc(before, t, i);
    }
  }

  /** At least once, and accounted for: a row marked published has a copy in the broker's log; every send of a row
      is either counted in its attempts, or was rolled back, or is the one still in flight; so there are never
      more copies than that; and every copy carries the row's own event, whoever sent it. */
  lemma EveryCopyIsAccountedFor(actions: seq<Action>, i: nat)
    requires i < |AfterSteps(EMPTY, actions).rows|
    ensures var o := AfterSteps(EMPTY, actions);
            var row := o.rows[i];
            var inFlight := if InFlight(o, i) then 1 else 0;
            && (row.published ==> Copies(o.tries, i) >= 1)
            && TriesOf(o.tries, i) == row.attempts + row.aborted + inFlight
            && Copies(o.tries, i) <= row.attempts + row.aborted + inFlight
            && (forall k :: 0 <= k < |o.tries| && o.tries[k].row == i ==> o.tries[k].message == MessageOf(row))
  {
    EveryRunKeepsInv(actions);
    var o := AfterSteps(EMPTY, actions);
    assert RowOk(o, i);
    CopiesAreTries(o.tries, i);
  }

  /** Rows of messages in the broker's log, told apart by nothing but the message: equal messages come from equal events. */
  lemma CopiesIdentifyTheirEvent(actions: seq<Action>, j: nat, k: nat)
    requires var o := AfterSteps(EMPTY, actions); j < |o.tries| && k < |o.tries|
    ensures var o := AfterSteps(EMPTY, actions);
            && o.tries[j].row < |o.rows| && o.tries[k].row < |o.rows|
            && (o.tries[j].message == o.tries[k].message <==> o.rows[o.tries[j].row].event == o.rows[o.tries[k].row].event)
  {
    EveryRunKeepsInv(actions);
    var o := AfterSteps(EMPTY, actions);
    var e, f := o.rows[o.tries[j].row].event, o.rows[o.tries[k].row].event;
    MessagesDetermineEvents(e.trip, e.kind, f.trip, f.kind);
  }

  /** A published row is final: it is never sent again, whatever follows. */
  lemma PublishedRowsAreNotSent(actions: seq<Action>, a: Action, i: nat)
    requires var o := AfterSteps(EMPTY, actions); i < |o.rows| && o.rows[i].published
    ensures var o := AfterSteps(EMPTY, actions);
            && i < |Step(o, a).rows| && Step(o, a).rows[i].published
            && TriesOf(Step(o, a).tries, i) == TriesOf(o.tries, i)
  {
    EveryRunKeepsInv(actions);
    var o := AfterSteps(EMPTY, actions);
    EventsStay(o, a, i);
    if a.Send? && CanSend(o, a.publisher) {
      assert SessionOk(o, a.publisher);
      TriesSnoc(o.tries, Step(o, a).tries[|o.tries|], i);
    }
  }
}
