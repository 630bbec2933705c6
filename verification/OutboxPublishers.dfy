/**
 The two publishers as they are written: the API's flush with its `outboxRunning` flag, and the matcher's
 publication of one match. `broker` says what each send comes to; other publishers may hold rows meanwhile.
 */
module OutboxPublishers {
  import opened Options
  import opened Trips
  import opened TripMessages
  import opened Outbox
  import opened OutboxProgress

  /** The `trip_events` table with the transactions that others have open on it, and the broker's side. */
  class EventTable {
    var rows: seq<Row>
    var sessions: map<Publisher, Session>
    var tries: seq<Try>

    constructor ()
      ensures Value() == EMPTY
    {
      rows := [];
      sessions := map[];
      tries := [];
    }

    ghost function Value(): State
      reads this
    {
      State(rows, sessions, tries)
    }

    method IsLocked(i: nat) returns (locked: bool)
      ensures locked == Locked(Value(), i)
    {
      locked := exists p :: p in sessions && i in sessions[p].rows;
    }

    /** `WHERE published_at IS NULL ORDER BY id LIMIT 50 FOR UPDATE SKIP LOCKED`. */
    method SelectPending() returns (ids: seq<nat>)
      ensures ids == Pick(Value(), 0, 50)
    {
      ids := [];
      var i := 0;
      while i < |rows| && |ids| < BATCH
        invariant 0 <= i <= |rows| && |ids| <= BATCH
        invariant Pick(Value(), 0, BATCH) == ids + Pick(Value(), i, BATCH - |ids|)
      {
        var locked := IsLocked(i);
        if !rows[i].published && !locked {
          assert Pick(Value(), i, BATCH - |ids|) == [i] + Pick(Value(), i + 1, BATCH - |ids| - 1);
          ids := ids + [i];
        }
        i := i + 1;
      }
    }
  }

  /** The outbox part of `TripsService`. */
  class TripsOutbox {
    const table: EventTable
    const replica: nat
    var outboxRunning: bool

    constructor (table: EventTable, replica: nat)
      ensures this.table == table && this.replica == replica && !outboxRunning
    {
      this.table := table;
      this.replica := replica;
      outboxRunning := false;
    }

    /** The flag is up exactly while a flush of this replica is open. */
    ghost predicate Valid()
      reads this, table
    {
      outboxRunning <==> Api(replica) in table.sessions
    }

    /** `lostAfter` is the number of sends after which a query fails, if one does. */
    method PublishPendingTripEvents(broker: Broker, lostAfter: Option<nat>)
      requires Valid()
      modifies this`outboxRunning, table`rows, table`tries
      ensures Valid()
      ensures var was := old(table.Value());
              table.Value() == if lostAfter.Some? && lostAfter.value <= |Pick(was, 0, BATCH)|
                               then FailedFlush(was, replica, broker, lostAfter.value)
                               else Flush(was, replica, broker)
    {
      if outboxRunning {
        return;
      }
      outboxRunning := true;
      ghost var was := table.Value();
      var ids := table.SelectPending();
      PickIsAvailable(was, 0, BATCH);
      if lostAfter.Some? && lostAfter.value <= |ids| {
        var lost := SendRows(ids, broker, lostAfter.value);
        table.rows := RollBack(table.rows, ids, Answers(broker, ids, lostAfter.value));
        FailedFlushIs(was, replica, broker, ids, lostAfter.value);
      } else {
        var changed := SendRows(ids, broker, |ids|);
        table.rows := changed;
        FlushIs(was, replica, broker, ids);
      }
      outboxRunning := false;
    }

    /** The loop over the selected rows; `changed` is the table as the transaction sees it. */
    method SendRows(ids: seq<nat>, broker: Broker, count: nat) returns (changed: seq<Row>)
      requires count <= |ids| && forall j :: 0 <= j < |ids| ==> ids[j] < |table.rows|
      modifies table`tries
      ensures changed == Settle(table.rows, ids, Answers(broker, ids, count))
      ensures table.tries == old(table.tries) + Sends(table.rows, ids, broker, count)
    {
      changed := table.rows;
      ghost var rows, sent := table.rows, table.tries;
      NothingSentYet(rows, sent, ids, broker);
      for n := 0 to count
        invariant table.rows == rows && |changed| == |rows|
        invariant SoFar(rows, sent, ids, broker, n, changed, table.tries)
      {
        OneMoreRow(rows, sent, ids, broker, n, changed, table.tries);
        var outcome := PublishTripEvent(ids[n], broker);
        changed := Mark(changed, ids[n], outcome);
      }
    }

    method PublishTripEvent(id: nat, broker: Broker) returns (outcome: Outcome)
      requires id < |table.rows|
      modifies table`tries
      ensures outcome == broker(id)
      ensures table.tries == old(table.tries) + [Try(id, MessageOf(table.rows[id]), outcome)]
    {
      var message := OutboxPayload(table.rows[id].event.trip, table.rows[id].event.kind);
      outcome := broker(id);
      table.tries := table.tries + [Try(id, message, outcome)];
    }

    /** The update after a send. */
    static method Mark(rows: seq<Row>, id: nat, outcome: Outcome) returns (changed: seq<Row>)
      requires id < |rows|
      ensures changed == rows[id := Settled(rows[id], outcome)]
    {
      var row := rows[id];
      if outcome == Acknowledged {
        row := row.(published := true, attempts := row.attempts + 1);
      } else {
        row := row.(attempts := row.attempts + 1);
      }
      changed := rows[id := row];
    }
  }

  /** The transaction's view of the table and the log of sends after `n` sends. */
  ghost predicate SoFar(rows: seq<Row>, sent: seq<Try>, ids: seq<nat>, broker: Broker, n: nat, changed: seq<Row>, tries: seq<Try>)
    requires n <= |ids| && InRange(ids, rows)
  {
    && changed == Settle(rows, ids, Answers(broker, ids, n))
    && tries == sent + Sends(rows, ids, broker, n)
  }

  lemma NothingSentYet(rows: seq<Row>, sent: seq<Try>, ids: seq<nat>, broker: Broker)
    requires InRange(ids, rows)
    ensures SoFar(rows, sent, ids, broker, 0, rows, sent)
  {}

  lemma SettleSnoc(rows: seq<Row>, ids: seq<nat>, outcomes: seq<Outcome>, outcome: Outcome)
    requires |outcomes| < |ids| && ids[|outcomes|] < |rows|
    ensures var before, id := Settle(rows, ids, outcomes), ids[|outcomes|];
            Settle(rows, ids, outcomes + [outcome]) == before[id := Settled(before[id], outcome)]
  {
    assert (outcomes + [outcome])[..|outcomes|] == outcomes;
  }

  lemma OneMoreSent(sent: seq<Try>, rows: seq<Row>, ids: seq<nat>, broker: Broker, n: nat)
    requires n < |ids| && InRange(ids, rows)
    ensures (sent + Sends(rows, ids, broker, n)) + [Try(ids[n], MessageOf(rows[ids[n]]), broker(ids[n]))] ==
            sent + Sends(rows, ids, broker, n + 1)
  {}

  lemma OneMoreRow(rows: seq<Row>, sent: seq<Try>, ids: seq<nat>, broker: Broker, n: nat, changed: seq<Row>, tries: seq<Try>)
    requires n < |ids| && InRange(ids, rows) && |changed| == |rows|
    requires SoFar(rows, sent, ids, broker, n, changed, tries)
    ensures var id := ids[n];
            SoFar(rows, sent, ids, broker, n + 1,
                  changed[id := Settled(changed[id], broker(id))], tries + [Try(id, MessageOf(rows[id]), broker(id))])
  {
    SettleSnoc(rows, ids, Answers(broker, ids, n), broker(ids[n]));
    OneMoreSent(sent, rows, ids, broker, n);
  }

  /** How the matcher's transaction ends: a query that fails, before or after the send, rolls it back. */
  datatype Ending = Committed | LostBeforeSend | LostAfterSend

  /** One run of the matcher's publication, with nothing in between. */
  function PublishOne(o: State, run: nat, i: nat, outcome: Outcome, ending: Ending): State {
    var begun := Step(o, BeginSingle(run, i));
    if begun == o then o else Ended(begun, Matcher(run), outcome, ending)
  }

  /** The rest of a publication that has begun. */
  function Ended(begun: State, p: Publisher, outcome: Outcome, ending: Ending): State {
    match ending
    case Committed => Step(Step(begun, Send(p, outcome)), Commit(p))
    case LostBeforeSend => Step(begun, Abort(p))
    case LostAfterSend => Step(Step(begun, Send(p, outcome)), Abort(p))
  }

  lemma Begun(o: State, run: nat, i: nat)
    requires Matcher(run) !in o.sessions && i < |o.rows| && o.rows[i].event.kind.TripMatched? && Available(o, i)
    ensures var begun := Step(o, BeginSingle(run, i));
            begun == State(o.rows, o.sessions[Matcher(run) := Session([i], [])], o.tries) && begun != o
  {
    assert Matcher(run) in o.sessions[Matcher(run) := Session([i], [])];
  }

  lemma SentOnce(o: State, begun: State, p: Publisher, i: nat, outcome: Outcome)
    requires p !in o.sessions && i < |o.rows| && begun == State(o.rows, o.sessions[p := Session([i], [])], o.tries)
    ensures Step(begun, Send(p, outcome)) ==
            State(o.rows, o.sessions[p := Session([i], [outcome])], o.tries + [Try(i, MessageFrom(p, o.rows[i]), outcome)])
  {
    assert begun.sessions[p] == Session([i], []);
    ReopenedOrClosed(o.sessions, p, Session([i], []), Session([i], [outcome]));
    assert [] + [outcome] == [outcome];
  }

  /** What a publication leaves behind: nothing changes unless the row is free; then it is marked by the outcome of its
      send, or, if the transaction is lost, keeps its mark while the send stands. */
  function Published(o: State, run: nat, i: nat, outcome: Outcome, ending: Ending): State
    requires i < |o.rows|
  {
    if !Available(o, i) || ending == LostBeforeSend then o
    else
      var row := o.rows[i];
      State(o.rows[i := if ending == Committed then Settled(row, outcome) else row.(aborted := row.aborted + 1)], o.sessions,
            o.tries + [Try(i, MessageFrom(Matcher(run), row), outcome)])
  }

  lemma EndedIs(o: State, begun: State, run: nat, i: nat, outcome: Outcome, ending: Ending)
    requires Matcher(run) !in o.sessions && i < |o.rows| && Available(o, i)
    requires begun == State(o.rows, o.sessions[Matcher(run) := Session([i], [])], o.tries)
    ensures Ended(begun, Matcher(run), outcome, ending) == Published(o, run, i, outcome, ending)
  {
    if ending == LostBeforeSend {
      ClosedUnsent(o, Matcher(run), Session([i], []));
    } else {
      SentOnce(o, begun, Matcher(run), i, outcome);
      var sent := o.tries + [Try(i, MessageFrom(Matcher(run), o.rows[i]), outcome)];
      ClosedSent(o, sent, Matcher(run), Session([i], [outcome]), i, outcome);
    }
  }

  lemma PublishOneIs(o: State, run: nat, i: nat, outcome: Outcome, ending: Ending)
    requires Matcher(run) !in o.sessions && i < |o.rows| && o.rows[i].event.kind.TripMatched?
    ensures PublishOne(o, run, i, outcome, ending) == Published(o, run, i, outcome, ending)
  {
    if Available(o, i) {
      Begun(o, run, i);
      EndedIs(o, Step(o, BeginSingle(run, i)), run, i, outcome, ending);
    }
  }

  lemma ClosedUnsent(o: State, p: Publisher, s: Session)
    requires p !in o.sessions && s.outcomes == []
    ensures Step(State(o.rows, o.sessions[p := s], o.tries), Abort(p)) == o
  {
    Closed(o.rows, o.sessions, o.tries, p, s);
    NoOutcome(o.rows, s);
  }

  lemma ClosedSent(o: State, sent: seq<Try>, p: Publisher, s: Session, i: nat, outcome: Outcome)
    requires p !in o.sessions && i < |o.rows| && s == Session([i], [outcome])
    ensures var open, row := State(o.rows, o.sessions[p := s], sent), o.rows[i];
            && Step(open, Commit(p)) == State(o.rows[i := Settled(row, outcome)], o.sessions, sent)
            && Step(open, Abort(p)) == State(o.rows[i := row.(aborted := row.aborted + 1)], o.sessions, sent)
  {
    Closed(o.rows, o.sessions, sent, p, s);
    OneSettled(o.rows, s.rows, s.outcomes);
    OneRolledBack(o.rows, s.rows, s.outcomes);
  }

  lemma OneSettled(rows: seq<Row>, ids: seq<nat>, outcomes: seq<Outcome>)
    requires |ids| == |outcomes| == 1 && ids[0] < |rows|
    ensures Settle(rows, ids, outcomes) == rows[ids[0] := Settled(rows[ids[0]], outcomes[0])]
  {
    assert outcomes[..0] == [];
  }

  lemma OneRolledBack(rows: seq<Row>, ids: seq<nat>, outcomes: seq<Outcome>)
    requires |ids| == |outcomes| == 1 && ids[0] < |rows|
    ensures RollBack(rows, ids, outcomes) == rows[ids[0] := rows[ids[0]].(aborted := rows[ids[0]].aborted + 1)]
  {
    assert outcomes[..0] == [];
  }

  lemma NoOutcome(rows: seq<Row>, s: Session)
    requires s.outcomes == []
    ensures RollBack(rows, s.rows, s.outcomes) == rows
  {}

  /** The outbox part of the matcher. */
  class MatchPublisher {
    const table: EventTable
    const run: nat

    constructor (table: EventTable, run: nat)
      ensures this.table == table && this.run == run
    {
      this.table := table;
      this.run := run;
    }

    /** Publishes the event a match has just committed, with the message built from the match. */
    method PublishTripEvent(eventId: nat, t: TripId, d: UserId, v: VehicleId, broker: Broker, ending: Ending)
      requires Matcher(run) !in table.sessions
      requires eventId < |table.rows| && table.rows[eventId].event == Event(t, TripMatched(d, v))
      modifies table`rows, table`tries
      ensures table.Value() == Published(old(table.Value()), run, eventId, broker(eventId), ending)
    {
      var locked := table.IsLocked(eventId);
      if table.rows[eventId].published || locked || ending == LostBeforeSend {
        return;
      }
      var outcome := broker(eventId);
      table.tries := table.tries + [Try(eventId, MatcherMessage(t, d, v), outcome)];
      var row := MarkUnlessLost(table.rows[eventId], outcome, ending);
      table.rows := table.rows[eventId := row];
    }

    /** The update after the send, unless the transaction is lost. */
    static method MarkUnlessLost(was: Row, outcome: Outcome, ending: Ending) returns (row: Row)
      ensures row == if ending == Committed then Settled(was, outcome) else was.(aborted := was.aborted + 1)
    {
      row := was;
      if ending != Committed {
        row := row.(aborted := row.aborted + 1);
      } else if outcome == Acknowledged {
        row := row.(published := true, attempts := row.attempts + 1);
      } else {
        row := row.(attempts := row.attempts + 1);
      }
    }
  }
}
