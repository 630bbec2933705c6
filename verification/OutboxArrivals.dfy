/**
 Events that arrive while a replica flushes to a broker that acknowledges: every row has its turn, after one flush for
 each fifty rows that were waiting before it, however many arrive behind it.
 */
module OutboxArrivals {
  import opened Trips
  import opened Outbox
  import opened OutboxProgress

  datatype Turn = Arrives(event: Event) | Flushes

  /** Arrivals and whole flushes, in any order. */
  function AfterTurns(o: State, r: nat, turns: seq<Turn>): State {
    if turns == [] then o else TakeTurn(AfterTurns(o, r, turns[..|turns| - 1]), r, turns[|turns| - 1])
  }

  function TakeTurn(o: State, r: nat, turn: Turn): State {
    match turn
    case Arrives(e) => Step(o, Append(e))
    case Flushes => Flush(o, r, NoFailures())
  }

  function FlushCount(turns: seq<Turn>): nat {
    if turns == [] then 0 else FlushCount(turns[..|turns| - 1]) + FlushesIn(turns[|turns| - 1])
  }

  function FlushesIn(turn: Turn): nat {
    if turn.Flushes? then 1 else 0
  }

  lemma {:induction false} ArrivalsQueueUp(o: State, e: Event, i: nat)
    requires i <= |o.rows|
    ensures Waiting(o, i) <= Waiting(Step(o, Append(e)), i)
    decreases |o.rows| - i
  {
    if i < |o.rows| {
      ArrivalsQueueUp(o, e, i + 1);
      assert Locked(Step(o, Append(e)), i) == Locked(o, i);
    }
  }

  lemma {:induction false} WaitingIsUnpublished(o: State, i: nat)
    ensures forall k :: 0 <= k < |Waiting(o, i)| ==> Waiting(o, i)[k] < |o.rows| && !o.rows[Waiting(o, i)[k]].published
    decreases |o.rows| - i
  {
    if i < |o.rows| {
      WaitingIsUnpublished(o, i + 1);
    }
  }

  /** The row is still waiting behind `q` others. */
  ghost predicate WaitsAt(o: State, id: nat, q: nat) {
    q < |Waiting(o, 0)| && Waiting(o, 0)[q] == id
  }

  ghost predicate IsPublished(o: State, id: nat) {
    id < |o.rows| && o.rows[id].published
  }

  lemma ArrivalKeepsPlaces(o: State, e: Event, id: nat, q: nat)
    ensures WaitsAt(o, id, q) ==> WaitsAt(Step(o, Append(e)), id, q)
    ensures IsPublished(o, id) ==> IsPublished(Step(o, Append(e)), id)
  {
    ArrivalsQueueUp(o, e, 0);
  }

  lemma FlushKeepsPublished(o: State, r: nat, broker: Broker, id: nat)
    requires Api(r) !in o.sessions && IsPublished(o, id)
    ensures IsPublished(Flush(o, r, broker), id)
  {
    FlushIs(o, r, broker, Pick(o, 0, BATCH));
    PickIsAvailable(o, 0, BATCH);
    SettledBatch(o.rows, Pick(o, 0, BATCH), broker, id);
  }

  lemma FlushPublishesTheHead(o: State, r: nat, id: nat, q: nat)
    requires Api(r) !in o.sessions && WaitsAt(o, id, q) && q < BATCH
    ensures IsPublished(Flush(o, r, NoFailures()), id)
  {
    PickIsTheHead(o, 0, BATCH);
    assert Pick(o, 0, BATCH)[q] == id;
    WaitingIsUnpublished(o, 0);
    FlushIs(o, r, NoFailures(), Pick(o, 0, BATCH));
    PickIsAvailable(o, 0, BATCH);
    SettledBatch(o.rows, Pick(o, 0, BATCH), NoFailures(), id);
  }

  lemma FlushMovesTheRestUp(o: State, r: nat, id: nat, q: nat)
    requires Api(r) !in o.sessions && WaitsAt(o, id, q) && q >= BATCH
    ensures WaitsAt(Flush(o, r, NoFailures()), id, q - BATCH)
  {
    PickIsTheHead(o, 0, BATCH);
    FlushRemovesTheAcknowledged(o, r, NoFailures());
    UnacknowledgedIsAll(Pick(o, 0, BATCH), NoFailures());
    assert Waiting(Flush(o, r, NoFailures()), 0) == Waiting(o, 0)[BATCH..];
  }

  /** The row at place `p` is at the place that the flushes so far have left it, or published. */
  ghost predicate HasItsTurn(o: State, id: nat, p: nat, flushes: nat) {
    if p >= BATCH * flushes then WaitsAt(o, id, p - BATCH * flushes) else IsPublished(o, id)
  }

  lemma OneMoreTurn(o: State, r: nat, turn: Turn, id: nat, p: nat, flushes: nat)
    requires Api(r) !in o.sessions && HasItsTurn(o, id, p, flushes)
    ensures HasItsTurn(TakeTurn(o, r, turn), id, p, flushes + FlushesIn(turn))
  {
    if turn.Arrives? {
      ArrivalKeepsPlaces(o, turn.event, id, if p >= BATCH * flushes then p - BATCH * flushes else 0);
    } else if p < BATCH * flushes {
      FlushKeepsPublished(o, r, NoFailures(), id);
    } else if p - BATCH * flushes < BATCH {
      FlushPublishesTheHead(o, r, id, p - BATCH * flushes);
    } else {
      FlushMovesTheRestUp(o, r, id, p - BATCH * flushes);
    }
  }

  lemma TurnKeepsSessions(o: State, r: nat, turn: Turn)
    requires Api(r) !in o.sessions
    ensures TakeTurn(o, r, turn).sessions == o.sessions
  {
    FlushIs(o, r, NoFailures(), Pick(o, 0, BATCH));
  }

  lemma {:induction false} TurnsKeepSessions(o: State, r: nat, turns: seq<Turn>)
    requires Api(r) !in o.sessions
    ensures AfterTurns(o, r, turns).sessions == o.sessions
  {
    if turns != [] {
      TurnsKeepSessions(o, r, turns[..|turns| - 1]);
      TurnKeepsSessions(AfterTurns(o, r, turns[..|turns| - 1]), r, turns[|turns| - 1]);
    }
  }

  lemma {:induction false} EveryRowHasItsTurn(o: State, r: nat, turns: seq<Turn>, id: nat, p: nat)
    requires Api(r) !in o.sessions && WaitsAt(o, id, p)
    ensures HasItsTurn(AfterTurns(o, r, turns), id, p, FlushCount(turns))
  {
    if turns != [] {
      var earlier, turn := turns[..|turns| - 1], turns[|turns| - 1];
      EveryRowHasItsTurn(o, r, earlier, id, p);
      TurnsKeepSessions(o, r, earlier);
      OneMoreTurn(AfterTurns(o, r, earlier), r, turn, id, p, FlushCount(earlier));
    }
  }

  /** With an acknowledging broker the row behind `p` others is published by exactly the flush number p / 50 + 1,
      whatever arrives in between. */
  lemma PublishedIffItsTurnHasCome(o: State, r: nat, turns: seq<Turn>, p: nat)
    requires Api(r) !in o.sessions && p < |Waiting(o, 0)|
    ensures IsPublished(AfterTurns(o, r, turns), Waiting(o, 0)[p]) <==> FlushCount(turns) >= p / 50 + 1
  {
    var after := AfterTurns(o, r, turns);
    EveryRowHasItsTurn(o, r, turns, Waiting(o, 0)[p], p);
    WaitingIsUnpublished(after, 0);
    assert p >= BATCH * FlushCount(turns) <==> FlushCount(turns) < p / BATCH + 1;
  }
}
