/**
 Which rows are ever sent when the broker answers each row the same way every time: rows it does not acknowledge
 stay at the head of the waiting list, and once fifty of them have gathered there nothing behind them moves.
 */
module OutboxStarvation {
  import opened Outbox
  import opened OutboxProgress

  // ---------- what is left of a prefix ----------

  lemma {:induction false} UnacknowledgedConcat(a: seq<nat>, b: seq<nat>, broker: Broker)
    ensures Unacknowledged(a + b, broker) == Unacknowledged(a, broker) + Unacknowledged(b, broker)
  {
    if a == [] {
      assert a + b == b;
    } else {
      assert (a + b)[1..] == a[1..] + b;
      UnacknowledgedConcat(a[1..], b, broker);
    }
  }

  lemma {:induction false} UnacknowledgedStays(ids: seq<nat>, broker: Broker)
    ensures Unacknowledged(Unacknowledged(ids, broker), broker) == Unacknowledged(ids, broker)
  {
    if ids != [] {
      var first := if broker(ids[0]) == Acknowledged then [] else [ids[0]];
      UnacknowledgedStays(ids[1..], broker);
      UnacknowledgedConcat(first, Unacknowledged(ids[1..], broker), broker);
    }
  }

  lemma {:induction false} UnacknowledgedAreThere(ids: seq<nat>, broker: Broker, id: nat)
    requires id in Unacknowledged(ids, broker)
    ensures id in ids
  {
    if id in Unacknowledged(ids[1..], broker) {
      UnacknowledgedAreThere(ids[1..], broker, id);
    }
  }

  /** The rows still waiting of the first `m`. */
  function Left(waiting: seq<nat>, broker: Broker, m: nat): seq<nat>
    requires m <= |waiting|
  {
    Unacknowledged(waiting[..m], broker)
  }

  lemma LeftSplits(waiting: seq<nat>, broker: Broker, m: nat, n: nat)
    requires m <= n <= |waiting|
    ensures Left(waiting, broker, n) == Left(waiting, broker, m) + Unacknowledged(waiting[m..n], broker)
    ensures |Left(waiting, broker, m)| <= |Left(waiting, broker, n)| <= |Left(waiting, broker, m)| + n - m
  {
    assert waiting[..n] == waiting[..m] + waiting[m..n];
    UnacknowledgedConcat(waiting[..m], waiting[m..n], broker);
    UnacknowledgedIsAll(waiting[m..n], broker);
  }

  // ---------- how far the flushes get ----------

  /** How much of a batch is free for rows not sent before, when `m` have been. */
  function Room(waiting: seq<nat>, broker: Broker, m: nat): nat
    requires m <= |waiting|
  {
    var taken := |Left(waiting, broker, m)|;
    if taken >= BATCH then 0 else Min(BATCH - taken, |waiting| - m)
  }

  /** The number of rows of the list that `n` flushes have sent at least once. */
  function Reached(waiting: seq<nat>, broker: Broker, n: nat): (m: nat)
    ensures m <= |waiting|
  {
    if n == 0 then 0
    else
      var m := Reached(waiting, broker, n - 1);
      m + Room(waiting, broker, m)
  }

  /** What waits once the first `m` rows have been reached: those of them that were refused, then the rest. */
  ghost predicate HasReached(o: State, waiting: seq<nat>, broker: Broker, m: nat)
    requires m <= |waiting|
  {
    Waiting(o, 0) == Left(waiting, broker, m) + waiting[m..] && |Left(waiting, broker, m)| <= BATCH
  }

  /** The next batch is everything refused so far and the rows there is room for. */
  lemma NextBatch(waiting: seq<nat>, broker: Broker, m: nat)
    requires m <= |waiting| && |Left(waiting, broker, m)| <= BATCH
    ensures var rest, k := Left(waiting, broker, m) + waiting[m..], m + Room(waiting, broker, m);
            && rest[..Min(BATCH, |rest|)] == Left(waiting, broker, m) + waiting[m..k]
            && rest[Min(BATCH, |rest|)..] == waiting[k..]
  {
    var left, k := Left(waiting, broker, m), m + Room(waiting, broker, m);
    assert waiting[m..] == waiting[m..k] + waiting[k..];
    assert left + waiting[m..] == (left + waiting[m..k]) + waiting[k..];
    assert Min(BATCH, |left + waiting[m..]|) == |left + waiting[m..k]|;
  }

  lemma RefusedAgain(waiting: seq<nat>, broker: Broker, m: nat, k: nat)
    requires m <= k <= |waiting|
    ensures Unacknowledged(Left(waiting, broker, m) + waiting[m..k], broker) == Left(waiting, broker, k)
  {
    UnacknowledgedConcat(Left(waiting, broker, m), waiting[m..k], broker);
    UnacknowledgedStays(waiting[..m], broker);
    LeftSplits(waiting, broker, m, k);
  }

  lemma BatchFrom(o: State, broker: Broker, waiting: seq<nat>, m: nat)
    requires m <= |waiting| && HasReached(o, waiting, broker, m)
    ensures var k := m + Room(waiting, broker, m);
            && Pick(o, 0, BATCH) == Left(waiting, broker, m) + waiting[m..k]
            && Waiting(o, 0)[|Pick(o, 0, BATCH)|..] == waiting[k..]
  {
    PickIsTheHead(o, 0, BATCH);
    NextBatch(waiting, broker, m);
  }

  /** One flush, by its effect: it sends a batch and takes the acknowledged rows off the list. */
  ghost predicate Advances(o: State, after: State, broker: Broker) {
    var ids := Pick(o, 0, BATCH);
    && |ids| <= |Waiting(o, 0)|
    && Waiting(after, 0) == Unacknowledged(ids, broker) + Waiting(o, 0)[|ids|..]
    && Sent(o.tries, after.tries, o.rows, ids, broker, |ids|)
  }

  lemma FlushAdvances(o: State, r: nat, broker: Broker)
    requires Api(r) !in o.sessions
    ensures Advances(o, Flush(o, r, broker), broker) && Flush(o, r, broker).sessions == o.sessions
  {
    FlushRemovesTheAcknowledged(o, r, broker);
    FlushSends(o, r, broker, Pick(o, 0, BATCH));
  }

  lemma AdvanceReachesMore(o: State, after: State, broker: Broker, waiting: seq<nat>, m: nat)
    requires m <= |waiting| && HasReached(o, waiting, broker, m) && Advances(o, after, broker)
    ensures HasReached(after, waiting, broker, m + Room(waiting, broker, m))
  {
    var k := m + Room(waiting, broker, m);
    BatchFrom(o, broker, waiting, m);
    RefusedAgain(waiting, broker, m, k);
    LeftSplits(waiting, broker, m, k);
  }

  /** The states between flushes, one after the other. */
  type Trace = nat -> State

  ghost predicate AlwaysAdvances(h: Trace, broker: Broker, n: nat) {
    n > 0 ==> AlwaysAdvances(h, broker, n - 1) && Advances(h(n - 1), h(n), broker)
  }

  /** The closed form of the waiting list after any number of flushes. */
  lemma {:induction false} WaitingAfterAdvances(h: Trace, broker: Broker, waiting: seq<nat>, n: nat)
    requires waiting == Waiting(h(0), 0) && AlwaysAdvances(h, broker, n)
    ensures HasReached(h(n), waiting, broker, Reached(waiting, broker, n))
  {
    if n == 0 {
      assert waiting[..0] == [] && waiting[0..] == waiting;
    } else {
      WaitingAfterAdvances(h, broker, waiting, n - 1);
      AdvanceReachesMore(h(n - 1), h(n), broker, waiting, Reached(waiting, broker, n - 1));
    }
  }

  // ---------- what is sent ----------

  /** The row is sent between `o` and `after`. */
  ghost predicate SentSince(o: State, after: State, id: nat) {
    exists k :: |o.tries| <= k < |after.tries| && after.tries[k].row == id
  }

  lemma SentIsBatch(o: State, after: State, broker: Broker, ids: seq<nat>, id: nat)
    requires Sent(o.tries, after.tries, o.rows, ids, broker, |ids|)
    ensures SentSince(o, after, id) <==> id in ids
  {
    if id in ids {
      var j :| 0 <= j < |ids| && ids[j] == id;
      assert after.tries[|o.tries| + j].row == id;
    }
  }

  lemma SentInTwoParts(o: State, between: State, after: State, id: nat)
    requires |o.tries| <= |between.tries| <= |after.tries|
    requires forall k :: 0 <= k < |between.tries| ==> after.tries[k] == between.tries[k]
    ensures SentSince(o, after, id) <==> SentSince(o, between, id) || SentSince(between, after, id)
  {
    if SentSince(o, between, id) {
      var k :| |o.tries| <= k < |between.tries| && between.tries[k].row == id;
      assert after.tries[k].row == id;
    }
    if SentSince(o, after, id) {
      var k :| |o.tries| <= k < |after.tries| && after.tries[k].row == id;
      assert k < |between.tries| ==> between.tries[k].row == id;
    }
  }

  lemma ReachedRows(waiting: seq<nat>, broker: Broker, m: nat, k: nat, id: nat)
    requires m <= k <= |waiting|
    ensures id in waiting[..k] <==> id in waiting[..m] || id in waiting[m..k]
    ensures id in Left(waiting, broker, m) ==> id in waiting[..m]
  {
    assert waiting[..k] == waiting[..m] + waiting[m..k];
    if id in Left(waiting, broker, m) {
      UnacknowledgedAreThere(waiting[..m], broker, id);
    }
  }

  /** If exactly the first `m` rows have been sent, one more flush sends exactly the rows it reaches besides. */
  lemma AdvanceSendsWhatItReaches(o: State, before: State, after: State, broker: Broker, waiting: seq<nat>, m: nat, id: nat)
    requires m <= |waiting| && HasReached(before, waiting, broker, m) && Advances(before, after, broker)
    requires |o.tries| <= |before.tries| && (SentSince(o, before, id) <==> id in waiting[..m])
    ensures |o.tries| <= |after.tries|
    ensures SentSince(o, after, id) <==> id in waiting[..m + Room(waiting, broker, m)]
  {
    SentIsBatch(before, after, broker, Pick(before, 0, BATCH), id);
    SentInTwoParts(o, before, after, id);
    BatchFrom(before, broker, waiting, m);
    ReachedRows(waiting, broker, m, m + Room(waiting, broker, m), id);
  }

  /** `n` flushes send exactly the rows they reach. */
  lemma {:induction false} AdvancesSendWhatTheyReach(h: Trace, broker: Broker, waiting: seq<nat>, n: nat, id: nat)
    requires waiting == Waiting(h(0), 0) && AlwaysAdvances(h, broker, n)
    ensures |h(0).tries| <= |h(n).tries|
    ensures SentSince(h(0), h(n), id) <==> id in waiting[..Reached(waiting, broker, n)]
  {
    if n > 0 {
      AdvancesSendWhatTheyReach(h, broker, waiting, n - 1, id);
      WaitingAfterAdvances(h, broker, waiting, n - 1);
      AdvanceSendsWhatItReaches(h(0), h(n - 1), h(n), broker, waiting, Reached(waiting, broker, n - 1), id);
    }
  }

  // ---------- flushes ----------

  function FlushTrace(o: State, r: nat, broker: Broker): Trace {
    (n: nat) => Flushes(o, r, broker, n)
  }

  lemma {:induction false} FlushesAdvance(o: State, r: nat, broker: Broker, n: nat)
    requires Api(r) !in o.sessions
    ensures Flushes(o, r, broker, n).sessions == o.sessions
    ensures AlwaysAdvances(FlushTrace(o, r, broker), broker, n)
  {
    if n > 0 {
      FlushesAdvance(o, r, broker, n - 1);
      FlushAdvances(Flushes(o, r, broker, n - 1), r, broker);
    }
  }

  /** The closed form of the waiting list after any number of flushes: the refused among the rows reached, then the
      rest untouched; and exactly the rows reached have been sent. */
  lemma FlushesInClosedForm(o: State, r: nat, broker: Broker, n: nat, id: nat)
    requires Api(r) !in o.sessions
    ensures var waiting, after := Waiting(o, 0), Flushes(o, r, broker, n);
            var m := Reached(waiting, broker, n);
            && Waiting(after, 0) == Unacknowledged(waiting[..m], broker) + waiting[m..]
            && (SentSince(o, after, id) <==> id in waiting[..m])
  {
    var h := FlushTrace(o, r, broker);
    FlushesAdvance(o, r, broker, n);
    assert h(0) == o && h(n) == Flushes(o, r, broker, n);
    WaitingAfterAdvances(h, broker, Waiting(o, 0), n);
    AdvancesSendWhatTheyReach(h, broker, Waiting(o, 0), n, id);
  }

  // ---------- who starves ----------

  lemma {:induction false} ReachedIfRoom(waiting: seq<nat>, broker: Broker, p: nat, n: nat)
    requires p < |waiting| && |Left(waiting, broker, p)| < BATCH
    ensures Reached(waiting, broker, n) >= Min(n, p + 1)
  {
    if n > 0 {
      var m := Reached(waiting, broker, n - 1);
      ReachedIfRoom(waiting, broker, p, n - 1);
      if m <= p {
        LeftSplits(waiting, broker, m, p);
      }
    }
  }

  lemma {:induction false} RoomIfReached(waiting: seq<nat>, broker: Broker, p: nat, n: nat)
    requires p < Reached(waiting, broker, n)
    ensures |Left(waiting, broker, p)| < BATCH
  {
    var m := Reached(waiting, broker, n - 1);
    if p < m {
      RoomIfReached(waiting, broker, p, n - 1);
    } else {
      LeftSplits(waiting, broker, m, p);
    }
  }

  lemma {:induction false} WaitingIncreases(o: State, i: nat)
    ensures Increasing(Waiting(o, i))
    ensures forall k :: 0 <= k < |Waiting(o, i)| ==> i <= Waiting(o, i)[k]
    decreases |o.rows| - i
  {
    if i < |o.rows| {
      WaitingIncreases(o, i + 1);
    }
  }

  /** With a broker that answers each row the same way every time, the row at position `p` of the waiting list is
      sent by some number of flushes if and only if fewer than fifty of the rows before it are refused. */
  lemma SentIffFewerThanABatchRefused(o: State, r: nat, broker: Broker, p: nat)
    requires Api(r) !in o.sessions && p < |Waiting(o, 0)|
    ensures (exists n :: SentSince(o, Flushes(o, r, broker, n), Waiting(o, 0)[p])) <==>
            |Unacknowledged(Waiting(o, 0)[..p], broker)| < 50
  {
    var waiting := Waiting(o, 0);
    var id := waiting[p];
    WaitingIncreases(o, 0);
    if |Left(waiting, broker, p)| < BATCH {
      ReachedIfRoom(waiting, broker, p, p + 1);
      FlushesInClosedForm(o, r, broker, p + 1, id);
      assert waiting[..Reached(waiting, broker, p + 1)][p] == id;
    }
    if n :| SentSince(o, Flushes(o, r, broker, n), id) {
      FlushesInClosedForm(o, r, broker, n, id);
      var j :| 0 <= j < Reached(waiting, broker, n) && waiting[..Reached(waiting, broker, n)][j] == id;
      assert j == p;
      RoomIfReached(waiting, broker, p, n);
    }
  }
}
