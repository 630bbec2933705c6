/**
 What whole flushes achieve: a flush takes exactly the acknowledged rows off the waiting list, so without
 failures the list drains in id order, and a batch that is never acknowledged holds up everything behind it.
 */
module OutboxProgress {
  import opened Outbox

  /** What the broker does with each row's message. */
  type Broker = nat -> Outcome

  /** The answers to the first `k` sends. */
  function Answers(broker: Broker, ids: seq<nat>, k: nat): (outcomes: seq<Outcome>)
    requires k <= |ids|
    ensures |outcomes| == k
  {
    if k == 0 then [] else Answers(broker, ids, k - 1) + [broker(ids[k - 1])]
  }

  /** The first `k` sends of a publisher that holds `ids`. */
  function SendAll(o: State, p: Publisher, broker: Broker, ids: seq<nat>, k: nat): State
    requires k <= |ids|
  {
    if k == 0 then o else Step(SendAll(o, p, broker, ids, k - 1), Send(p, broker(ids[k - 1])))
  }

  /** One flush of a replica from beginning to commit, with nothing in between. */
  function Flush(o: State, r: nat, broker: Broker): State {
    if Api(r) in o.sessions then o
    else
      var ids := Pick(o, 0, BATCH);
      Step(SendAll(Step(o, BeginFlush(r)), Api(r), broker, ids, |ids|), Commit(Api(r)))
  }

  /** A flush whose transaction is rolled back after `k` sends. */
  function FailedFlush(o: State, r: nat, broker: Broker, k: nat): State
    requires k <= |Pick(o, 0, BATCH)|
  {
    if Api(r) in o.sessions then o
    else Step(SendAll(Step(o, BeginFlush(r)), Api(r), broker, Pick(o, 0, BATCH), k), Abort(Api(r)))
  }

  /** The first `k` sends as the broker sees them. */
  function Sends(rows: seq<Row>, ids: seq<nat>, broker: Broker, k: nat): (tries: seq<Try>)
    requires k <= |ids| && forall j :: 0 <= j < |ids| ==> ids[j] < |rows|
    ensures |tries| == k
  {
    if k == 0 then []
    else Sends(rows, ids, broker, k - 1) + [Try(ids[k - 1], MessageOf(rows[ids[k - 1]]), broker(ids[k - 1]))]
  }

  // ---------- a flush in closed form ----------

  lemma OneSend(o: State, sessions: map<Publisher, Session>, r: nat, ids: seq<nat>, outcomes: seq<Outcome>, outcome: Outcome)
    requires |outcomes| < |ids| && ids[|outcomes|] < |o.rows|
    requires o.sessions == sessions[Api(r) := Session(ids, outcomes)]
    ensures var id := ids[|outcomes|];
            Step(o, Send(Api(r), outcome)) ==
            State(o.rows, sessions[Api(r) := Session(ids, outcomes + [outcome])], o.tries + [Try(id, MessageOf(o.rows[id]), outcome)])
  {}

  lemma {:induction false} SendAllIs(o: State, r: nat, broker: Broker, ids: seq<nat>, k: nat)
    requires k <= |ids| && forall j :: 0 <= j < |ids| ==> ids[j] < |o.rows|
    requires Api(r) in o.sessions && o.sessions[Api(r)] == Session(ids, [])
    ensures SendAll(o, Api(r), broker, ids, k) ==
            State(o.rows, o.sessions[Api(r) := Session(ids, Answers(broker, ids, k))], o.tries + Sends(o.rows, ids, broker, k))
  {
    if k == 0 {
      assert o.sessions[Api(r) := Session(ids, [])] == o.sessions;
      assert o.tries + [] == o.tries;
    } else {
      SendAllIs(o, r, broker, ids, k - 1);
      var before := SendAll(o, Api(r), broker, ids, k - 1);
      OneSend(before, o.sessions, r, ids, Answers(broker, ids, k - 1), broker(ids[k - 1]));
      var t := Try(ids[k - 1], MessageOf(o.rows[ids[k - 1]]), broker(ids[k - 1]));
      assert (o.tries + Sends(o.rows, ids, broker, k - 1)) + [t] == o.tries + (Sends(o.rows, ids, broker, k - 1) + [t]);
    }
  }

  lemma ReopenedOrClosed(sessions: map<Publisher, Session>, p: Publisher, s: Session, t: Session)
    requires p !in sessions
    ensures sessions[p := s][p := t] == sessions[p := t]
    ensures sessions[p := s] - {p} == sessions
  {}

  lemma BegunSends(o: State, r: nat, broker: Broker, ids: seq<nat>, k: nat)
    requires Api(r) !in o.sessions && ids == Pick(o, 0, BATCH) && k <= |ids|
    ensures forall j :: 0 <= j < |ids| ==> ids[j] < |o.rows|
    ensures SendAll(Step(o, BeginFlush(r)), Api(r), broker, ids, k) ==
            State(o.rows, o.sessions[Api(r) := Session(ids, Answers(broker, ids, k))], o.tries + Sends(o.rows, ids, broker, k))
  {
    PickIsAvailable(o, 0, BATCH);
    SendAllIs(Step(o, BeginFlush(r)), r, broker, ids, k);
    ReopenedOrClosed(o.sessions, Api(r), Session(ids, []), Session(ids, Answers(broker, ids, k)));
  }

  lemma Closed(rows: seq<Row>, sessions: map<Publisher, Session>, tries: seq<Try>, p: Publisher, s: Session)
    requires p !in sessions && |s.outcomes| <= |s.rows|
    ensures var open := State(rows, sessions[p := s], tries);
            && (|s.outcomes| == |s.rows| ==> Step(open, Commit(p)) == State(Settle(rows, s.rows, s.outcomes), sessions, tries))
            && Step(open, Abort(p)) == State(RollBack(rows, s.rows, s.outcomes), sessions, tries)
  {}

  lemma FlushIs(o: State, r: nat, broker: Broker, ids: seq<nat>)
    requires Api(r) !in o.sessions && ids == Pick(o, 0, BATCH)
    ensures forall j :: 0 <= j < |ids| ==> ids[j] < |o.rows|
    ensures Flush(o, r, broker) ==
            State(Settle(o.rows, ids, Answers(broker, ids, |ids|)), o.sessions, o.tries + Sends(o.rows, ids, broker, |ids|))
  {
    BegunSends(o, r, broker, ids, |ids|);
    Closed(o.rows, o.sessions, o.tries + Sends(o.rows, ids, broker, |ids|), Api(r), Session(ids, Answers(broker, ids, |ids|)));
  }

  lemma FailedFlushIs(o: State, r: nat, broker: Broker, ids: seq<nat>, k: nat)
    requires Api(r) !in o.sessions && ids == Pick(o, 0, BATCH) && k <= |ids|
    ensures forall j :: 0 <= j < |ids| ==> ids[j] < |o.rows|
    ensures FailedFlush(o, r, broker, k) ==
            State(RollBack(o.rows, ids, Answers(broker, ids, k)), o.sessions, o.tries + Sends(o.rows, ids, broker, k))
  {
    BegunSends(o, r, broker, ids, k);
    Closed(o.rows, o.sessions, o.tries + Sends(o.rows, ids, broker, k), Api(r), Session(ids, Answers(broker, ids, k)));
  }

  // ---------- the waiting list ----------

  /** All available rows from `i` on, in id order. */
  function Waiting(o: State, i: nat): seq<nat>
    decreases |o.rows| - i
  {
    if i >= |o.rows| then []
    else if Available(o, i) then [i] + Waiting(o, i + 1)
    else Waiting(o, i + 1)
  }

  function Min(a: nat, b: nat): nat {
    if a < b then a else b
  }

  /** A batch is the head of the waiting list. */
  lemma {:induction false} PickIsTheHead(o: State, i: nat, limit: nat)
    ensures Pick(o, i, limit) == Waiting(o, i)[..Min(limit, |Waiting(o, i)|)]
    decreases |o.rows| - i
  {
    if i < |o.rows| && limit > 0 {
      PickIsTheHead(o, i + 1, if Available(o, i) then limit - 1 else limit);
    }
  }

  lemma {:induction false} WaitingRowsExist(o: State, i: nat)
    ensures forall k :: 0 <= k < |Waiting(o, i)| ==> Waiting(o, i)[k] < |o.rows|
    decreases |o.rows| - i
  {
    if i < |o.rows| {
      WaitingRowsExist(o, i + 1);
    }
  }

  function Unacknowledged(ids: seq<nat>, broker: Broker): seq<nat> {
    if ids == [] then []
    else (if broker(ids[0]) == Acknowledged then [] else [ids[0]]) + Unacknowledged(ids[1..], broker)
  }

  lemma {:induction false} AnswersAt(broker: Broker, ids: seq<nat>, k: nat, i: nat)
    requires i < k <= |ids|
    ensures Answers(broker, ids, k)[i] == broker(ids[i])
  {
    if i < k - 1 {
      AnswersAt(broker, ids, k - 1, i);
    }
  }

  /** After settling a batch, a row is published if it was or if it was acknowledged in the batch. */
  lemma SettledBatch(rows: seq<Row>, ids: seq<nat>, broker: Broker, i: nat)
    requires Increasing(ids) && i < |rows|
    ensures Settle(rows, ids, Answers(broker, ids, |ids|))[i].published ==
            (rows[i].published || (i in ids && broker(i) == Acknowledged))
    ensures Settle(rows, ids, Answers(broker, ids, |ids|))[i].event == rows[i].event
  {
    SettleAt(rows, ids, Answers(broker, ids, |ids|), i);
    if k :| 0 <= k < |ids| && ids[k] == i {
      AnswersAt(broker, ids, |ids|, k);
    }
  }

  lemma PickStartsAt(o: State, i: nat, limit: nat)
    ensures forall j: nat :: j < i ==> j !in Pick(o, i, limit)
  {
    PickIsAvailable(o, i, limit);
  }

  lemma {:induction false} WaitingAfter(o: State, after: State, ids: seq<nat>, broker: Broker, i: nat, limit: nat)
    requires after.sessions == o.sessions && |after.rows| == |o.rows|
    requires forall j: nat :: j < |o.rows| ==>
               after.rows[j].published == (o.rows[j].published || (j in ids && broker(j) == Acknowledged))
    requires forall j: nat :: i <= j < |o.rows| ==> (j in ids <==> j in Pick(o, i, limit))
    ensures var head := Pick(o, i, limit);
            && |head| <= |Waiting(o, i)|
            && Waiting(after, i) == Unacknowledged(head, broker) + Waiting(o, i)[|head|..]
    decreases |o.rows| - i
  {
    if i < |o.rows| {
      assert Locked(after, i) == Locked(o, i);
      if Available(o, i) && limit > 0 {
        WaitingAfterPicked(o, after, ids, broker, i, limit);
      } else {
        PickStartsAt(o, i + 1, limit);
        WaitingAfter(o, after, ids, broker, i + 1, limit);
      }
    }
  }

  lemma {:induction false} WaitingAfterPicked(o: State, after: State, ids: seq<nat>, broker: Broker, i: nat, limit: nat)
    requires after.sessions == o.sessions && |after.rows| == |o.rows|
    requires forall j: nat :: j < |o.rows| ==>
               after.rows[j].published == (o.rows[j].published || (j in ids && broker(j) == Acknowledged))
    requires forall j: nat :: i <= j < |o.rows| ==> (j in ids <==> j in Pick(o, i, limit))
    requires i < |o.rows| && Available(o, i) && limit > 0 && Locked(after, i) == Locked(o, i)
    ensures var head := Pick(o, i, limit);
            && |head| <= |Waiting(o, i)|
            && Waiting(after, i) == Unacknowledged(head, broker) + Waiting(o, i)[|head|..]
    decreases |o.rows| - i, 0
  {
    var rest := Pick(o, i + 1, limit - 1);
    var head := [i] + rest;
    assert head == Pick(o, i, limit) && head[1..] == rest;
    assert forall j: nat :: j in head <==> j == i || j in rest;
    PickStartsAt(o, i + 1, limit - 1);
    WaitingAfter(o, after, ids, broker, i + 1, limit - 1);
    assert i in ids;
  }

  /** A flush takes exactly the acknowledged rows of its batch off the waiting list and keeps the order of the
      rest, whatever other publishers hold. */
  lemma FlushRemovesTheAcknowledged(o: State, r: nat, broker: Broker)
    requires Api(r) !in o.sessions
    ensures var head := Pick(o, 0, BATCH);
            && |head| <= |Waiting(o, 0)|
            && Waiting(Flush(o, r, broker), 0) == Unacknowledged(head, broker) + Waiting(o, 0)[|head|..]
  {
    var ids, after := Pick(o, 0, BATCH), Flush(o, r, broker);
    FlushIs(o, r, broker, ids);
    PickIsAvailable(o, 0, BATCH);
    forall j: nat | j < |o.rows|
      ensures after.rows[j].published == (o.rows[j].published || (j in ids && broker(j) == Acknowledged))
    {
      SettledBatch(o.rows, ids, broker, j);
    }
    WaitingAfter(o, after, ids, broker, 0, BATCH);
  }

  lemma FlushKeepsEvents(o: State, r: nat, broker: Broker)
    requires Api(r) !in o.sessions
    ensures SameEvents(o.rows, Flush(o, r, broker).rows)
  {
    var ids := Pick(o, 0, BATCH);
    FlushIs(o, r, broker, ids);
    PickIsAvailable(o, 0, BATCH);
    forall j: nat | j < |o.rows|
      ensures Flush(o, r, broker).rows[j].event == o.rows[j].event
    {
      SettledBatch(o.rows, ids, broker, j);
    }
  }

  lemma {:induction false} UnacknowledgedIsAll(ids: seq<nat>, broker: Broker)
    ensures |Unacknowledged(ids, broker)| <= |ids|
    ensures |Unacknowledged(ids, broker)| == |ids| <==> forall k :: 0 <= k < |ids| ==> broker(ids[k]) != Acknowledged
    ensures |Unacknowledged(ids, broker)| == |ids| ==> Unacknowledged(ids, broker) == ids
    ensures (forall k :: 0 <= k < |ids| ==> broker(ids[k]) == Acknowledged) ==> Unacknowledged(ids, broker) == []
  {
    if ids != [] {
      UnacknowledgedIsAll(ids[1..], broker);
      assert forall k :: 0 <= k < |ids[1..]| ==> ids[1..][k] == ids[k + 1];
      assert forall k :: 1 <= k < |ids| ==> ids[k] == ids[1..][k - 1];
    }
  }

  // ---------- many flushes ----------

  function Flushes(o: State, r: nat, broker: Broker, n: nat): State {
    if n == 0 then o else Flush(Flushes(o, r, broker, n - 1), r, broker)
  }

  function NoFailures(): Broker {
    (i: nat) => Acknowledged
  }

  ghost predicate SameEvents(rows: seq<Row>, after: seq<Row>) {
    |after| == |rows| && forall i :: 0 <= i < |rows| ==> after[i].event == rows[i].event
  }

  ghost predicate InRange(ids: seq<nat>, rows: seq<Row>) {
    forall j :: 0 <= j < |ids| ==> ids[j] < |rows|
  }

  lemma {:induction false} SendsAt(rows: seq<Row>, ids: seq<nat>, broker: Broker, k: nat, i: nat)
    requires InRange(ids, rows) && i < k <= |ids|
    ensures Sends(rows, ids, broker, k)[i] == Try(ids[i], MessageOf(rows[ids[i]]), broker(ids[i]))
  {
    if i < k - 1 {
      SendsAt(rows, ids, broker, k - 1, i);
    }
  }

  /** `after` is `before` followed by `f` of the first `m` ids, in order. */
  ghost predicate Appended<T>(before: seq<T>, after: seq<T>, ids: seq<nat>, f: nat -> T, m: nat)
    requires m <= |ids|
  {
    && |after| == |before| + m
    && (forall k :: 0 <= k < |before| ==> after[k] == before[k])
    && (forall k :: |before| <= k < |after| ==> after[k] == f(ids[k - |before|]))
  }

  lemma AppendedTwice<T>(t0: seq<T>, t1: seq<T>, t2: seq<T>, ids: seq<nat>, rest: seq<nat>, f: nat -> T, g: nat -> T, m: nat, n: nat)
    requires m + n <= |ids| && rest == ids[m..] && forall j :: 0 <= j < |rest| ==> g(rest[j]) == f(rest[j])
    requires Appended(t0, t1, ids, f, m) && Appended(t1, t2, rest, g, n)
    ensures Appended(t0, t2, ids, f, m + n)
  {
    forall k | |t0| <= k < |t2|
      ensures t2[k] == f(ids[k - |t0|])
    {
      if k < |t1| {
        assert t2[k] == t1[k];
      } else {
        assert rest[k - |t1|] == ids[k - |t0|];
      }
    }
  }

  /** The one way a row is sent: its own message. */
  function SendOf(rows: seq<Row>, broker: Broker): nat -> Try {
    (id: nat) => Try(id, if id < |rows| then MessageOf(rows[id]) else map[], broker(id))
  }

  /** `after` is `before` with one more send for each of the first `m` ids, in order, each with the row's own message. */
  ghost predicate Sent(before: seq<Try>, after: seq<Try>, rows: seq<Row>, ids: seq<nat>, broker: Broker, m: nat)
    requires m <= |ids|
  {
    Appended(before, after, ids, SendOf(rows, broker), m)
  }

  lemma FlushSends(o: State, r: nat, broker: Broker, ids: seq<nat>)
    requires Api(r) !in o.sessions && ids == Pick(o, 0, BATCH)
    ensures InRange(ids, o.rows) && Sent(o.tries, Flush(o, r, broker).tries, o.rows, ids, broker, |ids|)
    ensures Flush(o, r, broker).sessions == o.sessions
  {
    FlushIs(o, r, broker, ids);
    forall i | 0 <= i < |ids|
      ensures Sends(o.rows, ids, broker, |ids|)[i] == Try(ids[i], MessageOf(o.rows[ids[i]]), broker(ids[i]))
    {
      SendsAt(o.rows, ids, broker, |ids|, i);
    }
  }

  lemma SentTwice(t0: seq<Try>, t1: seq<Try>, t2: seq<Try>, rows: seq<Row>, after: seq<Row>,
                  ids: seq<nat>, rest: seq<nat>, broker: Broker, m: nat, n: nat)
    requires SameEvents(rows, after) && m + n <= |ids| && rest == ids[m..]
    requires Sent(t0, t1, rows, ids, broker, m) && Sent(t1, t2, after, rest, broker, n)
    ensures Sent(t0, t2, rows, ids, broker, m + n)
  {
    AppendedTwice(t0, t1, t2, ids, rest, SendOf(rows, broker), SendOf(after, broker), m, n);
  }

  /** The facts about `after`, reached from `o` by publishing the first `m` of the rows that wait in `o`. */
  ghost predicate Drained(o: State, after: State, waiting: seq<nat>, m: nat)
    requires InRange(waiting, o.rows) && m <= |waiting|
  {
    && Waiting(after, 0) == waiting[m..]
    && Sent(o.tries, after.tries, o.rows, waiting, NoFailures(), m)
    && after.sessions == o.sessions && SameEvents(o.rows, after.rows)
  }

  lemma OneFlushTakesABatch(o: State, r: nat, waiting: seq<nat>)
    requires Api(r) !in o.sessions && waiting == Waiting(o, 0)
    ensures Pick(o, 0, BATCH) == waiting[..Min(BATCH, |waiting|)]
    ensures Waiting(Flush(o, r, NoFailures()), 0) == waiting[Min(BATCH, |waiting|)..]
  {
    PickIsTheHead(o, 0, BATCH);
    FlushRemovesTheAcknowledged(o, r, NoFailures());
    UnacknowledgedIsAll(Pick(o, 0, BATCH), NoFailures());
  }

  lemma HeadIsSent(before: seq<Try>, after: seq<Try>, rows: seq<Row>, ids: seq<nat>, waiting: seq<nat>, broker: Broker)
    requires |ids| <= |waiting| && ids == waiting[..|ids|] && Sent(before, after, rows, ids, broker, |ids|)
    ensures Sent(before, after, rows, waiting, broker, |ids|)
  {}

  lemma OneFlushWithoutFailures(o: State, r: nat, waiting: seq<nat>)
    requires Api(r) !in o.sessions && waiting == Waiting(o, 0)
    ensures InRange(waiting, o.rows) && Drained(o, Flush(o, r, NoFailures()), waiting, Min(BATCH, |waiting|))
  {
    var ids := Pick(o, 0, BATCH);
    WaitingRowsExist(o, 0);
    OneFlushTakesABatch(o, r, waiting);
    FlushKeepsEvents(o, r, NoFailures());
    FlushSends(o, r, NoFailures(), ids);
    HeadIsSent(o.tries, Flush(o, r, NoFailures()).tries, o.rows, ids, waiting, NoFailures());
  }

  lemma DrainedTwice(o: State, between: State, after: State, waiting: seq<nat>, rest: seq<nat>, m: nat, n: nat)
    requires InRange(waiting, o.rows) && m <= |waiting| && Drained(o, between, waiting, m)
    requires InRange(rest, between.rows) && n <= |rest| && Drained(between, after, rest, n)
    requires rest == waiting[m..]
    ensures m + n <= |waiting| && Drained(o, after, waiting, m + n)
  {
    assert waiting[m..][n..] == waiting[m + n..];
    SentTwice(o.tries, between.tries, after.tries, o.rows, between.rows, waiting, rest, NoFailures(), m, n);
  }

  lemma BatchesAddUp(n: nat, total: nat)
    requires n > 0
    ensures var done := Min(BATCH * (n - 1), total);
            done + Min(BATCH, total - done) == Min(BATCH * n, total)
  {}

  lemma OneMoreFlush(o: State, between: State, r: nat, waiting: seq<nat>, done: nat)
    requires Api(r) !in o.sessions && InRange(waiting, o.rows) && done <= |waiting|
    requires Drained(o, between, waiting, done)
    ensures Drained(o, Flush(between, r, NoFailures()), waiting, done + Min(BATCH, |waiting| - done))
  {
    var rest := waiting[done..];
    OneFlushWithoutFailures(between, r, rest);
    DrainedTwice(o, between, Flush(between, r, NoFailures()), waiting, rest, done, Min(BATCH, |rest|));
  }

  lemma {:induction false} FlushesWithoutFailures(o: State, r: nat, waiting: seq<nat>, n: nat)
    requires Api(r) !in o.sessions && waiting == Waiting(o, 0)
    ensures InRange(waiting, o.rows) && Drained(o, Flushes(o, r, NoFailures(), n), waiting, Min(BATCH * n, |waiting|))
  {
    WaitingRowsExist(o, 0);
    if n == 0 {
      assert waiting[0..] == waiting;
    } else {
      FlushesWithoutFailures(o, r, waiting, n - 1);
      OneMoreFlush(o, Flushes(o, r, NoFailures(), n - 1), r, waiting, Min(BATCH * (n - 1), |waiting|));
      BatchesAddUp(n, |waiting|);
    }
  }

  /** Without failures the waiting rows are published exactly once each and in id order, and the list is empty
      exactly from the flush number ceil(n / 50) on. */
  lemma FlushesDrainInIdOrder(o: State, r: nat, n: nat)
    requires Api(r) !in o.sessions
    ensures var after, waiting := Flushes(o, r, NoFailures(), n), Waiting(o, 0);
            && (Waiting(after, 0) == [] <==> n >= (|waiting| + 49) / 50)
            && InRange(waiting, o.rows)
            && (Waiting(after, 0) == [] ==> Sent(o.tries, after.tries, o.rows, waiting, NoFailures(), |waiting|))
  {
    FlushesWithoutFailures(o, r, Waiting(o, 0), n);
    assert BATCH * n >= |Waiting(o, 0)| <==> n >= (|Waiting(o, 0)| + BATCH - 1) / BATCH;
  }

  /** A flush shortens the waiting list if and only if some row of its batch is acknowledged. */
  lemma ProgressIffAcknowledged(o: State, r: nat, broker: Broker)
    requires Api(r) !in o.sessions
    ensures |Waiting(Flush(o, r, broker), 0)| < |Waiting(o, 0)| <==>
            exists i :: i in Pick(o, 0, BATCH) && broker(i) == Acknowledged
  {
    FlushRemovesTheAcknowledged(o, r, broker);
    UnacknowledgedIsAll(Pick(o, 0, BATCH), broker);
  }

  /** What stays the same while the batch at the head is `ids` and none of it is ever acknowledged. */
  ghost predicate Stuck(o: State, after: State, ids: seq<nat>) {
    && Waiting(after, 0) == Waiting(o, 0) && after.sessions == o.sessions
    && |o.tries| <= |after.tries|
    && (forall k :: 0 <= k < |o.tries| ==> after.tries[k] == o.tries[k])
    && forall k :: |o.tries| <= k < |after.tries| ==> after.tries[k].row in ids
  }

  lemma StuckListStays(o: State, r: nat, broker: Broker, ids: seq<nat>)
    requires Api(r) !in o.sessions && ids == Pick(o, 0, BATCH)
    requires forall k :: 0 <= k < |ids| ==> broker(ids[k]) != Acknowledged
    ensures Waiting(Flush(o, r, broker), 0) == Waiting(o, 0)
  {
    FlushRemovesTheAcknowledged(o, r, broker);
    UnacknowledgedIsAll(ids, broker);
    PickIsTheHead(o, 0, BATCH);
  }

  lemma StuckFlush(o: State, r: nat, broker: Broker, ids: seq<nat>)
    requires Api(r) !in o.sessions && ids == Pick(o, 0, BATCH)
    requires forall k :: 0 <= k < |ids| ==> broker(ids[k]) != Acknowledged
    ensures Stuck(o, Flush(o, r, broker), ids)
  {
    StuckListStays(o, r, broker, ids);
    FlushSends(o, r, broker, ids);
  }

  lemma StuckTwice(o: State, between: State, after: State, ids: seq<nat>)
    requires Stuck(o, between, ids) && Stuck(between, after, ids)
    ensures Stuck(o, after, ids)
  {}

  /** Fifty rows the broker never accepts starve every later row: however many flushes run, the waiting list
      stays as it is and only those fifty are sent. */
  lemma {:induction false} StuckBatchStarvesTheRest(o: State, r: nat, broker: Broker, ids: seq<nat>, n: nat)
    requires Api(r) !in o.sessions && ids == Pick(o, 0, BATCH)
    requires forall k :: 0 <= k < |ids| ==> broker(ids[k]) != Acknowledged
    ensures Stuck(o, Flushes(o, r, broker, n), ids)
  {
    if n > 0 {
      StuckBatchStarvesTheRest(o, r, broker, ids, n - 1);
      var before := Flushes(o, r, broker, n - 1);
      assert Pick(before, 0, BATCH) == ids by {
        PickIsTheHead(o, 0, BATCH);
        PickIsTheHead(before, 0, BATCH);
      }
      StuckFlush(before, r, broker, ids);
      StuckTwice(o, before, Flush(before, r, broker), ids);
    }
  }
}
