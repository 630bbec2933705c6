/**
 The transactional outbox: rows of `trip_events` waiting to be published, any number of publishers holding
 row locks, and the broker's log. A publisher's transaction selects and locks rows, sends them one by one, and
 commits its marks at the end; it can fail or lose its answer at any point.
 */
module Outbox {
  import opened Trips
  import opened TripMessages

  const BATCH := 50

  /** `published` stands for `published_at IS NOT NULL`. `aborted` is history: attempts whose marks were rolled back. */
  datatype Row = Row(event: Event, published: bool, attempts: nat, aborted: nat)

  /** How one send ended: the broker may have stored a message whose acknowledgement was lost. */
  datatype Outcome = Acknowledged | DeliveredButFailed | NotDelivered

  datatype Try = Try(row: nat, message: Message, outcome: Outcome)

  /** An API replica flushing the outbox, or one matcher run publishing its own match. */
  datatype Publisher = Api(replica: nat) | Matcher(run: nat)

  /** An open transaction: the rows it has locked, in order, and the outcomes of the sends so far. */
  datatype Session = Session(rows: seq<nat>, outcomes: seq<Outcome>)

  datatype State = State(rows: seq<Row>, sessions: map<Publisher, Session>, tries: seq<Try>)

  datatype Action =
    | Append(event: Event)
    | BeginFlush(replica: nat)
    | BeginSingle(run: nat, row: nat)
    | Send(publisher: Publisher, outcome: Outcome)
    | Commit(publisher: Publisher)
    | Abort(publisher: Publisher)

  // ---------- the steps ----------

  predicate Locked(o: State, i: nat) {
    exists p :: p in o.sessions && i in o.sessions[p].rows
  }

  /** Unpublished and not skipped. */
  predicate Available(o: State, i: nat)
    requires i < |o.rows|
  {
    !o.rows[i].published && !Locked(o, i)
  }

  /** The first `limit` available rows from `i` on, in id order. */
  function Pick(o: State, i: nat, limit: nat): seq<nat>
    decreases |o.rows| - i
  {
    if i >= |o.rows| || limit == 0 then []
    else if Available(o, i) then [i] + Pick(o, i + 1, limit - 1)
    else Pick(o, i + 1, limit)
  }

  function Settled(r: Row, outcome: Outcome): Row {
    r.(published := r.published || outcome == Acknowledged, attempts := r.attempts + 1)
  }

  /** The marks of a transaction, applied in the order of its sends. */
  function Settle(rows: seq<Row>, ids: seq<nat>, outcomes: seq<Outcome>): (after: seq<Row>)
    requires |outcomes| <= |ids|
    ensures |after| == |rows|
  {
    if outcomes == [] then rows
    else
      var k := |outcomes| - 1;
      var before := Settle(rows, ids, outcomes[..k]);
      if ids[k] < |rows| then before[ids[k] := Settled(before[ids[k]], outcomes[k])] else before
  }

  function RollBack(rows: seq<Row>, ids: seq<nat>, outcomes: seq<Outcome>): (after: seq<Row>)
    requires |outcomes| <= |ids|
    ensures |after| == |rows|
  {
    if outcomes == [] then rows
    else
      var k := |outcomes| - 1;
      var before := RollBack(rows, ids, outcomes[..k]);
      if ids[k] < |rows| then before[ids[k] := before[ids[k]].(aborted := before[ids[k]].aborted + 1)] else before
  }

  function MessageOf(r: Row): Message {
    OutboxPayload(r.event.trip, r.event.kind)
  }

  /** What a publisher sends for a row: a matcher run builds the message itself. */
  function MessageFrom(p: Publisher, r: Row): Message {
    if p.Matcher? && r.event.kind.TripMatched? then MatcherMessage(r.event.trip, r.event.kind.driver, r.event.kind.vehicle)
    else MessageOf(r)
  }

  predicate CanSend(o: State, p: Publisher) {
    && p in o.sessions
    && |o.sessions[p].outcomes| < |o.sessions[p].rows|
    && o.sessions[p].rows[|o.sessions[p].outcomes|] < |o.rows|
  }

  /** One step; a step that is not possible changes nothing. A replica that is flushing does not begin again. */
  function Step(o: State, a: Action): State {
    match a
    case Append(e) => State(o.rows + [Row(e, false, 0, 0)], o.sessions, o.tries)
    case BeginFlush(r) =>
      if Api(r) in o.sessions then o
      else State(o.rows, o.sessions[Api(r) := Session(Pick(o, 0, BATCH), [])], o.tries)
    case BeginSingle(m, i) =>
      if Matcher(m) in o.sessions || i >= |o.rows| || !o.rows[i].event.kind.TripMatched? || !Available(o, i) then o
      else State(o.rows, o.sessions[Matcher(m) := Session([i], [])], o.tries)
    case Send(p, outcome) =>
      if !CanSend(o, p) then o
      else
        var s := o.sessions[p];
        var i := s.rows[|s.outcomes|];
        State(o.rows, o.sessions[p := Session(s.rows, s.outcomes + [outcome])],
              o.tries + [Try(i, MessageFrom(p, o.rows[i]), outcome)])
    case Commit(p) =>
      if p !in o.sessions || |o.sessions[p].outcomes| != |o.sessions[p].rows| then o
      else State(Settle(o.rows, o.sessions[p].rows, o.sessions[p].outcomes), o.sessions - {p}, o.tries)
    case Abort(p) =>
      if p !in o.sessions || |o.sessions[p].outcomes| > |o.sessions[p].rows| then o
      else State(RollBack(o.rows, o.sessions[p].rows, o.sessions[p].outcomes), o.sessions - {p}, o.tries)
  }

  function AfterSteps(o: State, actions: seq<Action>): State {
    if actions == [] then o else Step(AfterSteps(o, actions[..|actions| - 1]), actions[|actions| - 1])
  }

  const EMPTY := State([], map[], [])

  // ---------- what is counted ----------

  function TriesOf(tries: seq<Try>, i: nat): nat {
    if tries == [] then 0 else TriesOf(tries[..|tries| - 1], i) + if tries[|tries| - 1].row == i then 1 else 0
  }

  /** Copies of a row's message in the broker's log. */
  function Copies(tries: seq<Try>, i: nat): nat {
    if tries == [] then 0
    else
      var t := tries[|tries| - 1];
      Copies(tries[..|tries| - 1], i) + if t.row == i && t.outcome != NotDelivered then 1 else 0
  }

  /** Sent within a transaction that is still open. */
  predicate InFlight(o: State, i: nat) {
    exists p :: p in o.sessions && SentBy(o.sessions[p], i)
  }

  predicate SentBy(s: Session, i: nat) {
    exists k :: 0 <= k < |s.outcomes| && k < |s.rows| && s.rows[k] == i
  }

  predicate AckedIn(tries: seq<Try>, i: nat) {
    exists k :: 0 <= k < |tries| && tries[k].row == i && tries[k].outcome == Acknowledged
  }

  // ---------- the invariant ----------

  predicate Increasing(s: seq<nat>) {
    forall j, k :: 0 <= j < k < |s| ==> s[j] < s[k]
  }

  ghost predicate SessionOk(o: State, p: Publisher)
    requires p in o.sessions
  {
    var s := o.sessions[p];
    && |s.outcomes| <= |s.rows|
    && Increasing(s.rows)
    && (forall k :: 0 <= k < |s.rows| ==> s.rows[k] < |o.rows| && !o.rows[s.rows[k]].published)
    && (forall k :: 0 <= k < |s.outcomes| && s.outcomes[k] == Acknowledged ==> AckedIn(o.tries, s.rows[k]))
  }

  ghost predicate Disjoint(o: State) {
    forall p, q, i :: p in o.sessions && q in o.sessions && i in o.sessions[p].rows && i in o.sessions[q].rows ==> p == q
  }

  ghost predicate RowOk(o: State, i: nat)
    requires i < |o.rows|
  {
    && TriesOf(o.tries, i) == o.rows[i].attempts + o.rows[i].aborted + (if InFlight(o, i) then 1 else 0)
    && (o.rows[i].published ==> AckedIn(o.tries, i))
  }

  ghost predicate TriesOk(o: State) {
    forall k :: 0 <= k < |o.tries| ==> o.tries[k].row < |o.rows| && o.tries[k].message == MessageOf(o.rows[o.tries[k].row])
  }

  ghost predicate Inv(o: State) {
    && (forall p :: p in o.sessions ==> SessionOk(o, p))
    && Disjoint(o)
    && (forall i: nat :: i < |o.rows| ==> RowOk(o, i))
    && TriesOk(o)
  }

  // ---------- lemmas about the steps ----------

  lemma {:induction false} PickIsAvailable(o: State, i: nat, limit: nat)
    ensures var ids := Pick(o, i, limit);
            && |ids| <= limit && Increasing(ids)
            && forall k :: 0 <= k < |ids| ==> i <= ids[k] < |o.rows| && Available(o, ids[k])
    decreases |o.rows| - i
  {
    if i >= |o.rows| || limit == 0 {
    } else if Available(o, i) {
      PickIsAvailable(o, i + 1, limit - 1);
    } else {
      PickIsAvailable(o, i + 1, limit);
    }
  }

  /** No available row is passed over: whatever is left out comes after a full batch. */
  lemma {:induction false} PickIsEarliest(o: State, i: nat, limit: nat, j: nat)
    requires i <= j < |o.rows| && Available(o, j) && j !in Pick(o, i, limit)
    ensures |Pick(o, i, limit)| == limit && forall k :: k in Pick(o, i, limit) ==> k < j
    decreases |o.rows| - i
  {
    if limit > 0 {
      if Available(o, i) {
        PickIsEarliest(o, i + 1, limit - 1, j);
      } else {
        PickIsEarliest(o, i + 1, limit, j);
      }
    }
  }

  /** Settling touches each sent row once. */
  lemma {:induction false} SettleAt(rows: seq<Row>, ids: seq<nat>, outcomes: seq<Outcome>, i: nat)
    requires |outcomes| <= |ids| && Increasing(ids) && i < |rows|
    ensures (forall k :: 0 <= k < |outcomes| ==> ids[k] != i) ==> Settle(rows, ids, outcomes)[i] == rows[i]
    ensures forall k :: 0 <= k < |outcomes| && ids[k] == i ==> Settle(rows, ids, outcomes)[i] == Settled(rows[i], outcomes[k])
  {
    if outcomes != [] {
      SettleAt(rows, ids, outcomes[..|outcomes| - 1], i);
    }
  }

  lemma {:induction false} RollBackAt(rows: seq<Row>, ids: seq<nat>, outcomes: seq<Outcome>, i: nat)
    requires |outcomes| <= |ids| && Increasing(ids) && i < |rows|
    ensures (forall k :: 0 <= k < |outcomes| ==> ids[k] != i) ==> RollBack(rows, ids, outcomes)[i] == rows[i]
    ensures forall k :: 0 <= k < |outcomes| && ids[k] == i ==>
              RollBack(rows, ids, outcomes)[i] == rows[i].(aborted := rows[i].aborted + 1)
  {
    if outcomes != [] {
      RollBackAt(rows, ids, outcomes[..|outcomes| - 1], i);
    }
  }

  lemma TriesSnoc(tries: seq<Try>, t: Try, i: nat)
    ensures TriesOf(tries + [t], i) == TriesOf(tries, i) + if t.row == i then 1 else 0
    ensures AckedIn(tries + [t], i) <==> AckedIn(tries, i) || (t.row == i && t.outcome == Acknowledged)
  {
    assert (tries + [t])[..|tries|] == tries;
    if AckedIn(tries, i) {
      var k :| 0 <= k < |tries| && tries[k].row == i && tries[k].outcome == Acknowledged;
      assert (tries + [t])[k] == tries[k];
    }
    assert (tries + [t])[|tries|] == t;
    if AckedIn(tries + [t], i) {
      var k :| 0 <= k < |tries + [t]| && (tries + [t])[k].row == i && (tries + [t])[k].outcome == Acknowledged;
      assert k < |tries| ==> tries[k] == (tries + [t])[k];
    }
  }

  lemma {:induction false} NoTriesBeyond(tries: seq<Try>, n: nat)
    requires forall k :: 0 <= k < |tries| ==> tries[k].row < n
    ensures TriesOf(tries, n) == 0
  {
    if tries != [] {
      NoTriesBeyond(tries[..|tries| - 1], n);
    }
  }
}
