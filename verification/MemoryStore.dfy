/**
 The in-process store: `getAndUpdate` queues each update behind the key's previous one through a chain
 of promises and drops the chain's head once it has settled.

 A call is split where the event loop may interleave others: issuing it (the synchronous part, up to
 the first await), running its update once its predecessor has settled, and cleaning up after it.
 Steps of any calls may follow one another in any order that respects those dependencies.
 */
module MemoryStore {
  import opened Options
  import opened Sets
  import opened TokenBucket
  import opened BucketMap

  /** One `getAndUpdate`: its promise waits for `prior` and is settled once it has a result. */
  datatype Call = Call(key: string, nowMs: int, prior: Option<nat>, result: Option<Outcome>)

  /** The store's two maps, every call ever issued, and the order in which updates ran. */
  datatype Runtime = Runtime(entries: seq<Entry>, inflight: map<string, nat>, calls: seq<Call>, log: seq<nat>)

  const START := Runtime([], map[], [], [])

  ghost predicate Settled(r: Runtime, id: nat)
    requires id < |r.calls|
  {
    r.calls[id].result.Some?
  }

  function Issue(r: Runtime, key: string, nowMs: int): Runtime {
    var prior := if key in r.inflight then Some(r.inflight[key]) else None;
    r.(calls := r.calls + [Call(key, nowMs, prior, None)], inflight := r.inflight[key := |r.calls|])
  }

  /** A promise callback runs once: not before the promise it was chained to has settled. */
  predicate Ready(r: Runtime, id: nat) {
    && id < |r.calls| && r.calls[id].result.None?
    && (r.calls[id].prior.Some? ==>
          r.calls[id].prior.value < |r.calls| && r.calls[r.calls[id].prior.value].result.Some?)
  }

  function Run(c: Config, maxKeys: nat, r: Runtime, id: nat): Runtime
    requires Ready(r, id)
  {
    var call := r.calls[id];
    var u := Update(c, maxKeys, r.entries, call.key, call.nowMs);
    r.(entries := u.entries, calls := r.calls[id := call.(result := Some(u.outcome))], log := r.log + [id])
  }

  function CleanUp(r: Runtime, id: nat): Runtime
    requires id < |r.calls|
  {
    var key := r.calls[id].key;
    if key in r.inflight && r.inflight[key] == id then r.(inflight := r.inflight - {key}) else r
  }

  datatype Step = IssueStep(key: string, nowMs: int) | RunStep(id: nat) | CleanUpStep(id: nat)

  /** Steps that cannot happen yet change nothing. */
  function Apply(c: Config, maxKeys: nat, r: Runtime, step: Step): Runtime {
    match step
    case IssueStep(key, nowMs) => Issue(r, key, nowMs)
    case RunStep(id) => if Ready(r, id) then Run(c, maxKeys, r, id) else r
    case CleanUpStep(id) => if id < |r.calls| && r.calls[id].result.Some? then CleanUp(r, id) else r
  }

  function Interleaving(c: Config, maxKeys: nat, steps: seq<Step>): Runtime {
    if steps == [] then START
    else Apply(c, maxKeys, Interleaving(c, maxKeys, steps[..|steps| - 1]), steps[|steps| - 1])
  }

  // ---------- the chain ----------

  /** Each chained call waits for the previous call on its key; an unchained one found all of them settled. */
  ghost predicate Chained(r: Runtime) {
    && (forall id :: 0 <= id < |r.calls| ==> ChainedCall(r, id))
    && (forall i, j :: 0 <= i < j < |r.calls| && r.calls[i].key == r.calls[j].key && Settled(r, j) ==> Settled(r, i))
  }

  ghost predicate ChainedCall(r: Runtime, id: nat)
    requires id < |r.calls|
  {
    match r.calls[id].prior
    case None => forall k :: 0 <= k < id && r.calls[k].key == r.calls[id].key ==> Settled(r, k)
    case Some(p) =>
      && p < id && r.calls[p].key == r.calls[id].key
      && forall k :: p < k < id ==> r.calls[k].key != r.calls[id].key
  }

  /** The chain head of a key is its last call, and a key without one has nothing outstanding. */
  ghost predicate HeadsAreLast(r: Runtime) {
    && (forall key :: key in r.inflight ==>
          && r.inflight[key] < |r.calls| && r.calls[r.inflight[key]].key == key
          && forall k :: r.inflight[key] < k < |r.calls| ==> r.calls[k].key != key)
    && (forall id :: 0 <= id < |r.calls| && !Settled(r, id) ==> r.calls[id].key in r.inflight)
  }

  ghost predicate ChainInvariant(r: Runtime) {
    Chained(r) && HeadsAreLast(r)
  }

  lemma IssueKeepsChained(r: Runtime, key: string, nowMs: int)
    requires ChainInvariant(r)
    ensures Chained(Issue(r, key, nowMs))
  {
    var s := Issue(r, key, nowMs);
    forall id | 0 <= id < |s.calls|
      ensures ChainedCall(s, id)
    {
      if id < |r.calls| {
        assert ChainedCall(r, id);
        assert s.calls[id] == r.calls[id];
      }
    }
  }

  lemma IssueKeepsHeads(r: Runtime, key: string, nowMs: int)
    requires HeadsAreLast(r)
    ensures HeadsAreLast(Issue(r, key, nowMs))
  {}

  lemma IssueKeepsChain(r: Runtime, key: string, nowMs: int)
    requires ChainInvariant(r)
    ensures ChainInvariant(Issue(r, key, nowMs))
  {
    IssueKeepsChained(r, key, nowMs);
    IssueKeepsHeads(r, key, nowMs);
  }

  /** When a call is ready, every earlier call on its key has settled and no later one has. */
  lemma ReadyMeansNext(r: Runtime, id: nat)
    requires ChainInvariant(r) && Ready(r, id)
    ensures forall k :: 0 <= k < id && r.calls[k].key == r.calls[id].key ==> Settled(r, k)
    ensures forall k :: id < k < |r.calls| && r.calls[k].key == r.calls[id].key ==> !Settled(r, k)
  {
    assert ChainedCall(r, id);
  }

  lemma RunKeepsChain(c: Config, maxKeys: nat, r: Runtime, id: nat)
    requires ChainInvariant(r) && Ready(r, id)
    ensures ChainInvariant(Run(c, maxKeys, r, id))
  {
    var s := Run(c, maxKeys, r, id);
    ReadyMeansNext(r, id);
    assert forall k :: 0 <= k < |r.calls| ==>
      s.calls[k].key == r.calls[k].key && s.calls[k].prior == r.calls[k].prior && (Settled(s, k) <==> Settled(r, k) || k == id);
    forall k | 0 <= k < |s.calls|
      ensures ChainedCall(s, k)
    {
      assert ChainedCall(r, k);
    }
  }

  /** Dropping a settled head leaves nothing outstanding on the key, so no later call can overtake. */
  lemma CleanUpKeepsChain(r: Runtime, id: nat)
    requires ChainInvariant(r) && id < |r.calls| && Settled(r, id)
    ensures ChainInvariant(CleanUp(r, id))
  {
    var s := CleanUp(r, id);
    forall k | 0 <= k < |s.calls|
      ensures ChainedCall(s, k)
    {
      assert ChainedCall(r, k);
    }
  }

  // ---------- linearisation ----------

  function TakeOf(call: Call): Take {
    Take(call.key, call.nowMs)
  }

  function TakesOf(calls: seq<Call>, ids: seq<nat>): (ts: seq<Take>)
    requires forall i :: 0 <= i < |ids| ==> ids[i] < |calls|
    ensures |ts| == |ids| && forall i :: 0 <= i < |ids| ==> ts[i] == TakeOf(calls[ids[i]])
  {
    seq(|ids|, i requires 0 <= i < |ids| => TakeOf(calls[ids[i]]))
  }

  ghost predicate LogIsExact(r: Runtime) {
    && (forall a :: 0 <= a < |r.log| ==> r.log[a] < |r.calls| && Settled(r, r.log[a]))
    && (forall id :: 0 <= id < |r.calls| && Settled(r, id) ==> id in r.log)
    && (forall a, b :: 0 <= a < b < |r.log| ==> r.log[a] != r.log[b])
  }

  ghost predicate InOrder(r: Runtime, i: nat, j: nat) {
    i < |r.calls| && j < |r.calls| && r.calls[i].key == r.calls[j].key ==> i < j
  }

  /** Updates on a key ran in the order their calls were issued. */
  ghost predicate NoOvertaking(r: Runtime) {
    forall a, b :: 0 <= a < b < |r.log| ==> InOrder(r, r.log[a], r.log[b])
  }

  /** The map and every result are those of the same updates executed one after the other. */
  ghost predicate Sequential(c: Config, maxKeys: nat, r: Runtime)
    requires LogIsExact(r)
  {
    var takes := TakesOf(r.calls, r.log);
    && r.entries == Fold(c, maxKeys, takes)
    && forall a :: 0 <= a < |takes| ==> r.calls[r.log[a]].result == Some(SequentialOutcome(c, maxKeys, takes, a))
  }

  /** What the a-th of a row of updates returns. */
  ghost function SequentialOutcome(c: Config, maxKeys: nat, takes: seq<Take>, a: nat): Outcome
    requires a < |takes|
  {
    Update(c, maxKeys, Fold(c, maxKeys, takes[..a]), takes[a].key, takes[a].nowMs).outcome
  }

  ghost predicate Linearised(c: Config, maxKeys: nat, r: Runtime) {
    ChainInvariant(r) && LogIsExact(r) && NoOvertaking(r) && Sequential(c, maxKeys, r)
  }

  lemma IssueKeepsLog(r: Runtime, key: string, nowMs: int)
    requires LogIsExact(r) && NoOvertaking(r)
    ensures LogIsExact(Issue(r, key, nowMs)) && NoOvertaking(Issue(r, key, nowMs))
  {}

  lemma IssueKeepsLinearised(c: Config, maxKeys: nat, r: Runtime, key: string, nowMs: int)
    requires Linearised(c, maxKeys, r)
    ensures Linearised(c, maxKeys, Issue(r, key, nowMs))
  {
    IssueKeepsChain(r, key, nowMs);
    IssueKeepsLog(r, key, nowMs);
    assert TakesOf(Issue(r, key, nowMs).calls, r.log) == TakesOf(r.calls, r.log);
  }

  lemma RunKeepsLog(c: Config, maxKeys: nat, r: Runtime, id: nat)
    requires ChainInvariant(r) && LogIsExact(r) && NoOvertaking(r) && Ready(r, id)
    ensures LogIsExact(Run(c, maxKeys, r, id)) && NoOvertaking(Run(c, maxKeys, r, id))
  {
    var s := Run(c, maxKeys, r, id);
    ReadyMeansNext(r, id);
    assert forall k :: 0 <= k < |r.calls| && k != id ==> s.calls[k] == r.calls[k];
    assert id !in r.log;
    forall a, b | 0 <= a < b < |s.log|
      ensures InOrder(s, s.log[a], s.log[b])
    {
      if b < |r.log| {
        assert InOrder(r, r.log[a], r.log[b]);
      }
    }
  }

  lemma RunAppendsTake(c: Config, maxKeys: nat, r: Runtime, id: nat)
    requires LogIsExact(r) && Ready(r, id) && LogIsExact(Run(c, maxKeys, r, id))
    ensures var s := Run(c, maxKeys, r, id);
            TakesOf(s.calls, s.log) == TakesOf(r.calls, r.log) + [TakeOf(r.calls[id])]
  {}

  lemma FoldSnoc(c: Config, maxKeys: nat, takes: seq<Take>, t: Take)
    ensures Fold(c, maxKeys, takes + [t]) == Update(c, maxKeys, Fold(c, maxKeys, takes), t.key, t.nowMs).entries
  {
    assert (takes + [t])[..|takes|] == takes;
  }

  lemma OutcomeOfPrefix(c: Config, maxKeys: nat, takes: seq<Take>, t: Take, a: nat)
    requires a <= |takes|
    ensures SequentialOutcome(c, maxKeys, takes + [t], a) ==
            if a < |takes| then SequentialOutcome(c, maxKeys, takes, a)
            else Update(c, maxKeys, Fold(c, maxKeys, takes), t.key, t.nowMs).outcome
  {
    assert (takes + [t])[..a] == takes[..a];
    assert takes[..|takes|] == takes;
  }

  /** Running a call adds its result to the log and changes no result in it. */
  lemma ResultAfterRun(c: Config, maxKeys: nat, r: Runtime, id: nat, a: nat)
    requires Ready(r, id) && a <= |r.log|
    requires a < |r.log| ==> r.log[a] < |r.calls| && Settled(r, r.log[a])
    ensures var s := Run(c, maxKeys, r, id);
            && s.log[a] < |s.calls|
            && s.calls[s.log[a]].result ==
               if a < |r.log| then r.calls[r.log[a]].result
               else Some(Update(c, maxKeys, r.entries, r.calls[id].key, r.calls[id].nowMs).outcome)
  {}

  lemma RunKeepsLinearised(c: Config, maxKeys: nat, r: Runtime, id: nat)
    requires Linearised(c, maxKeys, r) && Ready(r, id)
    ensures Linearised(c, maxKeys, Run(c, maxKeys, r, id))
  {
    RunKeepsChain(c, maxKeys, r, id);
    RunKeepsLog(c, maxKeys, r, id);
    RunIsSequential(c, maxKeys, r, id);
  }

  lemma RunIsSequential(c: Config, maxKeys: nat, r: Runtime, id: nat)
    requires LogIsExact(r) && Ready(r, id) && Sequential(c, maxKeys, r) && LogIsExact(Run(c, maxKeys, r, id))
    ensures Sequential(c, maxKeys, Run(c, maxKeys, r, id))
  {
    var s := Run(c, maxKeys, r, id);
    var was, take := TakesOf(r.calls, r.log), TakeOf(r.calls[id]);
    RunAppendsTake(c, maxKeys, r, id);
    FoldSnoc(c, maxKeys, was, take);
    forall a | 0 <= a < |s.log|
      ensures s.calls[s.log[a]].result == Some(SequentialOutcome(c, maxKeys, was + [take], a))
    {
      ResultAfterRun(c, maxKeys, r, id, a);
      OutcomeOfPrefix(c, maxKeys, was, take, a);
    }
  }

  lemma CleanUpKeepsLinearised(c: Config, maxKeys: nat, r: Runtime, id: nat)
    requires Linearised(c, maxKeys, r) && id < |r.calls| && Settled(r, id)
    ensures Linearised(c, maxKeys, CleanUp(r, id))
  {
    CleanUpKeepsChain(r, id);
    SameLogSameOrder(c, maxKeys, r, CleanUp(r, id));
  }

  lemma SameLogSameOrder(c: Config, maxKeys: nat, r: Runtime, s: Runtime)
    requires s == r.(inflight := s.inflight)
    requires LogIsExact(r) && NoOvertaking(r) && Sequential(c, maxKeys, r)
    ensures LogIsExact(s) && NoOvertaking(s) && Sequential(c, maxKeys, s)
  {
    forall a, b | 0 <= a < b < |s.log|
      ensures InOrder(s, s.log[a], s.log[b])
    {
      assert InOrder(r, r.log[a], r.log[b]);
    }
  }

  lemma StepKeepsLinearised(c: Config, maxKeys: nat, r: Runtime, step: Step)
    requires Linearised(c, maxKeys, r)
    ensures Linearised(c, maxKeys, Apply(c, maxKeys, r, step))
  {
    match step {
      case IssueStep(key, nowMs) =>
        assert Apply(c, maxKeys, r, step) == Issue(r, key, nowMs);
        IssueKeepsLinearised(c, maxKeys, r, key, nowMs);
      case RunStep(id) =>
        if Ready(r, id) {
          assert Apply(c, maxKeys, r, step) == Run(c, maxKeys, r, id);
          RunKeepsLinearised(c, maxKeys, r, id);
        }
      case CleanUpStep(id) =>
        if id < |r.calls| && r.calls[id].result.Some? {
          assert Apply(c, maxKeys, r, step) == CleanUp(r, id);
          CleanUpKeepsLinearised(c, maxKeys, r, id);
        }
    }
  }

  /** Every interleaving of calls, callbacks and clean-ups is a sequential execution of the updates in
      which each key's updates run in call order. */
  lemma {:induction false} EveryInterleavingIsLinearised(c: Config, maxKeys: nat, steps: seq<Step>)
    ensures Linearised(c, maxKeys, Interleaving(c, maxKeys, steps))
  {
    if steps == [] {
      assert TakesOf([], []) == [];
    } else {
      EveryInterleavingIsLinearised(c, maxKeys, steps[..|steps| - 1]);
      StepKeepsLinearised(c, maxKeys, Interleaving(c, maxKeys, steps[..|steps| - 1]), steps[|steps| - 1]);
    }
  }

  /** The outstanding calls on a key form one chain, oldest first, that ends at the key's head. */
  lemma OutstandingCallsFormOneChain(r: Runtime, i: nat, j: nat)
    requires ChainInvariant(r)
    requires i < j < |r.calls| && r.calls[i].key == r.calls[j].key && !Settled(r, i)
    requires forall k :: i < k < j ==> r.calls[k].key != r.calls[j].key
    ensures !Settled(r, j) && r.calls[j].prior == Some(i)
    ensures r.calls[j].key in r.inflight && j <= r.inflight[r.calls[j].key]
  {
    assert ChainedCall(r, j);
  }

  /** No deadlock: as long as a key has an outstanding call, its oldest one can run. */
  lemma OldestOutstandingIsReady(r: Runtime, id: nat)
    requires ChainInvariant(r) && id < |r.calls| && !Settled(r, id)
    requires forall k :: 0 <= k < id && r.calls[k].key == r.calls[id].key ==> Settled(r, k)
    ensures Ready(r, id)
  {
    assert ChainedCall(r, id);
  }

  /** The map never holds more than `maxKeys` buckets. */
  lemma MapStaysBounded(c: Config, maxKeys: nat, steps: seq<Step>)
    ensures |Interleaving(c, maxKeys, steps).entries| <= maxKeys
  {
    EveryInterleavingIsLinearised(c, maxKeys, steps);
    var r := Interleaving(c, maxKeys, steps);
    FoldStaysBounded(c, maxKeys, TakesOf(r.calls, r.log));
  }

  // ---------- rate limiting under concurrency ----------

  /** What the callers were told, in the order their updates ran. */
  ghost function LogDecisions(r: Runtime): (ds: seq<Decision>)
    requires LogIsExact(r)
    ensures |ds| == |r.log|
  {
    seq(|r.log|, a requires 0 <= a < |r.log| => r.calls[r.log[a]].result.value.decision)
  }

  /** The decisions of the takes on one key. */
  function OnKey(takes: seq<Take>, ds: seq<Decision>, key: string): (own: seq<Decision>)
    requires |takes| == |ds|
    ensures |own| == |TimesOf(takes, key)|
  {
    if takes == [] then []
    else
      OnKey(takes[..|takes| - 1], ds[..|ds| - 1], key)
      + if takes[|takes| - 1].key == key then [ds[|ds| - 1]] else []
  }

  ghost predicate AreOutcomes(c: Config, maxKeys: nat, takes: seq<Take>, ds: seq<Decision>) {
    |takes| == |ds| && forall a :: 0 <= a < |takes| ==> ds[a] == SequentialOutcome(c, maxKeys, takes, a).decision
  }

  lemma OutcomesOfPrefix(c: Config, maxKeys: nat, takes: seq<Take>, ds: seq<Decision>)
    requires AreOutcomes(c, maxKeys, takes, ds) && takes != []
    ensures AreOutcomes(c, maxKeys, takes[..|takes| - 1], ds[..|ds| - 1])
  {
    var rest, t := takes[..|takes| - 1], takes[|takes| - 1];
    assert takes == rest + [t];
    forall a | 0 <= a < |rest|
      ensures ds[a] == SequentialOutcome(c, maxKeys, rest, a).decision
    {
      OutcomeOfPrefix(c, maxKeys, rest, t, a);
    }
  }

  /** Callers served one after the other get, on each key, the decisions of a bucket of its own that is lost
      whenever the key was evicted. */
  lemma {:induction false} SequentialCallersGetLossyDecisions(c: Config, maxKeys: nat, takes: seq<Take>, ds: seq<Decision>, key: string)
    requires AreOutcomes(c, maxKeys, takes, ds)
    ensures OnKey(takes, ds, key) == LossyDecisions(c, None, TimesOf(takes, key), LostOf(c, maxKeys, takes, key))
  {
    if takes != [] {
      var rest, t := takes[..|takes| - 1], takes[|takes| - 1];
      var times, lost := TimesOf(rest, key), LostOf(c, maxKeys, rest, key);
      OutcomesOfPrefix(c, maxKeys, takes, ds);
      SequentialCallersGetLossyDecisions(c, maxKeys, rest, ds[..|ds| - 1], key);
      if t.key == key {
        EachKeyHasALossyBucket(c, maxKeys, rest, key);
        LossySnoc(c, None, times, lost, t.nowMs, Get(Fold(c, maxKeys, rest), key).None?);
        assert ds[|ds| - 1] == SequentialOutcome(c, maxKeys, takes, |takes| - 1).decision;
      } else {
        assert TimesOf(takes, key) == times && LostOf(c, maxKeys, takes, key) == lost;
      }
    }
  }

  /** The same for calls in any interleaving. */
  lemma CallersGetLossyDecisions(c: Config, maxKeys: nat, steps: seq<Step>, key: string)
    ensures var r := Interleaving(c, maxKeys, steps);
            LogIsExact(r) &&
            var takes := TakesOf(r.calls, r.log);
            OnKey(takes, LogDecisions(r), key) == LossyDecisions(c, None, TimesOf(takes, key), LostOf(c, maxKeys, takes, key))
  {
    EveryInterleavingIsLinearised(c, maxKeys, steps);
    var r := Interleaving(c, maxKeys, steps);
    SequentialCallersGetLossyDecisions(c, maxKeys, TakesOf(r.calls, r.log), LogDecisions(r), key);
  }

  /** While all keys fit, no bucket is ever lost. */
  lemma {:induction false} NothingIsLostWhileKeysFit(c: Config, maxKeys: nat, takes: seq<Take>, key: string)
    requires |KeysTaken(takes)| <= maxKeys
    ensures var times, lost := TimesOf(takes, key), LostOf(c, maxKeys, takes, key);
            && LossyDecisions(c, None, times, lost) == Decisions(c, None, times)
            && LossyAfter(c, None, times, lost) == TokenBucket.After(c, None, times)
  {
    if takes != [] {
      var rest, t := takes[..|takes| - 1], takes[|takes| - 1];
      var times, lost := TimesOf(rest, key), LostOf(c, maxKeys, rest, key);
      SubsetIsNoLarger(KeysTaken(rest), KeysTaken(takes));
      NothingIsLostWhileKeysFit(c, maxKeys, rest, key);
      if t.key == key {
        EachKeyHasItsOwnBucket(c, maxKeys, rest, key);
        LossySnoc(c, None, times, lost, t.nowMs, Get(Fold(c, maxKeys, rest), key).None?);
        DecisionsSnoc(c, None, times, t.nowMs);
        AfterSnoc(c, None, times, t.nowMs);
      } else {
        assert TimesOf(takes, key) == times && LostOf(c, maxKeys, takes, key) == lost;
      }
    }
  }

  /** However calls interleave, while all keys fit the callers of a key get the decisions of a private bucket served
      in call order. */
  lemma CallersGetPrivateDecisions(c: Config, maxKeys: nat, steps: seq<Step>, key: string)
    ensures var r := Interleaving(c, maxKeys, steps);
            LogIsExact(r) &&
            var takes := TakesOf(r.calls, r.log);
            |KeysTaken(takes)| <= maxKeys ==>
              OnKey(takes, LogDecisions(r), key) == Decisions(c, None, TimesOf(takes, key))
  {
    CallersGetLossyDecisions(c, maxKeys, steps, key);
    var r := Interleaving(c, maxKeys, steps);
    var takes := TakesOf(r.calls, r.log);
    if |KeysTaken(takes)| <= maxKeys {
      NothingIsLostWhileKeysFit(c, maxKeys, takes, key);
    }
  }

  /** Over the calls i..j on a key, at most one burst, one more for each of them but the first that found the key
      evicted, and the refill of the time that passed forwards were admitted. */
  ghost predicate WithinRate(c: Config, maxKeys: nat, takes: seq<Take>, ds: seq<Decision>, key: string, i: nat, j: nat)
    requires |takes| == |ds| && i < j <= |TimesOf(takes, key)|
  {
    WithinLossyRate(c, OnKey(takes, ds, key)[i..j], TimesOf(takes, key)[i..j], LostOf(c, maxKeys, takes, key)[i..j])
  }

  lemma SequentialCallersObeyTheRateBound(c: Config, maxKeys: nat, takes: seq<Take>, ds: seq<Decision>, key: string, i: nat, j: nat)
    requires ValidConfig(c) && AreOutcomes(c, maxKeys, takes, ds) && i < j <= |TimesOf(takes, key)|
    ensures WithinRate(c, maxKeys, takes, ds, key, i, j)
  {
    SequentialCallersGetLossyDecisions(c, maxKeys, takes, ds, key);
    LossyRateBound(c, None, TimesOf(takes, key), LostOf(c, maxKeys, takes, key), i, j);
  }

  /** However calls interleave and whatever is evicted, the rate bound holds over every stretch of the calls on a key. */
  lemma ConcurrentCallersObeyTheRateBound(c: Config, maxKeys: nat, steps: seq<Step>, key: string, i: nat, j: nat)
    requires ValidConfig(c)
    ensures var r := Interleaving(c, maxKeys, steps);
            LogIsExact(r) &&
            var takes := TakesOf(r.calls, r.log);
            i < j <= |TimesOf(takes, key)| ==> WithinRate(c, maxKeys, takes, LogDecisions(r), key, i, j)
  {
    EveryInterleavingIsLinearised(c, maxKeys, steps);
    var r := Interleaving(c, maxKeys, steps);
    var takes := TakesOf(r.calls, r.log);
    assert AreOutcomes(c, maxKeys, takes, LogDecisions(r));
    if i < j <= |TimesOf(takes, key)| {
      SequentialCallersObeyTheRateBound(c, maxKeys, takes, LogDecisions(r), key, i, j);
    }
  }

  // ---------- the class ----------

  class InMemoryTokenBucketStore {
    const maxKeys: nat
    var entries: seq<Entry>
    var inflight: map<string, nat>
    var calls: seq<Call>
    ghost var log: seq<nat>

    constructor (maxKeys: int)
      ensures this.maxKeys == (if maxKeys < 1 then 1 else maxKeys) && Value() == START
    {
      this.maxKeys := if maxKeys < 1 then 1 else maxKeys;
      entries := [];
      inflight := map[];
      calls := [];
      log := [];
    }

    ghost function Value(): Runtime
      reads this
    {
      Runtime(entries, inflight, calls, log)
    }

    /** `getAndUpdate` up to its first await; returns the promise it created. */
    method Begin(key: string, nowMs: int) returns (next: nat)
      modifies this
      ensures Value() == Issue(old(Value()), key, nowMs) && next == |old(calls)|
    {
      var prior := if key in inflight then Some(inflight[key]) else None;
      next := |calls|;
      calls := calls + [Call(key, nowMs, prior, None)];
      inflight := inflight[key := next];
    }

    /** The callback chained to the prior promise. */
    method Callback(c: Config, id: nat)
      requires Ready(Value(), id) && |entries| <= maxKeys
      modifies this
      ensures Value() == Run(c, maxKeys, old(Value()), id) && |entries| <= maxKeys
    {
      var call := calls[id];
      var prev := Get(entries, call.key);
      var out := Compute(c, prev, call.nowMs);
      PutGrowsByOne(entries, call.key, out.next);
      entries := Put(entries, call.key, out.next);
      MaybeEvict();
      calls := calls[id := call.(result := Some(out))];
      log := log + [id];
    }

    /** The `finally` block. */
    method Finally(id: nat)
      requires id < |calls| && calls[id].result.Some?
      modifies this`inflight
      ensures Value() == CleanUp(old(Value()), id)
    {
      var key := calls[id].key;
      if key in inflight && inflight[key] == id {
        inflight := inflight - {key};
      }
    }

    method MaybeEvict()
      requires |entries| <= maxKeys + 1
      modifies this`entries
      ensures entries == Evict(old(entries), maxKeys) && |entries| <= maxKeys
    {
      if |entries| <= maxKeys {
        return;
      }
      var oldest: Option<nat> := None;
      var oldestMs: Option<int> := None;
      for i := 0 to |entries|
        invariant oldest.None? <==> i == 0
        invariant oldestMs.None? <==> i == 0
        invariant oldest.Some? ==> oldest.value < i && oldestMs == Some(entries[oldest.value].state.lastRefillMs)
                                   && IsOldest(entries[..i], oldest.value)
      {
        var v := entries[i].state;
        if oldestMs.None? || v.lastRefillMs < oldestMs.value {
          oldestMs := Some(v.lastRefillMs);
          oldest := Some(i);
        }
      }
      assert entries[..|entries|] == entries;
      OldestIsUnique(entries, oldest.value);
      RemoveAtIsSplice(entries, oldest.value);
      entries := entries[..oldest.value] + entries[oldest.value + 1..];
    }
  }

  lemma {:induction false} PutGrowsByOne(es: seq<Entry>, key: string, s: BucketState)
    ensures |es| <= |Put(es, key, s)| <= |es| + 1
  {
    if es != [] && es[0].key != key {
      PutGrowsByOne(es[1..], key, s);
    }
  }

  lemma OldestIsUnique(es: seq<Entry>, i: nat)
    requires IsOldest(es, i)
    ensures Oldest(es) == i
  {}
}
