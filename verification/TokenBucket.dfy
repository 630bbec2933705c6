/**
 The token bucket. Tokens are exact reals, clock readings are whole milliseconds and may step
 backwards unless a lemma says otherwise.
 */
module TokenBucket {
  import opened Options

  datatype Config = Config(burst: real, refillPerMs: real)

  /** What the constructor accepts. */
  ghost predicate ValidConfig(c: Config) {
    c.burst > 0.0 && c.refillPerMs >= 0.0
  }

  datatype BucketState = BucketState(tokens: real, lastRefillMs: int)

  datatype Wait = Millis(ms: int) | Forever

  datatype Decision = Decision(allowed: bool, retryAfter: Wait)

  datatype Outcome = Outcome(next: BucketState, decision: Decision)

  function Elapsed(fromMs: int, toMs: int): nat {
    if toMs > fromMs then toMs - fromMs else 0
  }

  function Min(a: real, b: real): real {
    if a <= b then a else b
  }

  function Ceil(x: real): (n: int)
    ensures n as real - 1.0 < x <= n as real
  {
    -((-x).Floor)
  }

  /** The tokens that flow in during `ms` milliseconds. */
  function Refill(c: Config, ms: nat): real {
    ms as real * c.refillPerMs
  }

  lemma RefillAdds(c: Config, a: nat, b: nat)
    requires c.refillPerMs >= 0.0
    ensures Refill(c, a + b) == Refill(c, a) + Refill(c, b)
    ensures 0.0 <= Refill(c, a) <= Refill(c, a + b)
  {}

  /** The tokens on hand at `now`, before taking any. */
  function Refilled(c: Config, prev: Option<BucketState>, now: int): real {
    match prev
    case None => c.burst
    case Some(s) => Min(c.burst, s.tokens + Refill(c, Elapsed(s.lastRefillMs, now)))
  }

  function Compute(c: Config, prev: Option<BucketState>, now: int): Outcome {
    var refilled := Refilled(c, prev, now);
    if refilled >= 1.0 then
      Outcome(BucketState(refilled - 1.0, now), Decision(true, Millis(0)))
    else
      var wait := if c.refillPerMs > 0.0 then Millis(Ceil((1.0 - refilled) / c.refillPerMs)) else Forever;
      Outcome(BucketState(refilled, now), Decision(false, wait))
  }

  // ---------- whole traces ----------

  /** The state of one key after takes at `times`. */
  function After(c: Config, prev: Option<BucketState>, times: seq<int>): (s: Option<BucketState>)
    ensures times != [] ==> s.Some?
    decreases |times|
  {
    if times == [] then prev else After(c, Some(Compute(c, prev, times[0]).next), times[1..])
  }

  function Decisions(c: Config, prev: Option<BucketState>, times: seq<int>): (ds: seq<Decision>)
    ensures |ds| == |times|
    decreases |times|
  {
    if times == [] then []
    else
      var o := Compute(c, prev, times[0]);
      [o.decision] + Decisions(c, Some(o.next), times[1..])
  }

  function Admissions(ds: seq<Decision>): nat {
    if ds == [] then 0 else (if ds[0].allowed then 1 else 0) + Admissions(ds[1..])
  }

  /** The time that passed forwards between the first and the last take. */
  function Forward(times: seq<int>): nat {
    if |times| <= 1 then 0 else Elapsed(times[0], times[1]) + Forward(times[1..])
  }

  ghost predicate NonDecreasing(times: seq<int>) {
    forall i, j :: 0 <= i < j < |times| ==> times[i] <= times[j]
  }

  ghost predicate Within(c: Config, s: Option<BucketState>) {
    s.Some? ==> 0.0 <= s.value.tokens <= c.burst
  }

  lemma ComputeStaysWithin(c: Config, prev: Option<BucketState>, now: int)
    requires ValidConfig(c) && Within(c, prev)
    ensures 0.0 <= Refilled(c, prev, now) <= c.burst
    ensures Within(c, Some(Compute(c, prev, now).next))
  {}

  /** Tokens never leave [0, burst], whatever the clock does. */
  lemma {:induction false} TokensStayWithin(c: Config, prev: Option<BucketState>, times: seq<int>)
    requires ValidConfig(c) && Within(c, prev)
    ensures Within(c, After(c, prev, times))
    decreases |times|
  {
    if times != [] {
      ComputeStaysWithin(c, prev, times[0]);
      TokensStayWithin(c, Some(Compute(c, prev, times[0]).next), times[1..]);
    }
  }

  /** What was admitted plus what is left never exceeds what was on hand at the first take plus the refill since. */
  lemma {:induction false} TokensAreConserved(c: Config, prev: Option<BucketState>, times: seq<int>)
    requires ValidConfig(c) && Within(c, prev) && times != []
    ensures Admissions(Decisions(c, prev, times)) as real + After(c, prev, times).value.tokens
         <= Refilled(c, prev, times[0]) + Refill(c, Forward(times))
    decreases |times|
  {
    var o := Compute(c, prev, times[0]);
    var rest := times[1..];
    ComputeStaysWithin(c, prev, times[0]);
    assert Decisions(c, prev, times)[1..] == Decisions(c, Some(o.next), rest);
    if rest != [] {
      TokensAreConserved(c, Some(o.next), rest);
      RefillAdds(c, Elapsed(times[0], times[1]), Forward(rest));
    } else {
      assert Forward(times) == 0;
    }
  }

  lemma TakeAgainAtOnce(c: Config, prev: Option<BucketState>, now: int)
    requires ValidConfig(c) && Within(c, prev)
    ensures var onHand, o := Refilled(c, prev, now), Compute(c, prev, now);
            && o.next.lastRefillMs == now && Refilled(c, Some(o.next), now) == o.next.tokens
            && o.decision.allowed == (onHand >= 1.0) && o.next.tokens == onHand - if onHand >= 1.0 then 1.0 else 0.0
  {
    ComputeStaysWithin(c, prev, now);
  }

  lemma AdmittedAtOnce(x: real, n: nat)
    requires x >= 0.0 && n > 0
    ensures (if n <= x.Floor then n else x.Floor) ==
            if x >= 1.0 then 1 + (if n - 1 <= (x - 1.0).Floor then n - 1 else (x - 1.0).Floor)
            else if n - 1 <= x.Floor then n - 1 else x.Floor
  {}

  lemma OneMoreDecision(c: Config, prev: Option<BucketState>, now: int, n: nat)
    requires n > 0
    ensures var o, times, rest := Compute(c, prev, now), seq(n, _ => now), seq(n - 1, _ => now);
            && After(c, prev, times) == After(c, Some(o.next), rest)
            && Admissions(Decisions(c, prev, times)) ==
               Admissions(Decisions(c, Some(o.next), rest)) + if o.decision.allowed then 1 else 0
  {
    var o, times := Compute(c, prev, now), seq(n, _ => now);
    assert times[1..] == seq(n - 1, _ => now);
    assert Decisions(c, prev, times)[1..] == Decisions(c, Some(o.next), times[1..]);
  }

  /** A take costs one token and a denial none: of `n` takes at one instant as many are admitted as there are whole tokens on
      hand, and the rest of the tokens stays. */
  lemma {:induction false} TakesAtOneInstant(c: Config, prev: Option<BucketState>, now: int, n: nat)
    requires ValidConfig(c) && Within(c, prev)
    ensures var onHand, times := Refilled(c, prev, now), seq(n, _ => now);
            var admitted := Admissions(Decisions(c, prev, times));
            && admitted == (if n <= onHand.Floor then n else onHand.Floor)
            && (n > 0 ==> After(c, prev, times) == Some(BucketState(onHand - admitted as real, now)))
    decreases n
  {
    ComputeStaysWithin(c, prev, now);
    if n > 0 {
      var o := Compute(c, prev, now);
      TakeAgainAtOnce(c, prev, now);
      TakesAtOneInstant(c, Some(o.next), now, n - 1);
      OneMoreDecision(c, prev, now, n);
      AdmittedAtOnce(Refilled(c, prev, now), n);
    }
  }

  /** Over any stretch i..j of any trace, at most `burst` plus the refill of the time that passed
      forwards is admitted. */
  lemma RateBound(c: Config, prev: Option<BucketState>, times: seq<int>, i: nat, j: nat)
    requires ValidConfig(c) && Within(c, prev) && i < j <= |times|
    ensures Admissions(Decisions(c, prev, times)[i..j]) as real
         <= c.burst + Refill(c, Forward(times[i..j]))
  {
    var start := After(c, prev, times[..i]);
    TokensStayWithin(c, prev, times[..i]);
    DecisionsOfStretch(c, prev, times, i, j);
    TokensStayWithin(c, start, times[i..j]);
    ComputeStaysWithin(c, start, times[i]);
    TokensAreConserved(c, start, times[i..j]);
  }

  lemma {:induction false} DecisionsPrefix(c: Config, prev: Option<BucketState>, times: seq<int>, j: nat)
    requires j <= |times|
    ensures Decisions(c, prev, times)[..j] == Decisions(c, prev, times[..j])
    decreases j
  {
    if j > 0 {
      DecisionsPrefix(c, Some(Compute(c, prev, times[0]).next), times[1..], j - 1);
      assert times[..j][1..] == times[1..][..j - 1];
    }
  }

  lemma {:induction false} DecisionsSuffix(c: Config, prev: Option<BucketState>, times: seq<int>, i: nat)
    requires i <= |times|
    ensures Decisions(c, prev, times)[i..] == Decisions(c, After(c, prev, times[..i]), times[i..])
    decreases i
  {
    if i == 0 {
      assert times[0..] == times;
    } else {
      var o := Compute(c, prev, times[0]);
      var later := Decisions(c, Some(o.next), times[1..]);
      DecisionsSuffix(c, Some(o.next), times[1..], i - 1);
      assert ([o.decision] + later)[i..] == later[i - 1..];
      assert times[1..][i - 1..] == times[i..] && times[..i][1..] == times[1..][..i - 1];
    }
  }

  lemma DecisionsOfStretch(c: Config, prev: Option<BucketState>, times: seq<int>, i: nat, j: nat)
    requires i <= j <= |times|
    ensures Decisions(c, prev, times)[i..j] == Decisions(c, After(c, prev, times[..i]), times[i..j])
  {
    var ds := Decisions(c, prev, times);
    DecisionsSuffix(c, prev, times, i);
    DecisionsPrefix(c, After(c, prev, times[..i]), times[i..], j - i);
    assert times[i..][..j - i] == times[i..j] && ds[i..][..j - i] == ds[i..j];
  }

  /** The time that passed forwards is at least the last reading minus the first, and equal to it exactly when
      the clock never stepped back. */
  lemma {:induction false} ForwardIsTheSpan(times: seq<int>)
    requires times != []
    ensures Forward(times) >= times[|times| - 1] - times[0]
    ensures Forward(times) == times[|times| - 1] - times[0] <==> NonDecreasing(times)
  {
    if |times| > 1 {
      var rest := times[1..];
      ForwardIsTheSpan(rest);
      assert NonDecreasing(times) ==> NonDecreasing(rest);
      if NonDecreasing(rest) && times[0] <= times[1] {
        forall i, j | 0 <= i < j < |times|
          ensures times[i] <= times[j]
        {
          assert times[j] == rest[j - 1] && rest[0] <= rest[j - 1];
          assert i > 0 ==> times[i] == rest[i - 1];
        }
      }
    }
  }

  // ---------- the retry promise ----------

  /** The first whole millisecond by which a token is due. */
  lemma CeilIsExact(deficit: real, rate: real, ms: int)
    requires rate > 0.0
    ensures ms as real * rate >= deficit <==> ms >= Ceil(deficit / rate)
  {
    var q := deficit / rate;
    assert q * rate == deficit;
    OrderIsKept(ms as real, q, rate);
  }

  lemma OrderIsKept(a: real, b: real, f: real)
    requires f > 0.0
    ensures a * f >= b * f <==> a >= b
  {
    if a < b {
      assert (b - a) * f > 0.0;
    } else {
      assert (a - b) * f >= 0.0;
    }
  }

  /** While a denied bucket stays below one token, waiting is additive: probing on the way changes nothing. */
  lemma ProbeIsInvisible(c: Config, prev: Option<BucketState>, probe: int, later: int)
    requires ValidConfig(c)
    requires prev.Some? ==> prev.value.lastRefillMs <= probe
    requires probe <= later && !Compute(c, prev, probe).decision.allowed
    ensures Compute(c, Some(Compute(c, prev, probe).next), later) == Compute(c, prev, later)
  {
    var first := if prev.Some? then Elapsed(prev.value.lastRefillMs, probe) else 0;
    RefillAdds(c, first, Elapsed(probe, later));
    RefillAdds(c, Elapsed(probe, later), 0);
    assert Refilled(c, Some(Compute(c, prev, probe).next), later) == Refilled(c, prev, later);
  }

  /** Denied probes at `probes`, then takes at `times`: the takes are decided as if nobody had probed. */
  lemma {:induction false} ProbesNeverChangeLaterDecisions(c: Config, prev: Option<BucketState>, probes: seq<int>, times: seq<int>)
    requires ValidConfig(c) && NonDecreasing(probes + times)
    requires prev.Some? && probes + times != [] ==> prev.value.lastRefillMs <= (probes + times)[0]
    requires forall d :: d in Decisions(c, prev, probes) ==> !d.allowed
    ensures Decisions(c, After(c, prev, probes), times) == Decisions(c, prev, times)
    decreases |probes|
  {
    if probes != [] {
      var o := Compute(c, prev, probes[0]);
      assert (probes + times)[1..] == probes[1..] + times;
      assert probes[1..] + times != [] ==> (probes[1..] + times)[0] == (probes + times)[1] >= (probes + times)[0];
      assert o.decision == Decisions(c, prev, probes)[0];
      assert forall d :: d in Decisions(c, Some(o.next), probes[1..]) ==> d in Decisions(c, prev, probes);
      ProbesNeverChangeLaterDecisions(c, Some(o.next), probes[1..], times);
      if times != [] {
        assert probes[0] == (probes + times)[0] && times[0] == (probes + times)[|probes|];
        ProbeIsInvisible(c, prev, probes[0], times[0]);
      }
    }
  }

  /** After a denial at `t` that promises `r` milliseconds, a take is allowed exactly when the clock then shows
      at least `t + r`. */
  lemma PromiseDecidesOneTake(c: Config, prev: Option<BucketState>, t: int, later: int)
    requires c.burst >= 1.0 && c.refillPerMs > 0.0
    requires !Compute(c, prev, t).decision.allowed
    ensures var r := Compute(c, prev, t).decision.retryAfter;
            r.Millis? && (Compute(c, Some(Compute(c, prev, t).next), later).decision.allowed <==> later >= t + r.ms)
  {
    var refilled := Refilled(c, prev, t);
    CeilIsExact(1.0 - refilled, c.refillPerMs, 0);
    CeilIsExact(1.0 - refilled, c.refillPerMs, later - t);
  }

  lemma {:induction false} ForwardSnoc(times: seq<int>, now: int)
    requires times != []
    ensures Forward(times + [now]) == Forward(times) + Elapsed(times[|times| - 1], now)
  {
    if |times| > 1 {
      assert (times + [now])[1..] == times[1..] + [now];
      ForwardSnoc(times[1..], now);
    }
  }

  lemma {:induction false} DecisionsSnoc(c: Config, prev: Option<BucketState>, times: seq<int>, now: int)
    ensures Decisions(c, prev, times + [now])
         == Decisions(c, prev, times) + [Compute(c, After(c, prev, times), now).decision]
    decreases |times|
  {
    if times != [] {
      assert (times + [now])[1..] == times[1..] + [now];
      DecisionsSnoc(c, Some(Compute(c, prev, times[0]).next), times[1..], now);
    }
  }

  ghost predicate AllDenied(ds: seq<Decision>) {
    forall i :: 0 <= i < |ds| ==> !ds[i].allowed
  }

  /** Through denials a bucket holds what it held plus the refill of the time that passed forwards: below one
      token the cap is never felt. */
  lemma {:induction false} DeniedBucketsAccrue(c: Config, s: BucketState, probes: seq<int>)
    requires c.burst >= 1.0 && c.refillPerMs > 0.0 && s.tokens < 1.0
    requires AllDenied(Decisions(c, Some(s), probes))
    ensures var times := [s.lastRefillMs] + probes;
            After(c, Some(s), probes) == Some(BucketState(s.tokens + Refill(c, Forward(times)), times[|times| - 1]))
    ensures After(c, Some(s), probes).value.tokens < 1.0
    decreases |probes|
  {
    if probes != [] {
      var o := Compute(c, Some(s), probes[0]);
      assert o.decision == Decisions(c, Some(s), probes)[0];
      assert forall i :: 0 <= i < |probes| - 1 ==>
               Decisions(c, Some(o.next), probes[1..])[i] == Decisions(c, Some(s), probes)[i + 1];
      DeniedBucketsAccrue(c, o.next, probes[1..]);
      assert [o.next.lastRefillMs] + probes[1..] == probes;
      assert ([s.lastRefillMs] + probes)[1..] == probes;
      RefillAdds(c, Elapsed(s.lastRefillMs, probes[0]), Forward(probes));
    }
  }

  lemma RefillCovers(c: Config, deficit: real, ms: nat)
    requires c.refillPerMs > 0.0
    ensures Refill(c, ms) >= deficit <==> ms >= Ceil(deficit / c.refillPerMs)
  {
    CeilIsExact(deficit, c.refillPerMs, ms);
  }

  lemma AllowedIff(c: Config, s: BucketState, now: int)
    requires c.burst >= 1.0
    ensures Compute(c, Some(s), now).decision.allowed <==> s.tokens + Refill(c, Elapsed(s.lastRefillMs, now)) >= 1.0
  {}

  /** With `x` tokens and the refill of `span` on hand at `at`, a take at `now` is allowed exactly when the whole
      time pays for the deficit `1 - x`. */
  lemma TakeAfterAccrual(c: Config, x: real, span: nat, at: int, now: int)
    requires c.burst >= 1.0 && c.refillPerMs > 0.0
    ensures Compute(c, Some(BucketState(x + Refill(c, span), at)), now).decision.allowed <==>
            span + Elapsed(at, now) >= Ceil((1.0 - x) / c.refillPerMs)
  {
    var e := Elapsed(at, now);
    AllowedIff(c, BucketState(x + Refill(c, span), at), now);
    RefillAdds(c, span, e);
    RefillCovers(c, 1.0 - x, span + e);
  }

  /** A take after denied probes is allowed exactly when enough time has passed forwards since the denial. */
  lemma DeniedProbesThenTake(c: Config, prev: Option<BucketState>, t: int, probes: seq<int>, last: int)
    requires c.burst >= 1.0 && c.refillPerMs > 0.0 && !Compute(c, prev, t).decision.allowed
    requires AllDenied(Decisions(c, Some(Compute(c, prev, t).next), probes))
    ensures Compute(c, After(c, Some(Compute(c, prev, t).next), probes), last).decision.allowed <==>
            Forward([t] + probes + [last]) >= Compute(c, prev, t).decision.retryAfter.ms
  {
    var s := Compute(c, prev, t).next;
    DeniedBucketsAccrue(c, s, probes);
    var times := [t] + probes;
    ForwardSnoc(times, last);
    TakeAfterAccrual(c, s.tokens, Forward(times), times[|times| - 1], last);
  }

  lemma AllDeniedSnoc(c: Config, prev: Option<BucketState>, times: seq<int>, now: int)
    ensures AllDenied(Decisions(c, prev, times + [now])) <==>
            AllDenied(Decisions(c, prev, times)) && !Compute(c, After(c, prev, times), now).decision.allowed
  {
    var ds, d := Decisions(c, prev, times), Compute(c, After(c, prev, times), now).decision;
    DecisionsSnoc(c, prev, times, now);
    assert forall i :: 0 <= i < |ds| ==> (ds + [d])[i] == ds[i];
    assert (ds + [d])[|ds|] == d;
  }

  lemma {:induction false} ProbesAreDeniedIff(c: Config, prev: Option<BucketState>, t: int, probes: seq<int>)
    requires c.burst >= 1.0 && c.refillPerMs > 0.0 && !Compute(c, prev, t).decision.allowed
    ensures AllDenied(Decisions(c, Some(Compute(c, prev, t).next), probes)) <==>
            Forward([t] + probes) < Compute(c, prev, t).decision.retryAfter.ms
  {
    if probes == [] {
      assert [t] + probes == [t];
      CeilIsExact(1.0 - Refilled(c, prev, t), c.refillPerMs, 0);
    } else {
      var before, last := probes[..|probes| - 1], probes[|probes| - 1];
      assert probes == before + [last] && [t] + probes == [t] + before + [last];
      ProbesAreDeniedIff(c, prev, t, before);
      AllDeniedSnoc(c, Some(Compute(c, prev, t).next), before, last);
      ForwardSnoc([t] + before, last);
      if AllDenied(Decisions(c, Some(Compute(c, prev, t).next), before)) {
        DeniedProbesThenTake(c, prev, t, before, last);
      }
    }
  }

  /** The promise is exact on any clock, however often the caller probes: after a denial at `t` that promises `r`,
      probes are all denied exactly while less than `r` milliseconds have passed forwards since `t`, and the first
      take after them is allowed exactly when at least `r` have. */
  lemma RetryPromiseIsExact(c: Config, prev: Option<BucketState>, t: int, probes: seq<int>, last: int)
    requires c.burst >= 1.0 && c.refillPerMs > 0.0
    requires !Compute(c, prev, t).decision.allowed
    ensures var denied, r := Some(Compute(c, prev, t).next), Compute(c, prev, t).decision.retryAfter;
            && r.Millis?
            && (AllDenied(Decisions(c, denied, probes)) <==> Forward([t] + probes) < r.ms)
            && (AllDenied(Decisions(c, denied, probes)) ==>
                  (Compute(c, After(c, denied, probes), last).decision.allowed <==> Forward([t] + probes + [last]) >= r.ms))
  {
    ProbesAreDeniedIff(c, prev, t, probes);
    if AllDenied(Decisions(c, Some(Compute(c, prev, t).next), probes)) {
      DeniedProbesThenTake(c, prev, t, probes, last);
    }
  }

  /** On a clock that never steps back that is the wall-clock promise: every take before `t + r` is denied and the
      first one at or after `t + r` is allowed. */
  lemma RetryPromiseInTimeOrder(c: Config, prev: Option<BucketState>, t: int, probes: seq<int>, last: int)
    requires c.burst >= 1.0 && c.refillPerMs > 0.0
    requires !Compute(c, prev, t).decision.allowed
    requires NonDecreasing([t] + probes + [last])
    ensures var denied, r := Some(Compute(c, prev, t).next), Compute(c, prev, t).decision.retryAfter.ms;
            && (AllDenied(Decisions(c, denied, probes)) <==> forall i :: 0 <= i < |probes| ==> probes[i] < t + r)
            && (AllDenied(Decisions(c, denied, probes)) ==>
                  (Compute(c, After(c, denied, probes), last).decision.allowed <==> last >= t + r))
  {
    var times := [t] + probes;
    RetryPromiseIsExact(c, prev, t, probes, last);
    CeilIsExact(1.0 - Refilled(c, prev, t), c.refillPerMs, 0);
    PrefixInTimeOrder(times, last);
    ForwardIsTheSpan(times);
    ForwardIsTheSpan(times + [last]);
    LatestProbe(t, probes, t + Compute(c, prev, t).decision.retryAfter.ms);
  }

  lemma LatestProbe(t: int, probes: seq<int>, due: int)
    requires NonDecreasing([t] + probes) && t < due
    ensures (forall i :: 0 <= i < |probes| ==> probes[i] < due) <==> ([t] + probes)[|probes|] < due
  {
    var times := [t] + probes;
    assert forall i :: 0 <= i < |probes| ==> probes[i] == times[i + 1];
    if times[|probes|] < due {
      forall i | 0 <= i < |probes|
        ensures probes[i] < due
      {
        assert times[i + 1] <= times[|probes|];
      }
    }
  }

  lemma PrefixInTimeOrder(times: seq<int>, last: int)
    requires NonDecreasing(times + [last])
    ensures NonDecreasing(times)
  {
    assert forall i :: 0 <= i < |times| ==> times[i] == (times + [last])[i];
  }

  /** Without a refill the promise is never, and it is exact: on any clock, no later take is allowed. */
  lemma {:induction false} NeverIsExact(c: Config, prev: Option<BucketState>, t: int, times: seq<int>)
    requires c.refillPerMs == 0.0 && !Compute(c, prev, t).decision.allowed
    ensures Compute(c, prev, t).decision.retryAfter.Forever?
    ensures AllDenied(Decisions(c, Some(Compute(c, prev, t).next), times))
    decreases |times|
  {
    if times != [] {
      var s := Compute(c, prev, t).next;
      assert Refilled(c, Some(s), times[0]) < 1.0;
      NeverIsExact(c, Some(s), times[0], times[1..]);
    }
  }

  /** On any clock: denied probes leave the next take exactly as it would have been if and only if no more time passed
      forwards with them than without, or the bucket would be full anyway. */
  lemma ProbesAreInvisibleIff(c: Config, s: BucketState, probes: seq<int>, now: int)
    requires c.burst >= 1.0 && c.refillPerMs > 0.0 && s.tokens < 1.0
    requires AllDenied(Decisions(c, Some(s), probes))
    ensures var alone := Elapsed(s.lastRefillMs, now);
            (Compute(c, After(c, Some(s), probes), now) == Compute(c, Some(s), now)
             <==> Forward([s.lastRefillMs] + probes + [now]) == alone || s.tokens + Refill(c, alone) >= c.burst)
  {
    var times, alone := [s.lastRefillMs] + probes, Elapsed(s.lastRefillMs, now);
    var all := Forward(times + [now]);
    DeniedBucketsAccrue(c, s, probes);
    ForwardSnoc(times, now);
    ForwardIsTheSpan(times + [now]);
    RefillAdds(c, Forward(times), Elapsed(times[|times| - 1], now));
    RefillAdds(c, alone, all - alone);
    RefillIsZeroIff(c, all - alone);
    assert Refilled(c, After(c, Some(s), probes), now) == Min(c.burst, s.tokens + Refill(c, all));
  }

  lemma RefillIsZeroIff(c: Config, ms: nat)
    requires c.refillPerMs > 0.0
    ensures Refill(c, ms) == 0.0 <==> ms == 0
  {
    OrderIsKept(0.0, ms as real, c.refillPerMs);
  }

  /** A bucket that cannot hold one whole token, which the constructor accepts, breaks the promise for good. */
  lemma {:induction false} SmallBurstNeverAdmits(c: Config, prev: Option<BucketState>, times: seq<int>)
    requires ValidConfig(c) && c.burst < 1.0
    ensures forall d :: d in Decisions(c, prev, times) ==> !d.allowed
    decreases |times|
  {
    if times != [] {
      SmallBurstNeverAdmits(c, Some(Compute(c, prev, times[0]).next), times[1..]);
    }
  }

  /** A fresh bucket ever admits anything exactly when it can hold one whole token. */
  lemma AdmitsIffATokenFits(c: Config)
    requires ValidConfig(c)
    ensures (exists times: seq<int> :: !AllDenied(Decisions(c, None, times))) <==> c.burst >= 1.0
  {
    if c.burst >= 1.0 {
      assert Decisions(c, None, [0])[0] == Compute(c, None, 0).decision;
      assert !AllDenied(Decisions(c, None, [0]));
    } else {
      forall times: seq<int>
        ensures AllDenied(Decisions(c, None, times))
      {
        SmallBurstNeverAdmits(c, None, times);
      }
    }
  }

  /** So a clock that steps back breaks the wall-clock promise: one early probe at an older reading is enough to
      earn the same time twice. */
  lemma SteppingBackEarnsTimeTwice()
    ensures var c := Config(1.0, 0.001);
            var spent := Some(BucketState(0.0, 1000));
            && Compute(c, spent, 1500).decision == Decision(false, Millis(500))
            && !Compute(c, spent, 1900).decision.allowed
            && Compute(c, After(c, spent, [1500, 1000]), 1900).decision.allowed
  {
    var c := Config(1.0, 0.001);
    var spent := Some(BucketState(0.0, 1000));
    assert Refilled(c, spent, 1500) == 0.5;
    assert 0.5 / 0.001 == 500.0;
    var s := Compute(c, spent, 1500).next;
    assert s == BucketState(0.5, 1500);
    assert Compute(c, Some(s), 1000).next == BucketState(0.5, 1000);
    assert After(c, spent, [1500, 1000]) == After(c, Some(s), [1000]) == Some(BucketState(0.5, 1000));
  }

  // ---------- forgetting a bucket ----------

  /** Losing a key's state goes unnoticed at `now` exactly when the bucket would be full by then. */
  lemma ForgettingIsInvisibleIffFull(c: Config, s: BucketState, now: int)
    requires ValidConfig(c)
    ensures Compute(c, Some(s), now) == Compute(c, None, now)
       <==> s.tokens + Refill(c, Elapsed(s.lastRefillMs, now)) >= c.burst
  {}

  /** An idle time after which every bucket may be dropped, whatever it held. */
  lemma IdleBoundIsExact(c: Config, idleMs: nat)
    requires ValidConfig(c)
    ensures (forall s: BucketState, now ::
              0.0 <= s.tokens && now >= s.lastRefillMs + idleMs ==> Compute(c, Some(s), now) == Compute(c, None, now))
       <==> c.burst <= Refill(c, idleMs)
  {
    if c.burst <= Refill(c, idleMs) {
      forall s: BucketState, now | 0.0 <= s.tokens && now >= s.lastRefillMs + idleMs
        ensures Compute(c, Some(s), now) == Compute(c, None, now)
      {
        RefillAdds(c, idleMs, Elapsed(s.lastRefillMs, now) - idleMs);
        ForgettingIsInvisibleIffFull(c, s, now);
      }
    } else {
      ForgettingIsInvisibleIffFull(c, BucketState(0.0, 0), idleMs);
      assert Elapsed(0, idleMs) == idleMs;
    }
  }

  /** Takes at `times`, where the state is lost just before the k-th take if `lost[k]`. */
  function LossyDecisions(c: Config, prev: Option<BucketState>, times: seq<int>, lost: seq<bool>): (ds: seq<Decision>)
    requires |lost| == |times|
    ensures |ds| == |times|
    decreases |times|
  {
    if times == [] then []
    else
      var o := Compute(c, if lost[0] then None else prev, times[0]);
      [o.decision] + LossyDecisions(c, Some(o.next), times[1..], lost[1..])
  }

  /** The state of the key after those takes. */
  function LossyAfter(c: Config, prev: Option<BucketState>, times: seq<int>, lost: seq<bool>): Option<BucketState>
    requires |lost| == |times|
    decreases |times|
  {
    if times == [] then prev
    else LossyAfter(c, Some(Compute(c, if lost[0] then None else prev, times[0]).next), times[1..], lost[1..])
  }

  lemma {:induction false} LossySnoc(c: Config, prev: Option<BucketState>, times: seq<int>, lost: seq<bool>, now: int, gone: bool)
    requires |lost| == |times|
    ensures var o := Compute(c, if gone then None else LossyAfter(c, prev, times, lost), now);
            && LossyDecisions(c, prev, times + [now], lost + [gone]) == LossyDecisions(c, prev, times, lost) + [o.decision]
            && LossyAfter(c, prev, times + [now], lost + [gone]) == Some(o.next)
    decreases |times|
  {
    if times != [] {
      assert (times + [now])[1..] == times[1..] + [now] && (lost + [gone])[1..] == lost[1..] + [gone];
      LossySnoc(c, Some(Compute(c, if lost[0] then None else prev, times[0]).next), times[1..], lost[1..], now, gone);
    }
  }

  function Losses(lost: seq<bool>): nat {
    if lost == [] then 0 else (if lost[0] then 1 else 0) + Losses(lost[1..])
  }

  /** Up to `n` full buckets. */
  function Bursts(c: Config, n: nat): real {
    n as real * c.burst
  }

  lemma {:induction false} LossyStaysWithin(c: Config, prev: Option<BucketState>, times: seq<int>, lost: seq<bool>)
    requires ValidConfig(c) && Within(c, prev) && |lost| == |times|
    ensures Within(c, LossyAfter(c, prev, times, lost))
    decreases |times|
  {
    if times != [] {
      var start := if lost[0] then None else prev;
      ComputeStaysWithin(c, start, times[0]);
      LossyStaysWithin(c, Some(Compute(c, start, times[0]).next), times[1..], lost[1..]);
    }
  }

  lemma TakeSpendsWhatIsThere(c: Config, start: Option<BucketState>, now: int)
    requires ValidConfig(c) && Within(c, start)
    ensures var o := Compute(c, start, now);
            o.next.tokens >= 0.0 && (if o.decision.allowed then 1.0 else 0.0) + o.next.tokens == Refilled(c, start, now)
  {
    ComputeStaysWithin(c, start, now);
  }

  /** What a bucket can gain after the first take: the refill between takes, and a full bucket at each loss. */
  function Earned(c: Config, times: seq<int>, lost: seq<bool>): real
    requires |lost| == |times|
  {
    if |times| <= 1 then 0.0
    else Refill(c, Elapsed(times[0], times[1])) + (if lost[1] then c.burst else 0.0) + Earned(c, times[1..], lost[1..])
  }

  lemma NextRefill(c: Config, s: BucketState, gone: bool, now: int)
    requires ValidConfig(c) && s.tokens >= 0.0
    ensures Refilled(c, if gone then None else Some(s), now)
         <= s.tokens + (if gone then c.burst else 0.0) + Refill(c, Elapsed(s.lastRefillMs, now))
  {
    RefillAdds(c, Elapsed(s.lastRefillMs, now), 0);
  }

  lemma {:induction false} LossyTokensAreBounded(c: Config, prev: Option<BucketState>, times: seq<int>, lost: seq<bool>)
    requires ValidConfig(c) && Within(c, prev) && |lost| == |times| && times != []
    ensures Admissions(LossyDecisions(c, prev, times, lost)) as real
         <= Refilled(c, if lost[0] then None else prev, times[0]) + Earned(c, times, lost)
    decreases |times|
  {
    var start := if lost[0] then None else prev;
    var o, rest, later := Compute(c, start, times[0]), times[1..], lost[1..];
    var ds := LossyDecisions(c, Some(o.next), rest, later);
    assert LossyDecisions(c, prev, times, lost) == [o.decision] + ds && ([o.decision] + ds)[1..] == ds;
    TakeSpendsWhatIsThere(c, start, times[0]);
    if rest == [] {
      assert ds == [];
    } else {
      ComputeStaysWithin(c, start, times[0]);
      LossyTokensAreBounded(c, Some(o.next), rest, later);
      NextRefill(c, o.next, later[0], rest[0]);
    }
  }

  lemma BurstsAdd(c: Config, m: nat, n: nat)
    ensures Bursts(c, m + n) == Bursts(c, m) + Bursts(c, n)
  {
    assert (m + n) as real == m as real + n as real;
  }

  lemma {:induction false} EarnedIs(c: Config, times: seq<int>, lost: seq<bool>)
    requires c.refillPerMs >= 0.0 && |lost| == |times| && times != []
    ensures Earned(c, times, lost) == Bursts(c, Losses(lost[1..])) + Refill(c, Forward(times))
  {
    if |times| > 1 {
      var rest, later := times[1..], lost[1..];
      EarnedIs(c, rest, later);
      BurstsAdd(c, if later[0] then 1 else 0, Losses(later[1..]));
      RefillAdds(c, Elapsed(times[0], rest[0]), Forward(rest));
    }
  }

  lemma LossyTraceBound(c: Config, prev: Option<BucketState>, times: seq<int>, lost: seq<bool>)
    requires ValidConfig(c) && Within(c, prev) && |lost| == |times| && times != []
    ensures Admissions(LossyDecisions(c, prev, times, lost)) as real
         <= Bursts(c, 1 + Losses(lost[1..])) + Refill(c, Forward(times))
  {
    var start := if lost[0] then None else prev;
    LossyTokensAreBounded(c, prev, times, lost);
    RefilledAtMostABurst(c, start, times[0]);
    EarnedIs(c, times, lost);
    var n := Losses(lost[1..]);
    BurstsAdd(c, 1, n);
    SumUp(Admissions(LossyDecisions(c, prev, times, lost)) as real, Refilled(c, start, times[0]), Earned(c, times, lost),
          Bursts(c, 1), Bursts(c, n), Refill(c, Forward(times)));
  }

  lemma SumUp(admitted: real, first: real, earned: real, burst: real, bursts: real, refill: real)
    requires admitted <= first + earned && first <= burst && earned == bursts + refill
    ensures admitted <= burst + bursts + refill
  {}

  lemma RefilledAtMostABurst(c: Config, start: Option<BucketState>, now: int)
    requires ValidConfig(c) && Within(c, start)
    ensures Refilled(c, start, now) <= c.burst == Bursts(c, 1)
  {
    ComputeStaysWithin(c, start, now);
  }

  lemma {:induction false} LossyPrefix(c: Config, prev: Option<BucketState>, times: seq<int>, lost: seq<bool>, j: nat)
    requires |lost| == |times| && j <= |times|
    ensures LossyDecisions(c, prev, times, lost)[..j] == LossyDecisions(c, prev, times[..j], lost[..j])
    decreases j
  {
    if j > 0 {
      var o := Compute(c, if lost[0] then None else prev, times[0]);
      LossyPrefix(c, Some(o.next), times[1..], lost[1..], j - 1);
      assert times[..j][1..] == times[1..][..j - 1] && lost[..j][1..] == lost[1..][..j - 1];
    }
  }

  lemma {:induction false} LossySuffix(c: Config, prev: Option<BucketState>, times: seq<int>, lost: seq<bool>, i: nat)
    requires |lost| == |times| && i <= |times|
    ensures LossyDecisions(c, prev, times, lost)[i..] ==
            LossyDecisions(c, LossyAfter(c, prev, times[..i], lost[..i]), times[i..], lost[i..])
    decreases i
  {
    if i == 0 {
      assert times[0..] == times && lost[0..] == lost;
    } else {
      var o := Compute(c, if lost[0] then None else prev, times[0]);
      var later := LossyDecisions(c, Some(o.next), times[1..], lost[1..]);
      LossySuffix(c, Some(o.next), times[1..], lost[1..], i - 1);
      assert ([o.decision] + later)[i..] == later[i - 1..];
      assert times[1..][i - 1..] == times[i..] && lost[1..][i - 1..] == lost[i..];
      assert times[..i][1..] == times[1..][..i - 1] && lost[..i][1..] == lost[1..][..i - 1];
    }
  }

  lemma LossyStretch(c: Config, prev: Option<BucketState>, times: seq<int>, lost: seq<bool>, i: nat, j: nat)
    requires |lost| == |times| && i <= j <= |times|
    ensures LossyDecisions(c, prev, times, lost)[i..j] ==
            LossyDecisions(c, LossyAfter(c, prev, times[..i], lost[..i]), times[i..j], lost[i..j])
  {
    LossySuffix(c, prev, times, lost, i);
    LossyPrefix(c, LossyAfter(c, prev, times[..i], lost[..i]), times[i..], lost[i..], j - i);
    assert times[i..][..j - i] == times[i..j] && lost[i..][..j - i] == lost[i..j];
    var ds := LossyDecisions(c, prev, times, lost);
    assert ds[i..][..j - i] == ds[i..j];
  }

  /** The bound on one stretch, of which `ds`, `ts` and `ls` are the decisions, the times and the losses. */
  ghost predicate WithinLossyRate(c: Config, ds: seq<Decision>, ts: seq<int>, ls: seq<bool>)
    requires ls != []
  {
    Admissions(ds) as real <= Bursts(c, 1 + Losses(ls[1..])) + Refill(c, Forward(ts))
  }

  lemma LossyRate(c: Config, start: Option<BucketState>, ts: seq<int>, ls: seq<bool>, ds: seq<Decision>)
    requires ValidConfig(c) && Within(c, start) && |ls| == |ts| && ts != [] && ds == LossyDecisions(c, start, ts, ls)
    ensures WithinLossyRate(c, ds, ts, ls)
  {
    LossyTraceBound(c, start, ts, ls);
  }

  /** Over any stretch of any trace, a bucket whose state is lost now and then admits at most one burst, one more
      for each loss within the stretch, and the refill of the time that passed forwards. */
  lemma LossyRateBound(c: Config, prev: Option<BucketState>, times: seq<int>, lost: seq<bool>, i: nat, j: nat)
    requires ValidConfig(c) && Within(c, prev) && |lost| == |times| && i < j <= |times|
    ensures WithinLossyRate(c, LossyDecisions(c, prev, times, lost)[i..j], times[i..j], lost[i..j])
  {
    var start := LossyAfter(c, prev, times[..i], lost[..i]);
    LossyStaysWithin(c, prev, times[..i], lost[..i]);
    LossyStretch(c, prev, times, lost, i, j);
    LossyRate(c, start, times[i..j], lost[i..j], LossyDecisions(c, prev, times, lost)[i..j]);
  }

  /** When the idle bound covers a whole burst, losing state only after that much idle time never
      changes a decision: neither an expiring key nor an evicted one is observable. */
  lemma {:induction false} IdleLossIsInvisible(c: Config, prev: Option<BucketState>, times: seq<int>, lost: seq<bool>, idleMs: nat)
    requires ValidConfig(c) && Within(c, prev) && c.burst <= Refill(c, idleMs)
    requires |lost| == |times|
    requires times != [] && lost[0] && prev.Some? ==> times[0] >= prev.value.lastRefillMs + idleMs
    requires forall k :: 1 <= k < |times| && lost[k] ==> times[k] >= times[k - 1] + idleMs
    ensures LossyDecisions(c, prev, times, lost) == Decisions(c, prev, times)
    decreases |times|
  {
    if times != [] {
      if lost[0] && prev.Some? {
        RefillAdds(c, idleMs, Elapsed(prev.value.lastRefillMs, times[0]) - idleMs);
        ForgettingIsInvisibleIffFull(c, prev.value, times[0]);
      }
      ComputeStaysWithin(c, prev, times[0]);
      IdleLossIsInvisible(c, Some(Compute(c, prev, times[0]).next), times[1..], lost[1..], idleMs);
    }
  }
}
