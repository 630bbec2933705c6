/**
 The Redis store: one atomic Lua script per take, one hash per key, and a one-day expiry that every
 take renews.
 */
module RedisBucket {
  import opened Options
  import opened TokenBucket

  const TTL_MS: nat := 86400000

  /** A hash with its two fields, and the server time at which it expires. */
  datatype Entry = Entry(tokens: real, lastRefillMs: int, expiresAt: int)

  /** What the script reads: nothing once the key has expired. */
  function LiveOf(e: Option<Entry>, serverMs: int): Option<BucketState> {
    if e.Some? && serverMs < e.value.expiresAt then Some(BucketState(e.value.tokens, e.value.lastRefillMs)) else None
  }

  datatype Result = Result(allowed: bool, retryAfter: Wait, tokens: real)

  class RedisTokenBucketStore {
    const burst: real
    const refillPerMs: real
    const keyPrefix: string
    var data: map<string, Entry>

    constructor (burst: real, refillPerMs: real, keyPrefix: string)
      ensures this.burst == burst && this.refillPerMs == refillPerMs && this.keyPrefix == keyPrefix
      ensures data == map[]
    {
      this.burst := burst;
      this.refillPerMs := refillPerMs;
      this.keyPrefix := keyPrefix;
      data := map[];
    }

    ghost function Conf(): Config {
      Config(burst, refillPerMs)
    }

    ghost function Live(fullKey: string, serverMs: int): Option<BucketState>
      reads this
    {
      LiveOf(if fullKey in data then Some(data[fullKey]) else None, serverMs)
    }

    /** The Lua script; `serverMs` is the server's clock, which only the expiry uses. */
    method Script(key: string, nowMs: int, cost: real, serverMs: int)
      returns (allowed: int, retryAfter: int, left: real)
      modifies this`data
      ensures cost == 1.0 ==>
                var o := Compute(Conf(), old(Live(key, serverMs)), nowMs);
                && (allowed == 1 <==> o.decision.allowed)
                && retryAfter == (match o.decision.retryAfter case Millis(ms) => ms case Forever => -1)
                && left == o.next.tokens
                && data == old(data)[key := Entry(o.next.tokens, o.next.lastRefillMs, serverMs + 86400000)]
    {
      var tokens := burst;
      var lastMs := nowMs;
      if key in data && serverMs < data[key].expiresAt {
        tokens := data[key].tokens;
        lastMs := data[key].lastRefillMs;
      }

      var elapsed := if nowMs - lastMs > 0 then nowMs - lastMs else 0;
      var filled := tokens + elapsed as real * refillPerMs;
      left := if filled < burst then filled else burst;
      assert left == Refilled(Conf(), Live(key, serverMs), nowMs);

      allowed := 0;
      retryAfter := 0;
      if left >= cost {
        left := left - cost;
        allowed := 1;
      } else {
        var deficit := cost - left;
        if refillPerMs > 0.0 {
          retryAfter := Ceil(deficit / refillPerMs);
        } else {
          retryAfter := -1;
        }
      }

      data := data[key := Entry(left, nowMs, serverMs + TTL_MS)];
    }

    /** One take: same decision, same tokens and same next state as `Compute`, for this key only. */
    method GetAndUpdate(key: string, nowMs: int, serverMs: int) returns (r: Result)
      modifies this`data
      ensures var o := Compute(Conf(), old(Live(keyPrefix + ":" + key, serverMs)), nowMs);
              && r == Result(o.decision.allowed, o.decision.retryAfter, o.next.tokens)
              && Live(keyPrefix + ":" + key, serverMs) == Some(o.next)
      ensures forall k :: k != keyPrefix + ":" + key ==> Live(k, serverMs) == old(Live(k, serverMs))
    {
      var fullKey := keyPrefix + ":" + key;
      WaitsAreNeverNegative(Conf(), Live(fullKey, serverMs), nowMs);
      var allowed, retryAfter, left := Script(fullKey, nowMs, 1.0, serverMs);
      r := Result(allowed == 1, if retryAfter < 0 then Forever else Millis(retryAfter), left);
    }
  }

  /** So a negative wait can only be the script's way of saying "forever". */
  lemma WaitsAreNeverNegative(c: Config, prev: Option<BucketState>, now: int)
    ensures var w := Compute(c, prev, now).decision.retryAfter;
            w.Millis? ==> w.ms >= 0 && (w.ms == 0 <==> Compute(c, prev, now).decision.allowed)
  {
    var refilled := Refilled(c, prev, now);
    if refilled < 1.0 && c.refillPerMs > 0.0 {
      CeilIsExact(1.0 - refilled, c.refillPerMs, 0);
    }
  }

  // ---------- whole traces against the expiring store ----------

  /** One take: the caller's clock, which the bucket uses, and the server's, which only the expiry uses. */
  datatype Take = Take(nowMs: int, serverMs: int)

  function TimesOf(takes: seq<Take>): (times: seq<int>)
    ensures |times| == |takes|
  {
    if takes == [] then [] else [takes[0].nowMs] + TimesOf(takes[1..])
  }

  function StateOf(e: Option<Entry>): Option<BucketState> {
    if e.Some? then Some(BucketState(e.value.tokens, e.value.lastRefillMs)) else None
  }

  function Stored(o: Outcome, serverMs: int): Option<Entry> {
    Some(Entry(o.next.tokens, o.next.lastRefillMs, serverMs + TTL_MS))
  }

  /** The decisions the script takes for one key. */
  ghost function ServerDecisions(c: Config, e: Option<Entry>, takes: seq<Take>): seq<Decision>
    decreases |takes|
  {
    if takes == [] then []
    else
      var o := Compute(c, LiveOf(e, takes[0].serverMs), takes[0].nowMs);
      [o.decision] + ServerDecisions(c, Stored(o, takes[0].serverMs), takes[1..])
  }

  /** Whether the k-th take finds the hash expired. */
  function Expired(e: Option<Entry>, takes: seq<Take>): (lost: seq<bool>)
    ensures |lost| == |takes|
  {
    seq(|takes|, k requires 0 <= k < |takes| =>
      if k == 0 then e.Some? && takes[0].serverMs >= e.value.expiresAt
      else takes[k].serverMs >= takes[k - 1].serverMs + 86400000)
  }

  lemma {:induction false} ExpiryIsLoss(c: Config, e: Option<Entry>, takes: seq<Take>)
    ensures ServerDecisions(c, e, takes) == LossyDecisions(c, StateOf(e), TimesOf(takes), Expired(e, takes))
    decreases |takes|
  {
    if takes != [] {
      var o := Compute(c, LiveOf(e, takes[0].serverMs), takes[0].nowMs);
      var next := Stored(o, takes[0].serverMs);
      ExpiryIsLoss(c, next, takes[1..]);
      assert Expired(e, takes)[1..] == Expired(next, takes[1..]);
    }
  }

  lemma {:induction false} TimesAt(takes: seq<Take>, k: nat)
    requires k < |takes|
    ensures TimesOf(takes)[k] == takes[k].nowMs
  {
    if k > 0 {
      TimesAt(takes[1..], k - 1);
    }
  }

  /** Between takes the server's clock gains at most `skew` on the callers'. */
  ghost predicate GainsAtMost(e: Option<Entry>, takes: seq<Take>, skew: nat) {
    && (takes != [] && e.Some? ==>
          takes[0].serverMs - (e.value.expiresAt - 86400000) <= takes[0].nowMs - e.value.lastRefillMs + skew)
    && forall k :: 1 <= k < |takes| ==>
         takes[k].serverMs - takes[k - 1].serverMs <= takes[k].nowMs - takes[k - 1].nowMs + skew
  }

  lemma ExpiredMeansIdle(e: Option<Entry>, takes: seq<Take>, skew: nat)
    requires GainsAtMost(e, takes, skew)
    ensures var times, lost := TimesOf(takes), Expired(e, takes);
            && (times != [] && lost[0] ==> e.Some? && times[0] >= e.value.lastRefillMs + TTL_MS - skew)
            && forall k :: 1 <= k < |times| && lost[k] ==> times[k] >= times[k - 1] + (TTL_MS - skew)
  {
    var times, lost := TimesOf(takes), Expired(e, takes);
    if takes != [] {
      TimesAt(takes, 0);
    }
    forall k | 1 <= k < |times| && lost[k]
      ensures times[k] >= times[k - 1] + (TTL_MS - skew)
    {
      TimesAt(takes, k);
      TimesAt(takes, k - 1);
    }
  }

  /** The expiring store decides every trace like a store that never forgets, if a day, less what the server's
      clock may gain on the callers', refills a burst. */
  lemma ExpiryIsInvisible(c: Config, e: Option<Entry>, takes: seq<Take>, skew: nat)
    requires ValidConfig(c) && skew <= 86400000 && c.burst <= Refill(c, 86400000 - skew)
    requires Within(c, StateOf(e)) && GainsAtMost(e, takes, skew)
    ensures ServerDecisions(c, e, takes) == Decisions(c, StateOf(e), TimesOf(takes))
  {
    ExpiryIsLoss(c, e, takes);
    ExpiredMeansIdle(e, takes, skew);
    IdleLossIsInvisible(c, StateOf(e), TimesOf(takes), Expired(e, takes), TTL_MS - skew);
  }
}
