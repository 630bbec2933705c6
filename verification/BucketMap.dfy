/**
 The in-memory store's `Map`: entries in insertion order, unique keys, and at most one eviction per
 update, of the first entry with the oldest refill.
 */
module BucketMap {
  import opened Options
  import opened Sets
  import opened TokenBucket

  datatype Entry = Entry(key: string, state: BucketState)

  function KeysOf(es: seq<Entry>): set<string> {
    if es == [] then {} else {es[0].key} + KeysOf(es[1..])
  }

  ghost predicate UniqueKeys(es: seq<Entry>) {
    es != [] ==> es[0].key !in KeysOf(es[1..]) && UniqueKeys(es[1..])
  }

  lemma {:induction false} KeysAreThoseOfEntries(es: seq<Entry>, i: nat)
    requires i < |es|
    ensures es[i].key in KeysOf(es)
  {
    if i > 0 {
      KeysAreThoseOfEntries(es[1..], i - 1);
    }
  }

  function Get(es: seq<Entry>, key: string): Option<BucketState> {
    if es == [] then None else if es[0].key == key then Some(es[0].state) else Get(es[1..], key)
  }

  /** `Map.set`: in place for a known key, at the end for a new one. */
  function Put(es: seq<Entry>, key: string, s: BucketState): seq<Entry> {
    if es == [] then [Entry(key, s)]
    else if es[0].key == key then [Entry(key, s)] + es[1..]
    else [es[0]] + Put(es[1..], key, s)
  }

  lemma {:induction false} PutLooksUp(es: seq<Entry>, key: string, s: BucketState, k: string)
    ensures Get(Put(es, key, s), k) == if k == key then Some(s) else Get(es, k)
  {
    if es != [] && es[0].key != key {
      PutLooksUp(es[1..], key, s, k);
    }
  }

  lemma {:induction false} PutKeepsKeys(es: seq<Entry>, key: string, s: BucketState)
    requires UniqueKeys(es)
    ensures UniqueKeys(Put(es, key, s))
    ensures KeysOf(Put(es, key, s)) == KeysOf(es) + {key}
    ensures |Put(es, key, s)| == |es| + if key in KeysOf(es) then 0 else 1
  {
    if es != [] && es[0].key != key {
      PutKeepsKeys(es[1..], key, s);
    }
  }

  /** A new key goes to the end. */
  lemma {:induction false} PutAppendsNewKeys(es: seq<Entry>, key: string, s: BucketState)
    requires key !in KeysOf(es)
    ensures Put(es, key, s) == es + [Entry(key, s)]
  {
    if es != [] {
      PutAppendsNewKeys(es[1..], key, s);
    }
  }

  // ---------- eviction ----------

  /** The first entry whose refill is the oldest. */
  ghost predicate IsOldest(es: seq<Entry>, i: nat) {
    && i < |es|
    && (forall j :: 0 <= j < |es| ==> es[i].state.lastRefillMs <= es[j].state.lastRefillMs)
    && (forall j :: 0 <= j < i ==> es[i].state.lastRefillMs < es[j].state.lastRefillMs)
  }

  function Oldest(es: seq<Entry>): (i: nat)
    requires es != []
    ensures IsOldest(es, i)
  {
    if |es| == 1 then 0
    else
      var i := Oldest(es[1..]);
      assert forall j :: 1 <= j < |es| ==> es[j] == es[1..][j - 1];
      if es[0].state.lastRefillMs <= es[1..][i].state.lastRefillMs then 0 else i + 1
  }

  function RemoveAt(es: seq<Entry>, i: nat): seq<Entry>
    requires i < |es|
  {
    if i == 0 then es[1..] else [es[0]] + RemoveAt(es[1..], i - 1)
  }

  lemma {:induction false} RemoveAtIsSplice(es: seq<Entry>, i: nat)
    requires i < |es|
    ensures RemoveAt(es, i) == es[..i] + es[i + 1..]
  {
    if i > 0 {
      RemoveAtIsSplice(es[1..], i - 1);
    }
  }

  function Evict(es: seq<Entry>, maxKeys: nat): seq<Entry> {
    if |es| <= maxKeys then es else RemoveAt(es, Oldest(es))
  }

  lemma {:induction false} RemoveAtKeepsRest(es: seq<Entry>, i: nat)
    requires UniqueKeys(es) && i < |es|
    ensures UniqueKeys(RemoveAt(es, i)) && KeysOf(RemoveAt(es, i)) == KeysOf(es) - {es[i].key}
    ensures |RemoveAt(es, i)| == |es| - 1
  {
    if i > 0 {
      RemoveAtKeepsRest(es[1..], i - 1);
      KeysAreThoseOfEntries(es[1..], i - 1);
    }
  }

  // ---------- one update ----------

  datatype Updated = Updated(entries: seq<Entry>, outcome: Outcome)

  /** The body that runs when a call's turn comes: read, compute, write back, evict. */
  function Update(c: Config, maxKeys: nat, es: seq<Entry>, key: string, now: int): Updated {
    var o := Compute(c, Get(es, key), now);
    Updated(Evict(Put(es, key, o.next), maxKeys), o)
  }

  lemma UpdateNeverExceedsMaxKeys(c: Config, maxKeys: nat, es: seq<Entry>, key: string, now: int)
    requires UniqueKeys(es) && |es| <= maxKeys
    ensures var r := Update(c, maxKeys, es, key, now).entries;
            UniqueKeys(r) && |r| <= maxKeys && KeysOf(r) <= KeysOf(es) + {key}
  {
    var put := Put(es, key, Compute(c, Get(es, key), now).next);
    PutKeepsKeys(es, key, Compute(c, Get(es, key), now).next);
    if |put| > maxKeys {
      RemoveAtKeepsRest(put, Oldest(put));
    }
  }

  /** The key just updated is evicted exactly when it is new, the map was full, and every other entry
      was refilled strictly later. */
  lemma JustUpdatedSurvives(c: Config, maxKeys: nat, es: seq<Entry>, key: string, now: int)
    requires UniqueKeys(es) && |es| <= maxKeys
    ensures key in KeysOf(Update(c, maxKeys, es, key, now).entries)
       <==> key in KeysOf(es) || |es| < maxKeys || exists e :: e in es && e.state.lastRefillMs <= now
  {
    var s := Compute(c, Get(es, key), now).next;
    var put := Put(es, key, s);
    PutKeepsKeys(es, key, s);
    if |put| > maxKeys {
      PutAppendsNewKeys(es, key, s);
      RemoveAtKeepsRest(put, Oldest(put));
      OldestIsLastIff(es, put[|es|]);
      if Oldest(put) < |es| {
        KeysAreThoseOfEntries(es, Oldest(put));
      }
    }
  }

  lemma OldestIsLastIff(es: seq<Entry>, e: Entry)
    ensures Oldest(es + [e]) == |es| <==> forall x :: x in es ==> x.state.lastRefillMs > e.state.lastRefillMs
  {
    var put := es + [e];
    var i := Oldest(put);
    assert put[|es|] == e;
    if i == |es| {
      assert forall j :: 0 <= j < |es| ==> put[j] == es[j];
    } else {
      assert put[i] == es[i] && es[i] in es;
    }
  }

  // ---------- updates in a row ----------

  /** One take: which key, and the time the caller read. */
  datatype Take = Take(key: string, nowMs: int)

  function Fold(c: Config, maxKeys: nat, takes: seq<Take>): seq<Entry> {
    if takes == [] then []
    else
      var t := takes[|takes| - 1];
      Update(c, maxKeys, Fold(c, maxKeys, takes[..|takes| - 1]), t.key, t.nowMs).entries
  }

  function KeysTaken(takes: seq<Take>): set<string> {
    if takes == [] then {} else KeysTaken(takes[..|takes| - 1]) + {takes[|takes| - 1].key}
  }

  /** The times of the takes on one key. */
  function TimesOf(takes: seq<Take>, key: string): seq<int> {
    if takes == [] then []
    else
      var t := takes[|takes| - 1];
      TimesOf(takes[..|takes| - 1], key) + if t.key == key then [t.nowMs] else []
  }

  lemma {:induction false} FoldStaysBounded(c: Config, maxKeys: nat, takes: seq<Take>)
    ensures var es := Fold(c, maxKeys, takes); UniqueKeys(es) && |es| <= maxKeys && KeysOf(es) <= KeysTaken(takes)
  {
    if takes != [] {
      var rest, t := takes[..|takes| - 1], takes[|takes| - 1];
      FoldStaysBounded(c, maxKeys, rest);
      UpdateNeverExceedsMaxKeys(c, maxKeys, Fold(c, maxKeys, rest), t.key, t.nowMs);
    }
  }

  /** The times never step back. */
  ghost predicate InTimeOrder(takes: seq<Take>) {
    forall i, j :: 0 <= i < j < |takes| ==> takes[i].nowMs <= takes[j].nowMs
  }

  lemma {:induction false} PutHasNoNewerEntries(es: seq<Entry>, key: string, s: BucketState)
    requires forall i :: 0 <= i < |es| ==> es[i].state.lastRefillMs <= s.lastRefillMs
    ensures forall i :: 0 <= i < |Put(es, key, s)| ==> Put(es, key, s)[i].state.lastRefillMs <= s.lastRefillMs
  {
    if es != [] && es[0].key != key {
      PutHasNoNewerEntries(es[1..], key, s);
    }
  }

  lemma {:induction false} RemoveAtIsPart(es: seq<Entry>, i: nat, now: int)
    requires i < |es| && forall j :: 0 <= j < |es| ==> es[j].state.lastRefillMs <= now
    ensures forall j :: 0 <= j < |RemoveAt(es, i)| ==> RemoveAt(es, i)[j].state.lastRefillMs <= now
  {
    RemoveAtIsSplice(es, i);
  }

  lemma {:induction false} NoEntryIsNewer(c: Config, maxKeys: nat, takes: seq<Take>, now: int)
    requires InTimeOrder(takes) && (takes != [] ==> takes[|takes| - 1].nowMs <= now)
    ensures forall i :: 0 <= i < |Fold(c, maxKeys, takes)| ==> Fold(c, maxKeys, takes)[i].state.lastRefillMs <= now
  {
    if takes != [] {
      var rest, t := takes[..|takes| - 1], takes[|takes| - 1];
      var es := Fold(c, maxKeys, rest);
      var s := Compute(c, Get(es, t.key), t.nowMs).next;
      NoEntryIsNewer(c, maxKeys, rest, t.nowMs);
      PutHasNoNewerEntries(es, t.key, s);
      if |Put(es, t.key, s)| > maxKeys {
        RemoveAtIsPart(Put(es, t.key, s), Oldest(Put(es, t.key, s)), now);
      }
    }
  }

  /** Applied in time order, an update never evicts the key it has just updated. */
  lemma InOrderUpdatesSurvive(c: Config, maxKeys: nat, takes: seq<Take>)
    requires maxKeys >= 1 && takes != [] && InTimeOrder(takes)
    ensures takes[|takes| - 1].key in KeysOf(Fold(c, maxKeys, takes))
  {
    var rest, t := takes[..|takes| - 1], takes[|takes| - 1];
    var es := Fold(c, maxKeys, rest);
    FoldStaysBounded(c, maxKeys, rest);
    NoEntryIsNewer(c, maxKeys, rest, t.nowMs);
    JustUpdatedSurvives(c, maxKeys, es, t.key, t.nowMs);
    if |es| >= maxKeys {
      assert es[0] in es;
    }
  }

  lemma {:induction false} UniqueKeysCount(es: seq<Entry>)
    requires UniqueKeys(es)
    ensures |es| == |KeysOf(es)|
  {
    if es != [] {
      UniqueKeysCount(es[1..]);
    }
  }

  /** While no more keys were ever seen than fit, nothing is evicted and each key has its own bucket. */
  lemma {:induction false} EachKeyHasItsOwnBucket(c: Config, maxKeys: nat, takes: seq<Take>, key: string)
    requires |KeysTaken(takes)| <= maxKeys
    ensures Get(Fold(c, maxKeys, takes), key) == After(c, None, TimesOf(takes, key))
  {
    if takes != [] {
      var rest, t := takes[..|takes| - 1], takes[|takes| - 1];
      var es := Fold(c, maxKeys, rest);
      var s := Compute(c, Get(es, t.key), t.nowMs).next;
      SubsetIsNoLarger(KeysTaken(rest), KeysTaken(takes));
      EachKeyHasItsOwnBucket(c, maxKeys, rest, key);
      FoldStaysBounded(c, maxKeys, rest);
      PutKeepsKeys(es, t.key, s);
      UniqueKeysCount(Put(es, t.key, s));
      SubsetIsNoLarger(KeysOf(Put(es, t.key, s)), KeysTaken(takes));
      PutLooksUp(es, t.key, s, key);
      if key == t.key {
        AfterSnoc(c, None, TimesOf(rest, key), t.nowMs);
      } else {
        assert TimesOf(takes, key) == TimesOf(rest, key);
      }
    }
  }

  lemma {:induction false} AfterSnoc(c: Config, prev: Option<BucketState>, times: seq<int>, now: int)
    ensures After(c, prev, times + [now]) == Some(Compute(c, After(c, prev, times), now).next)
    decreases |times|
  {
    if times != [] {
      assert (times + [now])[1..] == times[1..] + [now];
      AfterSnoc(c, Some(Compute(c, prev, times[0]).next), times[1..], now);
    }
  }

  // ---------- eviction of idle keys ----------

  /** Whenever a take finds its key evicted, the key had been idle for at least `idleMs`. */
  ghost predicate EvictedOnlyWhenIdle(c: Config, maxKeys: nat, takes: seq<Take>, key: string, idleMs: nat) {
    takes != [] ==>
      var rest, t := takes[..|takes| - 1], takes[|takes| - 1];
      var times := TimesOf(rest, key);
      && EvictedOnlyWhenIdle(c, maxKeys, rest, key, idleMs)
      && (t.key == key && times != [] && Get(Fold(c, maxKeys, rest), key).None? ==>
            t.nowMs >= times[|times| - 1] + idleMs)
  }

  lemma {:induction false} RemoveAtLooksUp(es: seq<Entry>, i: nat, k: string)
    requires UniqueKeys(es) && i < |es|
    ensures Get(RemoveAt(es, i), k) == if k == es[i].key then None else Get(es, k)
  {
    if i == 0 {
      AbsentKeysLookUpNothing(es[1..], es[0].key);
    } else {
      RemoveAtLooksUp(es[1..], i - 1, k);
      KeysAreThoseOfEntries(es[1..], i - 1);
    }
  }

  lemma {:induction false} AbsentKeysLookUpNothing(es: seq<Entry>, k: string)
    requires k !in KeysOf(es)
    ensures Get(es, k) == None
  {
    if es != [] {
      AbsentKeysLookUpNothing(es[1..], k);
    }
  }

  lemma {:induction false} LastTakeIsRemembered(c: Config, times: seq<int>)
    requires times != []
    ensures After(c, None, times).value.lastRefillMs == times[|times| - 1]
  {
    assert times == times[..|times| - 1] + [times[|times| - 1]];
    AfterSnoc(c, None, times[..|times| - 1], times[|times| - 1]);
  }

  /** A take that finds its key evicted after enough idle time comes out as if the bucket were still there. */
  lemma IdleTakeLooksFresh(c: Config, found: Option<BucketState>, times: seq<int>, now: int, idleMs: nat)
    requires ValidConfig(c) && c.burst <= Refill(c, idleMs)
    requires found == None || found == After(c, None, times)
    requires found.None? && times != [] ==> now >= times[|times| - 1] + idleMs
    ensures Compute(c, found, now) == Compute(c, After(c, None, times), now)
  {
    if found.None? && times != [] {
      LastTakeIsRemembered(c, times);
      TokensStayWithin(c, None, times);
      var own := After(c, None, times).value;
      RefillAdds(c, idleMs, Elapsed(own.lastRefillMs, now) - idleMs);
      ForgettingIsInvisibleIffFull(c, own, now);
    }
  }

  /** Evicting keys that stay idle for a whole burst's refill is unobservable: every take on `key` comes
      out as if the key had a bucket of its own that nobody ever drops. */
  lemma {:induction false} IdleEvictionIsInvisible(c: Config, maxKeys: nat, takes: seq<Take>, key: string, idleMs: nat)
    requires ValidConfig(c) && c.burst <= Refill(c, idleMs)
    requires EvictedOnlyWhenIdle(c, maxKeys, takes, key, idleMs)
    ensures var own := After(c, None, TimesOf(takes, key));
            Get(Fold(c, maxKeys, takes), key) == None || Get(Fold(c, maxKeys, takes), key) == own
    ensures takes != [] && takes[|takes| - 1].key == key ==>
              var rest, now := takes[..|takes| - 1], takes[|takes| - 1].nowMs;
              Update(c, maxKeys, Fold(c, maxKeys, rest), key, now).outcome == Compute(c, After(c, None, TimesOf(rest, key)), now)
  {
    if takes != [] {
      var rest, t := takes[..|takes| - 1], takes[|takes| - 1];
      var es, times := Fold(c, maxKeys, rest), TimesOf(rest, key);
      IdleEvictionIsInvisible(c, maxKeys, rest, key, idleMs);
      if t.key == key {
        IdleTakeLooksFresh(c, Get(es, key), times, t.nowMs, idleMs);
      }
      var s := Compute(c, Get(es, t.key), t.nowMs).next;
      var put := Put(es, t.key, s);
      FoldStaysBounded(c, maxKeys, rest);
      PutKeepsKeys(es, t.key, s);
      PutLooksUp(es, t.key, s, key);
      if |put| > maxKeys {
        RemoveAtLooksUp(put, Oldest(put), key);
      }
      if t.key == key {
        AfterSnoc(c, None, times, t.nowMs);
      } else {
        assert TimesOf(takes, key) == times;
      }
    }
  }

  // ---------- eviction in general ----------

  /** Which of the takes on `key` found it evicted, or not yet there. */
  function LostOf(c: Config, maxKeys: nat, takes: seq<Take>, key: string): (lost: seq<bool>)
    ensures |lost| == |TimesOf(takes, key)|
  {
    if takes == [] then []
    else
      var rest, t := takes[..|takes| - 1], takes[|takes| - 1];
      LostOf(c, maxKeys, rest, key) + if t.key == key then [Get(Fold(c, maxKeys, rest), key).None?] else []
  }

  /** Whatever is evicted, a key that is in the map holds the state of its own bucket, restarted at each take that
      found it evicted. */
  lemma {:induction false} EachKeyHasALossyBucket(c: Config, maxKeys: nat, takes: seq<Take>, key: string)
    ensures var own := LossyAfter(c, None, TimesOf(takes, key), LostOf(c, maxKeys, takes, key));
            Get(Fold(c, maxKeys, takes), key) == None || Get(Fold(c, maxKeys, takes), key) == own
  {
    if takes != [] {
      var rest, t := takes[..|takes| - 1], takes[|takes| - 1];
      var es, times, lost := Fold(c, maxKeys, rest), TimesOf(rest, key), LostOf(c, maxKeys, rest, key);
      EachKeyHasALossyBucket(c, maxKeys, rest, key);
      UpdateLooksUp(c, maxKeys, es, t, key) by {
        FoldStaysBounded(c, maxKeys, rest);
      }
      if t.key == key {
        LossySnoc(c, None, times, lost, t.nowMs, Get(es, key).None?);
      } else {
        assert TimesOf(takes, key) == times && LostOf(c, maxKeys, takes, key) == lost;
      }
    }
  }

  lemma UpdateLooksUp(c: Config, maxKeys: nat, es: seq<Entry>, t: Take, key: string)
    requires UniqueKeys(es)
    ensures var found := Get(Update(c, maxKeys, es, t.key, t.nowMs).entries, key);
            found == None || found == if key == t.key then Some(Compute(c, Get(es, key), t.nowMs).next) else Get(es, key)
  {
    var s := Compute(c, Get(es, t.key), t.nowMs).next;
    var put := Put(es, t.key, s);
    PutKeepsKeys(es, t.key, s);
    PutLooksUp(es, t.key, s, key);
    if |put| > maxKeys {
      RemoveAtLooksUp(put, Oldest(put), key);
    }
  }
}
