/**
 Where the positions of a ring are and whom a key belongs to, said of the array alone: a reader of decimal numerals
 takes the place of the writer, the history of joins and leaves that of the node set.
 */
module RingPlacement {
  import opened Options
  import opened Positions
  import opened Ring

  // ---------- numerals ----------

  predicate IsDigits(d: string) {
    forall i :: 0 <= i < |d| ==> '0' <= d[i] <= '9'
  }

  /** The number that a row of digits stands for, most significant digit first. */
  function Reading(d: string): nat
    requires IsDigits(d)
  {
    if d == "" then 0 else 10 * Reading(d[..|d| - 1]) + (d[|d| - 1] as int - '0' as int)
  }

  /** `d` is the decimal numeral of `i`: at least one digit, and no leading zero but in 0 itself. */
  predicate Denotes(d: string, i: nat) {
    d != "" && IsDigits(d) && (d[0] == '0' ==> |d| == 1) && Reading(d) == i
  }

  lemma {:induction false} LongNumeralsAreLarge(d: string)
    requires IsDigits(d) && d != "" && d[0] != '0'
    ensures Reading(d) > 0
  {
    if |d| > 1 {
      LongNumeralsAreLarge(d[..|d| - 1]);
    }
  }

  lemma OneDigit(d: string)
    requires |d| == 1 && IsDigits(d)
    ensures Reading(d) == d[0] as int - '0' as int
  {
    assert d[..0] == "";
  }

  lemma DigitIs(k: nat)
    requires k < 10
    ensures "0123456789"[k] as int == '0' as int + k
  {}

  lemma {:induction false} DecimalDenotes(i: nat)
    ensures Denotes(Decimal(i), i)
  {
    DigitIs(i % 10);
    var d := Decimal(i);
    if i < 10 {
      OneDigit(d);
    } else {
      var rest := Decimal(i / 10);
      DecimalDenotes(i / 10);
      assert d[..|d| - 1] == rest;
      if |rest| == 1 {
        OneDigit(rest);
      }
    }
  }

  /** A number has one numeral. */
  lemma {:induction false} NumeralsAreUnique(d: string, i: nat)
    ensures Denotes(d, i) <==> d == Decimal(i)
  {
    DecimalDenotes(i);
    if Denotes(d, i) {
      var rest, k := d[..|d| - 1], d[|d| - 1] as int - '0' as int;
      DigitIs(k);
      assert d == rest + [d[|d| - 1]];
      if rest == "" {
        OneDigit(d);
      } else {
        LongNumeralsAreLarge(rest);
        NumeralsAreUnique(rest, i / 10);
      }
    }
  }

  // ---------- membership ----------

  /** The last change about `n` is a join. */
  ghost predicate Joined(changes: seq<Change>, n: string) {
    exists k :: 0 <= k < |changes| && changes[k] == Join(n) && forall j :: k < j < |changes| ==> changes[j] != Leave(n)
  }

  lemma OneMoreChange(before: seq<Change>, last: Change, n: string)
    ensures Joined(before + [last], n) <==> last == Join(n) || (Joined(before, n) && last != Leave(n))
  {
    var changes := before + [last];
    assert changes[|before|] == last;
    if Joined(changes, n) {
      var k :| 0 <= k < |changes| && changes[k] == Join(n) && forall j :: k < j < |changes| ==> changes[j] != Leave(n);
      if k < |before| {
        assert before[k] == Join(n);
        assert forall j :: k < j < |before| ==> before[j] == changes[j];
      }
    }
    if Joined(before, n) && last != Leave(n) {
      var k :| 0 <= k < |before| && before[k] == Join(n) && forall j :: k < j < |before| ==> before[j] != Leave(n);
      assert changes[k] == Join(n);
    }
  }

  lemma {:induction false} MembersAreTheJoined(c: Config, changes: seq<Change>, n: string)
    ensures n in After(c, changes).nodes <==> Joined(changes, n)
  {
    if changes != [] {
      var before, last := changes[..|changes| - 1], changes[|changes| - 1];
      MembersAreTheJoined(c, before, n);
      assert changes == before + [last];
      OneMoreChange(before, last, n);
    }
  }

  // ---------- positions ----------

  /** The `i`-th position of `n` is at `h`: the hash of the name, a hash sign and the numeral of `i`. */
  ghost predicate PlacedAt(c: Config, n: string, i: nat, h: int) {
    exists d :: Denotes(d, i) && c.hash(n + "#" + d) == h
  }

  lemma VnodeIsPlaced(c: Config, v: VNode, i: nat)
    requires i < c.vnodes
    ensures Vnodes(c, v.nodeId)[i] == v <==> PlacedAt(c, v.nodeId, i, v.hash)
  {
    NumeralsAreUnique(Decimal(i), i);
    if d :| Denotes(d, i) && c.hash(v.nodeId + "#" + d) == v.hash {
      NumeralsAreUnique(d, i);
    }
  }

  ghost function Places(vs: seq<VNode>, v: VNode): set<nat> {
    set i: nat | i < |vs| && vs[i] == v
  }

  lemma PlacesSnoc(rest: seq<VNode>, w: VNode, v: VNode)
    ensures |Places(rest + [w], v)| == |Places(rest, v)| + if w == v then 1 else 0
  {
    assert Places(rest + [w], v) == if w == v then Places(rest, v) + {|rest|} else Places(rest, v);
  }

  lemma {:induction false} CountByIndex(vs: seq<VNode>, v: VNode)
    ensures multiset(vs)[v] == |Places(vs, v)|
  {
    if vs == [] {
      assert Places(vs, v) == {};
    } else {
      var rest, w := vs[..|vs| - 1], vs[|vs| - 1];
      CountByIndex(rest, v);
      PlacesSnoc(rest, w, v);
      assert vs == rest + [w];
      assert multiset(vs)[v] == multiset(rest)[v] + multiset([w])[v];
    }
  }

  /** After any history the array is sorted and holds, for every node whose last change was a join and every i below
      `vnodes`, one position at the hash of `name#i`, counted with multiplicity, and no others. */
  lemma PositionsAreNumbered(c: Config, changes: seq<Change>, v: VNode)
    ensures var ps := After(c, changes).positions;
            && (forall i, j :: 0 <= i < j < |ps| ==> ps[i].hash <= ps[j].hash)
            && multiset(ps)[v] ==
               if Joined(changes, v.nodeId) then |set i: nat | i < c.vnodes && PlacedAt(c, v.nodeId, i, v.hash)| else 0
  {
    EveryHistoryIsConsistent(c, changes);
    MembersAreTheJoined(c, changes, v.nodeId);
    var vs := Vnodes(c, v.nodeId);
    CountByIndex(vs, v);
    forall i | 0 <= i < c.vnodes
      ensures vs[i] == v <==> PlacedAt(c, v.nodeId, i, v.hash)
    {
      VnodeIsPlaced(c, v, i);
    }
    assert Places(vs, v) == set i: nat | i < c.vnodes && PlacedAt(c, v.nodeId, i, v.hash);
  }

  /** A position that a joining node takes is its own, whoever was there before. */
  lemma NewcomerTakesItsPlaces(c: Config, changes: seq<Change>, n: string, i: nat, key: string)
    requires !Joined(changes, n) && i < c.vnodes && PlacedAt(c, n, i, c.hash(key))
    ensures Owner(c, After(c, changes + [Join(n)]), key) == Some(n)
  {
    var s := After(c, changes);
    var v := VNode(c.hash(key), n);
    MembersAreTheJoined(c, changes, n);
    EveryHistoryIsConsistent(c, changes);
    VnodeIsPlaced(c, v, i);
    JoinTakesTheSlot(c, s, n, v);
    assert (changes + [Join(n)])[..|changes|] == changes;
    ClockwiseAt(Add(c, s, n).positions, v.hash, 0);
  }

  // ---------- owners ----------

  /** `i` is where a walk from `h` starts: the first position at or after `h`, or the first of all if there is none. */
  ghost predicate StartsAt(ps: seq<VNode>, h: int, i: nat) {
    && i < |ps|
    && ((ps[i].hash >= h && forall j :: 0 <= j < i ==> ps[j].hash < h) || (i == 0 && forall j :: 0 <= j < |ps| ==> ps[j].hash < h))
  }

  /** A key belongs to the first position clockwise from its hash, and to nobody only if the ring is empty. */
  lemma OwnerIsTheNextClockwise(c: Config, s: State, key: string, i: nat)
    requires s.positions != [] ==> StartsAt(s.positions, c.hash(key), i)
    ensures Owner(c, s, key) == if s.positions == [] then None else Some(s.positions[i].nodeId)
  {
    if s.positions != [] {
      ClockwiseAt(s.positions, c.hash(key), 0);
    }
  }

  lemma {:induction false} FirstPlace(ids: seq<string>, x: string) returns (j: nat)
    requires x in ids
    ensures j < |ids| && ids[j] == x && x !in ids[..j]
  {
    if ids[0] == x {
      j := 0;
    } else {
      j := FirstPlace(ids[1..], x);
      j := j + 1;
      assert ids[..j] == [ids[0]] + ids[1..][..j - 1];
    }
  }

  /** An id that is listed at `a` first occurs where everything before it is listed earlier. */
  lemma FirstOccurrence(ids: seq<string>, a: nat) returns (j: nat)
    requires a < |Distinct(ids)|
    ensures j < |ids| && ids[j] == Distinct(ids)[a]
    ensures forall i :: 0 <= i < j ==> ids[i] in Distinct(ids)[..a]
  {
    var all := Distinct(ids);
    DistinctIsFaithful(ids);
    j := FirstPlace(ids, all[a]);
    DistinctOfPrefix(ids, j);
    DistinctIsFaithful(ids[..j]);
    var met := Distinct(ids[..j]);
    assert |met| <= a by {
      assert forall m :: 0 <= m < |met| ==> met[m] != all[a];
    }
    forall i | 0 <= i < j
      ensures ids[i] in all[..a]
    {
      assert ids[..j][i] in met;
    }
  }

  /** The owner of the `j`-th position from place `i` on, going round. */
  ghost function Stop(ps: seq<VNode>, i: nat, j: nat): string
    requires ps != []
  {
    ps[(i + j) % |ps|].nodeId
  }

  /** What `getNodes` lists at `a` owns the first position, clockwise from the key, that no node listed before `a` owns. */
  lemma NodesAreListedAsMet(c: Config, s: State, key: string, k: int, i: nat, a: nat) returns (j: nat)
    requires StartsAt(s.positions, c.hash(key), i) && a < |Fallbacks(c, s, key, k)|
    ensures var f := Fallbacks(c, s, key, k);
            && j < |s.positions| && Stop(s.positions, i, j) == f[a] && f[a] !in f[..a]
            && forall m :: 0 <= m < j ==> Stop(s.positions, i, m) in f[..a]
  {
    var ps, walk := s.positions, Clockwise(s.positions, c.hash(key));
    var f := Fallbacks(c, s, key, k);
    assert f[..a] == Distinct(walk)[..a];
    DistinctIsFaithful(walk);
    j := FirstOccurrence(walk, a);
    StopsAre(ps, c.hash(key), i, j);
    forall m | 0 <= m < j
      ensures Stop(ps, i, m) in f[..a]
    {
      StopsAre(ps, c.hash(key), i, m);
    }
  }

  lemma StopsAre(ps: seq<VNode>, h: int, i: nat, k: nat)
    requires StartsAt(ps, h, i) && k < |ps|
    ensures Clockwise(ps, h)[k] == Stop(ps, i, k)
  {
    var start := LowerBound(ps, h);
    ClockwiseAt(ps, h, k);
    SlotIndexIsTheModulus(start, k, |ps|);
    if start == |ps| {
      assert (start + k) % |ps| == (i + k) % |ps| by {
        SlotIndexIsTheModulus(0, k, |ps|);
      }
    }
  }
}
