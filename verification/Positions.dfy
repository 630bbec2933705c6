/**
 The sorted array of virtual nodes behind the consistent-hash ring, as a value: what inserting,
 filtering and walking it mean, and how the three interact.
 */
module Positions {

  /** A position on the ring and the real node that owns it. */
  datatype VNode = VNode(hash: int, nodeId: string)

  ghost predicate Sorted(ps: seq<VNode>) {
    forall i, j :: 0 <= i < j < |ps| ==> ps[i].hash <= ps[j].hash
  }

  /** The number of leading positions below `h`; on a sorted array, the first index at or after `h`. */
  function LowerBound(ps: seq<VNode>, h: int): (i: nat)
    ensures i <= |ps|
    ensures forall j :: 0 <= j < i ==> ps[j].hash < h
    ensures i < |ps| ==> h <= ps[i].hash
    ensures Sorted(ps) ==> forall j :: i <= j < |ps| ==> h <= ps[j].hash
  {
    if ps == [] || h <= ps[0].hash then 0 else 1 + LowerBound(ps[1..], h)
  }

  lemma {:induction false} LowerBoundIsUnique(ps: seq<VNode>, h: int, i: nat)
    requires i <= |ps|
    requires forall j :: 0 <= j < i ==> ps[j].hash < h
    requires forall j :: i <= j < |ps| ==> h <= ps[j].hash
    ensures LowerBound(ps, h) == i
  {
    if ps != [] && i > 0 {
      LowerBoundIsUnique(ps[1..], h, i - 1);
    }
  }

  /** `splice(lowerBound, 0, v)`: before every position with the same hash. */
  function Insert(ps: seq<VNode>, v: VNode): seq<VNode> {
    var i := LowerBound(ps, v.hash);
    ps[..i] + [v] + ps[i..]
  }

  lemma InsertKeepsSorted(ps: seq<VNode>, v: VNode)
    requires Sorted(ps)
    ensures Sorted(Insert(ps, v))
    ensures multiset(Insert(ps, v)) == multiset(ps) + multiset{v}
  {
    var i := LowerBound(ps, v.hash);
    SpliceKeepsSorted(ps, v, i);
    SpliceAddsOne(ps, v, i);
  }

  lemma SpliceKeepsSorted(ps: seq<VNode>, v: VNode, i: nat)
    requires Sorted(ps) && i <= |ps|
    requires forall j :: 0 <= j < i ==> ps[j].hash <= v.hash
    requires forall j :: i <= j < |ps| ==> v.hash <= ps[j].hash
    ensures Sorted(ps[..i] + [v] + ps[i..])
  {}

  lemma SpliceAddsOne(ps: seq<VNode>, v: VNode, i: nat)
    requires i <= |ps|
    ensures multiset(ps[..i] + [v] + ps[i..]) == multiset(ps) + multiset{v}
  {
    assert ps == ps[..i] + ps[i..];
  }

  function InsertAll(ps: seq<VNode>, vs: seq<VNode>): seq<VNode> {
    if vs == [] then ps else Insert(InsertAll(ps, vs[..|vs| - 1]), vs[|vs| - 1])
  }

  lemma {:induction false} InsertAllKeepsSorted(ps: seq<VNode>, vs: seq<VNode>)
    requires Sorted(ps)
    ensures Sorted(InsertAll(ps, vs))
    ensures multiset(InsertAll(ps, vs)) == multiset(ps) + multiset(vs)
  {
    if vs != [] {
      var rest, v := vs[..|vs| - 1], vs[|vs| - 1];
      InsertAllKeepsSorted(ps, rest);
      InsertKeepsSorted(InsertAll(ps, rest), v);
      OneMoreInTheMultiset(rest, v, vs);
    }
  }

  lemma OneMoreInTheMultiset(rest: seq<VNode>, v: VNode, vs: seq<VNode>)
    requires vs != [] && rest == vs[..|vs| - 1] && v == vs[|vs| - 1]
    ensures multiset(vs) == multiset(rest) + multiset{v}
  {
    assert vs == rest + [v];
  }

  // ---------- dropping a node ----------

  /** The positions not owned by `n`, in order. */
  function Without(ps: seq<VNode>, n: string): seq<VNode> {
    if ps == [] then []
    else if ps[0].nodeId == n then Without(ps[1..], n)
    else [ps[0]] + Without(ps[1..], n)
  }

  lemma {:induction false} WithoutMembers(ps: seq<VNode>, n: string)
    ensures forall v :: v in Without(ps, n) <==> v in ps && v.nodeId != n
  {
    if ps != [] {
      WithoutMembers(ps[1..], n);
    }
  }

  lemma {:induction false} WithoutConcat(ps: seq<VNode>, qs: seq<VNode>, n: string)
    ensures Without(ps + qs, n) == Without(ps, n) + Without(qs, n)
  {
    if ps == [] {
      assert ps + qs == qs;
    } else {
      assert (ps + qs)[1..] == ps[1..] + qs;
      WithoutConcat(ps[1..], qs, n);
    }
  }

  lemma {:induction false} WithoutCounts(ps: seq<VNode>, n: string, v: VNode)
    ensures multiset(Without(ps, n))[v] == if v.nodeId == n then 0 else multiset(ps)[v]
  {
    if ps != [] {
      WithoutCounts(ps[1..], n, v);
      assert ps == [ps[0]] + ps[1..];
    }
  }

  lemma {:induction false} WithoutKeepsSorted(ps: seq<VNode>, n: string)
    requires Sorted(ps)
    ensures Sorted(Without(ps, n))
  {
    if ps != [] {
      WithoutKeepsSorted(ps[1..], n);
      WithoutMembers(ps[1..], n);
      assert forall v :: v in ps[1..] ==> ps[0].hash <= v.hash;
    }
  }

  /** Where `h` cuts a sorted array, it also cuts the array without `n`. */
  lemma WithoutSplits(ps: seq<VNode>, n: string, h: int) returns (low: seq<VNode>, high: seq<VNode>)
    requires Sorted(ps)
    ensures low == Without(ps[..LowerBound(ps, h)], n) && high == Without(ps[LowerBound(ps, h)..], n)
    ensures Without(ps, n) == low + high
    ensures LowerBound(low + high, h) == |low|
  {
    var i := LowerBound(ps, h);
    low, high := Without(ps[..i], n), Without(ps[i..], n);
    assert ps == ps[..i] + ps[i..];
    WithoutConcat(ps[..i], ps[i..], n);
    WithoutMembers(ps[..i], n);
    WithoutMembers(ps[i..], n);
    assert forall v :: v in ps[..i] ==> v.hash < h;
    assert forall v :: v in ps[i..] ==> h <= v.hash;
    SplitAt(low, high, h);
  }

  lemma SplitAt(low: seq<VNode>, high: seq<VNode>, h: int)
    requires forall v :: v in low ==> v.hash < h
    requires forall v :: v in high ==> h <= v.hash
    ensures LowerBound(low + high, h) == |low|
  {
    LowerBoundIsUnique(low + high, h, |low|);
  }

  /** Dropping `n` and inserting a position of another node commute; one of `n` itself vanishes. */
  lemma WithoutInsert(ps: seq<VNode>, v: VNode, n: string)
    requires Sorted(ps)
    ensures Without(Insert(ps, v), n) == if v.nodeId == n then Without(ps, n) else Insert(Without(ps, n), v)
  {
    var low, high := WithoutSplits(ps, n, v.hash);
    WithoutAround(ps[..LowerBound(ps, v.hash)], v, ps[LowerBound(ps, v.hash)..], n);
    if v.nodeId != n {
      InsertBetween(low, high, v);
    }
  }

  lemma {:induction false} WithoutAround(a: seq<VNode>, v: VNode, b: seq<VNode>, n: string)
    ensures Without(a + [v] + b, n) ==
            if v.nodeId == n then Without(a, n) + Without(b, n) else Without(a, n) + [v] + Without(b, n)
  {
    var s := a + [v] + b;
    if a == [] {
      assert s[0] == v && s[1..] == b;
    } else {
      assert s[0] == a[0] && s[1..] == a[1..] + [v] + b;
      WithoutAround(a[1..], v, b, n);
    }
  }

  lemma InsertBetween(low: seq<VNode>, high: seq<VNode>, v: VNode)
    requires LowerBound(low + high, v.hash) == |low|
    ensures Insert(low + high, v) == low + [v] + high
  {}

  lemma {:induction false} WithoutInsertAll(ps: seq<VNode>, vs: seq<VNode>, owner: string, n: string)
    requires Sorted(ps) && forall v :: v in vs ==> v.nodeId == owner
    ensures Without(InsertAll(ps, vs), n) ==
            if owner == n then Without(ps, n) else InsertAll(Without(ps, n), vs)
  {
    if vs != [] {
      var rest := vs[..|vs| - 1];
      WithoutInsertAll(ps, rest, owner, n);
      InsertAllKeepsSorted(ps, rest);
      WithoutInsert(InsertAll(ps, rest), vs[|vs| - 1], n);
    }
  }

  lemma {:induction false} WithoutAbsent(ps: seq<VNode>, n: string)
    requires forall v :: v in ps ==> v.nodeId != n
    ensures Without(ps, n) == ps
  {
    if ps != [] {
      WithoutAbsent(ps[1..], n);
    }
  }

  // ---------- a sorted array is determined by what it holds ----------

  /** Equal hashes belong to the same node. */
  ghost predicate HashDecidesOwner(ps: seq<VNode>) {
    forall v, w :: v in ps && w in ps && v.hash == w.hash ==> v == w
  }

  lemma {:induction false} SortedIsCanonical(ps: seq<VNode>, qs: seq<VNode>)
    requires Sorted(ps) && Sorted(qs) && multiset(ps) == multiset(qs)
    requires HashDecidesOwner(ps)
    ensures ps == qs
    decreases |ps|
  {
    if ps == [] {
      assert |multiset(qs)| == 0;
    } else {
      assert ps[0] in multiset(ps);
      SameFirst(ps, qs);
      RestCounts(ps);
      RestCounts(qs);
      assert forall v :: v in ps[1..] ==> v in ps;
      SortedIsCanonical(ps[1..], qs[1..]);
    }
  }

  lemma RestCounts(ps: seq<VNode>)
    requires ps != []
    ensures multiset(ps[1..]) == multiset(ps) - multiset{ps[0]}
  {
    assert ps == [ps[0]] + ps[1..];
  }

  lemma SameFirst(ps: seq<VNode>, qs: seq<VNode>)
    requires Sorted(ps) && Sorted(qs) && multiset(ps) == multiset(qs)
    requires HashDecidesOwner(ps) && ps != [] && qs != []
    ensures ps[0] == qs[0]
  {
    assert ps[0] in multiset(qs) && qs[0] in multiset(ps);
    assert ps[0] in qs && qs[0] in ps;
    assert ps[0].hash == qs[0].hash;
  }

  // ---------- walking clockwise ----------

  function Owners(ps: seq<VNode>): (r: seq<string>)
    ensures |r| == |ps| && forall i :: 0 <= i < |ps| ==> r[i] == ps[i].nodeId
  {
    seq(|ps|, i requires 0 <= i < |ps| => ps[i].nodeId)
  }

  /** Every position's owner, from the first position at or after `h` round to the one before it. */
  function Clockwise(ps: seq<VNode>, h: int): (r: seq<string>)
    ensures |r| == |ps|
  {
    var i := LowerBound(ps, h);
    Owners(ps[i..] + ps[..i])
  }

  function Drop(ids: seq<string>, n: string): (r: seq<string>)
    ensures forall x :: x in r <==> x in ids && x != n
  {
    if ids == [] then [] else (if ids[0] == n then [] else [ids[0]]) + Drop(ids[1..], n)
  }

  lemma {:induction false} DropConcat(a: seq<string>, b: seq<string>, n: string)
    ensures Drop(a + b, n) == Drop(a, n) + Drop(b, n)
  {
    if a == [] {
      assert a + b == b;
    } else {
      assert (a + b)[1..] == a[1..] + b;
      DropConcat(a[1..], b, n);
    }
  }

  lemma {:induction false} OwnersWithout(ps: seq<VNode>, n: string)
    ensures Owners(Without(ps, n)) == Drop(Owners(ps), n)
  {
    if ps != [] {
      OwnersWithout(ps[1..], n);
      assert Owners(ps)[1..] == Owners(ps[1..]);
    }
  }

  /** Removing a node removes its stops from every walk and changes nothing else about it. */
  lemma ClockwiseWithout(ps: seq<VNode>, n: string, h: int)
    requires Sorted(ps)
    ensures Clockwise(Without(ps, n), h) == Drop(Clockwise(ps, h), n)
  {
    var i := LowerBound(ps, h);
    var low, high := WithoutSplits(ps, n, h);
    assert (low + high)[..|low|] == low && (low + high)[|low|..] == high;
    WithoutConcat(ps[i..], ps[..i], n);
    OwnersWithout(ps[i..] + ps[..i], n);
  }

  // ---------- first occurrences ----------

  /** Each id once, where it first occurs. */
  function Distinct(ids: seq<string>): seq<string> {
    if ids == [] then []
    else
      var r, x := Distinct(ids[..|ids| - 1]), ids[|ids| - 1];
      if x in r then r else r + [x]
  }

  lemma {:induction false} DistinctHasTheSameMembers(ids: seq<string>)
    ensures forall x :: x in Distinct(ids) <==> x in ids
  {
    if ids != [] {
      var rest, x := ids[..|ids| - 1], ids[|ids| - 1];
      assert ids == rest + [x];
      DistinctHasTheSameMembers(rest);
    }
  }

  lemma AppendKeepsDifferent(ids: seq<string>, x: string)
    requires x !in ids && forall i, j :: 0 <= i < j < |ids| ==> ids[i] != ids[j]
    ensures forall i, j :: 0 <= i < j < |ids + [x]| ==> (ids + [x])[i] != (ids + [x])[j]
  {}

  lemma {:induction false} DistinctRepeatsNothing(ids: seq<string>)
    ensures forall i, j :: 0 <= i < j < |Distinct(ids)| ==> Distinct(ids)[i] != Distinct(ids)[j]
  {
    if ids != [] {
      var rest, x := ids[..|ids| - 1], ids[|ids| - 1];
      DistinctRepeatsNothing(rest);
      if x !in Distinct(rest) {
        AppendKeepsDifferent(Distinct(rest), x);
      }
    }
  }

  lemma {:induction false} DistinctKeepsTheFirst(ids: seq<string>)
    requires ids != []
    ensures Distinct(ids) != [] && Distinct(ids)[0] == ids[0]
  {
    if |ids| > 1 {
      DistinctKeepsTheFirst(ids[..|ids| - 1]);
    }
  }

  lemma DistinctIsFaithful(ids: seq<string>)
    ensures forall x :: x in Distinct(ids) <==> x in ids
    ensures forall i, j :: 0 <= i < j < |Distinct(ids)| ==> Distinct(ids)[i] != Distinct(ids)[j]
    ensures ids != [] ==> Distinct(ids) != [] && Distinct(ids)[0] == ids[0]
  {
    DistinctHasTheSameMembers(ids);
    DistinctRepeatsNothing(ids);
    if ids != [] {
      DistinctKeepsTheFirst(ids);
    }
  }

  lemma {:induction false} DistinctOfPrefix(ids: seq<string>, m: nat)
    requires m <= |ids|
    ensures Distinct(ids[..m]) <= Distinct(ids)
  {
    if m == |ids| {
      assert ids[..m] == ids;
    } else {
      var rest := ids[..|ids| - 1];
      assert rest[..m] == ids[..m];
      DistinctOfPrefix(rest, m);
    }
  }

  lemma DistinctSnoc(ids: seq<string>, x: string)
    ensures Distinct(ids + [x]) == if x in Distinct(ids) then Distinct(ids) else Distinct(ids) + [x]
  {}

  lemma DropSnoc(ids: seq<string>, x: string, n: string)
    ensures Drop(ids + [x], n) == if x == n then Drop(ids, n) else Drop(ids, n) + [x]
  {
    DropConcat(ids, [x], n);
  }

  lemma {:induction false} DistinctDrop(ids: seq<string>, n: string)
    ensures Distinct(Drop(ids, n)) == Drop(Distinct(ids), n)
  {
    if ids != [] {
      var rest, x := ids[..|ids| - 1], ids[|ids| - 1];
      assert ids == rest + [x];
      DistinctDrop(rest, n);
      DropSnoc(rest, x, n);
      DropSnoc(Distinct(rest), x, n);
      DistinctSnoc(rest, x);
      DistinctSnoc(Drop(rest, n), x);
      DistinctIsFaithful(rest);
      DistinctIsFaithful(Drop(rest, n));
    }
  }

  lemma {:induction false} DropFirst(ids: seq<string>, n: string)
    requires forall i, j :: 0 <= i < j < |ids| ==> ids[i] != ids[j]
    ensures n !in ids ==> Drop(ids, n) == ids
    ensures ids != [] && ids[0] == n ==> Drop(ids, n) == ids[1..]
  {
    if ids != [] {
      DropFirst(ids[1..], n);
    }
  }

  /** Ids without repetition are as many as the set they form. */
  lemma {:induction false} DistinctCount(ids: seq<string>, s: set<string>)
    requires forall i, j :: 0 <= i < j < |ids| ==> ids[i] != ids[j]
    requires forall x :: x in ids <==> x in s
    ensures |ids| == |s|
  {
    if ids == [] {
      assert s == {};
    } else {
      DistinctCount(ids[1..], s - {ids[0]});
    }
  }
}
