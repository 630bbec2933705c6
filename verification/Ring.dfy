/**
 The consistent-hash ring: membership changes, lookups, and how lookups before and after a membership
 change relate. The hash is arbitrary, so every result holds for Murmur3, for FNV-1a and for a hash
 that collides.
 */
module Ring {
  import opened Options
  import opened Sets
  import opened Positions

  datatype Config = Config(vnodes: nat, hash: string -> int)

  datatype State = State(positions: seq<VNode>, nodes: set<string>)

  const EMPTY := State([], {})

  function Decimal(n: nat): string {
    var digit := ["0123456789"[n % 10]];
    if n < 10 then digit else Decimal(n / 10) + digit
  }

  function Vnodes(c: Config, n: string): (r: seq<VNode>)
    ensures |r| == c.vnodes && forall v :: v in r ==> v.nodeId == n
  {
    seq(c.vnodes, i requires 0 <= i < c.vnodes => VNode(c.hash(n + "#" + Decimal(i)), n))
  }

  function Add(c: Config, s: State, n: string): State {
    if n in s.nodes then s else State(InsertAll(s.positions, Vnodes(c, n)), s.nodes + {n})
  }

  function Remove(s: State, n: string): State {
    if n in s.nodes then State(Without(s.positions, n), s.nodes - {n}) else s
  }

  function Owner(c: Config, s: State, key: string): Option<string> {
    var walk := Clockwise(s.positions, c.hash(key));
    if walk == [] then None else Some(walk[0])
  }

  function Take(ids: seq<string>, k: int): seq<string> {
    if k <= 0 then [] else if k < |ids| then ids[..k] else ids
  }

  /** Every node, in the order a walk clockwise from `key` first meets it. */
  function WalkOrder(c: Config, s: State, key: string): seq<string> {
    Distinct(Clockwise(s.positions, c.hash(key)))
  }

  function Fallbacks(c: Config, s: State, key: string, k: int): seq<string> {
    Take(WalkOrder(c, s, key), k)
  }

  // ---------- the invariant of every membership history ----------

  /** Sorted, and holding exactly the virtual nodes of the members. */
  ghost predicate Consistent(c: Config, s: State) {
    && Sorted(s.positions)
    && forall v :: multiset(s.positions)[v] == if v.nodeId in s.nodes then multiset(Vnodes(c, v.nodeId))[v] else 0
  }

  lemma VnodesOfOthers(c: Config, n: string, v: VNode)
    requires v.nodeId != n
    ensures multiset(Vnodes(c, n))[v] == 0
  {}

  lemma AddKeepsConsistent(c: Config, s: State, n: string)
    requires Consistent(c, s)
    ensures Consistent(c, Add(c, s, n))
  {
    InsertAllKeepsSorted(s.positions, Vnodes(c, n));
    forall v: VNode | v.nodeId != n
      ensures multiset(Vnodes(c, n))[v] == 0
    {
      VnodesOfOthers(c, n, v);
    }
  }

  lemma RemoveKeepsConsistent(c: Config, s: State, n: string)
    requires Consistent(c, s)
    ensures Consistent(c, Remove(s, n))
    ensures Remove(s, n).positions == Without(s.positions, n)
  {
    WithoutKeepsSorted(s.positions, n);
    forall v
      ensures multiset(Without(s.positions, n))[v] == if v.nodeId == n then 0 else multiset(s.positions)[v]
    {
      WithoutCounts(s.positions, n, v);
    }
    if n !in s.nodes {
      forall v | v in s.positions
        ensures v.nodeId != n
      {
        assert v in multiset(s.positions);
      }
      WithoutAbsent(s.positions, n);
    }
  }

  datatype Change = Join(node: string) | Leave(node: string)

  function After(c: Config, changes: seq<Change>): State {
    if changes == [] then EMPTY
    else
      var s := After(c, changes[..|changes| - 1]);
      match changes[|changes| - 1]
      case Join(n) => Add(c, s, n)
      case Leave(n) => Remove(s, n)
  }

  lemma {:induction false} EveryHistoryIsConsistent(c: Config, changes: seq<Change>)
    ensures Consistent(c, After(c, changes))
  {
    if changes != [] {
      var s := After(c, changes[..|changes| - 1]);
      EveryHistoryIsConsistent(c, changes[..|changes| - 1]);
      match changes[|changes| - 1] {
        case Join(n) => AddKeepsConsistent(c, s, n);
        case Leave(n) => RemoveKeepsConsistent(c, s, n);
      }
    }
  }

  /** Each member holds `vnodes` positions and nobody else holds any. */
  lemma MembersHoldVnodesPositions(c: Config, s: State, n: string)
    requires Consistent(c, s)
    ensures |s.positions| == |Without(s.positions, n)| + if n in s.nodes then c.vnodes else 0
  {
    var rest := Without(s.positions, n);
    var own := if n in s.nodes then Vnodes(c, n) else [];
    forall v
      ensures multiset(s.positions)[v] == (multiset(rest) + multiset(own))[v]
    {
      WithoutCounts(s.positions, n, v);
      if v.nodeId != n {
        VnodesOfOthers(c, n, v);
      }
    }
    assert multiset(s.positions) == multiset(rest) + multiset(own);
    assert |multiset(s.positions)| == |multiset(rest)| + |multiset(own)|;
  }

  /** Adding an absent node and removing it again restores the very same array, collisions or not. */
  lemma AddThenRemoveRestores(c: Config, s: State, n: string)
    requires Consistent(c, s) && n !in s.nodes
    ensures Remove(Add(c, s, n), n) == s
  {
    RemoveKeepsConsistent(c, s, n);
    WithoutInsertAll(s.positions, Vnodes(c, n), n, n);
    assert s.nodes + {n} - {n} == s.nodes;
  }

  // ---------- canonicity ----------

  /** Two nodes have a virtual node at the same place. */
  ghost predicate Collide(c: Config, a: string, b: string) {
    exists v, w :: v in Vnodes(c, a) && w in Vnodes(c, b) && v.hash == w.hash
  }

  ghost predicate NoCollisions(c: Config, nodes: set<string>) {
    forall a, b :: a in nodes && b in nodes && a != b ==> !Collide(c, a, b)
  }

  lemma MembersOnly(c: Config, s: State, v: VNode)
    requires Consistent(c, s) && v in s.positions
    ensures v.nodeId in s.nodes && v in Vnodes(c, v.nodeId)
  {}

  /** Two consistent rings over the same collision-free membership are the same ring. */
  lemma SameMembersSameRing(c: Config, s: State, t: State)
    requires Consistent(c, s) && Consistent(c, t)
    requires s.nodes == t.nodes && NoCollisions(c, s.nodes)
    ensures s == t
  {
    forall v, w | v in s.positions && w in s.positions && v.hash == w.hash
      ensures v == w
    {
      MembersOnly(c, s, v);
      MembersOnly(c, s, w);
      if v.nodeId != w.nodeId {
        assert Collide(c, v.nodeId, w.nodeId);
      }
    }
    assert multiset(s.positions) == multiset(t.positions);
    SortedIsCanonical(s.positions, t.positions);
  }

  /** Any two histories that end in the same collision-free membership end in the same array. */
  lemma HistoriesDoNotMatter(c: Config, changes: seq<Change>, others: seq<Change>)
    requires After(c, changes).nodes == After(c, others).nodes
    requires NoCollisions(c, After(c, changes).nodes)
    ensures After(c, changes) == After(c, others)
  {
    EveryHistoryIsConsistent(c, changes);
    EveryHistoryIsConsistent(c, others);
    SameMembersSameRing(c, After(c, changes), After(c, others));
  }

  lemma {:induction false} InsertedComesFirst(ps: seq<VNode>, v: VNode)
    ensures var rs := Insert(ps, v); var i := LowerBound(rs, v.hash); i < |rs| && rs[i] == v
  {
    InsertUnfolds(ps, v);
    if ps != [] && v.hash > ps[0].hash {
      InsertedComesFirst(ps[1..], v);
    }
  }

  lemma {:induction false} InsertElsewhereKeepsFirst(ps: seq<VNode>, v: VNode, h: int)
    requires v.hash != h
    requires LowerBound(ps, h) < |ps| && ps[LowerBound(ps, h)].hash == h
    ensures var rs := Insert(ps, v); var i := LowerBound(rs, h); i < |rs| && rs[i] == ps[LowerBound(ps, h)]
  {
    var rs := Insert(ps, v);
    InsertUnfolds(ps, v);
    if v.hash <= ps[0].hash {
      assert LowerBound(rs, h) == 1 + LowerBound(rs[1..], h);
    } else if ps[0].hash < h {
      assert LowerBound(ps, h) == 1 + LowerBound(ps[1..], h) && LowerBound(rs, h) == 1 + LowerBound(rs[1..], h);
      InsertElsewhereKeepsFirst(ps[1..], v, h);
    }
  }

  lemma InsertUnfolds(ps: seq<VNode>, v: VNode)
    ensures var rs := Insert(ps, v);
            && rs != []
            && (if ps == [] || v.hash <= ps[0].hash then rs[0] == v && rs[1..] == ps
                else rs[0] == ps[0] && rs[1..] == Insert(ps[1..], v))
  {}

  /** The later arrival is the first of the positions it collides with. */
  lemma {:induction false} LastInsertedComesFirst(ps: seq<VNode>, vs: seq<VNode>, n: string, h: int)
    requires Sorted(ps) && (forall v :: v in vs ==> v.nodeId == n)
    requires exists v :: v in vs && v.hash == h
    ensures var qs := InsertAll(ps, vs); var i := LowerBound(qs, h);
            i < |qs| && qs[i] == VNode(h, n)
  {
    var rest, v := vs[..|vs| - 1], vs[|vs| - 1];
    assert vs == rest + [v];
    var qs := InsertAll(ps, rest);
    InsertAllKeepsSorted(ps, rest);
    if v.hash == h {
      InsertedComesFirst(qs, v);
    } else {
      var w :| w in vs && w.hash == h;
      assert w in rest;
      LastInsertedComesFirst(ps, rest, n, h);
      InsertElsewhereKeepsFirst(qs, v, h);
    }
  }

  lemma {:induction false} InsertsCommute(ps: seq<VNode>, v: VNode, w: VNode)
    requires v.hash != w.hash
    ensures Insert(Insert(ps, v), w) == Insert(Insert(ps, w), v)
  {
    var vs, ws := Insert(ps, v), Insert(ps, w);
    InsertUnfolds(ps, v);
    InsertUnfolds(ps, w);
    InsertUnfolds(vs, w);
    InsertUnfolds(ws, v);
    if ps != [] && ps[0].hash < v.hash && ps[0].hash < w.hash {
      InsertsCommute(ps[1..], v, w);
    }
    HeadAndTail(Insert(vs, w), Insert(ws, v));
  }

  lemma HeadAndTail(ps: seq<VNode>, qs: seq<VNode>)
    requires ps != [] && qs != [] && ps[0] == qs[0] && ps[1..] == qs[1..]
    ensures ps == qs
  {
    assert ps == [ps[0]] + ps[1..] && qs == [qs[0]] + qs[1..];
  }

  lemma {:induction false} InsertAllCommutesWithOne(ps: seq<VNode>, vs: seq<VNode>, w: VNode)
    requires forall v :: v in vs ==> v.hash != w.hash
    ensures InsertAll(Insert(ps, w), vs) == Insert(InsertAll(ps, vs), w)
  {
    if vs != [] {
      InsertAllCommutesWithOne(ps, vs[..|vs| - 1], w);
      InsertsCommute(InsertAll(ps, vs[..|vs| - 1]), w, vs[|vs| - 1]);
    }
  }

  lemma {:induction false} InsertAllsCommute(ps: seq<VNode>, vs: seq<VNode>, ws: seq<VNode>)
    requires forall v, w :: v in vs && w in ws ==> v.hash != w.hash
    ensures InsertAll(InsertAll(ps, vs), ws) == InsertAll(InsertAll(ps, ws), vs)
  {
    if ws != [] {
      var rest, w := ws[..|ws| - 1], ws[|ws| - 1];
      InsertAllsCommute(ps, vs, rest);
      InsertAllCommutesWithOne(InsertAll(ps, rest), vs, w);
    }
  }

  /** The order in which two nodes join any ring is invisible exactly when they share no hash, whatever the nodes there
      share with each other or with them. */
  lemma JoinOrderIsInvisibleIffNoCollision(c: Config, s: State, a: string, b: string)
    requires Sorted(s.positions) && a != b && a !in s.nodes && b !in s.nodes
    ensures Add(c, Add(c, s, a), b) == Add(c, Add(c, s, b), a) <==> !Collide(c, a, b)
  {
    if Collide(c, a, b) {
      CollidingJoinsDiffer(c, s, a, b);
    } else {
      InsertAllsCommute(s.positions, Vnodes(c, a), Vnodes(c, b));
      assert s.nodes + {a} + {b} == s.nodes + {b} + {a};
    }
  }

  lemma AddKeepsSorted(c: Config, s: State, n: string)
    requires Sorted(s.positions)
    ensures Sorted(Add(c, s, n).positions)
  {
    InsertAllKeepsSorted(s.positions, Vnodes(c, n));
  }

  lemma CollidingJoinsDiffer(c: Config, s: State, a: string, b: string)
    requires Sorted(s.positions) && a != b && a !in s.nodes && b !in s.nodes && Collide(c, a, b)
    ensures Add(c, Add(c, s, a), b) != Add(c, Add(c, s, b), a)
  {
    var v, w :| v in Vnodes(c, a) && w in Vnodes(c, b) && v.hash == w.hash;
    AddKeepsSorted(c, s, a);
    AddKeepsSorted(c, s, b);
    JoinTakesTheSlot(c, Add(c, s, a), b, w);
    JoinTakesTheSlot(c, Add(c, s, b), a, v);
  }

  lemma JoinTakesTheSlot(c: Config, s: State, n: string, v: VNode)
    requires n !in s.nodes && v in Vnodes(c, n) && Sorted(s.positions)
    ensures var ps := Add(c, s, n).positions; var i := LowerBound(ps, v.hash); i < |ps| && ps[i].nodeId == n
  {
    LastInsertedComesFirst(s.positions, Vnodes(c, n), n, v.hash);
  }

  /** All the histories that end in this membership end in the same array. */
  ghost predicate HistoriesAgree(c: Config, nodes: set<string>) {
    forall changes, others ::
      After(c, changes).nodes == nodes && After(c, others).nodes == nodes ==> After(c, changes) == After(c, others)
  }

  lemma {:induction false} SomeHistory(c: Config, nodes: set<string>) returns (changes: seq<Change>)
    ensures After(c, changes).nodes == nodes
    decreases |nodes|
  {
    if nodes == {} {
      changes := [];
    } else {
      var n :| n in nodes;
      changes := SomeHistory(c, nodes - {n});
      JoinLast(c, changes, n);
      changes := changes + [Join(n)];
    }
  }

  lemma JoinLast(c: Config, changes: seq<Change>, n: string)
    ensures After(c, changes + [Join(n)]) == Add(c, After(c, changes), n)
  {
    assert (changes + [Join(n)])[..|changes|] == changes;
  }

  lemma JoinTwo(c: Config, before: seq<Change>, a: string, b: string)
    ensures After(c, before + [Join(a)] + [Join(b)]) == Add(c, Add(c, After(c, before), a), b)
    ensures After(c, before + [Join(a)] + [Join(b)]).nodes == After(c, before).nodes + {a, b}
  {
    JoinLast(c, before, a);
    JoinLast(c, before + [Join(a)], b);
  }

  lemma CollisionsShow(c: Config, nodes: set<string>, a: string, b: string)
    requires a in nodes && b in nodes && a != b && Collide(c, a, b)
    ensures !HistoriesAgree(c, nodes)
  {
    var before := SomeHistory(c, nodes - {a, b});
    EveryHistoryIsConsistent(c, before);
    JoinTwo(c, before, a, b);
    JoinTwo(c, before, b, a);
    CollidingJoinsDiffer(c, After(c, before), a, b);
    assert nodes - {a, b} + {a, b} == nodes == nodes - {a, b} + {b, a};
    TheyDisagree(c, nodes, before + [Join(a)] + [Join(b)], before + [Join(b)] + [Join(a)]);
  }

  lemma TheyDisagree(c: Config, nodes: set<string>, changes: seq<Change>, others: seq<Change>)
    requires After(c, changes).nodes == nodes && After(c, others).nodes == nodes && After(c, changes) != After(c, others)
    ensures !HistoriesAgree(c, nodes)
  {}

  /** The array is a function of the membership if and only if no two members share a hash. */
  lemma HistoriesAgreeIffNoCollisions(c: Config, nodes: set<string>)
    ensures HistoriesAgree(c, nodes) <==> NoCollisions(c, nodes)
  {
    if NoCollisions(c, nodes) {
      forall changes, others | After(c, changes).nodes == nodes && After(c, others).nodes == nodes
        ensures After(c, changes) == After(c, others)
      {
        HistoriesDoNotMatter(c, changes, others);
      }
    } else {
      var a, b :| a in nodes && b in nodes && a != b && Collide(c, a, b);
      CollisionsShow(c, nodes, a, b);
    }
  }

  // ---------- lookups ----------

  /** A walk meets a node exactly when the node owns a position. */
  lemma WalkMeetsOwners(ps: seq<VNode>, h: int, n: string)
    ensures n in Clockwise(ps, h) <==> exists v :: v in ps && v.nodeId == n
  {
    var i := LowerBound(ps, h);
    var turn := ps[i..] + ps[..i];
    assert ps == ps[..i] + ps[i..];
    if n in Clockwise(ps, h) {
      var k :| 0 <= k < |turn| && Owners(turn)[k] == n;
      assert turn[k] in ps;
    }
    if v :| v in ps && v.nodeId == n {
      assert v in turn;
      var k :| 0 <= k < |turn| && turn[k] == v;
      assert Owners(turn)[k] == n;
    }
  }

  lemma WalkMeetsMember(c: Config, s: State, key: string, n: string)
    requires Consistent(c, s) && c.vnodes >= 1
    ensures n in WalkOrder(c, s, key) <==> n in s.nodes
  {
    DistinctIsFaithful(Clockwise(s.positions, c.hash(key)));
    WalkMeetsOwners(s.positions, c.hash(key), n);
    if n in s.nodes {
      MembersArePlaced(c, s, n);
    }
    if v :| v in s.positions && v.nodeId == n {
      MembersOnly(c, s, v);
    }
  }

  lemma WalkMeetsEveryMember(c: Config, s: State, key: string)
    requires Consistent(c, s) && c.vnodes >= 1
    ensures forall n :: n in WalkOrder(c, s, key) <==> n in s.nodes
  {
    forall n
      ensures n in WalkOrder(c, s, key) <==> n in s.nodes
    {
      WalkMeetsMember(c, s, key, n);
    }
  }

  lemma MembersArePlaced(c: Config, s: State, n: string)
    requires Consistent(c, s) && c.vnodes >= 1 && n in s.nodes
    ensures exists v :: v in s.positions && v.nodeId == n
  {
    var v := Vnodes(c, n)[0];
    assert v in multiset(Vnodes(c, n));
    assert v in multiset(s.positions);
  }

  /** `getNodes` gives min(k, number of nodes) distinct members, and its head is `getNode`. */
  lemma FallbacksAreDistinctMembers(c: Config, s: State, key: string, k: int)
    requires Consistent(c, s) && c.vnodes >= 1
    ensures var f := Fallbacks(c, s, key, k);
            && |f| == (if k <= 0 then 0 else if k < |s.nodes| then k else |s.nodes|)
            && (forall n :: n in f ==> n in s.nodes)
            && (forall i, j :: 0 <= i < j < |f| ==> f[i] != f[j])
            && (k > 0 ==> Owner(c, s, key) == if f == [] then None else Some(f[0]))
  {
    WalkMeetsEveryMember(c, s, key);
    DistinctIsFaithful(Clockwise(s.positions, c.hash(key)));
    DistinctCount(WalkOrder(c, s, key), s.nodes);
  }

  /** After `n` leaves, the walk order of every key is the old one with `n` dropped. */
  lemma WalkOrderAfterLeave(c: Config, s: State, n: string, key: string)
    requires Consistent(c, s)
    ensures WalkOrder(c, Remove(s, n), key) == Drop(WalkOrder(c, s, key), n)
    ensures Fallbacks(c, Remove(s, n), key, |s.nodes|) == Drop(Fallbacks(c, s, key, |s.nodes|), n)
  {
    RemoveKeepsConsistent(c, s, n);
    ClockwiseWithout(s.positions, n, c.hash(key));
    DistinctDrop(Clockwise(s.positions, c.hash(key)), n);
    WalkIsNoLongerThanMembership(c, s, key);
    WalkIsNoLongerThanMembership(c, Remove(s, n), key);
  }

  lemma WalkIsNoLongerThanMembership(c: Config, s: State, key: string)
    requires Consistent(c, s)
    ensures |WalkOrder(c, s, key)| <= |s.nodes|
  {
    var ids := WalkOrder(c, s, key);
    DistinctIsFaithful(Clockwise(s.positions, c.hash(key)));
    forall n | n in ids
      ensures n in s.nodes
    {
      WalkMeetsOwners(s.positions, c.hash(key), n);
      var v :| v in s.positions && v.nodeId == n;
      MembersOnly(c, s, v);
    }
    var met := set n | n in ids;
    DistinctCount(ids, met);
    SubsetIsNoLarger(met, s.nodes);
  }

  lemma OwnerLeadsTheWalk(c: Config, s: State, key: string)
    ensures Owner(c, s, key) == if WalkOrder(c, s, key) == [] then None else Some(WalkOrder(c, s, key)[0])
  {
    DistinctIsFaithful(Clockwise(s.positions, c.hash(key)));
  }

  /** A key whose owner leaves moves to its old second choice; every other key stays where it is. */
  lemma FailoverGoesToTheSecondChoice(c: Config, s: State, n: string, key: string)
    requires Consistent(c, s)
    ensures var order := WalkOrder(c, s, key);
            Owner(c, Remove(s, n), key) ==
            if Owner(c, s, key) != Some(n) then Owner(c, s, key)
            else if |order| >= 2 then Some(order[1]) else None
  {
    WalkOrderAfterLeave(c, s, n, key);
    var order := WalkOrder(c, s, key);
    OwnerLeadsTheWalk(c, s, key);
    OwnerLeadsTheWalk(c, Remove(s, n), key);
    if order != [] && order[0] == n {
      DistinctIsFaithful(Clockwise(s.positions, c.hash(key)));
      DropFirst(order, n);
    }
  }

  // ---------- the class ----------

  class ConsistentHashRing {
    const vnodes: nat
    const hash: string -> int
    var positions: seq<VNode>
    var nodes: set<string>

    ghost function Conf(): Config {
      Config(vnodes, hash)
    }

    ghost function Value(): State
      reads this
    {
      State(positions, nodes)
    }

    ghost predicate Valid()
      reads this
    {
      Consistent(Conf(), Value())
    }

    constructor (vnodes: nat, hash: string -> int)
      ensures Valid() && Value() == EMPTY && Conf() == Config(vnodes, hash)
    {
      this.vnodes := vnodes;
      this.hash := hash;
      positions := [];
      nodes := {};
    }

    method AddNode(nodeId: string)
      requires Valid()
      modifies this
      ensures Valid() && Value() == Add(Conf(), old(Value()), nodeId)
    {
      if nodeId in nodes {
        return;
      }
      nodes := nodes + {nodeId};
      InsertVnodes(nodeId);
      AddKeepsConsistent(Conf(), old(Value()), nodeId);
    }

    /** The insertion loop of `addNode`. */
    method InsertVnodes(nodeId: string)
      requires Sorted(positions)
      modifies this`positions
      ensures positions == InsertAll(old(positions), Vnodes(Conf(), nodeId))
    {
      ghost var vs := Vnodes(Conf(), nodeId);
      for i := 0 to vnodes
        invariant Sorted(positions) && positions == InsertAll(old(positions), vs[..i])
      {
        var h := hash(nodeId + "#" + Decimal(i));
        assert vs[..i + 1][..i] == vs[..i] && vs[i] == VNode(h, nodeId);
        InsertSorted(VNode(h, nodeId));
      }
      assert vs[..vnodes] == vs;
    }

    method RemoveNode(nodeId: string)
      requires Valid()
      modifies this
      ensures Valid() && Value() == Remove(old(Value()), nodeId)
    {
      RemoveKeepsConsistent(Conf(), Value(), nodeId);
      if nodeId !in nodes {
        return;
      }
      nodes := nodes - {nodeId};
      positions := Without(positions, nodeId);
    }

    method GetNode(key: string) returns (owner: Option<string>)
      requires Sorted(positions)
      ensures owner == Owner(Conf(), Value(), key)
    {
      if |positions| == 0 {
        return None;
      }
      var h := hash(key);
      var idx := LowerBoundOf(h);
      ClockwiseAt(positions, h, 0);
      var slot := positions[SlotIndex(idx, 0, |positions|)];
      return Some(slot.nodeId);
    }

    method GetNodes(key: string, k: int) returns (out: seq<string>)
      requires Sorted(positions)
      ensures out == Fallbacks(Conf(), Value(), key, k)
    {
      if |positions| == 0 || k <= 0 {
        assert Fallbacks(Conf(), Value(), key, k) == [];
        return [];
      }
      var h := hash(key);
      var start := LowerBoundOf(h);
      ClockwiseIsWalk(positions, h, start);
      out := WalkFrom(Clockwise(positions, h), start, k);
    }

    /** The loop of `getNodes` from slot `start` on. */
    method WalkFrom(ghost walk: seq<string>, start: nat, k: int) returns (out: seq<string>)
      requires IsWalk(walk, positions, start) && k > 0
      ensures out == Take(Distinct(walk), k)
    {
      NoStopYet(walk);
      var seen: set<string> := {};
      out := [];
      var i := 0;
      while i < |positions| && |out| < k
        invariant 0 <= i <= |positions| && |out| <= k
        invariant out == Met(walk, i)
        invariant SameMembers(seen, out)
      {
        NextStop(walk, i);
        var slot := positions[SlotIndex(start, i, |positions|)];
        assert slot.nodeId == walk[i];
        if slot.nodeId !in seen {
          SameMembersSnoc(seen, out, slot.nodeId);
          seen := seen + {slot.nodeId};
          out := out + [slot.nodeId];
        }
        i := i + 1;
      }
      StoppedWalk(walk, i, k);
    }

    /** The smallest index at or after `h`, by binary search. */
    method LowerBoundOf(h: int) returns (lo: nat)
      requires Sorted(positions)
      ensures lo == LowerBound(positions, h)
    {
      lo := 0;
      var hi := |positions|;
      while lo < hi
        invariant 0 <= lo <= hi <= |positions|
        invariant forall j :: 0 <= j < lo ==> positions[j].hash < h
        invariant forall j :: hi <= j < |positions| ==> h <= positions[j].hash
      {
        var mid := (lo + hi) / 2;
        if positions[mid].hash < h {
          lo := mid + 1;
        } else {
          hi := mid;
        }
      }
      LowerBoundIsUnique(positions, h, lo);
    }

    method InsertSorted(v: VNode)
      requires Sorted(positions)
      modifies this`positions
      ensures positions == Insert(old(positions), v) && Sorted(positions)
    {
      InsertKeepsSorted(positions, v);
      var i := LowerBoundOf(v.hash);
      positions := positions[..i] + [v] + positions[i..];
    }
  }

  ghost predicate SameMembers(seen: set<string>, out: seq<string>) {
    forall x :: x in seen <==> x in out
  }

  lemma SameMembersSnoc(seen: set<string>, out: seq<string>, name: string)
    requires SameMembers(seen, out)
    ensures SameMembers(seen + {name}, out + [name])
  {}

  /** The nodes met in the first `i` stops of a walk. */
  ghost function Met(walk: seq<string>, i: nat): seq<string>
    requires i <= |walk|
  {
    Distinct(walk[..i])
  }

  lemma NoStopYet(walk: seq<string>)
    ensures Met(walk, 0) == []
  {}

  /** Stopping a walk once `k` nodes were met, or at its end, finds the first `k`. */
  lemma StoppedWalk(walk: seq<string>, i: nat, k: int)
    requires i <= |walk| && 0 < k && |Met(walk, i)| <= k
    requires i == |walk| || |Met(walk, i)| == k
    ensures Met(walk, i) == Take(Distinct(walk), k)
  {
    DistinctOfPrefix(walk, i);
    if i == |walk| {
      assert walk[..i] == walk;
    }
  }

  /** `(start + i) % n`, written without the division. */
  function SlotIndex(start: nat, i: nat, n: nat): (j: nat)
    requires start <= n && i < n
    ensures j < n
  {
    if start + i < n then start + i else start + i - n
  }

  lemma SlotIndexIsTheModulus(start: nat, i: nat, n: nat)
    requires start <= n && i < n
    ensures SlotIndex(start, i, n) == (start + i) % n
  {
    if start + i >= n {
      assert start + i == 1 * n + (start + i - n);
    }
  }

  /** The i-th stop of the walk is the slot the modulus picks. */
  lemma ClockwiseAt(ps: seq<VNode>, h: int, i: nat)
    requires i < |ps|
    ensures Clockwise(ps, h)[i] == ps[SlotIndex(LowerBound(ps, h), i, |ps|)].nodeId
  {}

  /** The owners of the slots from `start` on, once around. */
  ghost predicate IsWalk(walk: seq<string>, ps: seq<VNode>, start: nat) {
    && start <= |ps| == |walk|
    && forall i :: 0 <= i < |walk| ==> walk[i] == ps[SlotIndex(start, i, |ps|)].nodeId
  }

  lemma ClockwiseIsWalk(ps: seq<VNode>, h: int, start: nat)
    requires start == LowerBound(ps, h)
    ensures IsWalk(Clockwise(ps, h), ps, start)
  {
    forall i | 0 <= i < |ps|
      ensures Clockwise(ps, h)[i] == ps[SlotIndex(start, i, |ps|)].nodeId
    {
      ClockwiseAt(ps, h, i);
    }
  }

  /** One more step of the walk. */
  lemma NextStop(walk: seq<string>, i: nat)
    requires i < |walk|
    ensures Met(walk, i + 1) == if walk[i] in Met(walk, i) then Met(walk, i) else Met(walk, i) + [walk[i]]
  {
    assert walk[..i + 1] == walk[..i] + [walk[i]];
    DistinctSnoc(walk[..i], walk[i]);
  }
}
