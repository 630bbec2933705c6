/**
 The matcher's ownership filter: each replica builds its own ring from the membership list it was
 started with and keeps a location message only when that ring names the replica itself. During a
 rollout some replicas still list a replica `n` and some no longer do.
 */
module ReplicaOwnership {
  import opened Options
  import opened Positions
  import opened Ring

  // ---------- building and filtering ----------

  function Build(c: Config, replicas: seq<string>): State {
    if replicas == [] then EMPTY else Add(c, Build(c, replicas[..|replicas| - 1]), replicas[|replicas| - 1])
  }

  method BuildReplicaRing(replicas: seq<string>, vnodes: nat, hash: string -> int) returns (ring: ConsistentHashRing)
    ensures fresh(ring) && ring.Valid()
    ensures ring.Conf() == Config(vnodes, hash) && ring.Value() == Build(Config(vnodes, hash), replicas)
  {
    ring := new ConsistentHashRing(vnodes, hash);
    for i := 0 to |replicas|
      invariant fresh(ring) && ring.Valid() && ring.Conf() == Config(vnodes, hash)
      invariant ring.Value() == Build(Config(vnodes, hash), replicas[..i])
    {
      assert replicas[..i + 1][..i] == replicas[..i];
      ring.AddNode(replicas[i]);
    }
    assert replicas[..|replicas|] == replicas;
  }

  /** Whether the handler goes on to process the message; `key` is absent on a message without one. */
  method HandleLocation(ring: ConsistentHashRing, selfId: string, key: Option<string>, hasValue: bool)
    returns (processed: bool)
    requires ring.Valid()
    ensures processed <==> hasValue && key.Some? && Owner(ring.Conf(), ring.Value(), key.value) == Some(selfId)
  {
    if !hasValue || key.None? {
      return false;
    }
    var owner := ring.GetNode(key.value);
    return owner == Some(selfId);
  }

  lemma {:induction false} BuildIsConsistent(c: Config, replicas: seq<string>)
    ensures Consistent(c, Build(c, replicas))
    ensures Build(c, replicas).nodes == set r | r in replicas
  {
    if replicas != [] {
      var rest, r := replicas[..|replicas| - 1], replicas[|replicas| - 1];
      assert replicas == rest + [r];
      BuildIsConsistent(c, rest);
      AddKeepsConsistent(c, Build(c, rest), r);
    }
  }

  /** Leaving `n` out of the list builds the ring that building the whole list and removing `n` gives. */
  lemma {:induction false} BuildWithoutIsRemove(c: Config, replicas: seq<string>, n: string)
    ensures Build(c, Drop(replicas, n)) == Remove(Build(c, replicas), n)
  {
    if replicas != [] {
      var rest, r := replicas[..|replicas| - 1], replicas[|replicas| - 1];
      assert replicas == rest + [r];
      DropSnoc(rest, r, n);
      BuildWithoutIsRemove(c, rest, n);
      BuildIsConsistent(c, rest);
      AddCommutesWithRemove(c, Build(c, rest), r, n);
      if r != n {
        assert Drop(replicas, n)[..|Drop(replicas, n)| - 1] == Drop(rest, n);
      }
    }
  }

  lemma AddCommutesWithRemove(c: Config, s: State, r: string, n: string)
    requires Consistent(c, s)
    ensures Remove(Add(c, s, r), n) == if r == n then Remove(s, n) else Add(c, Remove(s, n), r)
  {
    WithoutInsertAll(s.positions, Vnodes(c, r), r, n);
    if r == n && n !in s.nodes {
      AddThenRemoveRestores(c, s, n);
    }
    assert r != n ==> s.nodes + {r} - {n} == s.nodes - {n} + {r};
    assert n in s.nodes && r == n ==> Add(c, s, r) == s;
  }

  // ---------- mixed views ----------

  /** The ring each running replica looks keys up in. */
  type Views = map<string, State>

  ghost predicate Mixed(full: State, n: string, views: Views) {
    forall r :: r in views ==> views[r] == full || views[r] == Remove(full, n)
  }

  ghost predicate Processes(c: Config, views: Views, r: string, key: string) {
    r in views && Owner(c, views[r], key) == Some(r)
  }

  /** Whatever the mix, a key whose owner is not `n` is processed by its owner alone. */
  lemma StableKeysHaveOneProcessor(c: Config, full: State, n: string, views: Views, key: string, owner: string)
    requires Consistent(c, full) && Mixed(full, n, views)
    requires Owner(c, full, key) == Some(owner) && owner != n
    ensures forall r :: Processes(c, views, r, key) <==> r == owner && owner in views
  {
    FailoverGoesToTheSecondChoice(c, full, n, key);
  }

  /** A key that `n` owned is processed by `n` while `n` still lists itself, and by the second choice
      once that one no longer lists `n`; by nobody else. */
  lemma MovingKeysProcessors(c: Config, full: State, n: string, views: Views, key: string)
    requires Consistent(c, full) && Mixed(full, n, views)
    requires Owner(c, full, key) == Some(n)
    ensures var order := WalkOrder(c, full, key);
            forall r :: Processes(c, views, r, key) <==>
              || (r == n && n in views && views[n] == full)
              || (|order| >= 2 && r == order[1] && r in views && views[r] == Remove(full, n))
  {
    FailoverGoesToTheSecondChoice(c, full, n, key);
    OwnerIsAMember(c, full, key);
    DistinctIsFaithful(Clockwise(full.positions, c.hash(key)));
    OwnerLeadsTheWalk(c, full, key);
    assert Remove(full, n).nodes != full.nodes;
  }

  lemma OwnerIsAMember(c: Config, s: State, key: string)
    requires Consistent(c, s) && Owner(c, s, key).Some?
    ensures Owner(c, s, key).value in s.nodes
  {}

  /** Two replicas never both process a key unless one of them is the replica being rolled out. */
  lemma NoDoubleProcessing(c: Config, full: State, n: string, views: Views, key: string, q: string, r: string)
    requires Consistent(c, full) && Mixed(full, n, views)
    requires Processes(c, views, q, key) && Processes(c, views, r, key) && q != n && r != n
    ensures q == r
  {
    FailoverGoesToTheSecondChoice(c, full, n, key);
    if Owner(c, full, key) == Some(n) {
      MovingKeysProcessors(c, full, n, views, key);
    }
  }

  // ---------- membership lists as deployed ----------

  ghost function ViewsOf(c: Config, lists: map<string, seq<string>>): Views {
    map r | r in lists :: Build(c, lists[r])
  }

  /** Replicas started with the same list, some with `n` struck out, form a mixed view, even if
      virtual nodes collide. */
  lemma SameOrderListsAreMixed(c: Config, all: seq<string>, n: string, lists: map<string, seq<string>>)
    requires forall r :: r in lists ==> lists[r] == all || lists[r] == Drop(all, n)
    ensures Consistent(c, Build(c, all)) && Mixed(Build(c, all), n, ViewsOf(c, lists))
  {
    BuildIsConsistent(c, all);
    BuildWithoutIsRemove(c, all, n);
  }

  /** Without collisions the lists may also be in any order and repeat names. */
  lemma AnyOrderListsAreMixed(c: Config, all: seq<string>, n: string, lists: map<string, seq<string>>)
    requires NoCollisions(c, set r | r in all)
    requires forall r :: r in lists ==>
               (set x | x in lists[r]) == (set x | x in all) || (set x | x in lists[r]) == (set x | x in all) - {n}
    ensures Consistent(c, Build(c, all)) && Mixed(Build(c, all), n, ViewsOf(c, lists))
  {
    var full := Build(c, all);
    BuildIsConsistent(c, all);
    RemoveKeepsConsistent(c, full, n);
    forall r | r in lists
      ensures Build(c, lists[r]) == full || Build(c, lists[r]) == Remove(full, n)
    {
      BuildIsConsistent(c, lists[r]);
      if Build(c, lists[r]).nodes == full.nodes {
        SameMembersSameRing(c, Build(c, lists[r]), full);
      } else {
        SameMembersSameRing(c, Build(c, lists[r]), Remove(full, n));
      }
    }
  }
}
