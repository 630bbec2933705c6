/**
 The metrics registry: counters and histograms in maps keyed by the printed label set. Observed values
 are exact numbers; `sumS` and the printing of numbers are not modelled.
 */
module Metrics {
  import opened Labels
  import opened LabelPrints

  /** The upper bounds, in seconds. */
  const BUCKETS: seq<real> := [0.005, 0.01, 0.025, 0.05, 0.1, 0.25, 0.5, 1.0, 2.5, 5.0, 10.0]

  datatype Series = Series(bucketCounts: seq<nat>, count: nat)

  const NOTHING := Series([0, 0, 0, 0, 0, 0, 0, 0, 0, 0, 0], 0)

  // ---------- what a histogram stands for ----------

  function CountAtMost(values: seq<real>, bound: real): nat {
    if values == [] then 0
    else CountAtMost(values[..|values| - 1], bound) + if values[|values| - 1] <= bound then 1 else 0
  }

  /** The histogram of a list of observations. */
  ghost predicate Describes(s: Series, values: seq<real>) {
    && |s.bucketCounts| == |BUCKETS| && s.count == |values|
    && forall i :: 0 <= i < |BUCKETS| ==> s.bucketCounts[i] == CountAtMost(values, BUCKETS[i])
  }

  function Observe(s: Series, value: real): (r: Series)
    requires |s.bucketCounts| == |BUCKETS|
  {
    Series(seq(|BUCKETS|, i requires 0 <= i < |BUCKETS| => s.bucketCounts[i] + if value <= BUCKETS[i] then 1 else 0),
           s.count + 1)
  }

  lemma ObserveDescribes(s: Series, values: seq<real>, value: real)
    requires Describes(s, values)
    ensures Describes(Observe(s, value), values + [value])
  {}

  lemma NothingDescribesNothing()
    ensures Describes(NOTHING, [])
  {}

  lemma {:induction false} CountsGrowWithTheBound(values: seq<real>, a: real, b: real)
    requires a <= b
    ensures CountAtMost(values, a) <= CountAtMost(values, b) <= |values|
  {
    if values != [] {
      CountsGrowWithTheBound(values[..|values| - 1], a, b);
    }
  }

  /** Buckets are cumulative: they never decrease and never exceed the count. */
  lemma BucketsAreCumulative(s: Series, values: seq<real>)
    requires Describes(s, values)
    ensures forall i, j :: 0 <= i <= j < |s.bucketCounts| ==> s.bucketCounts[i] <= s.bucketCounts[j] <= s.count
  {
    forall i, j | 0 <= i <= j < |BUCKETS|
      ensures s.bucketCounts[i] <= s.bucketCounts[j] <= s.count
    {
      assert BUCKETS[i] <= BUCKETS[j];
      CountsGrowWithTheBound(values, BUCKETS[i], BUCKETS[j]);
    }
  }

  /** The eleven buckets of a histogram, by their bounds in seconds. */
  lemma BucketsByBound(s: Series, values: seq<real>)
    requires Describes(s, values)
    ensures s.bucketCounts ==
            [CountAtMost(values, 0.005), CountAtMost(values, 0.01), CountAtMost(values, 0.025), CountAtMost(values, 0.05),
             CountAtMost(values, 0.1), CountAtMost(values, 0.25), CountAtMost(values, 0.5), CountAtMost(values, 1.0),
             CountAtMost(values, 2.5), CountAtMost(values, 5.0), CountAtMost(values, 10.0)]
  {}

  // ---------- rendering ----------

  /** One exposition line. */
  datatype Sample = Sample(name: string, labels: string, value: nat)

  ghost function BoundText(leText: real -> string, i: nat): string
    requires i <= |BUCKETS|
  {
    if i == |BUCKETS| then "+Inf" else leText(BUCKETS[i])
  }

  /** The bucket and count lines of one histogram series; `leText` prints a bound. */
  method RenderSeries(name: string, labels: string, s: Series, leText: real -> string) returns (out: seq<Sample>)
    requires |s.bucketCounts| == |BUCKETS|
    ensures |out| == |BUCKETS| + 2
    ensures forall i :: 0 <= i <= |BUCKETS| ==>
              out[i] == Sample(name + "_bucket", WithLe(labels, BoundText(leText, i)),
                               if i == |BUCKETS| then s.count else s.bucketCounts[i])
    ensures out[|BUCKETS| + 1] == Sample(name + "_count", labels, s.count)
  {
    out := [];
    for i := 0 to |BUCKETS|
      invariant |out| == i
      invariant forall j :: 0 <= j < i ==>
                  out[j] == Sample(name + "_bucket", WithLe(labels, BoundText(leText, j)), s.bucketCounts[j])
    {
      out := out + [Sample(name + "_bucket", WithLe(labels, leText(BUCKETS[i])), s.bucketCounts[i])];
    }
    out := out + [Sample(name + "_bucket", WithLe(labels, "+Inf"), s.count)];
    out := out + [Sample(name + "_count", labels, s.count)];
  }

  /** The bounds print differently and need no escaping. */
  ghost predicate PrintsBounds(leText: real -> string) {
    && (forall i :: 0 <= i <= |BUCKETS| ==> EscapeEach(BoundText(leText, i)) == BoundText(leText, i))
    && (forall i, j :: 0 <= i < j <= |BUCKETS| ==> BoundText(leText, i) != BoundText(leText, j))
  }

  /** No two bucket lines of a registry carry the same labels, whether they belong to one series or to two. */
  lemma BucketLinesAreDistinct(a: LabelSet, b: LabelSet, leText: real -> string, i: nat, j: nat)
    requires Separate(a.Keys + b.Keys + {"le"})
    requires PrintsBounds(leText) && i <= |BUCKETS| && j <= |BUCKETS|
    ensures WithLe(Serialise(a), BoundText(leText, i)) == WithLe(Serialise(b), BoundText(leText, j))
       <==> a == b && i == j
  {
    var p, q := Label("le", BoundText(leText, i)), Label("le", BoundText(leText, j));
    WithLeOfBraced(Sorted(a), p.value);
    WithLeOfBraced(Sorted(b), q.value);
    SortedDetermines(a, b);
    SortedDetermines(b, a);
    NamesInSnoc(Sorted(a), p, a.Keys, a.Keys + b.Keys + {"le"});
    NamesInSnoc(Sorted(b), q, b.Keys, a.Keys + b.Keys + {"le"});
    SeparateBracesDiffer(Sorted(a) + [p], Sorted(b) + [q], a.Keys + b.Keys + {"le"});
    LastOfBoth(Sorted(a), p, Sorted(b), q);
    assert BoundText(leText, i) == BoundText(leText, j) ==> i == j;
  }

  lemma NamesInSnoc(ls: seq<Label>, l: Label, some: set<string>, names: set<string>)
    requires NamesIn(ls, some) && some <= names && l.name in names
    ensures NamesIn(ls + [l], names)
  {}

  lemma LastOfBoth(ps: seq<Label>, p: Label, qs: seq<Label>, q: Label)
    ensures ps + [p] == qs + [q] <==> ps == qs && p == q
  {
    if ps + [p] == qs + [q] {
      assert (ps + [p])[|ps|] == p && (qs + [q])[|qs|] == q && |ps| == |qs|;
      assert (ps + [p])[..|ps|] == ps && (qs + [q])[..|qs|] == qs;
    }
  }

  // ---------- the registry ----------

  /** A metric and a printed label set: the two levels of map keys. */
  type SeriesKey = (string, string)

  lemma OthersHaveOtherKeys(labels: LabelSet)
    ensures forall ls: LabelSet :: Separate(ls.Keys + labels.Keys) && ls != labels ==> Serialise(ls) != Serialise(labels)
  {
    forall ls: LabelSet | Separate(ls.Keys + labels.Keys) && ls != labels
      ensures Serialise(ls) != Serialise(labels)
    {
      SeparateSeriesAreDistinct(ls, labels);
    }
  }

  class MetricsService {
    var counters: map<SeriesKey, int>
    var histograms: map<SeriesKey, Series>
    /** Every observation made so far, per series. */
    ghost var observed: map<SeriesKey, seq<real>>

    ghost predicate Valid()
      reads this
    {
      && histograms.Keys == observed.Keys
      && forall k :: k in histograms ==> Describes(histograms[k], observed[k])
    }

    constructor ()
      ensures Valid() && counters == map[] && histograms == map[] && observed == map[]
    {
      counters := map[];
      histograms := map[];
      observed := map[];
    }

    ghost function Counter(name: string, labels: LabelSet): int
      reads this
    {
      var k := (name, Serialise(labels));
      if k in counters then counters[k] else 0
    }

    ghost function Observations(name: string, labels: LabelSet): seq<real>
      reads this
    {
      var k := (name, Serialise(labels));
      if k in observed then observed[k] else []
    }

    /** Adds to this label set's counter, and to no other counter unless a name and its mark begin another name. */
    method Inc(name: string, labels: LabelSet, amount: int)
      modifies this`counters
      ensures Counter(name, labels) == old(Counter(name, labels)) + amount
      ensures forall n: string, ls: LabelSet {:trigger Counter(n, ls)} ::
                (n != name || (Separate(ls.Keys + labels.Keys) && ls != labels)) ==> Counter(n, ls) == old(Counter(n, ls))
    {
      OthersHaveOtherKeys(labels);
      var k := (name, Serialise(labels));
      counters := counters[k := (if k in counters then counters[k] else 0) + amount];
    }

    /** Every histogram keeps describing exactly the observations made under its own label set, or under one that
        prints like it. */
    method ObserveHistogram(name: string, value: real, labels: LabelSet)
      requires Valid()
      modifies this`histograms, this`observed
      ensures Valid()
      ensures Observations(name, labels) == old(Observations(name, labels)) + [value]
      ensures forall n: string, ls: LabelSet {:trigger Observations(n, ls)} ::
                (n != name || (Separate(ls.Keys + labels.Keys) && ls != labels)) ==> Observations(n, ls) == old(Observations(n, ls))
    {
      OthersHaveOtherKeys(labels);
      var k := (name, Serialise(labels));
      var s := if k in histograms then histograms[k] else NOTHING;
      ghost var values := if k in observed then observed[k] else [];
      NothingDescribesNothing();
      ObserveDescribes(s, values, value);
      var r := CountUp(s, value);
      histograms := histograms[k := r];
      observed := observed[k := values + [value]];
    }

    /** The loop over the bounds. */
    static method CountUp(s: Series, value: real) returns (r: Series)
      requires |s.bucketCounts| == |BUCKETS|
      ensures r == Observe(s, value)
    {
      r := s.(count := s.count + 1);
      for i := 0 to |BUCKETS|
        invariant |r.bucketCounts| == |BUCKETS| && r.count == s.count + 1
        invariant forall j :: 0 <= j < |BUCKETS| ==>
                    r.bucketCounts[j] == s.bucketCounts[j] + if j < i && value <= BUCKETS[j] then 1 else 0
      {
        if value <= BUCKETS[i] {
          r := r.(bucketCounts := r.bucketCounts[i := r.bucketCounts[i] + 1]);
        }
      }
    }
  }
}
