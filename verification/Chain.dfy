/**
 Left folds whose step never merges: from different running values, or over different items, it
 arrives at different values.
 */
module Chain {

  function Run<W, B>(step: (W, B) -> W, start: W, items: seq<B>): W {
    if items == [] then start else step(Run(step, start, items[..|items| - 1]), items[|items| - 1])
  }

  ghost predicate NeverMerges<W(!new), B(!new)>(step: (W, B) -> W) {
    forall g, b, h, c :: step(g, b) == step(h, c) ==> (b == c ==> g == h) && (g == h ==> b == c)
  }

  lemma {:induction false} ExtendedRun<W, B>(step: (W, B) -> W, start: W, items: seq<B>, n: nat)
    requires n < |items|
    ensures Run(step, start, items[..n + 1]) == step(Run(step, start, items[..n]), items[n])
  {
    assert items[..n + 1][..n] == items[..n];
  }

  /** Two item lists that agree everywhere but perhaps at `i` are told apart exactly when they differ there. */
  lemma {:induction false} OneItemDecides<W(!new), B(!new)>(step: (W, B) -> W, start: W, s: seq<B>, t: seq<B>, i: nat)
    requires NeverMerges(step)
    requires |s| == |t| && i < |s|
    requires forall j :: 0 <= j < |s| && j != i ==> s[j] == t[j]
    ensures Run(step, start, s) == Run(step, start, t) <==> s[i] == t[i]
  {
    var last := |s| - 1;
    var g, h := Run(step, start, s[..last]), Run(step, start, t[..last]);
    if i == last {
      assert s[..last] == t[..last];
      assert step(g, s[i]) == step(h, t[i]) ==> s[i] == t[i];
    } else {
      OneItemDecides(step, start, s[..last], t[..last], i);
      assert step(g, s[last]) == step(h, t[last]) ==> g == h;
    }
  }

  lemma {:induction false} RunConcat<W, B>(step: (W, B) -> W, start: W, a: seq<B>, b: seq<B>)
    ensures Run(step, start, a + b) == Run(step, Run(step, start, a), b)
  {
    if b == [] {
      assert a + b == a;
    } else {
      var last := |b| - 1;
      assert (a + b)[..|a + b| - 1] == a + b[..last];
      RunConcat(step, start, a, b[..last]);
    }
  }

  /** The same items after different running values never bring them together. */
  lemma {:induction false} SameItemsKeepApart<W(!new), B(!new)>(step: (W, B) -> W, g: W, h: W, items: seq<B>)
    requires NeverMerges(step)
    ensures Run(step, g, items) == Run(step, h, items) <==> g == h
  {
    if items != [] {
      var rest, last := items[..|items| - 1], items[|items| - 1];
      SameItemsKeepApart(step, g, h, rest);
      assert step(Run(step, g, rest), last) == step(Run(step, h, rest), last) ==> Run(step, g, rest) == Run(step, h, rest);
    }
  }
}
