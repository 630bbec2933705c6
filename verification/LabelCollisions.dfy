/**
 Which label names containing the mark `="` can make two different label sets print alike, beside names without it.
 Such a name reads as the beginning of a printed label list; the same name may occur in both of the sets.
 */
module LabelCollisions {
  import opened Options
  import opened Labels
  import opened LabelPrints

  // ---------- names that read as labels ----------

  /** The name before the first mark. */
  function First(n: string): string {
    if ParseName(n).Some? then ParseName(n).value.0 else n
  }

  /** A value text that lacks nothing but its closing quote. */
  predicate StaysOpen(v: string) {
    ParseValue(v).None? && ParseValue(v + "\"").Some?
  }

  predicate EndsAtComma(v: string) {
    ParseValue(v).Some? && ParseValue(v).value.1 != [] && ParseValue(v).value.1[0] == ','
  }

  function AfterComma(v: string): (r: string)
    requires EndsAtComma(v)
    ensures |r| < |v|
  {
    ParseValueShortens(v);
    ParseValue(v).value.1[1..]
  }

  /** A value text that stays open, or closes before a comma and a name that is greater than `least` and clean or
      reads as labels. */
  predicate ValueThenLabels(v: string, least: string)
    decreases |v|
  {
    || StaysOpen(v)
    || (EndsAtComma(v) && Less(least, First(AfterComma(v))) && (Clean(AfterComma(v)) || ReadsAsLabels(AfterComma(v))))
  }

  /** The name reads as an ascending list of labels with clean names, broken off somewhere. */
  predicate ReadsAsLabels(n: string)
    decreases |n|
  {
    ParseNameShortens(n);
    ParseName(n).Some? && ValueThenLabels(ParseName(n).value.1, ParseName(n).value.0)
  }

  /** After `r` the name `n` can begin anew: `r` and the mark begin `n`, and the rest of `n` reads on from there. */
  predicate Restarts(r: string, n: string) {
    Marks(r, n) && ValueThenLabels(n[|r| + 2..], n)
  }

  /** The same for a text within a list that may also hold the name `n` itself. */
  predicate ReadsBeside(s: string, n: string)
    decreases |s|
  {
    ParseNameShortens(s);
    ParseName(s).Some? &&
    var (u, v) := ParseName(s).value;
    || StaysOpen(v)
    || (EndsAtComma(v) &&
        var r := AfterComma(v);
        || (Less(u, First(r)) && (Clean(r) || ReadsBeside(r, n)))
        || (Less(u, n) && Restarts(r, n)))
  }

  // ---------- what collides reads so ----------

  lemma FirstNamesAgree(n: string, x: string, more: seq<Label>, ls: seq<Label>)
    requires ls != [] && Clean(ls[0].name) && Full([Label(n, x)] + more) == Full(ls)
    ensures ls[0].name == First(n)
    ensures ParseName(n).Some? ==> ParseName(n).value.1 + After(x, more) == Quoted(ls[0].value, Tail(ls[1..]))
  {
    PrintBeginsWith(n, x, more);
    FirstLabelOf(ls);
    CleanHasNoMark(n);
    if Clean(n) {
      NameReads(n, Quoted(x, Tail(more)));
    } else {
      ParseNameOn(n, After(x, more));
    }
  }

  /** A value text that ends a name and is read on as the value `x` and the labels `more`. */
  lemma ValueEnds(v: string, y: string, after: seq<Label>, x: string, more: seq<Label>)
    requires Quoted(x, Tail(more)) == v + After(y, after)
    ensures StaysOpen(v) || (EndsAtComma(v) && more != [] && Full([Label(AfterComma(v), y)] + after) == Full(more))
  {
    ValueReads(x, Tail(more));
    if ParseValue(v).None? {
      ReadsToItsEnd(v, After(y, after));
    } else {
      ParseValueOn(v, After(y, after));
      TailAfterValue(ParseValue(v).value.1, y, after, more);
    }
  }

  /** If those labels are clean and ascending, so does the text read. */
  lemma {:induction false} ValuePartReads(v: string, y: string, after: seq<Label>, x: string, more: seq<Label>, least: string)
    requires Quoted(x, Tail(more)) == v + After(y, after)
    requires NamesAreClean(more) && Ascending(more) && (more != [] ==> Less(least, more[0].name))
    ensures ValueThenLabels(v, least)
    decreases |v|
  {
    ValueEnds(v, y, after, x, more);
    if !StaysOpen(v) {
      ImitationReads(AfterComma(v), y, after, more);
    }
  }

  /** If a list that begins with the name `n` prints like a clean ascending list, then `n` is clean or reads as labels,
      and begins like the first name of that list. */
  lemma {:induction false} ImitationReads(n: string, x: string, more: seq<Label>, ls: seq<Label>)
    requires ls != [] && NamesAreClean(ls) && Ascending(ls)
    requires Full([Label(n, x)] + more) == Full(ls)
    ensures (Clean(n) || ReadsAsLabels(n)) && ls[0].name == First(n)
    decreases |n|
  {
    FirstNamesAgree(n, x, more, ls);
    CleanHasNoMark(n);
    if !Clean(n) {
      ParseNameShortens(n);
      ValuePartReads(ParseName(n).value.1, x, more, ls[0].value, ls[1..], ls[0].name);
    }
  }

  lemma CancelMark(r: string, q: string, n: string, z: string)
    requires Marks(r, n) && r + ("=\"" + q) == n + z
    ensures q == n[|r| + 2..] + z
  {
    assert (r + ("=\"" + q))[|r| + 2..] == q;
    assert (n + z)[|r| + 2..] == n[|r| + 2..] + z;
  }

  lemma RestartReads(r: string, x: string, more: seq<Label>, n: string, y: string, after: seq<Label>)
    requires |r| < |n| && Full([Label(r, x)] + more) == Full([Label(n, y)] + after)
    requires NamesAreClean(more) && Ascending(more) && (more != [] ==> Less(n, more[0].name))
    ensures Restarts(r, n)
  {
    PrintBeginsWith(r, x, more);
    PrintBeginsWith(n, y, after);
    NamesAgree(r, n, Quoted(x, Tail(more)), Quoted(y, Tail(after)));
    CancelMark(r, Quoted(x, Tail(more)), n, After(y, after));
    ValuePartReads(n[|r| + 2..], y, after, x, more, n);
  }

  /** Every name is clean or `n`. */
  ghost predicate CleanBeside(ls: seq<Label>, n: string) {
    forall i :: 0 <= i < |ls| && ls[i].name != n ==> Clean(ls[i].name)
  }

  lemma {:induction false} BesideReads(s: string, n: string, x: string, more: seq<Label>, ls: seq<Label>)
    requires |s| <= |n| && ls != [] && Ascending(ls) && CleanBeside(ls, n) && Clean(ls[0].name)
    requires NamesAreClean(more) && Ascending(more) && (more != [] ==> Less(n, more[0].name))
    requires Full([Label(s, x)] + more) == Full(ls)
    ensures (Clean(s) || ReadsBeside(s, n)) && ls[0].name == First(s)
    decreases |s|, 0
  {
    FirstNamesAgree(s, x, more, ls);
    CleanHasNoMark(s);
    if !Clean(s) {
      var (u, v) := ParseName(s).value;
      ParseNameShortens(s);
      ValueEnds(v, x, more, ls[0].value, ls[1..]);
      if !StaysOpen(v) {
        RestReads(AfterComma(v), n, x, more, ls[1..]);
      }
    }
  }

  /** What follows a comma begins with a clean name, or with `n`. */
  lemma {:induction false} RestReads(r: string, n: string, x: string, more: seq<Label>, ls: seq<Label>)
    requires |r| < |n| && ls != [] && Ascending(ls) && CleanBeside(ls, n)
    requires NamesAreClean(more) && Ascending(more) && (more != [] ==> Less(n, more[0].name))
    requires Full([Label(r, x)] + more) == Full(ls)
    ensures (ls[0].name == First(r) && (Clean(r) || ReadsBeside(r, n))) || (ls[0].name == n && Restarts(r, n))
    decreases |r|, 1
  {
    if Clean(ls[0].name) {
      BesideReads(r, n, x, more, ls);
    } else {
      assert ls == [Label(n, ls[0].value)] + ls[1..];
      RestartReads(r, x, more, n, ls[0].value, ls[1..]);
    }
  }

  lemma RestIsClean(ls: seq<Label>, n: string)
    requires ls != [] && Ascending(ls) && CleanBeside(ls, n) && ls[0].name == n
    ensures NamesAreClean(ls[1..]) && Ascending(ls[1..]) && (ls[1..] != [] ==> Less(n, ls[1..][0].name))
  {
    forall i | 0 <= i < |ls[1..]|
      ensures Clean(ls[1..][i].name)
    {
      AscendingNamesDiffer(ls, 0, i + 1);
    }
  }

  /** One list begins with `n`, the other with a clean name that `n` begins with. */
  lemma FirstDifference(ps: seq<Label>, qs: seq<Label>, n: string)
    requires ps != [] && qs != [] && Full(ps) == Full(qs)
    requires Ascending(ps) && Ascending(qs) && CleanBeside(ps, n) && CleanBeside(qs, n)
    requires Marks(ps[0].name, qs[0].name)
    ensures ReadsBeside(n, n) && (NamesAreClean(ps) ==> ReadsAsLabels(n)) && !NamesAreClean(qs)
  {
    MarkedIsUnclean(ps[0].name, qs[0].name);
    assert qs[0].name == n && |ps[0].name| < |n|;
    RestIsClean(qs, n);
    assert qs == [Label(n, qs[0].value)] + qs[1..];
    BesideReads(n, n, qs[0].value, qs[1..], ps);
    if NamesAreClean(ps) {
      ImitationReads(n, qs[0].value, qs[1..], ps);
    }
  }

  /** Two different lists with one print: `n` reads beside itself, and as labels if it occurs in one of them only. */
  lemma {:induction false} CollidingListsRead(ps: seq<Label>, qs: seq<Label>, n: string)
    requires ps != [] && qs != [] && ps != qs && Full(ps) == Full(qs)
    requires Ascending(ps) && Ascending(qs) && CleanBeside(ps, n) && CleanBeside(qs, n)
    ensures ReadsBeside(n, n) && (NamesAreClean(ps) || NamesAreClean(qs) ==> ReadsAsLabels(n))
  {
    FirstNamesAgreeOrMark(ps, qs);
    if ps[0].name == qs[0].name {
      StripFirst(ps, qs);
      CollidingListsRead(ps[1..], qs[1..], n);
    } else if Marks(ps[0].name, qs[0].name) {
      FirstDifference(ps, qs, n);
    } else {
      FirstDifference(qs, ps, n);
    }
  }

  // ---------- what reads so collides ----------

  const GREATEST: char := '\U{10FFFF}'

  /** A name greater than every shorter one, without anything to escape. */
  function Great(k: nat): string {
    if k == 0 then "" else [GREATEST] + Great(k - 1)
  }

  lemma {:induction false} GreatIsGreater(a: string, k: nat, z: string)
    requires |a| < k
    ensures Less(a, Great(k) + z)
  {
    assert (Great(k) + z)[1..] == Great(k - 1) + z && (Great(k) + z)[0] == GREATEST;
    if a != [] {
      GreatIsGreater(a[1..], k - 1, z);
    }
  }

  lemma {:induction false} GreatIsPlain(k: nat, z: string)
    requires forall i :: 0 <= i < |z| ==> z[i] != '='
    ensures EscapeEach(Great(k)) == Great(k) && Clean(Great(k) + z)
  {
    if k > 0 {
      GreatIsPlain(k - 1, z);
      assert (Great(k) + z)[1..] == Great(k - 1) + z && (Great(k) + z)[0] == GREATEST && Great(k)[1..] == Great(k - 1);
    } else {
      NoEqualsIsClean(z);
      assert Great(0) + z == z;
    }
  }

  lemma {:induction false} NoEqualsIsClean(z: string)
    requires forall i :: 0 <= i < |z| ==> z[i] != '='
    ensures Clean(z)
  {
    if |z| >= 2 {
      NoEqualsIsClean(z[1..]);
    }
  }

  lemma {:induction false} EscapeConcat(a: string, b: string)
    ensures EscapeEach(a + b) == EscapeEach(a) + EscapeEach(b)
  {
    if a == [] {
      assert a + b == b;
    } else {
      assert (a + b)[1..] == a[1..] + b;
      EscapeConcat(a[1..], b);
    }
  }

  lemma LastLabel(name: string)
    ensures Full([Label(name, "")]) == name + "=\"\"}"
  {
    FullUnfolds([Label(name, "")]);
    assert Quoted("", "}") == "\"}";
    assert name + ("=\"" + "\"}") == name + "=\"\"}";
  }

  lemma {:induction false} NoEqualsInGreat(k: nat)
    ensures forall i :: 0 <= i < |Great(k)| ==> Great(k)[i] != '='
  {
    if k > 0 {
      NoEqualsInGreat(k - 1);
    }
  }

  lemma {:induction false} OpenValueIsEscaped(v: string)
    requires ParseValue(v + "\"").Some? && ParseValue(v).None?
    ensures v == EscapeEach(ParseValue(v + "\"").value.0)
  {
    if v != [] {
      var n := if v[0] == '\\' then 2 else 1;
      assert (v + "\"")[0] == v[0] && (|v| == 1 ==> (v + "\"")[1..] == "\"") && (|v| >= 2 ==> (v + "\"")[1] == v[1]);
      if n <= |v| {
        assert (v + "\"")[n..] == v[n..] + "\"";
        OpenValueIsEscaped(v[n..]);
        EscapedHead(ParseValue(v + "\"").value.0[0], ParseValue(v[n..] + "\"").value.0);
        assert v == v[..n] + v[n..];
      }
    }
  }

  const EMPTY_VALUE := "=\"\"}"

  lemma MoveEquals(v: string, t: string)
    ensures (v + "=") + ("\"" + t) == v + ("=\"" + t)
  {}

  lemma MoveName(g: string, end: string)
    ensures "," + ((g + "\"," + g) + end) == ("," + g) + ("\"" + ("," + (g + end)))
  {}

  /** The last label that both sets get. */
  function End(k: nat): seq<Label> {
    [Label(Great(k), "")]
  }

  lemma QuotedWithEquals(w: string, t: string)
    ensures Quoted(w + "=", t) == EscapeEach(w) + ("=\"" + t)
  {
    EscapeConcat(w, "=");
    assert EscapeEach("=") == "=" by { assert "="[1..] == ""; }
    MoveEquals(EscapeEach(w), t);
  }

  lemma AfterTheLast(g: string)
    requires EscapeEach(g) == g
    ensures After("," + g, [Label(g, "")]) == "=\"" + ("," + ((g + "\"," + g) + EMPTY_VALUE))
  {
    LastLabel(g);
    EscapedHead(',', g);
    MoveName(g, EMPTY_VALUE);
  }

  lemma OpenValueImitates(v: string, least: string, k: nat) returns (y: string, x: string, more: seq<Label>)
    requires StaysOpen(v) && |least| < k
    ensures more != [] && NamesAreClean(more) && Ascending(more) && Less(least, more[0].name)
    ensures Quoted(x, Tail(more)) == v + After(y, End(k))
  {
    var w, g := ParseValue(v + "\"").value.0, Great(k);
    y, x, more := "," + g, w + "=", [Label(g + "\"," + g, "")];
    OpenValueIsEscaped(v);
    NoEqualsInGreat(k);
    assert g + "\"," + g == g + ("\"," + g);
    GreatIsPlain(k, "\"," + g);
    GreatIsGreater(least, k, "\"," + g);
    LastLabel(g + "\"," + g);
    QuotedWithEquals(w, Tail(more));
    AfterTheLast(g);
  }

  lemma ReadValue(w: string, rest: string, t: string, more: seq<Label>)
    requires rest != [] && rest[0] == ',' && more != [] && Full(more) == rest[1..] + t
    ensures Quoted(w, Tail(more)) == EscapeEach(w) + "\"" + rest + t
  {
    assert rest == "," + rest[1..];
    Regroup(",", rest[1..], t);
    Regroup(EscapeEach(w) + "\"", rest, t);
    Regroup(EscapeEach(w), "\"", rest + t);
  }

  lemma ReadName(u: string, v: string, x: string, more: seq<Label>, n: string, t: string)
    requires n == u + "=\"" + v && Quoted(x, Tail(more)) == v + t
    ensures Full([Label(u, x)] + more) == n + t
  {
    PrintBeginsWith(u, x, more);
    Regroup(u, "=\"", v + t);
    Regroup(u + "=\"", v, t);
  }

  lemma AscendingCons(l: Label, ls: seq<Label>)
    requires ls != [] && Ascending(ls) && NamesAreClean(ls) && Less(l.name, ls[0].name) && Clean(l.name)
    ensures Ascending([l] + ls) && NamesAreClean([l] + ls)
  {
    assert ([l] + ls)[1..] == ls;
  }

  /** A clean name and the last label after it. */
  lemma CleanRest(r: string, k: nat)
    requires |r| < k
    ensures var ls := [Label(r, "")] + End(k);
            Ascending(ls) && Full(ls) == r + After("", End(k)) && Clean(Great(k)) && NamesAreClean(End(k))
  {
    assert Great(k) + "" == Great(k);
    GreatIsGreater(r, k, "");
    GreatIsPlain(k, "");
    PrintBeginsWith(r, "", End(k));
    assert ([Label(r, "")] + End(k))[1..] == End(k);
  }

  /** A value text of this kind is a value and clean labels after it, once a value and the last label follow. */
  lemma {:induction false} ValueImitates(v: string, least: string, k: nat) returns (y: string, x: string, more: seq<Label>)
    requires ValueThenLabels(v, least) && |v| < k && |least| < k
    ensures more != [] && NamesAreClean(more) && Ascending(more) && Less(least, more[0].name)
    ensures Quoted(x, Tail(more)) == v + After(y, End(k))
    decreases |v|
  {
    if StaysOpen(v) {
      y, x, more := OpenValueImitates(v, least, k);
    } else {
      var rest, r := ParseValue(v).value.1, AfterComma(v);
      x := ParseValue(v).value.0;
      CleanHasNoMark(r);
      ParseValueIsSound(v);
      if Clean(r) {
        y, more := "", [Label(r, "")] + End(k);
        CleanRest(r, k);
      } else {
        y, more := ReadingImitates(r, k);
      }
      ReadValue(x, rest, After(y, End(k)), more);
    }
  }

  /** A name that reads as labels begins the print of a clean list, once a value and the last label follow. */
  lemma {:induction false} ReadingImitates(n: string, k: nat) returns (y: string, ls: seq<Label>)
    requires ReadsAsLabels(n) && |n| < k
    ensures ls != [] && NamesAreClean(ls) && Ascending(ls) && ls[0].name == First(n)
    ensures Full(ls) == n + After(y, End(k))
    decreases |n|
  {
    var (u, v) := ParseName(n).value;
    var x, more;
    ParseNameShortens(n);
    ParseNameIsSound(n);
    y, x, more := ValueImitates(v, u, k);
    ls := [Label(u, x)] + more;
    ReadName(u, v, x, more, n, After(y, End(k)));
    AscendingCons(Label(u, x), more);
  }

  /** A text after which `n` can begin anew begins the print of a list that begins with `n`. */
  lemma RestartImitates(r: string, n: string, k: nat) returns (x: string, more: seq<Label>, y: string)
    requires Restarts(r, n) && |n| < k
    ensures more != [] && NamesAreClean(more) && Ascending(more) && Less(n, more[0].name)
    ensures Full([Label(n, y)] + End(k)) == r + After(x, more)
  {
    var t := n[|r| + 2..];
    assert n == r + "=\"" + t;
    y, x, more := ValueImitates(t, n, k);
    PrintBeginsWith(n, y, End(k));
    PrintBeginsWith(r, x, more);
    ReadName(r, t, x, more, n, After(y, End(k)));
  }

  /** Two lists, the first without its first name `s`: what `s` must be continued with, and what it then spells. */
  ghost predicate Spells(s: string, n: string, x: string, more: seq<Label>, ls: seq<Label>) {
    && more != [] && NamesAreClean(more) && Ascending(more) && Less(n, more[0].name)
    && ls != [] && Ascending(ls) && CleanBeside(ls, n) && ls[0].name == First(s)
    && Full(ls) == s + After(x, more)
  }

  lemma SpellsOneMore(s: string, u: string, v: string, w: string, rest: string, n: string,
                      x: string, more: seq<Label>, ls: seq<Label>)
    requires ParseName(s) == Some((u, v)) && NamedAs(s, u, v) && ReadsAs(v, w, rest) && rest != [] && rest[0] == ','
    requires more != [] && NamesAreClean(more) && Ascending(more) && Less(n, more[0].name)
    requires ls != [] && Ascending(ls) && CleanBeside(ls, n) && Less(u, ls[0].name) && Full(ls) == rest[1..] + After(x, more)
    ensures Spells(s, n, x, more, [Label(u, w)] + ls)
  {
    ReadValue(w, rest, After(x, more), ls);
    ReadName(u, v, w, ls, s, After(x, more));
    assert ([Label(u, w)] + ls)[1..] == ls;
  }

  lemma SpellsOpen(s: string, u: string, v: string, n: string, k: nat) returns (x: string, ls: seq<Label>)
    requires ParseName(s) == Some((u, v)) && NamedAs(s, u, v) && StaysOpen(v) && |s| <= |n| < k
    ensures Spells(s, n, x, End(k), ls)
  {
    var w, more;
    x, w, more := OpenValueImitates(v, u, k);
    ls := [Label(u, w)] + more;
    ReadName(u, v, w, more, s, After(x, End(k)));
    AscendingCons(Label(u, w), more);
    CleanRest(n, k);
  }

  lemma {:induction false} BesideSpells(s: string, n: string, k: nat) returns (x: string, more: seq<Label>, ls: seq<Label>)
    requires ReadsBeside(s, n) && |s| <= |n| < k
    ensures Spells(s, n, x, more, ls)
    decreases |s|
  {
    var (u, v) := ParseName(s).value;
    ParseNameShortens(s);
    ParseNameIsSound(s);
    if StaysOpen(v) {
      more := End(k);
      x, ls := SpellsOpen(s, u, v, n, k);
      CleanRest(n, k);
    } else {
      var (w, rest) := ParseValue(v).value;
      var r := AfterComma(v);
      ParseValueIsSound(v);
      CleanHasNoMark(r);
      if Less(u, First(r)) && Clean(r) {
        x, more, ls := "", End(k), [Label(r, "")] + End(k);
        CleanRest(r, k);
        CleanRest(n, k);
      } else if Less(u, First(r)) && ReadsBeside(r, n) {
        x, more, ls := BesideSpells(r, n, k);
      } else {
        var y;
        x, more, y := RestartImitates(r, n, k);
        ls := [Label(n, y)] + End(k);
        CleanRest(n, k);
      }
      SpellsOneMore(s, u, v, w, rest, n, x, more, ls);
      ls := [Label(u, w)] + ls;
    }
  }

  // ---------- the names that collide ----------

  lemma {:induction false} NameSetIsNames(ls: seq<Label>, name: string)
    requires name in NameSet(ls)
    ensures exists i :: 0 <= i < |ls| && ls[i].name == name
  {
    if name != ls[0].name {
      NameSetIsNames(ls[1..], name);
      var i :| 0 <= i < |ls[1..]| && ls[1..][i].name == name;
      assert ls[i + 1].name == name;
    }
  }

  lemma CleanListCleanMap(ls: seq<Label>, n: string)
    requires CleanBeside(ls, n)
    ensures forall m :: m in ToMap(ls) && m != n ==> Clean(m)
  {
    NamesOfMap(ls);
    forall m | m in ToMap(ls) && m != n
      ensures Clean(m)
    {
      NameSetIsNames(ls, m);
    }
  }

  /** Two different label sets with one print, whose names are all clean or `n`. */
  ghost predicate Colliding(n: string, a: LabelSet, b: LabelSet) {
    && (forall m :: m in a.Keys + b.Keys && m != n ==> Clean(m))
    && a != b && Serialise(a) == Serialise(b)
  }

  lemma CollidingListsCollide(ps: seq<Label>, qs: seq<Label>, n: string)
    requires ps != [] && qs != [] && ps != qs && Full(ps) == Full(qs)
    requires Ascending(ps) && Ascending(qs) && CleanBeside(ps, n) && CleanBeside(qs, n)
    ensures Colliding(n, ToMap(ps), ToMap(qs))
  {
    AscendingPrints(ps);
    AscendingPrints(qs);
    BracedIsFull(ps);
    BracedIsFull(qs);
    CleanListCleanMap(ps, n);
    CleanListCleanMap(qs, n);
  }

  lemma SortedIsCleanBeside(labels: LabelSet, n: string)
    requires forall m :: m in labels && m != n ==> Clean(m)
    ensures CleanBeside(Sorted(labels), n) && Ascending(Sorted(labels))
  {
    SortedNamesAreTheNames(labels.Keys);
    SortedIsAscending(labels, labels.Keys);
  }

  lemma CollidingSetsRead(n: string, a: LabelSet, b: LabelSet)
    requires Colliding(n, a, b)
    ensures ReadsBeside(n, n) && (CleanNames(a) || CleanNames(b) ==> ReadsAsLabels(n))
  {
    SortedIsCleanBeside(a, n);
    SortedIsCleanBeside(b, n);
    SortedDetermines(a, b);
    BracedIsFull(Sorted(a));
    BracedIsFull(Sorted(b));
    if CleanNames(a) {
      SortedPairsAreClean(a);
    }
    if CleanNames(b) {
      SortedPairsAreClean(b);
    }
    CollidingListsRead(Sorted(a), Sorted(b), n);
  }

  lemma ReaderCollides(n: string) returns (a: LabelSet, b: LabelSet)
    requires ReadsBeside(n, n)
    ensures Colliding(n, a, b)
  {
    var x, more, ls := BesideSpells(n, n, |n| + 1);
    var ps := [Label(n, x)] + more;
    ParseNameIsSound(n);
    CleanHasNoMark(n);
    PrintBeginsWith(n, x, more);
    assert ps[1..] == more;
    a, b := ToMap(ps), ToMap(ls);
    CollidingListsCollide(ps, ls, n);
  }

  /** Beside names without the mark, a name can make two label sets collide, in either or both of which it occurs,
      exactly when it reads as labels beside itself. */
  lemma NameCollidesIffItReadsBesideItself(n: string)
    ensures (exists a: LabelSet, b: LabelSet :: Colliding(n, a, b)) <==> ReadsBeside(n, n)
  {
    if ReadsBeside(n, n) {
      var a, b := ReaderCollides(n);
    }
    if a: LabelSet, b: LabelSet :| Colliding(n, a, b) {
      CollidingSetsRead(n, a, b);
    }
  }

  lemma ReaderImitates(n: string) returns (a: LabelSet, b: LabelSet)
    requires ReadsAsLabels(n)
    ensures Colliding(n, a, b) && CleanNames(b)
  {
    var k := |n| + 1;
    var y, ls := ReadingImitates(n, k);
    var ps := [Label(n, y)] + End(k);
    ParseNameIsSound(n);
    CleanHasNoMark(n);
    CleanRest(n, k);
    PrintBeginsWith(n, y, End(k));
    assert ps[1..] == End(k);
    a, b := ToMap(ps), ToMap(ls);
    CollidingListsCollide(ps, ls, n);
    CleanListCleanMap(ls, First(n));
  }

  /** It can make a label set print like one whose names are all clean exactly when it reads as labels without itself. */
  lemma NameImitatesIffItReadsAsLabels(n: string)
    ensures (exists a: LabelSet, b: LabelSet :: Colliding(n, a, b) && CleanNames(b)) <==> ReadsAsLabels(n)
  {
    if ReadsAsLabels(n) {
      var a, b := ReaderImitates(n);
    }
    if a: LabelSet, b: LabelSet :| Colliding(n, a, b) && CleanNames(b) {
      CollidingSetsRead(n, a, b);
    }
  }

  // ---------- collisions ----------

  /** Any two labels print like one label whose name spells the first of them out. */
  lemma TwoLabelsPrintLikeOne(l: Label, m: Label)
    requires Less(l.name, m.name)
    ensures Serialise(map[l.name := l.value, m.name := m.value]) == Serialise(map[Part(l) + "," + m.name := m.value])
  {
    var v, n := EscapeEach(l.value) + "\"" + ("," + m.name), Part(l) + "," + m.name;
    ThreePassesAreOne(l.value);
    SpellsOut(l.name, EscapeEach(l.value), m.name);
    TwoLabelsPrint(l, m);
    OneLabelPrints(Label(n, m.value));
    PrintBeginsWith(m.name, m.value, []);
    PrintBeginsWith(n, m.value, []);
    assert [m] + [] == [m] && [Label(n, m.value)] + [] == [Label(n, m.value)];
    assert ("," + m.name)[1..] == m.name;
    ReadValue(l.value, "," + m.name, After(m.value, []), [m]);
    ReadName(l.name, v, l.value, [m], n, After(m.value, []));
  }

  lemma SpellsOut(u: string, e: string, r: string)
    ensures u + "=\"" + e + "\"" + "," + r == u + "=\"" + (e + "\"" + ("," + r))
  {}

  /** A name that spells out a label and begins anew after it. */
  function Odd(u: string, v: string): string {
    u + "=\"" + OddValue(u, v)
  }

  function OddValue(u: string, v: string): string {
    "," + v + "=" + "\"" + ("," + (u + "=\"" + ("," + v)))
  }

  /** Nothing in the name needs escaping or looks like a mark. */
  predicate Plain(name: string) {
    Clean(name) && EscapeEach(name) == name
  }

  lemma PlainValue(name: string)
    requires Plain(name)
    ensures EscapeEach("," + name + "=") == "," + name + "="
  {
    EscapeConcat("," + name, "=");
    EscapeConcat(",", name);
    assert EscapeEach("=") == "=" by { assert "="[1..] == ""; }
    assert EscapeEach(",") == "," by { assert ","[1..] == ""; }
  }

  lemma OddTexts(u: string, v: string, z: string)
    ensures Odd(u, v) + ("=\"" + ("," + u + "=" + ("\"" + ("," + (v + z))))) ==
            u + ("=\"" + ("," + v + "=" + ("\"" + ("," + (Odd(u, v) + z)))))
  {}

  lemma OddPrints(u: string, v: string, y: string)
    requires Plain(u) && Plain(v)
    ensures Full([Label(Odd(u, v), "," + u + "=")] + [Label(v, y)]) == Full([Label(u, "," + v + "=")] + [Label(Odd(u, v), y)])
  {
    var n, m, q := Odd(u, v), [Label(v, y)], [Label(Odd(u, v), y)];
    PrintBeginsWith(n, "," + u + "=", m);
    PrintBeginsWith(u, "," + v + "=", q);
    PrintBeginsWith(v, y, []);
    PrintBeginsWith(n, y, []);
    assert m + [] == m && q + [] == q;
    PlainValue(u);
    PlainValue(v);
    OddTexts(u, v, After(y, []));
  }

  lemma {:induction false} LessThanLonger(u: string, z: string)
    requires z != []
    ensures Less(u, u + z)
  {
    if u != [] {
      assert (u + z)[1..] == u[1..] + z;
      LessThanLonger(u[1..], z);
    }
  }

  lemma OddLists(n: string, u: string, v: string, x: string, w: string, y: string)
    requires Less(n, v) && Less(u, n) && u != n && Clean(u) && Clean(v)
    requires Full([Label(n, x)] + [Label(v, y)]) == Full([Label(u, w)] + [Label(n, y)])
    ensures Colliding(n, map[n := x, v := y], map[u := w, n := y])
  {
    TwoLabelsPrint(Label(n, x), Label(v, y));
    TwoLabelsPrint(Label(u, w), Label(n, y));
    assert ([Label(n, x)] + [Label(v, y)])[0] != ([Label(u, w)] + [Label(n, y)])[0];
    PairIsCleanBeside(Label(n, x), Label(v, y), n);
    PairIsCleanBeside(Label(u, w), Label(n, y), n);
    CollidingListsCollide([Label(n, x)] + [Label(v, y)], [Label(u, w)] + [Label(n, y)], n);
  }

  lemma PairIsCleanBeside(l: Label, m: Label, n: string)
    requires (l.name == n || Clean(l.name)) && (m.name == n || Clean(m.name))
    ensures CleanBeside([l] + [m], n)
  {}

  lemma OddIsGreater(u: string, v: string)
    ensures Less(u, Odd(u, v)) && u != Odd(u, v)
  {
    assert Odd(u, v) == u + ("=\"" + OddValue(u, v));
    LessThanLonger(u, "=\"" + OddValue(u, v));
  }

  lemma OddParses(u: string, v: string)
    requires Plain(u) && Plain(v)
    ensures !ReadsAsLabels(Odd(u, v))
  {
    var r := u + "=\"" + ("," + v);
    ParseNameInverts(u, OddValue(u, v));
    ParseNameInverts(u, "," + v);
    PlainValue(v);
    ParseValueInverts("," + v + "=", "," + r);
    assert ("," + r)[1..] == r;
    LessIsTotal(u, u);
  }

  /** The name occurs in both sets, which print alike. */
  lemma OneNameInBothSets(n: string, u: string, v: string, y: string)
    requires n == Odd(u, v) && Plain(u) && Plain(v) && Less(n, v)
    ensures Colliding(n, map[n := "," + u + "=", v := y], map[u := "," + v + "=", n := y])
  {
    OddPrints(u, v, y);
    OddIsGreater(u, v);
    OddLists(n, u, v, "," + u + "=", "," + v + "=", y);
  }

  lemma OddText(u: string, v: string)
    requires u == "u" && v == "v"
    ensures Odd(u, v) == "u=\",v=\",u=\",v" && Less(Odd(u, v), v)
  {}

  /** A concrete one of these names. */
  lemma OddNameCollides(n: string, u: string, v: string, y: string)
    requires n == "u=\",v=\",u=\",v" && u == "u" && v == "v"
    ensures Colliding(n, map[n := "," + u + "=", v := y], map[u := "," + v + "=", n := y])
    ensures ReadsBeside(n, n) && !ReadsAsLabels(n)
  {
    OddText(u, v);
    OneLetterIsPlain(u);
    OneLetterIsPlain(v);
    OddCollides(n, u, v, y);
  }

  lemma OddCollides(n: string, u: string, v: string, y: string)
    requires n == Odd(u, v) && Plain(u) && Plain(v) && Less(n, v)
    ensures Colliding(n, map[n := "," + u + "=", v := y], map[u := "," + v + "=", n := y])
    ensures ReadsBeside(n, n) && !ReadsAsLabels(n)
  {
    OddParses(u, v);
    OneNameInBothSets(n, u, v, y);
    CollidingSetsRead(n, map[n := "," + u + "=", v := y], map[u := "," + v + "=", n := y]);
  }

  lemma OneLetterIsPlain(c: string)
    requires |c| == 1 && 'a' <= c[0] <= 'z'
    ensures Plain(c)
  {
    assert c[1..] == [] && EscapeChar(c[0]) == [c[0]] == c;
  }
}
