/**
 How printed label lists read: what a label set prints is the print of an ascending list, a list can be read back label
 by label, and two label sets with one print are the same unless one of their names spells out another one's beginning.
 */
module LabelPrints {
  import opened Options
  import opened Labels

  // ---------- lists in print order ----------

  ghost predicate Ascending(ls: seq<Label>) {
    |ls| < 2 || (Less(ls[0].name, ls[1].name) && Ascending(ls[1..]))
  }

  function NameSet(ls: seq<Label>): set<string> {
    if ls == [] then {} else {ls[0].name} + NameSet(ls[1..])
  }

  function NameList(ls: seq<Label>): (names: seq<string>)
    ensures |names| == |ls|
  {
    if ls == [] then [] else [ls[0].name] + NameList(ls[1..])
  }

  lemma {:induction false} HeadIsLeast(ls: seq<Label>, name: string)
    requires ls != [] && Ascending(ls) && name in NameSet(ls[1..])
    ensures Less(ls[0].name, name)
  {
    if name != ls[1].name {
      HeadIsLeast(ls[1..], name);
      LessIsTransitive(ls[0].name, ls[1].name, name);
    }
  }

  lemma {:induction false} AscendingIsSorted(ls: seq<Label>)
    requires Ascending(ls)
    ensures SortedNames(NameSet(ls)) == NameList(ls)
  {
    if ls != [] {
      var names, head, rest := NameSet(ls), ls[0].name, NameSet(ls[1..]);
      forall x | x in rest
        ensures Less(head, x) && x != head
      {
        HeadIsLeast(ls, x);
        LessIsTotal(head, x);
      }
      assert IsLeast(head, names);
      LeastIsUnique(names);
      assert names - {head} == rest;
      AscendingIsSorted(ls[1..]);
    }
  }

  lemma {:induction false} NameListAt(ls: seq<Label>, i: nat)
    requires i < |ls|
    ensures NameList(ls)[i] == ls[i].name && ls[i].name in NameSet(ls)
  {
    if i > 0 {
      NameListAt(ls[1..], i - 1);
    }
  }

  lemma {:induction false} NamesOfMap(ls: seq<Label>)
    ensures ToMap(ls).Keys == NameSet(ls)
  {
    if ls != [] {
      NamesOfMap(ls[..|ls| - 1]);
      NameSetSnoc(ls[..|ls| - 1], ls[|ls| - 1]);
      assert ls == ls[..|ls| - 1] + [ls[|ls| - 1]];
    }
  }

  lemma {:induction false} NameSetSnoc(ls: seq<Label>, l: Label)
    ensures NameSet(ls + [l]) == NameSet(ls) + {l.name}
  {
    if ls != [] {
      assert (ls + [l])[1..] == ls[1..] + [l];
      NameSetSnoc(ls[1..], l);
    }
  }

  lemma {:induction false} AscendingNamesDiffer(ls: seq<Label>, i: nat, j: nat)
    requires Ascending(ls) && i < j < |ls|
    ensures ls[i].name != ls[j].name
  {
    if i == 0 {
      NameListAt(ls[1..], j - 1);
      HeadIsLeast(ls, ls[j].name);
      LessIsTotal(ls[0].name, ls[j].name);
    } else {
      AscendingNamesDiffer(ls[1..], i - 1, j - 1);
    }
  }

  lemma {:induction false} MapAt(ls: seq<Label>, i: nat)
    requires i < |ls| && forall j :: i < j < |ls| ==> ls[j].name != ls[i].name
    ensures ls[i].name in ToMap(ls) && ToMap(ls)[ls[i].name] == ls[i].value
  {
    if i < |ls| - 1 {
      MapAt(ls[..|ls| - 1], i);
    }
  }

  /** An ascending list is what its label set prints. */
  lemma AscendingPrints(ls: seq<Label>)
    requires Ascending(ls)
    ensures Sorted(ToMap(ls)) == ls && Serialise(ToMap(ls)) == Braced(ls)
  {
    NamesOfMap(ls);
    AscendingIsSorted(ls);
    forall i | 0 <= i < |ls|
      ensures Sorted(ToMap(ls))[i] == ls[i]
    {
      NameListAt(ls, i);
      forall j | i < j < |ls|
        ensures ls[j].name != ls[i].name
      {
        AscendingNamesDiffer(ls, i, j);
      }
      MapAt(ls, i);
    }
  }

  /** What a label set prints is ascending. */
  lemma {:induction false} SortedIsAscending(labels: LabelSet, ks: set<string>)
    requires ks <= labels.Keys
    ensures forall k :: k in SortedNames(ks) ==> k in ks
    ensures Ascending(PairsOf(labels, ks))
  {
    SortedNamesAreTheNames(ks);
    if ks != {} {
      var rest := ks - {Least(ks)};
      SortedIsAscending(labels, rest);
      SortedNamesAreTheNames(rest);
      assert PairsOf(labels, ks)[1..] == PairsOf(labels, rest);
    }
  }

  function PairsOf(labels: LabelSet, ks: set<string>): seq<Label>
    requires ks <= labels.Keys
  {
    SortedNamesAreTheNames(ks);
    Pairs(labels, SortedNames(ks))
  }

  // ---------- reading on ----------

  /** What is printed after a first label. */
  function Tail(ls: seq<Label>): string {
    if ls == [] then "}" else "," + Full(ls)
  }

  /** A nonempty list and the brace after it. */
  function Full(ls: seq<Label>): string
    requires ls != []
  {
    Join(ls) + "}"
  }

  lemma Regroup(a: string, b: string, c: string)
    ensures a + b + c == a + (b + c)
  {}

  /** A printed value, its closing quote, and what follows. */
  function Quoted(v: string, tail: string): string {
    EscapeEach(v) + ("\"" + tail)
  }

  lemma NameReads(name: string, rest: string)
    requires Clean(name)
    ensures ParseName(name + ("=\"" + rest)) == Some((name, rest))
  {
    ParseNameInverts(name, rest);
    Regroup(name, "=\"", rest);
  }

  lemma ValueReads(v: string, tail: string)
    ensures ParseValue(Quoted(v, tail)) == Some((v, tail))
  {
    ParseValueInverts(v, tail);
    Regroup(EscapeEach(v), "\"", tail);
  }

  lemma PartUnfolds(l: Label, tail: string)
    ensures Part(l) + tail == l.name + ("=\"" + Quoted(l.value, tail))
  {
    ThreePassesAreOne(l.value);
    var e := EscapeEach(l.value);
    Regroup(l.name + "=\"" + e, "\"", tail);
    Regroup(l.name + "=\"", e, "\"" + tail);
    Regroup(l.name, "=\"", e + ("\"" + tail));
  }

  lemma FullUnfolds(ls: seq<Label>)
    requires ls != []
    ensures Full(ls) == Part(ls[0]) + Tail(ls[1..])
    ensures Full(ls) == ls[0].name + ("=\"" + Quoted(ls[0].value, Tail(ls[1..])))
  {
    if |ls| > 1 {
      assert Join(ls) == Part(ls[0]) + "," + Join(ls[1..]);
      Regroup(Part(ls[0]) + ",", Join(ls[1..]), "}");
      Regroup(Part(ls[0]), ",", Join(ls[1..]) + "}");
    }
    PartUnfolds(ls[0], Tail(ls[1..]));
  }

  lemma {:induction false} CleanHasNoMark(n: string)
    ensures Clean(n) <==> ParseName(n).None?
  {
    if |n| >= 2 && !(n[0] == '=' && n[1] == '"') {
      CleanHasNoMark(n[1..]);
    }
  }

  lemma {:induction false} ParseNameOn(n: string, t: string)
    requires ParseName(n).Some?
    ensures ParseName(n + t) == Some((ParseName(n).value.0, ParseName(n).value.1 + t))
  {
    if n[0] == '=' && n[1] == '"' {
      assert (n + t)[2..] == n[2..] + t;
    } else {
      ParseNameOn(n[1..], t);
      assert (n + t)[1..] == n[1..] + t;
    }
  }

  lemma {:induction false} ParseValueOn(v: string, t: string)
    requires ParseValue(v).Some?
    ensures ParseValue(v + t) == Some((ParseValue(v).value.0, ParseValue(v).value.1 + t))
  {
    if v[0] == '"' {
      assert (v + t)[1..] == v[1..] + t;
    } else if v[0] == '\\' {
      ParseValueOn(v[2..], t);
      assert (v + t)[2..] == v[2..] + t;
    } else {
      ParseValueOn(v[1..], t);
      assert (v + t)[1..] == v[1..] + t;
    }
  }

  /** A text without an unescaped quote that can be read on past `=` is an escaped text. */
  lemma {:induction false} ReadsToItsEnd(v: string, t: string)
    requires ParseValue(v).None? && t != [] && t[0] == '=' && ParseValue(v + t).Some?
    ensures ParseValue(v + "\"").Some? && ParseValue(v + "\"").value.1 == []
  {
    if v != [] {
      var n := if v[0] == '\\' then 2 else 1;
      assert (v + t)[0] == v[0] && (v + "\"")[0] == v[0] && (|v| == 1 ==> (v + t)[1] == t[0]);
      if n <= |v| {
        assert (v + t)[n..] == v[n..] + t && (v + "\"")[n..] == v[n..] + "\"";
        assert n == 2 ==> (v + t)[1] == v[1] && (v + "\"")[1] == v[1];
        ReadsToItsEnd(v[n..], t);
      }
    }
  }

  /** The text after the name `n` in the print of a list that begins with it. */
  function After(x: string, more: seq<Label>): string {
    "=\"" + Quoted(x, Tail(more))
  }

  lemma PrintBeginsWith(n: string, x: string, more: seq<Label>)
    ensures Full([Label(n, x)] + more) == n + After(x, more)
  {
    FullUnfolds([Label(n, x)] + more);
    assert ([Label(n, x)] + more)[1..] == more;
  }

  lemma FirstLabelOf(ls: seq<Label>)
    requires ls != [] && Clean(ls[0].name)
    ensures ParseName(Full(ls)) == Some((ls[0].name, Quoted(ls[0].value, Tail(ls[1..]))))
    ensures ParseValue(Quoted(ls[0].value, Tail(ls[1..]))) == Some((ls[0].value, Tail(ls[1..])))
  {
    FullUnfolds(ls);
    NameReads(ls[0].name, Quoted(ls[0].value, Tail(ls[1..])));
    ValueReads(ls[0].value, Tail(ls[1..]));
  }

  /** After a value that ends within the name comes a comma and the rest of the list. */
  lemma TailAfterValue(rest: string, x: string, more: seq<Label>, ls: seq<Label>)
    requires rest + After(x, more) == Tail(ls)
    ensures ls != [] && rest != [] && rest[0] == ','
    ensures Full([Label(rest[1..], x)] + more) == Full(ls)
  {
    var t := After(x, more);
    assert t[0] == '=' && |t| >= 3;
    SplitTail(rest, t, ls);
    PrintBeginsWith(rest[1..], x, more);
  }

  lemma SplitTail(rest: string, t: string, ls: seq<Label>)
    requires rest + t == Tail(ls) && |t| >= 3 && t[0] == '='
    ensures ls != [] && rest != [] && rest[0] == ',' && rest[1..] + t == Full(ls)
  {
    assert (rest + t)[0] == if rest == [] then '=' else rest[0];
    assert rest != [] ==> (rest + t)[1..] == rest[1..] + t;
    assert ls != [] ==> Tail(ls)[1..] == Full(ls);
  }

  lemma BracedIsFull(ls: seq<Label>)
    ensures ls != [] ==> Braced(ls) == "{" + Full(ls) && Braced(ls)[1..] == Full(ls)
  {
    if ls != [] {
      Regroup("{", Join(ls), "}");
    }
  }

  lemma TailsAgree(ps: seq<Label>, qs: seq<Label>)
    requires Tail(ps) == Tail(qs)
    ensures ps == [] <==> qs == []
    ensures ps != [] ==> Full(ps) == Full(qs)
  {
    assert ps != [] ==> Tail(ps)[0] == ',' && Tail(ps)[1..] == Full(ps);
    assert qs != [] ==> Tail(qs)[0] == ',' && Tail(qs)[1..] == Full(qs);
  }

  lemma SameAfterName(name: string, s: string, t: string)
    requires name + ("=\"" + s) == name + ("=\"" + t)
    ensures s == t
  {
    assert (name + ("=\"" + s))[|name| + 2..] == s && (name + ("=\"" + t))[|name| + 2..] == t;
  }

  /** Lists that print alike and begin with the same name begin with the same label and go on alike. */
  lemma HeadsAgree(ps: seq<Label>, qs: seq<Label>)
    requires ps != [] && qs != [] && Full(ps) == Full(qs) && ps[0].name == qs[0].name
    ensures ps[0] == qs[0] && Tail(ps[1..]) == Tail(qs[1..])
  {
    FullUnfolds(ps);
    FullUnfolds(qs);
    SameAfterName(ps[0].name, Quoted(ps[0].value, Tail(ps[1..])), Quoted(qs[0].value, Tail(qs[1..])));
    ValueReads(ps[0].value, Tail(ps[1..]));
    ValueReads(qs[0].value, Tail(qs[1..]));
  }

  // ---------- names that begin other names ----------

  /** The name `m` and the mark after it begin the name `k`. */
  predicate Marks(m: string, k: string) {
    m + "=\"" <= k
  }

  /** Two names at the beginning of one print are equal, or the shorter one and its mark begin the longer one. */
  lemma NamesAgree(m: string, k: string, s: string, t: string)
    requires m + ("=\"" + s) == k + ("=\"" + t) && |m| <= |k|
    ensures m == k || Marks(m, k)
  {
    var text := m + ("=\"" + s);
    assert text[..|m|] == m && text[..|k|] == k;
    assert text[|m|] == '=' && text[|m| + 1] == '"' && text[|k|] == '=';
    if |k| >= |m| + 2 {
      assert text[..|m| + 2] == m + "=\"";
      assert k[..|m| + 2] == m + "=\"";
    }
  }

  lemma {:induction false} MarkedIsUnclean(m: string, k: string)
    requires Marks(m, k)
    ensures !Clean(k)
  {
    assert k[..|m| + 2] == m + "=\"";
    if m == [] {
      assert k[0] == '=' && k[1] == '"';
    } else {
      assert k[1..][..|m| + 1] == m[1..] + "=\"";
      MarkedIsUnclean(m[1..], k[1..]);
    }
  }

  /** No name and the mark after it begin another name. */
  ghost predicate Separate(names: set<string>) {
    forall m, k :: m in names && k in names ==> !Marks(m, k)
  }

  lemma CleanNamesAreSeparate(names: set<string>)
    requires forall k :: k in names ==> Clean(k)
    ensures Separate(names)
  {
    forall m, k | m in names && k in names
      ensures !Marks(m, k)
    {
      if Marks(m, k) {
        MarkedIsUnclean(m, k);
      }
    }
  }

  ghost predicate NamesIn(ls: seq<Label>, names: set<string>) {
    forall i :: 0 <= i < |ls| ==> ls[i].name in names
  }

  lemma FirstNamesAgreeOrMark(ps: seq<Label>, qs: seq<Label>)
    requires ps != [] && qs != [] && Full(ps) == Full(qs)
    ensures ps[0].name == qs[0].name || Marks(ps[0].name, qs[0].name) || Marks(qs[0].name, ps[0].name)
  {
    FullUnfolds(ps);
    FullUnfolds(qs);
    var s, t := Quoted(ps[0].value, Tail(ps[1..])), Quoted(qs[0].value, Tail(qs[1..]));
    if |ps[0].name| <= |qs[0].name| {
      NamesAgree(ps[0].name, qs[0].name, s, t);
    } else {
      NamesAgree(qs[0].name, ps[0].name, t, s);
    }
  }

  /** Behind the same first name the lists go on with the same print, and differ if they differed. */
  lemma StripFirst(ps: seq<Label>, qs: seq<Label>)
    requires ps != [] && qs != [] && Full(ps) == Full(qs) && ps[0].name == qs[0].name
    ensures ps[1..] == [] <==> qs[1..] == []
    ensures ps[1..] != [] ==> Full(ps[1..]) == Full(qs[1..])
    ensures ps[1..] == qs[1..] <==> ps == qs
  {
    HeadsAgree(ps, qs);
    TailsAgree(ps[1..], qs[1..]);
    assert ps == [ps[0]] + ps[1..] && qs == [qs[0]] + qs[1..];
  }

  lemma {:induction false} SeparateListsPrintDifferently(ps: seq<Label>, qs: seq<Label>, names: set<string>)
    requires ps != [] && qs != [] && Separate(names) && NamesIn(ps, names) && NamesIn(qs, names)
    requires Full(ps) == Full(qs)
    ensures ps == qs
  {
    FirstNamesAgreeOrMark(ps, qs);
    assert ps[0].name in names && qs[0].name in names;
    StripFirst(ps, qs);
    if ps[1..] != [] {
      SeparateListsPrintDifferently(ps[1..], qs[1..], names);
    }
  }

  lemma SeparateBracesDiffer(ps: seq<Label>, qs: seq<Label>, names: set<string>)
    requires Separate(names) && NamesIn(ps, names) && NamesIn(qs, names)
    ensures Braced(ps) == Braced(qs) <==> ps == qs
  {
    BracedIsFull(ps);
    BracedIsFull(qs);
    if ps != [] && qs != [] && Braced(ps) == Braced(qs) {
      SeparateListsPrintDifferently(ps, qs, names);
    }
  }

  lemma SortedDetermines(a: LabelSet, b: LabelSet)
    ensures NamesIn(Sorted(a), a.Keys)
    ensures Sorted(a) == Sorted(b) ==> a == b
  {
    SortedNamesAreTheNames(a.Keys);
    SortedNamesAreTheNames(b.Keys);
    ToMapOfPairs(a, SortedNames(a.Keys));
    ToMapOfPairs(b, SortedNames(b.Keys));
  }

  /** Whatever marks their names contain: as long as no name of the two sets, followed by the mark, begins another one,
      two label sets share a series exactly when they are the same set. */
  lemma SeparateSeriesAreDistinct(a: LabelSet, b: LabelSet)
    requires Separate(a.Keys + b.Keys)
    ensures Serialise(a) == Serialise(b) <==> a == b
  {
    SortedDetermines(a, b);
    SortedDetermines(b, a);
    SeparateBracesDiffer(Sorted(a), Sorted(b), a.Keys + b.Keys);
  }

  // ---------- small label sets ----------

  lemma OneLabelPrints(l: Label)
    ensures Serialise(map[l.name := l.value]) == "{" + Full([l])
  {
    AscendingPrints([l]);
    assert [l][..0] == [] && ToMap([l]) == map[l.name := l.value];
    BracedIsFull([l]);
  }

  lemma TwoLabelsPrint(l: Label, m: Label)
    requires Less(l.name, m.name)
    ensures Ascending([l] + [m]) && ToMap([l] + [m]) == map[l.name := l.value, m.name := m.value]
    ensures Serialise(map[l.name := l.value, m.name := m.value]) == "{" + Full([l] + [m])
  {
    var ls := [l] + [m];
    assert ls[1..] == [m];
    AscendingPrints(ls);
    assert ls[..1] == [l] && ls[..1][..0] == [];
    assert ToMap(ls[..1]) == map[l.name := l.value];
    assert ToMap(ls) == map[l.name := l.value, m.name := m.value];
    BracedIsFull(ls);
  }
}
