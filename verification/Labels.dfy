/**
 Prometheus label sets as the metrics registry prints them, and a parser that reads them back.
 */
module Labels {
  import opened Options

  // ---------- escaping ----------

  /** `v.replace(/c/g, with)`. */
  function ReplaceAll(v: string, c: char, with: string): string {
    if v == [] then [] else (if v[0] == c then with else [v[0]]) + ReplaceAll(v[1..], c, with)
  }

  function EscapeLabel(v: string): string {
    ReplaceAll(ReplaceAll(ReplaceAll(v, '\\', "\\\\"), '"', "\\\""), '\n', "\\n")
  }

  function EscapeChar(c: char): string {
    if c == '\\' then "\\\\" else if c == '"' then "\\\"" else if c == '\n' then "\\n" else [c]
  }

  function EscapeEach(v: string): string {
    if v == [] then [] else EscapeChar(v[0]) + EscapeEach(v[1..])
  }

  lemma {:induction false} ReplaceAllConcat(a: string, b: string, c: char, with: string)
    ensures ReplaceAll(a + b, c, with) == ReplaceAll(a, c, with) + ReplaceAll(b, c, with)
  {
    if a == [] {
      assert a + b == b;
    } else {
      assert (a + b)[1..] == a[1..] + b;
      ReplaceAllConcat(a[1..], b, c, with);
    }
  }

  /** The three passes amount to one pass over the characters: no pass touches what another inserted. */
  lemma {:induction false} ThreePassesAreOne(v: string)
    ensures EscapeLabel(v) == EscapeEach(v)
  {
    if v != [] {
      ThreePassesAreOne(v[1..]);
      var first := if v[0] == '\\' then "\\\\" else [v[0]];
      var rest := ReplaceAll(v[1..], '\\', "\\\\");
      ReplaceAllConcat(first, rest, '"', "\\\"");
      ReplaceAllConcat(ReplaceAll(first, '"', "\\\""), ReplaceAll(rest, '"', "\\\""), '\n', "\\n");
      EscapeOneChar(v[0]);
    }
  }

  lemma EscapeOneChar(c: char)
    ensures ReplaceAll(ReplaceAll(if c == '\\' then "\\\\" else [c], '"', "\\\""), '\n', "\\n") == EscapeChar(c)
  {
    ReplaceOne(c, '"', "\\\"");
    ReplaceOne(c, '\n', "\\n");
    ReplaceTwo('\\', '\\', '"', "\\\"");
    ReplaceTwo('\\', '\\', '\n', "\\n");
    ReplaceTwo('\\', '"', '\n', "\\n");
  }

  lemma ReplaceOne(x: char, c: char, with: string)
    ensures ReplaceAll([x], c, with) == if x == c then with else [x]
  {}

  lemma ReplaceTwo(x: char, y: char, c: char, with: string)
    requires x != c && y != c
    ensures ReplaceAll([x, y], c, with) == [x, y]
  {
    assert [x, y][1..] == [y];
    ReplaceOne(y, c, with);
  }

  // ---------- sorted names ----------

  /** The default order of `Array.sort` on strings: character by character, a prefix first. */
  predicate Less(a: string, b: string) {
    b != [] && (a == [] || a[0] < b[0] || (a[0] == b[0] && Less(a[1..], b[1..])))
  }

  lemma {:induction false} LessIsTotal(a: string, b: string)
    ensures Less(a, b) || a == b || Less(b, a)
    ensures !(Less(a, b) && Less(b, a)) && !Less(a, a)
  {
    if a != [] && b != [] {
      LessIsTotal(a[1..], b[1..]);
      LessIsTotal(a[1..], a[1..]);
      assert a[0] == b[0] && a[1..] == b[1..] ==> a == b by {
        assert a == [a[0]] + a[1..] && b == [b[0]] + b[1..];
      }
    } else if a != [] {
      LessIsTotal(a[1..], a[1..]);
    }
  }

  lemma {:induction false} LessIsTransitive(a: string, b: string, c: string)
    requires Less(a, b) && Less(b, c)
    ensures Less(a, c)
  {
    if a != [] && a[0] == b[0] == c[0] {
      LessIsTransitive(a[1..], b[1..], c[1..]);
    }
  }

  predicate IsLeast(k: string, ks: set<string>) {
    k in ks && forall x :: x in ks && x != k ==> Less(k, x)
  }

  lemma {:induction false} LeastExists(ks: set<string>)
    requires ks != {}
    ensures exists k :: IsLeast(k, ks)
  {
    var y :| y in ks;
    var rest := ks - {y};
    if rest == {} {
      assert ks == {y};
      assert IsLeast(y, ks);
    } else {
      LeastExists(rest);
      var k :| IsLeast(k, rest);
      LessIsTotal(y, k);
      if Less(y, k) {
        LessThanLeast(y, k, rest);
        assert IsLeast(y, ks);
      } else {
        assert IsLeast(k, ks);
      }
    }
  }

  lemma LessThanLeast(y: string, k: string, ks: set<string>)
    requires IsLeast(k, ks) && Less(y, k)
    ensures forall x :: x in ks ==> Less(y, x)
  {
    forall x | x in ks && x != k
      ensures Less(y, x)
    {
      LessIsTransitive(y, k, x);
    }
  }

  lemma LeastIsUnique(ks: set<string>)
    ensures forall a, b :: IsLeast(a, ks) && IsLeast(b, ks) ==> a == b
  {
    forall a, b | IsLeast(a, ks) && IsLeast(b, ks)
      ensures a == b
    {
      LessIsTotal(a, b);
    }
  }

  function Least(ks: set<string>): (k: string)
    requires ks != {}
    ensures IsLeast(k, ks)
  {
    LeastExists(ks);
    LeastIsUnique(ks);
    var k :| k in ks && IsLeast(k, ks);
    k
  }

  /** `Object.keys(labels).sort()`. */
  function SortedNames(ks: set<string>): seq<string> {
    if ks == {} then [] else [Least(ks)] + SortedNames(ks - {Least(ks)})
  }

  // ---------- printing ----------

  type LabelSet = map<string, string>

  datatype Label = Label(name: string, value: string)

  function Part(l: Label): string {
    l.name + "=\"" + EscapeLabel(l.value) + "\""
  }

  /** `parts.join(',')`. */
  function Join(ls: seq<Label>): string {
    if ls == [] then [] else if |ls| == 1 then Part(ls[0]) else Part(ls[0]) + "," + Join(ls[1..])
  }

  function Pairs(labels: LabelSet, names: seq<string>): (ls: seq<Label>)
    requires forall k :: k in names ==> k in labels
    ensures |ls| == |names| && forall i :: 0 <= i < |names| ==> ls[i] == Label(names[i], labels[names[i]])
  {
    seq(|names|, i requires 0 <= i < |names| => Label(names[i], labels[names[i]]))
  }

  lemma {:induction false} SortedNamesAreTheNames(ks: set<string>)
    ensures forall k :: k in SortedNames(ks) <==> k in ks
  {
    if ks != {} {
      SortedNamesAreTheNames(ks - {Least(ks)});
    }
  }

  /** `b` goes on where `a` ends, or has the larger character at the first place where they differ. */
  ghost predicate InOrder(a: string, b: string) {
    exists k :: 0 <= k <= |a| && k < |b| && a[..k] == b[..k] && (k == |a| || a[k] < b[k])
  }

  lemma {:induction false} LessIsInOrder(a: string, b: string)
    requires Less(a, b)
    ensures InOrder(a, b)
  {
    if a != [] && a[0] == b[0] {
      LessIsInOrder(a[1..], b[1..]);
      var k :| 0 <= k <= |a[1..]| && k < |b[1..]| && a[1..][..k] == b[1..][..k] && (k == |a[1..]| || a[1..][k] < b[1..][k]);
      assert a[..k + 1] == [a[0]] + a[1..][..k] && b[..k + 1] == [b[0]] + b[1..][..k];
    } else {
      assert a[..0] == b[..0];
    }
  }

  /** The names are printed in the order of their characters, each once. */
  lemma {:induction false} NamesAreInOrder(ks: set<string>, i: nat, j: nat)
    requires i < j < |SortedNames(ks)|
    ensures InOrder(SortedNames(ks)[i], SortedNames(ks)[j])
  {
    var least, rest := Least(ks), ks - {Least(ks)};
    if i > 0 {
      NamesAreInOrder(rest, i - 1, j - 1);
    } else {
      var name := SortedNames(ks)[j];
      assert name == SortedNames(rest)[j - 1];
      SortedNamesAreTheNames(rest);
      assert name in rest && IsLeast(least, ks);
      LessIsInOrder(least, name);
    }
  }

  /** The label set as sorted pairs. */
  function Sorted(labels: LabelSet): seq<Label> {
    SortedNamesAreTheNames(labels.Keys);
    Pairs(labels, SortedNames(labels.Keys))
  }

  function Braced(ls: seq<Label>): string {
    if ls == [] then "" else "{" + Join(ls) + "}"
  }

  function Serialise(labels: LabelSet): string {
    Braced(Sorted(labels))
  }

  /** `existing.replace(/}$/, ...)` puts the bound before the closing brace. */
  function WithLe(existing: string, le: string): string {
    var inner := "le=\"" + le + "\"";
    if existing == "" then "{" + inner + "}"
    else if existing[|existing| - 1] == '}' then existing[..|existing| - 1] + "," + inner + "}"
    else existing
  }

  // ---------- parsing ----------

  /** Splits at the first `="`. */
  function ParseName(s: string): Option<(string, string)> {
    if |s| < 2 then None
    else if s[0] == '=' && s[1] == '"' then Some(([], s[2..]))
    else
      match ParseName(s[1..])
      case None => None
      case Some(p) => Some(([s[0]] + p.0, p.1))
  }

  /** The character an escape stands for. */
  function Unescaped(c: char): Option<char> {
    if c == 'n' then Some('\n') else if c == '\\' || c == '"' then Some(c) else None
  }

  /** Unescapes up to the first unescaped quote; nothing but what the printer writes is accepted. */
  function ParseValue(s: string): Option<(string, string)> {
    if s == [] || s[0] == '\n' then None
    else if s[0] == '"' then Some(([], s[1..]))
    else if s[0] == '\\' then
      if |s| < 2 || Unescaped(s[1]).None? then None
      else
        match ParseValue(s[2..])
        case None => None
        case Some(p) => Some(([Unescaped(s[1]).value] + p.0, p.1))
    else
      match ParseValue(s[1..])
      case None => None
      case Some(p) => Some(([s[0]] + p.0, p.1))
  }

  function ParseLabel(s: string): (r: Option<(Label, string)>) {
    match ParseName(s)
    case None => None
    case Some(n) =>
      match ParseValue(n.1)
      case None => None
      case Some(v) => Some((Label(n.0, v.0), v.1))
  }

  lemma {:induction false} ParseNameShortens(s: string)
    ensures ParseName(s).Some? ==> |ParseName(s).value.1| < |s|
  {
    if |s| >= 2 && !(s[0] == '=' && s[1] == '"') {
      ParseNameShortens(s[1..]);
    }
  }

  lemma {:induction false} ParseValueShortens(s: string)
    ensures ParseValue(s).Some? ==> |ParseValue(s).value.1| < |s|
  {
    if s != [] && s[0] == '\\' {
      if |s| >= 2 {
        ParseValueShortens(s[2..]);
      }
    } else if s != [] && s[0] != '"' {
      ParseValueShortens(s[1..]);
    }
  }

  lemma ParseLabelShortens(s: string)
    ensures ParseLabel(s).Some? ==> |ParseLabel(s).value.1| < |s|
  {
    ParseNameShortens(s);
    if ParseName(s).Some? {
      ParseValueShortens(ParseName(s).value.1);
    }
  }

  /** Labels separated by commas up to a closing brace that ends the text. */
  function ParseLabels(s: string): Option<seq<Label>>
    decreases |s|
  {
    ParseLabelShortens(s);
    match ParseLabel(s)
    case None => None
    case Some(p) =>
      if p.1 == "}" then Some([p.0])
      else if p.1 == [] || p.1[0] != ',' then None
      else
        match ParseLabels(p.1[1..])
        case None => None
        case Some(rest) => Some([p.0] + rest)
  }

  function Parse(s: string): Option<seq<Label>> {
    if s == "" then Some([]) else if s[0] == '{' then ParseLabels(s[1..]) else None
  }

  // ---------- the parser inverts the printer ----------

  /** A name without the mark `="` that ends names. */
  predicate Clean(name: string) {
    |name| < 2 || (!(name[0] == '=' && name[1] == '"') && Clean(name[1..]))
  }

  lemma {:induction false} ParseNameInverts(name: string, rest: string)
    requires Clean(name)
    ensures ParseName(name + "=\"" + rest) == Some((name, rest))
  {
    var s := name + "=\"" + rest;
    if name == [] {
      assert s[2..] == rest;
    } else {
      assert s[1..] == name[1..] + "=\"" + rest && name == [name[0]] + name[1..];
      assert |name| == 1 ==> s[1] == '=';
      ParseNameInverts(name[1..], rest);
    }
  }

  lemma {:induction false} ParseValueInverts(v: string, rest: string)
    ensures ParseValue(EscapeEach(v) + "\"" + rest) == Some((v, rest))
  {
    var s := EscapeEach(v) + "\"" + rest;
    if v == [] {
      assert s[1..] == rest;
    } else {
      var tail := EscapeEach(v[1..]) + "\"" + rest;
      ParseValueInverts(v[1..], rest);
      assert s == EscapeChar(v[0]) + tail && v == [v[0]] + v[1..];
      ParseEscapedChar(v[0], tail);
    }
  }

  lemma ParseEscapedChar(c: char, tail: string)
    requires ParseValue(tail).Some?
    ensures ParseValue(EscapeChar(c) + tail) == Some(([c] + ParseValue(tail).value.0, ParseValue(tail).value.1))
  {}

  lemma ParseLabelInverts(l: Label, rest: string)
    requires Clean(l.name)
    ensures ParseLabel(Part(l) + rest) == Some((l, rest))
  {
    ThreePassesAreOne(l.value);
    var after := EscapeEach(l.value) + "\"" + rest;
    assert Part(l) + rest == l.name + "=\"" + after;
    ParseNameInverts(l.name, after);
    ParseValueInverts(l.value, rest);
  }

  ghost predicate NamesAreClean(ls: seq<Label>) {
    forall i :: 0 <= i < |ls| ==> Clean(ls[i].name)
  }

  lemma ParseLastLabel(l: Label)
    requires Clean(l.name)
    ensures ParseLabels(Part(l) + "}") == Some([l])
  {
    ParseLabelInverts(l, "}");
  }

  lemma ParseOneMoreLabel(l: Label, tail: string, ls: seq<Label>)
    requires Clean(l.name) && ParseLabels(tail) == Some(ls)
    ensures ParseLabels(Part(l) + ("," + tail)) == Some([l] + ls)
  {
    ParseLabelInverts(l, "," + tail);
    assert ("," + tail)[1..] == tail && ("," + tail)[0] == ',' && |"," + tail| == 1 + |tail|;
    assert "," + tail != "}";
  }

  lemma {:induction false} ParseLabelsInverts(ls: seq<Label>)
    requires ls != [] && NamesAreClean(ls)
    ensures ParseLabels(Join(ls) + "}") == Some(ls)
  {
    if |ls| == 1 {
      assert Join(ls) == Part(ls[0]) && ls == [ls[0]];
      ParseLastLabel(ls[0]);
    } else {
      ParseLabelsInverts(ls[1..]);
      ParseOneMoreLabel(ls[0], Join(ls[1..]) + "}", ls[1..]);
      assert Join(ls) + "}" == Part(ls[0]) + ("," + (Join(ls[1..]) + "}")) && ls == [ls[0]] + ls[1..];
    }
  }

  lemma ParseBraced(body: string)
    ensures Parse("{" + body) == ParseLabels(body)
  {
    assert ("{" + body)[1..] == body;
  }

  lemma ParseInvertsBraced(ls: seq<Label>)
    requires NamesAreClean(ls)
    ensures Parse(Braced(ls)) == Some(ls)
  {
    if ls != [] {
      ParseLabelsInverts(ls);
      ParseBraced(Join(ls) + "}");
      assert Braced(ls) == "{" + (Join(ls) + "}");
    }
  }

  // ---------- the parser accepts nothing else ----------

  /** A clean name, the mark after it, and what follows. */
  predicate NamedAs(s: string, name: string, rest: string) {
    s == name + "=\"" + rest && Clean(name)
  }

  lemma NamedOneMore(c: char, s: string, name: string, rest: string)
    requires NamedAs(s, name, rest) && !(c == '=' && s[0] == '"')
    ensures NamedAs([c] + s, [c] + name, rest)
  {
    assert ([c] + name)[1..] == name;
    assert name != [] ==> name[0] == s[0];
  }

  lemma {:induction false} ParseNameIsSound(s: string)
    ensures ParseName(s).Some? ==> NamedAs(s, ParseName(s).value.0, ParseName(s).value.1)
  {
    if |s| >= 2 {
      if s[0] == '=' && s[1] == '"' {
        assert s == [] + "=\"" + s[2..];
      } else {
        ParseNameIsSound(s[1..]);
        if ParseName(s[1..]).Some? {
          var p := ParseName(s[1..]).value;
          assert s == [s[0]] + s[1..];
          NamedOneMore(s[0], s[1..], p.0, p.1);
        }
      }
    }
  }

  /** A printed value, the quote after it, and what follows. */
  predicate ReadsAs(s: string, v: string, rest: string) {
    s == EscapeEach(v) + "\"" + rest
  }

  lemma ReadsOneMore(text: string, c: char, s: string, v: string, rest: string)
    requires text == EscapeChar(c) && ReadsAs(s, v, rest)
    ensures ReadsAs(text + s, [c] + v, rest)
  {
    EscapedHead(c, v);
  }

  lemma {:induction false} ParseValueIsSound(s: string)
    ensures ParseValue(s).Some? ==> ReadsAs(s, ParseValue(s).value.0, ParseValue(s).value.1)
  {
    if s == [] || s[0] == '\n' {
    } else if s[0] == '"' {
      assert s == [] + "\"" + s[1..];
    } else {
      var n := if s[0] == '\\' then 2 else 1;
      if n <= |s| {
        ParseValueIsSound(s[n..]);
        if ParseValue(s).Some? {
          var p := ParseValue(s[n..]).value;
          var c := if n == 2 then Unescaped(s[1]).value else s[0];
          assert s == s[..n] + s[n..];
          ReadsOneMore(s[..n], c, s[n..], p.0, p.1);
        }
      }
    }
  }

  lemma EscapedHead(c: char, v: string)
    ensures EscapeEach([c] + v) == EscapeChar(c) + EscapeEach(v)
  {
    assert ([c] + v)[1..] == v;
  }

  lemma ParseLabelIsSound(s: string)
    ensures ParseLabel(s).Some? ==>
              var (l, rest) := ParseLabel(s).value; s == Part(l) + rest && Clean(l.name)
  {
    ParseNameIsSound(s);
    if ParseName(s).Some? {
      ParseValueIsSound(ParseName(s).value.1);
      if ParseValue(ParseName(s).value.1).Some? {
        var (name, text) := ParseName(s).value;
        var (v, rest) := ParseValue(text).value;
        ThreePassesAreOne(v);
        RegroupPart(name, EscapeEach(v), rest);
      }
    }
  }

  lemma RegroupPart(name: string, escaped: string, rest: string)
    ensures name + "=\"" + (escaped + "\"" + rest) == name + "=\"" + escaped + "\"" + rest
  {}

  predicate PrintedBefore(s: string, ls: seq<Label>) {
    ls != [] && s == Join(ls) + "}"
  }

  lemma PrintsOneMore(l: Label, s: string, ls: seq<Label>)
    requires PrintedBefore(s, ls)
    ensures PrintedBefore(Part(l) + ("," + s), [l] + ls)
  {
    JoinCons(l, ls);
  }

  lemma {:induction false} ParseLabelsAreSound(s: string)
    ensures ParseLabels(s).Some? ==> NamesAreClean(ParseLabels(s).value) && PrintedBefore(s, ParseLabels(s).value)
    decreases |s|
  {
    ParseLabelIsSound(s);
    ParseLabelShortens(s);
    if ParseLabels(s).Some? {
      var (l, rest) := ParseLabel(s).value;
      if rest == "}" {
        assert Join([l]) == Part(l);
      } else {
        ParseLabelsAreSound(rest[1..]);
        assert rest == "," + rest[1..];
        PrintsOneMore(l, rest[1..], ParseLabels(rest[1..]).value);
      }
    }
  }

  lemma JoinCons(l: Label, ls: seq<Label>)
    requires ls != []
    ensures Join([l] + ls) == Part(l) + "," + Join(ls)
  {
    assert ([l] + ls)[1..] == ls;
  }

  /** The parser is exactly the inverse of the printer on lists of labels with clean names. */
  lemma ParseIsExact(s: string, ls: seq<Label>)
    ensures Parse(s) == Some(ls) <==> s == Braced(ls) && NamesAreClean(ls)
  {
    if s == Braced(ls) && NamesAreClean(ls) {
      ParseInvertsBraced(ls);
    }
    if Parse(s) == Some(ls) && s != "" {
      ParseLabelsAreSound(s[1..]);
      assert s == "{" + s[1..];
    }
  }

  ghost predicate CleanNames(labels: LabelSet) {
    forall k :: k in labels ==> Clean(k)
  }

  ghost function ToMap(ls: seq<Label>): LabelSet {
    if ls == [] then map[] else ToMap(ls[..|ls| - 1])[ls[|ls| - 1].name := ls[|ls| - 1].value]
  }

  lemma {:induction false} ToMapOfPairs(labels: LabelSet, names: seq<string>)
    requires forall k :: k in names ==> k in labels
    ensures ToMap(Pairs(labels, names)) == map k | k in labels && k in names :: labels[k]
  {
    if names != [] {
      var rest := names[..|names| - 1];
      assert names == rest + [names[|names| - 1]];
      assert Pairs(labels, names)[..|names| - 1] == Pairs(labels, rest);
      ToMapOfPairs(labels, rest);
    }
  }

  /** Parsing what `serialise` prints gives the label map back. */
  lemma SerialiseIsInvertible(labels: LabelSet)
    requires CleanNames(labels)
    ensures Parse(Serialise(labels)).Some? && ToMap(Parse(Serialise(labels)).value) == labels
  {
    SortedNamesAreTheNames(labels.Keys);
    SortedPairsAreClean(labels);
    ParseInvertsBraced(Sorted(labels));
    ToMapOfPairs(labels, SortedNames(labels.Keys));
  }

  /** Two label sets share a series exactly when they are the same set. */
  lemma SeriesKeysAreDistinct(a: LabelSet, b: LabelSet)
    requires CleanNames(a) && CleanNames(b)
    ensures Serialise(a) == Serialise(b) <==> a == b
  {
    SerialiseIsInvertible(a);
    SerialiseIsInvertible(b);
  }

  // ---------- histogram lines ----------

  lemma {:induction false} JoinSnoc(ls: seq<Label>, l: Label)
    requires ls != []
    ensures Join(ls + [l]) == Join(ls) + "," + Part(l)
  {
    if |ls| == 1 {
      assert (ls + [l])[1..] == [l];
    } else {
      assert (ls + [l])[0] == ls[0] && (ls + [l])[1..] == ls[1..] + [l];
      JoinSnoc(ls[1..], l);
      JoinGrouping(Part(ls[0]) + ",", Join(ls[1..]), "," , Part(l));
    }
  }

  lemma JoinGrouping(a: string, b: string, c: string, d: string)
    ensures a + (b + c + d) == a + b + c + d
  {}

  lemma BeforeTheBrace(body: string, le: string)
    ensures WithLe("{" + body + "}", le) == "{" + (body + "," + ("le=\"" + le + "\"")) + "}"
  {
    var s := "{" + body + "}";
    assert s[|s| - 1] == '}' && s[..|s| - 1] == "{" + body;
  }

  lemma WithLeOfBraced(ls: seq<Label>, le: string)
    requires EscapeEach(le) == le
    ensures WithLe(Braced(ls), le) == Braced(ls + [Label("le", le)])
  {
    ThreePassesAreOne(le);
    BoundPart(le);
    if ls == [] {
      assert [] + [Label("le", le)] == [Label("le", le)];
    } else {
      BeforeTheBrace(Join(ls), le);
      JoinSnoc(ls, Label("le", le));
    }
  }

  lemma BoundPart(le: string)
    requires EscapeLabel(le) == le
    ensures Part(Label("le", le)) == "le=\"" + le + "\""
  {}

  /** `withLe` parses to the same labels followed by the bound, for any bound text that needs no escaping. */
  lemma WithLeAddsOneLabel(ls: seq<Label>, le: string)
    requires NamesAreClean(ls) && EscapeEach(le) == le
    ensures Parse(WithLe(Braced(ls), le)) == Some(ls + [Label("le", le)])
  {
    WithLeOfBraced(ls, le);
    ParseInvertsBraced(ls + [Label("le", le)]);
  }

  /** As a map: the same labels with `le` set to the bound. */
  lemma WithLeSetsTheBound(labels: LabelSet, le: string)
    requires CleanNames(labels) && EscapeEach(le) == le
    ensures Parse(WithLe(Serialise(labels), le)).Some?
    ensures ToMap(Parse(WithLe(Serialise(labels), le)).value) == labels["le" := le]
  {
    SortedPairsAreClean(labels);
    WithLeAddsOneLabel(Sorted(labels), le);
    SerialiseIsInvertible(labels);
    ParseInvertsBraced(Sorted(labels));
    ToMapSnoc(Sorted(labels), Label("le", le));
  }

  lemma ToMapSnoc(ls: seq<Label>, l: Label)
    ensures ToMap(ls + [l]) == ToMap(ls)[l.name := l.value]
  {}

  lemma SortedPairsAreClean(labels: LabelSet)
    requires CleanNames(labels)
    ensures NamesAreClean(Sorted(labels))
  {
    SortedNamesAreTheNames(labels.Keys);
  }
}
