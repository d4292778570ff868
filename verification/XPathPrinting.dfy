/** A document tree printed as paths, and what the parser makes of those paths. */
module XPathPrinting {
  import opened XPaths

  /** A node of the document; its attributes are listed in name order. */
  datatype Node = Node(id: nat, name: string, attrs: seq<Attr>, children: seq<Node>)

  /** Which attributes are printed: none, those of the last node, or those of all nodes. */
  datatype Level = AttrNone | AttrLast | AttrAll

  // ---- printing

  function PrintAttrs(attrs: seq<Attr>): string {
    if attrs == [] then ""
    else "@" + attrs[0].0 + "='" + attrs[0].1 + "'" + (if |attrs| == 1 then "" else " and " + PrintAttrs(attrs[1..]))
  }

  function Bracket(attrs: seq<Attr>): string {
    if attrs == [] then "" else "[" + PrintAttrs(attrs) + "]"
  }

  /** A node name and the attributes printed with it. */
  datatype Elem = Elem(name: string, attrs: seq<Attr>)

  function Section(e: Elem): string { e.name + Bracket(e.attrs) }

  function PathText(path: seq<Elem>): string {
    if path == [] then "" else PathText(path[..|path| - 1]) + "/" + Section(path[|path| - 1])
  }

  /** The path of `node` and of everything below it, outermost node first, in document order. */
  function PathsBelow(node: Node, above: seq<Elem>, level: Level): seq<seq<Elem>>
    decreases node, 1, 0
  {
    if node.name != "" && node.name[0] == '#' then []
    else
      var shown := Elem(node.name, if level.AttrNone? then [] else node.attrs);
      var kept := Elem(node.name, if level.AttrAll? then node.attrs else []);
      [above + [shown]] + PathsBelowEach(node, 0, above + [kept], level)
  }

  function PathsBelowEach(node: Node, i: nat, above: seq<Elem>, level: Level): seq<seq<Elem>>
    requires i <= |node.children|
    decreases node, 0, |node.children| - i
  {
    if i == |node.children| then []
    else PathsBelow(node.children[i], above, level) + PathsBelowEach(node, i + 1, above, level)
  }

  function PrintAll(paths: seq<seq<Elem>>): (r: seq<string>)
    ensures |r| == |paths| && forall k :: 0 <= k < |paths| ==> r[k] == PathText(paths[k])
  {
    seq(|paths|, k requires 0 <= k < |paths| => PathText(paths[k]))
  }

  /** The program's printer appends the text of each of those paths. */
  method AddNodeToList(node: Node, start: string, xpaths: seq<string>, level: Level, ghost above: seq<Elem>)
    returns (r: seq<string>)
    requires start == PathText(above)
    ensures r == xpaths + PrintAll(PathsBelow(node, above, level))
    decreases node, 1
  {
    if node.name != "" && node.name[0] == '#' { return xpaths; }
    var quals := "";
    if level != AttrNone && |node.attrs| > 0 {
      quals := AttrQualifiers(node.attrs);
    }
    ghost var shown := Elem(node.name, if level.AttrNone? then [] else node.attrs);
    ghost var kept := Elem(node.name, if level.AttrAll? then node.attrs else []);
    PathTextAppend(above, shown);
    PathTextAppend(above, kept);
    var xpath := start + "/" + node.name;
    ghost var below := PathsBelowEach(node, 0, above + [kept], level);
    var text := xpath + quals;
    assert text == PathText(above + [shown]);
    PrintAllFirst(above + [shown], below, xpaths);
    r := AddChildren(node, xpath + (if level == AttrAll then quals else ""), xpaths + [text], level, above + [kept]);
  }

  method AddChildren(node: Node, start: string, xpaths: seq<string>, level: Level, ghost above: seq<Elem>)
    returns (r: seq<string>)
    requires start == PathText(above)
    ensures r == xpaths + PrintAll(PathsBelowEach(node, 0, above, level))
    decreases node, 0
  {
    r := xpaths;
    ghost var all := xpaths + PrintAll(PathsBelowEach(node, 0, above, level));
    for i := 0 to |node.children|
      invariant Remaining(r, node, i, above, level) == all
    {
      RemainingNext(r, node, i, above, level);
      r := AddNodeToList(node.children[i], start, r, level, above);
    }
  }

  /** What is printed so far followed by what is still to come. */
  ghost function Remaining(r: seq<string>, node: Node, i: nat, above: seq<Elem>, level: Level): seq<string>
    requires i <= |node.children|
  {
    r + PrintAll(PathsBelowEach(node, i, above, level))
  }

  lemma RemainingNext(r: seq<string>, node: Node, i: nat, above: seq<Elem>, level: Level)
    requires i < |node.children|
    ensures Remaining(r, node, i, above, level) ==
              Remaining(r + PrintAll(PathsBelow(node.children[i], above, level)), node, i + 1, above, level)
  {
    var more, rest := PathsBelow(node.children[i], above, level), PathsBelowEach(node, i + 1, above, level);
    PrintAllConcat(more, rest);
    ConcatAssoc(r, PrintAll(more), PrintAll(rest));
  }

  lemma ConcatAssoc<T>(a: seq<T>, b: seq<T>, c: seq<T>)
    ensures a + (b + c) == (a + b) + c
  {
  }

  lemma PathTextAppend(above: seq<Elem>, e: Elem)
    ensures PathText(above + [e]) == PathText(above) + "/" + e.name + Bracket(e.attrs)
  {
    assert (above + [e])[..|above + [e]| - 1] == above;
  }

  lemma PrintAllFirst(path: seq<Elem>, below: seq<seq<Elem>>, before: seq<string>)
    ensures before + PrintAll([path] + below) == before + [PathText(path)] + PrintAll(below)
  {
    PrintAllConcat([path], below);
    assert PrintAll([path]) == [PathText(path)];
  }

  lemma PrintAllConcat(a: seq<seq<Elem>>, b: seq<seq<Elem>>)
    ensures PrintAll(a + b) == PrintAll(a) + PrintAll(b)
  {
  }

  function PrintAttr(a: Attr): string { "@" + a.0 + "='" + a.1 + "'" }

  /** What is still to be printed from the i-th attribute on. */
  ghost function Unprinted(attrs: seq<Attr>, i: nat): string
    requires i <= |attrs|
  {
    if i == |attrs| then "" else (if i > 0 then " and " else "") + PrintAttrs(attrs[i..])
  }

  lemma PrintFirst(attrs: seq<Attr>, i: nat)
    requires i < |attrs|
    ensures PrintAttrs(attrs[i..]) == PrintAttr(attrs[i]) + Unprinted(attrs, i + 1)
  {
    var rest := attrs[i..];
    assert rest[0] == attrs[i] && rest[1..] == attrs[i + 1..];
  }

  lemma PrintNext(attrs: seq<Attr>, i: nat, quals: string)
    requires i < |attrs|
    ensures quals + Unprinted(attrs, i) == quals + (if i > 0 then " and " else "") + PrintAttr(attrs[i]) +
            Unprinted(attrs, i + 1)
  {
    PrintFirst(attrs, i);
    ConcatAssoc(quals, if i > 0 then " and " else "", PrintAttr(attrs[i]) + Unprinted(attrs, i + 1));
    ConcatAssoc(quals + (if i > 0 then " and " else ""), PrintAttr(attrs[i]), Unprinted(attrs, i + 1));
  }

  method AttrQualifiers(attrs: seq<Attr>) returns (quals: string)
    requires attrs != []
    ensures quals == Bracket(attrs)
  {
    quals := "[";
    assert attrs[0..] == attrs;
    ghost var all := "[" + Unprinted(attrs, 0);
    for i := 0 to |attrs|
      invariant quals + Unprinted(attrs, i) == all
    {
      PrintNext(attrs, i, quals);
      if i > 0 { quals := quals + " and "; } else { assert quals + "" == quals; }
      quals := quals + PrintAttr(attrs[i]);
    }
    assert quals + "" == quals;
    assert "" + PrintAttrs(attrs) == PrintAttrs(attrs);
    quals := quals + "]";
  }

  // ---- what may be printed

  /** The name without its namespace prefix. */
  function LocalName(name: string): string {
    var colon := IndexFrom(name, ':', 0);
    if colon == |name| then name else name[colon + 1..]
  }

  predicate LegalName(name: string) {
    '/' !in name && '[' !in name && '@' !in name && LocalName(name) != ""
  }

  predicate LegalAttr(a: Attr) {
    a.0 != "" && '/' !in a.0 && '@' !in a.0 && '=' !in a.0 && '\'' !in a.0 &&
    '/' !in a.1 && '@' !in a.1
  }

  predicate LegalAttrs(attrs: seq<Attr>) {
    (forall i :: 0 <= i < |attrs| ==> LegalAttr(attrs[i])) &&
    forall i, j :: 0 <= i < j < |attrs| ==> attrs[i].0 != attrs[j].0
  }

  predicate Legal(e: Elem) { LegalName(e.name) && LegalAttrs(e.attrs) }

  ghost predicate LegalPath(path: seq<Elem>) {
    path != [] && forall j :: 0 <= j < |path| ==> Legal(path[j])
  }

  /** The values that come back unchanged: the clipping at both ends must find nothing to clip, and
      a value with blanks must not hold a quote that looks like the closing one. */
  predicate Clean(v: string) {
    v == "" || (v[0] != '"' && v[|v| - 1] != '"' && (' ' in v ==> v[|v| - 1] != ']' && '\'' !in v))
  }

  // ---- one printed attribute

  /** Where the parser stops in a value: with blanks in it, at the first blank or at the first quote
      after that, be it the closing one. */
  function StopIn(v: string): (r: nat)
    ensures r <= |v|
  {
    if ' ' !in v then |v|
    else
      var blank, quote := IndexFrom(v, ' ', 0), IndexFrom(v, '\'', 0);
      if quote > blank then quote else blank
  }

  /** Where the clipping leaves the start and the end of a value. */
  function ReadStart(v: string): (r: nat)
    ensures r <= |v|
  {
    CutFirst(v, 0, '"')
  }

  function ReadEnd(v: string): (r: nat)
    ensures r <= |v|
  {
    CutLast(v, if ' ' in v then CutLast(v, CutLast(v, StopIn(v), ']'), '\'') else |v|, '"')
  }

  /** What is cut out of a value; a start behind the end means everything that follows. */
  function Clip(v: string, tail: string, b: nat, e: nat): string
    requires b <= |v| && e <= |v|
  {
    if b <= e then v[b..e] else v[b..] + "'" + tail
  }

  /** What the parser reads back for a value `v` that is followed by `tail`. */
  function ReadBack(v: string, tail: string): string { Clip(v, tail, ReadStart(v), ReadEnd(v)) }

  lemma StopsInside(v: string)
    requires ' ' in v
    ensures var blank, quote := IndexFrom(v, ' ', 0), IndexFrom(v, '\'', 0);
            blank < |v| && v[blank] == ' ' && (quote < |v| ==> v[quote] == '\'') &&
            (forall i :: 0 <= i < blank ==> v[i] != ' ') && (forall i :: 0 <= i < quote ==> v[i] != '\'') &&
            (quote == |v| <==> '\'' !in v) && CutLast(v, StopIn(v), ']') > 0
  {
    FirstIndex(v, ' ', 0);
    FirstIndex(v, '\'', 0);
    assert v[0..] == v;
  }

  /** The start lies behind the end only if little more than a double quote was left to read. */
  lemma NothingLeft(v: string)
    requires ReadStart(v) > ReadEnd(v)
    ensures v[0] == '"' && (|v| > 1 ==> v[1] != '"')
  {
    if ' ' in v { StopsInside(v); }
  }

  lemma ReadWhole(v: string)
    ensures ReadStart(v) == 0 && ReadEnd(v) == |v| <==> Clean(v)
  {
    if ' ' in v { StopsInside(v); }
  }

  /** A printed value is read back unchanged if and only if it is clean. */
  lemma ReadBackExact(v: string, tail: string)
    ensures ReadBack(v, tail) == v <==> Clean(v)
  {
    var b, e := ReadStart(v), ReadEnd(v);
    ReadWhole(v);
    if b > e {
      NothingLeft(v);
      assert ReadBack(v, tail) != v by {
        if |v| > 1 { assert ReadBack(v, tail)[0] == v[1]; } else { assert ReadBack(v, tail)[0] == '\''; }
      }
    } else if e - b == |v| {
      assert v[0..|v|] == v;
    } else {
      assert |ReadBack(v, tail)| == e - b;
    }
  }

  /** `t` stands in `s` at position `p`. */
  predicate At(s: string, p: nat, t: string) {
    p + |t| <= |s| && forall j :: p <= j < p + |t| ==> s[j] == t[j - p]
  }

  lemma AtSlice(s: string, p: nat, t: string, from: nat, to: nat)
    requires At(s, p, t) && from <= to <= |t|
    ensures s[p + from..p + to] == t[from..to]
  {
  }

  lemma AtSplit(s: string, p: nat, t: string, u: string)
    requires At(s, p, t + u)
    ensures At(s, p, t) && At(s, p + |t|, u)
  {
    var w := t + u;
    assert forall j :: p <= j < p + |t| ==> s[j] == w[j - p] == t[j - p];
    assert forall j :: p + |t| <= j < p + |t| + |u| ==> s[j] == w[j - p] == u[j - p - |t|];
  }

  lemma AtOne(s: string, p: nat, c: char)
    requires At(s, p, [c])
    ensures p < |s| && s[p] == c
  {
  }

  /** "@a='v'" and then `tail` fill the text from `at` on. */
  predicate Layout(s: string, at: nat, a: string, v: string, tail: string) {
    var eq := at + 1 + |a|;
    var close := eq + 2 + |v|;
    close + 1 + |tail| == |s| && s[at] == '@' && At(s, at + 1, a) && s[eq] == '=' && s[eq + 1] == '\'' &&
    At(s, eq + 2, v) && s[close] == '\'' && At(s, close + 1, tail)
  }

  lemma LayoutOf(s: string, at: nat, a: string, v: string, tail: string)
    requires at + 4 + |a| + |v| + |tail| == |s|
    requires At(s, at, "@" + (a + ("='" + (v + ("'" + tail)))))
    ensures Layout(s, at, a, v, tail)
  {
    var t1 := "'" + tail;
    var t2 := v + t1;
    var t3 := "='" + t2;
    var t4 := a + t3;
    AtSplit(s, at, "@", t4);
    AtSplit(s, at + 1, a, t3);
    AtSplit(s, at + 1 + |a|, "='", t2);
    AtSplit(s, at + 3 + |a|, v, t1);
    AtSplit(s, at + 3 + |a| + |v|, "'", tail);
  }

  predicate TailOk(tail: string) { tail == "]" || (tail != "" && tail[0] == ' ') }

  lemma {:induction false} FirstIndex(v: string, c: char, from: nat)
    requires from <= |v|
    ensures var k := IndexFrom(v, c, from);
            (forall i :: from <= i < k ==> v[i] != c) && (c in v[from..] ==> k < |v|)
    decreases |v| - from
  {
    if from < |v| && v[from] != c {
      FirstIndex(v, c, from + 1);
      assert v[from..] == [v[from]] + v[from + 1..];
    }
  }

  /** A character that a printed attribute does not hold is next found in the tail. */
  lemma NotInside(s: string, at: nat, a: string, v: string, tail: string, c: char, from: nat)
    requires Layout(s, at, a, v, tail) && c != '=' && c != '\'' && c !in a && c !in v && at < from <= at + 2 + |a|
    ensures IndexFrom(s, c, from) == |s| - |tail| + IndexFrom(tail, c, 0)
  {
    var k := IndexFrom(tail, c, 0);
    FirstIndex(tail, c, 0);
    var close := at + 3 + |a| + |v|;
    forall i | from <= i < close + 1 + k ensures s[i] != c {
      if i < at + 1 + |a| { assert s[i] in a; }
      else if at + 3 + |a| <= i < close { assert s[i] in v; }
      else if i > close { assert s[i] == tail[i - close - 1]; }
    }
    IndexUnique(s, c, from, close + 1 + k);
  }

  lemma BlankStop(s: string, at: nat, a: string, v: string, tail: string)
    requires Layout(s, at, a, v, tail) && TailOk(tail)
    ensures var eq := at + 1 + |a|;
            IndexFrom(s, ' ', eq) ==
            if ' ' in v then eq + 2 + IndexFrom(v, ' ', 0) else |s| - |tail| + (if tail == "]" then 1 else 0)
    ensures ' ' in v ==> IndexFrom(v, ' ', 0) < |v|
  {
    var eq := at + 1 + |a|;
    if ' ' in v {
      FirstIndex(v, ' ', 0);
      assert v[0..] == v;
      var k := IndexFrom(v, ' ', 0);
      forall i | eq <= i < eq + 2 + k ensures s[i] != ' ' {
        if i >= eq + 2 { assert s[i] == v[i - eq - 2]; }
      }
      IndexUnique(s, ' ', eq, eq + 2 + k);
    } else {
      var end := |s| - |tail|;
      assert At(s, end, tail);
      assert s[end] == tail[0];
      forall i | eq <= i < end ensures s[i] != ' ' {
        if eq + 2 <= i < end - 1 { assert s[i] in v; }
      }
      IndexUnique(s, ' ', eq, if tail == "]" then end + 1 else end);
    }
  }

  /** The first quote after the opening one. */
  lemma QuoteAt(s: string, at: nat, a: string, v: string, tail: string)
    requires Layout(s, at, a, v, tail) && '\'' !in a
    ensures IndexFrom(s, '\'', at + 1) == at + 2 + |a|
    ensures IndexFrom(s, '\'', at + 3 + |a|) == at + 3 + |a| + IndexFrom(v, '\'', 0)
  {
    var eq, k := at + 1 + |a|, IndexFrom(v, '\'', 0);
    FirstIndex(v, '\'', 0);
    forall i | at + 1 <= i < eq ensures s[i] != '\'' { assert s[i] in a; }
    IndexUnique(s, '\'', at + 1, eq + 1);
    forall i | eq + 2 <= i < eq + 2 + k ensures s[i] != '\'' { assert s[i] == v[i - eq - 2]; }
    if k < |v| { assert s[eq + 2 + k] == v[k]; }
    IndexUnique(s, '\'', eq + 2, eq + 2 + k);
  }

  lemma StopAt(s: string, at: nat, a: string, v: string, tail: string)
    requires Layout(s, at, a, v, tail) && LegalAttr((a, v)) && TailOk(tail)
    ensures var eq := at + 1 + |a|;
            var close := eq + 2 + |v|;
            ValueStop(s, at + 1, eq) ==
            if ' ' in v then eq + 2 + StopIn(v) else if tail == "]" then close + 2 else close + 1
  {
    QuoteAt(s, at, a, v, tail);
    BlankStop(s, at, a, v, tail);
  }

  lemma EqualsAt(s: string, at: nat, a: string, v: string, tail: string)
    requires Layout(s, at, a, v, tail) && '=' !in a
    ensures IndexFrom(s, '=', at + 1) == at + 1 + |a| && s[at + 1..at + 1 + |a|] == a
  {
    forall i | at + 1 <= i < at + 1 + |a| ensures s[i] != '=' { assert s[i] in a; }
    IndexUnique(s, '=', at + 1, at + 1 + |a|);
  }

  /** Cutting in the text is cutting in the value, as long as something is left of the value or
      the opening quote is not what is to be cut. */
  lemma CutInside(s: string, first: nat, v: string, end: nat, c: char)
    requires 0 < first && At(s, first, v) && end <= |v| && s[first - 1] == '\'' && (c != '\'' || end > 0)
    ensures first + end <= |s| && CutLast(s, first + end, c) == first + CutLast(v, end, c)
  {
    if end > 0 { assert s[first + end - 1] == v[end - 1]; }
  }

  lemma BlankEndCut(s: string, first: nat, v: string, stop: nat)
    requires ' ' in v && 0 < first && At(s, first, v) && s[first - 1] == '\'' && stop == first + StopIn(v)
    ensures CutLast(s, CutLast(s, CutLast(s, stop, ']'), '\''), '"') == first + ReadEnd(v)
  {
    StopsInside(v);
    var kept := CutLast(v, StopIn(v), ']');
    CutInside(s, first, v, StopIn(v), ']');
    CutInside(s, first, v, kept, '\'');
    CutInside(s, first, v, CutLast(v, kept, '\''), '"');
  }

  lemma PlainEndCut(s: string, first: nat, v: string, stop: nat)
    requires ' ' !in v && 0 < first && At(s, first, v) && s[first - 1] == '\'' && first + |v| < stop <= |s|
    requires s[first + |v|] == '\'' && (stop == first + |v| + 1 || (stop == first + |v| + 2 && s[stop - 1] == ']'))
    ensures CutLast(s, CutLast(s, CutLast(s, stop, ']'), '\''), '"') == first + ReadEnd(v)
  {
    CutInside(s, first, v, |v|, '"');
  }

  lemma EndCut(s: string, at: nat, a: string, v: string, tail: string)
    requires Layout(s, at, a, v, tail) && LegalAttr((a, v)) && TailOk(tail)
    ensures CutLast(s, CutLast(s, CutLast(s, ValueStop(s, at + 1, at + 1 + |a|), ']'), '\''), '"') ==
            at + 3 + |a| + ReadEnd(v)
  {
    var first, stop := at + 3 + |a|, ValueStop(s, at + 1, at + 1 + |a|);
    StopAt(s, at, a, v, tail);
    if ' ' in v {
      BlankEndCut(s, first, v, stop);
    } else {
      assert s[first + |v| + 1] == tail[0];
      PlainEndCut(s, first, v, stop);
    }
  }

  lemma SubstringAt(s: string, first: nat, v: string, tail: string, b: nat, e: nat)
    requires At(s, first, v) && b <= |v| && e <= |v| && first + |v| + 1 + |tail| == |s|
    requires s[first + |v|] == '\'' && At(s, first + |v| + 1, tail)
    ensures Substring(s, first + b, first + e) == Clip(v, tail, b, e)
  {
    if b <= e {
      AtSlice(s, first, v, b, e);
    } else {
      assert s[first + b..] == v[b..] + "'" + tail;
    }
  }

  lemma StartCut(s: string, at: nat, a: string, v: string, tail: string)
    requires Layout(s, at, a, v, tail)
    ensures CutFirst(s, CutFirst(s, at + 2 + |a|, '\''), '"') == at + 3 + |a| + ReadStart(v)
  {
    if |v| > 0 { assert s[at + 3 + |a|] == v[0]; }
  }

  lemma ValueFromCuts(s: string, at: nat, a: string, v: string, tail: string, start: nat, end: nat)
    requires Layout(s, at, a, v, tail) && LegalAttr((a, v)) && TailOk(tail)
    requires start == at + 3 + |a| + ReadStart(v) && end == at + 3 + |a| + ReadEnd(v)
    ensures ValueAfter(s, at + 1, at + 1 + |a|) == Substring(s, start, end)
  {
    EndCut(s, at, a, v, tail);
    StartCut(s, at, a, v, tail);
  }

  lemma ReadBackAt(s: string, at: nat, a: string, v: string, tail: string, start: nat, end: nat)
    requires Layout(s, at, a, v, tail)
    requires start == at + 3 + |a| + ReadStart(v) && end == at + 3 + |a| + ReadEnd(v)
    ensures Substring(s, start, end) == ReadBack(v, tail)
  {
    var b, e := ReadStart(v), ReadEnd(v);
    SubstringAt(s, at + 3 + |a|, v, tail, b, e);
  }

  lemma ValueReadBack(s: string, at: nat, a: string, v: string, tail: string)
    requires Layout(s, at, a, v, tail) && LegalAttr((a, v)) && TailOk(tail)
    ensures ValueAfter(s, at + 1, at + 1 + |a|) == ReadBack(v, tail)
  {
    var start, end := at + 3 + |a| + ReadStart(v), at + 3 + |a| + ReadEnd(v);
    ValueFromCuts(s, at, a, v, tail, start, end);
    ReadBackAt(s, at, a, v, tail, start, end);
  }

  lemma AttributeReadBack(s: string, at: nat, a: string, v: string, tail: string)
    requires Layout(s, at, a, v, tail) && LegalAttr((a, v)) && TailOk(tail)
    ensures AttributeAt(s, at + 1) == ((a, ReadBack(v, tail)), true)
    ensures IndexFrom(s, '@', at + 1) == |s| - |tail| + IndexFrom(tail, '@', 0)
  {
    EqualsAt(s, at, a, v, tail);
    ValueReadBack(s, at, a, v, tail);
    NotInside(s, at, a, v, tail, '@', at + 1);
  }

  // ---- a printed attribute list

  function TailAfter(attrs: seq<Attr>): string
    requires attrs != []
  {
    if |attrs| == 1 then "]" else " and " + PrintAttrs(attrs[1..]) + "]"
  }

  function ReadBackAll(attrs: seq<Attr>): (r: seq<Attr>)
    ensures |r| == |attrs|
  {
    if attrs == [] then [] else [(attrs[0].0, ReadBack(attrs[0].1, TailAfter(attrs)))] + ReadBackAll(attrs[1..])
  }

  function AddAll(known: map<string, string>, attrs: seq<Attr>): map<string, string>
    decreases |attrs|
  {
    if attrs == [] then known else AddAll(known[attrs[0].0 := attrs[0].1], attrs[1..])
  }

  function AttrMap(attrs: seq<Attr>): map<string, string> { AddAll(map[], attrs) }

  lemma PrintedFirst(attrs: seq<Attr>)
    requires attrs != []
    ensures PrintAttrs(attrs) + "]" == "@" + (attrs[0].0 + ("='" + (attrs[0].1 + ("'" + TailAfter(attrs)))))
  {
  }

  /** Where the next attribute starts in what follows the first one. */
  lemma TailNext(attrs: seq<Attr>)
    requires attrs != []
    ensures TailOk(TailAfter(attrs))
    ensures IndexFrom(TailAfter(attrs), '@', 0) == if |attrs| == 1 then 1 else 5
    ensures |attrs| > 1 ==> TailAfter(attrs) == " and " + (PrintAttrs(attrs[1..]) + "]")
  {
    var tail := TailAfter(attrs);
    if |attrs| == 1 {
      IndexUnique(tail, '@', 0, 1);
    } else {
      assert PrintAttrs(attrs[1..])[0] == '@';
      assert tail[5] == '@' && tail[..5] == " and ";
      IndexUnique(tail, '@', 0, 5);
    }
  }

  lemma AfterAnd(s: string, p: nat, tail: string, rest: string)
    requires At(s, p, tail) && tail == " and " + rest
    ensures At(s, p + 5, rest) && p + 5 + |rest| == p + |tail|
  {
    AtSplit(s, p, " and ", rest);
  }

  lemma ReadOne(s: string, at: nat, a: string, v: string, tail: string, known: map<string, string>, value: string,
                next: nat)
    requires Layout(s, at, a, v, tail) && LegalAttr((a, v)) && TailOk(tail)
    requires value == ReadBack(v, tail) && next == |s| - |tail| + IndexFrom(tail, '@', 0)
    ensures ReadsOn(s, at, known, a, value, next)
  {
    AttributeReadBack(s, at, a, v, tail);
    ReadsOnce(s, at, known, a, value, next);
  }

  /** A printed attribute list and its closing bracket fill the text from `at` on. */
  predicate Printed(s: string, at: nat, attrs: seq<Attr>) {
    At(s, at, PrintAttrs(attrs) + "]") && at + |PrintAttrs(attrs)| + 1 == |s|
  }

  lemma FirstLayout(s: string, at: nat, attrs: seq<Attr>, tail: string) returns (p: nat)
    requires attrs != [] && Printed(s, at, attrs) && tail == TailAfter(attrs)
    ensures Layout(s, at, attrs[0].0, attrs[0].1, tail)
    ensures At(s, p, tail) && p + |tail| == |s|
  {
    PrintedFirst(attrs);
    LayoutOf(s, at, attrs[0].0, attrs[0].1, tail);
    p := at + 4 + |attrs[0].0| + |attrs[0].1|;
  }

  lemma RestPrinted(s: string, p: nat, attrs: seq<Attr>, tail: string, next: nat)
    requires |attrs| > 1 && tail == TailAfter(attrs) && At(s, p, tail) && p + |tail| == |s| && next == p + 5
    ensures Printed(s, next, attrs[1..])
  {
    TailNext(attrs);
    AfterAnd(s, p, tail, PrintAttrs(attrs[1..]) + "]");
  }

  lemma ReadFirst(s: string, at: nat, attrs: seq<Attr>, known: map<string, string>, value: string) returns (next: nat)
    requires attrs != [] && LegalAttr(attrs[0]) && Printed(s, at, attrs) &&
             value == ReadBack(attrs[0].1, TailAfter(attrs))
    ensures next <= |s|
    ensures ReadsOn(s, at, known, attrs[0].0, value, next)
    ensures if |attrs| == 1 then next == |s| else Printed(s, next, attrs[1..])
  {
    var tail := TailAfter(attrs);
    var p := FirstLayout(s, at, attrs, tail);
    TailNext(attrs);
    next := p + IndexFrom(tail, '@', 0);
    ReadOne(s, at, attrs[0].0, attrs[0].1, tail, known, value, next);
    if |attrs| > 1 { RestPrinted(s, p, attrs, tail, next); }
  }

  lemma {:induction false} PrintedAttributes(s: string, at: nat, attrs: seq<Attr>, known: map<string, string>)
    requires attrs != [] && LegalAttrs(attrs) && Printed(s, at, attrs)
    ensures AttributesFrom(s, at, known) == AddAll(known, ReadBackAll(attrs))
    decreases |attrs|
  {
    var all := ReadBackAll(attrs);
    assert all[1..] == ReadBackAll(attrs[1..]);
    var value := all[0].1;
    var next := ReadFirst(s, at, attrs, known, value);
    if |attrs| > 1 {
      PrintedAttributes(s, next, attrs[1..], known[all[0].0 := value]);
    }
  }

  // ---- a printed section

  lemma NameBounds(s: string, name: string)
    requires |name| <= |s| && At(s, 0, name) && (|name| == |s| || s[|name|] == '[') && '[' !in name
    ensures IndexFrom(s, '[', 0) == |name|
    ensures var colon := IndexFrom(name, ':', 0);
            if colon < |name| then IndexFrom(s, ':', 0) == colon else IndexFrom(s, ':', 0) >= |name|
  {
    var colon := IndexFrom(name, ':', 0);
    FirstIndex(name, ':', 0);
    forall i | 0 <= i < |name| ensures s[i] != '[' { assert s[i] in name; }
    IndexUnique(s, '[', 0, |name|);
    if colon < |name| {
      IndexUnique(s, ':', 0, colon);
    } else {
      assert forall i :: 0 <= i < |name| ==> s[i] == name[i] != ':';
    }
  }

  lemma NameFromBounds(s: string, start: nat, end: nat, colon: nat)
    requires end == IndexFrom(s, '[', 0) && colon == IndexFrom(s, ':', 0)
    requires start == (if colon == |s| || colon > end then 0 else colon + 1) && start < |s| && s[start] != '@'
    ensures NodeName(s) == Substring(s, start, end)
  {
  }

  /** A name followed by nothing or by a bracket is read up to the bracket. */
  lemma NameBeforeBracket(s: string, name: string, start: nat)
    requires |name| <= |s| && At(s, 0, name) && (|name| == |s| || s[|name|] == '[') && LegalName(name)
    requires start == (if IndexFrom(name, ':', 0) == |name| then 0 else IndexFrom(name, ':', 0) + 1)
    ensures start < |name| && NodeName(s) == Substring(s, start, |name|)
  {
    NameBounds(s, name);
    assert start < |name|;
    assert s[start] == name[start] && name[start] in name;
    NameFromBounds(s, start, |name|, IndexFrom(s, ':', 0));
  }

  lemma SectionName(e: Elem)
    requires LegalName(e.name)
    ensures NodeName(Section(e)) == LocalName(e.name) != ""
  {
    var s, n := Section(e), |e.name|;
    var colon := IndexFrom(e.name, ':', 0);
    var start := if colon == n then 0 else colon + 1;
    NameBeforeBracket(s, e.name, start);
    AtSlice(s, 0, e.name, start, n);
  }

  lemma BracketAt(s: string, name: string, text: string)
    requires s == name + ("[" + text) && '@' !in name && text != "" && text[0] == '@'
    ensures IndexFrom(s, '@', 0) == |name| + 1 && At(s, |name| + 1, text)
  {
    forall i | 0 <= i < |name| + 1 ensures s[i] != '@' {
      if i < |name| { assert s[i] in name; }
    }
    IndexUnique(s, '@', 0, |name| + 1);
  }

  lemma SectionQualifiers(e: Elem)
    requires '@' !in e.name && LegalAttrs(e.attrs)
    ensures Qualifiers(Section(e)) == AddAll(map[], ReadBackAll(e.attrs))
  {
    var s := Section(e);
    if e.attrs == [] {
      assert s == e.name;
      forall i | 0 <= i < |s| ensures s[i] != '@' { assert s[i] in e.name; }
      IndexUnique(s, '@', 0, |s|);
    } else {
      var text := PrintAttrs(e.attrs) + "]";
      assert "[" + PrintAttrs(e.attrs) + "]" == "[" + text;
      BracketAt(s, e.name, text);
      PrintedAttributes(s, |e.name| + 1, e.attrs, map[]);
    }
  }

  // ---- which attribute lists come back unchanged

  predicate CleanAttrs(attrs: seq<Attr>) {
    forall i :: 0 <= i < |attrs| ==> Clean(attrs[i].1)
  }

  lemma {:induction false} ReadBackNames(attrs: seq<Attr>, i: nat)
    requires i < |attrs|
    ensures ReadBackAll(attrs)[i].0 == attrs[i].0
    ensures ReadBackAll(attrs)[i].1 == attrs[i].1 <==> Clean(attrs[i].1)
    decreases |attrs|
  {
    if i == 0 {
      ReadBackExact(attrs[0].1, TailAfter(attrs));
    } else {
      ReadBackNames(attrs[1..], i - 1);
    }
  }

  lemma {:induction false} AddAllKeepsOthers(known: map<string, string>, attrs: seq<Attr>, name: string)
    requires forall i :: 0 <= i < |attrs| ==> attrs[i].0 != name
    ensures name in AddAll(known, attrs) <==> name in known
    ensures name in known ==> AddAll(known, attrs)[name] == known[name]
    decreases |attrs|
  {
    if attrs != [] { AddAllKeepsOthers(known[attrs[0].0 := attrs[0].1], attrs[1..], name); }
  }

  lemma {:induction false} AddAllLookup(known: map<string, string>, attrs: seq<Attr>, i: nat)
    requires i < |attrs| && forall j, k :: 0 <= j < k < |attrs| ==> attrs[j].0 != attrs[k].0
    ensures attrs[i].0 in AddAll(known, attrs) && AddAll(known, attrs)[attrs[i].0] == attrs[i].1
    decreases |attrs|
  {
    var known' := known[attrs[0].0 := attrs[0].1];
    if i == 0 {
      AddAllKeepsOthers(known', attrs[1..], attrs[0].0);
    } else {
      AddAllLookup(known', attrs[1..], i - 1);
    }
  }

  lemma AttrsReadBackExact(attrs: seq<Attr>)
    requires LegalAttrs(attrs)
    ensures AddAll(map[], ReadBackAll(attrs)) == AttrMap(attrs) <==> CleanAttrs(attrs)
  {
    var back := ReadBackAll(attrs);
    forall i | 0 <= i < |attrs| ensures back[i].0 == attrs[i].0 && (back[i].1 == attrs[i].1 <==> Clean(attrs[i].1)) {
      ReadBackNames(attrs, i);
    }
    if CleanAttrs(attrs) {
      assert back == attrs;
    } else {
      var i :| 0 <= i < |attrs| && !Clean(attrs[i].1);
      AddAllLookup(map[], attrs, i);
      AddAllLookup(map[], back, i);
    }
  }

  // ---- a printed path

  function Joined(sections: seq<string>): string {
    if sections == [] then "" else "/" + (sections[0] + Joined(sections[1..]))
  }

  lemma Glue(t: string, c: string, f: string)
    ensures (t + "/" + c) + f == t + ("/" + (c + f))
  {
  }

  lemma PathTextSnoc(a: seq<Elem>, e: Elem)
    ensures PathText(a + [e]) == PathText(a) + "/" + Section(e)
  {
    assert (a + [e])[..|a + [e]| - 1] == a;
  }

  lemma {:induction false} PathTextJoined(a: seq<Elem>, b: seq<Elem>)
    ensures PathText(a + b) == PathText(a) + Joined(Sections(b))
    decreases |b|
  {
    if b == [] {
      assert a + b == a;
      assert PathText(a) + "" == PathText(a);
    } else {
      var a' := a + [b[0]];
      assert a + b == a' + b[1..];
      PathTextJoined(a', b[1..]);
      PathTextSnoc(a, b[0]);
      var sections := Sections(b);
      assert sections[1..] == Sections(b[1..]);
      Glue(PathText(a), sections[0], Joined(sections[1..]));
    }
  }

  function Sections(path: seq<Elem>): (r: seq<string>)
    ensures |r| == |path| && forall i :: 0 <= i < |path| ==> r[i] == Section(path[i])
  {
    seq(|path|, i requires 0 <= i < |path| => Section(path[i]))
  }

  lemma {:induction false} AttrsNoSlash(attrs: seq<Attr>)
    requires forall i :: 0 <= i < |attrs| ==> '/' !in attrs[i].0 && '/' !in attrs[i].1
    ensures '/' !in PrintAttrs(attrs)
    decreases |attrs|
  {
    if attrs != [] {
      AttrsNoSlash(attrs[1..]);
      var a, b, rest := attrs[0].0, attrs[0].1, PrintAttrs(attrs[1..]);
      assert '/' !in "@" && '/' !in "='" && '/' !in "'" && '/' !in " and ";
      assert '/' !in "@" + a + "='" + b + "'";
      assert '/' !in " and " + rest;
    }
  }

  lemma SectionNoSlash(e: Elem)
    requires Legal(e)
    ensures '/' !in Section(e)
  {
    forall i | 0 <= i < |e.attrs| ensures '/' !in e.attrs[i].0 && '/' !in e.attrs[i].1 { assert LegalAttr(e.attrs[i]); }
    AttrsNoSlash(e.attrs);
    assert '/' !in "[" && '/' !in "]";
  }

  lemma SplitLast(s: string, p: nat, first: string)
    requires At(s, p, first) && p + |first| == |s| && '/' !in first
    ensures SplitFrom(s, p) == [first]
  {
    forall i | p <= i < |s| ensures s[i] != '/' { assert s[i] in first; }
    IndexUnique(s, '/', p, |s|);
    assert s[p..] == first;
  }

  lemma SplitStep(s: string, p: nat, first: string, tail: string, next: nat)
    requires At(s, p, first + ("/" + tail)) && p + |first| + 1 + |tail| == |s| && '/' !in first &&
             next == p + |first| + 1
    ensures SplitFrom(s, p) == [first] + SplitFrom(s, next)
    ensures At(s, next, tail)
  {
    AtSplit(s, p, first, "/" + tail);
    AtSplit(s, p + |first|, "/", tail);
    AtOne(s, p + |first|, '/');
    forall i | p <= i < p + |first| ensures s[i] != '/' { assert s[i] in first; }
    IndexUnique(s, '/', p, p + |first|);
    assert s[p..p + |first|] == first;
  }

  lemma {:induction false} SplitJoined(s: string, p: nat, sections: seq<string>, tail: string)
    requires sections != [] && forall i :: 0 <= i < |sections| ==> '/' !in sections[i]
    requires tail == sections[0] + Joined(sections[1..]) && At(s, p, tail) && p + |tail| == |s|
    ensures SplitFrom(s, p) == sections
    decreases |sections|
  {
    var first, rest := sections[0], sections[1..];
    if rest == [] {
      assert tail == first;
      SplitLast(s, p, first);
      assert sections == [first];
    } else {
      var tail', next := rest[0] + Joined(rest[1..]), p + |first| + 1;
      assert Joined(rest) == "/" + tail';
      SplitStep(s, p, first, tail', next);
      SplitJoined(s, next, rest, tail');
      assert [first] + rest == sections;
    }
  }

  /** Cutting a joined path at its slashes gives back the sections. */
  lemma SplitUndoesJoin(sections: seq<string>)
    requires sections != [] && forall i :: 0 <= i < |sections| ==> '/' !in sections[i]
    requires sections[0] != ""
    ensures var s := Joined(sections);
            SkipSlashes(s, 0) == 1 < |s| && SplitFrom(s, 1) == sections
  {
    var s, tail := Joined(sections), sections[0] + Joined(sections[1..]);
    assert s == "/" + tail;
    assert s[1] == sections[0][0] && sections[0][0] in sections[0];
    assert SkipSlashes(s, 1) == 1;
    SplitJoined(s, 1, sections, tail);
  }

  function ReadSteps(path: seq<Elem>): (r: seq<Step>)
    ensures |r| == |path|
  {
    seq(|path|, i requires 0 <= i < |path| => Step(LocalName(path[i].name), AddAll(map[], ReadBackAll(path[i].attrs))))
  }

  ghost predicate ReadsAs(section: string, step: Step) {
    NodeName(section) == step.name != "" && Qualifiers(section) == step.qualifiers
  }

  lemma SectionReadsAs(e: Elem, step: Step)
    requires Legal(e) && step == Step(LocalName(e.name), AddAll(map[], ReadBackAll(e.attrs)))
    ensures ReadsAs(Section(e), step)
  {
    SectionName(e);
    SectionQualifiers(e);
  }

  /** Named sections are added as they are. */
  lemma {:induction false} AssembleNamed(sections: seq<Step>, i: nat, j: nat, q: Query)
    requires i <= j <= |sections| && forall k :: i <= k < j ==> sections[k].name != ""
    ensures Assemble(sections, i, q) == Assemble(sections, j, q.(steps := q.steps + sections[i..j]))
    decreases j - i
  {
    if i == j {
      assert q.steps + sections[i..j] == q.steps;
    } else {
      var next := q.(steps := q.steps + [sections[i]]);
      AssembleNamed(sections, i + 1, j, next);
      assert next.steps + sections[i + 1..j] == q.steps + sections[i..j];
    }
  }

  ghost predicate AllRead(sections: seq<string>, steps: seq<Step>) {
    |sections| == |steps| && forall i :: 0 <= i < |sections| ==> '/' !in sections[i] && ReadsAs(sections[i], steps[i])
  }

  lemma ParseJoined(sections: seq<string>)
    requires sections != [] && sections[0] != "" && forall i :: 0 <= i < |sections| ==> '/' !in sections[i]
    ensures Parse(Joined(sections)) == Assemble(ReadSections(sections), 0, Query([], "", NO_DEPTH))
  {
    SplitUndoesJoin(sections);
  }

  /** A path of sections with names is parsed into just what the sections read as. */
  lemma NamedSections(sections: seq<string>, steps: seq<Step>)
    requires sections != [] && sections[0] != "" && AllRead(sections, steps)
    ensures Parse(Joined(sections)) == Valid(Query(steps, "", NO_DEPTH))
  {
    ParseJoined(sections);
    assert ReadSections(sections) == steps;
    AssembleNamed(steps, 0, |steps|, Query([], "", NO_DEPTH));
    assert [] + steps[0..|steps|] == steps;
  }

  lemma PathSections(path: seq<Elem>)
    requires LegalPath(path)
    ensures PathText(path) == Joined(Sections(path)) && Sections(path)[0] != ""
    ensures AllRead(Sections(path), ReadSteps(path))
  {
    var sections := Sections(path);
    PathTextJoined([], path);
    assert [] + path == path && "" + Joined(sections) == Joined(sections);
    assert path[0].name != "";
    forall j | 0 <= j < |path| ensures '/' !in sections[j] && ReadsAs(sections[j], ReadSteps(path)[j]) {
      SectionNoSlash(path[j]);
      SectionReadsAs(path[j], ReadSteps(path)[j]);
    }
  }

  lemma PathReadBack(path: seq<Elem>)
    requires LegalPath(path)
    ensures Parse(PathText(path)) == Valid(Query(ReadSteps(path), "", NO_DEPTH))
  {
    PathSections(path);
    NamedSections(Sections(path), ReadSteps(path));
  }

  /** The node names in order with their exact attribute maps. */
  function StepsOf(path: seq<Elem>): (r: seq<Step>)
    ensures |r| == |path|
  {
    seq(|path|, i requires 0 <= i < |path| => Step(LocalName(path[i].name), AttrMap(path[i].attrs)))
  }

  ghost predicate CleanPath(path: seq<Elem>) {
    forall i :: 0 <= i < |path| ==> CleanAttrs(path[i].attrs)
  }

  lemma StepsExact(path: seq<Elem>)
    requires forall j :: 0 <= j < |path| ==> Legal(path[j])
    ensures ReadSteps(path) == StepsOf(path) <==> CleanPath(path)
  {
    var read, steps := ReadSteps(path), StepsOf(path);
    forall i | 0 <= i < |path| ensures read[i] == steps[i] <==> CleanAttrs(path[i].attrs) {
      AttrsReadBackExact(path[i].attrs);
    }
    if !CleanPath(path) {
      var i :| 0 <= i < |path| && !CleanAttrs(path[i].attrs);
      assert read[i] != steps[i];
    }
  }

  /** Parsing undoes printing, for any depth and any number of attributes, if and only if no
      printed value has something at its ends that the parser clips. */
  lemma RoundTrip(path: seq<Elem>)
    requires LegalPath(path)
    ensures Parse(PathText(path)) == Valid(Query(StepsOf(path), "", NO_DEPTH)) <==> CleanPath(path)
  {
    PathReadBack(path);
    StepsExact(path);
  }

  // ---- a whole document

  /** Every node that is printed has legal names and values. */
  ghost predicate LegalTree(node: Node) {
    (node.name != "" && node.name[0] == '#') ||
    (LegalName(node.name) && LegalAttrs(node.attrs) &&
     forall i :: 0 <= i < |node.children| ==> LegalTree(node.children[i]))
  }

  ghost predicate LegalPaths(paths: seq<seq<Elem>>) {
    forall k :: 0 <= k < |paths| ==> LegalPath(paths[k])
  }

  lemma {:induction false} PathsLegal(node: Node, above: seq<Elem>, level: Level)
    requires LegalTree(node) && forall j :: 0 <= j < |above| ==> Legal(above[j])
    ensures LegalPaths(PathsBelow(node, above, level))
    decreases node, 1, 0
  {
    if node.name == "" || node.name[0] != '#' {
      var kept := Elem(node.name, if level.AttrAll? then node.attrs else []);
      PathsLegalEach(node, 0, above + [kept], level);
    }
  }

  lemma {:induction false} PathsLegalEach(node: Node, i: nat, above: seq<Elem>, level: Level)
    requires i <= |node.children| && forall j :: 0 <= j < |node.children| ==> LegalTree(node.children[j])
    requires forall j :: 0 <= j < |above| ==> Legal(above[j])
    ensures LegalPaths(PathsBelowEach(node, i, above, level))
    decreases node, 0, |node.children| - i
  {
    if i < |node.children| {
      PathsLegal(node.children[i], above, level);
      PathsLegalEach(node, i + 1, above, level);
    }
  }

  ghost predicate ParsesBack(xpath: string, path: seq<Elem>) {
    Parse(xpath) == Valid(Query(StepsOf(path), "", NO_DEPTH))
  }

  lemma AllParseBack(paths: seq<seq<Elem>>)
    requires LegalPaths(paths)
    ensures forall k :: 0 <= k < |paths| ==> (ParsesBack(PathText(paths[k]), paths[k]) <==> CleanPath(paths[k]))
  {
    forall k | 0 <= k < |paths| ensures ParsesBack(PathText(paths[k]), paths[k]) <==> CleanPath(paths[k]) {
      assert LegalPath(paths[k]);
      RoundTrip(paths[k]);
    }
  }

  /** Every path the program lists for a document parses back to the names and attributes of its
      nodes, if and only if its values are clean. */
  method GetXPaths(root: Node, level: Level) returns (xpaths: seq<string>)
    requires LegalTree(root)
    ensures var paths := PathsBelow(root, [], level);
            xpaths == PrintAll(paths) && forall k :: 0 <= k < |paths| ==>
              (ParsesBack(xpaths[k], paths[k]) <==> CleanPath(paths[k]))
  {
    ghost var paths := PathsBelow(root, [], level);
    xpaths := AddNodeToList(root, "", [], level, []);
    assert xpaths == PrintAll(paths);
    PathsLegal(root, [], level);
    AllParseBack(paths);
  }
}
