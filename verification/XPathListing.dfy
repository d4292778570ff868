/** The paths listed for a document, used as search paths: when does a listed path find its node? */
module XPathListing {
  import opened XPaths
  import opened XPathPrinting
  import opened XPathSearch

  // ---- the node behind each listed path

  /** A line of descent, from one node to a node below it. */
  ghost predicate Line(line: seq<Node>) {
    line != [] && forall i :: 0 <= i < |line| - 1 ==> line[i + 1] in line[i].children
  }

  predicate Hidden(node: Node) { node.name != "" && node.name[0] == '#' }

  /** The lines that lead to `node` and to everything below it that is listed, in document order. */
  function LinesBelow(node: Node, above: seq<Node>): seq<seq<Node>>
    decreases node, 1, 0
  {
    if Hidden(node) then [] else [above + [node]] + LinesBelowEach(node, 0, above + [node])
  }

  function LinesBelowEach(node: Node, i: nat, above: seq<Node>): seq<seq<Node>>
    requires i <= |node.children|
    decreases node, 0, |node.children| - i
  {
    if i == |node.children| then [] else LinesBelow(node.children[i], above) + LinesBelowEach(node, i + 1, above)
  }

  /** The attributes printed with the i-th node of a line. */
  function Shown(line: seq<Node>, i: nat, level: Level): seq<Attr>
    requires i < |line|
  {
    if level.AttrAll? || (level.AttrLast? && i == |line| - 1) then line[i].attrs else []
  }

  function PathOf(line: seq<Node>, level: Level): (r: seq<Elem>)
    ensures |r| == |line|
  {
    seq(|line|, i requires 0 <= i < |line| => Elem(line[i].name, Shown(line, i, level)))
  }

  function PathsOf(lines: seq<seq<Node>>, level: Level): (r: seq<seq<Elem>>)
    ensures |r| == |lines| && forall k :: 0 <= k < |lines| ==> r[k] == PathOf(lines[k], level)
  {
    seq(|lines|, k requires 0 <= k < |lines| => PathOf(lines[k], level))
  }

  /** What is printed of the nodes above. */
  function PathAbove(line: seq<Node>, level: Level): (r: seq<Elem>)
    ensures |r| == |line|
  {
    seq(|line|, i requires 0 <= i < |line| => Elem(line[i].name, if level.AttrAll? then line[i].attrs else []))
  }

  lemma PathSnoc(above: seq<Node>, node: Node, level: Level)
    ensures PathOf(above + [node], level) ==
            PathAbove(above, level) + [Elem(node.name, if level.AttrNone? then [] else node.attrs)]
    ensures PathAbove(above + [node], level) ==
            PathAbove(above, level) + [Elem(node.name, if level.AttrAll? then node.attrs else [])]
  {
  }

  lemma PathsOfConcat(a: seq<seq<Node>>, b: seq<seq<Node>>, level: Level)
    ensures PathsOf(a + b, level) == PathsOf(a, level) + PathsOf(b, level)
  {
  }

  lemma {:induction false} PathsAreOfLines(node: Node, above: seq<Node>, level: Level)
    ensures PathsBelow(node, PathAbove(above, level), level) == PathsOf(LinesBelow(node, above), level)
    decreases node, 1, 0
  {
    if !Hidden(node) {
      PathSnoc(above, node, level);
      PathsAreOfLinesEach(node, 0, above + [node], level);
      PathsOfConcat([above + [node]], LinesBelowEach(node, 0, above + [node]), level);
      assert PathsOf([above + [node]], level) == [PathOf(above + [node], level)];
    }
  }

  lemma {:induction false} PathsAreOfLinesEach(node: Node, i: nat, above: seq<Node>, level: Level)
    requires i <= |node.children|
    ensures PathsBelowEach(node, i, PathAbove(above, level), level) == PathsOf(LinesBelowEach(node, i, above), level)
    decreases node, 0, |node.children| - i
  {
    if i < |node.children| {
      PathsAreOfLines(node.children[i], above, level);
      PathsAreOfLinesEach(node, i + 1, above, level);
      PathsOfConcat(LinesBelow(node.children[i], above), LinesBelowEach(node, i + 1, above), level);
    }
  }

  /** A line that goes on from `above` through listed nodes. */
  ghost predicate Listed(above: seq<Node>, line: seq<Node>) {
    above < line && Line(line) && forall i :: |above| <= i < |line| ==> !Hidden(line[i])
  }

  ghost predicate AllListed(above: seq<Node>, lines: seq<seq<Node>>) {
    forall k :: 0 <= k < |lines| ==> Listed(above, lines[k])
  }

  lemma ListedFromAbove(above: seq<Node>, node: Node, lines: seq<seq<Node>>)
    requires !Hidden(node) && AllListed(above + [node], lines)
    ensures AllListed(above, lines)
  {
    forall k | 0 <= k < |lines| ensures Listed(above, lines[k]) {
      assert above + [node] < lines[k];
      assert lines[k][|above|] == (above + [node])[|above|];
      assert above == (above + [node])[..|above|];
    }
  }

  lemma LineSnoc(above: seq<Node>, node: Node)
    requires above == [] || (Line(above) && node in above[|above| - 1].children)
    ensures Line(above + [node])
  {
    var line := above + [node];
    forall i | 0 <= i < |line| - 1 ensures line[i + 1] in line[i].children {
      if i < |above| - 1 { assert above[i + 1] in above[i].children; }
    }
  }

  lemma {:induction false} LinesAreListed(node: Node, above: seq<Node>)
    requires above == [] || (Line(above) && node in above[|above| - 1].children)
    ensures AllListed(above, LinesBelow(node, above))
    decreases node, 1, 0
  {
    if !Hidden(node) {
      LineSnoc(above, node);
      LinesAreListedEach(node, 0, above + [node]);
      ListedFromAbove(above, node, LinesBelowEach(node, 0, above + [node]));
    }
  }

  lemma {:induction false} LinesAreListedEach(node: Node, i: nat, above: seq<Node>)
    requires i <= |node.children| && Line(above) && above[|above| - 1] == node
    ensures AllListed(above, LinesBelowEach(node, i, above))
    decreases node, 0, |node.children| - i
  {
    if i < |node.children| {
      LinesAreListed(node.children[i], above);
      LinesAreListedEach(node, i + 1, above);
    }
  }

  lemma LineRest(line: seq<Node>)
    requires Line(line) && |line| > 1
    ensures Line(line[1..]) && line[1] in line[0].children && line[1..][|line| - 2] == line[|line| - 1]
  {
    var rest := line[1..];
    forall i | 0 <= i < |rest| - 1 ensures rest[i + 1] in rest[i].children {
      assert line[i + 2] in line[i + 1].children;
    }
  }

  /** Nothing is left out: every line through listed nodes is among them. */
  lemma {:induction false} EveryLineListed(node: Node, above: seq<Node>, line: seq<Node>)
    requires Line(line) && line[0] == node && forall i :: 0 <= i < |line| ==> !Hidden(line[i])
    ensures above + line in LinesBelow(node, above)
    decreases |line|
  {
    var below := LinesBelowEach(node, 0, above + [node]);
    assert !Hidden(line[0]);
    if |line| == 1 {
      assert line == [node] && LinesBelow(node, above)[0] == above + line;
    } else {
      var rest := line[1..];
      LineRest(line);
      forall i | 0 <= i < |rest| ensures !Hidden(rest[i]) { assert rest[i] == line[i + 1]; }
      EveryLineListed(rest[0], above + [node], rest);
      assert above + [node] + rest == above + line;
      var i :| 0 <= i < |node.children| && node.children[i] == rest[0];
      ChildLineListed(node, 0, i, above + [node], above + line);
      assert above + line in below;
    }
  }

  lemma {:induction false} ChildLineListed(node: Node, at: nat, i: nat, above: seq<Node>, line: seq<Node>)
    requires at <= i < |node.children| && line in LinesBelow(node.children[i], above)
    ensures line in LinesBelowEach(node, at, above)
    decreases i - at
  {
    if at < i { ChildLineListed(node, at + 1, i, above, line); }
  }

  // ---- only one line leads to a node

  lemma {:induction false} ChildIds(n: Node, i: nat, j: nat)
    requires i <= j < |n.children|
    ensures Ids(n.children[j]) <= IdsEach(n, i)
    decreases j - i
  {
    if i < j { ChildIds(n, i + 1, j); }
  }

  lemma {:induction false} ChildrenApart(n: Node, at: nat, i: nat, j: nat)
    requires at <= i < j < |n.children| && UniqueEach(n, at)
    ensures Ids(n.children[i]) !! Ids(n.children[j]) && UniqueIds(n.children[i]) && UniqueIds(n.children[j])
    decreases i - at
  {
    if at < i {
      ChildrenApart(n, at + 1, i, j);
    } else {
      ChildIds(n, at + 1, j);
      ChildUnique(n, at, j);
    }
  }

  lemma {:induction false} ChildUnique(n: Node, at: nat, i: nat)
    requires at <= i < |n.children| && UniqueEach(n, at)
    ensures UniqueIds(n.children[i])
    decreases i - at
  {
    if at < i { ChildUnique(n, at + 1, i); }
  }

  lemma {:induction false} LineIds(line: seq<Node>)
    requires Line(line)
    ensures line[|line| - 1].id in Ids(line[0])
    decreases |line|
  {
    if |line| > 1 {
      LineRest(line);
      LineIds(line[1..]);
      var i :| 0 <= i < |line[0].children| && line[0].children[i] == line[1];
      ChildIds(line[0], 0, i);
    }
  }

  lemma SameChild(n: Node, a: Node, b: Node, id: nat)
    requires UniqueIds(n) && a in n.children && b in n.children && id in Ids(a) && id in Ids(b)
    ensures a == b && UniqueIds(a)
  {
    var i :| 0 <= i < |n.children| && n.children[i] == a;
    var j :| 0 <= j < |n.children| && n.children[j] == b;
    ChildUnique(n, 0, i);
    if i < j { ChildrenApart(n, 0, i, j); }
    if j < i { ChildrenApart(n, 0, j, i); }
  }

  lemma LongerLine(line: seq<Node>)
    requires Line(line) && |line| > 1 && UniqueIds(line[0])
    ensures line[|line| - 1].id != line[0].id
  {
    LineRest(line);
    LineIds(line[1..]);
    var i :| 0 <= i < |line[0].children| && line[0].children[i] == line[1];
    ChildIds(line[0], 0, i);
  }

  /** In a document of distinct nodes a node is reached in one way only. */
  lemma {:induction false} LineUnique(a: seq<Node>, b: seq<Node>)
    requires Line(a) && Line(b) && a[0] == b[0] && UniqueIds(a[0]) && a[|a| - 1].id == b[|b| - 1].id
    ensures a == b
    decreases |a|
  {
    if |a| == 1 || |b| == 1 {
      if |a| > 1 { LongerLine(a); }
      if |b| > 1 { LongerLine(b); }
    } else {
      LineRest(a);
      LineRest(b);
      LineIds(a[1..]);
      LineIds(b[1..]);
      SameChild(a[0], a[1], b[1], a[|a| - 1].id);
      LineUnique(a[1..], b[1..]);
      assert a == [a[0]] + a[1..] && b == [b[0]] + b[1..];
    }
  }

  // ---- one node against what its own section is read as

  /** The value comes back whole, or nothing of it does, which the search takes for any value. */
  predicate Survives(v: string) { Clean(v) || ReadStart(v) == ReadEnd(v) }

  lemma SurvivesExact(v: string, tail: string)
    ensures Survives(v) <==> ReadBack(v, tail) == "" || ReadBack(v, tail) == v
  {
    ReadBackExact(v, tail);
    var b, e := ReadStart(v), ReadEnd(v);
    if b <= e { assert |ReadBack(v, tail)| == e - b; } else { assert '\'' in ReadBack(v, tail); }
  }

  lemma {:induction false} ReadBackSurvives(attrs: seq<Attr>, i: nat)
    requires i < |attrs|
    ensures ReadBackAll(attrs)[i].0 == attrs[i].0
    ensures Survives(attrs[i].1) <==> ReadBackAll(attrs)[i].1 == "" || ReadBackAll(attrs)[i].1 == attrs[i].1
    decreases |attrs|
  {
    if i == 0 { SurvivesExact(attrs[0].1, TailAfter(attrs)); } else { ReadBackSurvives(attrs[1..], i - 1); }
  }

  predicate AllSurvive(attrs: seq<Attr>) { forall i :: 0 <= i < |attrs| ==> Survives(attrs[i].1) }

  lemma OwnAttribute(attrs: seq<Attr>, i: nat)
    requires LegalAttrs(attrs) && i < |attrs|
    ensures var quals := AddAll(map[], ReadBackAll(attrs));
            attrs[i].0 in quals && (Holds(attrs, attrs[i].0, quals[attrs[i].0]) <==> Survives(attrs[i].1))
  {
    var back := ReadBackAll(attrs);
    forall j | 0 <= j < |attrs| ensures back[j].0 == attrs[j].0 { ReadBackSurvives(attrs, j); }
    ReadBackSurvives(attrs, i);
    AddAllLookup(map[], back, i);
    assert FirstNamed(attrs, attrs[i].0, 0) == i;
  }

  lemma OnlyOwnAttributes(attrs: seq<Attr>, name: string) returns (i: nat)
    requires name in AddAll(map[], ReadBackAll(attrs))
    ensures i < |attrs| && attrs[i].0 == name
  {
    var back := ReadBackAll(attrs);
    if forall j :: 0 <= j < |back| ==> back[j].0 != name { AddAllKeepsOthers(map[], back, name); }
    i :| 0 <= i < |back| && back[i].0 == name;
    ReadBackSurvives(attrs, i);
  }

  /** A node meets its own printed qualifiers if and only if every value survives. */
  lemma OwnQualifiers(attrs: seq<Attr>)
    requires LegalAttrs(attrs)
    ensures Qualifies(attrs, AddAll(map[], ReadBackAll(attrs))) <==> AllSurvive(attrs)
  {
    var quals := AddAll(map[], ReadBackAll(attrs));
    if AllSurvive(attrs) {
      forall k | k in quals ensures Holds(attrs, k, quals[k]) {
        var i := OnlyOwnAttributes(attrs, k);
        OwnAttribute(attrs, i);
      }
    }
    if Qualifies(attrs, quals) {
      forall i | 0 <= i < |attrs| ensures Survives(attrs[i].1) { OwnAttribute(attrs, i); }
    }
  }

  /** The name is read back as it is, or as the one that fits every node. */
  predicate NameSurvives(name: string) { ':' !in name || LocalName(name) == "*" }

  lemma LocalNameExact(name: string)
    ensures LocalName(name) == name <==> ':' !in name
  {
    FirstIndex(name, ':', 0);
    var colon := IndexFrom(name, ':', 0);
    assert name[0..] == name;
    if colon < |name| { assert |LocalName(name)| < |name|; }
  }

  lemma OwnStep(node: Node, attrs: seq<Attr>)
    requires LegalName(node.name) && LegalAttrs(node.attrs) && (attrs == [] || attrs == node.attrs)
    ensures Fits(node, Step(LocalName(node.name), AddAll(map[], ReadBackAll(attrs)))) <==>
            NameSurvives(node.name) && AllSurvive(attrs)
  {
    LocalNameExact(node.name);
    OwnQualifiers(node.attrs);
  }

  // ---- when a listed path finds its node

  ghost predicate LegalLine(line: seq<Node>) {
    forall i :: 0 <= i < |line| ==> LegalName(line[i].name) && LegalAttrs(line[i].attrs)
  }

  /** Every name on the line and every value printed with it can be looked for. */
  ghost predicate Searchable(line: seq<Node>, level: Level) {
    forall i: nat :: i < |line| ==> NameSurvives(line[i].name) && AllSurvive(Shown(line, i, level))
  }

  function QueryOf(line: seq<Node>, level: Level): Query { Query(ReadSteps(PathOf(line, level)), "", NO_DEPTH) }

  lemma OwnSteps(line: seq<Node>, level: Level)
    requires LegalLine(line)
    ensures (forall i: nat :: i < |line| ==> Fits(line[i], QueryOf(line, level).steps[i])) <==> Searchable(line, level)
  {
    forall i: nat | i < |line|
      ensures Fits(line[i], QueryOf(line, level).steps[i]) <==>
              NameSurvives(line[i].name) && AllSurvive(Shown(line, i, level))
    {
      OwnStep(line[i], Shown(line, i, level));
    }
  }

  lemma {:induction false} StartHasLine(q: Query, root: Node, n: Node) returns (line: seq<Node>)
    requires q.steps != [] && IsStart(q, root, n)
    ensures Line(line) && line[0] == root && line[|line| - 1] == n
    ensures !NameFits(root, q.steps[0]) ==> |line| > 1
    decreases root
  {
    if NameFits(root, q.steps[0]) {
      line := [root];
    } else {
      var i :| 0 <= i < |root.children| && IsStart(q, root.children[i], n);
      var rest := StartHasLine(q, root.children[i], n);
      line := [root] + rest;
      forall j | 0 <= j < |line| - 1 ensures line[j + 1] in line[j].children {
        if j > 0 { assert rest[j] in rest[j - 1].children; }
      }
    }
  }

  lemma LineJoin(a: seq<Node>, b: seq<Node>)
    requires Line(a) && Line(b) && a[|a| - 1] == b[0]
    ensures Line(a + b[1..]) && (a + b[1..])[|a + b[1..]| - 1] == b[|b| - 1]
  {
    var line := a + b[1..];
    forall i | 0 <= i < |line| - 1 ensures line[i + 1] in line[i].children {
      if i >= |a| - 1 {
        var j := i - (|a| - 1);
        assert line[i] == b[j] && line[i + 1] == b[j + 1];
        assert b[j + 1] in b[j].children;
      }
    }
  }

  lemma SameLine(start: seq<Node>, chain: seq<Node>, doc: Node, line: seq<Node>)
    requires start != [] && |chain| == |line| > 0 && start[|start| - 1] == chain[0]
    requires start + chain[1..] == [doc, line[0]] + line[1..]
    ensures chain == line && |start| == 2
  {
    var all := start + chain[1..];
    assert |start| == 2 && all[1] == start[1] && all[1] == line[0];
    assert chain[1..] == all[2..] && line[1..] == all[2..];
    assert chain == [chain[0]] + chain[1..] && line == [line[0]] + line[1..];
  }

  /** A match with as many nodes as the line, that ends at the same node, is that line; and the
      document node is not part of it. */
  lemma MatchIsLine(q: Query, doc: Node, line: seq<Node>, chain: seq<Node>)
    requires UniqueIds(doc) && Line(line) && line[0] in doc.children && |line| == |q.steps| && Match(q, doc, chain)
    requires chain[|chain| - 1].id == line[|line| - 1].id
    ensures chain == line && !NameFits(doc, q.steps[0])
  {
    var start := StartHasLine(q, doc, chain[0]);
    LineJoin(start, chain);
    LineJoin([doc, line[0]], line);
    LineUnique(start + chain[1..], [doc, line[0]] + line[1..]);
    SameLine(start, chain, doc, line);
  }

  lemma FitsIsMatch(q: Query, doc: Node, line: seq<Node>)
    requires Line(line) && line[0] in doc.children && |line| == |q.steps| && !NameFits(doc, q.steps[0])
    requires forall i: nat :: i < |line| ==> Fits(line[i], q.steps[i])
    ensures Match(q, doc, line)
  {
    var i :| 0 <= i < |doc.children| && doc.children[i] == line[0];
    assert Fits(line[0], q.steps[0]);
    assert IsStart(q, doc.children[i], line[0]);
  }

  /** Parsing the text finds the node when the document is searched. */
  ghost predicate Finds(xpath: string, doc: Node, node: Node) {
    Parse(xpath).Valid? && (node.id, "") in Search(Parse(xpath).query, doc, 0)
  }

  /** The path printed for a node finds it if and only if no name on the way has a namespace prefix
      (unless what follows it fits all nodes), every printed value survives the parser, and the first
      name cannot be taken for the document node. */
  ghost predicate Findable(doc: Node, line: seq<Node>, level: Level)
    requires line != []
  {
    Searchable(line, level) && LocalName(line[0].name) != "*" && LocalName(line[0].name) != doc.name
  }

  lemma NothingAsked(q: Query, line: seq<Node>)
    requires LegalLine(line) && line != [] && |line| == |q.steps| && q.attribute == ""
    ensures HitOf(q, line, 0, "") == (line[|line| - 1].id, "")
  {
    if q.attrDepth < |q.steps| { assert LegalAttrs(line[q.attrDepth].attrs); }
  }

  /** The end of a line is found, with a value, if and only if each node fits its own step, the document
      node does not fit the first, and the value is that of the line. */
  lemma LineIsFound(q: Query, doc: Node, line: seq<Node>, hit: Hit)
    requires UniqueIds(doc) && Line(line) && line[0] in doc.children && |line| == |q.steps|
    requires hit.0 == line[|line| - 1].id
    ensures hit in Search(q, doc, 0) <==>
            !NameFits(doc, q.steps[0]) && hit == HitOf(q, line, 0, "") &&
            forall i: nat :: i < |line| ==> Fits(line[i], q.steps[i])
  {
    if hit in Search(q, doc, 0) {
      var chain := FoundIsMatch(q, doc, hit);
      MatchIsLine(q, doc, line, chain);
      forall i: nat | i < |line| ensures Fits(line[i], q.steps[i]) { assert Fits(chain[i], q.steps[0 + i]); }
    }
    if !NameFits(doc, q.steps[0]) && forall i: nat :: i < |line| ==> Fits(line[i], q.steps[i]) {
      FitsIsMatch(q, doc, line);
      MatchIsFound(q, doc, line);
    }
  }

  lemma PrintedFindsNode(doc: Node, line: seq<Node>, level: Level)
    requires UniqueIds(doc) && Line(line) && line[0] in doc.children && LegalLine(line)
    ensures Finds(PathText(PathOf(line, level)), doc, line[|line| - 1]) <==> Findable(doc, line, level)
  {
    var path, q, hit := PathOf(line, level), QueryOf(line, level), (line[|line| - 1].id, "");
    PathReadBack(path);
    assert Finds(PathText(path), doc, line[|line| - 1]) <==> hit in Search(q, doc, 0);
    LineIsFound(q, doc, line, hit);
    NothingAsked(q, line);
    OwnSteps(line, level);
    assert q.steps[0].name == LocalName(line[0].name);
  }

  lemma {:induction false} ListedIsLegal(line: seq<Node>)
    requires Listed([], line) && LegalTree(line[0])
    ensures LegalLine(line)
    decreases |line|
  {
    if |line| > 1 {
      var rest := line[1..];
      LineRest(line);
      assert !Hidden(line[0]);
      forall i | 0 <= i < |rest| ensures !Hidden(rest[i]) { assert rest[i] == line[i + 1]; }
      ListedIsLegal(rest);
      assert line == [line[0]] + rest;
    }
  }

  lemma {:induction false} LinesBegin(node: Node, above: seq<Node>, k: nat)
    requires k < |LinesBelow(node, above)| && AllListed(above + [node], LinesBelowEach(node, 0, above + [node]))
    ensures above + [node] <= LinesBelow(node, above)[k]
  {
    if k > 0 { assert Listed(above + [node], LinesBelowEach(node, 0, above + [node])[k - 1]); }
  }

  /** Every path listed for a document belongs to a node, in document order, and finds it under
      exactly that condition. */
  lemma ListedFindNodes(doc: Node, root: Node, level: Level, k: nat)
    requires UniqueIds(doc) && root in doc.children && LegalTree(root) && k < |LinesBelow(root, [])|
    ensures var lines, xpaths := LinesBelow(root, []), PrintAll(PathsBelow(root, [], level));
            |xpaths| == |lines| && lines[k] != [] && lines[k][0] == root &&
            (Finds(xpaths[k], doc, lines[k][|lines[k]| - 1]) <==> Findable(doc, lines[k], level))
  {
    var line := LinesBelow(root, [])[k];
    PathsAreOfLines(root, [], level);
    LinesAreListed(root, []);
    LinesAreListedEach(root, 0, [root]);
    assert [] + [root] == [root];
    LinesBegin(root, [], k);
    assert Listed([], line);
    ListedIsLegal(line);
    PrintedFindsNode(doc, line, level);
  }
}
