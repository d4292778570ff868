/** The search for the nodes and attribute values a parsed path asks for. The program threads
    a depth, a current node and an attribute value through its recursive calls. */
module XPathSearch {
  import opened XPaths
  import opened XPathPrinting

  type Hit = (nat, string)  // node, value of the attribute asked for

  // ---- one node against one step

  /** The first attribute of that name, or the number of attributes. */
  function FirstNamed(attrs: seq<Attr>, name: string, from: nat): (r: nat)
    requires from <= |attrs|
    ensures from <= r <= |attrs|
    ensures r < |attrs| ==> attrs[r].0 == name
    ensures forall i :: from <= i < r ==> attrs[i].0 != name
    decreases |attrs| - from
  {
    if from == |attrs| || attrs[from].0 == name then from else FirstNamed(attrs, name, from + 1)
  }

  predicate NameFits(n: Node, s: Step) {
    n.name == s.name || s.name == "" || s.name == "*"
  }

  /** The node has the attribute, with that value unless none is asked for. */
  predicate Holds(attrs: seq<Attr>, name: string, value: string) {
    var i := FirstNamed(attrs, name, 0);
    i < |attrs| && (value == "" || value == attrs[i].1)
  }

  predicate Qualifies(attrs: seq<Attr>, quals: map<string, string>) {
    forall k :: k in quals ==> Holds(attrs, k, quals[k])
  }

  predicate Fits(n: Node, s: Step) {
    NameFits(n, s) && Qualifies(n.attrs, s.qualifiers)
  }

  function AttrValue(attrs: seq<Attr>, name: string): string {
    var i := FirstNamed(attrs, name, 0);
    if i < |attrs| then attrs[i].1 else ""
  }

  /** One qualifier against the attributes of a node. While handling the qualifier that names the
      attribute asked for, the program keeps the value of whichever attribute it looked at last. */
  method CheckOne(attrs: seq<Attr>, attr: string, val: string, asked: string, before: string)
    returns (hit: bool, value: string)
    ensures hit == Holds(attrs, attr, val)
    ensures attr != asked ==> value == before
    ensures attr == asked && hit ==> value == AttrValue(attrs, asked)
  {
    value := before;
    for i := 0 to |attrs|
      invariant i <= FirstNamed(attrs, attr, 0)
      invariant attr != asked ==> value == before
    {
      if attr == asked { value := attrs[i].1; }
      if attr == attrs[i].0 {
        hit := val == "" || val == attrs[i].1;
        return;
      }
    }
    hit := false;
  }

  /** The qualifiers of a step, in any order: all must pass, and the value comes from the
      attribute asked for. */
  method CheckQualifiers(attrs: seq<Attr>, quals: map<string, string>, asked: string)
    returns (passed: bool, value: string)
    ensures passed == Qualifies(attrs, quals)
    ensures passed ==> value == if asked in quals then AttrValue(attrs, asked) else ""
  {
    var npassed := 0;
    value := "";
    var todo := quals.Keys;
    ghost var good: set<string> := {};
    while todo != {}
      invariant todo <= quals.Keys
      invariant good <= quals.Keys - todo && npassed == |good|
      invariant forall k :: k in quals && k !in todo ==> (k in good <==> Holds(attrs, k, quals[k]))
      invariant asked !in quals || asked in todo ==> value == ""
      invariant asked in good ==> value == AttrValue(attrs, asked)
    {
      var attr :| attr in todo;
      var hit;
      hit, value := CheckOne(attrs, attr, quals[attr], asked, value);
      if hit {
        npassed := npassed + 1;
        good := good + {attr};
      }
      todo := todo - {attr};
    }
    passed := npassed == |quals|;
    assert Qualifies(attrs, quals) <==> good == quals.Keys;
    AllOf(good, quals.Keys);
  }

  lemma AllOf(a: set<string>, b: set<string>)
    requires a <= b
    ensures |a| == |b| <==> a == b
  {
    assert b == a + (b - a);
    assert |b| == |a| + |b - a|;
  }

  // ---- what is found

  /** The value a node at the depth of the attribute asked for supplies. */
  function ValueAt(q: Query, n: Node): string
    requires q.attrDepth < |q.steps|
  {
    if q.attribute in q.steps[q.attrDepth].qualifiers then AttrValue(n.attrs, q.attribute) else ""
  }

  function ValueAfterNode(q: Query, n: Node, d: nat, value: string): string {
    if d == q.attrDepth && d < |q.steps| then ValueAt(q, n) else value
  }

  /** What is found from `n` on when `n` is to match the `d`-th step. */
  function Under(q: Query, n: Node, d: nat, value: string): seq<Hit>
    requires d < |q.steps|
    decreases n, 1, 0
  {
    if !Fits(n, q.steps[d]) then []
    else if d == |q.steps| - 1 then [(n.id, ValueAfterNode(q, n, d, value))]
    else UnderEach(q, n, 0, d + 1, ValueAfterNode(q, n, d, value))
  }

  function UnderEach(q: Query, n: Node, i: nat, d: nat, value: string): seq<Hit>
    requires i <= |n.children| && d < |q.steps|
    decreases n, 0, |n.children| - i
  {
    if i == |n.children| then [] else Under(q, n.children[i], d, value) + UnderEach(q, n, i + 1, d, value)
  }

  /** The shallowest nodes whose name fits the first step, in document order. */
  function Starts(q: Query, n: Node): seq<Node>
    requires q.steps != []
    decreases n, 1, 0
  {
    if NameFits(n, q.steps[0]) then [n] else StartsEach(q, n, 0)
  }

  function StartsEach(q: Query, n: Node, i: nat): seq<Node>
    requires q.steps != [] && i <= |n.children|
    decreases n, 0, |n.children| - i
  {
    if i == |n.children| then [] else Starts(q, n.children[i]) + StartsEach(q, n, i + 1)
  }

  predicate Enough(max: nat, have: nat) { max > 0 && have >= max }

  /** The starts are searched one after the other until enough is found; 0 means no limit. */
  function Limited(q: Query, starts: seq<Node>, max: nat, have: nat): seq<Hit>
    requires q.steps != []
  {
    if starts == [] then []
    else
      var hits := Under(q, starts[0], 0, "");
      if Enough(max, have + |hits|) then hits else hits + Limited(q, starts[1..], max, have + |hits|)
  }

  function Search(q: Query, doc: Node, max: nat): seq<Hit> {
    if q.steps == [] then [] else Limited(q, Starts(q, doc), max, 0)
  }

  /** Nothing found depends on the value carried in, while the depth that sets it is still ahead. */
  lemma {:induction false} ValueIgnored(q: Query, n: Node, d: nat, v: string, w: string)
    requires d <= q.attrDepth < |q.steps|
    ensures Under(q, n, d, v) == Under(q, n, d, w)
    decreases n, 1, 0
  {
    if d < q.attrDepth { ValueIgnoredEach(q, n, 0, d + 1, v, w); }
  }

  lemma {:induction false} ValueIgnoredEach(q: Query, n: Node, i: nat, d: nat, v: string, w: string)
    requires d <= q.attrDepth < |q.steps| && i <= |n.children|
    ensures UnderEach(q, n, i, d, v) == UnderEach(q, n, i, d, w)
    decreases n, 0, |n.children| - i
  {
    if i < |n.children| {
      ValueIgnored(q, n.children[i], d, v, w);
      ValueIgnoredEach(q, n, i + 1, d, v, w);
    }
  }

  lemma LimitedFirst(q: Query, starts: seq<Node>, first: Node, rest: seq<Node>, hits: seq<Hit>, max: nat, have: nat)
    requires q.steps != [] && starts == [first] + rest && hits == Under(q, first, 0, "")
    ensures Limited(q, starts, max, have) ==
            if Enough(max, have + |hits|) then hits else hits + Limited(q, rest, max, have + |hits|)
  {
    assert starts[1..] == rest;
  }

  lemma ConcatHits(a: seq<Hit>, b: seq<Hit>, c: seq<Hit>)
    ensures a + (b + c) == (a + b) + c
  {
  }

  /** Continuing the search with more starts after `r` has been found. */
  function Continued(q: Query, r: seq<Hit>, more: seq<Node>, max: nat, have: nat): seq<Hit>
    requires q.steps != []
  {
    if Enough(max, have + |r|) then r else r + Limited(q, more, max, have + |r|)
  }

  lemma {:induction false} LimitedConcat(q: Query, a: seq<Node>, b: seq<Node>, max: nat, have: nat, r: seq<Hit>)
    requires q.steps != [] && !Enough(max, have) && r == Limited(q, a, max, have)
    ensures Limited(q, a + b, max, have) == Continued(q, r, b, max, have)
    decreases |a|
  {
    if a == [] {
      assert a + b == b && [] + Limited(q, b, max, have) == Limited(q, b, max, have);
    } else {
      var hits, rest := Under(q, a[0], 0, ""), a[1..];
      var have' := have + |hits|;
      assert a == [a[0]] + rest && a + b == [a[0]] + (rest + b);
      LimitedFirst(q, a, a[0], rest, hits, max, have);
      LimitedFirst(q, a + b, a[0], rest + b, hits, max, have);
      if !Enough(max, have') {
        var r' := Limited(q, rest, max, have');
        LimitedConcat(q, rest, b, max, have', r');
        ConcatHits(hits, r', Limited(q, b, max, have' + |r'|));
      }
    }
  }

  // ---- the search as the program runs it

  class SearchParameters {
    const query: Query
    const maxValues: nat
    var attributes: seq<Hit>
    var depth: nat
    var attrValue: string
    var current: Node

    constructor (query: Query, maxValues: nat, doc: Node)
      ensures this.query == query && this.maxValues == maxValues
      ensures attributes == [] && depth == 0 && attrValue == "" && current == doc
    {
      this.query, this.maxValues := query, maxValues;
      attributes, depth, attrValue, current := [], 0, "", doc;
    }

    /** The carried value is only ever changed at the depth that supplies it. */
    ghost predicate ValueSettled() reads this { depth > query.attrDepth || query.attrDepth >= |query.steps| }

    method SearchTree()
      requires depth == 0 ==> !Enough(maxValues, |attributes|) && (ValueSettled() ==> attrValue == "")
      modifies this
      ensures depth == old(depth)
      ensures old(ValueSettled()) ==> attrValue == old(attrValue)
      ensures depth >= |query.steps| ==> attributes == old(attributes)
      ensures 0 < depth < |query.steps| ==>
                attributes == old(attributes) + Under(query, old(current), depth, old(attrValue))
      ensures 0 == depth < |query.steps| ==>
                attributes == old(attributes) +
                              Limited(query, Starts(query, old(current)), maxValues, |old(attributes)|)
      decreases current, 2
    {
      if depth >= |query.steps| { return; }
      var step := query.steps[depth];
      if current.name != step.name && step.name != "" && step.name != "*" {
        if depth != 0 { return; }
        SearchForStart(current);
        return;
      }
      if depth == 0 {
        OneStart(query, current, attrValue, maxValues, |attributes|);
      }
      MatchNode();
    }

    /** The current node's name fits the step at this depth. */
    method MatchNode()
      requires depth < |query.steps| && NameFits(current, query.steps[depth])
      modifies this
      ensures depth == old(depth)
      ensures old(ValueSettled()) ==> attrValue == old(attrValue)
      ensures attributes == old(attributes) + Under(query, old(current), depth, old(attrValue))
      decreases current, 1
    {
      var passed, myValue := CheckQualifiers(current.attrs, query.steps[depth].qualifiers, query.attribute);
      if !passed { return; }
      if depth == query.attrDepth { attrValue := myValue; }
      if depth == |query.steps| - 1 {
        attributes := attributes + [(current.id, attrValue)];
        return;
      }
      var saved := current;
      depth := depth + 1;
      SearchBelow(saved);
      depth := depth - 1;
      current := saved;
    }

    /** The children of a node that is not yet the start of a match. */
    method SearchForStart(node: Node)
      requires depth == 0 < |query.steps| && !Enough(maxValues, |attributes|) && (ValueSettled() ==> attrValue == "")
      modifies this
      ensures depth == 0
      ensures old(ValueSettled()) ==> attrValue == old(attrValue)
      ensures attributes == old(attributes) + Limited(query, StartsEach(query, node, 0), maxValues, |old(attributes)|)
      decreases node, 0
    {
      ghost var all := attributes + Limited(query, StartsEach(query, node, 0), maxValues, |attributes|);
      for i := 0 to |node.children|
        invariant depth == 0 && !Enough(maxValues, |attributes|)
        invariant ValueSettled() ==> attrValue == ""
        invariant attributes + Limited(query, StartsEach(query, node, i), maxValues, |attributes|) == all
      {
        ghost var before := attributes;
        ghost var found := Limited(query, Starts(query, node.children[i]), maxValues, |before|);
        NextChild(query, node, i, maxValues, before, found);
        current := node.children[i];
        SearchTree();
        if Enough(maxValues, |attributes|) { return; }
      }
    }

    /** The children of a matched node against the step at this depth. */
    method SearchBelow(node: Node)
      requires 0 < depth < |query.steps|
      modifies this
      ensures depth == old(depth)
      ensures old(ValueSettled()) ==> attrValue == old(attrValue)
      ensures attributes == old(attributes) + UnderEach(query, node, 0, depth, old(attrValue))
      decreases node, 0
    {
      ghost var value, d := attrValue, depth;
      ghost var all := attributes + UnderEach(query, node, 0, d, value);
      for i := 0 to |node.children|
        invariant depth == d
        invariant old(ValueSettled()) ==> attrValue == value
        invariant attributes + UnderEach(query, node, i, d, value) == all
      {
        ghost var child := node.children[i];
        if !ValueSettled() { ValueIgnored(query, child, d, attrValue, value); }
        ConcatHits(attributes, Under(query, child, d, value), UnderEach(query, node, i + 1, d, value));
        current := node.children[i];
        SearchTree();
      }
    }
  }

  lemma OneStart(q: Query, n: Node, value: string, max: nat, have: nat)
    requires q.steps != [] && NameFits(n, q.steps[0]) && (q.attrDepth >= |q.steps| ==> value == "")
    ensures Limited(q, Starts(q, n), max, have) == Under(q, n, 0, value)
  {
    var hits := Under(q, n, 0, "");
    if q.attrDepth < |q.steps| { ValueIgnored(q, n, 0, value, ""); }
    LimitedFirst(q, [n], n, [], hits, max, have);
    assert hits + [] == hits;
  }

  lemma NextChild(q: Query, n: Node, i: nat, max: nat, before: seq<Hit>, found: seq<Hit>)
    requires q.steps != [] && i < |n.children| && !Enough(max, |before|)
    requires found == Limited(q, Starts(q, n.children[i]), max, |before|)
    ensures before + Limited(q, StartsEach(q, n, i), max, |before|) ==
              if Enough(max, |before + found|) then before + found
              else (before + found) + Limited(q, StartsEach(q, n, i + 1), max, |before + found|)
  {
    var rest := StartsEach(q, n, i + 1);
    LimitedConcat(q, Starts(q, n.children[i]), rest, max, |before|, found);
    ConcatHits(before, found, Limited(q, rest, max, |before| + |found|));
  }

  /** The whole search leaves exactly what `Search` describes. */
  method FindAttributeValues(q: Query, doc: Node, max: nat) returns (hits: seq<Hit>)
    ensures hits == Search(q, doc, max)
  {
    var sp := new SearchParameters(q, max, doc);
    sp.SearchTree();
    hits := sp.attributes;
  }

  // ---- an independent account of a match

  /** A line of descent, each node fitting its own step from the `d`-th to the last. */
  ghost predicate Chain(q: Query, chain: seq<Node>, d: nat) {
    chain != [] && d + |chain| == |q.steps| &&
    (forall i :: 0 <= i < |chain| ==> Fits(chain[i], q.steps[d + i])) &&
    forall i :: 0 <= i < |chain| - 1 ==> chain[i + 1] in chain[i].children
  }

  /** The node at the end, with the value supplied by the node of that same line at the depth of
      the attribute asked for. */
  ghost function HitOf(q: Query, chain: seq<Node>, d: nat, value: string): Hit
    requires chain != [] && d + |chain| == |q.steps|
  {
    (chain[|chain| - 1].id, if d <= q.attrDepth < |q.steps| then ValueAt(q, chain[q.attrDepth - d]) else value)
  }

  /** `n` is reached from `root` without passing a node whose name fits the first step. */
  ghost predicate IsStart(q: Query, root: Node, n: Node)
    requires q.steps != []
  {
    if NameFits(root, q.steps[0]) then n == root
    else exists i :: 0 <= i < |root.children| && IsStart(q, root.children[i], n)
  }

  ghost predicate Match(q: Query, doc: Node, chain: seq<Node>) {
    Chain(q, chain, 0) && IsStart(q, doc, chain[0])
  }

  lemma {:induction false} UnderHasChain(q: Query, n: Node, d: nat, value: string, hit: Hit) returns (chain: seq<Node>)
    requires d < |q.steps| && hit in Under(q, n, d, value)
    ensures Chain(q, chain, d) && chain[0] == n && hit == HitOf(q, chain, d, value)
    decreases n, 1, 0
  {
    if d == |q.steps| - 1 {
      chain := [n];
    } else {
      var v := ValueAfterNode(q, n, d, value);
      var rest := UnderEachHasChain(q, n, 0, d + 1, v, hit);
      chain := [n] + rest;
      forall i | 0 <= i < |chain| ensures Fits(chain[i], q.steps[d + i]) {
        if i > 0 { assert chain[i] == rest[i - 1]; }
      }
    }
  }

  lemma {:induction false} UnderEachHasChain(q: Query, n: Node, i: nat, d: nat, value: string, hit: Hit)
    returns (chain: seq<Node>)
    requires i <= |n.children| && d < |q.steps| && hit in UnderEach(q, n, i, d, value)
    ensures Chain(q, chain, d) && chain[0] in n.children && hit == HitOf(q, chain, d, value)
    decreases n, 0, |n.children| - i
  {
    if hit in Under(q, n.children[i], d, value) {
      chain := UnderHasChain(q, n.children[i], d, value, hit);
    } else {
      chain := UnderEachHasChain(q, n, i + 1, d, value, hit);
    }
  }

  lemma {:induction false} ChainIsUnder(q: Query, chain: seq<Node>, d: nat, value: string)
    requires Chain(q, chain, d)
    ensures HitOf(q, chain, d, value) in Under(q, chain[0], d, value)
    decreases |chain|
  {
    var n := chain[0];
    assert Fits(n, q.steps[d]);
    if |chain| > 1 {
      var rest, v := chain[1..], ValueAfterNode(q, n, d, value);
      forall i | 0 <= i < |rest| ensures Fits(rest[i], q.steps[d + 1 + i]) { assert rest[i] == chain[i + 1]; }
      ChainIsUnder(q, rest, d + 1, v);
      assert HitOf(q, rest, d + 1, v) == HitOf(q, chain, d, value);
      var i :| 0 <= i < |n.children| && n.children[i] == rest[0];
      ChildIsUnder(q, n, 0, i, d + 1, v, HitOf(q, chain, d, value));
    }
  }

  lemma {:induction false} ChildIsUnder(q: Query, n: Node, j: nat, i: nat, d: nat, value: string, hit: Hit)
    requires j <= i < |n.children| && d < |q.steps| && hit in Under(q, n.children[i], d, value)
    ensures hit in UnderEach(q, n, j, d, value)
    decreases i - j
  {
    if j < i { ChildIsUnder(q, n, j + 1, i, d, value, hit); }
  }

  lemma {:induction false} StartsExact(q: Query, root: Node, n: Node)
    requires q.steps != []
    ensures n in Starts(q, root) <==> IsStart(q, root, n)
    decreases root, 1, 0
  {
    if !NameFits(root, q.steps[0]) { StartsEachExact(q, root, 0, n); }
  }

  lemma {:induction false} StartsEachExact(q: Query, root: Node, j: nat, n: Node)
    requires q.steps != [] && j <= |root.children|
    ensures n in StartsEach(q, root, j) <==> exists i :: j <= i < |root.children| && IsStart(q, root.children[i], n)
    decreases root, 0, |root.children| - j
  {
    if j < |root.children| {
      StartsExact(q, root.children[j], n);
      StartsEachExact(q, root, j + 1, n);
    }
  }

  lemma {:induction false} HitHasStart(q: Query, starts: seq<Node>, have: nat, all: seq<Hit>, hit: Hit) returns (k: nat)
    requires q.steps != [] && all == Limited(q, starts, 0, have) && hit in all
    ensures k < |starts| && hit in Under(q, starts[k], 0, "")
    decreases |starts|
  {
    var first, rest := starts[0], starts[1..];
    var hits := Under(q, first, 0, "");
    var more := Limited(q, rest, 0, have + |hits|);
    LimitedFirst(q, starts, first, rest, hits, 0, have);
    if hit in hits {
      k := 0;
    } else {
      assert hit in more;
      k := HitHasStart(q, rest, have + |hits|, more, hit);
      k := k + 1;
    }
  }

  lemma {:induction false} StartHasHit(q: Query, starts: seq<Node>, have: nat, all: seq<Hit>, k: nat, hit: Hit)
    requires q.steps != [] && all == Limited(q, starts, 0, have) && k < |starts| && hit in Under(q, starts[k], 0, "")
    ensures hit in all
    decreases |starts|
  {
    var first, rest := starts[0], starts[1..];
    var hits := Under(q, first, 0, "");
    var more := Limited(q, rest, 0, have + |hits|);
    LimitedFirst(q, starts, first, rest, hits, 0, have);
    if k > 0 {
      assert rest[k - 1] == starts[k];
      StartHasHit(q, rest, have + |hits|, more, k - 1, hit);
    }
    InConcat(hits, more, hit);
  }

  lemma InConcat(a: seq<Hit>, b: seq<Hit>, hit: Hit)
    ensures hit in a + b <==> hit in a || hit in b
  {
  }

  lemma FoundIsMatch(q: Query, doc: Node, hit: Hit) returns (chain: seq<Node>)
    requires q.steps != [] && hit in Search(q, doc, 0)
    ensures Match(q, doc, chain) && hit == HitOf(q, chain, 0, "")
  {
    var starts := Starts(q, doc);
    var k := HitHasStart(q, starts, 0, Search(q, doc, 0), hit);
    StartsExact(q, doc, starts[k]);
    chain := UnderHasChain(q, starts[k], 0, "", hit);
  }

  lemma MatchIsFound(q: Query, doc: Node, chain: seq<Node>)
    requires q.steps != [] && Match(q, doc, chain)
    ensures HitOf(q, chain, 0, "") in Search(q, doc, 0)
  {
    var starts := Starts(q, doc);
    StartsExact(q, doc, chain[0]);
    ChainIsUnder(q, chain, 0, "");
    var k :| 0 <= k < |starts| && starts[k] == chain[0];
    StartHasHit(q, starts, 0, Search(q, doc, 0), k, HitOf(q, chain, 0, ""));
  }

  /** The unlimited search finds exactly the matches: lines of descent that begin at a shallowest
      node fitting the first name, each value taken from its own line. */
  lemma SearchExact(q: Query, doc: Node, hit: Hit)
    requires q.steps != []
    ensures hit in Search(q, doc, 0) <==> exists chain :: Match(q, doc, chain) && hit == HitOf(q, chain, 0, "")
  {
    if hit in Search(q, doc, 0) {
      var chain := FoundIsMatch(q, doc, hit);
    }
    if chain :| Match(q, doc, chain) && hit == HitOf(q, chain, 0, "") {
      MatchIsFound(q, doc, chain);
    }
  }

  // ---- no match is reported twice

  ghost function Ids(n: Node): set<nat>
    decreases n, 1, 0
  {
    {n.id} + IdsEach(n, 0)
  }

  ghost function IdsEach(n: Node, i: nat): set<nat>
    requires i <= |n.children|
    decreases n, 0, |n.children| - i
  {
    if i == |n.children| then {} else Ids(n.children[i]) + IdsEach(n, i + 1)
  }

  /** Different nodes of the document are different objects. */
  ghost predicate UniqueIds(n: Node)
    decreases n, 1, 0
  {
    n.id !in IdsEach(n, 0) && UniqueEach(n, 0)
  }

  ghost predicate UniqueEach(n: Node, i: nat)
    requires i <= |n.children|
    decreases n, 0, |n.children| - i
  {
    i == |n.children| ||
    (UniqueIds(n.children[i]) && Ids(n.children[i]) !! IdsEach(n, i + 1) && UniqueEach(n, i + 1))
  }

  /** All hits are at nodes in `ids`, no two at the same node. */
  ghost predicate Separate(hits: seq<Hit>, ids: set<nat>) {
    (forall i :: 0 <= i < |hits| ==> hits[i].0 in ids) &&
    forall i, j :: 0 <= i < j < |hits| ==> hits[i].0 != hits[j].0
  }

  lemma SeparateConcat(a: seq<Hit>, b: seq<Hit>, s: set<nat>, t: set<nat>)
    requires Separate(a, s) && Separate(b, t) && s !! t
    ensures Separate(a + b, s + t)
  {
  }

  lemma SeparateWiden(a: seq<Hit>, s: set<nat>, t: set<nat>)
    requires Separate(a, s) && s <= t
    ensures Separate(a, t)
  {
  }

  lemma {:induction false} UnderSeparate(q: Query, n: Node, d: nat, value: string)
    requires d < |q.steps| && UniqueIds(n)
    ensures Separate(Under(q, n, d, value), Ids(n))
    decreases n, 1, 0
  {
    if d < |q.steps| - 1 {
      var v := ValueAfterNode(q, n, d, value);
      UnderEachSeparate(q, n, 0, d + 1, v);
      SeparateWiden(UnderEach(q, n, 0, d + 1, v), IdsEach(n, 0), Ids(n));
    }
  }

  lemma {:induction false} UnderEachSeparate(q: Query, n: Node, i: nat, d: nat, value: string)
    requires i <= |n.children| && d < |q.steps| && UniqueEach(n, i)
    ensures Separate(UnderEach(q, n, i, d, value), IdsEach(n, i))
    decreases n, 0, |n.children| - i
  {
    if i < |n.children| {
      UnderSeparate(q, n.children[i], d, value);
      UnderEachSeparate(q, n, i + 1, d, value);
      var first, rest := Under(q, n.children[i], d, value), UnderEach(q, n, i + 1, d, value);
      SeparateConcat(first, rest, Ids(n.children[i]), IdsEach(n, i + 1));
    }
  }

  lemma {:induction false} StartsSeparate(q: Query, n: Node, have: nat)
    requires q.steps != [] && UniqueIds(n)
    ensures Separate(Limited(q, Starts(q, n), 0, have), Ids(n))
    decreases n, 1, 0
  {
    if NameFits(n, q.steps[0]) {
      UnderSeparate(q, n, 0, "");
      LimitedFirst(q, [n], n, [], Under(q, n, 0, ""), 0, have);
      assert Under(q, n, 0, "") + [] == Under(q, n, 0, "");
    } else {
      StartsEachSeparate(q, n, 0, have);
      SeparateWiden(Limited(q, StartsEach(q, n, 0), 0, have), IdsEach(n, 0), Ids(n));
    }
  }

  lemma {:induction false} StartsEachSeparate(q: Query, n: Node, i: nat, have: nat)
    requires q.steps != [] && i <= |n.children| && UniqueEach(n, i)
    ensures Separate(Limited(q, StartsEach(q, n, i), 0, have), IdsEach(n, i))
    decreases n, 0, |n.children| - i
  {
    if i < |n.children| {
      var a, b := Starts(q, n.children[i]), StartsEach(q, n, i + 1);
      StartsSeparate(q, n.children[i], have);
      StartsEachSeparate(q, n, i + 1, have + |Limited(q, a, 0, have)|);
      LimitedSeparate(q, a, b, have, Limited(q, a, 0, have), Ids(n.children[i]), IdsEach(n, i + 1));
    }
  }

  lemma LimitedSeparate(q: Query, a: seq<Node>, b: seq<Node>, have: nat, r: seq<Hit>, s: set<nat>, t: set<nat>)
    requires q.steps != [] && r == Limited(q, a, 0, have) && s !! t
    requires Separate(r, s) && Separate(Limited(q, b, 0, have + |r|), t)
    ensures Separate(Limited(q, a + b, 0, have), s + t)
  {
    LimitedConcat(q, a, b, 0, have, r);
    SeparateConcat(r, Limited(q, b, 0, have + |r|), s, t);
  }

  /** In a document of distinct nodes no node is reported twice. */
  lemma SearchSeparate(q: Query, doc: Node)
    requires UniqueIds(doc)
    ensures Separate(Search(q, doc, 0), Ids(doc))
  {
    if q.steps != [] { StartsSeparate(q, doc, 0); }
  }

  // ---- the limit

  ghost predicate FirstPart(some: seq<Hit>, all: seq<Hit>, max: nat, have: nat) {
    some <= all && (some == [] ==> all == []) && (some == all || Enough(max, have + |some|))
  }

  lemma FirstPartPrepend(hits: seq<Hit>, some: seq<Hit>, all: seq<Hit>, max: nat, have: nat)
    requires FirstPart(some, all, max, have + |hits|)
    ensures FirstPart(hits + some, hits + all, max, have)
  {
  }

  lemma FirstPartStop(hits: seq<Hit>, more: seq<Hit>, max: nat, have: nat)
    requires !Enough(max, have) && Enough(max, have + |hits|)
    ensures FirstPart(hits, hits + more, max, have)
  {
  }

  lemma {:induction false} LimitedPrefix(q: Query, starts: seq<Node>, max: nat, have: nat, have': nat)
    requires q.steps != [] && !Enough(max, have)
    ensures FirstPart(Limited(q, starts, max, have), Limited(q, starts, 0, have'), max, have)
    decreases |starts|
  {
    if starts != [] {
      var hits, rest := Under(q, starts[0], 0, ""), starts[1..];
      LimitedFirst(q, starts, starts[0], rest, hits, max, have);
      LimitedFirst(q, starts, starts[0], rest, hits, 0, have');
      var all := Limited(q, rest, 0, have' + |hits|);
      if Enough(max, have + |hits|) {
        FirstPartStop(hits, all, max, have);
      } else {
        var some := Limited(q, rest, max, have + |hits|);
        LimitedPrefix(q, rest, max, have + |hits|, have' + |hits|);
        FirstPartPrepend(hits, some, all, max, have);
      }
    }
  }

  /** A limited search finds a first part of what the unlimited one finds, finds something if and
      only if that does, and stops short only when it has enough. */
  lemma LimitLaw(q: Query, doc: Node, max: nat)
    requires max > 0
    ensures var some, all := Search(q, doc, max), Search(q, doc, 0);
            some <= all && (some == [] <==> all == []) && (some == all || |some| >= max)
  {
    if q.steps != [] { LimitedPrefix(q, Starts(q, doc), max, 0, 0); }
  }
}
