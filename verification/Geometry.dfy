/** The geometry object's lookups: one value with a cache of earlier answers, or all values. */
module Geometry {
  import opened XPaths
  import opened XPathPrinting
  import opened XPathSearch

  /** A new hit goes after all hits at nodes up to its own. */
  function Insert(hits: seq<Hit>, h: Hit): seq<Hit> {
    if hits == [] then [h]
    else if h.0 < hits[0].0 then [h] + hits
    else [hits[0]] + Insert(hits[1..], h)
  }

  /** The hits in the order of the multimap they are kept in: by node, and in order of insertion
      for the same node. */
  function InOrder(hits: seq<Hit>): seq<Hit> {
    if hits == [] then [] else Insert(InOrder(hits[..|hits| - 1]), hits[|hits| - 1])
  }

  ghost predicate Ordered(hits: seq<Hit>) {
    forall i, j :: 0 <= i < j < |hits| ==> hits[i].0 <= hits[j].0
  }

  lemma {:induction false} InsertLaw(hits: seq<Hit>, h: Hit)
    ensures multiset(Insert(hits, h)) == multiset(hits) + multiset{h}
  {
    if hits != [] && h.0 >= hits[0].0 {
      InsertLaw(hits[1..], h);
      assert hits == [hits[0]] + hits[1..];
    }
  }

  ghost predicate AtLeast(hits: seq<Hit>, n: nat) { forall i :: 0 <= i < |hits| ==> n <= hits[i].0 }

  lemma {:induction false} InsertAtLeast(hits: seq<Hit>, h: Hit, n: nat)
    requires AtLeast(hits, n) && n <= h.0
    ensures AtLeast(Insert(hits, h), n)
  {
    if hits != [] { InsertAtLeast(hits[1..], h, n); }
  }

  lemma {:induction false} InsertOrdered(hits: seq<Hit>, h: Hit)
    requires Ordered(hits)
    ensures Ordered(Insert(hits, h))
  {
    if hits != [] && h.0 >= hits[0].0 {
      InsertOrdered(hits[1..], h);
      InsertAtLeast(hits[1..], h, hits[0].0);
    }
  }

  /** The hits at one node, in their order. */
  ghost function HitsAt(hits: seq<Hit>, n: nat): seq<Hit> {
    if hits == [] then [] else (if hits[0].0 == n then [hits[0]] else []) + HitsAt(hits[1..], n)
  }

  lemma {:induction false} HitsAtConcat(a: seq<Hit>, b: seq<Hit>, n: nat)
    ensures HitsAt(a + b, n) == HitsAt(a, n) + HitsAt(b, n)
  {
    if a == [] {
      assert a + b == b;
    } else {
      assert (a + b)[1..] == a[1..] + b;
      HitsAtConcat(a[1..], b, n);
      ConcatHits(if a[0].0 == n then [a[0]] else [], HitsAt(a[1..], n), HitsAt(b, n));
    }
  }

  lemma {:induction false} NoneBelow(hits: seq<Hit>, n: nat)
    requires AtLeast(hits, n + 1)
    ensures HitsAt(hits, n) == []
  {
    if hits != [] { NoneBelow(hits[1..], n); }
  }

  lemma {:induction false} InsertStable(hits: seq<Hit>, h: Hit, n: nat)
    requires Ordered(hits)
    ensures HitsAt(Insert(hits, h), n) == HitsAt(hits, n) + if h.0 == n then [h] else []
  {
    if hits != [] && h.0 >= hits[0].0 {
      InsertStable(hits[1..], h, n);
      HitsAtConcat([hits[0]], Insert(hits[1..], h), n);
    } else {
      HitsAtConcat([h], hits, n);
      if h.0 == n { NoneBelow(hits, n); }
    }
  }

  /** The multimap holds the same hits, ordered by node. */
  lemma {:induction false} InOrderLaw(hits: seq<Hit>)
    ensures multiset(InOrder(hits)) == multiset(hits) && Ordered(InOrder(hits))
  {
    if hits != [] {
      var front, last := hits[..|hits| - 1], hits[|hits| - 1];
      assert hits == front + [last];
      InOrderLaw(front);
      InsertLaw(InOrder(front), last);
      InsertOrdered(InOrder(front), last);
    }
  }

  /** Hits at the same node stay in the order in which they were inserted. */
  lemma {:induction false} InOrderStable(hits: seq<Hit>, n: nat)
    ensures HitsAt(InOrder(hits), n) == HitsAt(hits, n)
  {
    if hits != [] {
      var front, last := hits[..|hits| - 1], hits[|hits| - 1];
      InOrderStable(front, n);
      InOrderLaw(front);
      InsertStable(InOrder(front), last, n);
      HitsAtConcat(front, [last], n);
      assert hits == front + [last];
    }
  }

  datatype Lookup = Found(value: string) | NotFound | Threw

  datatype Lookups = All(values: seq<string>) | ThrewAll

  function Values(hits: seq<Hit>): (r: seq<string>)
    ensures |r| == |hits| && forall i :: 0 <= i < |hits| ==> r[i] == hits[i].1
  {
    seq(|hits|, i requires 0 <= i < |hits| => hits[i].1)
  }

  /** A lookup that does not consult the cache. */
  function Fresh(doc: Node, xpath: string): Lookup {
    match Parse(xpath)
    case Invalid => Threw
    case Valid(q) =>
      var hits := InOrder(Search(q, doc, 1));
      if hits == [] then NotFound else Found(hits[0].1)
  }

  function FreshAll(doc: Node, xpath: string): Lookups {
    match Parse(xpath)
    case Invalid => ThrewAll
    case Valid(q) => All(Values(InOrder(Search(q, doc, 0))))
  }

  class JGeometryXML {
    const doc: Node
    const validFile: bool
    var foundXPaths: map<string, string>

    /** Every cached answer is what a new search would give. */
    ghost predicate Valid()
      reads this
    {
      forall x :: x in foundXPaths ==> Fresh(doc, x) == Found(foundXPaths[x])
    }

    constructor (doc: Node, validFile: bool)
      ensures this.doc == doc && this.validFile == validFile && foundXPaths == map[] && Valid()
    {
      this.doc, this.validFile, foundXPaths := doc, validFile, map[];
    }

    method Get(xpath: string) returns (r: Lookup)
      requires Valid()
      modifies this
      ensures Valid()
      ensures r == if validFile then Fresh(doc, xpath) else NotFound
      ensures foundXPaths == if r.Found? then old(foundXPaths)[xpath := r.value] else old(foundXPaths)
    {
      if !validFile { return NotFound; }
      if xpath in foundXPaths { return Found(foundXPaths[xpath]); }
      var parsed := ParseXPath(xpath);
      if parsed.Invalid? { return Threw; }
      var hits := FindAttributeValues(parsed.query, doc, 1);
      var attributes := Multimap(hits);
      if |attributes| > 0 {
        r := Found(attributes[0].1);
        foundXPaths := foundXPaths[xpath := attributes[0].1];
      } else {
        r := NotFound;
      }
    }

    method GetMultiple(xpath: string) returns (r: Lookups)
      ensures r == if validFile then FreshAll(doc, xpath) else All([])
    {
      if !validFile { return All([]); }
      var parsed := ParseXPath(xpath);
      if parsed.Invalid? { return ThrewAll; }
      var hits := FindAttributeValues(parsed.query, doc, 0);
      var attributes := Multimap(hits);
      var values := CopyValues(attributes);
      r := All(values);
    }
  }

  method Multimap(hits: seq<Hit>) returns (r: seq<Hit>)
    ensures r == InOrder(hits)
  {
    r := [];
    for i := 0 to |hits|
      invariant r == InOrder(hits[..i])
    {
      assert hits[..i + 1][..i] == hits[..i];
      r := Insert(r, hits[i]);
    }
    assert hits[..|hits|] == hits;
  }

  method CopyValues(hits: seq<Hit>) returns (values: seq<string>)
    ensures values == Values(hits)
  {
    values := [];
    for i := 0 to |hits|
      invariant |values| == i && forall k :: 0 <= k < i ==> values[k] == hits[k].1
    {
      values := values + [hits[i].1];
    }
  }

  lemma InOrderMembers(hits: seq<Hit>, h: Hit)
    ensures h in InOrder(hits) <==> h in hits
    ensures |InOrder(hits)| == |hits|
  {
    InOrderLaw(hits);
    assert h in InOrder(hits) <==> h in multiset(InOrder(hits));
    assert |multiset(InOrder(hits))| == |multiset(hits)|;
  }

  lemma FirstIsValue(some: seq<Hit>, all: seq<Hit>)
    requires some <= all && some != []
    ensures InOrder(some) != [] && InOrder(some)[0].1 in Values(InOrder(all))
  {
    InOrderMembers(some, some[0]);
    var first, sorted := InOrder(some)[0], InOrder(all);
    InOrderMembers(some, first);
    InOrderMembers(all, first);
    var i :| 0 <= i < |sorted| && sorted[i] == first;
    assert Values(sorted)[i] == first.1;
  }

  /** A single lookup succeeds exactly when the multiple one is not empty, its answer is one of
      those values, and both fail on the same malformed paths. */
  lemma LookupsAgree(doc: Node, xpath: string)
    ensures match FreshAll(doc, xpath)
            case ThrewAll => Fresh(doc, xpath).Threw?
            case All(values) =>
              if values == [] then Fresh(doc, xpath).NotFound?
              else Fresh(doc, xpath).Found? && Fresh(doc, xpath).value in values
  {
    var parsed := Parse(xpath);
    if parsed.Valid? {
      var some, all := Search(parsed.query, doc, 1), Search(parsed.query, doc, 0);
      LimitLaw(parsed.query, doc, 1);
      if some != [] {
        FirstIsValue(some, all);
      }
    }
  }

  // ---- which value a lookup gives

  /** What is found from the first start that leads to anything. */
  ghost function FirstFound(q: Query, starts: seq<Node>): seq<Hit>
    requires q.steps != []
  {
    if starts == [] then []
    else if Under(q, starts[0], 0, "") != [] then Under(q, starts[0], 0, "")
    else FirstFound(q, starts[1..])
  }

  lemma {:induction false} LimitedToOne(q: Query, starts: seq<Node>)
    requires q.steps != []
    ensures Limited(q, starts, 1, 0) == FirstFound(q, starts)
  {
    if starts != [] {
      var hits, rest := Under(q, starts[0], 0, ""), starts[1..];
      LimitedFirst(q, starts, starts[0], rest, hits, 1, 0);
      if hits == [] {
        LimitedToOne(q, rest);
        assert hits + Limited(q, rest, 1, 0) == Limited(q, rest, 1, 0);
      }
    }
  }

  /** The first of the hits at the least node. */
  ghost predicate IsLeast(hits: seq<Hit>, hit: Hit) {
    hit in hits && AtLeast(hits, hit.0) && HitsAt(hits, hit.0) != [] && HitsAt(hits, hit.0)[0] == hit
  }

  lemma FirstIsLeast(hits: seq<Hit>)
    requires hits != []
    ensures InOrder(hits) != [] && IsLeast(hits, InOrder(hits)[0])
  {
    var sorted := InOrder(hits);
    InOrderMembers(hits, hits[0]);
    var first := sorted[0];
    InOrderMembers(hits, first);
    InOrderLaw(hits);
    forall i | 0 <= i < |hits| ensures first.0 <= hits[i].0 {
      InOrderMembers(hits, hits[i]);
      var j :| 0 <= j < |sorted| && sorted[j] == hits[i];
    }
    InOrderStable(hits, first.0);
  }

  /** A lookup throws if and only if the path is malformed, finds nothing if and only if a full search
      does, and otherwise gives the value at the least of the nodes found from the first start, in
      document order, that leads to anything. */
  lemma FreshExact(doc: Node, xpath: string)
    ensures match Parse(xpath)
            case Invalid => Fresh(doc, xpath) == Threw
            case Valid(q) =>
              q.steps != [] &&
              (Fresh(doc, xpath) == NotFound <==> Search(q, doc, 0) == []) &&
              (Fresh(doc, xpath).Found? <==> Search(q, doc, 0) != []) &&
              (Fresh(doc, xpath).Found? ==>
                 exists hit :: IsLeast(FirstFound(q, Starts(q, doc)), hit) && Fresh(doc, xpath).value == hit.1)
  {
    var parsed := Parse(xpath);
    ParsedAsksProperly(xpath);
    if parsed.Valid? {
      var q := parsed.query;
      var hits := Search(q, doc, 1);
      LimitLaw(q, doc, 1);
      LimitedToOne(q, Starts(q, doc));
      if hits != [] {
        FirstIsLeast(hits);
      } else {
        assert InOrder(hits) == [];
      }
    }
  }

  // ---- what the parser hands to the search

  /** The attribute asked for, if any, is a qualifier of the step at its depth. */
  ghost predicate AsksProperly(q: Query) {
    (q.attribute == "" && q.attrDepth == NO_DEPTH) ||
    (q.attrDepth < |q.steps| && q.attribute in q.steps[q.attrDepth].qualifiers)
  }

  ghost predicate Proper(q: Query, i: nat) {
    |q.steps| <= i && AsksProperly(q) && (i > 0 ==> q.steps != [])
  }

  lemma {:induction false} AssembleAsksProperly(sections: seq<Step>, i: nat, q: Query)
    requires i <= |sections| && Proper(q, i)
    ensures Assemble(sections, i, q).Valid? ==> Proper(Assemble(sections, i, q).query, |sections|)
    decreases |sections| - i
  {
    if i < |sections| {
      var r := AddSection(q, i, sections[i]);
      if r.Valid? { AssembleAsksProperly(sections, i + 1, r.query); }
    }
  }

  /** Every parsed path has at least one step, and asks for an attribute only where it also
      requires it, so a reported value is always one the node really has. */
  lemma ParsedAsksProperly(xpath: string)
    ensures Parse(xpath).Valid? ==> Parse(xpath).query.steps != [] && AsksProperly(Parse(xpath).query)
  {
    var start := SkipSlashes(xpath, 0);
    if start < |xpath| {
      AssembleAsksProperly(ReadSections(SplitFrom(xpath, start)), 0, Query([], "", NO_DEPTH));
    }
  }
}
