/** Looking up an attribute of a node: which path finds it, and which node a lookup takes. */
module XPathLookups {
  import opened XPaths
  import opened XPathPrinting
  import opened XPathSearch
  import opened XPathListing
  import opened XPathAsking
  import opened Geometry

  // ---- looking up an attribute of a node

  /** Everything shown survives, or is the attribute asked for. */
  ghost predicate SurvivesBut(shown: seq<Attr>, a: string, last: bool) {
    forall j :: 0 <= j < |shown| ==> Survives(shown[j].1) || (last && shown[j].0 == a)
  }

  /** What can be looked for on a line, when attribute a of its last node is asked for: the value of a
      itself does not matter. */
  ghost predicate Askable(line: seq<Node>, level: Level, a: string) {
    forall i: nat :: i < |line| ==>
      NameSurvives(line[i].name) && SurvivesBut(Shown(line, i, level), a, i == |line| - 1)
  }

  predicate HasAttr(attrs: seq<Attr>, a: string) { exists j :: 0 <= j < |attrs| && attrs[j].0 == a }

  lemma AskedQualifiers(attrs: seq<Attr>, shown: seq<Attr>, a: string)
    requires LegalAttrs(attrs) && (shown == [] || shown == attrs)
    ensures Qualifies(attrs, AddAll(map[], ReadBackAll(shown))[a := ""]) <==>
            HasAttr(attrs, a) &&
            forall j :: 0 <= j < |shown| ==> Survives(shown[j].1) || shown[j].0 == a
  {
    var read := AddAll(map[], ReadBackAll(shown));
    var quals := read[a := ""];
    if Qualifies(attrs, quals) {
      assert Holds(attrs, a, quals[a]);
      forall j | 0 <= j < |shown| ensures Survives(shown[j].1) || shown[j].0 == a {
        OwnAttribute(attrs, j);
        if shown[j].0 != a { assert Holds(attrs, shown[j].0, quals[shown[j].0]); }
      }
    }
    if HasAttr(attrs, a) &&
       forall j :: 0 <= j < |shown| ==> Survives(shown[j].1) || shown[j].0 == a
    {
      forall k | k in quals ensures Holds(attrs, k, quals[k]) {
        if k != a {
          var i := OnlyOwnAttributes(shown, k);
          OwnAttribute(attrs, i);
        }
      }
    }
  }

  function AskQuery(line: seq<Node>, level: Level, a: string): Query
    requires line != []
  {
    Asked(ReadSteps(PathOf(line, level)), a)
  }

  /** What the i-th node of a line must meet. */
  ghost predicate Meets(line: seq<Node>, level: Level, a: string, i: nat)
    requires i < |line|
  {
    NameSurvives(line[i].name) && (i == |line| - 1 ==> HasAttr(line[i].attrs, a)) &&
    SurvivesBut(Shown(line, i, level), a, i == |line| - 1)
  }

  lemma AskedStep(line: seq<Node>, level: Level, a: string, i: nat, step: Step)
    requires LegalLine(line) && i < |line| && step == AskQuery(line, level, a).steps[i]
    ensures Fits(line[i], step) <==> Meets(line, level, a, i)
  {
    var node, shown := line[i], Shown(line, i, level);
    var read := AddAll(map[], ReadBackAll(shown));
    LocalNameExact(node.name);
    assert step == Step(LocalName(node.name), if i == |line| - 1 then read[a := ""] else read);
    if i == |line| - 1 { AskedQualifiers(node.attrs, shown, a); } else { OwnStep(node, shown); }
  }

  lemma AllMeet(line: seq<Node>, level: Level, a: string)
    requires line != []
    ensures (forall i: nat :: i < |line| ==> Meets(line, level, a, i)) <==>
            Askable(line, level, a) && HasAttr(line[|line| - 1].attrs, a)
  {
    if forall i: nat :: i < |line| ==> Meets(line, level, a, i) {
      assert Meets(line, level, a, |line| - 1);
      forall i: nat | i < |line|
        ensures NameSurvives(line[i].name) && SurvivesBut(Shown(line, i, level), a, i == |line| - 1)
      {
        assert Meets(line, level, a, i);
      }
    }
  }

  lemma AskedLine(line: seq<Node>, level: Level, a: string, q: Query)
    requires LegalLine(line) && line != [] && q == AskQuery(line, level, a)
    ensures (forall i: nat :: i < |line| ==> Fits(line[i], q.steps[i])) <==>
            Askable(line, level, a) && HasAttr(line[|line| - 1].attrs, a)
  {
    AllMeet(line, level, a);
    forall i: nat | i < |line| ensures Fits(line[i], q.steps[i]) <==> Meets(line, level, a, i) {
      AskedStep(line, level, a, i, q.steps[i]);
    }
  }

  lemma AttrIsValue(attrs: seq<Attr>, a: string, v: string)
    requires LegalAttrs(attrs) && HasAttr(attrs, a)
    ensures AttrValue(attrs, a) == v <==> (a, v) in attrs
  {
    var i := FirstNamed(attrs, a, 0);
    assert attrs[i] == (a, attrs[i].1);
    forall j | 0 <= j < |attrs| && attrs[j].0 == a ensures attrs[j] == attrs[i] { assert i <= j; }
  }

  lemma AskedValue(line: seq<Node>, level: Level, a: string, q: Query)
    requires line != [] && q == AskQuery(line, level, a)
    ensures HitOf(q, line, 0, "") == (line[|line| - 1].id, AttrValue(line[|line| - 1].attrs, a))
  {
    var n := |line| - 1;
    assert q.attrDepth == n && a in q.steps[n].qualifiers;
  }

  lemma AskedHit(line: seq<Node>, level: Level, a: string, v: string)
    requires LegalLine(line) && line != []
    requires HasAttr(line[|line| - 1].attrs, a)
    ensures HitOf(AskQuery(line, level, a), line, 0, "") == (line[|line| - 1].id, v) <==>
            (a, v) in line[|line| - 1].attrs
  {
    AskedValue(line, level, a, AskQuery(line, level, a));
    AttrIsValue(line[|line| - 1].attrs, a, v);
  }

  /** Asking for attribute a of the node at the end of a line, by the path printed for it and "/@" and
      the name, finds that node with value v, if and only if v is the node's value of a, everything else on the
      line can be looked for, and the first name cannot be taken for the document node. */
  lemma AskedFinds(doc: Node, line: seq<Node>, level: Level, a: string, v: string)
    requires UniqueIds(doc) && Line(line) && line[0] in doc.children && LegalLine(line)
    requires AttrName(a) && Lacks(a, ':')
    ensures Parse(PathText(PathOf(line, level)) + "/@" + a) == Valid(AskQuery(line, level, a))
    ensures (line[|line| - 1].id, v) in Search(AskQuery(line, level, a), doc, 0) <==>
            (a, v) in line[|line| - 1].attrs && Askable(line, level, a) &&
            LocalName(line[0].name) != "*" && LocalName(line[0].name) != doc.name
  {
    var q, hit, attrs := AskQuery(line, level, a), (line[|line| - 1].id, v), line[|line| - 1].attrs;
    AskedAtEnd(PathOf(line, level), a);
    LineIsFound(q, doc, line, hit);
    AskedLine(line, level, a, q);
    FirstName(line, level, a, q);
    ValueHas(attrs, a, v);
    if HasAttr(attrs, a) { AskedHit(line, level, a, v); }
  }

  lemma FirstName(line: seq<Node>, level: Level, a: string, q: Query)
    requires line != [] && q == AskQuery(line, level, a)
    ensures q.steps[0].name == LocalName(line[0].name)
  {
  }

  lemma ValueHas(attrs: seq<Attr>, a: string, v: string)
    ensures (a, v) in attrs ==> HasAttr(attrs, a)
  {
    if (a, v) in attrs {
      var j :| 0 <= j < |attrs| && attrs[j] == (a, v);
      assert attrs[j].0 == a;
    }
  }

  /** If in addition no other node matches, a lookup gives that value. */
  lemma AskedIsFound(doc: Node, line: seq<Node>, level: Level, a: string, v: string)
    requires UniqueIds(doc) && Line(line) && line[0] in doc.children && LegalLine(line)
    requires AttrName(a) && Lacks(a, ':') && (a, v) in line[|line| - 1].attrs && Askable(line, level, a)
    requires LocalName(line[0].name) != "*" && LocalName(line[0].name) != doc.name
    requires forall hit :: hit in Search(AskQuery(line, level, a), doc, 0) ==> hit.0 == line[|line| - 1].id
    ensures Fresh(doc, PathText(PathOf(line, level)) + "/@" + a) == Found(v)
  {
    var q, hit := AskQuery(line, level, a), (line[|line| - 1].id, v);
    AskedFinds(doc, line, level, a, v);
    OnlyHit(q, doc, hit);
    InOrderMembers([hit], hit);
    assert InOrder([hit])[0] in InOrder([hit]);
    InOrderMembers([hit], InOrder([hit])[0]);
  }

  lemma OnlyHit(q: Query, doc: Node, hit: Hit)
    requires UniqueIds(doc) && hit in Search(q, doc, 0)
    requires forall other :: other in Search(q, doc, 0) ==> other.0 == hit.0
    ensures Search(q, doc, 1) == [hit]
  {
    var some, all := Search(q, doc, 1), Search(q, doc, 0);
    LimitLaw(q, doc, 1);
    SearchSeparate(q, doc);
    OnlyOne(all, Ids(doc), hit);
  }

  lemma OnlyOne(hits: seq<Hit>, ids: set<nat>, hit: Hit)
    requires Separate(hits, ids) && hit in hits && forall other :: other in hits ==> other.0 == hit.0
    ensures hits == [hit]
  {
    SameNode(hits, hit, 0);
    if |hits| > 1 {
      SameNode(hits, hit, 1);
      assert false;
    }
  }

  lemma SameNode(hits: seq<Hit>, hit: Hit, i: nat)
    requires i < |hits| && forall other :: other in hits ==> other.0 == hit.0
    ensures hits[i].0 == hit.0
  {
    assert hits[i] in hits;
  }

  lemma AnyValue(attrs: seq<Attr>, a: string)
    ensures Qualifies(attrs, map[a := ""]) <==> HasAttr(attrs, a)
  {
    var quals := map[a := ""];
    assert Qualifies(attrs, quals) <==> Holds(attrs, a, quals[a]);
    if FirstNamed(attrs, a, 0) < |attrs| { assert attrs[FirstNamed(attrs, a, 0)].0 == a; }
  }

  /** A path that is nothing but a lone attribute asks for nothing; it looks for a document node that
      has the attribute. */
  lemma OnlyLone(doc: Node, a: string)
    requires AttrName(a) && Lacks(a, ':')
    ensures Parse("/@" + a) == Valid(Query([Lone("", a)], "", NO_DEPTH))
    ensures Fresh(doc, "/@" + a) == if HasAttr(doc.attrs, a) then Found("") else NotFound
  {
    LoneName(a);
    JoinedLone(a);
    ReadLone(a);
    ParseJoined(["@" + a]);
    var q := Query([Lone("", a)], "", NO_DEPTH);
    assert Assemble([Lone("", a)], 1, q) == Valid(q);
    AnyValue(doc.attrs, a);
    assert Starts(q, doc) == [doc];
    LimitedToOne(q, [doc]);
    var hits := Search(q, doc, 1);
    assert hits == Under(q, doc, 0, "");
    if hits != [] { FirstIsLeast(hits); }
  }

  // ---- which node a lookup takes

  /** The k-th start is the first that leads to anything. */
  ghost predicate FirstToLead(q: Query, starts: seq<Node>, k: nat)
    requires q.steps != []
  {
    k < |starts| && Under(q, starts[k], 0, "") != [] && forall j :: 0 <= j < k ==> Under(q, starts[j], 0, "") == []
  }

  lemma {:induction false} FirstFoundFrom(q: Query, starts: seq<Node>, k: nat)
    requires q.steps != [] && FirstToLead(q, starts, k)
    ensures FirstFound(q, starts) == Under(q, starts[k], 0, "")
    decreases k
  {
    if k > 0 {
      assert Under(q, starts[0], 0, "") == [];
      forall j | 0 <= j < k - 1 ensures Under(q, starts[1..][j], 0, "") == [] {
        assert starts[1..][j] == starts[j + 1];
      }
      FirstFoundFrom(q, starts[1..], k - 1);
    }
  }

  lemma {:induction false} SomeLeads(q: Query, starts: seq<Node>) returns (k: nat)
    requires q.steps != [] && FirstFound(q, starts) != []
    ensures FirstToLead(q, starts, k)
  {
    if Under(q, starts[0], 0, "") != [] {
      k := 0;
    } else {
      var i := SomeLeads(q, starts[1..]);
      k := i + 1;
      forall j | 0 <= j < k ensures Under(q, starts[j], 0, "") == [] {
        if j > 0 { assert starts[j] == starts[1..][j - 1]; }
      }
    }
  }

  /** A lookup takes the node at the end of the line, with value v. */
  ghost predicate Takes(doc: Node, q: Query, hit: Hit) {
    q.steps != [] && IsLeast(FirstFound(q, Starts(q, doc)), hit)
  }

  /** The line begins at the first start that leads to anything, and no lesser node is found from it. */
  ghost predicate ComesFirst(doc: Node, q: Query, line: seq<Node>)
    requires q.steps != [] && line != []
  {
    exists k: nat :: FirstToLead(q, Starts(q, doc), k) && Starts(q, doc)[k] == line[0] &&
                AtLeast(Under(q, line[0], 0, ""), line[|line| - 1].id)
  }

  lemma FoundFirst(doc: Node, q: Query)
    requires UniqueIds(doc) && q.steps != []
    ensures Separate(FirstFound(q, Starts(q, doc)), Ids(doc)) && FirstFound(q, Starts(q, doc)) <= Search(q, doc, 0)
  {
    LimitedToOne(q, Starts(q, doc));
    LimitLaw(q, doc, 1);
    SearchSeparate(q, doc);
  }

  lemma {:induction false} AloneAt(hits: seq<Hit>, ids: set<nat>, hit: Hit)
    requires Separate(hits, ids) && hit in hits
    ensures HitsAt(hits, hit.0) != [] && HitsAt(hits, hit.0)[0] == hit
  {
    if hits[0] != hit {
      var rest := hits[1..];
      var i :| 0 <= i < |hits| && hits[i] == hit;
      assert rest[i - 1] == hit && hits[0].0 != hit.0;
      AloneAt(rest, ids, hit);
    }
  }

  lemma TakenComesFirst(doc: Node, q: Query, line: seq<Node>, hit: Hit)
    requires UniqueIds(doc) && Line(line) && line[0] in doc.children && |line| == |q.steps| && q.steps != []
    requires hit.0 == line[|line| - 1].id && Takes(doc, q, hit)
    ensures hit in Search(q, doc, 0) && ComesFirst(doc, q, line)
  {
    var starts := Starts(q, doc);
    FoundFirst(doc, q);
    var k := SomeLeads(q, starts);
    FirstFoundFrom(q, starts, k);
    StartsExact(q, doc, starts[k]);
    var chain := UnderHasChain(q, starts[k], 0, "", hit);
    MatchIsLine(q, doc, line, chain);
  }

  lemma ComesFirstTaken(doc: Node, q: Query, line: seq<Node>, hit: Hit)
    requires UniqueIds(doc) && Line(line) && line[0] in doc.children && |line| == |q.steps| && q.steps != []
    requires hit.0 == line[|line| - 1].id && hit in Search(q, doc, 0) && ComesFirst(doc, q, line)
    ensures Takes(doc, q, hit)
  {
    var starts := Starts(q, doc);
    var k: nat :| FirstToLead(q, starts, k) && starts[k] == line[0] && AtLeast(Under(q, line[0], 0, ""), hit.0);
    FirstFoundFrom(q, starts, k);
    FoundFirst(doc, q);
    LineIsFound(q, doc, line, hit);
    assert Chain(q, line, 0) by {
      forall i | 0 <= i < |line| ensures Fits(line[i], q.steps[0 + i]) {
        var n: nat := i;
        assert Fits(line[n], q.steps[n]);
      }
    }
    ChainIsUnder(q, line, 0, "");
    AloneAt(FirstFound(q, starts), Ids(doc), hit);
  }

  /** Get takes the node at the end of the line, for the path printed for it and "/@a", and gives value v,
      if and only if v is its value of a, everything else on the line can be looked for, the first name
      is not taken for the document node, and the line comes first among those that match. */
  lemma AskedTaken(doc: Node, line: seq<Node>, level: Level, a: string, v: string)
    requires UniqueIds(doc) && Line(line) && line[0] in doc.children && LegalLine(line)
    requires AttrName(a) && Lacks(a, ':')
    ensures var q := AskQuery(line, level, a);
            Takes(doc, q, (line[|line| - 1].id, v)) <==>
            (a, v) in line[|line| - 1].attrs && Askable(line, level, a) &&
            LocalName(line[0].name) != "*" && LocalName(line[0].name) != doc.name && ComesFirst(doc, q, line)
    ensures Takes(doc, AskQuery(line, level, a), (line[|line| - 1].id, v)) ==>
              Fresh(doc, PathText(PathOf(line, level)) + "/@" + a) == Found(v)
  {
    var q, hit := AskQuery(line, level, a), (line[|line| - 1].id, v);
    AskedFinds(doc, line, level, a, v);
    if Takes(doc, q, hit) {
      TakenComesFirst(doc, q, line, hit);
      TakenIsFound(doc, PathText(PathOf(line, level)) + "/@" + a, q, hit);
    }
    if hit in Search(q, doc, 0) && ComesFirst(doc, q, line) { ComesFirstTaken(doc, q, line, hit); }
  }

  lemma TakenIsFound(doc: Node, xpath: string, q: Query, hit: Hit)
    requires Parse(xpath) == Valid(q) && Takes(doc, q, hit)
    ensures Fresh(doc, xpath) == Found(hit.1)
  {
    var hits := FirstFound(q, Starts(q, doc));
    FreshExact(doc, xpath);
    FirstIsLeast(hits);
    LimitedToOne(q, Starts(q, doc));
    OneLeast(hits, hit, InOrder(hits)[0]);
  }

  lemma OneLeast(hits: seq<Hit>, a: Hit, b: Hit)
    requires IsLeast(hits, a) && IsLeast(hits, b)
    ensures a == b
  {
    var i :| 0 <= i < |hits| && hits[i] == a;
    var j :| 0 <= j < |hits| && hits[j] == b;
    assert a.0 <= b.0 && b.0 <= a.0;
  }
}
