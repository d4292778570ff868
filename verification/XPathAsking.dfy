/** Paths as users write them: an attribute to ask for, qualifiers without a value or with other quotes,
    any number of leading slashes. */
module XPathAsking {
  import opened XPaths
  import opened XPathPrinting

  // ---- sections

  ghost predicate Lacks(s: string, c: char) { forall i :: 0 <= i < |s| ==> s[i] != c }

  /** An attribute name as it can stand alone in a section. */
  ghost predicate AttrName(a: string) {
    a != "" && Lacks(a, '/') && Lacks(a, '@') && Lacks(a, '=') && Lacks(a, '[') && Lacks(a, ' ') && a[|a| - 1] != ']'
  }

  lemma NotThere(s: string, c: char, from: nat)
    requires from <= |s| && forall i :: from <= i < |s| ==> s[i] != c
    ensures IndexFrom(s, c, from) == |s|
  {
    IndexUnique(s, c, from, |s|);
  }

  /** An attribute without a value, read from `at` up to a closing bracket, if any. */
  lemma FlagAt(s: string, at: nat, a: string, end: nat)
    requires 0 < at <= end <= |s| && s[at - 1] == '@' && s[at..end] == a && AttrName(a)
    requires end == |s| || (end == |s| - 1 && s[end] == ']')
    ensures AttributesFrom(s, at - 1, map[]) == map[a := ""]
  {
    forall i | at <= i < |s| ensures s[i] != '=' && s[i] != '@' && s[i] != ' ' {
      if i < end { assert s[i] == a[i - at]; }
    }
    NotThere(s, '=', at);
    NotThere(s, '@', at);
    NotThere(s, ' ', at);
    assert s[end - 1] == a[|a| - 1];
    assert CutLast(s, |s|, ']') == end;
    assert FlagName(s, at) == a;
    ReadsOnce(s, at - 1, map[], a, "", |s|);
  }

  /** A lone attribute has no value. */
  lemma LoneAttribute(a: string)
    requires AttrName(a)
    ensures Qualifiers("@" + a) == map[a := ""]
  {
    var s := "@" + a;
    assert s[1..|s|] == a;
    FlagAt(s, 1, a, |s|);
    assert IndexFrom(s, '@', 0) == 0;
  }

  /** It is taken for a node if and only if it has a namespace prefix with something after it. */
  lemma LoneName(a: string)
    requires AttrName(a)
    ensures NodeName("@" + a) == if Lacks(a, ':') then "" else LocalName(a)
  {
    var s := "@" + a;
    assert forall i :: 1 <= i < |s| ==> s[i] == a[i - 1];
    NotThere(s, '[', 0);
    if Lacks(a, ':') {
      NotThere(s, ':', 0);
    } else {
      var colon := IndexFrom(a, ':', 0);
      FirstIndex(a, ':', 0);
      assert a[0..] == a;
      assert colon < |a|;
      IndexUnique(s, ':', 0, colon + 1);
      assert s[colon + 2..] == a[colon + 1..];
    }
  }

  /** A section with a bracket and an attribute, up to where the attribute starts. */
  ghost predicate Opening(s: string, name: string, rest: string) {
    |name| + 2 <= |s| && s[..|name|] == name && s[|name|] == '[' && s[|name| + 1] == '@' && s[|name| + 2..] == rest
  }

  lemma Bracketed(name: string, rest: string)
    ensures Opening(name + "[@" + rest, name, rest)
  {
  }

  /** Its name, and where its attributes are read from. */
  lemma OpeningReads(s: string, name: string, rest: string, quals: map<string, string>)
    requires Opening(s, name, rest) && LegalName(name) && AttributesFrom(s, |name| + 1, map[]) == quals
    ensures ReadsAs(s, Step(LocalName(name), quals))
  {
    NameOf(s, name);
    FirstAt(s, name);
  }

  /** A qualifier without a value asks for any value. */
  lemma FlagSection(name: string, a: string)
    requires LegalName(name) && AttrName(a)
    ensures ReadsAs(name + "[@" + a + "]", Step(LocalName(name), map[a := ""]))
  {
    var s := name + "[@" + (a + "]");
    assert s == name + "[@" + a + "]";
    Bracketed(name, a + "]");
    assert s[|name| + 2..|s| - 1] == s[|name| + 2..][..|a|] == a;
    FlagAt(s, |name| + 2, a, |s| - 1);
    OpeningReads(s, name, a + "]", map[a := ""]);
  }

  lemma {:induction false} IndexInSuffix(s: string, c: char, at: nat, rest: string, from: nat)
    requires at <= |s| && s[at..] == rest && from <= |rest|
    ensures IndexFrom(s, c, at + from) == at + IndexFrom(rest, c, from)
    decreases |rest| - from
  {
    if from < |rest| {
      assert s[at + from] == s[at..][from];
      IndexInSuffix(s, c, at, rest, from + 1);
    }
  }

  /** A qualifier without a value that stands before one with a value makes the parser give up: the
      section has no qualifiers at all. */
  lemma MixedSection(name: string, rest: string)
    requires LegalName(name) && IndexFrom(rest, '@', 0) < IndexFrom(rest, '=', 0) < |rest|
    ensures ReadsAs(name + "[@" + rest, Step(LocalName(name), map[]))
  {
    Bracketed(name, rest);
    NoneFirst(name + "[@" + rest, name, rest);
  }

  lemma NoneFirst(s: string, name: string, rest: string)
    requires Opening(s, name, rest) && LegalName(name) && IndexFrom(rest, '@', 0) < IndexFrom(rest, '=', 0) < |rest|
    ensures ReadsAs(s, Step(LocalName(name), map[]))
  {
    var at := |name| + 2;
    IndexInSuffix(s, '@', at, rest, 0);
    IndexInSuffix(s, '=', at, rest, 0);
    NotAnAttribute(s, at);
    ReadsNoMore(s, at - 1, map[], "", "", false);
    OpeningReads(s, name, rest, map[]);
  }

  lemma NotAnAttribute(s: string, at: nat)
    requires at <= |s| && IndexFrom(s, '@', at) < IndexFrom(s, '=', at) < |s|
    ensures AttributeAt(s, at) == (("", ""), false)
  {
  }

  /** So does an attribute without a name. */
  lemma NamelessSection(name: string, rest: string)
    requires LegalName(name)
    ensures ReadsAs(name + "[@" + ("=" + rest), Step(LocalName(name), map[]))
  {
    Bracketed(name, "=" + rest);
    NamelessFirst(name + "[@" + ("=" + rest), name, "=" + rest);
  }

  lemma NamelessFirst(s: string, name: string, rest: string)
    requires Opening(s, name, rest) && LegalName(name) && rest != "" && rest[0] == '='
    ensures ReadsAs(s, Step(LocalName(name), map[]))
  {
    var at := |name| + 2;
    assert s[at] == s[at..][0];
    NoName(s, at);
    OpeningReads(s, name, rest, map[]);
  }

  lemma NoName(s: string, at: nat)
    requires 0 < at < |s| && s[at] == '='
    ensures AttributesFrom(s, at - 1, map[]) == map[]
  {
    var v := EmptyName(s, at);
    ReadsNoMore(s, at - 1, map[], "", v, true);
  }

  lemma EmptyName(s: string, at: nat) returns (v: string)
    requires at < |s| && s[at] == '='
    ensures AttributeAt(s, at) == (("", v), true)
  {
    v := ValueAfter(s, at, at);
    assert IndexFrom(s, '=', at) == at < IndexFrom(s, '@', at) && s[at..at] == "";
    ValueAttribute(s, at, at, "", v);
  }

  lemma NameOf(s: string, name: string)
    requires LegalName(name) && |name| < |s| && s[..|name|] == name && s[|name|] == '['
    ensures NodeName(s) == LocalName(name) != ""
  {
    var colon := IndexFrom(name, ':', 0);
    var start := if colon == |name| then 0 else colon + 1;
    NameBeforeBracket(s, name, start);
    AtSlice(s, 0, name, start, |name|);
  }

  lemma FirstAt(s: string, name: string)
    requires '@' !in name && |name| + 1 < |s| && s[..|name|] == name && s[|name|] == '[' && s[|name| + 1] == '@'
    ensures IndexFrom(s, '@', 0) == |name| + 1
  {
    forall i | 0 <= i < |name| + 1 ensures s[i] != '@' {
      if i < |name| { assert s[i] == name[i] && name[i] in name; }
    }
    IndexUnique(s, '@', 0, |name| + 1);
  }

  /** A value that needs no quotes. */
  ghost predicate PlainValue(v: string) {
    v != "" && Lacks(v, '/') && Lacks(v, '@') && Lacks(v, ' ') && Lacks(v, '\'') && Lacks(v, '"') && Lacks(v, ']')
  }

  ghost predicate Quote(q: string) { q == "'" || q == "\"" || q == "" }

  /** Single quotes, double quotes and none are all the same. */
  lemma QuotedSection(name: string, a: string, v: string, q: string)
    requires LegalName(name) && AttrName(a) && Lacks(a, '\'') && PlainValue(v) && Quote(q)
    ensures ReadsAs(name + "[@" + a + "=" + q + v + q + "]", Step(LocalName(name), map[a := v]))
  {
    var tail := q + v + q + "]";
    var rest := a + "=" + tail;
    SameText(name, a, v, q, tail, rest);
    Bracketed(name, rest);
    QuotedFirst(name + "[@" + rest, name, rest, a, v, q, tail);
  }

  lemma SameText(name: string, a: string, v: string, q: string, tail: string, rest: string)
    requires tail == q + v + q + "]" && rest == a + "=" + tail
    ensures name + "[@" + a + "=" + q + v + q + "]" == name + "[@" + rest
  {
    var front := name + "[@" + a + "=";
    assert front + q + v + q + "]" == front + (q + v + q + "]");
    assert front + tail == name + "[@" + rest;
  }

  lemma QuotedFirst(s: string, name: string, rest: string, a: string, v: string, q: string, tail: string)
    requires Opening(s, name, rest) && LegalName(name) && rest == a + "=" + tail && tail == q + v + q + "]"
    requires AttrName(a) && Lacks(a, '\'') && PlainValue(v) && Quote(q)
    ensures ReadsAs(s, Step(LocalName(name), map[a := v]))
  {
    var at, eq := |name| + 2, |name| + 2 + |a|;
    NameInRest(a, v, q, tail, rest);
    IndexInSuffix(s, '@', at, rest, 0);
    IndexInSuffix(s, '=', at, rest, 0);
    RestParts(s, at, eq, a, tail, rest);
    QuotedValue(s, at, eq, v, q, tail);
    OneAttribute(s, at, eq, a, v);
    OpeningReads(s, name, rest, map[a := v]);
  }

  /** An attribute with a value, and nothing after it. */
  lemma OneAttribute(s: string, at: nat, eq: nat, a: string, v: string)
    requires 0 < at <= eq < |s| && a != "" && IndexFrom(s, '=', at) == eq && IndexFrom(s, '@', at) == |s|
    requires s[at..eq] == a && ValueAfter(s, at, eq) == v
    ensures AttributesFrom(s, at - 1, map[]) == map[a := v]
  {
    ValueAttribute(s, at, eq, a, v);
    ReadsOnce(s, at - 1, map[], a, v, |s|);
  }

  lemma RestParts(s: string, at: nat, eq: nat, a: string, tail: string, rest: string)
    requires at <= |s| && s[at..] == rest && rest == a + "=" + tail && eq == at + |a|
    ensures eq < |s| && s[at..eq] == a && s[eq] == '=' && s[eq + 1..] == tail
  {
    assert rest[..|a|] == a && rest[|a|] == '=' && rest[|a| + 1..] == tail;
    assert s[at..eq] == s[at..][..|a|] && s[eq] == s[at..][|a|] && s[eq + 1..] == s[at..][|a| + 1..];
  }

  lemma NameInRest(a: string, v: string, q: string, tail: string, rest: string)
    requires AttrName(a) && PlainValue(v) && Quote(q) && tail == q + v + q + "]" && rest == a + "=" + tail
    ensures IndexFrom(rest, '@', 0) == |rest| && IndexFrom(rest, '=', 0) == |a|
  {
    forall i | 0 <= i < |rest| ensures rest[i] != '@' {
      if i > |a| { InTail(v, q, i - |a| - 1); }
    }
    NotThere(rest, '@', 0);
    IndexUnique(rest, '=', 0, |a|);
  }

  lemma ValueAttribute(s: string, at: nat, eq: nat, a: string, v: string)
    requires at <= eq < |s| && IndexFrom(s, '=', at) == eq && IndexFrom(s, '@', at) > eq
    requires s[at..eq] == a && ValueAfter(s, at, eq) == v
    ensures AttributeAt(s, at) == ((a, v), true)
  {
  }

  lemma InTail(v: string, q: string, i: nat)
    requires PlainValue(v) && Quote(q) && i < |q + v + q + "]"|
    ensures (q + v + q + "]")[i] != '@' && (q + v + q + "]")[i] != ' '
  {
    var tail := q + v + q + "]";
    if |q| <= i < |q| + |v| { assert tail[i] == v[i - |q|]; }
  }

  lemma QuotedValue(s: string, at: nat, eq: nat, v: string, q: string, tail: string)
    requires PlainValue(v) && Quote(q) && tail == q + v + q + "]"
    requires at <= eq && eq + 1 + |tail| == |s| && s[eq] == '=' && s[eq + 1..] == tail
    ensures ValueAfter(s, at, eq) == v
  {
    forall i | eq <= i < |s| ensures s[i] != ' ' {
      if i > eq { assert s[i] == tail[i - eq - 1]; InTail(v, q, i - eq - 1); }
    }
    NotThere(s, ' ', eq);
    assert ValueStop(s, at, eq) == |s|;
    var first := eq + 1 + |q|;
    var end := first + |v|;
    assert q + v + q + "]" == q + v + (q + "]");
    MiddleSlice(q, v, q + "]", tail);
    assert s[first..end] == s[eq + 1..][|q|..|q| + |v|];
    QuotedEnds(s, eq, v, q, tail, first, end);
  }

  lemma MiddleSlice(a: string, b: string, c: string, all: string)
    requires all == a + b + c
    ensures all[|a|..|a| + |b|] == b
  {
  }

  lemma QuotedEnds(s: string, eq: nat, v: string, q: string, tail: string, first: nat, end: nat)
    requires PlainValue(v) && Quote(q) && tail == q + v + q + "]" && eq + 1 + |tail| == |s| && s[eq + 1..] == tail
    requires first == eq + 1 + |q| && end == first + |v|
    ensures CutLast(s, CutLast(s, CutLast(s, |s|, ']'), '\''), '"') == end
    ensures CutFirst(s, CutFirst(s, eq + 1, '\''), '"') == first
  {
    forall i | eq < i < |s| ensures s[i] == tail[i - eq - 1] { assert s[i] == s[eq + 1..][i - eq - 1]; }
    assert tail[|q|] == v[0] && tail[|q| + |v| - 1] == v[|v| - 1];
    if |q| == 1 { assert tail[0] == q[0] && tail[|q| + |v|] == q[0]; }
    assert tail[|tail| - 1] == ']';
  }

  // ---- whole paths

  /** The last step must have the attribute asked for, with any value. */
  function Asking(steps: seq<Step>, a: string): seq<Step>
    requires steps != []
  {
    var n := |steps| - 1;
    steps[n := Step(steps[n].name, steps[n].qualifiers[a := ""])]
  }

  /** Asking for an attribute of the last step. */
  function Asked(steps: seq<Step>, a: string): Query
    requires steps != []
  {
    Query(Asking(steps, a), a, |steps| - 1)
  }

  lemma {:induction false} JoinedConcat(a: seq<string>, b: seq<string>)
    ensures Joined(a + b) == Joined(a) + Joined(b)
  {
    if a == [] {
      assert a + b == b;
    } else {
      assert (a + b)[1..] == a[1..] + b && (a + b)[0] == a[0];
      JoinedConcat(a[1..], b);
    }
  }

  lemma JoinedLone(a: string)
    ensures Joined(["@" + a]) == "/@" + a
  {
    var section := "@" + a;
    assert Joined([section]) == "/" + (section + "");
  }

  lemma JoinedAsked(before: seq<string>, a: string, after: seq<string>, sections: seq<string>)
    requires sections == before + ["@" + a] + after
    ensures Joined(sections) == Joined(before) + "/@" + a + Joined(after)
  {
    JoinedConcat(before + ["@" + a], after);
    JoinedConcat(before, ["@" + a]);
    JoinedLone(a);
  }

  function Lone(name: string, a: string): Step { Step(name, map[a := ""]) }

  lemma ReadConcat(a: seq<string>, b: seq<string>)
    ensures ReadSections(a + b) == ReadSections(a) + ReadSections(b)
  {
  }

  lemma ReadAll(sections: seq<string>, steps: seq<Step>)
    requires AllRead(sections, steps)
    ensures ReadSections(sections) == steps && NoSlashes(sections) && AllNamed(steps)
  {
  }

  ghost predicate NoSlashes(sections: seq<string>) { forall i :: 0 <= i < |sections| ==> '/' !in sections[i] }

  ghost predicate AllNamed(steps: seq<Step>) { forall i :: 0 <= i < |steps| ==> steps[i].name != "" }

  lemma ReadLone(a: string)
    requires AttrName(a)
    ensures ReadSections(["@" + a]) == [Lone(NodeName("@" + a), a)] && NoSlashes(["@" + a])
  {
    LoneAttribute(a);
  }

  lemma ReadAsked(before: seq<string>, steps: seq<Step>, a: string, after: seq<string>, more: seq<Step>,
                  sections: seq<string>)
    requires AllRead(before, steps) && AllRead(after, more) && AttrName(a) && sections == before + ["@" + a] + after
    ensures ReadSections(sections) == steps + [Lone(NodeName("@" + a), a)] + more
    ensures NoSlashes(sections) && AllNamed(steps) && AllNamed(more)
  {
    ReadAll(before, steps);
    ReadAll(after, more);
    ReadLone(a);
    ReadConcat(before, ["@" + a]);
    ReadConcat(before + ["@" + a], after);
  }

  /** Reading on at the j-th section with q' gives what reading on at the i-th with q gives. */
  ghost predicate LeadsTo(all: seq<Step>, i: nat, q: Query, j: nat, q': Query) {
    i <= |all| && j <= |all| && Assemble(all, i, q) == Assemble(all, j, q')
  }

  lemma AskedHere(all: seq<Step>, n: nat, a: string, q: Query, q': Query)
    requires 0 < n < |all| && |q.steps| == n && all[n] == Lone("", a) && q' == Query(Asking(q.steps, a), a, n - 1)
    ensures LeadsTo(all, n, q, n + 1, q')
  {
    assert |map[a := ""]| == 1 && TheKey(map[a := ""]) == a;
  }

  lemma Parts(steps: seq<Step>, x: Step, more: seq<Step>, rest: seq<Step>, all: seq<Step>)
    requires all == steps + [x] + more + rest
    ensures all[0..|steps|] == steps && all[|steps|] == x
    ensures all[|steps| + 1..|steps| + 1 + |more|] == more
  {
  }

  lemma AddNamed(all: seq<Step>, i: nat, j: nat, some: seq<Step>, q: Query, q': Query)
    requires i <= j <= |all| && all[i..j] == some && AllNamed(some) && q' == q.(steps := q.steps + some)
    ensures LeadsTo(all, i, q, j, q')
  {
    forall k | i <= k < j ensures all[k].name != "" { assert all[k] == some[k - i]; }
    AssembleNamed(all, i, j, q);
  }

  lemma LeadsOn(all: seq<Step>, i: nat, q: Query, j: nat, q': Query, k: nat, q'': Query)
    requires LeadsTo(all, i, q, j, q') && LeadsTo(all, j, q', k, q'')
    ensures LeadsTo(all, i, q, k, q'')
  {
  }

  lemma AssembleAsked(all: seq<Step>, steps: seq<Step>, a: string, more: seq<Step>, rest: seq<Step>, q: Query)
    requires steps != [] && all == steps + [Lone("", a)] + more + rest && AllNamed(steps) && AllNamed(more)
    requires q == Query(Asking(steps, a) + more, a, |steps| - 1)
    ensures LeadsTo(all, 0, Query([], "", NO_DEPTH), |steps| + 1 + |more|, q)
  {
    var n, m := |steps|, |steps| + 1 + |more|;
    var q0, q1 := Query([], "", NO_DEPTH), Query(steps, "", NO_DEPTH);
    var q2 := Query(Asking(steps, a), a, n - 1);
    Parts(steps, Lone("", a), more, rest, all);
    AskedFirst(all, n, steps, a, q0, q1, q2);
    AddNamed(all, n + 1, m, more, q2, q);
    LeadsOn(all, 0, q0, n + 1, q2, m, q);
  }

  lemma AskedFirst(all: seq<Step>, n: nat, steps: seq<Step>, a: string, q0: Query, q1: Query, q2: Query)
    requires 0 < n < |all| && all[0..n] == steps && all[n] == Lone("", a) && AllNamed(steps)
    requires q0 == Query([], "", NO_DEPTH) && q1 == Query(steps, "", NO_DEPTH)
    requires q2 == Query(Asking(steps, a), a, n - 1)
    ensures LeadsTo(all, 0, q0, n + 1, q2)
  {
    assert [] + steps == steps;
    AddNamed(all, 0, n, steps, q0, q1);
    AskedHere(all, n, a, q1, q2);
    LeadsOn(all, 0, q0, n, q1, n + 1, q2);
  }

  lemma AllAssembled(all: seq<Step>, q: Query)
    requires LeadsTo(all, 0, Query([], "", NO_DEPTH), |all|, q)
    ensures Assemble(all, 0, Query([], "", NO_DEPTH)) == Valid(q)
  {
  }

  /** Sections, a lone attribute, and more sections: the attribute is asked for at the depth of the
      section before it. */
  lemma AskedInside(before: seq<string>, steps: seq<Step>, a: string, after: seq<string>, more: seq<Step>)
    requires before != [] && before[0] != "" && AllRead(before, steps) && AllRead(after, more)
    requires AttrName(a) && Lacks(a, ':')
    ensures Parse(Joined(before) + "/@" + a + Joined(after)) == Valid(Query(Asking(steps, a) + more, a, |steps| - 1))
  {
    var sections := before + ["@" + a] + after;
    LoneName(a);
    JoinedAsked(before, a, after, sections);
    ReadAsked(before, steps, a, after, more, sections);
    ParseJoined(sections);
    var all, q := ReadSections(sections), Query(Asking(steps, a) + more, a, |steps| - 1);
    assert all == all + [];
    AssembleAsked(all, steps, a, more, [], q);
    AllAssembled(all, q);
  }

  /** A path that ends in a lone attribute asks for it, if and only if the attribute is not taken for a
      node: it has no namespace prefix, or nothing after one. */
  lemma AskedAtEnd(path: seq<Elem>, a: string)
    requires LegalPath(path) && AttrName(a)
    ensures Parse(PathText(path) + "/@" + a) == Valid(Asked(ReadSteps(path), a)) <==>
            Lacks(a, ':') || LocalName(a) == ""
  {
    var name := NodeName("@" + a);
    LoneName(a);
    PathEndParses(path, a, name);
    AskedIff(ReadSteps(path), a, name, Parse(PathText(path) + "/@" + a));
  }

  lemma PathEndParses(path: seq<Elem>, a: string, name: string)
    requires LegalPath(path) && AttrName(a) && name == NodeName("@" + a)
    ensures Parse(PathText(path) + "/@" + a) ==
            Valid(if name == "" then Asked(ReadSteps(path), a) else Added(ReadSteps(path), Lone(name, a)))
  {
    PathSections(path);
    EndParses(Sections(path), ReadSteps(path), a, name);
  }

  /** One more step, and nothing asked for. */
  function Added(steps: seq<Step>, step: Step): Query { Query(steps + [step], "", NO_DEPTH) }

  lemma AskedIff(steps: seq<Step>, a: string, name: string, parsed: Parsed)
    requires steps != [] && a != "" && name == (if Lacks(a, ':') then "" else LocalName(a))
    requires parsed == Valid(if name == "" then Asked(steps, a) else Added(steps, Lone(name, a)))
    ensures parsed == Valid(Asked(steps, a)) <==> Lacks(a, ':') || LocalName(a) == ""
  {
  }

  lemma EndParses(before: seq<string>, steps: seq<Step>, a: string, name: string)
    requires before != [] && before[0] != "" && AllRead(before, steps) && AttrName(a) && name == NodeName("@" + a)
    ensures Parse(Joined(before) + "/@" + a) ==
            Valid(if name == "" then Asked(steps, a) else Added(steps, Lone(name, a)))
  {
    var sections := before + ["@" + a];
    EndsAsked(before, steps, a, sections);
    ParseJoined(sections);
    AskedOrStep(ReadSections(sections), steps, name, a);
  }

  lemma EndsAsked(before: seq<string>, steps: seq<Step>, a: string, sections: seq<string>)
    requires AllRead(before, steps) && AttrName(a) && sections == before + ["@" + a]
    ensures Joined(sections) == Joined(before) + "/@" + a
    ensures ReadSections(sections) == steps + [Lone(NodeName("@" + a), a)]
    ensures NoSlashes(sections) && AllNamed(steps)
  {
    assert sections == sections + [];
    JoinedAsked(before, a, [], sections);
    var text := Joined(before) + "/@" + a;
    assert text + "" == text;
    ReadAsked(before, steps, a, [], [], sections);
    var all := steps + [Lone(NodeName("@" + a), a)];
    assert all + [] == all;
  }

  lemma AskedOrStep(all: seq<Step>, steps: seq<Step>, name: string, a: string)
    requires steps != [] && all == steps + [Lone(name, a)] && AllNamed(steps)
    ensures Assemble(all, 0, Query([], "", NO_DEPTH)) ==
            Valid(if name == "" then Asked(steps, a) else Added(steps, Lone(name, a)))
  {
    var q0 := Query([], "", NO_DEPTH);
    if name == "" {
      var q := Asked(steps, a);
      assert all == all + [] + [] && Asking(steps, a) + [] == Asking(steps, a);
      AssembleAsked(all, steps, a, [], [], q);
      AllAssembled(all, q);
    } else {
      var q := Query(all, "", NO_DEPTH);
      assert all[0..|all|] == all && [] + all == all;
      AddNamed(all, 0, |all|, all, q0, q);
      AllAssembled(all, q);
    }
  }

  /** A second lone attribute makes the path invalid. */
  lemma AskedTwice(before: seq<string>, steps: seq<Step>, a: string, after: seq<string>, more: seq<Step>, b: string)
    requires before != [] && before[0] != "" && AllRead(before, steps) && AllRead(after, more)
    requires AttrName(a) && Lacks(a, ':') && AttrName(b) && Lacks(b, ':')
    ensures Parse(Joined(before) + "/@" + a + Joined(after) + "/@" + b) == Invalid
  {
    var front, last := before + ["@" + a] + after, "@" + b;
    LoneName(a);
    LoneName(b);
    JoinedTwice(before, a, after, b, front);
    ReadAsked(before, steps, a, after, more, front);
    ReadLone(b);
    ReadConcat(front, [last]);
    ParseJoined(front + [last]);
    InvalidTwice(ReadSections(front + [last]), steps, a, more, b);
  }

  lemma JoinedTwice(before: seq<string>, a: string, after: seq<string>, b: string, front: seq<string>)
    requires front == before + ["@" + a] + after
    ensures Joined(front + ["@" + b]) == Joined(before) + "/@" + a + Joined(after) + "/@" + b
  {
    JoinedAsked(before, a, after, front);
    JoinedConcat(front, ["@" + b]);
    JoinedLone(b);
  }

  lemma InvalidTwice(all: seq<Step>, steps: seq<Step>, a: string, more: seq<Step>, b: string)
    requires steps != [] && AllNamed(steps) && AllNamed(more)
    requires all == steps + [Lone("", a)] + more + [Lone("", b)]
    ensures Assemble(all, 0, Query([], "", NO_DEPTH)) == Invalid
  {
    var q, m := Query(Asking(steps, a) + more, a, |steps| - 1), |steps| + 1 + |more|;
    AssembleAsked(all, steps, a, more, [Lone("", b)], q);
    assert all[m] == Lone("", b);
    NothingToAsk(all, m, q, b);
  }

  lemma NothingToAsk(all: seq<Step>, n: nat, q: Query, b: string)
    requires 0 < n < |all| && all[n] == Lone("", b) && n - 1 >= |q.steps|
    ensures Assemble(all, n, q) == Invalid
  {
    assert |map[b := ""]| == 1;
  }

  /** A section that is neither a node nor a lone attribute is passed over: one between two slashes, or
      one with several attributes and no name. */
  lemma PassedOver(before: seq<string>, steps: seq<Step>, section: string, after: seq<string>, more: seq<Step>)
    requires before != [] && before[0] != "" && AllRead(before, steps) && AllRead(after, more)
    requires '/' !in section && NodeName(section) == "" && |Qualifiers(section)| != 1
    ensures Parse(Joined(before + [section] + after)) == Valid(Query(steps + more, "", NO_DEPTH))
  {
    var sections, x := before + [section] + after, Step(NodeName(section), Qualifiers(section));
    ReadAll(before, steps);
    ReadAll(after, more);
    assert ReadSections([section]) == [x];
    ReadConcat(before, [section]);
    ReadConcat(before + [section], after);
    ParseJoined(sections);
    PassesOver(ReadSections(sections), steps, x, more);
  }

  lemma PassesOver(all: seq<Step>, steps: seq<Step>, x: Step, more: seq<Step>)
    requires steps != [] && AllNamed(steps) && AllNamed(more) && x.name == "" && |x.qualifiers| != 1
    requires all == steps + [x] + more
    ensures Assemble(all, 0, Query([], "", NO_DEPTH)) == Valid(Query(steps + more, "", NO_DEPTH))
  {
    var n := |steps|;
    var q0, q1, q2 := Query([], "", NO_DEPTH), Query(steps, "", NO_DEPTH), Query(steps + more, "", NO_DEPTH);
    assert all == all + [] && [] + steps == steps;
    Parts(steps, x, more, [], all);
    AddNamed(all, 0, n, steps, q0, q1);
    assert LeadsTo(all, n, q1, n + 1, q1);
    LeadsOn(all, 0, q0, n, q1, n + 1, q1);
    AddNamed(all, n + 1, |all|, more, q1, q2);
    LeadsOn(all, 0, q0, n + 1, q1, |all|, q2);
    AllAssembled(all, q2);
  }

  /** One more slash at the front changes nothing. */
  lemma SlashIgnored(s: string)
    ensures Parse("/" + s) == Parse(s)
  {
    var t := "/" + s;
    SkipShifts(s, t, 0);
    var start := SkipSlashes(s, 0);
    if start < |s| { SplitShifts(s, t, start); }
  }

  lemma {:induction false} SkipShifts(s: string, t: string, from: nat)
    requires t == "/" + s && from <= |s|
    ensures SkipSlashes(t, from + 1) == SkipSlashes(s, from) + 1
    decreases |s| - from
  {
    if from < |s| { SkipShifts(s, t, from + 1); }
  }

  lemma {:induction false} IndexShifts(s: string, t: string, c: char, from: nat)
    requires t == "/" + s && from <= |s|
    ensures IndexFrom(t, c, from + 1) == IndexFrom(s, c, from) + 1
    decreases |s| - from
  {
    if from < |s| { IndexShifts(s, t, c, from + 1); }
  }

  lemma {:induction false} SplitShifts(s: string, t: string, from: nat)
    requires t == "/" + s && from <= |s|
    ensures SplitFrom(t, from + 1) == SplitFrom(s, from)
    decreases |s| - from
  {
    IndexShifts(s, t, '/', from);
    var pos := IndexFrom(s, '/', from);
    if pos == |s| {
      assert t[from + 1..] == s[from..];
    } else {
      assert t[from + 1..pos + 1] == s[from..pos];
      SplitShifts(s, t, pos + 1);
    }
  }
}
