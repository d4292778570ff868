/** The geometry interface's path language: how a path is parsed into node names and attribute
    qualifiers, for a small subset of sections 2 and 2.5 of W3C XML Path Language (XPath)
    Version 1.0. */
module XPaths {

  type Attr = (string, string)  // name, value

  datatype Step = Step(name: string, qualifiers: map<string, string>)

  /** `attrDepth` is the step that carries the attribute asked for, or NO_DEPTH. */
  datatype Query = Query(steps: seq<Step>, attribute: string, attrDepth: nat)

  const NO_DEPTH: nat := 0xFFFF_FFFF

  /** `Invalid` stands for the out-of-range accesses that malformed paths lead to. */
  datatype Parsed = Valid(query: Query) | Invalid

  // ---- searching in strings; the length of the string means "not found"

  function IndexFrom(s: string, c: char, from: nat): (r: nat)
    requires from <= |s|
    ensures from <= r <= |s|
    ensures r < |s| ==> s[r] == c
    decreases |s| - from
  {
    if from == |s| || s[from] == c then from else IndexFrom(s, c, from + 1)
  }

  lemma {:induction false} IndexUnique(s: string, c: char, from: nat, r: nat)
    requires from <= r <= |s|
    requires r < |s| ==> s[r] == c
    requires forall i :: from <= i < r ==> s[i] != c
    ensures IndexFrom(s, c, from) == r
    decreases |s| - from
  {
    if from < r { IndexUnique(s, c, from + 1, r); }
  }

  function SkipSlashes(s: string, from: nat): (r: nat)
    requires from <= |s|
    ensures from <= r <= |s|
    decreases |s| - from
  {
    if from < |s| && s[from] == '/' then SkipSlashes(s, from + 1) else from
  }

  /** The text from `from` on, cut at each '/'. */
  function SplitFrom(s: string, from: nat): (r: seq<string>)
    requires from <= |s|
    ensures r != []
    decreases |s| - from
  {
    var pos := IndexFrom(s, '/', from);
    if pos == |s| then [s[from..]] else [s[from..pos]] + SplitFrom(s, pos + 1)
  }

  // ---- one section of a path

  function CutLast(s: string, end: nat, c: char): (r: nat)
    requires end <= |s|
    ensures r <= end
  {
    if end > 0 && s[end - 1] == c then end - 1 else end
  }

  function CutFirst(s: string, start: nat, c: char): (r: nat)
    requires start <= |s|
    ensures start <= r <= |s|
  {
    if start < |s| && s[start] == c then start + 1 else start
  }

  /** substr(from, to - from): a negative length wraps around and means everything. */
  function Substring(s: string, from: nat, to: nat): string
    requires from <= |s| && to <= |s|
  {
    if from <= to then s[from..to] else s[from..]
  }

  /** Where the value after the '=' at `eq` stops: at a blank, or at the closing quote of a value
      that holds blanks. */
  function ValueStop(s: string, at: nat, eq: nat): (r: nat)
    requires at <= eq < |s|
    ensures r <= |s|
  {
    var blank := IndexFrom(s, ' ', eq);
    var quote := IndexFrom(s, '\'', at);
    var closing := if quote < |s| then IndexFrom(s, '\'', quote + 1) else |s|;
    if closing < |s| && closing > blank then closing else blank
  }

  /** The value, less a closing bracket and quotes at its end and quotes at its start. */
  function ValueAfter(s: string, at: nat, eq: nat): string
    requires at <= eq < |s|
  {
    var end := CutLast(s, CutLast(s, CutLast(s, ValueStop(s, at, eq), ']'), '\''), '"');
    var start := CutFirst(s, CutFirst(s, eq + 1, '\''), '"');
    Substring(s, start, end)
  }

  /** An attribute without a value: its name runs to a blank or to the closing bracket. */
  function FlagName(s: string, at: nat): string
    requires at <= |s|
  {
    Substring(s, at, CutLast(s, IndexFrom(s, ' ', at), ']'))
  }

  /** The attribute written from `at` (just after an '@') on, if there is one. */
  function AttributeAt(s: string, at: nat): (Attr, bool)
    requires at <= |s|
  {
    var eq := IndexFrom(s, '=', at);
    if eq == |s| then ((FlagName(s, at), ""), true)
    else if IndexFrom(s, '@', at) > eq then ((s[at..eq], ValueAfter(s, at, eq)), true)
    else (("", ""), false)
  }

  /** All attributes from the '@' at `at` on. */
  function AttributesFrom(s: string, at: nat, known: map<string, string>): map<string, string>
    requires at <= |s|
    decreases |s| - at
  {
    if at == |s| then known
    else
      var ((name, value), present) := AttributeAt(s, at + 1);
      if !present || name == "" then known
      else AttributesFrom(s, IndexFrom(s, '@', at + 1), known[name := value])
  }

  /** Reading on at `next` with `name` set to `value` gives what reading at `at` gives. */
  ghost predicate ReadsOn(s: string, at: nat, known: map<string, string>, name: string, value: string, next: nat)
    requires at <= |s| && next <= |s|
  {
    AttributesFrom(s, at, known) == AttributesFrom(s, next, known[name := value])
  }

  lemma ReadsOnce(s: string, at: nat, known: map<string, string>, name: string, value: string, next: nat)
    requires at < |s| && name != "" && AttributeAt(s, at + 1) == ((name, value), true) &&
             next == IndexFrom(s, '@', at + 1)
    ensures ReadsOn(s, at, known, name, value, next)
  {
  }

  lemma ReadsNoMore(s: string, at: nat, known: map<string, string>, name: string, value: string, present: bool)
    requires at < |s| && AttributeAt(s, at + 1) == ((name, value), present) && (!present || name == "")
    ensures AttributesFrom(s, at, known) == known
  {
  }

  function NodeName(s: string): string {
    var end := IndexFrom(s, '[', 0);
    var colon := IndexFrom(s, ':', 0);
    var start := if colon == |s| || colon > end then 0 else colon + 1;
    if start < |s| && s[start] == '@' then "" else Substring(s, start, end)
  }

  function Qualifiers(s: string): map<string, string> {
    AttributesFrom(s, IndexFrom(s, '@', 0), map[])
  }

  // ---- a whole path

  /** What each section reads as. */
  function ReadSections(sections: seq<string>): (r: seq<Step>)
    ensures |r| == |sections|
    ensures forall i :: 0 <= i < |r| ==> r[i] == Step(NodeName(sections[i]), Qualifiers(sections[i]))
  {
    seq(|sections|, i requires 0 <= i < |sections| => Step(NodeName(sections[i]), Qualifiers(sections[i])))
  }

  /** Adds the `i`-th section; one that is a lone attribute names what is asked for. */
  function AddSection(q: Query, i: nat, section: Step): Parsed {
    if section.name != "" || i == 0 then Valid(q.(steps := q.steps + [section]))
    else if |section.qualifiers| != 1 then Valid(q)
    else if i - 1 >= |q.steps| then Invalid
    else Valid(AskFor(q, i - 1, TheKey(section.qualifiers)))
  }

  function Assemble(sections: seq<Step>, i: nat, q: Query): Parsed
    requires i <= |sections|
    decreases |sections| - i
  {
    if i == |sections| then Valid(q)
    else
      var r := AddSection(q, i, sections[i]);
      if r.Invalid? then Invalid else Assemble(sections, i + 1, r.query)
  }

  function AskFor(q: Query, i: nat, attr: string): Query
    requires i < |q.steps|
  {
    Query(q.steps[i := q.steps[i].(qualifiers := q.steps[i].qualifiers[attr := ""])], attr, |q.steps| - 1)
  }

  lemma SingleKey(m: map<string, string>)
    requires |m| == 1
    ensures exists k :: k in m && forall k' :: k' in m ==> k' == k
  {
    var k :| k in m.Keys;
    assert |m.Keys - {k}| == 0;
    assert forall k' :: k' in m ==> k' == k || k' in m.Keys - {k};
  }

  function TheKey(m: map<string, string>): (k: string)
    requires |m| == 1
    ensures k in m && m.Keys == {k}
  {
    SingleKey(m);
    var k :| k in m && forall k' :: k' in m ==> k' == k;
    k
  }

  function Parse(xpath: string): Parsed {
    var start := SkipSlashes(xpath, 0);
    if start == |xpath| then Invalid else Assemble(ReadSections(SplitFrom(xpath, start)), 0, Query([], "", NO_DEPTH))
  }

  // ---- the parser as the program runs it

  method SplitPath(xpath: string) returns (sections: seq<string>)
    ensures var start := SkipSlashes(xpath, 0);
            sections == if start == |xpath| then [] else SplitFrom(xpath, start)
  {
    var lastPos := 0;
    while lastPos < |xpath| && xpath[lastPos] == '/'
      invariant lastPos <= |xpath| && SkipSlashes(xpath, lastPos) == SkipSlashes(xpath, 0)
    {
      lastPos := lastPos + 1;
    }
    sections := [];
    if lastPos == |xpath| { return; }
    ghost var all := SplitFrom(xpath, lastPos);
    while true
      invariant lastPos <= |xpath|
      invariant sections + SplitFrom(xpath, lastPos) == all
      decreases |xpath| - lastPos
    {
      var pos := IndexFrom(xpath, '/', lastPos);
      SplitNext(xpath, lastPos, pos, sections);
      if pos == |xpath| { break; }
      sections := sections + [xpath[lastPos..pos]];
      lastPos := pos + 1;
    }
    sections := sections + [xpath[lastPos..]];
  }

  lemma SplitNext(s: string, from: nat, pos: nat, before: seq<string>)
    requires from <= |s| && pos == IndexFrom(s, '/', from)
    ensures before + SplitFrom(s, from) ==
              if pos == |s| then before + [s[from..]] else (before + [s[from..pos]]) + SplitFrom(s, pos + 1)
  {
    if pos < |s| {
      var first, rest := [s[from..pos]], SplitFrom(s, pos + 1);
      assert before + (first + rest) == (before + first) + rest;
    }
  }

  method ParseXPath(xpath: string) returns (r: Parsed)
    ensures r == Parse(xpath)
  {
    var sections := SplitPath(xpath);
    if sections == [] { return Invalid; } // nothing but slashes
    r := AssembleSections(sections);
  }

  method AssembleSections(sections: seq<string>) returns (r: Parsed)
    ensures r == Assemble(ReadSections(sections), 0, Query([], "", NO_DEPTH))
  {
    var q := Query([], "", NO_DEPTH);
    ghost var parts := ReadSections(sections);
    ghost var all := Assemble(parts, 0, q);
    for i := 0 to |sections|
      invariant Assemble(parts, i, q) == all
    {
      var name, quals := ParseSection(sections[i]);
      assert parts[i] == Step(name, quals);
      r := PlaceSection(q, i, name, quals);
      if r.Invalid? { return; }
      q := r.query;
    }
    r := Valid(q);
  }

  method PlaceSection(q: Query, i: nat, name: string, quals: map<string, string>) returns (r: Parsed)
    ensures r == AddSection(q, i, Step(name, quals))
  {
    if name == "" && i > 0 {
      if |quals| == 1 {
        if i - 1 >= |q.steps| { return Invalid; }
        return Valid(AskFor(q, i - 1, TheKey(quals)));
      }
      r := Valid(q);
    } else {
      r := Valid(q.(steps := q.steps + [Step(name, quals)]));
    }
  }

  method ParseSection(str: string) returns (name: string, quals: map<string, string>)
    ensures name == NodeName(str) && quals == Qualifiers(str)
  {
    name := ReadName(str);
    quals := ReadAttributes(str, IndexFrom(str, '@', 0));
  }

  method ReadAttributes(str: string, first: nat) returns (quals: map<string, string>)
    requires first <= |str|
    ensures quals == AttributesFrom(str, first, map[])
  {
    quals := map[];
    var lastPos := first;
    ghost var all := AttributesFrom(str, first, map[]);
    while lastPos < |str|
      invariant lastPos <= |str|
      invariant AttributesFrom(str, lastPos, quals) == all
      decreases |str| - lastPos
    {
      quals, lastPos := ReadNext(str, lastPos, quals);
    }
  }

  method ReadNext(str: string, at: nat, known: map<string, string>) returns (quals: map<string, string>, next: nat)
    requires at < |str|
    ensures at < next <= |str|
    ensures AttributesFrom(str, next, quals) == AttributesFrom(str, at, known)
  {
    var lastPos := at + 1;
    var attr, val, present := ReadAttribute(str, lastPos);
    if !present || attr == "" {
      ReadsNoMore(str, at, known, attr, val, present);
      quals, next := known, |str|;
    } else {
      next := IndexFrom(str, '@', lastPos);
      ReadsOnce(str, at, known, attr, val, next);
      quals := known[attr := val];
    }
  }

  method ReadName(str: string) returns (name: string)
    ensures name == NodeName(str)
  {
    var nodeEnd := IndexFrom(str, '[', 0);
    var nodeStart := IndexFrom(str, ':', 0);
    if nodeStart == |str| || nodeStart > nodeEnd {
      nodeStart := 0;
    } else {
      nodeStart := nodeStart + 1;
    }
    if nodeStart < |str| && str[nodeStart] == '@' { nodeStart := nodeEnd; }
    name := Substring(str, nodeStart, nodeEnd);
  }

  method ReadAttribute(str: string, lastPos: nat) returns (attr: string, val: string, present: bool)
    requires lastPos <= |str|
    ensures ((attr, val), present) == AttributeAt(str, lastPos)
  {
    attr, val, present := "", "", true;
    var eq := IndexFrom(str, '=', lastPos);
    var next := IndexFrom(str, '@', lastPos);
    if eq < |str| && next > eq {
      attr := str[lastPos..eq];
      val := ReadValue(str, lastPos, eq);
    } else if eq == |str| {
      var end := CutLast(str, IndexFrom(str, ' ', lastPos), ']');
      attr := Substring(str, lastPos, end);
    } else {
      present := false;
    }
  }

  method ReadValue(str: string, lastPos: nat, eq: nat) returns (val: string)
    requires lastPos <= eq < |str|
    ensures val == ValueAfter(str, lastPos, eq)
  {
    var end := IndexFrom(str, ' ', eq);
    var quote := IndexFrom(str, '\'', lastPos);
    if quote < |str| {
      quote := IndexFrom(str, '\'', quote + 1);
      if quote < |str| && quote > end { end := quote; }
    }
    assert end == ValueStop(str, lastPos, eq);
    end := CutLast(str, CutLast(str, CutLast(str, end, ']'), '\''), '"');
    var start := CutFirst(str, CutFirst(str, eq + 1, '\''), '"');
    val := Substring(str, start, end);
  }
}
