/** The event objects are what the steps are about: a call that no other thread disturbs takes the
    events, seen as a world of numbered events, through its steps. */
module EventObjects {
  import opened EventHierarchy
  import opened HierarchySteps
  import opened HandBacks

  type Stack = seq<Link<JEvent>>

  ghost predicate Distinct(events: seq<JEvent>) {
    forall i, j :: 0 <= i < j < |events| ==> events[i] != events[j]
  }

  ghost predicate Known(events: seq<JEvent>, stack: Stack) {
    forall k :: 0 <= k < |stack| ==> stack[k].parent in events
  }

  ghost predicate AllKnown(events: seq<JEvent>, stacks: seq<Stack>) {
    |stacks| == |events| && forall i :: 0 <= i < |stacks| ==> Known(events, stacks[i])
  }

  ghost function Number(events: seq<JEvent>, e: JEvent): (i: nat)
    requires e in events
    ensures i < |events| && events[i] == e
  {
    var i :| 0 <= i < |events| && events[i] == e;
    i
  }

  ghost function Numbered(events: seq<JEvent>, stack: Stack): (r: seq<Link<nat>>)
    requires Known(events, stack)
    ensures |r| == |stack|
    ensures forall k :: 0 <= k < |stack| ==> r[k] == Link(stack[k].level, Number(events, stack[k].parent))
  {
    seq(|stack|, k requires 0 <= k < |stack| => Link(stack[k].level, Number(events, stack[k].parent)))
  }

  ghost function Children(events: seq<JEvent>, stacks: seq<Stack>): (r: seq<Child>)
    requires AllKnown(events, stacks)
    ensures |r| == |events| && forall i :: 0 <= i < |r| ==> r[i] == Child(Numbered(events, stacks[i]), Idle)
  {
    seq(|stacks|, i requires 0 <= i < |stacks| => Child(Numbered(events, stacks[i]), Idle))
  }

  ghost function Levels(events: seq<JEvent>): (r: seq<nat>)
    ensures |r| == |events| && forall i :: 0 <= i < |r| ==> r[i] == events[i].level
  {
    seq(|events|, i requires 0 <= i < |events| => events[i].level)
  }

  ghost function Stacks(events: seq<JEvent>): (r: seq<Stack>)
    reads events
    ensures |r| == |events| && forall i :: 0 <= i < |r| ==> r[i] == events[i].parents
  {
    seq(|events|, i requires 0 <= i < |events| reads events => events[i].parents)
  }

  ghost function Counts(events: seq<JEvent>): (r: seq<int>)
    reads events
    ensures |r| == |events| && forall i :: 0 <= i < |r| ==> r[i] == events[i].count
  {
    seq(|events|, i requires 0 <= i < |events| reads events => events[i].count)
  }

  /** Events with these parents and counts, as a world in which nobody is in the middle of a call. */
  ghost function Seen(events: seq<JEvent>, stacks: seq<Stack>, counts: seq<int>, own: seq<int>): World
    requires AllKnown(events, stacks)
  {
    World(Levels(events), Children(events, stacks), counts, own)
  }

  /** The events are distinct objects, and all their parents are among them. */
  ghost predicate Family(events: seq<JEvent>, own: seq<int>)
    reads events
  {
    Distinct(events) && AllKnown(events, Stacks(events)) && |own| == |events|
  }

  ghost function Now(events: seq<JEvent>, own: seq<int>): (w: World)
    requires Family(events, own)
    reads events
    ensures Shaped(w)
  {
    Seen(events, Stacks(events), Counts(events), own)
  }

  /** Levels say the same about both kinds of stack. */
  lemma SameLevels(events: seq<JEvent>, stack: Stack, level: nat)
    requires Known(events, stack)
    ensures HasLevel(Numbered(events, stack), level) <==> HasLevel(stack, level)
    ensures OnTop(Numbered(events, stack), level) <==> OnTop(stack, level)
  {
    var numbered := Numbered(events, stack);
    if i :| 0 <= i < |stack| && stack[i].level == level { assert numbered[i].level == level; }
    if i :| 0 <= i < |numbered| && numbered[i].level == level { assert stack[i].level == level; }
  }

  lemma ChildChanged(events: seq<JEvent>, stacks: seq<Stack>, c: nat, stack: Stack, children: seq<Child>)
    requires AllKnown(events, stacks) && c < |events| && Known(events, stack)
    requires children == Children(events, stacks)[c := Child(Numbered(events, stack), Idle)]
    ensures AllKnown(events, stacks[c := stack]) && Children(events, stacks[c := stack]) == children
  {
  }

  /** One world becomes the other by the two steps of SetParent. */
  ghost predicate SetSteps(w: World, c: nat, p: nat, after: World) {
    Shaped(w) && Enabled(w, BeginSet(c, p)) &&
    var w1 := Step(w, BeginSet(c, p));
    Shaped(w1) && Enabled(w1, EndSet(c)) && after == Step(w1, EndSet(c))
  }

  /** One world becomes the other by the two steps of ReleaseParent, which hand back p or not. */
  ghost predicate ReleaseSteps(w: World, c: nat, level: nat, p: nat, after: World, handsBack: bool) {
    Shaped(w) && Enabled(w, BeginRelease(c, level)) &&
    var w1 := Step(w, BeginRelease(c, level));
    Shaped(w1) && Enabled(w1, EndRelease(c)) && after == Step(w1, EndRelease(c)) &&
    p < |w1.count| && Discounts(w1, EndRelease(c), p) && (Crosses(w1, EndRelease(c), p, HandBack) <==> handsBack)
  }

  lemma SetIsTwoSteps(events: seq<JEvent>, stacks: seq<Stack>, counts: seq<int>, own: seq<int>, c: nat, p: nat,
                      stacks': seq<Stack>)
    requires Distinct(events) && AllKnown(events, stacks) && |counts| == |own| == |events|
    requires c < |events| && p < |events|
    requires !HasLevel(stacks[c], events[p].level)
    requires stacks' == stacks[c := stacks[c] + [Link(events[p].level, events[p])]]
    ensures AllKnown(events, stacks')
    ensures SetSteps(Seen(events, stacks, counts, own), c, p, Seen(events, stacks', counts[p := counts[p] + 1], own))
  {
    var w := Seen(events, stacks, counts, own);
    SameLevels(events, stacks[c], events[p].level);
    var stack := stacks[c] + [Link(events[p].level, events[p])];
    assert Number(events, events[p]) == p;
    assert Numbered(events, stack) == Numbered(events, stacks[c]) + [Link(events[p].level, p)];
    var w1 := Step(w, BeginSet(c, p));
    assert w1.children[c] == Child(Numbered(events, stack), Adding(p));
    ChildChanged(events, stacks, c, stack, Step(w1, EndSet(c)).children);
  }

  lemma ReleaseIsTwoSteps(events: seq<JEvent>, stacks: seq<Stack>, counts: seq<int>, own: seq<int>, c: nat,
                          level: nat, p: nat, stacks': seq<Stack>)
    requires Distinct(events) && AllKnown(events, stacks) && |counts| == |own| == |events|
    requires c < |events| && p < |events|
    requires OnTop(stacks[c], level) && stacks[c][|stacks[c]| - 1].parent == events[p]
    requires stacks' == stacks[c := stacks[c][..|stacks[c]| - 1]]
    ensures AllKnown(events, stacks')
    ensures ReleaseSteps(Seen(events, stacks, counts, own), c, level, p,
                         Seen(events, stacks', counts[p := counts[p] - 1], own), counts[p] == 1)
  {
    var w := Seen(events, stacks, counts, own);
    SameLevels(events, stacks[c], level);
    var stack := stacks[c][..|stacks[c]| - 1];
    assert Number(events, events[p]) == p;
    assert Numbered(events, stack) == Numbered(events, stacks[c])[..|stack|];
    var w1 := Step(w, BeginRelease(c, level));
    assert w1.children[c] == Child(Numbered(events, stack), Subtracting(p));
    ChildChanged(events, stacks, c, stack, Step(w1, EndRelease(c)).children);
  }

  lemma OwnStep(events: seq<JEvent>, stacks: seq<Stack>, counts: seq<int>, own: seq<int>, p: nat, op: Op, count: int,
                left: int)
    requires AllKnown(events, stacks) && |counts| == |own| == |events| && p < |events|
    requires (op == OwnRelease(p) && count == counts[p] - 1 && left == own[p] - 1) ||
             (op == Reset(p) && count == left == 1)
    ensures Step(Seen(events, stacks, counts, own), op) == Seen(events, stacks, counts[p := count], own[p := left])
  {
  }

  method CallSetParent(events: seq<JEvent>, c: nat, p: nat, ghost stacks: seq<Stack>, ghost counts: seq<int>)
    returns (threw: bool)
    requires Distinct(events) && c < |events| && p < |events| && stacks == Stacks(events) && counts == Counts(events)
    modifies events[c], events[p]
    ensures threw == HasLevel(stacks[c], events[p].level)
    ensures Stacks(events) == if threw then stacks else stacks[c := stacks[c] + [Link(events[p].level, events[p])]]
    ensures Counts(events) == if threw then counts else counts[p := counts[p] + 1]
  {
    threw := events[c].SetParent(events[p]);
    ghost var stacks' := if threw then stacks else stacks[c := stacks[c] + [Link(events[p].level, events[p])]];
    ghost var counts' := if threw then counts else counts[p := counts[p] + 1];
    forall i | 0 <= i < |events| ensures events[i].parents == stacks'[i] {
    }
    forall i | 0 <= i < |events| ensures events[i].count == counts'[i] {
    }
    AreNow(events, stacks', counts');
  }

  lemma AreNow(events: seq<JEvent>, stacks: seq<Stack>, counts: seq<int>)
    requires |stacks| == |counts| == |events|
    requires forall i :: 0 <= i < |events| ==> events[i].parents == stacks[i] && events[i].count == counts[i]
    ensures Stacks(events) == stacks && Counts(events) == counts
  {
  }

  method CallReleaseParent(events: seq<JEvent>, c: nat, level: nat, ghost p: nat, ghost stacks: seq<Stack>,
                           ghost counts: seq<int>)
    returns (r: Outcome<JEvent>)
    requires Distinct(events) && c < |events| && p < |events| && stacks == Stacks(events) && counts == Counts(events)
    requires stacks[c] != [] ==> stacks[c][|stacks[c]| - 1].parent == events[p]
    modifies events[c], events[p]
    ensures Stacks(events) == if OnTop(stacks[c], level) then stacks[c := stacks[c][..|stacks[c]| - 1]] else stacks
    ensures Counts(events) == if OnTop(stacks[c], level) then counts[p := counts[p] - 1] else counts
    ensures r == if !OnTop(stacks[c], level) || counts[p] < 1 then Threw
                 else if counts[p] == 1 then HandedBack(events[p]) else StillShared
  {
    r := events[c].ReleaseParent(level);
    ghost var stacks' := if OnTop(stacks[c], level) then stacks[c := stacks[c][..|stacks[c]| - 1]] else stacks;
    ghost var counts' := if OnTop(stacks[c], level) then counts[p := counts[p] - 1] else counts;
    assert events[c].parents == stacks'[c] && events[p].count == counts'[p];
    forall i | 0 <= i < |events| ensures events[i].parents == stacks'[i] {
    }
    forall i | 0 <= i < |events| ensures events[i].count == counts'[i] {
    }
    AreNow(events, stacks', counts');
  }

  /** SetParent is BeginSet and EndSet, unless it throws; w is the world before. */
  method SetParentAlone(events: seq<JEvent>, ghost own: seq<int>, ghost w: World, c: nat, p: nat) returns (threw: bool)
    requires Family(events, own) && w == Now(events, own) && c < |events| && p < |events|
    modifies events
    ensures Family(events, own) && threw == HasLevel(old(events[c].parents), events[p].level)
    ensures if threw then Now(events, own) == w else SetSteps(w, c, p, Now(events, own))
  {
    ghost var stacks, counts := Stacks(events), Counts(events);
    threw := CallSetParent(events, c, p, stacks, counts);
    if !threw { SetIsTwoSteps(events, stacks, counts, own, c, p, Stacks(events)); }
  }

  /** ReleaseParent is BeginRelease and EndRelease, unless the level is not on top; it hands back the
      parent just when these steps do; w is the world before. */
  method ReleaseParentAlone(events: seq<JEvent>, ghost own: seq<int>, ghost w: World, c: nat, level: nat, ghost p: nat)
    returns (r: Outcome<JEvent>)
    requires Family(events, own) && w == Now(events, own) && c < |events| && p < |events|
    requires events[c].parents != [] ==> events[c].parents[|events[c].parents| - 1].parent == events[p]
    modifies events
    ensures Family(events, own)
    ensures !OnTop(old(events[c].parents), level) ==> r == Threw && Now(events, own) == w
    ensures OnTop(old(events[c].parents), level) ==>
              ReleaseSteps(w, c, level, p, Now(events, own), r.HandedBack?) &&
              (r.HandedBack? ==> r.parent == events[p]) && (r.Threw? <==> old(events[p].count) < 1)
  {
    ghost var stacks, counts := Stacks(events), Counts(events);
    r := CallReleaseParent(events, c, level, p, stacks, counts);
    if OnTop(stacks[c], level) { ReleaseIsTwoSteps(events, stacks, counts, own, c, level, p, Stacks(events)); }
  }

  method CallRelease(events: seq<JEvent>, p: nat, ghost stacks: seq<Stack>, ghost counts: seq<int>)
    returns (threw: bool)
    requires Distinct(events) && p < |events| && stacks == Stacks(events) && counts == Counts(events)
    modifies events[p]
    ensures Stacks(events) == stacks && Counts(events) == counts[p := counts[p] - 1] && threw == (counts[p] < 0)
  {
    threw := events[p].Release();
    forall i | 0 <= i < |events| ensures events[i].parents == stacks[i] {
    }
    forall i | 0 <= i < |events| ensures events[i].count == if i == p then counts[p] - 1 else counts[i] {
    }
  }

  method CallReset(events: seq<JEvent>, p: nat, ghost stacks: seq<Stack>, ghost counts: seq<int>)
    requires Distinct(events) && p < |events| && stacks == Stacks(events) && counts == Counts(events)
    modifies events[p]
    ensures Stacks(events) == stacks && Counts(events) == counts[p := 1]
  {
    events[p].Reset();
    forall i | 0 <= i < |events| ensures events[i].parents == stacks[i] {
    }
    forall i | 0 <= i < |events| ensures events[i].count == if i == p then 1 else counts[i] {
    }
  }

  method ReleaseAlone(events: seq<JEvent>, ghost own: seq<int>, ghost w: World, p: nat) returns (threw: bool)
    requires Family(events, own) && w == Now(events, own) && p < |events|
    modifies events
    ensures Family(events, own) && Now(events, own[p := own[p] - 1]) == Step(w, OwnRelease(p))
    ensures threw <==> old(events[p].count) < 0
  {
    ghost var stacks, counts := Stacks(events), Counts(events);
    threw := CallRelease(events, p, stacks, counts);
    OwnStep(events, stacks, counts, own, p, OwnRelease(p), counts[p] - 1, own[p] - 1);
  }

  method ResetAlone(events: seq<JEvent>, ghost own: seq<int>, ghost w: World, p: nat)
    requires Family(events, own) && w == Now(events, own) && p < |events|
    modifies events
    ensures Family(events, own) && Now(events, own[p := 1]) == Step(w, Reset(p))
  {
    ghost var stacks, counts := Stacks(events), Counts(events);
    CallReset(events, p, stacks, counts);
    OwnStep(events, stacks, counts, own, p, Reset(p), 1, 1);
  }
}
