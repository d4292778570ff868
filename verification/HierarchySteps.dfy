/** Events that share parents, on many threads: the reference counts are atomic, and pushing or popping
    a child's stack and changing the parent's count are two separate steps. */
module HierarchySteps {
  import opened EventHierarchy

  datatype Pending = Idle | Adding(parent: nat) | Subtracting(parent: nat)

  /** What the thread working on an event sees: the event's stack, and the second half of a call it
      is in the middle of. */
  datatype Child = Child(stack: seq<Link<nat>>, pending: Pending)

  /** Events by number: their levels, their part as children, their counts, and what is left of their
      own references: 1 less the number of own Releases since the last Reset. */
  datatype World = World(level: seq<nat>, children: seq<Child>, count: seq<int>, own: seq<int>)

  datatype Op =
    | BeginSet(child: nat, parent: nat) | EndSet(child: nat)
    | BeginRelease(child: nat, level: nat) | EndRelease(child: nat)
    | OwnRelease(event: nat) | Reset(event: nat)

  predicate Lists(e: Child, p: nat) {
    exists i :: 0 <= i < |e.stack| && e.stack[i].parent == p
  }

  /** A counted reference: the parent is listed and has been counted, or is no longer listed and has
      still to be discounted. */
  predicate Holds(e: Child, p: nat) {
    e.pending == Subtracting(p) || (Lists(e, p) && e.pending != Adding(p))
  }

  function Holders(children: seq<Child>, p: nat): set<nat> {
    set c: nat | c < |children| && Holds(children[c], p)
  }

  predicate Unheld(w: World, p: nat) { Holders(w.children, p) == {} }

  function Pushed(e: Child, level: nat, p: nat): Child {
    if HasLevel(e.stack, level) then e else Child(e.stack + [Link(level, p)], Adding(p))
  }

  function Popped(e: Child, level: nat): Child {
    if !OnTop(e.stack, level) then e
    else Child(e.stack[..|e.stack| - 1], Subtracting(e.stack[|e.stack| - 1].parent))
  }

  predicate Shaped(w: World) {
    |w.children| == |w.count| == |w.own| == |w.level|
  }

  predicate Enabled(w: World, op: Op)
    requires Shaped(w)
  {
    match op
    case BeginSet(c, p) => c < |w.level| && p < |w.level| && w.children[c].pending.Idle?
    case EndSet(c) => c < |w.level| && w.children[c].pending.Adding? && w.children[c].pending.parent < |w.level|
    case BeginRelease(c, level) => c < |w.level| && w.children[c].pending.Idle?
    case EndRelease(c) => c < |w.level| && w.children[c].pending.Subtracting? &&
                          w.children[c].pending.parent < |w.level|
    case OwnRelease(p) => p < |w.level|
    case Reset(p) => p < |w.level|
  }

  function Finished(w: World, c: nat, change: int): World
    requires Shaped(w) && c < |w.level| && !w.children[c].pending.Idle? && w.children[c].pending.parent < |w.level|
  {
    var p := w.children[c].pending.parent;
    w.(children := w.children[c := w.children[c].(pending := Idle)], count := w.count[p := w.count[p] + change])
  }

  function Step(w: World, op: Op): World
    requires Shaped(w) && Enabled(w, op)
  {
    match op
    case BeginSet(c, p) => w.(children := w.children[c := Pushed(w.children[c], w.level[p], p)])
    case EndSet(c) => Finished(w, c, 1)
    case BeginRelease(c, level) => w.(children := w.children[c := Popped(w.children[c], level)])
    case EndRelease(c) => Finished(w, c, -1)
    case OwnRelease(p) => w.(count := w.count[p := w.count[p] - 1], own := w.own[p := w.own[p] - 1])
    case Reset(p) => w.(count := w.count[p := 1], own := w.own[p := 1])
  }

  // ---- what every step keeps

  ghost predicate Sound(level: seq<nat>, e: Child) {
    LevelsDistinct(e.stack) &&
    (forall i :: 0 <= i < |e.stack| ==> e.stack[i].parent < |level| && level[e.stack[i].parent] == e.stack[i].level) &&
    (e.pending.Adding? ==> e.pending.parent < |level| && Lists(e, e.pending.parent)) &&
    (e.pending.Subtracting? ==> e.pending.parent < |level| && !Lists(e, e.pending.parent))
  }

  ghost predicate AllSound(level: seq<nat>, children: seq<Child>) {
    forall c :: 0 <= c < |children| ==> Sound(level, children[c])
  }

  /** What every step keeps, whatever it is. */
  ghost predicate Sane(w: World) { Shaped(w) && AllSound(w.level, w.children) }

  /** The count is what is left of the event's own reference plus the children that hold it. */
  ghost predicate Balanced(w: World, p: nat)
    requires Shaped(w) && p < |w.level|
  {
    w.count[p] == w.own[p] + |Holders(w.children, p)|
  }

  ghost predicate Valid(w: World) { Sane(w) && forall p: nat :: p < |w.level| ==> Balanced(w, p) }

  lemma PushedHolds(level: seq<nat>, e: Child, p: nat, q: nat)
    requires Sound(level, e) && e.pending.Idle? && p < |level|
    ensures Sound(level, Pushed(e, level[p], p)) && (Holds(Pushed(e, level[p], p), q) <==> Holds(e, q))
  {
    var f := Pushed(e, level[p], p);
    if f != e {
      assert f.stack[|e.stack|].parent == p;
      if Lists(e, q) {
        var i :| 0 <= i < |e.stack| && e.stack[i].parent == q;
        assert f.stack[i].parent == q;
      }
    }
  }

  lemma PoppedHolds(level: seq<nat>, e: Child, l: nat, q: nat)
    requires Sound(level, e) && e.pending.Idle?
    ensures Sound(level, Popped(e, l)) && (Holds(Popped(e, l), q) <==> Holds(e, q))
  {
    var f := Popped(e, l);
    if f != e {
      var p := e.stack[|f.stack|].parent;
      assert Lists(e, p);
      if Lists(f, q) {
        var i :| 0 <= i < |f.stack| && f.stack[i].parent == q;
        assert e.stack[i].parent == q;
      }
    }
  }

  lemma SameHolders(before: seq<Child>, after: seq<Child>, c: nat, p: nat)
    requires c < |before| && |after| == |before| && after == before[c := after[c]]
    requires Holds(after[c], p) <==> Holds(before[c], p)
    ensures Holders(after, p) == Holders(before, p)
  {
  }

  lemma OneMoreHolder(before: seq<Child>, after: seq<Child>, c: nat, p: nat)
    requires c < |before| && |after| == |before| && after == before[c := after[c]]
    requires Holds(after[c], p) && !Holds(before[c], p)
    ensures |Holders(after, p)| == |Holders(before, p)| + 1
  {
    var more, fewer := Holders(after, p), Holders(before, p);
    forall d: nat ensures d in more <==> d in fewer + {c} {
    }
    assert more == fewer + {c};
  }

  /** No step gives a child two parents of one level. */
  lemma StepKeepsSane(w: World, op: Op)
    requires Sane(w) && Enabled(w, op)
    ensures Sane(Step(w, op)) && Step(w, op).level == w.level
  {
    match op
    case BeginSet(c, p) => PushedHolds(w.level, w.children[c], p, 0);
    case BeginRelease(c, l) => PoppedHolds(w.level, w.children[c], l, 0);
    case _ =>
  }

  lemma StepKeepsDifference(w: World, op: Op, p: nat)
    requires Sane(w) && Enabled(w, op) && p < |w.level| && op != Reset(p)
    ensures var next := Step(w, op);
            Shaped(next) && p < |next.level| &&
            next.count[p] - next.own[p] - |Holders(next.children, p)| ==
            w.count[p] - w.own[p] - |Holders(w.children, p)|
  {
    var next := Step(w, op);
    match op
    case BeginSet(c, q) =>
      PushedHolds(w.level, w.children[c], q, p);
      SameHolders(w.children, next.children, c, p);
    case BeginRelease(c, l) =>
      PoppedHolds(w.level, w.children[c], l, p);
      SameHolders(w.children, next.children, c, p);
    case EndSet(c) =>
      assert Sound(w.level, w.children[c]);
      if w.children[c].pending.parent == p {
        OneMoreHolder(w.children, next.children, c, p);
      } else {
        SameHolders(w.children, next.children, c, p);
      }
    case EndRelease(c) =>
      assert Sound(w.level, w.children[c]);
      if w.children[c].pending.parent == p {
        OneMoreHolder(next.children, w.children, c, p);
      } else {
        SameHolders(w.children, next.children, c, p);
      }
    case _ =>
  }

  /** One event's books after a step: every step but its Reset leaves them as right or as wrong as
      they were; a Reset puts them right if and only if nobody holds the event. */
  lemma StepBalance(w: World, op: Op, p: nat)
    requires Sane(w) && Enabled(w, op) && p < |w.level|
    ensures Shaped(Step(w, op)) && p < |Step(w, op).level|
    ensures Balanced(Step(w, op), p) <==> if op == Reset(p) then Unheld(w, p) else Balanced(w, p)
  {
    if op != Reset(p) { StepKeepsDifference(w, op, p); }
  }

  /** Whatever the interleaving, a step keeps all books right, if and only if it does not reset an
      event that a child holds. */
  lemma StepKeepsValid(w: World, op: Op)
    requires Valid(w) && Enabled(w, op)
    ensures Valid(Step(w, op)) <==> (op.Reset? ==> Unheld(w, op.event))
  {
    StepKeepsSane(w, op);
    forall p: nat | p < |w.level|
      ensures Balanced(Step(w, op), p) <==> (op == Reset(p) ==> Unheld(w, p))
    {
      StepBalance(w, op, p);
    }
  }

  /** A child that takes a parent and gives it up again, undisturbed, leaves everything as it was. */
  lemma ReleaseUndoesSet(w: World, c: nat, p: nat)
    requires Sane(w) && Enabled(w, BeginSet(c, p)) && !HasLevel(w.children[c].stack, w.level[p])
    ensures var w1 := Step(w, BeginSet(c, p));
            Shaped(w1) && Enabled(w1, EndSet(c)) &&
            var w2 := Step(w1, EndSet(c));
            Shaped(w2) && Enabled(w2, BeginRelease(c, w.level[p])) &&
            w2.count[p] == w.count[p] + 1 && Lists(w2.children[c], p) &&
            var w3 := Step(w2, BeginRelease(c, w.level[p]));
            Shaped(w3) && Enabled(w3, EndRelease(c)) && Step(w3, EndRelease(c)) == w
  {
    var e := w.children[c];
    var stack := e.stack + [Link(w.level[p], p)];
    var w1 := Step(w, BeginSet(c, p));
    assert w1.children[c] == Child(stack, Adding(p));
    var w2 := Step(w1, EndSet(c));
    assert w2.children[c] == Child(stack, Idle) && stack[|e.stack|].parent == p;
    var w3 := Step(w2, BeginRelease(c, w.level[p]));
    assert stack[..|e.stack|] == e.stack;
    assert w3.children[c] == Child(e.stack, Subtracting(p));
    var w4 := Step(w3, EndRelease(c));
    assert w4.children == w.children && w4.count == w.count;
  }
}
