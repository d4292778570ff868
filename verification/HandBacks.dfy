/** Over whole runs of many threads: what the counts are, and when a parent event is handed back. */
module HandBacks {
  import opened EventHierarchy
  import opened HierarchySteps

  ghost predicate Runs(w: World, ops: seq<Op>)
    decreases |ops|, 0
  {
    Shaped(w) &&
    (ops != [] ==> Runs(w, ops[..|ops| - 1]) && Enabled(Run(w, ops[..|ops| - 1]), ops[|ops| - 1]))
  }

  ghost function Run(w: World, ops: seq<Op>): (end: World)
    requires Runs(w, ops)
    ensures Shaped(end) && |end.level| == |w.level|
    decreases |ops|, 1
  {
    if ops == [] then w else Step(Run(w, ops[..|ops| - 1]), ops[|ops| - 1])
  }

  ghost predicate AlwaysValid(w: World, ops: seq<Op>)
    requires Runs(w, ops)
  {
    Valid(Run(w, ops)) && (ops != [] ==> AlwaysValid(w, ops[..|ops| - 1]))
  }

  ghost predicate NoHeldReset(w: World, ops: seq<Op>)
    requires Runs(w, ops)
  {
    ops != [] ==>
      var front, op := ops[..|ops| - 1], ops[|ops| - 1];
      NoHeldReset(w, front) && (op.Reset? ==> Unheld(Run(w, front), op.event))
  }

  /** Over every interleaving all books are right all the time, if and only if no event is ever reset
      while a child holds it. */
  lemma {:induction false} RunKeepsValid(w: World, ops: seq<Op>)
    requires Valid(w) && Runs(w, ops)
    ensures AlwaysValid(w, ops) <==> NoHeldReset(w, ops)
  {
    if ops != [] {
      var front := ops[..|ops| - 1];
      RunKeepsValid(w, front);
      if Valid(Run(w, front)) { StepKeepsValid(Run(w, front), ops[|ops| - 1]); }
      assert AlwaysValid(w, front) ==> Valid(Run(w, front));
    }
  }

  /** One event's books stay right over every interleaving that does not reset it, whatever happens to
      the others. */
  lemma {:induction false} RunKeepsBalance(w: World, ops: seq<Op>, p: nat)
    requires Sane(w) && Runs(w, ops) && p < |w.level| && Balanced(w, p)
    requires forall i :: 0 <= i < |ops| ==> ops[i] != Reset(p)
    ensures Sane(Run(w, ops)) && Balanced(Run(w, ops), p)
  {
    if ops != [] {
      var front := ops[..|ops| - 1];
      RunKeepsBalance(w, front, p);
      StepKeepsSane(Run(w, front), ops[|ops| - 1]);
      StepBalance(Run(w, front), ops[|ops| - 1], p);
    }
  }

  predicate Discounts(w: World, op: Op, p: nat) {
    op.EndRelease? && op.child < |w.children| && w.children[op.child].pending == Subtracting(p)
  }

  predicate Counts(w: World, op: Op, p: nat) {
    op.EndSet? && op.child < |w.children| && w.children[op.child].pending == Adding(p)
  }

  /** The three ways a count reaches or leaves zero: a ReleaseParent that hands the parent back, a
      Release of the parent's own, last reference, and a SetParent of a parent nobody counts on. */
  datatype Crossing = HandBack | Close | Revival

  predicate Crosses(w: World, op: Op, p: nat, kind: Crossing)
    requires p < |w.count|
  {
    match kind
    case HandBack => Discounts(w, op, p) && w.count[p] == 1
    case Close => op == OwnRelease(p) && w.count[p] == 1
    case Revival => Counts(w, op, p) && w.count[p] == 0
  }

  ghost function Crossings(w: World, ops: seq<Op>, p: nat, kind: Crossing): nat
    requires Runs(w, ops) && p < |w.level|
  {
    if ops == [] then 0
    else Crossings(w, ops[..|ops| - 1], p, kind) +
         if Crosses(Run(w, ops[..|ops| - 1]), ops[|ops| - 1], p, kind) then 1 else 0
  }

  /** A parent whose reference is its own only, as after Reset. */
  ghost predicate Fresh(w: World, p: nat) {
    Sane(w) && p < |w.level| && w.own[p] == w.count[p] == 1 && Unheld(w, p)
  }

  /** One life of p: it is not reset, and releases its own reference at most once. */
  ghost predicate OneLife(ops: seq<Op>, p: nat) {
    (forall i :: 0 <= i < |ops| ==> ops[i] != Reset(p)) &&
    forall i, j :: 0 <= i < j < |ops| ==> !(ops[i] == OwnRelease(p) && ops[j] == OwnRelease(p))
  }

  lemma OneLifeBefore(ops: seq<Op>, p: nat)
    requires OneLife(ops, p) && ops != []
    ensures OneLife(ops[..|ops| - 1], p) && ops[|ops| - 1] != Reset(p)
    ensures ops[|ops| - 1] == OwnRelease(p) ==> OwnRelease(p) !in ops[..|ops| - 1]
  {
    var front := ops[..|ops| - 1];
    assert forall i :: 0 <= i < |front| ==> front[i] == ops[i];
  }

  /** The own reference is gone just when its Release is in the run. */
  lemma {:induction false} OwnReference(w: World, ops: seq<Op>, p: nat)
    requires Fresh(w, p) && Runs(w, ops) && OneLife(ops, p)
    ensures Run(w, ops).own[p] == if OwnRelease(p) in ops then 0 else 1
  {
    if ops != [] {
      var front, op := ops[..|ops| - 1], ops[|ops| - 1];
      OneLifeBefore(ops, p);
      OwnReference(w, front, p);
      assert ops == front + [op];
    }
  }

  lemma HolderIsCounted(w: World, op: Op, p: nat)
    requires Shaped(w) && p < |w.level| && Balanced(w, p) && w.own[p] >= 0 && Discounts(w, op, p)
    ensures w.count[p] >= 1 && (w.count[p] == 1 ==> w.own[p] == 0)
  {
    var holders := Holders(w.children, p);
    assert op.child in holders;
    assert holders == {op.child} + (holders - {op.child});
  }

  /** As long as the own reference is not released twice, ReleaseParent never finds a count below 1. */
  lemma NeverNegative(w: World, ops: seq<Op>, p: nat, op: Op)
    requires Fresh(w, p) && Runs(w, ops) && OneLife(ops, p) && Discounts(Run(w, ops), op, p)
    ensures Run(w, ops).count[p] >= 1
  {
    RunKeepsBalance(w, ops, p);
    OwnReference(w, ops, p);
    HolderIsCounted(Run(w, ops), op, p);
  }

  ghost function AtZero(w: World, p: nat): nat
    requires p < |w.count|
  {
    if w.count[p] == 0 then 1 else 0
  }

  lemma StepCrosses(w: World, op: Op, p: nat)
    requires Sane(w) && Enabled(w, op) && p < |w.level| && Balanced(w, p) && op != Reset(p) && w.own[p] >= 0
    requires op == OwnRelease(p) ==> w.own[p] == 1
    ensures Shaped(Step(w, op))
    ensures (if Crosses(w, op, p, HandBack) then 1 else 0) + (if Crosses(w, op, p, Close) then 1 else 0) + AtZero(w, p)
            == (if Crosses(w, op, p, Revival) then 1 else 0) + AtZero(Step(w, op), p)
  {
    if Discounts(w, op, p) { HolderIsCounted(w, op, p); }
  }

  /** Over every interleaving, hand-backs and closing Releases balance revivals, up to the zero the
      count may stand at. */
  lemma {:induction false} HandBackLaw(w: World, ops: seq<Op>, p: nat)
    requires Fresh(w, p) && Runs(w, ops) && OneLife(ops, p)
    ensures Crossings(w, ops, p, HandBack) + Crossings(w, ops, p, Close)
            == Crossings(w, ops, p, Revival) + AtZero(Run(w, ops), p)
  {
    if ops != [] {
      var front, op := ops[..|ops| - 1], ops[|ops| - 1];
      OneLifeBefore(ops, p);
      HandBackLaw(w, front, p);
      RunKeepsBalance(w, front, p);
      OwnReference(w, front, p);
      StepCrosses(Run(w, front), op, p);
    }
  }

  /** Some ReleaseParent of p comes after p's own Release. */
  ghost predicate ReleasedAfterOwn(w: World, ops: seq<Op>, p: nat)
    requires Runs(w, ops)
  {
    ops != [] && var front := ops[..|ops| - 1];
    (ReleasedAfterOwn(w, front, p) || (OwnRelease(p) in front && Discounts(Run(w, front), ops[|ops| - 1], p)))
  }

  lemma {:induction false} CloseOrAfter(w: World, ops: seq<Op>, p: nat)
    requires Fresh(w, p) && Runs(w, ops) && OneLife(ops, p) && Crossings(w, ops, p, Revival) == 0
    ensures Crossings(w, ops, p, Close) > 0 ==> !ReleasedAfterOwn(w, ops, p)
    ensures Crossings(w, ops, p, HandBack) > 0 ==> ReleasedAfterOwn(w, ops, p)
  {
    if ops != [] {
      var front, op := ops[..|ops| - 1], ops[|ops| - 1];
      OneLifeBefore(ops, p);
      CloseOrAfter(w, front, p);
      HandBackLaw(w, front, p);
      HandBackLaw(w, ops, p);
      RunKeepsBalance(w, front, p);
      OwnReference(w, front, p);
      if Discounts(Run(w, front), op, p) { HolderIsCounted(Run(w, front), op, p); }
      if op == OwnRelease(p) { NotAfterYet(w, front, p); }
    }
  }

  lemma {:induction false} NotAfterYet(w: World, ops: seq<Op>, p: nat)
    requires Runs(w, ops) && OwnRelease(p) !in ops
    ensures !ReleasedAfterOwn(w, ops, p)
  {
    if ops != [] {
      assert forall op :: op in ops[..|ops| - 1] ==> op in ops;
      NotAfterYet(w, ops[..|ops| - 1], p);
    }
  }

  /** If no SetParent revives p, it is handed back at most once, and is handed back just when its
      count is zero and some ReleaseParent came after its own Release. */
  lemma HandedBackOnce(w: World, ops: seq<Op>, p: nat)
    requires Fresh(w, p) && Runs(w, ops) && OneLife(ops, p) && Crossings(w, ops, p, Revival) == 0
    ensures Crossings(w, ops, p, HandBack) ==
            if Run(w, ops).count[p] == 0 && ReleasedAfterOwn(w, ops, p) then 1 else 0
  {
    HandBackLaw(w, ops, p);
    CloseOrAfter(w, ops, p);
  }

  /** It is enough that no SetParent of p is completed after p's own Release. */
  lemma {:induction false} NoRevival(w: World, ops: seq<Op>, p: nat)
    requires Fresh(w, p) && Runs(w, ops) && OneLife(ops, p)
    requires forall i :: 0 <= i < |ops| && OwnRelease(p) in ops[..i] ==> !CountsAt(w, ops, i, p)
    ensures Crossings(w, ops, p, Revival) == 0
  {
    if ops != [] {
      var front, op := ops[..|ops| - 1], ops[|ops| - 1];
      OneLifeBefore(ops, p);
      forall i | 0 <= i < |front| && OwnRelease(p) in front[..i] ensures !CountsAt(w, front, i, p) {
        assert front[..i] == ops[..i];
      }
      NoRevival(w, front, p);
      RunKeepsBalance(w, front, p);
      OwnReference(w, front, p);
      assert ops[..|front|] == front;
      if Counts(Run(w, front), op, p) { assert CountsAt(w, ops, |front|, p); }
    }
  }

  /** The i-th step of the run counts a new child of p. */
  ghost predicate CountsAt(w: World, ops: seq<Op>, i: int, p: nat)
    requires 0 <= i < |ops|
  {
    Runs(w, ops[..i]) && Counts(Run(w, ops[..i]), ops[i], p)
  }

  /** At a hand-back nobody holds the parent any more; and nobody lists it either, if and only if no
      SetParent of it is half done. */
  lemma HandBackExact(w: World, op: Op, p: nat)
    requires Sane(w) && Enabled(w, op) && p < |w.level| && Balanced(w, p)
    requires w.own[p] >= 0 && Crosses(w, op, p, HandBack)
    ensures Step(w, op).own[p] == 0 && Unheld(Step(w, op), p)
    ensures (forall c :: 0 <= c < |w.children| ==> !Lists(Step(w, op).children[c], p)) <==>
            (forall c :: 0 <= c < |w.children| ==> Step(w, op).children[c].pending != Adding(p))
  {
    var next := Step(w, op);
    StepKeepsSane(w, op);
    StepBalance(w, op, p);
    HolderIsCounted(w, op, p);
    assert |Holders(next.children, p)| == 0;
    forall c: nat | c < |w.children|
      ensures Lists(next.children[c], p) <==> next.children[c].pending == Adding(p)
    {
      assert c !in Holders(next.children, p);
      assert Sound(w.level, next.children[c]);
    }
  }
}
