/** Runs that show what can happen to a parent event when a SetParent comes late: it is handed back
    again and again, or while a child still lists it. */
module EventWitnesses {
  import opened EventHierarchy
  import opened HierarchySteps
  import opened HandBacks

  /** The run leads to v, with p handed back n times on the way. */
  ghost predicate LeadsTo(w: World, ops: seq<Op>, p: nat, v: World, n: nat) {
    Runs(w, ops) && p < |w.level| && Run(w, ops) == v && Crossings(w, ops, p, HandBack) == n
  }

  lemma OneMoreStep(w: World, ops: seq<Op>, p: nat, v: World, n: nat, op: Op, next: World)
    requires LeadsTo(w, ops, p, v, n) && Enabled(v, op) && next == Step(v, op)
    ensures LeadsTo(w, ops + [op], p, next, n + if Crosses(v, op, p, HandBack) then 1 else 0)
  {
    assert (ops + [op])[..|ops + [op]| - 1] == ops;
  }

  /** A child takes a parent and gives it up again. */
  function Round(c: nat, p: nat, level: nat): seq<Op> {
    [BeginSet(c, p)] + [EndSet(c)] + [BeginRelease(c, level)] + [EndRelease(c)]
  }

  predicate Free(w: World, c: nat, p: nat)
    requires Shaped(w)
  {
    c < |w.level| && p < |w.level| && w.children[c].pending.Idle? && !HasLevel(w.children[c].stack, w.level[p])
  }

  lemma OneLifeConcat(a: seq<Op>, b: seq<Op>, p: nat)
    requires OneLife(a, p) && forall i :: 0 <= i < |b| ==> b[i] != Reset(p) && b[i] != OwnRelease(p)
    ensures OneLife(a + b, p)
  {
  }

  /** A released parent at count zero, and a child that can take it. */
  ghost predicate Revivable(v: World, c: nat, p: nat) {
    Sane(v) && Free(v, c, p) && v.count[p] == 0
  }

  lemma ReleasedIsRevivable(w: World, c: nat, p: nat, v: World)
    requires p < |w.level| && Fresh(w, p) && Free(w, c, p) && v == Step(w, OwnRelease(p))
    ensures Revivable(v, c, p)
  {
    StepKeepsSane(w, OwnRelease(p));
  }

  /** The four steps of a round lead through these worlds back to v, and the last one hands back p. */
  ghost predicate RoundTrip(v: World, v1: World, v2: World, v3: World, c: nat, p: nat, level: nat) {
    Shaped(v) && p < |v.level| && Enabled(v, BeginSet(c, p)) && v1 == Step(v, BeginSet(c, p)) &&
    Shaped(v1) && Enabled(v1, EndSet(c)) && v2 == Step(v1, EndSet(c)) &&
    Shaped(v2) && Enabled(v2, BeginRelease(c, level)) && v3 == Step(v2, BeginRelease(c, level)) &&
    Shaped(v3) && Enabled(v3, EndRelease(c)) && v == Step(v3, EndRelease(c)) &&
    p < |v3.count| && Crosses(v3, EndRelease(c), p, HandBack)
  }

  lemma RoundWorlds(v: World, c: nat, p: nat) returns (v1: World, v2: World, v3: World)
    requires Revivable(v, c, p)
    ensures RoundTrip(v, v1, v2, v3, c, p, v.level[p])
  {
    ReleaseUndoesSet(v, c, p);
    v1 := Step(v, BeginSet(c, p));
    v2 := Step(v1, EndSet(c));
    v3 := Step(v2, BeginRelease(c, v.level[p]));
  }

  lemma RoundRuns(w: World, ops: seq<Op>, v: World, v1: World, v2: World, v3: World, c: nat, p: nat, level: nat, n: nat)
    requires LeadsTo(w, ops, p, v, n) && RoundTrip(v, v1, v2, v3, c, p, level)
    ensures LeadsTo(w, ops + Round(c, p, level), p, v, n + 1)
  {
    OneMoreStep(w, ops, p, v, n, BeginSet(c, p), v1);
    OneMoreStep(w, ops + [BeginSet(c, p)], p, v1, n, EndSet(c), v2);
    OneMoreStep(w, ops + [BeginSet(c, p)] + [EndSet(c)], p, v2, n, BeginRelease(c, level), v3);
    OneMoreStep(w, ops + [BeginSet(c, p)] + [EndSet(c)] + [BeginRelease(c, level)], p, v3, n, EndRelease(c), v);
    assert ops + Round(c, p, level) ==
           ops + [BeginSet(c, p)] + [EndSet(c)] + [BeginRelease(c, level)] + [EndRelease(c)];
  }

  lemma RoundHandsBack(w: World, ops: seq<Op>, c: nat, p: nat, v: World, n: nat)
    requires LeadsTo(w, ops, p, v, n) && Revivable(v, c, p)
    ensures LeadsTo(w, ops + Round(c, p, v.level[p]), p, v, n + 1)
  {
    var v1, v2, v3 := RoundWorlds(v, c, p);
    RoundRuns(w, ops, v, v1, v2, v3, c, p, v.level[p], n);
  }

  lemma {:induction false} ManyRounds(w: World, before: seq<Op>, c: nat, p: nat, v: World, n: nat)
    returns (ops: seq<Op>)
    requires LeadsTo(w, before, p, v, 0) && OneLife(before, p) && Revivable(v, c, p)
    ensures LeadsTo(w, ops, p, v, n) && OneLife(ops, p)
  {
    if n == 0 {
      ops := before;
    } else {
      var some := ManyRounds(w, before, c, p, v, n - 1);
      RoundHandsBack(w, some, c, p, v, n - 1);
      ops := some + Round(c, p, v.level[p]);
      OneLifeConcat(some, Round(c, p, v.level[p]), p);
    }
  }

  /** With revivals a parent can be handed back any number of times in one life. */
  lemma HandedBackAgain(w: World, c: nat, p: nat, n: nat) returns (ops: seq<Op>)
    requires p < |w.level| && Fresh(w, p) && Free(w, c, p)
    ensures OneLife(ops, p) && LeadsTo(w, ops, p, Step(w, OwnRelease(p)), n)
  {
    var v := Step(w, OwnRelease(p));
    ReleasedIsRevivable(w, c, p, v);
    OneMoreStep(w, [], p, w, 0, OwnRelease(p), v);
    ops := ManyRounds(w, [] + [OwnRelease(p)], c, p, v, n);
  }

  /** One child is counted, another one has only listed the parent. */
  lemma OneCountedOneListed(w: World, c: nat, d: nat, p: nat) returns (v1: World, v2: World, v3: World)
    requires p < |w.level| && Fresh(w, p) && c != d && Free(w, c, p) && Free(w, d, p)
    ensures v1 == Step(w, BeginSet(c, p)) && Shaped(v1) && Enabled(v1, EndSet(c))
    ensures v2 == Step(v1, EndSet(c)) && Shaped(v2) && Enabled(v2, BeginSet(d, p))
    ensures v3 == Step(v2, BeginSet(d, p)) && Shaped(v3) && v3.level == w.level && v3.count[p] == 2
    ensures v3.children[c] == Child(w.children[c].stack + [Link(w.level[p], p)], Idle)
    ensures v3.children[d] == Child(w.children[d].stack + [Link(w.level[p], p)], Adding(p))
  {
    v1 := Step(w, BeginSet(c, p));
    v2 := Step(v1, EndSet(c));
    v3 := Step(v2, BeginSet(d, p));
  }

  lemma ReleasedWhileListed(v3: World, c: nat, d: nat, p: nat, stack: seq<Link<nat>>, others: seq<Link<nat>>)
    returns (v4: World, v: World)
    requires Shaped(v3) && p < |v3.level| && c != d && c < |v3.level| && d < |v3.level| && v3.count[p] == 2
    requires v3.children[c] == Child(stack + [Link(v3.level[p], p)], Idle)
    requires v3.children[d] == Child(others + [Link(v3.level[p], p)], Adding(p))
    ensures v4 == Step(v3, OwnRelease(p)) && Shaped(v4) && Enabled(v4, BeginRelease(c, v3.level[p]))
    ensures v == Step(v4, BeginRelease(c, v3.level[p])) && Shaped(v) && v.level == v3.level
    ensures Crosses(v, EndRelease(c), p, HandBack) && v.children[d].pending == Adding(p) && Lists(v.children[d], p)
  {
    v4 := Step(v3, OwnRelease(p));
    v := Step(v4, BeginRelease(c, v3.level[p]));
    assert v.children[d].stack[|others|].parent == p;
  }

  /** A parent can be handed back while another child has listed it and not yet counted itself. */
  lemma HandedBackListed(w: World, c: nat, d: nat, p: nat) returns (ops: seq<Op>, v: World)
    requires p < |w.level| && Fresh(w, p) && c != d && Free(w, c, p) && Free(w, d, p)
    ensures OneLife(ops, p) && LeadsTo(w, ops, p, v, 0)
    ensures p < |v.count| && Crosses(v, EndRelease(c), p, HandBack)
    ensures d < |v.children| && v.children[d].pending == Adding(p) && Lists(v.children[d], p)
  {
    var level := w.level[p];
    var v1, v2, v3 := OneCountedOneListed(w, c, d, p);
    var v4;
    v4, v := ReleasedWhileListed(v3, c, d, p, w.children[c].stack, w.children[d].stack);
    var ops1 := [] + [BeginSet(c, p)];
    var ops2 := ops1 + [EndSet(c)];
    var ops3 := ops2 + [BeginSet(d, p)];
    var ops4 := ops3 + [OwnRelease(p)];
    OneMoreStep(w, [], p, w, 0, BeginSet(c, p), v1);
    OneMoreStep(w, ops1, p, v1, 0, EndSet(c), v2);
    OneMoreStep(w, ops2, p, v2, 0, BeginSet(d, p), v3);
    OneMoreStep(w, ops3, p, v3, 0, OwnRelease(p), v4);
    OneMoreStep(w, ops4, p, v4, 0, BeginRelease(c, level), v);
    ops := ops4 + [BeginRelease(c, level)];
  }
}
