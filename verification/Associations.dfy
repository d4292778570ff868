/** JObject's search through associated objects: a depth-first walk that shares one
    set of checked objects and counts one depth variable down and up again.

    Objects are numbered; `g[v]` lists the objects associated with `v` in the order the
    walk meets them. Every statement is for all such orders. */
module Associations {
  import opened Graphs

  datatype World = World(g: Digraph, classNames: seq<string>) {
    predicate Valid() { |classNames| == |g| }

    predicate IsA(v: nat, className: string)
      requires Valid() && v < |g|
    {
      classNames[v] == className
    }
  }

  predicate Objects(w: World, objs: seq<nat>) {
    forall i :: 0 <= i < |objs| ==> objs[i] < |w.g|
  }

  datatype Progress = Progress(checked: set<nat>, found: set<nat>)

  ghost function Unchecked(w: World, checked: set<nat>): nat {
    |Below(|w.g|) - checked|
  }

  lemma UncheckedShrinks(w: World, a: set<nat>, b: set<nat>)
    requires a <= b
    ensures Unchecked(w, b) <= Unchecked(w, a)
    ensures forall x :: x in b && x !in a && x < |w.g| ==> Unchecked(w, b) < Unchecked(w, a)
  {
    var all := Below(|w.g|);
    SubsetCardinality(all - b, all - a);
    if x :| x in b && x !in a && x < |w.g| {
      assert x in all - a && x !in all - b;
    }
  }

  /** What one call leaves behind, given the depth counter it is entered with. */
  ghost function Visit(w: World, className: string, v: nat, depth: int, s: Progress): (r: Progress)
    requires w.Valid() && v < |w.g|
    ensures s.checked + {v} <= r.checked && s.found <= r.found
    decreases Unchecked(w, s.checked), 1, 0
  {
    UncheckedShrinks(w, s.checked, s.checked + {v});
    VisitEach(w, className, w.g[v], depth - 1, s.(checked := s.checked + {v}))
  }

  /** What the walk does with one associated object, the counter already lowered. */
  ghost function Take(w: World, className: string, obj: nat, depth: int, s: Progress): (r: Progress)
    requires w.Valid() && obj < |w.g|
    ensures s.checked <= r.checked && s.found <= r.found
    ensures w.IsA(obj, className) ==> obj in r.found
    decreases Unchecked(w, s.checked), 0, 0
  {
    var s1 := if w.IsA(obj, className) then s.(found := s.found + {obj}) else s;
    if depth <= 0 || obj in s1.checked then s1
    else
      UncheckedShrinks(w, s.checked, s1.checked + {obj});
      Visit(w, className, obj, depth, s1.(checked := s1.checked + {obj}))
  }

  ghost function VisitEach(w: World, className: string, objs: seq<nat>, depth: int, s: Progress): (r: Progress)
    requires w.Valid() && Objects(w, objs)
    ensures s.checked <= r.checked && s.found <= r.found
    decreases Unchecked(w, s.checked), 0, |objs|
  {
    if objs == [] then s
    else
      var s' := Take(w, className, objs[0], depth, s);
      UncheckedShrinks(w, s.checked, s'.checked);
      VisitEach(w, className, objs[1..], depth, s')
  }

  /** The state the recursive calls share by reference. */
  class AncestorSearch {
    var checked: set<nat>
    var found: set<nat>
    var maxDepth: int

    constructor (depth: int)
      ensures checked == {} && found == {} && maxDepth == depth
    {
      checked, found, maxDepth := {}, {}, depth;
    }

    ghost function State(): Progress
      reads this
    {
      Progress(checked, found)
    }

    method GetAssociatedAncestors(w: World, className: string, v: nat)
      requires w.Valid() && v < |w.g|
      modifies this
      ensures State() == Visit(w, className, v, old(maxDepth), old(State()))
      ensures maxDepth == old(maxDepth)
      decreases Unchecked(w, checked), 1
    {
      UncheckedShrinks(w, checked, checked + {v});
      if v !in checked {
        checked := checked + {v};
      }
      assert State() == old(State()).(checked := old(checked) + {v});
      ghost var target := VisitEach(w, className, w.g[v], maxDepth - 1, State());
      maxDepth := maxDepth - 1;
      var objs := w.g[v];
      for i := 0 to |objs|
        invariant maxDepth == old(maxDepth) - 1
        invariant old(checked) <= checked
        invariant VisitEach(w, className, objs[i..], maxDepth, State()) == target
      {
        assert objs[i..][0] == objs[i] && objs[i..][1..] == objs[i + 1..];
        UncheckedShrinks(w, old(checked), checked);
        TakeAssociated(w, className, objs[i]);
      }
      maxDepth := maxDepth + 1;
    }

    /** The body of the loop over the associated objects. */
    method TakeAssociated(w: World, className: string, obj: nat)
      requires w.Valid() && obj < |w.g|
      modifies this
      ensures State() == Take(w, className, obj, old(maxDepth), old(State()))
      ensures maxDepth == old(maxDepth)
      decreases Unchecked(w, checked), 0
    {
      if w.IsA(obj, className) {
        found := found + {obj};
      }
      if maxDepth > 0 && obj !in checked {
        checked := checked + {obj};
        UncheckedShrinks(w, old(checked), checked);
        GetAssociatedAncestors(w, className, obj);
      }
    }
  }

  /** The objects of the class that lie 1 to `depth` links away; both 0 and 1 mean direct associations only. */
  ghost predicate Within(g: Digraph, u: nat, v: nat, depth: int) {
    exists k: nat :: 1 <= k && (k == 1 || k <= depth) && Steps(g, u, v, k)
  }

  ghost function SearchResult(w: World, className: string, root: nat, depth: int): set<nat>
    requires w.Valid() && root < |w.g|
  {
    Visit(w, className, root, depth, Progress({}, {})).found
  }

  ghost predicate Exact(w: World, className: string, root: nat, depth: int)
    requires w.Valid() && root < |w.g|
  {
    forall x: nat :: x in SearchResult(w, className, root, depth) <==>
      x < |w.g| && w.IsA(x, className) && Within(w.g, root, x, depth)
  }

  /** JObject::Get: fills the caller's container with the objects found; an empty class
      name stands for the class of the container. */
  method Get(w: World, staticClassName: string, className: string, root: nat, depth: int) returns (found: set<nat>)
    requires w.Valid() && root < |w.g|
    ensures var name := if className == "" then staticClassName else className;
            found == SearchResult(w, name, root, depth) &&
            (forall x :: x in found ==> x < |w.g| && w.IsA(x, name) && Within(w.g, root, x, depth)) &&
            (depth <= 2 || depth >= |w.g| ==> Exact(w, name, root, depth)) &&
            (depth >= |w.g| ==> forall x: nat :: x in found <==> x < |w.g| && w.IsA(x, name) && Reaches(w.g, root, x))
  {
    var name := if className == "" then staticClassName else className;
    var search := new AncestorSearch(depth);
    search.GetAssociatedAncestors(w, name, root);
    found := search.found;
    SearchSound(w, name, root, depth);
    if depth <= 2 || depth >= |w.g| {
      SearchComplete(w, name, root, depth);
    }
    if depth >= |w.g| {
      SearchReachesAll(w, name, root, depth);
    }
  }

  // Nothing too far away is found.

  ghost predicate Near(w: World, className: string, root: nat, depth: int, x: nat)
    requires w.Valid()
  {
    x < |w.g| && w.IsA(x, className) && Within(w.g, root, x, depth)
  }

  lemma WithinSuccessor(g: Digraph, u: nat, w: nat, v: nat, depth: int)
    requires u < |g| && w in g[u] && depth > 0 && Within(g, w, v, depth)
    ensures Within(g, u, v, depth + 1)
  {
    var k: nat :| 1 <= k && (k == 1 || k <= depth) && Steps(g, w, v, k);
    assert Steps(g, u, v, k + 1);
  }

  lemma {:induction false} VisitFindsNear(w: World, className: string, v: nat, depth: int, s: Progress, x: nat)
    requires w.Valid() && v < |w.g|
    requires x in Visit(w, className, v, depth, s).found && x !in s.found
    ensures Near(w, className, v, depth, x)
    decreases Unchecked(w, s.checked), 1, 0
  {
    UncheckedShrinks(w, s.checked, s.checked + {v});
    VisitEachFindsNear(w, className, v, w.g[v], depth - 1, s.(checked := s.checked + {v}), x);
  }

  lemma {:induction false} TakeFindsNear(w: World, className: string, v: nat, obj: nat, depth: int, s: Progress, x: nat)
    requires w.Valid() && v < |w.g| && obj in w.g[v]
    requires x in Take(w, className, obj, depth, s).found && x !in s.found
    ensures Near(w, className, v, depth + 1, x)
    decreases Unchecked(w, s.checked), 0, 0
  {
    OneStep(w.g, v, obj);
    if x != obj {
      UncheckedShrinks(w, s.checked, s.checked + {obj});
      var s1 := if w.IsA(obj, className) then s.(found := s.found + {obj}) else s;
      VisitFindsNear(w, className, obj, depth, s1.(checked := s1.checked + {obj}), x);
      WithinSuccessor(w.g, v, obj, x, depth);
    } else if !w.IsA(obj, className) {
      UncheckedShrinks(w, s.checked, s.checked + {obj});
      VisitFindsNear(w, className, obj, depth, s.(checked := s.checked + {obj}), x);
    }
  }

  lemma {:induction false} VisitEachFindsNear(w: World, className: string, v: nat, objs: seq<nat>, depth: int,
                                              s: Progress, x: nat)
    requires w.Valid() && v < |w.g| && Objects(w, objs) && forall i :: 0 <= i < |objs| ==> objs[i] in w.g[v]
    requires x in VisitEach(w, className, objs, depth, s).found && x !in s.found
    ensures Near(w, className, v, depth + 1, x)
    decreases Unchecked(w, s.checked), 0, |objs|
  {
    var s' := Take(w, className, objs[0], depth, s);
    if x in s'.found {
      TakeFindsNear(w, className, v, objs[0], depth, s, x);
    } else {
      UncheckedShrinks(w, s.checked, s'.checked);
      VisitEachFindsNear(w, className, v, objs[1..], depth, s', x);
    }
  }

  /** On any graph, cycles included, everything found has the class asked for and lies
      within max(1, depth) links. */
  lemma SearchSound(w: World, className: string, root: nat, depth: int)
    requires w.Valid() && root < |w.g|
    ensures forall x :: x in SearchResult(w, className, root, depth) ==>
              x < |w.g| && w.IsA(x, className) && Within(w.g, root, x, depth)
  {
    forall x | x in SearchResult(w, className, root, depth)
      ensures Near(w, className, root, depth, x)
    {
      VisitFindsNear(w, className, root, depth, Progress({}, {}), x);
    }
  }

  // With a depth of at least the number of objects the counter never cuts the walk short.

  /** These objects are checked, and found if they have the class. */
  ghost predicate AllTaken(w: World, className: string, objs: seq<nat>, s: Progress)
    requires w.Valid() && Objects(w, objs)
  {
    forall x :: x in objs ==> x in s.checked && (w.IsA(x, className) ==> x in s.found)
  }

  /** Every object associated with `u` is checked, and found if it has the class. */
  ghost predicate Expanded(w: World, className: string, u: nat, s: Progress)
    requires w.Valid()
  {
    u < |w.g| && AllTaken(w, className, w.g[u], s)
  }

  ghost predicate NewlyExpanded(w: World, className: string, before: set<nat>, s: Progress)
    requires w.Valid()
  {
    forall u :: u in s.checked && u !in before ==> Expanded(w, className, u, s)
  }

  lemma UncheckedDrops(w: World, checked: set<nat>, x: nat)
    requires x < |w.g| && x !in checked
    ensures Unchecked(w, checked + {x}) == Unchecked(w, checked) - 1
  {
    assert Below(|w.g|) - (checked + {x}) == (Below(|w.g|) - checked) - {x};
  }

  lemma VisitUnfolds(w: World, className: string, v: nat, depth: int, s: Progress)
    requires w.Valid() && v < |w.g| && v in s.checked
    ensures Visit(w, className, v, depth, s) == VisitEach(w, className, w.g[v], depth - 1, s)
  {
    assert s.checked + {v} == s.checked;
  }

  lemma {:induction false} VisitExpands(w: World, className: string, v: nat, depth: int, s: Progress)
    requires w.Valid() && v < |w.g| && v in s.checked
    requires depth > Unchecked(w, s.checked)
    ensures var r := Visit(w, className, v, depth, s);
            Expanded(w, className, v, r) && NewlyExpanded(w, className, s.checked, r)
    decreases Unchecked(w, s.checked), 1, 0
  {
    VisitUnfolds(w, className, v, depth, s);
    VisitEachExpands(w, className, w.g[v], depth - 1, s);
  }

  lemma {:induction false} TakeExpands(w: World, className: string, obj: nat, depth: int, s: Progress)
    requires w.Valid() && obj < |w.g|
    requires depth >= Unchecked(w, s.checked)
    ensures var r := Take(w, className, obj, depth, s);
            obj in r.checked && NewlyExpanded(w, className, s.checked, r)
    decreases Unchecked(w, s.checked), 0, 0
  {
    if obj !in s.checked {
      UncheckedDrops(w, s.checked, obj);
      var s1 := if w.IsA(obj, className) then s.(found := s.found + {obj}) else s;
      VisitExpands(w, className, obj, depth, s1.(checked := s1.checked + {obj}));
    }
  }

  lemma {:induction false} VisitEachExpands(w: World, className: string, objs: seq<nat>, depth: int, s: Progress)
    requires w.Valid() && Objects(w, objs)
    requires depth >= Unchecked(w, s.checked)
    ensures var r := VisitEach(w, className, objs, depth, s);
            NewlyExpanded(w, className, s.checked, r) && AllTaken(w, className, objs, r)
    decreases Unchecked(w, s.checked), 0, |objs|
  {
    if objs != [] {
      var s' := Take(w, className, objs[0], depth, s);
      TakeExpands(w, className, objs[0], depth, s);
      UncheckedShrinks(w, s.checked, s'.checked);
      VisitEachExpands(w, className, objs[1..], depth, s');
      assert forall x :: x in objs ==> x == objs[0] || x in objs[1..];
    }
  }

  lemma {:induction false} ReachedIsChecked(w: World, className: string, root: nat, x: nat, k: nat, r: Progress)
    requires w.Valid() && root in r.checked && NewlyExpanded(w, className, {}, r)
    requires Steps(w.g, root, x, k)
    ensures x in r.checked
    decreases k
  {
    if k > 0 {
      var p := LastStep(w.g, root, x, k);
      ReachedIsChecked(w, className, root, p, k - 1, r);
    }
  }

  lemma WholeSearchExpands(w: World, className: string, root: nat, depth: int)
    requires w.Valid() && root < |w.g| && depth >= |w.g|
    ensures var r := Visit(w, className, root, depth, Progress({}, {}));
            root in r.checked && NewlyExpanded(w, className, {}, r)
  {
    var start := Progress({root}, {});
    assert {} + {root} == {root};
    assert Below(|w.g|) - {} == Below(|w.g|);
    UncheckedDrops(w, {}, root);
    VisitExpands(w, className, root, depth, start);
    assert start.(checked := {root} + {root}) == start;
    assert Visit(w, className, root, depth, Progress({}, {})) == Visit(w, className, root, depth, start);
  }

  lemma AllReachedFound(w: World, className: string, root: nat, depth: int, x: nat)
    requires w.Valid() && root < |w.g| && depth >= |w.g|
    requires Reaches(w.g, root, x)
    ensures x < |w.g| && (w.IsA(x, className) ==> x in SearchResult(w, className, root, depth))
  {
    var r := Visit(w, className, root, depth, Progress({}, {}));
    WholeSearchExpands(w, className, root, depth);
    var k: nat :| k > 0 && Steps(w.g, root, x, k);
    StepsInRange(w.g, root, x, k);
    var p := LastStep(w.g, root, x, k);
    ReachedIsChecked(w, className, root, p, k - 1, r);
    assert Expanded(w, className, p, r);
  }

  /** With a depth of at least the number of objects, exactly the objects of the class that
      are reached by one or more links are found. */
  lemma SearchReachesAll(w: World, className: string, root: nat, depth: int)
    requires w.Valid() && root < |w.g| && depth >= |w.g|
    ensures forall x: nat :: x in SearchResult(w, className, root, depth) <==>
              x < |w.g| && w.IsA(x, className) && Reaches(w.g, root, x)
  {
    SearchSound(w, className, root, depth);
    forall x: nat | x < |w.g| && w.IsA(x, className) && Reaches(w.g, root, x)
      ensures x in SearchResult(w, className, root, depth)
    {
      AllReachedFound(w, className, root, depth, x);
    }
    forall x: nat | x < |w.g| && Within(w.g, root, x, depth)
      ensures Reaches(w.g, root, x)
    {
    }
  }

  // Depths 0, 1 and 2 never meet the shared set of checked objects in a harmful way.

  lemma {:induction false} ShallowFinds(w: World, className: string, objs: seq<nat>, depth: int, s: Progress, x: nat)
    requires w.Valid() && Objects(w, objs)
    requires x in objs && w.IsA(x, className)
    ensures x in VisitEach(w, className, objs, depth, s).found
    decreases |objs|
  {
    if x != objs[0] {
      ShallowFinds(w, className, objs[1..], depth, Take(w, className, objs[0], depth, s), x);
    }
  }

  /** All associated objects of the class are found for every checked object but the root. */
  ghost predicate CheckedFound(w: World, className: string, root: nat, s: Progress)
    requires w.Valid()
  {
    forall u, x :: u in s.checked && u != root && u < |w.g| && x in w.g[u] && w.IsA(x, className) ==> x in s.found
  }

  lemma {:induction false} NoRecursion(w: World, className: string, objs: seq<nat>, s: Progress)
    requires w.Valid() && Objects(w, objs)
    ensures VisitEach(w, className, objs, 0, s).checked == s.checked
    decreases |objs|
  {
    if objs != [] {
      NoRecursion(w, className, objs[1..], Take(w, className, objs[0], 0, s));
    }
  }

  lemma TakeAtDepthOne(w: World, className: string, root: nat, obj: nat, s: Progress)
    requires w.Valid() && obj < |w.g| && CheckedFound(w, className, root, s)
    ensures var r := Take(w, className, obj, 1, s);
            CheckedFound(w, className, root, r) && obj in r.checked
  {
    if obj !in s.checked {
      var s1 := if w.IsA(obj, className) then s.(found := s.found + {obj}) else s;
      var s2 := s1.(checked := s1.checked + {obj});
      assert s2.(checked := s2.checked + {obj}) == s2;
      NoRecursion(w, className, w.g[obj], s2);
      forall x | x in w.g[obj] && w.IsA(x, className)
        ensures x in VisitEach(w, className, w.g[obj], 0, s2).found
      {
        ShallowFinds(w, className, w.g[obj], 0, s2, x);
      }
    }
  }

  lemma {:induction false} DepthTwo(w: World, className: string, root: nat, objs: seq<nat>, s: Progress)
    requires w.Valid() && Objects(w, objs) && CheckedFound(w, className, root, s)
    ensures var r := VisitEach(w, className, objs, 1, s);
            CheckedFound(w, className, root, r) && forall x :: x in objs ==> x in r.checked
    decreases |objs|
  {
    if objs != [] {
      TakeAtDepthOne(w, className, root, objs[0], s);
      DepthTwo(w, className, root, objs[1..], Take(w, className, objs[0], 1, s));
    }
  }

  /** The search misses nothing at depth 2 or less, or at a depth of at least the number of objects. */
  lemma SearchComplete(w: World, className: string, root: nat, depth: int)
    requires w.Valid() && root < |w.g|
    requires depth <= 2 || depth >= |w.g|
    ensures Exact(w, className, root, depth)
  {
    SearchSound(w, className, root, depth);
    forall x: nat | x < |w.g| && w.IsA(x, className) && Within(w.g, root, x, depth)
      ensures x in SearchResult(w, className, root, depth)
    {
      var k: nat :| 1 <= k && (k == 1 || k <= depth) && Steps(w.g, root, x, k);
      var start := Progress({} + {root}, {});
      var p := LastStep(w.g, root, x, k);
      if depth >= |w.g| {
        AllReachedFound(w, className, root, depth, x);
      } else if p == root {
        ShallowFinds(w, className, w.g[root], depth - 1, start, x);
      } else {
        assert depth == 2 && k == 2 && p in w.g[root];
        DepthTwo(w, className, root, w.g[root], start);
      }
    }
  }

  // In between, the walk can check an object too deep to look below it, and then refuse to
  // look again when it meets the same object nearer to the root.

  /** 0 -> 1 -> ... -> depth -> 0 with a short cut from 0 to depth - 1. */
  function Detour(n: nat, depth: nat): (g: Digraph)
    requires 3 <= depth < n
    ensures |g| == n
  {
    seq(n, v => if v == 0 then [1, depth - 1] else if v < depth then [v + 1] else if v == depth then [0] else [])
  }

  function OnlyRoot(n: nat): seq<string> {
    seq(n, v => if v == 0 then "wanted" else "other")
  }

  lemma DetourShape(n: nat, depth: nat, v: nat)
    requires 3 <= depth < n && v <= depth
    ensures var g := Detour(n, depth);
            g[v] == if v == 0 then [1, depth - 1] else if v < depth then [v + 1] else [0]
  {
  }

  lemma {:induction false} DetourWalk(n: nat, depth: nat, j: nat, s: Progress)
    requires 3 <= depth < n && 1 <= j < depth
    requires s == Progress(Below(j + 1), {})
    ensures Visit(World(Detour(n, depth), OnlyRoot(n)), "wanted", j, depth - j, s) == Progress(Below(depth), {})
    decreases depth - j
  {
    var w := World(Detour(n, depth), OnlyRoot(n));
    DetourShape(n, depth, j);
    assert s.checked + {j} == s.checked;
    assert Visit(w, "wanted", j, depth - j, s) == VisitEach(w, "wanted", [j + 1], depth - j - 1, s);
    var s' := Take(w, "wanted", j + 1, depth - j - 1, s);
    assert VisitEach(w, "wanted", [j + 1], depth - j - 1, s) ==
      VisitEach(w, "wanted", [j + 1][1..], depth - j - 1, s') == s';
    if j < depth - 1 {
      DetourWalk(n, depth, j + 1, Progress(s.checked + {j + 1}, {}));
    }
  }

  lemma DetourFindsNothing(n: nat, depth: nat)
    requires 3 <= depth < n
    ensures SearchResult(World(Detour(n, depth), OnlyRoot(n)), "wanted", 0, depth) == {}
  {
    var w := World(Detour(n, depth), OnlyRoot(n));
    DetourShape(n, depth, 0);
    var s := Progress({} + {0}, {});
    assert s.checked + {1} == Below(2);
    DetourWalk(n, depth, 1, Progress(s.checked + {1}, {}));
    var s' := Take(w, "wanted", 1, depth - 1, s);
    assert s' == Progress(Below(depth), {});
    assert [1, depth - 1][1..] == [depth - 1] && [depth - 1][1..] == [];
    assert Take(w, "wanted", depth - 1, depth - 1, s') == s';
    assert VisitEach(w, "wanted", [depth - 1], depth - 1, s') == s';
    assert VisitEach(w, "wanted", [1, depth - 1], depth - 1, s) == s';
    assert Visit(w, "wanted", 0, depth, Progress({}, {})) == VisitEach(w, "wanted", w.g[0], depth - 1, s);
  }

  lemma DetourMissed(n: nat, depth: nat)
    requires 3 <= depth < n
    ensures !Exact(World(Detour(n, depth), OnlyRoot(n)), "wanted", 0, depth)
  {
    var w := World(Detour(n, depth), OnlyRoot(n));
    DetourFindsNothing(n, depth);
    DetourShape(n, depth, 0);
    DetourShape(n, depth, depth - 1);
    DetourShape(n, depth, depth);
    OneStep(w.g, depth, 0);
    OneStep(w.g, depth - 1, depth);
    OneStep(w.g, 0, depth - 1);
    StepsConcat(w.g, depth - 1, depth, 0, 1, 1);
    StepsConcat(w.g, 0, depth - 1, 0, 1, 2);
    assert Within(w.g, 0, 0, depth);
  }

  /** Exactly when the depth-limited search finds all it promises, the objects of the class within
      the depth: on every graph of `n` objects, in every order and from every object, if and only
      if the depth is at most 2 or at least `n`. */
  lemma DepthLimitExact(n: nat, depth: int)
    ensures (forall w: World, className, root: nat :: w.Valid() && |w.g| == n && root < n ==>
               Exact(w, className, root, depth))
       <==> depth <= 2 || depth >= n
  {
    if depth <= 2 || depth >= n {
      forall w: World, className, root: nat | w.Valid() && |w.g| == n && root < n
        ensures Exact(w, className, root, depth)
      {
        SearchComplete(w, className, root, depth);
      }
    } else {
      DetourMissed(n, depth);
      var w := World(Detour(n, depth), OnlyRoot(n));
      assert w.Valid() && |w.g| == n && !Exact(w, "wanted", 0, depth);
    }
  }
}
