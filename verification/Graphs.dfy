/** Finite directed graphs whose nodes are numbered from 0 and whose successor
    lists carry the order in which the program walks them. */
module Graphs {

  predicate Closed(g: seq<seq<nat>>) {
    forall u, i :: 0 <= u < |g| && 0 <= i < |g[u]| ==> g[u][i] < |g|
  }

  type Digraph = g: seq<seq<nat>> | Closed(g) witness []

  /** `v` is reached from `u` by following exactly `k` links. */
  ghost predicate Steps(g: Digraph, u: nat, v: nat, k: nat)
    decreases k
  {
    u < |g| &&
    if k == 0 then u == v else exists w :: w in g[u] && Steps(g, w, v, k - 1)
  }

  /** `v` is reached from `u` by one or more links. */
  ghost predicate Reaches(g: Digraph, u: nat, v: nat) {
    exists k: nat :: k > 0 && Steps(g, u, v, k)
  }

  /** `v` is `u` or is reached from it. */
  ghost predicate AtOrBelow(g: Digraph, u: nat, v: nat) {
    exists k: nat :: Steps(g, u, v, k)
  }

  /** No node that can be reached from `u` (itself included) lies on a cycle. */
  ghost predicate NoCycleBelow(g: Digraph, u: nat) {
    forall v :: AtOrBelow(g, u, v) ==> !Reaches(g, v, v)
  }

  ghost predicate Acyclic(g: Digraph) {
    forall v :: !Reaches(g, v, v)
  }

  lemma {:induction false} StepsInRange(g: Digraph, u: nat, v: nat, k: nat)
    requires Steps(g, u, v, k)
    ensures u < |g| && v < |g|
    decreases k
  {
    if k > 0 {
      var w :| w in g[u] && Steps(g, w, v, k - 1);
      StepsInRange(g, w, v, k - 1);
    }
  }

  lemma {:induction false} StepsConcat(g: Digraph, u: nat, v: nat, w: nat, j: nat, k: nat)
    requires Steps(g, u, v, j) && Steps(g, v, w, k)
    ensures Steps(g, u, w, j + k)
    decreases j
  {
    if j > 0 {
      var x :| x in g[u] && Steps(g, x, v, j - 1);
      StepsConcat(g, x, v, w, j - 1, k);
    }
  }

  lemma OneStep(g: Digraph, u: nat, v: nat)
    requires u < |g| && v in g[u]
    ensures v < |g| && Steps(g, u, v, 1) && Reaches(g, u, v)
  {
    assert Steps(g, v, v, 0);
  }

  /** The last link of a walk of at least one link. */
  lemma {:induction false} LastStep(g: Digraph, u: nat, v: nat, k: nat) returns (p: nat)
    requires k > 0 && Steps(g, u, v, k)
    ensures p < |g| && Steps(g, u, p, k - 1) && v in g[p]
    decreases k
  {
    var w :| w in g[u] && Steps(g, w, v, k - 1);
    if k == 1 {
      p := u;
    } else {
      p := LastStep(g, w, v, k - 1);
    }
  }

  lemma ReachesTransitive(g: Digraph, u: nat, v: nat, w: nat)
    requires Reaches(g, u, v) && Reaches(g, v, w)
    ensures Reaches(g, u, w)
  {
    var j: nat :| j > 0 && Steps(g, u, v, j);
    var k: nat :| k > 0 && Steps(g, v, w, k);
    StepsConcat(g, u, v, w, j, k);
  }

  lemma BelowSuccessor(g: Digraph, u: nat, w: nat, v: nat)
    requires u < |g| && w in g[u] && AtOrBelow(g, w, v)
    ensures AtOrBelow(g, u, v) && Reaches(g, u, v)
  {
    var j: nat :| Steps(g, w, v, j);
    OneStep(g, u, w);
    StepsConcat(g, u, w, v, 1, j);
  }

  lemma NoCycleBelowSuccessor(g: Digraph, u: nat, w: nat)
    requires u < |g| && w in g[u] && NoCycleBelow(g, u)
    ensures NoCycleBelow(g, w)
  {
    forall v | AtOrBelow(g, w, v)
      ensures !Reaches(g, v, v)
    {
      BelowSuccessor(g, u, w, v);
    }
  }

  /** Below a node with no cycle beneath it, a walk of `k` links meets `k + 1` different nodes. */
  lemma {:induction false} WalkNodes(g: Digraph, u: nat, v: nat, k: nat) returns (s: set<nat>)
    requires NoCycleBelow(g, u) && Steps(g, u, v, k)
    ensures |s| == k + 1
    ensures forall x :: x in s ==> x < |g| && AtOrBelow(g, u, x)
    decreases k
  {
    assert Steps(g, u, u, 0);
    s := {u};
    if k > 0 {
      var w :| w in g[u] && Steps(g, w, v, k - 1);
      NoCycleBelowSuccessor(g, u, w);
      var rest := WalkNodes(g, w, v, k - 1);
      forall x | x in rest
        ensures x != u && x < |g| && AtOrBelow(g, u, x)
      {
        BelowSuccessor(g, u, w, x);
      }
      s := s + rest;
    }
  }

  function Below(n: nat): (s: set<nat>)
    ensures |s| == n && forall x: nat :: x in s <==> x < n
  {
    if n == 0 then {} else Below(n - 1) + {n - 1}
  }

  lemma {:induction false} SubsetCardinality(s: set<nat>, t: set<nat>)
    requires s <= t
    ensures |s| <= |t|
    ensures s < t ==> |s| < |t|
  {
    if s != {} {
      var x :| x in s;
      SubsetCardinality(s - {x}, t - {x});
    } else if t != {} {
      var x :| x in t;
      assert |t - {x}| == |t| - 1;
    }
  }

  /** A walk below a node with no cycle beneath it is shorter than the number of nodes. */
  lemma WalkBound(g: Digraph, u: nat, v: nat, k: nat)
    requires NoCycleBelow(g, u) && Steps(g, u, v, k)
    ensures k < |g|
  {
    var s := WalkNodes(g, u, v, k);
    SubsetCardinality(s, Below(|g|));
  }
}
