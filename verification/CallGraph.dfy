/** The call graph views: janaview ranks callers above callees and fills in ancestors and
    descendants rank by rank; janadot finds the relatives of one factory by plain recursion.

    Nodes are the recorded name tags, numbered in key order; `g[v]` lists the callees of `v`
    in the order its callee set is walked. */
module CallGraph {
  import opened Graphs

  // ---- janaview: ranks

  /** The callees the promotion loop looks at: it stops at the caller itself. */
  function Considered(v: nat, callees: seq<nat>): (r: seq<nat>)
    ensures r <= callees && v !in r
    ensures |r| < |callees| ==> callees[|r|] == v
  {
    if callees == [] || callees[0] == v then [] else [callees[0]] + Considered(v, callees[1..])
  }

  function Effective(g: Digraph): (e: Digraph)
    ensures |e| == |g|
  {
    var e := seq(|g|, v requires 0 <= v < |g| => Considered(v, g[v]));
    assert forall u, i :: 0 <= u < |e| && 0 <= i < |e[u]| ==> e[u][i] == g[u][i];
    e
  }

  ghost predicate RankedBelow(rank: seq<nat>, u: nat, callees: seq<nat>)
    requires u < |rank|
  {
    forall i :: 0 <= i < |callees| ==> callees[i] < |rank| && rank[callees[i]] < rank[u]
  }

  /** Every caller ranks strictly above all its callees. */
  ghost predicate Settled(g: Digraph, rank: seq<nat>) {
    |rank| == |g| && forall u: nat :: u < |g| ==> RankedBelow(rank, u, g[u])
  }

  ghost predicate SettledUpTo(g: Digraph, rank: seq<nat>, n: nat) {
    |rank| == |g| && n <= |g| && forall u: nat :: u < n ==> RankedBelow(rank, u, g[u])
  }

  lemma SettledNext(g: Digraph, rank: seq<nat>, u: nat)
    requires SettledUpTo(g, rank, u) && u < |g| && RankedBelow(rank, u, g[u])
    ensures SettledUpTo(g, rank, u + 1)
  {
  }

  /** `k` is the length of the longest chain of callees below `v`. */
  ghost predicate LongestChain(g: Digraph, v: nat, k: nat) {
    (exists w :: Steps(g, v, w, k)) && forall w, j: nat :: Steps(g, v, w, j) ==> j <= k
  }

  ghost predicate HasChain(g: Digraph, v: nat, k: nat) {
    exists w :: Steps(g, v, w, k)
  }

  ghost predicate Witnessed(g: Digraph, rank: seq<nat>) {
    |rank| == |g| && forall v: nat :: v < |g| ==> HasChain(g, v, rank[v])
  }

  lemma {:induction false} SettledDominates(g: Digraph, rank: seq<nat>, u: nat, w: nat, k: nat)
    requires Settled(g, rank) && Steps(g, u, w, k)
    ensures u < |g| && w < |g| && rank[u] >= k + rank[w]
    decreases k
  {
    if k > 0 {
      var x :| x in g[u] && Steps(g, x, w, k - 1);
      SettledDominates(g, rank, x, w, k - 1);
      assert RankedBelow(rank, u, g[u]);
    }
  }

  /** Total distance of the ranks from `n`; it shrinks with every promotion. */
  ghost function Slack(n: nat, rank: seq<nat>): nat {
    if rank == [] then 0 else (if rank[0] <= n then n - rank[0] else 0) + Slack(n, rank[1..])
  }

  lemma {:induction false} PromotionShrinksSlack(n: nat, rank: seq<nat>, u: nat, r: nat)
    requires u < |rank| && rank[u] < r <= n
    ensures Slack(n, rank[u := r]) < Slack(n, rank)
  {
    if u == 0 {
      assert rank[u := r][1..] == rank[1..];
    } else {
      assert rank[u := r][1..] == rank[1..][u - 1 := r];
      PromotionShrinksSlack(n, rank[1..], u - 1, r);
    }
  }

  lemma PromotionWitnessed(g: Digraph, rank: seq<nat>, u: nat, v: nat)
    requires Acyclic(g) && Witnessed(g, rank) && u < |g| && v in g[u]
    ensures v < |g| && rank[v] + 1 < |g| && Witnessed(g, rank[u := rank[v] + 1])
  {
    OneStep(g, u, v);
    assert HasChain(g, v, rank[v]);
    var w :| Steps(g, v, w, rank[v]);
    StepsConcat(g, u, v, w, 1, rank[v]);
    WalkBound(g, u, w, rank[v] + 1);
  }

  /** The caller `u` has been compared with its first `i` callees. */
  ghost predicate Compared(g: Digraph, u: nat, i: nat, before: seq<nat>, rank: seq<nat>, changed: bool) {
    |before| == |g| && u < |g| && i <= |g[u]| && Witnessed(g, rank) &&
    if changed then Slack(|g|, rank) < Slack(|g|, before)
    else rank == before && forall j :: 0 <= j < i ==> rank[g[u][j]] < rank[u]
  }

  lemma CompareNext(g: Digraph, u: nat, i: nat, before: seq<nat>, rank: seq<nat>, changed: bool)
    requires Acyclic(g) && Compared(g, u, i, before, rank, changed) && i < |g[u]|
    ensures var r := rank[g[u][i]];
            if r >= rank[u] then Compared(g, u, i + 1, before, rank[u := r + 1], true)
            else Compared(g, u, i + 1, before, rank, changed)
  {
    var callee := g[u][i];
    if rank[callee] >= rank[u] {
      PromotionWitnessed(g, rank, u, callee);
      PromotionShrinksSlack(|g|, rank, u, rank[callee] + 1);
    }
  }

  /** Promotes one caller above the callees it considers. */
  method PromoteCaller(callees: seq<nat>, u: nat, before: seq<nat>, ghost e: Digraph)
    returns (rank: seq<nat>, changed: bool)
    requires Acyclic(e) && Witnessed(e, before) && u < |e| && e[u] == Considered(u, callees)
    ensures Witnessed(e, rank)
    ensures changed ==> Slack(|e|, rank) < Slack(|e|, before)
    ensures !changed ==> rank == before && RankedBelow(rank, u, e[u])
  {
    rank, changed := before, false;
    var i := 0;
    while i < |callees|
      invariant Compared(e, u, i, before, rank, changed)
    {
      var callee := callees[i];
      if u == callee { break; } // a call to itself ends the walk over the callees
      CompareNext(e, u, i, before, rank, changed);
      if rank[callee] >= rank[u] {
        rank, changed := rank[u := rank[callee] + 1], true;
      }
      i := i + 1;
    }
  }

  /** The promotion loop: ends on every graph whose considered links form no cycle, with each
      rank the length of the longest chain below the node. */
  method ComputeRanks(g: Digraph) returns (rank: seq<nat>)
    requires Acyclic(Effective(g))
    ensures Settled(Effective(g), rank)
    ensures forall v: nat :: v < |g| ==> LongestChain(Effective(g), v, rank[v])
  {
    ghost var e := Effective(g);
    rank := seq(|g|, _ => 0);
    forall v: nat | v < |g| ensures HasChain(e, v, 0) { assert Steps(e, v, v, 0); }
    while true
      invariant Witnessed(e, rank)
      decreases Slack(|g|, rank)
    {
      var nothingChanged := true;
      ghost var start := rank;
      for u := 0 to |g|
        invariant Witnessed(e, rank)
        invariant nothingChanged ==> rank == start && SettledUpTo(e, rank, u)
        invariant !nothingChanged ==> Slack(|g|, rank) < Slack(|g|, start)
      {
        var changed;
        rank, changed := PromoteCaller(g[u], u, rank, e);
        if changed { nothingChanged := false; }
        if nothingChanged { SettledNext(e, rank, u); }
      }
      if nothingChanged { break; }
    }
    SettledIsLongest(e, rank);
  }

  lemma SettledIsLongest(g: Digraph, rank: seq<nat>)
    requires Settled(g, rank) && Witnessed(g, rank)
    ensures forall v: nat :: v < |g| ==> LongestChain(g, v, rank[v])
  {
    forall v: nat | v < |g| ensures LongestChain(g, v, rank[v]) {
      assert HasChain(g, v, rank[v]);
      forall w, j: nat | Steps(g, v, w, j) ensures j <= rank[v] {
        SettledDominates(g, rank, v, w, j);
      }
    }
  }

  /** Without cycles nothing is skipped. */
  lemma AcyclicAllConsidered(g: Digraph)
    requires Acyclic(g)
    ensures Effective(g) == g
  {
    forall v: nat | v < |g| ensures Effective(g)[v] == g[v] {
      if v in g[v] {
        OneStep(g, v, v);
        assert false;
      }
    }
  }

  /** The loop can only ever leave through ranks that are settled, and there are such ranks if
      and only if the considered links form no cycle. */
  lemma SettledRanksExist(g: Digraph)
    ensures (exists rank :: Settled(g, rank)) <==> Acyclic(g)
  {
    if rank :| Settled(g, rank) {
      forall v ensures !Reaches(g, v, v) {
        if Reaches(g, v, v) {
          var k: nat :| k > 0 && Steps(g, v, v, k);
          SettledDominates(g, rank, v, v, k);
        }
      }
    }
    if Acyclic(g) {
      var rank := seq(|g|, v requires 0 <= v < |g| => Height(g, v, |g|));
      forall u: nat | u < |g| ensures RankedBelow(rank, u, g[u]) {
        forall i | 0 <= i < |g[u]| ensures rank[g[u][i]] < rank[u] {
          HeightGrows(g, u, g[u][i]);
        }
      }
      assert Settled(g, rank);
    }
  }

  /** The length of the longest chain below `v` among those of at most `cap` links. */
  ghost function Height(g: Digraph, v: nat, cap: nat): nat {
    if cap == 0 || HasChain(g, v, cap) then cap else Height(g, v, cap - 1)
  }

  lemma {:induction false} HeightIsLongest(g: Digraph, v: nat, cap: nat)
    requires v < |g|
    ensures Height(g, v, cap) <= cap && HasChain(g, v, Height(g, v, cap))
    ensures forall k: nat :: k <= cap && HasChain(g, v, k) ==> k <= Height(g, v, cap)
    decreases cap
  {
    if cap == 0 {
      assert Steps(g, v, v, 0);
    } else if !HasChain(g, v, cap) {
      HeightIsLongest(g, v, cap - 1);
    }
  }

  lemma HeightGrows(g: Digraph, u: nat, v: nat)
    requires Acyclic(g) && u < |g| && v in g[u]
    ensures v < |g| && Height(g, v, |g|) < Height(g, u, |g|)
  {
    OneStep(g, u, v);
    HeightIsLongest(g, u, |g|);
    HeightIsLongest(g, v, |g|);
    var k := Height(g, v, |g|);
    var w :| Steps(g, v, w, k);
    StepsConcat(g, u, v, w, 1, k);
    WalkBound(g, u, w, k + 1);
    assert HasChain(g, u, k + 1);
  }

  /** A caller listed first among its own callees is never promoted above the others. */
  lemma SelfCallHidesCallees()
    ensures var g: Digraph := [[0, 1], []];
            Acyclic(Effective(g)) && !Reaches(Effective(g), 0, 1) && Reaches(g, 0, 1)
  {
    var g: Digraph := [[0, 1], []];
    var e := Effective(g);
    assert e == [[], []] by {
      assert Considered(0, [0, 1]) == [] && Considered(1, []) == [];
    }
    OneStep(g, 0, 1);
  }

  // ---- janaview: ancestors and descendants, rank by rank

  ghost function AncestorsOf(g: Digraph, v: nat): set<nat> {
    set u: nat | u < |g| && Reaches(g, u, v)
  }

  ghost function DescendantsOf(g: Digraph, v: nat): set<nat> {
    set u: nat | u < |g| && Reaches(g, v, u)
  }

  /** The nodes of each rank, each once and in ascending order; a rank nobody has is an empty group. */
  method GroupByRank(rank: seq<nat>, top: nat) returns (groups: seq<seq<nat>>)
    requires forall v :: 0 <= v < |rank| ==> rank[v] < top
    ensures |groups| == top
    ensures forall r, i :: 0 <= r < top && 0 <= i < |groups[r]| ==> groups[r][i] < |rank| && rank[groups[r][i]] == r
    ensures forall v: nat :: v < |rank| ==> v in groups[rank[v]]
    ensures forall r, i, j :: 0 <= r < top && 0 <= i < j < |groups[r]| ==> groups[r][i] < groups[r][j]
  {
    groups := seq(top, _ => []);
    for v := 0 to |rank|
      invariant |groups| == top
      invariant forall r, i :: 0 <= r < top && 0 <= i < |groups[r]| ==> groups[r][i] < v && rank[groups[r][i]] == r
      invariant forall u: nat :: u < v ==> u in groups[rank[u]]
      invariant forall r, i, j :: 0 <= r < top && 0 <= i < j < |groups[r]| ==> groups[r][i] < groups[r][j]
    {
      groups := groups[rank[v] := groups[rank[v]] + [v]];
    }
  }

  /** The ancestors collected from the callers in `done`. */
  ghost predicate AncestorsFrom(g: Digraph, ancestors: seq<set<nat>>, done: set<nat>) {
    |ancestors| == |g| &&
    forall v: nat, u :: v < |g| ==>
      (u in ancestors[v] <==> exists p :: p in done && p < |g| && v in g[p] && AtOrBelow(g, u, p))
  }

  lemma AncestorsComplete(g: Digraph, rank: seq<nat>, ancestors: seq<set<nat>>, done: set<nat>, v: nat)
    requires Settled(g, rank) && AncestorsFrom(g, ancestors, done) && v < |g|
    requires forall p: nat :: p < |g| && rank[p] > rank[v] ==> p in done
    ensures ancestors[v] == AncestorsOf(g, v)
  {
    forall u: nat ensures u in ancestors[v] <==> u in AncestorsOf(g, v) {
      if u in ancestors[v] {
        var p :| p in done && p < |g| && v in g[p] && AtOrBelow(g, u, p);
        var k: nat :| Steps(g, u, p, k);
        OneStep(g, p, v);
        StepsConcat(g, u, p, v, k, 1);
      }
      if u in AncestorsOf(g, v) {
        var k: nat :| k > 0 && Steps(g, u, v, k);
        var p := LastStep(g, u, v, k);
        assert RankedBelow(rank, p, g[p]);
      }
    }
  }

  method FillAncestors(g: Digraph, rank: seq<nat>, groups: seq<seq<nat>>) returns (ancestors: seq<set<nat>>)
    requires Settled(g, rank)
    requires forall v: nat :: v < |g| ==> rank[v] < |groups|
    requires forall r, i :: 0 <= r < |groups| && 0 <= i < |groups[r]| ==> groups[r][i] < |g| && rank[groups[r][i]] == r
    requires forall v: nat :: v < |g| ==> v in groups[rank[v]]
    ensures |ancestors| == |g| && forall v: nat :: v < |g| ==> ancestors[v] == AncestorsOf(g, v)
  {
    ancestors := seq(|g|, _ => {});
    ghost var done: set<nat> := {};
    for r := |groups| downto 0
      invariant AncestorsFrom(g, ancestors, done)
      invariant forall p: nat :: p < |g| && rank[p] >= r ==> p in done
    {
      var members := groups[r];
      for i := 0 to |members|
        invariant AncestorsFrom(g, ancestors, done)
        invariant forall p: nat :: p < |g| && rank[p] > r ==> p in done
        invariant forall j :: 0 <= j < i ==> members[j] in done
      {
        ancestors := AddCaller(g, rank, ancestors, members[i], done);
        done := done + {members[i]};
      }
    }
    forall v: nat | v < |g| ensures ancestors[v] == AncestorsOf(g, v) {
      AncestorsComplete(g, rank, ancestors, done, v);
    }
  }

  method AddCaller(g: Digraph, rank: seq<nat>, before: seq<set<nat>>, p: nat, ghost done: set<nat>)
    returns (ancestors: seq<set<nat>>)
    requires Settled(g, rank) && AncestorsFrom(g, before, done) && p < |g|
    requires forall q: nat :: q < |g| && rank[q] > rank[p] ==> q in done
    ensures AncestorsFrom(g, ancestors, done + {p})
  {
    ancestors := before;
    var callees := g[p];
    for i := 0 to |callees|
      invariant |ancestors| == |g|
      invariant forall v: nat :: v < |g| ==>
                  ancestors[v] == before[v] + (if v in callees[..i] then {p} + before[p] else {})
    {
      assert RankedBelow(rank, p, callees) && callees[i] != p;
      assert p !in callees[..i] by { assert forall j :: 0 <= j < i ==> callees[j] != p; }
      assert callees[..i + 1] == callees[..i] + [callees[i]];
      ancestors := ancestors[callees[i] := ancestors[callees[i]] + {p} + ancestors[p]];
    }
    assert callees[..|callees|] == callees;
    AncestorsComplete(g, rank, before, done, p);
    forall v: nat, u | v < |g|
      ensures u in ancestors[v] <==> exists q :: q in done + {p} && q < |g| && v in g[q] && AtOrBelow(g, u, q)
    {
      AtOrBelowMeaning(g, u, p);
      if u in ancestors[v] {
        if u in before[v] {
          var q :| q in done && q < |g| && v in g[q] && AtOrBelow(g, u, q);
          assert q in done + {p};
        } else {
          assert p in done + {p};
        }
      }
    }
  }

  lemma AtOrBelowMeaning(g: Digraph, u: nat, p: nat)
    requires p < |g|
    ensures AtOrBelow(g, u, p) <==> u == p || u in AncestorsOf(g, p)
  {
    if u == p {
      assert Steps(g, u, p, 0);
    } else if AtOrBelow(g, u, p) {
      var k: nat :| Steps(g, u, p, k);
      StepsInRange(g, u, p, k);
    }
  }

  method FillDescendants(g: Digraph, rank: seq<nat>, groups: seq<seq<nat>>) returns (descendants: seq<set<nat>>)
    requires Settled(g, rank)
    requires forall v: nat :: v < |g| ==> rank[v] < |groups|
    requires forall r, i :: 0 <= r < |groups| && 0 <= i < |groups[r]| ==> groups[r][i] < |g| && rank[groups[r][i]] == r
    requires forall v: nat :: v < |g| ==> v in groups[rank[v]]
    ensures |descendants| == |g| && forall v: nat :: v < |g| ==> descendants[v] == DescendantsOf(g, v)
  {
    descendants := seq(|g|, _ => {});
    for r := 0 to |groups|
      invariant DescendantsUpTo(g, rank, descendants, r)
    {
      var members := groups[r];
      for i := 0 to |members|
        invariant DescendantsUpTo(g, rank, descendants, r)
        invariant forall j :: 0 <= j < i ==> descendants[members[j]] == DescendantsOf(g, members[j])
      {
        var mine := CollectDescendants(g, rank, descendants, members[i]);
        descendants := descendants[members[i] := mine];
      }
    }
  }

  ghost predicate DescendantsUpTo(g: Digraph, rank: seq<nat>, descendants: seq<set<nat>>, r: nat)
    requires |rank| == |g|
  {
    |descendants| == |g| &&
    forall v: nat :: v < |g| ==>
      descendants[v] <= DescendantsOf(g, v) && (rank[v] < r ==> descendants[v] == DescendantsOf(g, v))
  }

  method CollectDescendants(g: Digraph, rank: seq<nat>, descendants: seq<set<nat>>, p: nat) returns (mine: set<nat>)
    requires Settled(g, rank) && p < |g| && DescendantsUpTo(g, rank, descendants, rank[p])
    ensures mine == DescendantsOf(g, p)
  {
    assert RankedBelow(rank, p, g[p]);
    var callees := set c | c in g[p];
    mine := descendants[p] + callees;
    for j := 0 to |g[p]|
      invariant mine == descendants[p] + callees + (set j', u | 0 <= j' < j && u in DescendantsOf(g, g[p][j']) :: u)
    {
      mine := mine + descendants[g[p][j]];
    }
    DescendantsFromCallees(g, p, descendants[p], mine);
  }

  lemma DescendantsFromCallees(g: Digraph, p: nat, old_: set<nat>, mine: set<nat>)
    requires p < |g| && old_ <= DescendantsOf(g, p)
    requires mine == old_ + (set c | c in g[p]) + (set j', u | 0 <= j' < |g[p]| && u in DescendantsOf(g, g[p][j']) :: u)
    ensures mine == DescendantsOf(g, p)
  {
    forall u: nat ensures u in mine <==> u in DescendantsOf(g, p) {
      if u in g[p] {
        OneStep(g, p, u);
      } else if j' :| 0 <= j' < |g[p]| && u in DescendantsOf(g, g[p][j']) {
        OneStep(g, p, g[p][j']);
        ReachesTransitive(g, p, g[p][j'], u);
      }
      if u in DescendantsOf(g, p) && u !in g[p] {
        var k: nat :| k > 0 && Steps(g, p, u, k);
        var c :| c in g[p] && Steps(g, c, u, k - 1);
        var j' :| 0 <= j' < |g[p]| && g[p][j'] == c;
        assert Reaches(g, c, u);
      }
    }
  }

  /** On every acyclic call graph: ranks are longest-chain lengths, so every caller ranks
      strictly above its callees, and the two passes give the transitive closure exactly. */
  method MakeCallGraph(g: Digraph) returns (rank: seq<nat>, ancestors: seq<set<nat>>, descendants: seq<set<nat>>)
    requires Acyclic(g)
    ensures Settled(g, rank) && forall v: nat :: v < |g| ==> LongestChain(g, v, rank[v])
    ensures |ancestors| == |g| && forall v: nat :: v < |g| ==> ancestors[v] == AncestorsOf(g, v)
    ensures |descendants| == |g| && forall v: nat :: v < |g| ==> descendants[v] == DescendantsOf(g, v)
  {
    AcyclicAllConsidered(g);
    rank := ComputeRanks(g);
    forall v: nat | v < |g| ensures rank[v] < |g| {
      assert LongestChain(g, v, rank[v]);
      var w :| Steps(g, v, w, rank[v]);
      WalkBound(g, v, w, rank[v]);
    }
    var groups := GroupByRank(rank, |g|);
    ancestors := FillAncestors(g, rank, groups);
    descendants := FillDescendants(g, rank, groups);
  }

  // ---- janadot: relatives of one factory by recursion over the list of links

  type Link = (nat, nat)  // caller, callee

  predicate LinksWithin(links: seq<Link>, n: nat) {
    forall i :: 0 <= i < |links| ==> links[i].0 < n && links[i].1 < n
  }

  function CalleesOf(links: seq<Link>, u: nat): (r: seq<nat>)
    ensures forall v :: v in r <==> (u, v) in links
  {
    if links == [] then []
    else (if links[0].0 == u then [links[0].1] else []) + CalleesOf(links[1..], u)
  }

  ghost function LinkGraph(links: seq<Link>, n: nat): (g: Digraph)
    requires LinksWithin(links, n)
    ensures |g| == n && forall u: nat, v: nat :: u < n ==> (v in g[u] <==> (u, v) in links)
  {
    var g := seq(n, u requires 0 <= u => CalleesOf(links, u));
    assert forall u: nat, i :: u < n && 0 <= i < |g[u]| ==> g[u][i] in g[u] && (u, g[u][i]) in links;
    g
  }

  function Flip(links: seq<Link>): (r: seq<Link>)
    ensures |r| == |links| && forall i :: 0 <= i < |links| ==> r[i] == (links[i].1, links[i].0)
  {
    seq(|links|, i requires 0 <= i < |links| => (links[i].1, links[i].0))
  }

  ghost predicate ChainsAtMost(g: Digraph, u: nat, height: nat) {
    forall v, k: nat :: Steps(g, u, v, k) ==> k <= height
  }

  lemma ShorterBelow(g: Digraph, u: nat, w: nat, height: nat)
    requires u < |g| && w in g[u] && ChainsAtMost(g, u, height)
    ensures height > 0 && ChainsAtMost(g, w, height - 1)
  {
    OneStep(g, u, w);
    forall v, k: nat | Steps(g, w, v, k) ensures k <= height - 1 {
      StepsConcat(g, u, w, v, 1, k);
    }
  }

  /** Nested calls follow the links, so they end if and only if no cycle lies below the start. */
  lemma NestingBounded(g: Digraph, u: nat)
    ensures (exists height: nat :: ChainsAtMost(g, u, height)) <==> NoCycleBelow(g, u)
  {
    if NoCycleBelow(g, u) {
      forall v, k: nat | Steps(g, u, v, k) ensures k <= |g| { WalkBound(g, u, v, k); }
      assert ChainsAtMost(g, u, |g|);
    }
    if height: nat :| ChainsAtMost(g, u, height) {
      forall v | AtOrBelow(g, u, v) ensures !Reaches(g, v, v) {
        if Reaches(g, v, v) {
          var j: nat :| Steps(g, u, v, j);
          var k: nat :| k > 0 && Steps(g, v, v, k);
          RepeatCycle(g, v, k, height + 1);
          var m: nat :| m >= height + 1 && Steps(g, v, v, m);
          StepsConcat(g, u, v, v, j, m);
        }
      }
    }
  }

  /** When they end, they nest less deep than there are nodes. */
  lemma NestingShallow(g: Digraph, u: nat)
    requires u < |g| && NoCycleBelow(g, u)
    ensures ChainsAtMost(g, u, |g| - 1)
  {
    forall v, k: nat | Steps(g, u, v, k) ensures k <= |g| - 1 { WalkBound(g, u, v, k); }
  }

  lemma {:induction false} RepeatCycle(g: Digraph, v: nat, k: nat, n: nat)
    requires k > 0 && Steps(g, v, v, k)
    ensures exists m: nat :: m >= n && Steps(g, v, v, m)
    decreases n
  {
    if n <= k {
      assert Steps(g, v, v, k);
    } else {
      RepeatCycle(g, v, k, n - 1);
      var m: nat :| m >= n - 1 && Steps(g, v, v, m);
      StepsConcat(g, v, v, v, m, k);
      assert Steps(g, v, v, m + k);
    }
  }

  class Relatives {
    const links: seq<Link>
    var found: set<nat>

    constructor (links: seq<Link>)
      ensures this.links == links && found == {}
    {
      this.links, found := links, {};
    }

    method FindDescendents(caller: nat, ghost n: nat, ghost height: nat)
      requires LinksWithin(links, n) && caller < n && ChainsAtMost(LinkGraph(links, n), caller, height)
      modifies this
      ensures found == old(found) + {caller} + DescendantsOf(LinkGraph(links, n), caller)
      decreases height
    {
      ghost var g := LinkGraph(links, n);
      found := found + {caller};
      for i := 0 to |links|
        invariant found == old(found) + {caller} + Below1(g, links[..i], caller)
      {
        assert links[..i + 1][..i] == links[..i];
        if links[i].0 == caller {
          assert (caller, links[i].1) in links;
          ShorterBelow(g, caller, links[i].1, height);
          FindDescendents(links[i].1, n, height - 1);
        }
      }
      assert links[..|links|] == links;
      Below1IsAll(g, links, n, caller);
    }

    method FindAncestors(callee: nat, ghost n: nat, ghost height: nat)
      requires LinksWithin(links, n) && callee < n && ChainsAtMost(LinkGraph(Flip(links), n), callee, height)
      modifies this
      ensures found == old(found) + {callee} + AncestorsOf(LinkGraph(links, n), callee)
      decreases height
    {
      ghost var flipped := Flip(links);
      ghost var g := LinkGraph(flipped, n);
      found := found + {callee};
      for i := 0 to |links|
        invariant found == old(found) + {callee} + Below1(g, flipped[..i], callee)
      {
        assert flipped[..i + 1][..i] == flipped[..i];
        if links[i].1 == callee {
          assert flipped[i] == (callee, links[i].0) && flipped[i] in flipped;
          ShorterBelow(g, callee, links[i].0, height);
          FindAncestors(links[i].0, n, height - 1);
          FlipClosure(links, n, links[i].0);
        }
      }
      assert flipped[..|flipped|] == flipped;
      Below1IsAll(g, flipped, n, callee);
      FlipClosure(links, n, callee);
    }
  }

  /** What the links seen so far contribute: each callee and everything below it. */
  ghost function Below1(g: Digraph, links: seq<Link>, u: nat): set<nat> {
    if links == [] then {}
    else
      var last := links[|links| - 1];
      Below1(g, links[..|links| - 1], u) + (if last.0 == u then {last.1} + DescendantsOf(g, last.1) else {})
  }

  lemma {:induction false} Below1Meaning(g: Digraph, links: seq<Link>, u: nat, x: nat)
    ensures x in Below1(g, links, u) <==> exists v :: (u, v) in links && (x == v || x in DescendantsOf(g, v))
  {
    if links != [] {
      var front, last := links[..|links| - 1], links[|links| - 1];
      Below1Meaning(g, front, u, x);
      assert links == front + [last];
      if v :| (u, v) in links && (x == v || x in DescendantsOf(g, v)) {
        assert (u, v) in front || (u, v) == last;
      }
      if v :| (u, v) in front && (x == v || x in DescendantsOf(g, v)) {
        assert (u, v) in links;
      }
      if last.0 == u {
        assert (u, last.1) in links;
      }
    }
  }

  lemma Below1IsAll(g: Digraph, links: seq<Link>, n: nat, u: nat)
    requires LinksWithin(links, n) && u < n && g == LinkGraph(links, n)
    ensures Below1(g, links, u) == DescendantsOf(g, u)
  {
    forall x: nat ensures x in Below1(g, links, u) <==> x in DescendantsOf(g, u) {
      Below1Meaning(g, links, u, x);
      if v :| (u, v) in links && (x == v || x in DescendantsOf(g, v)) {
        OneStep(g, u, v);
        if x != v { ReachesTransitive(g, u, v, x); }
      }
      if x in DescendantsOf(g, u) {
        var k: nat :| k > 0 && Steps(g, u, x, k);
        var v :| v in g[u] && Steps(g, v, x, k - 1);
        assert (u, v) in links;
        if k > 1 { assert Reaches(g, v, x); }
      }
    }
  }

  lemma {:induction false} ReverseSteps(g: Digraph, f: Digraph, u: nat, v: nat, k: nat)
    requires |f| == |g| && forall a: nat, b: nat :: a < |g| && b in g[a] ==> b < |f| && a in f[b]
    requires Steps(g, u, v, k)
    ensures Steps(f, v, u, k)
    decreases k
  {
    if k > 0 {
      var w :| w in g[u] && Steps(g, w, v, k - 1);
      ReverseSteps(g, f, w, v, k - 1);
      OneStep(f, w, u);
      StepsConcat(f, v, w, u, k - 1, 1);
    }
  }

  lemma FlipIsReverse(links: seq<Link>, n: nat)
    requires LinksWithin(links, n)
    ensures var g, f := LinkGraph(links, n), LinkGraph(Flip(links), n);
            forall u: nat, v: nat :: u < n && v in g[u] ==> v < n && u in f[v]
  {
    var g, f := LinkGraph(links, n), LinkGraph(Flip(links), n);
    forall u: nat, v: nat | u < n && v in g[u] ensures v < n && u in f[v] {
      var i :| 0 <= i < |links| && links[i] == (u, v);
      assert Flip(links)[i] in Flip(links);
    }
  }

  lemma FlipReaches(links: seq<Link>, n: nat, u: nat, v: nat)
    requires LinksWithin(links, n) && Reaches(LinkGraph(links, n), u, v)
    ensures Reaches(LinkGraph(Flip(links), n), v, u)
  {
    var g, f := LinkGraph(links, n), LinkGraph(Flip(links), n);
    FlipIsReverse(links, n);
    var k: nat :| k > 0 && Steps(g, u, v, k);
    ReverseSteps(g, f, u, v, k);
  }

  lemma FlipClosure(links: seq<Link>, n: nat, v: nat)
    requires LinksWithin(links, n)
    ensures DescendantsOf(LinkGraph(Flip(links), n), v) == AncestorsOf(LinkGraph(links, n), v)
    ensures forall u: nat :: Reaches(LinkGraph(Flip(links), n), v, u) <==> Reaches(LinkGraph(links, n), u, v)
  {
    var g, f := LinkGraph(links, n), LinkGraph(Flip(links), n);
    assert Flip(Flip(links)) == links;
    forall u: nat ensures Reaches(f, v, u) <==> Reaches(g, u, v) {
      if Reaches(f, v, u) { FlipReaches(Flip(links), n, v, u); }
      if Reaches(g, u, v) { FlipReaches(links, n, u, v); }
    }
  }

  /** The focus factory's relatives: itself, its descendants and its ancestors, the same
      closures janaview computes. */
  method FocusRelatives(links: seq<Link>, focus: nat, ghost n: nat) returns (relatives: set<nat>)
    requires LinksWithin(links, n) && focus < n && Acyclic(LinkGraph(links, n))
    ensures var g := LinkGraph(links, n);
            relatives == {focus} + DescendantsOf(g, focus) + AncestorsOf(g, focus)
  {
    ghost var g := LinkGraph(links, n);
    ghost var f := LinkGraph(Flip(links), n);
    forall v ensures !Reaches(f, v, v) {
      FlipClosure(links, n, v);
    }
    NestingBounded(g, focus);
    NestingBounded(f, focus);
    ghost var down: nat :| ChainsAtMost(g, focus, down);
    ghost var up: nat :| ChainsAtMost(f, focus, up);
    var r := new Relatives(links);
    r.FindDescendents(focus, n, down);
    r.FindAncestors(focus, n, up);
    relatives := r.found;
  }
}
