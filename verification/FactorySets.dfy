/** The registry of factories: one index by type and tag, one by object name and tag, filled by
    adding factories one by one and by merging whole sets. */
module FactorySets {

  datatype TypedKey = TypedKey(objType: nat, tag: string)
  datatype NamedKey = NamedKey(name: string, tag: string)
  datatype Factory = Factory(id: nat, objType: nat, name: string, tag: string, level: nat)

  function Typed(f: Factory): TypedKey { TypedKey(f.objType, f.tag) }

  function Named(f: Factory): NamedKey { NamedKey(f.name, f.tag) }

  datatype Registry = Registry(typed: map<TypedKey, Factory>, byName: map<NamedKey, Factory>, multis: seq<nat>)

  const EMPTY := Registry(map[], map[], [])

  predicate Clash(s: Registry, f: Factory) { Typed(f) in s.typed || Named(f) in s.byName }

  predicate Conflict(f: Factory, g: Factory) { Typed(f) == Typed(g) || Named(f) == Named(g) }

  /** The factories a set owns. */
  ghost function All(s: Registry): set<Factory> {
    set k | k in s.typed :: s.typed[k]
  }

  ghost predicate Distinct(fs: set<Factory>) {
    forall f, g :: f in fs && g in fs && Conflict(f, g) ==> f == g
  }

  ghost predicate OwnKeys(s: Registry) {
    forall k :: k in s.typed ==> Typed(s.typed[k]) == k
  }

  /** Both indexes hold the same factories, each under its own key. */
  ghost predicate Consistent(s: Registry) {
    OwnKeys(s) &&
    (forall f :: f in All(s) ==> Named(f) in s.byName && s.byName[Named(f)] == f) &&
    forall n :: n in s.byName ==> s.byName[n] in All(s) && Named(s.byName[n]) == n
  }

  /** Good enough to merge from. The name index of a set that has been merged from is stale, so
      nothing is asked of it. */
  ghost predicate Mergeable(s: Registry) { OwnKeys(s) && Distinct(All(s)) }

  lemma ConsistentIsMergeable(s: Registry)
    requires Consistent(s)
    ensures Mergeable(s)
  {
    forall f, g | f in All(s) && g in All(s) && Conflict(f, g) ensures f == g {
      var j :| j in s.typed && s.typed[j] == f;
      var k :| k in s.typed && s.typed[k] == g;
    }
  }

  lemma ClashIsConflict(s: Registry, f: Factory)
    requires Consistent(s)
    ensures Clash(s, f) <==> exists g :: g in All(s) && Conflict(f, g)
  {
    if Typed(f) in s.typed { assert s.typed[Typed(f)] in All(s); }
    if Named(f) in s.byName { assert s.byName[Named(f)] in All(s); }
  }

  // ---- the operations

  /** s holds what r holds, and the new factories under their own keys, and nothing else. */
  ghost predicate Extends(s: Registry, r: Registry, more: set<Factory>) {
    (forall k :: k in r.typed ==> k in s.typed && s.typed[k] == r.typed[k]) &&
    (forall n :: n in r.byName ==> n in s.byName && s.byName[n] == r.byName[n]) &&
    (forall f :: f in more ==>
       Typed(f) in s.typed && s.typed[Typed(f)] == f && Named(f) in s.byName && s.byName[Named(f)] == f) &&
    (forall k :: k in s.typed && k !in r.typed ==> s.typed[k] in more && Typed(s.typed[k]) == k) &&
    forall n :: n in s.byName && n !in r.byName ==> s.byName[n] in more && Named(s.byName[n]) == n
  }

  ghost function Taken(r: Registry, fs: set<Factory>): set<Factory> {
    set f | f in fs && !Clash(r, f)
  }

  /** What of a donor's typed index stays behind. */
  function LeftBehind(r: Registry, typed: map<TypedKey, Factory>): map<TypedKey, Factory> {
    map k | k in typed && Clash(r, typed[k]) :: typed[k]
  }

  class JFactorySet {
    var typed: map<TypedKey, Factory>
    var byName: map<NamedKey, Factory>
    var multis: seq<nat>
    const level: nat

    function State(): Registry
      reads this
    {
      Registry(typed, byName, multis)
    }

    constructor (level: nat)
      ensures State() == EMPTY && this.level == level
    {
      typed, byName, multis, this.level := map[], map[], [], level;
    }

    /** A duplicate under either key is refused with an exception. */
    method Add(f: Factory) returns (threw: bool)
      modifies this
      ensures threw == Clash(old(State()), f)
      ensures multis == old(multis)
      ensures if threw then State() == old(State()) else Extends(State(), old(State()), {f})
      ensures old(Consistent(State())) ==> Consistent(State())
    {
      if Typed(f) in typed || Named(f) in byName { return true; }
      ghost var r := State();
      typed := typed[Typed(f) := f];
      byName := byName[Named(f) := f];
      threw := false;
      if Consistent(r) { ExtendsKeepsConsistent(State(), r, {f}); }
    }

    /** Takes over what does not clash with the set as it was, whatever the order of the walk over
        the donor. The donor keeps the rest; its name index is not pruned. */
    method Merge(other: JFactorySet)
      requires other != this && Mergeable(other.State())
      modifies this, other
      ensures Extends(State(), old(State()), Taken(old(State()), old(All(other.State()))))
      ensures other.typed == LeftBehind(old(State()), old(other.typed)) && other.byName == old(other.byName)
      ensures multis == old(multis) + old(other.multis) && other.multis == []
      ensures old(Consistent(State())) ==> Consistent(State())
    {
      ghost var r, d := State(), other.State();
      ghost var taken: set<Factory> := {};
      var duplicates: map<TypedKey, Factory> := map[];
      var todo := other.typed.Keys;
      while todo != {}
        invariant other.State() == d && multis == r.multis && todo <= d.typed.Keys
        invariant Extends(State(), r, taken) && Halfway(r, d, todo, taken, duplicates)
      {
        var k :| k in todo;
        var f := other.typed[k];
        ClashUnchanged(r, d, todo, taken, duplicates, State(), k);
        HalfwayOne(r, d, todo, taken, duplicates, k);
        ghost var before, seen := State(), taken;
        if Typed(f) in typed || Named(f) in byName {
          duplicates := duplicates[k := f];
        } else {
          typed := typed[Typed(f) := f];
          byName := byName[Named(f) := f];
          taken := taken + {f};
          ExtendsOne(before, r, seen, f, State());
        }
        todo := todo - {k};
      }
      MergeDone(r, d, taken, duplicates);
      other.typed := duplicates;
      multis := multis + other.multis;
      other.multis := [];
      if Consistent(r) { ExtendsKeepsConsistent(State(), r, taken); }
    }

    /** Merges each generator's set in turn; gens names what the sets hold at the start. */
    method MergeAll(donors: seq<JFactorySet>, ghost gens: seq<set<Factory>>)
      requires Consistent(State()) && |gens| == |donors|
      requires forall i :: 0 <= i < |donors| ==>
                 donors[i] != this && Mergeable(donors[i].State()) && gens[i] == All(donors[i].State())
      requires forall i, j :: 0 <= i < j < |donors| ==> donors[i] != donors[j]
      modifies this, donors
      ensures Consistent(State()) && All(State()) == Kept(old(All(State())), gens)
      ensures forall i :: 0 <= i < |donors| ==>
                All(donors[i].State()) == gens[i] - Accepted(Kept(old(All(State())), gens[..i]), gens[i])
    {
      ghost var start := All(State());
      for n := 0 to |donors|
        invariant Consistent(State()) && All(State()) == Kept(start, gens[..n])
        invariant forall i :: n <= i < |donors| ==> Mergeable(donors[i].State()) && gens[i] == All(donors[i].State())
        invariant forall i :: 0 <= i < n ==>
                    All(donors[i].State()) == gens[i] - Accepted(Kept(start, gens[..i]), gens[i])
      {
        ghost var r, d := State(), donors[n].State();
        Merge(donors[n]);
        MergeIsAccepted(r, d, State(), donors[n].State());
        assert gens[..n + 1][..n] == gens[..n];
      }
      assert gens[..|donors|] == gens;
    }

    /** Look up by type, then by the demangled name of the type. */
    method GetFactory(objType: nat, name: string, tag: string) returns (found: Found)
      ensures found == Lookup(State(), level, objType, name, tag)
    {
      if TypedKey(objType, tag) in typed {
        var f := typed[TypedKey(objType, tag)];
        if f.level != level { return WrongLevel; }
        return Is(f);
      }
      if NamedKey(name, tag) in byName {
        var f := byName[NamedKey(name, tag)];
        if f.level != level { return WrongLevel; }
        return Is(f);
      }
      found := Missing;
    }
  }

  ghost function Members(fs: seq<Factory>): set<Factory> { set f | f in fs }

  ghost predicate NoConflicts(fs: seq<Factory>) {
    forall i, j :: 0 <= i < j < |fs| ==> !Conflict(fs[j], fs[i])
  }

  /** The temporary set that a generator fills by adding factories one by one: adding throws if and only
      if two of them conflict; otherwise the set can be merged from, and owns just these factories. */
  method Generate(level: nat, fs: seq<Factory>) returns (donor: JFactorySet, threw: bool)
    ensures fresh(donor) && Mergeable(donor.State())
    ensures threw <==> !NoConflicts(fs)
    ensures !threw ==> Consistent(donor.State()) && All(donor.State()) == Members(fs)
  {
    donor := new JFactorySet(level);
    threw := false;
    for i := 0 to |fs|
      invariant fresh(donor) && Holding(donor.State(), fs[..i])
    {
      ghost var before := donor.State();
      ClashIsConflict(before, fs[i]);
      threw := donor.Add(fs[i]);
      if threw {
        Clashing(fs, i);
        ConsistentIsMergeable(before);
        return;
      }
      HoldingOneMore(before, fs[..i], fs[i], donor.State(), fs[..i + 1]);
    }
    assert fs[..|fs|] == fs;
    ConsistentIsMergeable(donor.State());
  }

  ghost predicate Holding(s: Registry, fs: seq<Factory>) { Consistent(s) && All(s) == Members(fs) && NoConflicts(fs) }

  lemma HoldingOneMore(r: Registry, fs: seq<Factory>, f: Factory, s: Registry, more: seq<Factory>)
    requires Holding(r, fs) && !Clash(r, f) && Extends(s, r, {f}) && more == fs + [f]
    ensures Holding(s, more)
  {
    ClashIsConflict(r, f);
    ExtendsKeepsConsistent(s, r, {f});
    assert forall i :: 0 <= i < |fs| ==> fs[i] in Members(fs);
    assert Members(more) == Members(fs) + {f};
  }

  lemma Clashing(fs: seq<Factory>, i: nat)
    requires i < |fs| && exists g :: g in Members(fs[..i]) && Conflict(fs[i], g)
    ensures !NoConflicts(fs)
  {
    var g :| g in Members(fs[..i]) && Conflict(fs[i], g);
    var j :| 0 <= j < i && fs[..i][j] == g;
    assert Conflict(fs[i], fs[j]);
  }

  /** Part-way through a merge: what has been taken and what has been set aside. */
  ghost predicate Halfway(r: Registry, d: Registry, todo: set<TypedKey>, taken: set<Factory>,
                          duplicates: map<TypedKey, Factory>) {
    (forall f :: f in taken ==> Typed(f) in d.typed && Typed(f) !in todo && d.typed[Typed(f)] == f && !Clash(r, f)) &&
    (forall k :: k in d.typed && k !in todo && !Clash(r, d.typed[k]) ==> d.typed[k] in taken) &&
    (forall k :: k in duplicates ==>
       k in d.typed && k !in todo && Clash(r, d.typed[k]) && duplicates[k] == d.typed[k]) &&
    forall k :: k in d.typed && k !in todo && Clash(r, d.typed[k]) ==> k in duplicates
  }

  /** What has been taken over so far cannot clash with what is still to come. */
  lemma ClashUnchanged(r: Registry, d: Registry, todo: set<TypedKey>, taken: set<Factory>,
                       duplicates: map<TypedKey, Factory>, s: Registry, k: TypedKey)
    requires Mergeable(d) && k in todo && k in d.typed && Extends(s, r, taken) && Halfway(r, d, todo, taken, duplicates)
    ensures Clash(s, d.typed[k]) <==> Clash(r, d.typed[k])
  {
    var f := d.typed[k];
    assert f in All(d);
    if Typed(f) in s.typed && Typed(f) !in r.typed { assert false; }
    if Named(f) in s.byName && Named(f) !in r.byName {
      var g := s.byName[Named(f)];
      assert d.typed[Typed(g)] in All(d);
      assert Conflict(f, g);
    }
  }

  lemma ExtendsOne(s: Registry, r: Registry, seen: set<Factory>, f: Factory, next: Registry)
    requires Extends(s, r, seen) && !Clash(s, f)
    requires next.typed == s.typed[Typed(f) := f] && next.byName == s.byName[Named(f) := f]
    ensures Extends(next, r, seen + {f})
  {
  }

  lemma HalfwayOne(r: Registry, d: Registry, todo: set<TypedKey>, taken: set<Factory>,
                   duplicates: map<TypedKey, Factory>, k: TypedKey)
    requires Mergeable(d) && k in todo && k in d.typed && Halfway(r, d, todo, taken, duplicates)
    ensures if Clash(r, d.typed[k]) then Halfway(r, d, todo - {k}, taken, duplicates[k := d.typed[k]])
            else Halfway(r, d, todo - {k}, taken + {d.typed[k]}, duplicates)
  {
  }

  lemma MergeDone(r: Registry, d: Registry, taken: set<Factory>, duplicates: map<TypedKey, Factory>)
    requires Mergeable(d) && Halfway(r, d, {}, taken, duplicates)
    ensures taken == Taken(r, All(d)) && duplicates == LeftBehind(r, d.typed)
  {
    forall f ensures f in taken <==> f in Taken(r, All(d)) {
      if f in taken { assert d.typed[Typed(f)] in All(d); }
    }
  }

  // ---- what every operation keeps

  /** A consistent set that takes over factories which clash neither with it nor with each other
      stays consistent, and owns just its old factories and the new ones. Adding and merging are
      both of this kind. */
  lemma ExtendsKeepsConsistent(s: Registry, r: Registry, more: set<Factory>)
    requires Consistent(r) && Extends(s, r, more) && forall f :: f in more ==> !Clash(r, f)
    ensures Consistent(s) && All(s) == All(r) + more
  {
    forall f ensures f in All(s) <==> f in All(r) || f in more {
      if f in All(r) {
        var k :| k in r.typed && r.typed[k] == f;
        assert s.typed[k] == f;
      }
      if f in more { assert s.typed[Typed(f)] == f; }
    }
  }

  /** The donor keeps just what was not taken. */
  lemma LeftBehindKeepsMergeable(r: Registry, d: Registry, rest: Registry)
    requires Mergeable(d) && rest.typed == LeftBehind(r, d.typed)
    ensures Mergeable(rest) && All(rest) == All(d) - Taken(r, All(d))
  {
    forall f ensures f in All(rest) <==> f in All(d) && Clash(r, f) {
      if f in All(d) && Clash(r, f) {
        var k :| k in d.typed && d.typed[k] == f;
        assert rest.typed[k] == f;
      }
    }
  }

  /** A merge into a consistent set takes what conflicts with none of its factories. */
  lemma MergeIsAccepted(r: Registry, d: Registry, s: Registry, rest: Registry)
    requires Consistent(r) && Mergeable(d) && Extends(s, r, Taken(r, All(d))) && rest.typed == LeftBehind(r, d.typed)
    ensures Consistent(s) && All(s) == All(r) + Accepted(All(r), All(d))
    ensures Mergeable(rest) && All(rest) == All(d) - Accepted(All(r), All(d))
  {
    ExtendsKeepsConsistent(s, r, Taken(r, All(d)));
    LeftBehindKeepsMergeable(r, d, rest);
    forall f ensures f in Taken(r, All(d)) <==> f in Accepted(All(r), All(d)) {
      ClashIsConflict(r, f);
    }
  }

  // ---- lookups agree with a scan of all factories

  datatype Found = Is(factory: Factory) | WrongLevel | Missing

  function Checked(f: Factory, level: nat): Found { if f.level == level then Is(f) else WrongLevel }

  function Lookup(s: Registry, level: nat, objType: nat, name: string, tag: string): Found {
    if TypedKey(objType, tag) in s.typed then Checked(s.typed[TypedKey(objType, tag)], level)
    else if NamedKey(name, tag) in s.byName then Checked(s.byName[NamedKey(name, tag)], level)
    else Missing
  }

  /** A lookup finds the factory of that type and tag if the set owns one, else the one of that name
      and tag, else none; there is never a choice. */
  lemma LookupIsScan(s: Registry, level: nat, objType: nat, name: string, tag: string)
    requires Consistent(s)
    ensures forall f :: f in All(s) && f.objType == objType && f.tag == tag ==>
              Lookup(s, level, objType, name, tag) == if f.level == level then Is(f) else WrongLevel
    ensures (forall g :: g in All(s) ==> Typed(g) != TypedKey(objType, tag)) ==>
              forall f :: f in All(s) && f.name == name && f.tag == tag ==>
                Lookup(s, level, objType, name, tag) == if f.level == level then Is(f) else WrongLevel
    ensures (forall g :: g in All(s) ==> Typed(g) != TypedKey(objType, tag) && Named(g) != NamedKey(name, tag)) ==>
              Lookup(s, level, objType, name, tag) == Missing
  {
    if TypedKey(objType, tag) in s.typed { assert s.typed[TypedKey(objType, tag)] in All(s); }
    forall f | f in All(s) && f.objType == objType && f.tag == tag
      ensures Typed(f) == TypedKey(objType, tag) && Typed(f) in s.typed && s.typed[Typed(f)] == f
    {
      var k :| k in s.typed && s.typed[k] == f;
    }
  }

  // ---- building a set from generators

  ghost predicate Conflicts(fs: set<Factory>, f: Factory) {
    exists g :: g in fs && Conflict(f, g)
  }

  ghost function Accepted(fs: set<Factory>, more: set<Factory>): set<Factory> {
    set f | f in more && !Conflicts(fs, f)
  }

  /** The factories owned after what each generator makes has been merged in turn; what a merge
      leaves behind is destroyed. */
  ghost function Kept(start: set<Factory>, gens: seq<set<Factory>>): set<Factory> {
    if gens == [] then start
    else var before := Kept(start, gens[..|gens| - 1]); before + Accepted(before, gens[|gens| - 1])
  }

  ghost function Destroyed(start: set<Factory>, gens: seq<set<Factory>>): set<Factory> {
    if gens == [] then {}
    else Destroyed(start, gens[..|gens| - 1]) +
         (gens[|gens| - 1] - Accepted(Kept(start, gens[..|gens| - 1]), gens[|gens| - 1]))
  }

  ghost function Generated(start: set<Factory>, gens: seq<set<Factory>>): set<Factory> {
    if gens == [] then start else Generated(start, gens[..|gens| - 1]) + gens[|gens| - 1]
  }

  /** No factory object comes from two places. */
  ghost predicate Separate(start: set<Factory>, gens: seq<set<Factory>>) {
    gens != [] ==> Separate(start, gens[..|gens| - 1]) && Generated(start, gens[..|gens| - 1]) !! gens[|gens| - 1]
  }

  /** Every factory ever made ends up in the set or is destroyed, never both. */
  lemma {:induction false} BuildConserves(start: set<Factory>, gens: seq<set<Factory>>)
    requires Separate(start, gens)
    ensures Kept(start, gens) + Destroyed(start, gens) == Generated(start, gens)
    ensures Kept(start, gens) !! Destroyed(start, gens)
  {
    if gens != [] {
      BuildConserves(start, gens[..|gens| - 1]);
    }
  }

  /** First come, first served: a generator's factory is in the set if and only if it conflicts with
      nothing in the set that was made before. */
  ghost predicate FirstWins(start: set<Factory>, gens: seq<set<Factory>>, fs: set<Factory>) {
    start <= fs <= Generated(start, gens) &&
    forall i: nat, f :: i < |gens| && f in gens[i] ==> (f in fs <==> !Conflicts(fs * Generated(start, gens[..i]), f))
  }

  lemma {:induction false} MadeBefore(start: set<Factory>, gens: seq<set<Factory>>, i: nat)
    requires i <= |gens|
    ensures Generated(start, gens[..i]) <= Generated(start, gens)
  {
    if i == |gens| {
      assert gens[..i] == gens;
    } else {
      assert gens[..|gens| - 1][..i] == gens[..i];
      MadeBefore(start, gens[..|gens| - 1], i);
    }
  }

  lemma FirstWinsBefore(start: set<Factory>, gens: seq<set<Factory>>, fs: set<Factory>, before: set<Factory>)
    requires gens != [] && start <= fs && before == fs * Generated(start, gens[..|gens| - 1])
    requires FirstWins(start, gens, fs)
    ensures FirstWins(start, gens[..|gens| - 1], before)
  {
    var front := gens[..|gens| - 1];
    forall i: nat, f | i < |front| && f in front[i]
      ensures f in before <==> !Conflicts(before * Generated(start, front[..i]), f)
    {
      EarlierPart(start, front, fs, before, i);
      assert front[..i] == gens[..i] && front[i] == gens[i];
      MadeBefore(start, front, i + 1);
      assert front[..i + 1][..i] == front[..i];
    }
    MadeBefore(start, front, 0);
    assert front[..0] == [];
  }

  lemma EarlierPart(start: set<Factory>, front: seq<set<Factory>>, fs: set<Factory>, before: set<Factory>, i: nat)
    requires i <= |front| && before == fs * Generated(start, front)
    ensures before * Generated(start, front[..i]) == fs * Generated(start, front[..i])
  {
    MadeBefore(start, front, i);
  }

  lemma FirstWinsAfter(start: set<Factory>, gens: seq<set<Factory>>, fs: set<Factory>, before: set<Factory>)
    requires gens != [] && Separate(start, gens)
    requires FirstWins(start, gens[..|gens| - 1], before) && fs == before + Accepted(before, gens[|gens| - 1])
    ensures FirstWins(start, gens, fs)
  {
    var front, last := gens[..|gens| - 1], gens[|gens| - 1];
    assert before == fs * Generated(start, front);
    forall i: nat, f | i < |gens| && f in gens[i]
      ensures f in fs <==> !Conflicts(fs * Generated(start, gens[..i]), f)
    {
      if i < |front| {
        EarlierPart(start, front, fs, before, i);
        assert front[..i] == gens[..i] && front[i] == gens[i];
        MadeBefore(start, front, i + 1);
        assert front[..i + 1][..i] == front[..i];
      }
    }
  }

  /** Merging the generators' sets in turn gives the one set that is first come, first served. */
  lemma {:induction false} GreedyExact(start: set<Factory>, gens: seq<set<Factory>>, fs: set<Factory>)
    requires Separate(start, gens)
    ensures FirstWins(start, gens, fs) <==> fs == Kept(start, gens)
  {
    if gens != [] {
      var front, last := gens[..|gens| - 1], gens[|gens| - 1];
      var kept := Kept(start, front);
      GreedyExact(start, front, kept);
      FirstWinsAfter(start, gens, Kept(start, gens), kept);
      if FirstWins(start, gens, fs) {
        var before := fs * Generated(start, front);
        FirstWinsBefore(start, gens, fs, before);
        GreedyExact(start, front, before);
        assert gens[..|gens| - 1] == front;
        assert fs == kept + Accepted(kept, last);
      }
    }
  }

  ghost function EachMembers(lists: seq<seq<Factory>>): (r: seq<set<Factory>>)
    ensures |r| == |lists| && forall i :: 0 <= i < |lists| ==> r[i] == Members(lists[i])
  {
    seq(|lists|, i requires 0 <= i < |lists| => Members(lists[i]))
  }

  /** A set as an event is given it: filled by the source's own generator, then by merging what each
      default generator makes. It throws if and only if some generator makes two factories that
      conflict; otherwise it is first come, first served. */
  method Assemble(level: nat, source: seq<Factory>, defaults: seq<seq<Factory>>) returns (s: JFactorySet, threw: bool)
    ensures threw <==> !NoConflicts(source) || exists i :: 0 <= i < |defaults| && !NoConflicts(defaults[i])
    ensures !threw ==> Consistent(s.State()) && All(s.State()) == Kept(Members(source), EachMembers(defaults))
    ensures !threw && Separate(Members(source), EachMembers(defaults)) ==>
              FirstWins(Members(source), EachMembers(defaults), All(s.State()))
  {
    ghost var start, gens := Members(source), EachMembers(defaults);
    s, threw := Generate(level, source);
    if threw { return; }
    for n := 0 to |defaults|
      invariant fresh(s) && Consistent(s.State()) && All(s.State()) == Kept(start, gens[..n])
      invariant forall i :: 0 <= i < n ==> NoConflicts(defaults[i])
    {
      var temporary;
      temporary, threw := Generate(level, defaults[n]);
      if threw { return; }
      ghost var r, d := s.State(), temporary.State();
      s.Merge(temporary);
      MergeIsAccepted(r, d, s.State(), temporary.State());
      assert gens[..n + 1][..n] == gens[..n];
    }
    assert gens[..|defaults|] == gens;
    if Separate(start, gens) { GreedyExact(start, gens, All(s.State())); }
  }
}
