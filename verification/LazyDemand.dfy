/** Which factories run their Process, and what happens to data that outlives the event. */
module LazyDemand {
  import opened Factories
  import opened LazyEvaluation

  // ---- what a request needs

  /** The factories whose Process a request for `f` needs, worked out from a fixed store: f itself if it
      has something to process, and what its Process asks for. */
  ghost function Needed(u: Setup, e: Event, st: Store, f: nat): set<nat>
    requires Fits(u, st) && f < |st|
    decreases u.rank(f), u.limit + 1
  {
    if MustProcess(u.flags[f], st[f]) then {f} + NeededBy(u, e, st, f, []) else {}
  }

  ghost function NeededBy(u: Setup, e: Event, st: Store, f: nat, answers: seq<seq<Obj>>): set<nat>
    requires Fits(u, st) && f < |st| && |answers| <= u.limit
    decreases u.rank(f), u.limit - |answers|
  {
    match u.next(f, e, answers)
    case Done(_) => {}
    case Need(d) =>
      if d < |st| then Needed(u, e, st, d) + NeededBy(u, e, st, f, answers + [Value(u, e, st, d)])
      else NeededBy(u, e, st, f, answers + [[]])
  }

  /** Just the factories in p have been processed. */
  ghost predicate Processed(u: Setup, st: Store, st': Store, p: set<nat>) {
    |st| == |st'| == |u.flags| &&
    forall g: nat :: g < |st| ==> (MustProcess(u.flags[g], st'[g]) <==> MustProcess(u.flags[g], st[g]) && g !in p)
  }

  ghost predicate Closed(u: Setup, e: Event, st: Store, p: set<nat>)
    requires Fits(u, st)
  {
    forall g: nat :: g in p && g < |st| ==> Needed(u, e, st, g) <= p
  }

  lemma {:induction false} NeededClosed(u: Setup, e: Event, st: Store, f: nat)
    requires Fits(u, st) && f < |st|
    ensures Closed(u, e, st, Needed(u, e, st, f))
    decreases u.rank(f), u.limit + 1
  {
    if MustProcess(u.flags[f], st[f]) { NeededByClosed(u, e, st, f, []); }
  }

  lemma {:induction false} NeededByClosed(u: Setup, e: Event, st: Store, f: nat, answers: seq<seq<Obj>>)
    requires Fits(u, st) && f < |st| && |answers| <= u.limit
    ensures Closed(u, e, st, NeededBy(u, e, st, f, answers))
    decreases u.rank(f), u.limit - |answers|
  {
    match u.next(f, e, answers)
    case Done(_) =>
    case Need(d) =>
      if d < |st| {
        NeededClosed(u, e, st, d);
        NeededByClosed(u, e, st, f, answers + [Value(u, e, st, d)]);
      } else {
        NeededByClosed(u, e, st, f, answers + [[]]);
      }
  }

  /** Once some of it is done, the rest is what is still needed. */
  lemma {:induction false} NeededStable(u: Setup, e: Event, st: Store, st': Store, p: set<nat>, f: nat)
    requires Fits(u, st) && f < |st| && Evolves(u, e, st, st') && Processed(u, st, st', p) && Closed(u, e, st, p)
    ensures p + Needed(u, e, st', f) == p + Needed(u, e, st, f)
    decreases u.rank(f), u.limit + 1
  {
    if MustProcess(u.flags[f], st'[f]) { NeededByStable(u, e, st, st', p, f, []); }
  }

  lemma {:induction false} NeededByStable(u: Setup, e: Event, st: Store, st': Store, p: set<nat>, f: nat,
                                          answers: seq<seq<Obj>>)
    requires Fits(u, st) && f < |st| && |answers| <= u.limit
    requires Evolves(u, e, st, st') && Processed(u, st, st', p) && Closed(u, e, st, p)
    ensures p + NeededBy(u, e, st', f, answers) == p + NeededBy(u, e, st, f, answers)
    decreases u.rank(f), u.limit - |answers|
  {
    match u.next(f, e, answers)
    case Done(_) =>
    case Need(d) =>
      if d < |st| {
        ValueStable(u, e, st, st', d);
        NeededStable(u, e, st, st', p, d);
        NeededByStable(u, e, st, st', p, f, answers + [Value(u, e, st, d)]);
      } else {
        NeededByStable(u, e, st, st', p, f, answers + [[]]);
      }
  }

  lemma ProcessedMore(u: Setup, a: Store, b: Store, c: Store, p: set<nat>, q: set<nat>, all: set<nat>)
    requires Processed(u, a, b, p) && Processed(u, b, c, q) && p + q == all
    ensures Processed(u, a, c, all)
  {
  }

  lemma PrepareLeaves(u: Setup, e: Event, st: Store, f: nat, st1: Store)
    requires Fits(u, st) && f < |st| && MustProcess(u.flags[f], st[f])
    requires st1 == st[f := Prepare(u.flags[f], st[f], e.run)]
    ensures Evolves(u, e, st, st1) && Processed(u, st, st1, {}) && st1[f].status.Unprocessed?
  {
    PrepareLaw(u.flags[f], st[f], e.run);
  }

  /** One request runs the Process of just the factories it needs. */
  lemma {:induction false} GetProcesses(u: Setup, e: Event, st: Store, f: nat)
    requires Fits(u, st) && f < |st|
    ensures Processed(u, st, Get(u, e, st, f).0, Needed(u, e, st, f))
    decreases u.rank(f), u.limit + 1
  {
    var st1 := st[f := Prepare(u.flags[f], st[f], e.run)];
    if MustProcess(u.flags[f], st[f]) {
      PrepareLeaves(u, e, st, f, st1);
      NeededByStable(u, e, st, st1, {}, f, []);
      RunProcesses(u, e, st1, f, []);
      var (st2, data) := RunProcess(u, e, st1, f, []);
      ProcessedMore(u, st, st1, st2, {}, NeededBy(u, e, st1, f, []), NeededBy(u, e, st, f, []));
    } else {
      PrepareLaw(u.flags[f], st[f], e.run);
      assert st1 == st;
    }
  }

  lemma {:induction false} RunProcesses(u: Setup, e: Event, st: Store, f: nat, answers: seq<seq<Obj>>)
    requires Fits(u, st) && f < |st| && |answers| <= u.limit
    ensures Processed(u, st, RunProcess(u, e, st, f, answers).0, NeededBy(u, e, st, f, answers))
    decreases u.rank(f), u.limit - |answers|
  {
    match u.next(f, e, answers)
    case Done(_) =>
    case Need(d) =>
      if d < |st| {
        var (st1, a) := Get(u, e, st, d);
        var p := Needed(u, e, st, d);
        GetLaw(u, e, st, d);
        GetProcesses(u, e, st, d);
        NeededClosed(u, e, st, d);
        NeededByStable(u, e, st, st1, p, f, answers + [a]);
        RunProcesses(u, e, st1, f, answers + [a]);
        var (st2, data) := RunProcess(u, e, st1, f, answers + [a]);
        ProcessedMore(u, st, st1, st2, p, NeededBy(u, e, st1, f, answers + [a]), NeededBy(u, e, st, f, answers));
      } else {
        RunProcesses(u, e, st, f, answers + [[]]);
      }
  }

  ghost function NeededAll(u: Setup, e: Event, st: Store, fs: seq<nat>): set<nat>
    requires Fits(u, st) && forall i :: 0 <= i < |fs| ==> fs[i] < |st|
  {
    if fs == [] then {} else NeededAll(u, e, st, fs[..|fs| - 1]) + Needed(u, e, st, fs[|fs| - 1])
  }

  lemma {:induction false} NeededAllClosed(u: Setup, e: Event, st: Store, fs: seq<nat>)
    requires Fits(u, st) && forall i :: 0 <= i < |fs| ==> fs[i] < |st|
    ensures Closed(u, e, st, NeededAll(u, e, st, fs))
  {
    if fs != [] {
      NeededAllClosed(u, e, st, fs[..|fs| - 1]);
      NeededClosed(u, e, st, fs[|fs| - 1]);
    }
  }

  lemma {:induction false} RequestsProcess(u: Setup, e: Event, st: Store, fs: seq<nat>)
    requires Fits(u, st) && forall i :: 0 <= i < |fs| ==> fs[i] < |st|
    ensures Processed(u, st, GetAll(u, e, st, fs).0, NeededAll(u, e, st, fs))
  {
    if fs != [] {
      var front, f := fs[..|fs| - 1], fs[|fs| - 1];
      var (st1, got) := GetAll(u, e, st, front);
      var p := NeededAll(u, e, st, front);
      RequestsProcess(u, e, st, front);
      EventLaw(u, e, st, front);
      NeededAllClosed(u, e, st, front);
      NeededStable(u, e, st, st1, p, f);
      GetProcesses(u, e, st1, f);
      ProcessedMore(u, st, st1, Get(u, e, st1, f).0, p, Needed(u, e, st1, f), NeededAll(u, e, st, fs));
    }
  }

  lemma {:induction false} NeededMustProcess(u: Setup, e: Event, st: Store, f: nat)
    requires Fits(u, st) && f < |st|
    ensures forall g :: g in Needed(u, e, st, f) ==> g < |st| && MustProcess(u.flags[g], st[g])
    decreases u.rank(f), u.limit + 1
  {
    if MustProcess(u.flags[f], st[f]) { NeededByMustProcess(u, e, st, f, []); }
  }

  lemma {:induction false} NeededByMustProcess(u: Setup, e: Event, st: Store, f: nat, answers: seq<seq<Obj>>)
    requires Fits(u, st) && f < |st| && |answers| <= u.limit
    ensures forall g :: g in NeededBy(u, e, st, f, answers) ==> g < |st| && MustProcess(u.flags[g], st[g])
    decreases u.rank(f), u.limit - |answers|
  {
    match u.next(f, e, answers)
    case Done(_) =>
    case Need(d) =>
      if d < |st| {
        NeededMustProcess(u, e, st, d);
        NeededByMustProcess(u, e, st, f, answers + [Value(u, e, st, d)]);
      } else {
        NeededByMustProcess(u, e, st, f, answers + [[]]);
      }
  }

  lemma {:induction false} AllMustProcess(u: Setup, e: Event, st: Store, fs: seq<nat>)
    requires Fits(u, st) && forall i :: 0 <= i < |fs| ==> fs[i] < |st|
    ensures forall g :: g in NeededAll(u, e, st, fs) ==> g < |st| && MustProcess(u.flags[g], st[g])
  {
    if fs != [] {
      AllMustProcess(u, e, st, fs[..|fs| - 1]);
      NeededMustProcess(u, e, st, fs[|fs| - 1]);
    }
  }

  /** Process runs once more for the factories in p, and for no other. */
  ghost predicate RanOnce(st: Store, st': Store, p: set<nat>) {
    |st| == |st'| && forall g: nat :: g < |st| ==> Runs(st'[g]) == Runs(st[g]) + if g in p then 1 else 0
  }

  /** For every sequence of requests in an event, the Process of a factory runs exactly once if some
      request needs it, and not at all otherwise. */
  lemma DemandLaw(u: Setup, e: Event, st: Store, fs: seq<nat>)
    requires Fits(u, st) && forall i :: 0 <= i < |fs| ==> fs[i] < |st|
    ensures RanOnce(st, GetAll(u, e, st, fs).0, NeededAll(u, e, st, fs))
  {
    EventLaw(u, e, st, fs);
    RequestsProcess(u, e, st, fs);
    AllMustProcess(u, e, st, fs);
  }

  // ---- the same, from the data held alone

  ghost function PureNeeded(u: Setup, e: Event, held: map<nat, seq<Obj>>, f: nat): set<nat>
    requires Acyclic(u) && f < |u.flags|
    decreases u.rank(f), u.limit + 1
  {
    if f in held && (u.flags[f].persistent || !u.flags[f].regenerate) then {}
    else {f} + PureNeededBy(u, e, held, f, [])
  }

  ghost function PureNeededBy(u: Setup, e: Event, held: map<nat, seq<Obj>>, f: nat, answers: seq<seq<Obj>>): set<nat>
    requires Acyclic(u) && f < |u.flags| && |answers| <= u.limit
    decreases u.rank(f), u.limit - |answers|
  {
    match u.next(f, e, answers)
    case Done(_) => {}
    case Need(d) =>
      if d < |u.flags| then PureNeeded(u, e, held, d) + PureNeededBy(u, e, held, f, answers + [Pure(u, e, held, d)])
      else PureNeededBy(u, e, held, f, answers + [[]])
  }

  ghost function PureNeededAll(u: Setup, e: Event, held: map<nat, seq<Obj>>, fs: seq<nat>): set<nat>
    requires Acyclic(u) && forall i :: 0 <= i < |fs| ==> fs[i] < |u.flags|
  {
    if fs == [] then {} else PureNeededAll(u, e, held, fs[..|fs| - 1]) + PureNeeded(u, e, held, fs[|fs| - 1])
  }

  lemma {:induction false} NeededIsPure(u: Setup, e: Event, st: Store, held: map<nat, seq<Obj>>, f: nat)
    requires Fits(u, st) && HoldsOnly(u, st, held) && f < |st|
    ensures Needed(u, e, st, f) == PureNeeded(u, e, held, f)
    decreases u.rank(f), u.limit + 1
  {
    if MustProcess(u.flags[f], st[f]) { NeededByIsPure(u, e, st, held, f, []); }
  }

  lemma {:induction false} NeededByIsPure(u: Setup, e: Event, st: Store, held: map<nat, seq<Obj>>, f: nat,
                                          answers: seq<seq<Obj>>)
    requires Fits(u, st) && HoldsOnly(u, st, held) && f < |st| && |answers| <= u.limit
    ensures NeededBy(u, e, st, f, answers) == PureNeededBy(u, e, held, f, answers)
    decreases u.rank(f), u.limit - |answers|
  {
    match u.next(f, e, answers)
    case Done(_) =>
    case Need(d) =>
      if d < |st| {
        NeededIsPure(u, e, st, held, d);
        ValueIsPure(u, e, st, held, d);
        NeededByIsPure(u, e, st, held, f, answers + [Value(u, e, st, d)]);
      } else {
        NeededByIsPure(u, e, st, held, f, answers + [[]]);
      }
  }

  lemma {:induction false} AllIsPure(u: Setup, e: Event, st: Store, held: map<nat, seq<Obj>>, fs: seq<nat>)
    requires Fits(u, st) && HoldsOnly(u, st, held) && forall i :: 0 <= i < |fs| ==> fs[i] < |st|
    ensures NeededAll(u, e, st, fs) == PureNeededAll(u, e, held, fs)
  {
    if fs != [] {
      AllIsPure(u, e, st, held, fs[..|fs| - 1]);
      NeededIsPure(u, e, st, held, fs[|fs| - 1]);
    }
  }

  // ---- data that outlives the event

  /** Between events, just this data is kept, all of it by persistent factories. */
  ghost predicate Keeps(u: Setup, st: Store, kept: map<nat, seq<Obj>>) {
    |st| == |u.flags| && Settled(st) &&
    forall g: nat :: g < |st| ==>
      (g in kept <==> u.flags[g].persistent && !MustProcess(u.flags[g], st[g])) &&
      (g in kept ==> st[g].data == kept[g])
  }

  ghost function At(held: map<nat, seq<Obj>>, g: nat): seq<Obj> { if g in held then held[g] else [] }

  /** What is held when an event starts: what was kept, and what the event's source inserts. */
  ghost function Held(u: Setup, kept: map<nat, seq<Obj>>, inserted: map<nat, seq<Obj>>): map<nat, seq<Obj>> {
    map g: nat | g < |u.flags| && (g in kept || g in inserted) :: At(kept, g) + At(inserted, g)
  }

  lemma OneFilled(u: Setup, st: Store, kept: map<nat, seq<Obj>>, inserted: map<nat, seq<Obj>>, g: nat)
    requires Keeps(u, st, kept) && g < |st|
    ensures var s, held := Filled(u, st, inserted)[g], Held(u, kept, inserted);
            Runs(s) == Runs(st[g]) &&
            if g in held then
              s.data == held[g] && (MustProcess(u.flags[g], s) <==> u.flags[g].regenerate && !u.flags[g].persistent)
            else MustProcess(u.flags[g], s)
  {
    var released := ClearData(u.flags[g], st[g]);
    assert EmptyUntilProcessed(st[g]);
    assert released.data == At(kept, g);
    if g in inserted {
      InsertAllHolds(released, inserted[g]);
      InsertAllCalls(released, inserted[g]);
    } else {
      assert At(kept, g) + [] == At(kept, g);
    }
  }

  lemma FilledHolds(u: Setup, st: Store, kept: map<nat, seq<Obj>>, inserted: map<nat, seq<Obj>>)
    requires Keeps(u, st, kept)
    ensures HoldsOnly(u, Filled(u, st, inserted), Held(u, kept, inserted))
    ensures RanOnce(st, Filled(u, st, inserted), {})
  {
    forall g: nat | g < |st| ensures Runs(Filled(u, st, inserted)[g]) == Runs(st[g]) {
      OneFilled(u, st, kept, inserted, g);
    }
    forall g: nat | g < |st|
      ensures var s, held := Filled(u, st, inserted)[g], Held(u, kept, inserted);
              if g in held then
                s.data == held[g] && (MustProcess(u.flags[g], s) <==> u.flags[g].regenerate && !u.flags[g].persistent)
              else MustProcess(u.flags[g], s)
    {
      OneFilled(u, st, kept, inserted, g);
    }
  }

  /** What persistent factories hold after an event: what they held, or what they then computed. */
  ghost function KeptAfter(u: Setup, e: Event, held: map<nat, seq<Obj>>, needed: set<nat>): map<nat, seq<Obj>>
    requires Acyclic(u)
  {
    map g: nat | g < |u.flags| && u.flags[g].persistent && (g in held || g in needed) ::
      if g in held then held[g] else Pure(u, e, held, g)
  }

  lemma EventKeeps(u: Setup, e: Event, st: Store, st': Store, held: map<nat, seq<Obj>>, needed: set<nat>)
    requires Fits(u, st) && HoldsOnly(u, st, held) && Settled(st')
    requires Evolves(u, e, st, st') && Processed(u, st, st', needed)
    ensures Keeps(u, st', KeptAfter(u, e, held, needed))
  {
    var kept := KeptAfter(u, e, held, needed);
    forall g: nat | g < |st'|
      ensures (g in kept <==> u.flags[g].persistent && !MustProcess(u.flags[g], st'[g])) &&
              (g in kept ==> st'[g].data == kept[g])
    {
      ValueIsPure(u, e, st, held, g);
    }
  }

  ghost function Answers(u: Setup, e: Event, held: map<nat, seq<Obj>>, fs: seq<nat>): (r: seq<seq<Obj>>)
    requires Acyclic(u) && forall i :: 0 <= i < |fs| ==> fs[i] < |u.flags|
    ensures |r| == |fs| && forall i :: 0 <= i < |fs| ==> r[i] == Pure(u, e, held, fs[i])
  {
    seq(|fs|, i requires 0 <= i < |fs| => Pure(u, e, held, fs[i]))
  }

  /** The reference: recursive evaluation of one event after the other, carrying along what persistent
      factories keep. */
  ghost function Reference(u: Setup, inputs: seq<Input>): (map<nat, seq<Obj>>, seq<seq<seq<Obj>>>)
    requires Acyclic(u) && AllAnswerable(u, inputs)
  {
    if inputs == [] then (map[], [])
    else
      var (kept, got) := Reference(u, inputs[..|inputs| - 1]);
      var input := inputs[|inputs| - 1];
      var held := Held(u, kept, input.inserted);
      var needed := PureNeededAll(u, input.event, held, input.requests);
      (KeptAfter(u, input.event, held, needed), got + [Answers(u, input.event, held, input.requests)])
  }

  /** In how many events a factory is needed. */
  ghost function TimesNeeded(u: Setup, inputs: seq<Input>, g: nat): nat
    requires Acyclic(u) && AllAnswerable(u, inputs)
  {
    if inputs == [] then 0
    else
      var front, input := inputs[..|inputs| - 1], inputs[|inputs| - 1];
      var held := Held(u, Reference(u, front).0, input.inserted);
      TimesNeeded(u, front, g) + if g in PureNeededAll(u, input.event, held, input.requests) then 1 else 0
  }

  /** One event, from what is kept. */
  lemma EventWithKept(u: Setup, st: Store, kept: map<nat, seq<Obj>>, input: Input, held: map<nat, seq<Obj>>,
                      needed: set<nat>, st': Store, got: seq<seq<Obj>>)
    requires Acyclic(u) && Keeps(u, st, kept) && Answerable(u, input) && held == Held(u, kept, input.inserted)
    requires needed == PureNeededAll(u, input.event, held, input.requests)
    requires (st', got) == GetAll(u, input.event, Filled(u, st, input.inserted), input.requests)
    ensures Keeps(u, st', KeptAfter(u, input.event, held, needed))
    ensures got == Answers(u, input.event, held, input.requests) && RanOnce(st, st', needed)
  {
    var e, filled, fs := input.event, Filled(u, st, input.inserted), input.requests;
    FilledHolds(u, st, kept, input.inserted);
    FilledKeepsSettled(u, st, input.inserted);
    GetAllKeepsSettled(u, e, filled, fs);
    EventLaw(u, e, filled, fs);
    RequestsProcess(u, e, filled, fs);
    DemandLaw(u, e, filled, fs);
    AllIsPure(u, e, filled, held, fs);
    EventKeeps(u, e, filled, st', held, needed);
    forall i | 0 <= i < |fs| ensures got[i] == Pure(u, e, held, fs[i]) { ValueIsPure(u, e, filled, held, fs[i]); }
  }

  ghost predicate RanAsNeeded(u: Setup, st: Store, inputs: seq<Input>)
    requires Acyclic(u) && AllAnswerable(u, inputs)
  {
    forall g: nat :: g < |st| ==> Runs(st[g]) == TimesNeeded(u, inputs, g)
  }

  /** Over every sequence of events, with factories of all kinds: every request gets what the reference
      gives, persistent factories keep what it says, and Process runs exactly once in each event
      that needs it. */
  lemma {:induction false} EventsFollowReference(u: Setup, inputs: seq<Input>)
    requires Acyclic(u) && AllAnswerable(u, inputs)
    ensures Events(u, inputs).1 == Reference(u, inputs).1
    ensures Keeps(u, Events(u, inputs).0, Reference(u, inputs).0) && RanAsNeeded(u, Events(u, inputs).0, inputs)
  {
    if inputs != [] {
      var front, input := inputs[..|inputs| - 1], inputs[|inputs| - 1];
      var (st, got) := Events(u, front);
      var (kept, answers) := Reference(u, front);
      EventsFollowReference(u, front);
      var held := Held(u, kept, input.inserted);
      var needed := PureNeededAll(u, input.event, held, input.requests);
      var (st', data) := GetAll(u, input.event, Filled(u, st, input.inserted), input.requests);
      EventWithKept(u, st, kept, input, held, needed, st', data);
    }
  }

  // ---- what that means for a persistent factory

  ghost predicate NotInserted(inputs: seq<Input>, from: nat, g: nat) {
    forall k :: from <= k < |inputs| ==> g !in inputs[k].inserted
  }

  /** What a persistent factory holds after some event it still holds after any later one, if nothing
      is inserted into it in between. */
  lemma {:induction false} KeptForGood(u: Setup, inputs: seq<Input>, n: nat, g: nat)
    requires Acyclic(u) && AllAnswerable(u, inputs) && n <= |inputs| && NotInserted(inputs, n, g)
    requires g in Reference(u, inputs[..n]).0
    ensures g in Reference(u, inputs).0 && Reference(u, inputs).0[g] == Reference(u, inputs[..n]).0[g]
    decreases |inputs|
  {
    if n == |inputs| {
      assert inputs[..n] == inputs;
    } else {
      var front, input := inputs[..|inputs| - 1], inputs[|inputs| - 1];
      assert front[..n] == inputs[..n];
      KeptForGood(u, front, n, g);
      KeptArePersistent(u, front, g);
      var kept := Reference(u, front).0;
      assert Held(u, kept, input.inserted)[g] == kept[g] + [];
    }
  }

  lemma KeptArePersistent(u: Setup, inputs: seq<Input>, g: nat)
    requires Acyclic(u) && AllAnswerable(u, inputs) && g in Reference(u, inputs).0
    ensures g < |u.flags| && u.flags[g].persistent
  {
  }

  /** Every later request of it gets that data. */
  lemma KeptIsAnswered(u: Setup, inputs: seq<Input>, n: nat, g: nat, k: nat, i: nat)
    requires Acyclic(u) && AllAnswerable(u, inputs) && n <= k < |inputs| && NotInserted(inputs, n, g)
    requires g in Reference(u, inputs[..n]).0 && i < |inputs[k].requests| && inputs[k].requests[i] == g
    ensures |Events(u, inputs).1| == |inputs| && |Events(u, inputs).1[k]| == |inputs[k].requests|
    ensures Events(u, inputs).1[k][i] == Reference(u, inputs[..n]).0[g]
  {
    var before := inputs[..k];
    var kept := Reference(u, before).0;
    var held := Held(u, kept, inputs[k].inserted);
    EventsFollowReference(u, inputs);
    AnswerAt(u, inputs, k);
    KeptBefore(u, inputs, before, n, g);
    HeldIsPure(u, inputs[k].event, kept, inputs[k].inserted, g, held);
  }

  lemma KeptBefore(u: Setup, inputs: seq<Input>, before: seq<Input>, n: nat, g: nat)
    requires Acyclic(u) && AllAnswerable(u, inputs) && AllAnswerable(u, before)
    requires n <= |before| && before <= inputs && NotInserted(inputs, n, g) && g in Reference(u, inputs[..n]).0
    ensures g in Reference(u, before).0 && Reference(u, before).0[g] == Reference(u, inputs[..n]).0[g]
    ensures g < |u.flags| && u.flags[g].persistent
  {
    assert before[..n] == inputs[..n];
    KeptForGood(u, before, n, g);
    KeptArePersistent(u, before, g);
  }

  lemma HeldIsPure(u: Setup, e: Event, kept: map<nat, seq<Obj>>, inserted: map<nat, seq<Obj>>, g: nat,
                   held: map<nat, seq<Obj>>)
    requires Acyclic(u) && g < |u.flags| && u.flags[g].persistent && g in kept && g !in inserted
    requires held == Held(u, kept, inserted)
    ensures Pure(u, e, held, g) == kept[g]
  {
    assert held[g] == kept[g] + [];
  }

  lemma {:induction false} AnswerAt(u: Setup, inputs: seq<Input>, k: nat)
    requires Acyclic(u) && AllAnswerable(u, inputs) && k < |inputs|
    ensures |Reference(u, inputs).1| == |inputs|
    ensures var held := Held(u, Reference(u, inputs[..k]).0, inputs[k].inserted);
            Reference(u, inputs).1[k] == Answers(u, inputs[k].event, held, inputs[k].requests)
    decreases |inputs|
  {
    var front := inputs[..|inputs| - 1];
    ReferenceLength(u, front);
    if k < |front| {
      assert front[..k] == inputs[..k];
      AnswerAt(u, front, k);
    }
  }

  lemma {:induction false} ReferenceLength(u: Setup, inputs: seq<Input>)
    requires Acyclic(u) && AllAnswerable(u, inputs)
    ensures |Reference(u, inputs).1| == |inputs|
  {
    if inputs != [] { ReferenceLength(u, inputs[..|inputs| - 1]); }
  }

  lemma {:induction false} NeededNotHeld(u: Setup, e: Event, held: map<nat, seq<Obj>>, f: nat, g: nat)
    requires Acyclic(u) && f < |u.flags| && g < |u.flags| && u.flags[g].persistent && g in held
    ensures g !in PureNeeded(u, e, held, f)
    decreases u.rank(f), u.limit + 1
  {
    if !(f in held && (u.flags[f].persistent || !u.flags[f].regenerate)) { NeededByNotHeld(u, e, held, f, [], g); }
  }

  lemma {:induction false} NeededByNotHeld(u: Setup, e: Event, held: map<nat, seq<Obj>>, f: nat,
                                           answers: seq<seq<Obj>>, g: nat)
    requires Acyclic(u) && f < |u.flags| && |answers| <= u.limit
    requires g < |u.flags| && u.flags[g].persistent && g in held
    ensures g !in PureNeededBy(u, e, held, f, answers)
    decreases u.rank(f), u.limit - |answers|
  {
    match u.next(f, e, answers)
    case Done(_) =>
    case Need(d) =>
      if d < |u.flags| {
        NeededNotHeld(u, e, held, d, g);
        NeededByNotHeld(u, e, held, f, answers + [Pure(u, e, held, d)], g);
      } else {
        NeededByNotHeld(u, e, held, f, answers + [[]], g);
      }
  }

  lemma {:induction false} AllNotHeld(u: Setup, e: Event, held: map<nat, seq<Obj>>, fs: seq<nat>, g: nat)
    requires Acyclic(u) && forall i :: 0 <= i < |fs| ==> fs[i] < |u.flags|
    requires g < |u.flags| && u.flags[g].persistent && g in held
    ensures g !in PureNeededAll(u, e, held, fs)
  {
    if fs != [] {
      AllNotHeld(u, e, held, fs[..|fs| - 1], g);
      NeededNotHeld(u, e, held, fs[|fs| - 1], g);
    }
  }

  /** The Process of a persistent factory runs at most once over all events. */
  lemma {:induction false} PersistentRunOnce(u: Setup, inputs: seq<Input>, g: nat)
    requires Acyclic(u) && AllAnswerable(u, inputs) && g < |u.flags| && u.flags[g].persistent
    ensures Runs(Events(u, inputs).0[g]) <= 1
    ensures Runs(Events(u, inputs).0[g]) == 1 ==> g in Reference(u, inputs).0
  {
    EventsFollowReference(u, inputs);
    if inputs != [] {
      var front, input := inputs[..|inputs| - 1], inputs[|inputs| - 1];
      var kept := Reference(u, front).0;
      var held := Held(u, kept, input.inserted);
      EventsFollowReference(u, front);
      PersistentRunOnce(u, front, g);
      if g in held { AllNotHeld(u, input.event, held, input.requests, g); }
    }
  }
}
