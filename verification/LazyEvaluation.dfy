/** Factories that get each other's data on demand. A factory runs its Process at most when its
    data is first asked for in an event; what it hands out must be what plain recursive
    evaluation would compute. */
module LazyEvaluation {
  import opened RunCallbacks
  import opened Factories

  datatype Event = Event(run: int, number: nat)

  /** What a user's Process does next: get the data of another factory, or finish with its own. */
  datatype Ask = Need(dep: nat) | Done(data: seq<Obj>)

  /** The factories of an event. `next` is the users' code: what the Process of a factory does
      in an event after the answers it has got so far, so what is asked may depend on the data. `rank`
      witnesses that the requests never go round in a circle; `limit` bounds the requests of one Process. */
  datatype Setup = Setup(
    flags: seq<Flags>,
    next: (nat, Event, seq<seq<Obj>>) -> Ask,
    rank: nat -> nat,
    limit: nat)

  /** A request for a factory that does not exist gets an empty answer. */
  ghost predicate Acyclic(u: Setup) {
    forall f: nat, e, answers ::
      f < |u.flags| && u.next(f, e, answers).Need? ==>
        |answers| < u.limit && (u.next(f, e, answers).dep < |u.flags| ==> u.rank(u.next(f, e, answers).dep) < u.rank(f))
  }

  type Store = seq<Factory>

  ghost predicate Fits(u: Setup, st: Store) { Acyclic(u) && |st| == |u.flags| }

  // ---- evaluation on demand

  ghost function Get(u: Setup, e: Event, st: Store, f: nat): (r: (Store, seq<Obj>))
    requires Fits(u, st) && f < |st|
    ensures |r.0| == |st|
    decreases u.rank(f), u.limit + 1
  {
    var st1 := st[f := Prepare(u.flags[f], st[f], e.run)];
    if MustProcess(u.flags[f], st[f]) then
      var (st2, data) := RunProcess(u, e, st1, f, []);
      var done := Complete(Set(u.flags[f], st2[f], data));
      (st2[f := done], done.data)
    else (st1, st1[f].data)
  }

  ghost function RunProcess(u: Setup, e: Event, st: Store, f: nat, answers: seq<seq<Obj>>): (r: (Store, seq<Obj>))
    requires Fits(u, st) && f < |st| && |answers| <= u.limit
    ensures |r.0| == |st|
    decreases u.rank(f), u.limit - |answers|
  {
    match u.next(f, e, answers)
    case Done(data) => (st, data)
    case Need(d) =>
      if d < |st| then
        var (st1, a) := Get(u, e, st, d);
        RunProcess(u, e, st1, f, answers + [a])
      else RunProcess(u, e, st, f, answers + [[]])
  }

  /** The event and its factories as objects. */
  class JEvent {
    const u: Setup
    const factories: seq<JFactory>

    ghost predicate Valid() {
      Acyclic(u) && |factories| == |u.flags| &&
      (forall i :: 0 <= i < |factories| ==> factories[i].flags == u.flags[i]) &&
      forall i, j :: 0 <= i < j < |factories| ==> factories[i] != factories[j]
    }

    ghost function View(): (st: Store)
      reads factories
      ensures |st| == |factories| && forall i :: 0 <= i < |factories| ==> st[i] == factories[i].State()
    {
      seq(|factories|, i requires 0 <= i < |factories| reads factories => factories[i].State())
    }

    constructor (u: Setup, factories: seq<JFactory>)
      ensures this.u == u && this.factories == factories
    {
      this.u, this.factories := u, factories;
    }

    /** JFactory::Create followed by handing out the data. */
    method GetData(e: Event, f: nat) returns (data: seq<Obj>)
      requires Valid() && f < |factories|
      modifies factories
      ensures (View(), data) == Get(u, e, old(View()), f)
      decreases u.rank(f), u.limit + 1
    {
      var process := factories[f].BeginCreate(e.run);
      assert View() == old(View())[f := Prepare(u.flags[f], old(View())[f], e.run)];
      if process {
        var result := UserProcess(e, f);
        ghost var st2 := View();
        factories[f].SetData(result);
        factories[f].EndCreate();
        assert View() == st2[f := Complete(Set(u.flags[f], st2[f], result))];
      }
      data := factories[f].data;
    }

    method UserProcess(e: Event, f: nat) returns (data: seq<Obj>)
      requires Valid() && f < |factories|
      modifies factories
      ensures (View(), data) == RunProcess(u, e, old(View()), f, [])
      decreases u.rank(f), u.limit
    {
      var answers: seq<seq<Obj>> := [];
      ghost var all := RunProcess(u, e, View(), f, []);
      while true
        invariant |answers| <= u.limit
        invariant RunProcess(u, e, View(), f, answers) == all
        decreases u.limit - |answers|
      {
        match u.next(f, e, answers)
        case Done(result) => return result;
        case Need(d) =>
          if d < |factories| {
            var a := GetData(e, d);
            answers := answers + [a];
          } else {
            answers := answers + [[]];
          }
      }
    }

    /** JFactorySet::Release. */
    method ReleaseAll()
      requires Valid()
      modifies factories
      ensures View() == Release(u, old(View()))
    {
      for i := 0 to |factories|
        invariant forall j :: 0 <= j < i ==> factories[j].State() == ClearData(u.flags[j], old(factories[j].State()))
        invariant forall j :: i <= j < |factories| ==> factories[j].State() == old(factories[j].State())
      {
        factories[i].Clear();
      }
    }
  }

  ghost function Release(u: Setup, st: Store): (r: Store)
    requires |st| == |u.flags|
    ensures |r| == |st| && forall i :: 0 <= i < |st| ==> r[i] == ClearData(u.flags[i], st[i])
  {
    seq(|st|, i requires 0 <= i < |st| => ClearData(u.flags[i], st[i]))
  }

  // ---- plain recursive evaluation

  /** The data of a factory worked out from a fixed store, without remembering anything. */
  ghost function Value(u: Setup, e: Event, st: Store, f: nat): seq<Obj>
    requires Fits(u, st) && f < |st|
    decreases u.rank(f), u.limit + 1
  {
    if MustProcess(u.flags[f], st[f]) then Eager(u, e, st, f, []) else st[f].data
  }

  ghost function Eager(u: Setup, e: Event, st: Store, f: nat, answers: seq<seq<Obj>>): seq<Obj>
    requires Fits(u, st) && f < |st| && |answers| <= u.limit
    decreases u.rank(f), u.limit - |answers|
  {
    match u.next(f, e, answers)
    case Done(data) => data
    case Need(d) => Eager(u, e, st, f, answers + [if d < |st| then Value(u, e, st, d) else []])
  }

  // ---- evaluation on demand gives the same data

  /** Data that is settled stays as it is; data that becomes settled is what evaluation gives. */
  ghost predicate Evolves(u: Setup, e: Event, st: Store, st': Store)
    requires Fits(u, st)
  {
    |st'| == |st| &&
    forall g: nat :: g < |st| ==>
      if MustProcess(u.flags[g], st[g]) then MustProcess(u.flags[g], st'[g]) || st'[g].data == Value(u, e, st, g)
      else !MustProcess(u.flags[g], st'[g]) && st'[g].data == st[g].data
  }

  lemma {:induction false} ValueStable(u: Setup, e: Event, st: Store, st': Store, f: nat)
    requires Fits(u, st) && Evolves(u, e, st, st') && f < |st|
    ensures Value(u, e, st', f) == Value(u, e, st, f)
    decreases u.rank(f), u.limit + 1
  {
    if MustProcess(u.flags[f], st'[f]) { EagerStable(u, e, st, st', f, []); }
  }

  lemma {:induction false} EagerStable(u: Setup, e: Event, st: Store, st': Store, f: nat, answers: seq<seq<Obj>>)
    requires Fits(u, st) && Evolves(u, e, st, st') && f < |st| && |answers| <= u.limit
    ensures Eager(u, e, st', f, answers) == Eager(u, e, st, f, answers)
    decreases u.rank(f), u.limit - |answers|
  {
    match u.next(f, e, answers)
    case Done(data) =>
    case Need(d) =>
      if d < |st| { ValueStable(u, e, st, st', d); }
      EagerStable(u, e, st, st', f, answers + [if d < |st| then Value(u, e, st, d) else []]);
  }

  lemma EvolvesTransitive(u: Setup, e: Event, a: Store, b: Store, c: Store)
    requires Fits(u, a) && Evolves(u, e, a, b) && Evolves(u, e, b, c)
    ensures Evolves(u, e, a, c)
  {
    forall g: nat | g < |a|
      ensures if MustProcess(u.flags[g], a[g]) then MustProcess(u.flags[g], c[g]) || c[g].data == Value(u, e, a, g)
              else !MustProcess(u.flags[g], c[g]) && c[g].data == a[g].data
    {
      ValueStable(u, e, a, b, g);
    }
  }

  /** How often Process has run. */
  function Runs(s: Factory): nat { |ProcessedRuns(s.calls)| }

  /** Process has run once more exactly where there was something to process and now is not. */
  ghost predicate Counted(u: Setup, st: Store, st': Store) {
    |st| == |st'| == |u.flags| &&
    forall g: nat :: g < |st| ==>
      Runs(st'[g]) ==
      Runs(st[g]) + (if MustProcess(u.flags[g], st[g]) && !MustProcess(u.flags[g], st'[g]) then 1 else 0)
  }

  /** Nothing of the given rank or above is touched, except perhaps `f`. */
  ghost predicate OnlyBelow(u: Setup, st: Store, st': Store, f: nat, r: nat) {
    |st| == |st'| && forall g: nat :: g < |st| && g != f && u.rank(g) >= r ==> st'[g] == st[g]
  }

  lemma PrepareLaw(fl: Flags, s: Factory, run: int)
    ensures var p := Prepare(fl, s, run);
            if MustProcess(fl, s) then p.status.Unprocessed? && Runs(p) == Runs(s) + 1 else p == s
  {
    PrepareRuns(fl, s, run);
  }

  lemma {:induction false} GetLaw(u: Setup, e: Event, st: Store, f: nat)
    requires Fits(u, st) && f < |st|
    ensures var (st', data) := Get(u, e, st, f);
            data == Value(u, e, st, f) && !MustProcess(u.flags[f], st'[f]) &&
            Evolves(u, e, st, st') && Counted(u, st, st') && OnlyBelow(u, st, st', f, u.rank(f))
    decreases u.rank(f), u.limit + 1
  {
    var p := Prepare(u.flags[f], st[f], e.run);
    var st1 := st[f := p];
    PrepareLaw(u.flags[f], st[f], e.run);
    if MustProcess(u.flags[f], st[f]) {
      EagerStable(u, e, st, st1, f, []);
      RunLaw(u, e, st1, f, []);
      var (st2, data) := RunProcess(u, e, st1, f, []);
      var done := Complete(Set(u.flags[f], p, data));
      FinishLaw(u, e, st1, st2, f, p, data, done);
      EvolvesTransitive(u, e, st, st1, st2[f := done]);
    } else {
      assert st1 == st;
    }
  }

  lemma FinishLaw(u: Setup, e: Event, st1: Store, st2: Store, f: nat, p: Factory, data: seq<Obj>, done: Factory)
    requires Fits(u, st1) && f < |st1| && st1[f] == p && p.status.Unprocessed? && Evolves(u, e, st1, st2) && st2[f] == p
    requires data == Eager(u, e, st1, f, []) && done == Complete(Set(u.flags[f], p, data))
    ensures Evolves(u, e, st1, st2[f := done])
    ensures !MustProcess(u.flags[f], done) && done.data == data && Runs(done) == Runs(p)
  {
  }

  lemma {:induction false} RunLaw(u: Setup, e: Event, st: Store, f: nat, answers: seq<seq<Obj>>)
    requires Fits(u, st) && f < |st| && |answers| <= u.limit
    ensures var (st', data) := RunProcess(u, e, st, f, answers);
            data == Eager(u, e, st, f, answers) && st'[f] == st[f] &&
            Evolves(u, e, st, st') && Counted(u, st, st') && OnlyBelow(u, st, st', f, u.rank(f))
    decreases u.rank(f), u.limit - |answers|
  {
    match u.next(f, e, answers)
    case Done(data) =>
    case Need(d) =>
      if d < |st| {
        var (st1, a) := Get(u, e, st, d);
        GetLaw(u, e, st, d);
        RunLaw(u, e, st1, f, answers + [a]);
        EagerStable(u, e, st, st1, f, answers + [a]);
        var (st2, data) := RunProcess(u, e, st1, f, answers + [a]);
        EvolvesTransitive(u, e, st, st1, st2);
        CountedTransitive(u, e, st, st1, st2);
      } else {
        RunLaw(u, e, st, f, answers + [[]]);
      }
  }

  lemma CountedTransitive(u: Setup, e: Event, a: Store, b: Store, c: Store)
    requires Fits(u, a) && Counted(u, a, b) && Counted(u, b, c) && Evolves(u, e, a, b) && Evolves(u, e, b, c)
    ensures Counted(u, a, c)
  {
  }

  // ---- a whole event

  /** Any sequence of requests in one event. */
  ghost function GetAll(u: Setup, e: Event, st: Store, fs: seq<nat>): (r: (Store, seq<seq<Obj>>))
    requires Fits(u, st) && forall i :: 0 <= i < |fs| ==> fs[i] < |st|
    ensures |r.0| == |st| && |r.1| == |fs|
  {
    if fs == [] then (st, [])
    else
      var front := fs[..|fs| - 1];
      var (st1, got) := GetAll(u, e, st, front);
      var (st2, a) := Get(u, e, st1, fs[|fs| - 1]);
      (st2, got + [a])
  }

  /** Every request got what plain recursive evaluation of the store gives. */
  ghost predicate Answered(u: Setup, e: Event, st: Store, fs: seq<nat>, got: seq<seq<Obj>>)
    requires Fits(u, st)
  {
    |got| == |fs| && forall i :: 0 <= i < |fs| ==> fs[i] < |st| && got[i] == Value(u, e, st, fs[i])
  }

  lemma AnsweredOneMore(u: Setup, e: Event, st: Store, front: seq<nat>, got: seq<seq<Obj>>, f: nat, a: seq<Obj>,
                        fs: seq<nat>)
    requires Fits(u, st) && Answered(u, e, st, front, got) && f < |st| && a == Value(u, e, st, f) && fs == front + [f]
    ensures Answered(u, e, st, fs, got + [a])
  {
  }

  /** For every sequence of requests: each gets what plain recursive evaluation of the initial store
      gives, and between releases each Process runs at most once, and not at all where there was
      nothing to process. Flags of all kinds are allowed. */
  lemma {:induction false} EventLaw(u: Setup, e: Event, st: Store, fs: seq<nat>)
    requires Fits(u, st) && forall i :: 0 <= i < |fs| ==> fs[i] < |st|
    ensures var (st', got) := GetAll(u, e, st, fs);
            Answered(u, e, st, fs, got) && Evolves(u, e, st, st') && Counted(u, st, st')
  {
    if fs != [] {
      var front, last := fs[..|fs| - 1], fs[|fs| - 1];
      var (st1, got) := GetAll(u, e, st, front);
      EventLaw(u, e, st, front);
      GetLaw(u, e, st1, last);
      ValueStable(u, e, st, st1, last);
      var (st2, a) := Get(u, e, st1, last);
      EvolvesTransitive(u, e, st, st1, st2);
      CountedTransitive(u, e, st, st1, st2);
      AnsweredOneMore(u, e, st, front, got, last, a, fs);
    }
  }

  // ---- what that value is, after a release and some insertions

  /** Recursive evaluation from the inserted data alone; inserted data comes first unless the
      factory is to regenerate it. */
  ghost function Pure(u: Setup, e: Event, inserted: map<nat, seq<Obj>>, f: nat): seq<Obj>
    requires Acyclic(u) && f < |u.flags|
    decreases u.rank(f), u.limit + 1
  {
    if f in inserted && (u.flags[f].persistent || !u.flags[f].regenerate) then inserted[f]
    else PureRun(u, e, inserted, f, [])
  }

  ghost function PureRun(u: Setup, e: Event, inserted: map<nat, seq<Obj>>, f: nat, answers: seq<seq<Obj>>): seq<Obj>
    requires Acyclic(u) && f < |u.flags| && |answers| <= u.limit
    decreases u.rank(f), u.limit - |answers|
  {
    match u.next(f, e, answers)
    case Done(data) => data
    case Need(d) => PureRun(u, e, inserted, f, answers + [if d < |u.flags| then Pure(u, e, inserted, d) else []])
  }

  /** The store holds exactly this data; everything else has still to be computed. */
  ghost predicate HoldsOnly(u: Setup, st: Store, inserted: map<nat, seq<Obj>>) {
    |st| == |u.flags| &&
    forall g: nat :: g < |st| ==>
      if g in inserted then
        st[g].data == inserted[g] &&
        (MustProcess(u.flags[g], st[g]) <==> u.flags[g].regenerate && !u.flags[g].persistent)
      else MustProcess(u.flags[g], st[g])
  }

  lemma {:induction false} ValueIsPure(u: Setup, e: Event, st: Store, inserted: map<nat, seq<Obj>>, f: nat)
    requires Fits(u, st) && HoldsOnly(u, st, inserted) && f < |st|
    ensures Value(u, e, st, f) == Pure(u, e, inserted, f)
    decreases u.rank(f), u.limit + 1
  {
    if MustProcess(u.flags[f], st[f]) { EagerIsPure(u, e, st, inserted, f, []); }
  }

  lemma {:induction false} EagerIsPure(u: Setup, e: Event, st: Store, inserted: map<nat, seq<Obj>>, f: nat,
                                       answers: seq<seq<Obj>>)
    requires Fits(u, st) && HoldsOnly(u, st, inserted) && f < |st| && |answers| <= u.limit
    ensures Eager(u, e, st, f, answers) == PureRun(u, e, inserted, f, answers)
    decreases u.rank(f), u.limit - |answers|
  {
    match u.next(f, e, answers)
    case Done(data) =>
    case Need(d) =>
      if d < |st| { ValueIsPure(u, e, st, inserted, d); }
      EagerIsPure(u, e, st, inserted, f, answers + [if d < |st| then Value(u, e, st, d) else []]);
  }

  /** Inserting a list of objects into a factory. */
  ghost function InsertAll(s: Factory, objs: seq<Obj>): Factory {
    if objs == [] then Hold(s, s.data) else Insert(InsertAll(s, objs[..|objs| - 1]), objs[|objs| - 1])
  }

  lemma {:induction false} InsertAllHolds(s: Factory, objs: seq<Obj>)
    ensures InsertAll(s, objs).status.Inserted? && InsertAll(s, objs).data == s.data + objs
  {
    if objs != [] {
      var front := objs[..|objs| - 1];
      InsertAllHolds(s, front);
      assert s.data + objs == (s.data + front) + [objs[|objs| - 1]];
    }
  }

  /** The store at the start of an event: released, then filled by the event source. */
  ghost function Filled(u: Setup, st: Store, inserted: map<nat, seq<Obj>>): Store
    requires |st| == |u.flags|
  {
    var released := Release(u, st);
    seq(|st|, g requires 0 <= g < |st| => if g in inserted then InsertAll(released[g], inserted[g]) else released[g])
  }

  /** An event, what its source inserts into it, and what is asked of it, in order. */
  datatype Input = Input(event: Event, inserted: map<nat, seq<Obj>>, requests: seq<nat>)

  ghost predicate Answerable(u: Setup, input: Input) {
    forall j :: 0 <= j < |input.requests| ==> input.requests[j] < |u.flags|
  }

  /** Every request got what recursive evaluation from the data inserted into the event gives. */
  ghost predicate Right(u: Setup, input: Input, got: seq<seq<Obj>>)
    requires Acyclic(u) && Answerable(u, input)
  {
    |got| == |input.requests| &&
    forall j :: 0 <= j < |got| ==> got[j] == Pure(u, input.event, input.inserted, input.requests[j])
  }

  /** No factory holds data that it has still to process. */
  ghost predicate Settled(st: Store) { forall g: nat :: g < |st| ==> EmptyUntilProcessed(st[g]) }

  ghost predicate NonePersistent(u: Setup) { forall g: nat :: g < |u.flags| ==> !u.flags[g].persistent }

  ghost predicate RunsAtMost(st: Store, st': Store) {
    |st| == |st'| && forall g: nat :: g < |st| ==> Runs(st'[g]) <= Runs(st[g]) + 1
  }

  /** One event without persistent factories, from a settled store. */
  lemma EventIsPure(u: Setup, st: Store, input: Input)
    requires Fits(u, st) && NonePersistent(u) && Settled(st) && Answerable(u, input)
    ensures var (st', got) := GetAll(u, input.event, Filled(u, st, input.inserted), input.requests);
            Right(u, input, got) && RunsAtMost(st, st')
  {
    var filled, inserted := Filled(u, st, input.inserted), input.inserted;
    forall g: nat | g < |st|
      ensures if g in inserted then filled[g].status.Inserted? && filled[g].data == inserted[g]
              else MustProcess(u.flags[g], filled[g])
      ensures Runs(filled[g]) == Runs(st[g])
    {
      var released := ClearData(u.flags[g], st[g]);
      if g in inserted {
        InsertAllHolds(released, inserted[g]);
        InsertAllCalls(released, inserted[g]);
        assert [] + inserted[g] == inserted[g];
      }
    }
    EventLaw(u, input.event, filled, input.requests);
    forall i | 0 <= i < |input.requests|
      ensures Value(u, input.event, filled, input.requests[i]) == Pure(u, input.event, inserted, input.requests[i])
    {
      ValueIsPure(u, input.event, filled, inserted, input.requests[i]);
    }
  }

  lemma {:induction false} InsertAllCalls(s: Factory, objs: seq<Obj>)
    ensures InsertAll(s, objs).calls == s.calls
  {
    if objs != [] { InsertAllCalls(s, objs[..|objs| - 1]); }
  }

  // ---- any sequence of events

  lemma {:induction false} GetKeepsSettled(u: Setup, e: Event, st: Store, f: nat)
    requires Fits(u, st) && f < |st| && Settled(st)
    ensures Settled(Get(u, e, st, f).0)
    decreases u.rank(f), u.limit + 1
  {
    var st1 := st[f := Prepare(u.flags[f], st[f], e.run)];
    assert EmptyUntilProcessed(st1[f]);
    if MustProcess(u.flags[f], st[f]) { RunKeepsSettled(u, e, st1, f, []); }
  }

  lemma {:induction false} RunKeepsSettled(u: Setup, e: Event, st: Store, f: nat, answers: seq<seq<Obj>>)
    requires Fits(u, st) && f < |st| && |answers| <= u.limit && Settled(st)
    ensures Settled(RunProcess(u, e, st, f, answers).0)
    decreases u.rank(f), u.limit - |answers|
  {
    match u.next(f, e, answers)
    case Done(_) =>
    case Need(d) =>
      if d < |st| {
        GetKeepsSettled(u, e, st, d);
        var (st1, a) := Get(u, e, st, d);
        RunKeepsSettled(u, e, st1, f, answers + [a]);
      } else {
        RunKeepsSettled(u, e, st, f, answers + [[]]);
      }
  }

  lemma {:induction false} GetAllKeepsSettled(u: Setup, e: Event, st: Store, fs: seq<nat>)
    requires Fits(u, st) && Settled(st) && forall i :: 0 <= i < |fs| ==> fs[i] < |st|
    ensures Settled(GetAll(u, e, st, fs).0)
  {
    if fs != [] {
      GetAllKeepsSettled(u, e, st, fs[..|fs| - 1]);
      GetKeepsSettled(u, e, GetAll(u, e, st, fs[..|fs| - 1]).0, fs[|fs| - 1]);
    }
  }

  lemma FilledKeepsSettled(u: Setup, st: Store, inserted: map<nat, seq<Obj>>)
    requires |st| == |u.flags| && Settled(st)
    ensures Settled(Filled(u, st, inserted))
  {
    forall g: nat | g < |st| && g in inserted
      ensures InsertAll(ClearData(u.flags[g], st[g]), inserted[g]).status.Inserted?
    {
      InsertAllInserts(ClearData(u.flags[g], st[g]), inserted[g]);
    }
  }

  lemma InsertAllInserts(s: Factory, objs: seq<Obj>)
    ensures InsertAll(s, objs).status.Inserted?
  {
  }

  ghost predicate AllAnswerable(u: Setup, inputs: seq<Input>) {
    forall k :: 0 <= k < |inputs| ==> Answerable(u, inputs[k])
  }

  /** One event after the other, from new factories; every event starts with a release. */
  ghost function Events(u: Setup, inputs: seq<Input>): (r: (Store, seq<seq<seq<Obj>>>))
    requires Acyclic(u) && AllAnswerable(u, inputs)
    ensures |r.0| == |u.flags| && |r.1| == |inputs|
  {
    if inputs == [] then (seq(|u.flags|, _ => NEW_FACTORY), [])
    else
      var (st, got) := Events(u, inputs[..|inputs| - 1]);
      var input := inputs[|inputs| - 1];
      var (st', data) := GetAll(u, input.event, Filled(u, st, input.inserted), input.requests);
      (st', got + [data])
  }

  lemma {:induction false} EventsSettled(u: Setup, inputs: seq<Input>)
    requires Acyclic(u) && AllAnswerable(u, inputs)
    ensures Settled(Events(u, inputs).0)
  {
    if inputs != [] {
      var input, st := inputs[|inputs| - 1], Events(u, inputs[..|inputs| - 1]).0;
      EventsSettled(u, inputs[..|inputs| - 1]);
      FilledKeepsSettled(u, st, input.inserted);
      GetAllKeepsSettled(u, input.event, Filled(u, st, input.inserted), input.requests);
    }
  }

  ghost predicate AllRight(u: Setup, inputs: seq<Input>, got: seq<seq<seq<Obj>>>)
    requires Acyclic(u) && AllAnswerable(u, inputs)
  {
    |got| == |inputs| && forall k :: 0 <= k < |inputs| ==> Right(u, inputs[k], got[k])
  }

  lemma AllRightOneMore(u: Setup, front: seq<Input>, got: seq<seq<seq<Obj>>>, input: Input, data: seq<seq<Obj>>,
                        inputs: seq<Input>)
    requires Acyclic(u) && AllAnswerable(u, inputs) && AllAnswerable(u, front) && AllRight(u, front, got)
    requires inputs == front + [input] && Answerable(u, input) && Right(u, input, data)
    ensures AllRight(u, inputs, got + [data])
  {
  }

  ghost predicate NoMoreRunsThan(st: Store, n: nat) { forall g: nat :: g < |st| ==> Runs(st[g]) <= n }

  lemma OneRunMore(st: Store, st': Store, n: nat)
    requires NoMoreRunsThan(st, n) && RunsAtMost(st, st')
    ensures NoMoreRunsThan(st', n + 1)
  {
  }

  /** Over every sequence of events, without persistent factories: every request of every event gets
      what recursive evaluation from the data inserted into that event gives, and no Process runs
      more often than there are events. */
  lemma {:induction false} EventsArePure(u: Setup, inputs: seq<Input>)
    requires Acyclic(u) && AllAnswerable(u, inputs) && NonePersistent(u)
    ensures AllRight(u, inputs, Events(u, inputs).1) && NoMoreRunsThan(Events(u, inputs).0, |inputs|)
  {
    if inputs != [] {
      var front, input := inputs[..|inputs| - 1], inputs[|inputs| - 1];
      var (st, got) := Events(u, front);
      var (st', data) := GetAll(u, input.event, Filled(u, st, input.inserted), input.requests);
      EventsArePure(u, front);
      EventsSettled(u, front);
      EventIsPure(u, st, input);
      AllRightOneMore(u, front, got, input, data, inputs);
      OneRunMore(st, st', |front|);
    }
  }
}
