/** One factory: its status, the data it holds and owns, and the callbacks it makes. */
module Factories {
  import opened RunCallbacks

  type Obj = nat  // the identity of a data object

  datatype FactoryStatus = Uninitialized | Unprocessed | Processed | Inserted

  datatype CreationStatus = NotCreatedYet | Created | InsertedFrom

  datatype Flags = Flags(persistent: bool, notOwner: bool, regenerate: bool)

  /** The program's fields, plus the callbacks made and the objects deleted so far. */
  datatype Factory = Factory(
    status: FactoryStatus, creation: CreationStatus, previousRun: int,
    data: seq<Obj>, calls: seq<Call>, deleted: seq<Obj>)

  const NEW_FACTORY := Factory(Uninitialized, NotCreatedYet, NO_RUN, [], [], [])

  // ---- the operations on one factory

  function ClearData(fl: Flags, s: Factory): Factory {
    if s.status.Uninitialized? || fl.persistent then s
    else
      var deleted := if fl.notOwner then s.deleted else s.deleted + s.data;
      Factory(Unprocessed, NotCreatedYet, s.previousRun, [], s.calls, deleted)
  }

  function Hold(s: Factory, objs: seq<Obj>): Factory {
    s.(data := objs, status := Inserted, creation := InsertedFrom)
  }

  /** Set by reference: a vector equal to the one held is kept as it is. */
  function Set(fl: Flags, s: Factory, objs: seq<Obj>): Factory {
    Hold(if objs == s.data then s else ClearData(fl, s), objs)
  }

  /** Set by move: whatever is held is cleared first. */
  function SetMoved(fl: Flags, s: Factory, objs: seq<Obj>): Factory {
    Hold(ClearData(fl, s), objs)
  }

  function Insert(s: Factory, obj: Obj): Factory {
    Hold(s, s.data + [obj])
  }

  function DoInit(s: Factory): Factory {
    if s.status.Uninitialized? then s.(status := Unprocessed, calls := s.calls + [Init]) else s
  }

  /** Whether a request for the data has to run Process. */
  predicate MustProcess(fl: Flags, s: Factory) {
    s.status.Uninitialized? || s.status.Unprocessed? || (s.status.Inserted? && fl.regenerate && !fl.persistent)
  }

  /** Create up to and including the call of Process. */
  function Prepare(fl: Flags, s: Factory, run: int): Factory {
    var s1 := DoInit(s);
    var s2 := if fl.regenerate && s1.status.Inserted? then ClearData(fl, s1) else s1;
    if s2.status.Unprocessed? then
      s2.(calls := s2.calls + EventCalls(s2.previousRun, run, true), previousRun := run)
    else s2
  }

  /** Create after Process has returned. */
  function Complete(s: Factory): Factory {
    s.(status := Processed, creation := Created)
  }

  class JFactory {
    const flags: Flags
    var status: FactoryStatus
    var creation: CreationStatus
    var previousRun: int
    var data: seq<Obj>
    var calls: seq<Call>
    var deleted: seq<Obj>

    function State(): Factory
      reads this
    {
      Factory(status, creation, previousRun, data, calls, deleted)
    }

    constructor (flags: Flags)
      ensures this.flags == flags && State() == NEW_FACTORY
    {
      this.flags := flags;
      status, creation, previousRun, data, calls, deleted := Uninitialized, NotCreatedYet, NO_RUN, [], [], [];
    }

    method Clear()
      modifies this
      ensures State() == ClearData(flags, old(State()))
    {
      if status == Uninitialized { return; }
      if flags.persistent { return; }
      if !flags.notOwner {
        for i := 0 to |data|
          invariant data == old(data)
          invariant State() == old(State()).(deleted := old(deleted) + data[..i])
        {
          deleted := deleted + [data[i]];
        }
        assert data[..|data|] == data;
      }
      data, status, creation := [], Unprocessed, NotCreatedYet;
    }

    method SetData(objs: seq<Obj>)
      modifies this
      ensures State() == Set(flags, old(State()), objs)
    {
      if objs == data {
        status, creation := Inserted, InsertedFrom;
      } else {
        Clear();
        data, status, creation := objs, Inserted, InsertedFrom;
      }
    }

    method MoveData(objs: seq<Obj>)
      modifies this
      ensures State() == SetMoved(flags, old(State()), objs)
    {
      Clear();
      data, status, creation := objs, Inserted, InsertedFrom;
    }

    method InsertDatum(obj: Obj)
      modifies this
      ensures State() == Insert(old(State()), obj)
    {
      data := data + [obj];
      status, creation := Inserted, InsertedFrom;
    }

    method Initialize()
      modifies this
      ensures State() == DoInit(old(State()))
    {
      if status == Uninitialized {
        calls := calls + [Init];
        status := Unprocessed;
      }
    }

    /** Create, up to the call of the user's Process; `process` tells whether it is made. */
    method BeginCreate(run: int) returns (process: bool)
      modifies this
      ensures State() == Prepare(flags, old(State()), run)
      ensures process == MustProcess(flags, old(State()))
    {
      if status == Uninitialized {
        calls := calls + [Init];
        status := Unprocessed;
      }
      if flags.regenerate && status == Inserted {
        Clear();
      }
      process := status == Unprocessed;
      if process {
        if previousRun == NO_RUN {
          calls := calls + [ChangeRun(run), BeginRun(run)];
          previousRun := run;
        } else if previousRun != run {
          calls := calls + [EndRun, ChangeRun(run), BeginRun(run)];
          previousRun := run;
        }
        calls := calls + [Process(run)];
      }
    }

    method EndCreate()
      modifies this
      ensures State() == Complete(old(State()))
    {
      status, creation := Processed, Created;
    }
  }

  // ---- histories

  datatype Op =
    | OpInit
    | OpInsert(obj: Obj)
    | OpSet(objs: seq<Obj>)
    | OpMove(objs: seq<Obj>)
    | OpCreate(run: int, objs: seq<Obj>)  // Process hands over these objects if it runs
    | OpClear

  function Step(fl: Flags, s: Factory, op: Op): Factory {
    match op
    case OpInit => DoInit(s)
    case OpInsert(obj) => Insert(s, obj)
    case OpSet(objs) => Set(fl, s, objs)
    case OpMove(objs) => SetMoved(fl, s, objs)
    case OpCreate(run, objs) =>
      if MustProcess(fl, s) then Complete(Set(fl, Prepare(fl, s, run), objs)) else Prepare(fl, s, run)
    case OpClear => ClearData(fl, s)
  }

  function After(fl: Flags, ops: seq<Op>): Factory {
    if ops == [] then NEW_FACTORY else Step(fl, After(fl, ops[..|ops| - 1]), ops[|ops| - 1])
  }

  // ---- who owns what

  /** Nothing is held before initialisation or while there is something to process. */
  ghost predicate EmptyUntilProcessed(s: Factory) {
    s.status.Uninitialized? || s.status.Unprocessed? ==> s.data == []
  }

  ghost predicate NoRepeats(objs: seq<Obj>) {
    forall o :: multiset(objs)[o] <= 1
  }

  /** No object is held twice, deleted twice, or held after it was deleted. */
  ghost predicate Sound(s: Factory) {
    NoRepeats(s.data + s.deleted)
  }

  /** The objects an operation hands over. */
  function Handed(fl: Flags, s: Factory, op: Op): seq<Obj> {
    match op
    case OpInsert(obj) => [obj]
    case OpSet(objs) => if objs == s.data then [] else objs
    case OpMove(objs) => objs
    case OpCreate(_, objs) => if MustProcess(fl, s) then objs else []
    case _ => []
  }

  ghost predicate Owning(fl: Flags) { !fl.notOwner && !fl.persistent }

  lemma StepEmptyUntilProcessed(fl: Flags, s: Factory, op: Op)
    requires EmptyUntilProcessed(s)
    ensures EmptyUntilProcessed(Step(fl, s, op))
  {
  }

  ghost function Kept(s: Factory): multiset<Obj> { multiset(s.data) + multiset(s.deleted) }

  lemma ClearKeeps(fl: Flags, s: Factory)
    requires Owning(fl) && EmptyUntilProcessed(s)
    ensures Kept(ClearData(fl, s)) == Kept(s) && (!s.status.Uninitialized? ==> ClearData(fl, s).data == [])
    ensures ClearData(fl, s).data == []
  {
  }

  /** Every operation of an owning factory conserves objects: what it holds and what it has deleted
      grow by exactly what is handed over. */
  lemma StepConserves(fl: Flags, s: Factory, op: Op)
    requires Owning(fl) && EmptyUntilProcessed(s)
    ensures Kept(Step(fl, s, op)) == Kept(s) + multiset(Handed(fl, s, op))
  {
    ClearKeeps(fl, s);
    match op
    case OpCreate(run, objs) =>
      PrepareKeeps(fl, s, run);
      if MustProcess(fl, s) { SetKeeps(fl, Prepare(fl, s, run), objs); }
    case OpSet(objs) => SetKeeps(fl, s, objs);
    case _ =>
  }

  lemma PrepareKeeps(fl: Flags, s: Factory, run: int)
    requires Owning(fl) && EmptyUntilProcessed(s)
    ensures var p := Prepare(fl, s, run);
            Kept(p) == Kept(s) && EmptyUntilProcessed(p) && (MustProcess(fl, s) ==> p.data == [])
  {
    ClearKeeps(fl, s);
  }

  lemma SetKeeps(fl: Flags, s: Factory, objs: seq<Obj>)
    requires Owning(fl) && EmptyUntilProcessed(s)
    ensures Kept(Set(fl, s, objs)) == Kept(s) + multiset(if objs == s.data then [] else objs)
  {
    ClearKeeps(fl, s);
  }

  lemma SoundMeaning(s: Factory)
    ensures Sound(s) <==> forall o :: Kept(s)[o] <= 1
  {
    assert multiset(s.data + s.deleted) == Kept(s);
  }

  /** Exactly when an operation keeps ownership sound: the objects handed over are all different
      and none of them is held or was deleted before. A vector equal to the one held hands over
      nothing when it is set by reference. */
  lemma StepSoundExact(fl: Flags, s: Factory, op: Op)
    requires Owning(fl) && EmptyUntilProcessed(s) && Sound(s)
    ensures var h := Handed(fl, s, op);
            Sound(Step(fl, s, op)) <==> NoRepeats(h) && forall o :: o in h ==> o !in s.data && o !in s.deleted
  {
    var h, t := Handed(fl, s, op), Step(fl, s, op);
    StepConserves(fl, s, op);
    SoundMeaning(s);
    SoundMeaning(t);
    assert forall o :: o in h <==> multiset(h)[o] > 0;
    assert forall o :: o in s.data || o in s.deleted <==> Kept(s)[o] > 0;
    if Sound(t) {
      forall o ensures multiset(h)[o] <= 1 { assert Kept(t)[o] == Kept(s)[o] + multiset(h)[o]; }
      forall o | o in h ensures o !in s.data && o !in s.deleted { assert Kept(t)[o] == Kept(s)[o] + multiset(h)[o]; }
    }
    if NoRepeats(h) && forall o :: o in h ==> o !in s.data && o !in s.deleted {
      forall o ensures Kept(t)[o] <= 1 { assert Kept(t)[o] == Kept(s)[o] + multiset(h)[o]; }
    }
  }

  /** All objects handed over in a history. */
  function AllHanded(fl: Flags, ops: seq<Op>): seq<Obj> {
    if ops == [] then []
    else AllHanded(fl, ops[..|ops| - 1]) + Handed(fl, After(fl, ops[..|ops| - 1]), ops[|ops| - 1])
  }

  lemma {:induction false} HistoryConserves(fl: Flags, ops: seq<Op>)
    requires Owning(fl)
    ensures EmptyUntilProcessed(After(fl, ops)) && Kept(After(fl, ops)) == multiset(AllHanded(fl, ops))
  {
    if ops != [] {
      var front := ops[..|ops| - 1];
      HistoryConserves(fl, front);
      StepEmptyUntilProcessed(fl, After(fl, front), ops[|ops| - 1]);
      StepConserves(fl, After(fl, front), ops[|ops| - 1]);
    }
  }

  /** Over any history of an owning factory, if no object is handed over twice then each one is
      either held once or has been deleted exactly once, and conversely. */
  lemma OwnedExactlyOnce(fl: Flags, ops: seq<Op>)
    requires Owning(fl)
    ensures Sound(After(fl, ops)) <==> NoRepeats(AllHanded(fl, ops))
    ensures forall o :: o in AllHanded(fl, ops) <==> o in After(fl, ops).data || o in After(fl, ops).deleted
  {
    var s, h := After(fl, ops), AllHanded(fl, ops);
    HistoryConserves(fl, ops);
    SoundMeaning(s);
    forall o ensures o in h <==> o in s.data || o in s.deleted {
      assert o in h <==> multiset(h)[o] > 0;
      assert o in s.data || o in s.deleted <==> Kept(s)[o] > 0;
    }
  }

  /** A factory that does not own its objects, or keeps them for good, never deletes any. */
  lemma {:induction false} OthersNeverDelete(fl: Flags, ops: seq<Op>)
    requires !Owning(fl)
    ensures After(fl, ops).deleted == []
  {
    if ops != [] { OthersNeverDelete(fl, ops[..|ops| - 1]); }
  }

  // ---- persistent factories

  predicate Fills(op: Op) { op.OpInsert? || op.OpSet? || op.OpMove? }

  /** Whether the factory has been asked for its data, or filled from outside. */
  ghost predicate Used(ops: seq<Op>) { exists i :: 0 <= i < |ops| && (Fills(ops[i]) || ops[i].OpCreate?) }

  lemma UsedSnoc(front: seq<Op>, op: Op)
    ensures Used(front + [op]) <==> Used(front) || Fills(op) || op.OpCreate?
  {
    var ops := front + [op];
    if Used(front) {
      var i :| 0 <= i < |front| && (Fills(front[i]) || front[i].OpCreate?);
      assert ops[i] == front[i];
    }
    assert ops[|front|] == op;
  }

  /** A persistent factory has something to process if and only if it was never used. */
  lemma {:induction false} PersistentStatus(fl: Flags, ops: seq<Op>)
    requires fl.persistent
    ensures MustProcess(fl, After(fl, ops)) <==> !Used(ops)
  {
    if ops != [] {
      var front, op := ops[..|ops| - 1], ops[|ops| - 1];
      assert ops == front + [op];
      PersistentStatus(fl, front);
      UsedSnoc(front, op);
    }
  }

  /** Once a persistent factory has been used, requests and clearings change nothing at all, until
      it is filled from outside. */
  lemma {:induction false} PersistentStays(fl: Flags, ops: seq<Op>, k: nat)
    requires fl.persistent && k <= |ops| && Used(ops[..k])
    requires forall i :: k <= i < |ops| ==> !Fills(ops[i])
    ensures After(fl, ops) == After(fl, ops[..k])
    decreases |ops|
  {
    if k == |ops| {
      assert ops[..k] == ops;
    } else {
      var front, op := ops[..|ops| - 1], ops[|ops| - 1];
      assert front[..k] == ops[..k];
      PersistentStays(fl, front, k);
      PersistentStatus(fl, ops[..k]);
    }
  }

  lemma {:induction false} UnusedIsEmpty(fl: Flags, ops: seq<Op>)
    requires !Used(ops)
    ensures After(fl, ops).data == [] && HistoryRuns(fl, ops) == []
  {
    if ops != [] {
      var front, op := ops[..|ops| - 1], ops[|ops| - 1];
      assert ops == front + [op];
      UsedSnoc(front, op);
      UnusedIsEmpty(fl, front);
    }
  }

  /** Whether the first use is a request for the data. */
  predicate AskedFirst(ops: seq<Op>) {
    ops != [] && (ops[0].OpCreate? || (!Fills(ops[0]) && AskedFirst(ops[1..])))
  }

  lemma {:induction false} AskedFirstSnoc(front: seq<Op>, op: Op)
    ensures AskedFirst(front + [op]) <==> if Used(front) then AskedFirst(front) else op.OpCreate?
    decreases |front|
  {
    var ops := front + [op];
    if front == [] {
      assert ops == [op];
    } else {
      assert ops[1..] == front[1..] + [op];
      AskedFirstSnoc(front[1..], op);
      UsedFirst(front);
    }
  }

  lemma UsedFirst(ops: seq<Op>)
    requires ops != []
    ensures Used(ops) <==> Fills(ops[0]) || ops[0].OpCreate? || Used(ops[1..])
  {
    if Used(ops[1..]) {
      var i :| 0 <= i < |ops[1..]| && (Fills(ops[1..][i]) || ops[1..][i].OpCreate?);
      assert ops[i + 1] == ops[1..][i];
    }
    if Used(ops) && !Fills(ops[0]) && !ops[0].OpCreate? {
      var i :| 0 <= i < |ops| && (Fills(ops[i]) || ops[i].OpCreate?);
      assert ops[1..][i - 1] == ops[i];
    }
  }

  /** A persistent factory runs its Process at most once over any history, and that if and only if its
      data is asked for before it is filled from outside. */
  lemma {:induction false} PersistentRunsOnce(fl: Flags, ops: seq<Op>)
    requires fl.persistent
    ensures |ProcessedRuns(After(fl, ops).calls)| == if AskedFirst(ops) then 1 else 0
  {
    HistoryRunsProcessed(fl, ops);
    if ops != [] {
      var front, op := ops[..|ops| - 1], ops[|ops| - 1];
      assert ops == front + [op];
      PersistentRunsOnce(fl, front);
      HistoryRunsProcessed(fl, front);
      PersistentStatus(fl, front);
      AskedFirstSnoc(front, op);
      if !Used(front) { UnusedIsEmpty(fl, front); }
    }
  }

  // ---- where the data came from

  /** The creation status says where the data came from: nowhere yet, Process, or outside. */
  lemma {:induction false} CreationKnown(fl: Flags, ops: seq<Op>)
    ensures match After(fl, ops).creation
            case NotCreatedYet => After(fl, ops).status.Uninitialized? || After(fl, ops).status.Unprocessed?
            case Created => After(fl, ops).status.Processed?
            case InsertedFrom => After(fl, ops).status.Inserted?
  {
    if ops != [] { CreationKnown(fl, ops[..|ops| - 1]); }
  }

  /** The data a history leaves: what was handed over last and not cleared since, and what has been
      inserted after that. */
  function Contents(fl: Flags, ops: seq<Op>): seq<Obj> {
    if ops == [] then []
    else
      var front := ops[..|ops| - 1];
      match ops[|ops| - 1]
      case OpInit => Contents(fl, front)
      case OpInsert(obj) => Contents(fl, front) + [obj]
      case OpSet(objs) => objs
      case OpMove(objs) => objs
      case OpCreate(_, objs) => if MustProcess(fl, After(fl, front)) then objs else Contents(fl, front)
      case OpClear => if fl.persistent then Contents(fl, front) else []
  }

  lemma {:induction false} HistoryContents(fl: Flags, ops: seq<Op>)
    ensures After(fl, ops).data == Contents(fl, ops) && EmptyUntilProcessed(After(fl, ops))
  {
    if ops != [] {
      HistoryContents(fl, ops[..|ops| - 1]);
      StepEmptyUntilProcessed(fl, After(fl, ops[..|ops| - 1]), ops[|ops| - 1]);
    }
  }

  // ---- callbacks over histories

  lemma EventCallsRuns(prev: int, run: int)
    ensures ProcessedRuns(EventCalls(prev, run, true)) == [run]
  {
    var calls := EventCalls(prev, run, true);
    assert calls[..|calls| - 1] == Announce(prev, run, true);
    if prev == NO_RUN {
      assert Announce(prev, run, true) == [ChangeRun(run)] + [BeginRun(run)];
      ProcessedRunsConcat([ChangeRun(run)], [BeginRun(run)]);
    } else if prev != run {
      assert Announce(prev, run, true) == [EndRun] + ([ChangeRun(run)] + [BeginRun(run)]);
      ProcessedRunsConcat([EndRun], [ChangeRun(run)] + [BeginRun(run)]);
      ProcessedRunsConcat([ChangeRun(run)], [BeginRun(run)]);
    }
  }

  /** The callbacks are Init, if it was called at all, followed by the trace of the processed events. */
  ghost predicate CallsAreTrace(s: Factory, initialised: bool) {
    var runs := ProcessedRuns(s.calls);
    s.calls == (if initialised then [Init] else []) + Trace(runs, true) &&
    s.previousRun == LastRun(runs) &&
    (s.status.Uninitialized? ==> s.calls == [])
  }

  lemma SameCalls(s: Factory, t: Factory, initialised: bool)
    requires CallsAreTrace(s, initialised) && t.calls == s.calls && t.previousRun == s.previousRun
    requires t.status.Uninitialized? ==> s.status.Uninitialized?
    ensures CallsAreTrace(t, initialised)
  {
  }

  lemma AppendToTrace(i: seq<Call>, trace: seq<Call>, event: seq<Call>)
    ensures (i + trace) + event == i + (trace + event)
  {
  }

  lemma ProcessExtendsTrace(s: Factory, initialised: bool, run: int, t: Factory)
    requires CallsAreTrace(s, initialised) && !s.status.Uninitialized?
    requires t == s.(calls := s.calls + EventCalls(s.previousRun, run, true), previousRun := run)
    ensures CallsAreTrace(t, initialised)
  {
    var runs := ProcessedRuns(s.calls);
    var event := EventCalls(s.previousRun, run, true);
    ProcessedRunsConcat(s.calls, event);
    EventCallsRuns(s.previousRun, run);
    TraceSnoc(runs, run, true);
    AppendToTrace(if initialised then [Init] else [], Trace(runs, true), event);
  }

  lemma InitStartsTrace(s: Factory, initialised: bool)
    requires CallsAreTrace(s, initialised) && (s.status.Uninitialized? ==> !initialised)
    ensures CallsAreTrace(DoInit(s), initialised || s.status.Uninitialized?)
  {
    if s.status.Uninitialized? {
      assert s.calls + [Init] == [Init] + [];
      assert ProcessedRuns([Init]) == [];
    }
  }

  lemma PrepareExtendsTrace(fl: Flags, s: Factory, initialised: bool, run: int)
    requires CallsAreTrace(s, initialised) && (s.status.Uninitialized? ==> !initialised)
    ensures CallsAreTrace(Prepare(fl, s, run), initialised || s.status.Uninitialized?)
    ensures !Prepare(fl, s, run).status.Uninitialized?
  {
    var started := initialised || s.status.Uninitialized?;
    var s1 := DoInit(s);
    InitStartsTrace(s, initialised);
    var s2 := if fl.regenerate && s1.status.Inserted? then ClearData(fl, s1) else s1;
    SameCalls(s1, s2, started);
    if s2.status.Unprocessed? { ProcessExtendsTrace(s2, started, run, Prepare(fl, s, run)); }
  }

  predicate Starts(op: Op) { op.OpInit? || op.OpCreate? }

  lemma StepStatus(fl: Flags, s: Factory, op: Op)
    ensures Step(fl, s, op).status.Uninitialized? <==> s.status.Uninitialized? && op.OpClear?
  {
  }

  lemma StepCalls(fl: Flags, s: Factory, op: Op)
    ensures var t := Step(fl, s, op);
            var u := if op.OpCreate? then Prepare(fl, s, op.run) else if op.OpInit? then DoInit(s) else s;
            t.calls == u.calls && t.previousRun == u.previousRun
  {
  }

  lemma StepKeepsTrace(fl: Flags, s: Factory, op: Op, initialised: bool)
    requires CallsAreTrace(s, initialised) && (s.status.Uninitialized? ==> !initialised)
    ensures CallsAreTrace(Step(fl, s, op), initialised || (s.status.Uninitialized? && Starts(op)))
  {
    var t := Step(fl, s, op);
    StepStatus(fl, s, op);
    StepCalls(fl, s, op);
    if op.OpCreate? {
      PrepareExtendsTrace(fl, s, initialised, op.run);
      SameCalls(Prepare(fl, s, op.run), t, initialised || s.status.Uninitialized?);
    } else if op.OpInit? {
      InitStartsTrace(s, initialised);
      SameCalls(DoInit(s), t, initialised || s.status.Uninitialized?);
    } else {
      SameCalls(s, t, initialised);
    }
  }

  /** The first operation that is not a clearing one initialises the factory; inserting or setting
      data before that skips Init for good. */
  predicate StartsWithInit(ops: seq<Op>) {
    ops != [] && if ops[0].OpClear? then StartsWithInit(ops[1..]) else Starts(ops[0])
  }

  /** Some operation other than clearing has happened. */
  predicate Touched(ops: seq<Op>) {
    ops != [] && (!ops[0].OpClear? || Touched(ops[1..]))
  }

  lemma {:induction false} StartsSnoc(ops: seq<Op>, op: Op)
    ensures Touched(ops + [op]) <==> Touched(ops) || !op.OpClear?
    ensures StartsWithInit(ops + [op]) <==> if Touched(ops) then StartsWithInit(ops) else Starts(op)
    decreases |ops|
  {
    if ops == [] {
      assert ops + [op] == [op];
    } else {
      assert (ops + [op])[1..] == ops[1..] + [op];
      StartsSnoc(ops[1..], op);
    }
  }

  lemma {:induction false} HistoryIsTrace(fl: Flags, ops: seq<Op>)
    ensures CallsAreTrace(After(fl, ops), StartsWithInit(ops))
    ensures After(fl, ops).status.Uninitialized? <==> !Touched(ops)
    ensures StartsWithInit(ops) ==> Touched(ops)
  {
    if ops != [] {
      var front, op := ops[..|ops| - 1], ops[|ops| - 1];
      assert ops == front + [op];
      HistoryIsTrace(fl, front);
      StartsSnoc(front, op);
      StepStatus(fl, After(fl, front), op);
      StepKeepsTrace(fl, After(fl, front), op, StartsWithInit(front));
    }
  }

  lemma PrepareRuns(fl: Flags, s: Factory, run: int)
    ensures ProcessedRuns(Prepare(fl, s, run).calls) ==
            ProcessedRuns(s.calls) + if MustProcess(fl, s) then [run] else []
  {
    var s1 := DoInit(s);
    ProcessedRunsConcat(s.calls, [Init]);
    assert ProcessedRuns([Init]) == [];
    var s2 := if fl.regenerate && s1.status.Inserted? then ClearData(fl, s1) else s1;
    ProcessedRunsConcat(s2.calls, EventCalls(s2.previousRun, run, true));
    EventCallsRuns(s2.previousRun, run);
  }

  /** The run numbers of the requests in a history that find something to process. */
  function HistoryRuns(fl: Flags, ops: seq<Op>): seq<int> {
    if ops == [] then []
    else
      var front, op := ops[..|ops| - 1], ops[|ops| - 1];
      HistoryRuns(fl, front) + if op.OpCreate? && MustProcess(fl, After(fl, front)) then [op.run] else []
  }

  lemma {:induction false} HistoryRunsProcessed(fl: Flags, ops: seq<Op>)
    ensures ProcessedRuns(After(fl, ops).calls) == HistoryRuns(fl, ops)
  {
    if ops != [] {
      var front, op := ops[..|ops| - 1], ops[|ops| - 1];
      HistoryRunsProcessed(fl, front);
      StepCalls(fl, After(fl, front), op);
      if op.OpCreate? {
        PrepareRuns(fl, After(fl, front), op.run);
      } else {
        ProcessedRunsConcat(After(fl, front).calls, [Init]);
        assert ProcessedRuns([Init]) == [];
      }
    }
  }

  /** A factory's callbacks, over any history: well bracketed if and only if no request before the
      last one that finds something to process has run number -1; and Init, when it is called, is
      called first and once, which happens if and only if the factory was not filled from outside
      before it was initialised. */
  lemma FactoryBracketed(fl: Flags, ops: seq<Op>)
    ensures var calls := After(fl, ops).calls;
            (Follow(Idle, calls) != Bad <==> OnlyLastMayBeNone(HistoryRuns(fl, ops))) &&
            (Init in calls <==> StartsWithInit(ops)) &&
            (StartsWithInit(ops) ==> calls[0] == Init && Init !in calls[1..])
  {
    var calls := After(fl, ops).calls;
    var runs := HistoryRuns(fl, ops);
    HistoryIsTrace(fl, ops);
    HistoryRunsProcessed(fl, ops);
    TraceExact(runs, true);
    TraceHasNoInit(runs);
    if StartsWithInit(ops) {
      FollowConcat(Idle, [Init], Trace(runs, true));
      assert Follow(Idle, [Init]) == Idle;
      assert calls[1..] == Trace(runs, true);
    } else {
      assert calls == Trace(runs, true);
    }
  }

  /** Over any history, ChangeRun is called right before each BeginRun, with its run number, and
      nowhere else: once for each request that finds something to process in a new run. */
  lemma FactoryChangesRun(fl: Flags, ops: seq<Op>)
    ensures Paired(After(fl, ops).calls) && ChangedRuns(After(fl, ops).calls) == NewRuns(HistoryRuns(fl, ops))
  {
    var runs := HistoryRuns(fl, ops);
    var first := if StartsWithInit(ops) then [Init] else [];
    HistoryIsTrace(fl, ops);
    HistoryRunsProcessed(fl, ops);
    TraceChangesRun(runs);
    OneCall(Init);
    PairedConcat(first, Trace(runs, true));
    ChangedRunsConcat(first, Trace(runs, true));
  }

  lemma {:induction false} RunsFromHistory(fl: Flags, ops: seq<Op>)
    requires forall k :: 0 <= k < |ops| && ops[k].OpCreate? ==> ops[k].run != NO_RUN
    ensures forall k :: 0 <= k < |HistoryRuns(fl, ops)| ==> HistoryRuns(fl, ops)[k] != NO_RUN
  {
    if ops != [] { RunsFromHistory(fl, ops[..|ops| - 1]); }
  }

  /** In particular, without requests of run number -1 nothing is ever out of order. */
  lemma FactoryInOrder(fl: Flags, ops: seq<Op>)
    requires forall k :: 0 <= k < |ops| && ops[k].OpCreate? ==> ops[k].run != NO_RUN
    ensures Follow(Idle, After(fl, ops).calls) != Bad
  {
    FactoryBracketed(fl, ops);
    RunsFromHistory(fl, ops);
  }

  lemma {:induction false} TraceHasNoInit(runs: seq<int>)
    ensures Init !in Trace(runs, true)
  {
    if runs != [] { TraceHasNoInit(runs[..|runs| - 1]); }
  }
}
