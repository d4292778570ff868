/** A multifactory: several output factories filled by one shared Process. Asking any of them for
    its data runs the shared Process, which sets the data of the others as well. */
module Multifactories {
  import opened RunCallbacks
  import opened Factories

  datatype MultiStatus = Fresh | Initialized | Finalized

  /** `sets[i]` tells whether the user's Process sets the i-th declared output; `value` is what the
      k-th execution (counted over the object's life) sets it to. */
  datatype Setup = Setup(flags: seq<Flags>, sets: seq<bool>, value: (nat, nat) -> seq<Obj>)

  datatype Multi = Multi(status: MultiStatus, lastRun: int, calls: seq<Call>, executions: nat, helpers: seq<Factory>)

  function NewMulti(u: Setup): Multi { Multi(Fresh, NO_RUN, [], 0, seq(|u.flags|, _ => NEW_FACTORY)) }

  predicate WellFormed(u: Setup, m: Multi) { |u.flags| == |u.sets| == |m.helpers| }

  // ---- the operations

  function Started(m: Multi): Multi {
    if m.status.Fresh? then m.(status := Initialized, calls := m.calls + [Call.Init]) else m
  }

  /** The helpers after the user's Process has called SetData for the outputs it sets. */
  function SetOutputs(u: Setup, helpers: seq<Factory>, k: nat): (r: seq<Factory>)
    requires |u.flags| == |u.sets| == |helpers|
    ensures |r| == |helpers|
    ensures forall i :: 0 <= i < |helpers| ==>
              r[i] == if u.sets[i] then Set(u.flags[i], helpers[i], u.value(k, i)) else helpers[i]
  {
    seq(|helpers|, i requires 0 <= i < |helpers| =>
      if u.sets[i] then Set(u.flags[i], helpers[i], u.value(k, i)) else helpers[i])
  }

  function Execute(u: Setup, m: Multi, run: int): Multi
    requires WellFormed(u, m)
  {
    var m1 := Started(m);
    var calls := m1.calls + EventCalls(m1.lastRun, run, false);
    Multi(m1.status, run, calls, m1.executions + 1, SetOutputs(u, m1.helpers, m1.executions))
  }

  function Release(m: Multi): Multi {
    if m.status.Initialized? then m.(status := Finalized, calls := m.calls + [Finish]) else m
  }

  /** A request for the data of the i-th output: the helper's Create, whose Process is Execute. */
  function GetOutput(u: Setup, m: Multi, run: int, i: nat): (Multi, seq<Obj>)
    requires WellFormed(u, m) && i < |m.helpers|
  {
    var m1 := m.(helpers := m.helpers[i := Prepare(u.flags[i], m.helpers[i], run)]);
    if MustProcess(u.flags[i], m.helpers[i]) then
      var m2 := Execute(u, m1, run);
      var m3 := m2.(helpers := m2.helpers[i := Complete(m2.helpers[i])]);
      (m3, m3.helpers[i].data)
    else (m1, m1.helpers[i].data)
  }

  class JMultifactory {
    const u: Setup
    const helpers: seq<JFactory>
    var status: MultiStatus
    var lastRun: int
    var calls: seq<Call>
    var executions: nat

    ghost predicate Valid() {
      |helpers| == |u.flags| == |u.sets| &&
      (forall i :: 0 <= i < |helpers| ==> helpers[i].flags == u.flags[i]) &&
      forall i, j :: 0 <= i < j < |helpers| ==> helpers[i] != helpers[j]
    }

    ghost function HelperStates(): (r: seq<Factory>)
      reads helpers
      ensures |r| == |helpers| && forall i :: 0 <= i < |helpers| ==> r[i] == helpers[i].State()
    {
      seq(|helpers|, i requires 0 <= i < |helpers| reads helpers => helpers[i].State())
    }

    ghost function State(): Multi
      reads this, helpers
    {
      Multi(status, lastRun, calls, executions, HelperStates())
    }

    constructor (u: Setup, helpers: seq<JFactory>)
      ensures this.u == u && this.helpers == helpers
      ensures status == Fresh && lastRun == NO_RUN && calls == [] && executions == 0
    {
      this.u, this.helpers := u, helpers;
      status, lastRun, calls, executions := Fresh, NO_RUN, [], 0;
    }

    method Initialize()
      modifies this
      ensures State() == Started(old(State()))
    {
      if status == Fresh {
        calls := calls + [Call.Init];
        status := Initialized;
      }
    }

    method ExecuteAll(run: int)
      requires Valid()
      modifies this, helpers
      ensures State() == Execute(u, old(State()), run)
    {
      AnnounceRun(run);
      assert HelperStates() == old(HelperStates());
      UserProcess();
      executions := executions + 1;
    }

    /** The callbacks of one execution, up to and including the call of Process. */
    method AnnounceRun(run: int)
      modifies this`status, this`lastRun, this`calls
      ensures status == (if old(status).Fresh? then Initialized else old(status)) && lastRun == run
      ensures calls == (if old(status).Fresh? then old(calls) + [Call.Init] else old(calls)) +
              EventCalls(old(lastRun), run, false)
    {
      if status == Fresh {
        calls := calls + [Call.Init];
        status := Initialized;
      }
      if lastRun == NO_RUN {
        calls := calls + [BeginRun(run)];
        lastRun := run;
      } else if lastRun != run {
        calls := calls + [EndRun, BeginRun(run)];
        lastRun := run;
      }
      calls := calls + [Process(run)];
    }

    /** The user's Process calls SetData for the outputs it sets. */
    method UserProcess()
      requires Valid()
      modifies helpers
      ensures HelperStates() == SetOutputs(u, old(HelperStates()), executions)
    {
      for i := 0 to |helpers|
        invariant forall j :: 0 <= j < i ==>
                    helpers[j].State() ==
                    if u.sets[j] then Set(u.flags[j], old(helpers[j].State()), u.value(executions, j))
                    else old(helpers[j].State())
        invariant forall j :: i <= j < |helpers| ==> helpers[j].State() == old(helpers[j].State())
      {
        if u.sets[i] { helpers[i].SetData(u.value(executions, i)); }
      }
    }

    method GetData(run: int, i: nat) returns (data: seq<Obj>)
      requires Valid() && i < |helpers|
      modifies this, helpers
      ensures (State(), data) == GetOutput(u, old(State()), run, i)
    {
      var process := PrepareHelper(i, run);
      if process {
        ExecuteAll(run);
        CompleteHelper(i);
      }
      data := helpers[i].data;
    }

    method PrepareHelper(i: nat, run: int) returns (process: bool)
      requires Valid() && i < |helpers|
      modifies helpers[i]
      ensures HelperStates() == old(HelperStates())[i := Prepare(u.flags[i], old(helpers[i].State()), run)]
      ensures process == MustProcess(u.flags[i], old(helpers[i].State()))
    {
      process := helpers[i].BeginCreate(run);
    }

    method CompleteHelper(i: nat)
      requires Valid() && i < |helpers|
      modifies helpers[i]
      ensures HelperStates() == old(HelperStates())[i := Complete(old(helpers[i].State()))]
    {
      helpers[i].EndCreate();
    }

    method Finalize()
      modifies this
      ensures State() == Release(old(State()))
    {
      if status == Initialized {
        calls := calls + [Finish];
        status := Finalized;
      }
    }
  }

  // ---- one execution per event

  /** Any sequence of requests for outputs in one event. */
  function GetAll(u: Setup, m: Multi, run: int, gs: seq<nat>): (r: (Multi, seq<seq<Obj>>))
    requires WellFormed(u, m) && forall j :: 0 <= j < |gs| ==> gs[j] < |m.helpers|
    ensures WellFormed(u, r.0) && |r.1| == |gs|
  {
    if gs == [] then (m, [])
    else
      var (m1, got) := GetAll(u, m, run, gs[..|gs| - 1]);
      var (m2, a) := GetOutput(u, m1, run, gs[|gs| - 1]);
      (m2, got + [a])
  }

  /** The start of an event: every output has still to be processed. */
  ghost predicate Ready(u: Setup, m: Multi) {
    WellFormed(u, m) &&
    forall i :: 0 <= i < |m.helpers| ==> m.helpers[i].status.Uninitialized? || m.helpers[i].status.Unprocessed?
  }

  ghost predicate Requests(m: Multi, gs: seq<nat>) { forall j :: 0 <= j < |gs| ==> gs[j] < |m.helpers| }

  /** Process sets every declared output, and no output is thrown away again to be regenerated. */
  ghost predicate SetsAll(u: Setup) {
    |u.flags| == |u.sets| &&
    forall i :: 0 <= i < |u.flags| ==> u.sets[i] && (u.flags[i].regenerate ==> u.flags[i].persistent)
  }

  /** Every output holds what the k-th execution set, and none has to be processed. */
  ghost predicate AllFrom(u: Setup, m: Multi, k: nat) {
    WellFormed(u, m) &&
    forall i :: 0 <= i < |m.helpers| ==>
      !MustProcess(u.flags[i], m.helpers[i]) && (u.sets[i] ==> m.helpers[i].data == u.value(k, i))
  }

  lemma PrepareIdle(fl: Flags, s: Factory, run: int)
    requires !MustProcess(fl, s)
    ensures Prepare(fl, s, run) == s
  {
  }

  lemma SetHolds(fl: Flags, s: Factory, objs: seq<Obj>)
    ensures Set(fl, s, objs).status.Inserted? && Set(fl, s, objs).data == objs
    ensures (fl.regenerate ==> fl.persistent) ==> !MustProcess(fl, Set(fl, s, objs))
  {
  }

  lemma FirstGet(u: Setup, m: Multi, run: int, i: nat)
    requires Ready(u, m) && i < |m.helpers| && (SetsAll(u) || |m.helpers| == 1)
    ensures var (m', data) := GetOutput(u, m, run, i);
            AllFrom(u, m', m.executions) && m'.executions == m.executions + 1 && data == m'.helpers[i].data
  {
    var (m', data) := GetOutput(u, m, run, i);
    var prepared := m.helpers[i := Prepare(u.flags[i], m.helpers[i], run)];
    forall j | 0 <= j < |m.helpers|
      ensures !MustProcess(u.flags[j], m'.helpers[j]) && (u.sets[j] ==> m'.helpers[j].data == u.value(m.executions, j))
    {
      SetHolds(u.flags[j], prepared[j], u.value(m.executions, j));
    }
  }

  /** An output that Process does not set is empty. */
  lemma UnsetIsEmpty(u: Setup, m: Multi, run: int, i: nat)
    requires Ready(u, m) && i < |m.helpers| && !u.sets[i] && m.helpers[i].data == []
    ensures GetOutput(u, m, run, i).1 == []
  {
  }

  lemma LaterGet(u: Setup, m: Multi, run: int, i: nat, k: nat)
    requires AllFrom(u, m, k) && i < |m.helpers|
    ensures GetOutput(u, m, run, i) == (m, m.helpers[i].data)
  {
    PrepareIdle(u.flags[i], m.helpers[i], run);
    assert m.helpers[i := m.helpers[i]] == m.helpers;
  }

  /** If Process sets every output (or there is only one), then whatever is asked for and in which
      order, there is one execution and everything handed out is its data. */
  lemma {:induction false} OneExecution(u: Setup, m: Multi, run: int, gs: seq<nat>)
    requires Ready(u, m) && Requests(m, gs) && (SetsAll(u) || |m.helpers| <= 1)
    ensures var (m', got) := GetAll(u, m, run, gs);
            m'.executions == m.executions + (if gs == [] then 0 else 1) &&
            (if gs == [] then m' == m else AllFrom(u, m', m.executions)) &&
            forall j :: 0 <= j < |gs| && u.sets[gs[j]] ==> got[j] == u.value(m.executions, gs[j])
  {
    if gs != [] {
      var front, i := gs[..|gs| - 1], gs[|gs| - 1];
      OneExecution(u, m, run, front);
      var (m1, got) := GetAll(u, m, run, front);
      if front == [] {
        FirstGet(u, m, run, i);
      } else {
        LaterGet(u, m1, run, i, m.executions);
      }
    }
  }

  lemma NotAllSet(u: Setup, m: Multi, run: int, i: nat, j: nat)
    requires Ready(u, m) && i < |m.helpers| && j < |m.helpers| && i != j
    requires !u.sets[i] || (u.flags[i].regenerate && !u.flags[i].persistent)
    ensures GetAll(u, m, run, [j, i]).0.executions == m.executions + 2
  {
    var (m1, a) := GetOutput(u, m, run, j);
    assert [j, i][..1] == [j] && [j][..0] == [];
    assert GetAll(u, m, run, [j]).0 == m1;
    assert m1.executions == m.executions + 1;
    SetHolds(u.flags[i], m.helpers[i], u.value(m.executions, i));
    assert MustProcess(u.flags[i], m1.helpers[i]);
  }

  /** Exactly when the shared Process runs at most once per event for every order of requests:
      it sets every declared output and none of them is to be regenerated, or there are fewer than two outputs. */
  lemma OneExecutionExact(u: Setup)
    requires |u.flags| == |u.sets|
    ensures (forall m: Multi, run: int, gs :: Ready(u, m) && Requests(m, gs) ==>
               GetAll(u, m, run, gs).0.executions <= m.executions + 1)
       <==> SetsAll(u) || |u.flags| <= 1
  {
    if SetsAll(u) || |u.flags| <= 1 {
      forall m: Multi, run: int, gs | Ready(u, m) && Requests(m, gs)
        ensures GetAll(u, m, run, gs).0.executions <= m.executions + 1
      {
        OneExecution(u, m, run, gs);
      }
    } else {
      var i :| 0 <= i < |u.flags| && !(u.sets[i] && (u.flags[i].regenerate ==> u.flags[i].persistent));
      var j := if i == 0 then 1 else 0;
      var m := NewMulti(u);
      NotAllSet(u, m, 0, i, j);
      assert Ready(u, m) && Requests(m, [j, i]);
    }
  }

  // ---- any history

  /** Initialisation, events with the outputs asked for in order, and finishing. */
  datatype MultiOp = OnInit | OnEvent(run: int, outputs: seq<nat>) | OnFinish

  /** Between events every output factory is cleared. */
  function ClearAll(u: Setup, m: Multi): (r: Multi)
    requires WellFormed(u, m)
    ensures WellFormed(u, r) && r == m.(helpers := r.helpers)
    ensures forall i :: 0 <= i < |m.helpers| ==> r.helpers[i] == ClearData(u.flags[i], m.helpers[i])
  {
    m.(helpers := seq(|m.helpers|, i requires 0 <= i < |m.helpers| => ClearData(u.flags[i], m.helpers[i])))
  }

  ghost predicate Declared(u: Setup, op: MultiOp) {
    op.OnEvent? ==> forall j :: 0 <= j < |op.outputs| ==> op.outputs[j] < |u.flags|
  }

  ghost predicate History(u: Setup, ops: seq<MultiOp>) {
    |u.flags| == |u.sets| && forall k :: 0 <= k < |ops| ==> Declared(u, ops[k])
  }

  ghost function Apply(u: Setup, m: Multi, op: MultiOp): (r: Multi)
    requires WellFormed(u, m) && Declared(u, op)
    ensures WellFormed(u, r)
  {
    match op
    case OnInit => Started(m)
    case OnEvent(run, outputs) => GetAll(u, ClearAll(u, m), run, outputs).0
    case OnFinish => Release(m)
  }

  ghost function MultiAfter(u: Setup, ops: seq<MultiOp>): (r: Multi)
    requires History(u, ops)
    ensures WellFormed(u, r)
  {
    if ops == [] then NewMulti(u) else Apply(u, MultiAfter(u, ops[..|ops| - 1]), ops[|ops| - 1])
  }

  /** Events in which something is asked for. */
  function Asking(ops: seq<MultiOp>): nat {
    if ops == [] then 0
    else Asking(ops[..|ops| - 1]) + if ops[|ops| - 1].OnEvent? && ops[|ops| - 1].outputs != [] then 1 else 0
  }

  /** With outputs that are all set and kept for no longer than an event, the shared Process runs
      exactly once in each event that asks for something. */
  lemma {:induction false} OncePerEvent(u: Setup, ops: seq<MultiOp>)
    requires History(u, ops) && SetsAll(u) && forall i :: 0 <= i < |u.flags| ==> !u.flags[i].persistent
    ensures MultiAfter(u, ops).executions == Asking(ops)
  {
    if ops != [] {
      var before, op := MultiAfter(u, ops[..|ops| - 1]), ops[|ops| - 1];
      OncePerEvent(u, ops[..|ops| - 1]);
      if op.OnEvent? {
        assert Ready(u, ClearAll(u, before));
        OneExecution(u, ClearAll(u, before), op.run, op.outputs);
      }
    }
  }

  // ---- run callbacks

  /** The run numbers of the requests of one event that run the shared Process. */
  ghost function RunsIn(u: Setup, m: Multi, run: int, gs: seq<nat>): seq<int>
    requires WellFormed(u, m) && Requests(m, gs)
  {
    if gs == [] then []
    else
      var front, i := gs[..|gs| - 1], gs[|gs| - 1];
      RunsIn(u, m, run, front) + if MustProcess(u.flags[i], GetAll(u, m, run, front).0.helpers[i]) then [run] else []
  }

  /** The run numbers of all executions in a history. */
  ghost function ExecutedRuns(u: Setup, ops: seq<MultiOp>): seq<int>
    requires History(u, ops)
  {
    if ops == [] then []
    else
      var front, op := ops[..|ops| - 1], ops[|ops| - 1];
      ExecutedRuns(u, front) +
      if op.OnEvent? then RunsIn(u, ClearAll(u, MultiAfter(u, front)), op.run, op.outputs) else []
  }

  /** How many executions there had been when Finish was called (so far, if it has not been). */
  ghost function BeforeFinish(u: Setup, ops: seq<MultiOp>): nat
    requires History(u, ops)
  {
    if ops != [] && MultiAfter(u, ops[..|ops| - 1]).status.Finalized? then BeforeFinish(u, ops[..|ops| - 1])
    else |ExecutedRuns(u, ops)|
  }

  /** Init, then the trace with Finish put in after its beginning `before`. */
  ghost predicate FinishAt(trace: seq<Call>, calls: seq<Call>, before: seq<Call>) {
    before <= trace && calls == [Call.Init] + before + [Finish] + trace[|before|..]
  }

  /** The callbacks made and the run remembered, after executions with these run numbers, the first
      k of them before Finish. A multifactory never ends its last run, so finishing after a run, or
      running after finishing, is out of order. */
  ghost predicate MultiTrace(m: Multi, runs: seq<int>, k: nat) {
    m.lastRun == LastRun(runs) &&
    match m.status
    case Fresh => m.calls == [] && runs == []
    case Initialized => m.calls == [Call.Init] + Trace(runs, false)
    case Finalized =>
      k <= |runs| && FinishAt(Trace(runs, false), m.calls, Trace(runs[..k], false)) &&
      Follow(Idle, m.calls) == if runs == [] then Finished else Bad
  }

  lemma FinishAtGrows(trace: seq<Call>, calls: seq<Call>, before: seq<Call>, event: seq<Call>)
    requires FinishAt(trace, calls, before)
    ensures FinishAt(trace + event, calls + event, before)
  {
    assert (trace + event)[|before|..] == trace[|before|..] + event;
  }

  lemma InitIsTrace(m: Multi, runs: seq<int>, k: nat)
    requires MultiTrace(m, runs, k)
    ensures MultiTrace(Started(m), runs, k)
  {
  }

  lemma ExecuteExtendsTrace(u: Setup, m: Multi, run: int, runs: seq<int>, k: nat)
    requires WellFormed(u, m) && MultiTrace(m, runs, k)
    ensures MultiTrace(Execute(u, m, run), runs + [run], k)
  {
    var m1 := Started(m);
    InitIsTrace(m, runs, k);
    var event := EventCalls(m1.lastRun, run, false);
    TraceSnoc(runs, run, false);
    if m1.status.Finalized? {
      FollowConcat(Idle, m1.calls, event);
      EventPhase(Follow(Idle, m1.calls), m1.lastRun, run, false);
      assert (runs + [run])[..k] == runs[..k];
      FinishAtGrows(Trace(runs, false), m1.calls, Trace(runs[..k], false), event);
    } else {
      AppendToTrace([Call.Init], Trace(runs, false), event);
    }
  }

  lemma GetExtendsTrace(u: Setup, m: Multi, run: int, i: nat, runs: seq<int>, after: seq<int>, k: nat)
    requires WellFormed(u, m) && i < |m.helpers| && MultiTrace(m, runs, k)
    requires after == runs + if MustProcess(u.flags[i], m.helpers[i]) then [run] else []
    ensures MultiTrace(GetOutput(u, m, run, i).0, after, k)
    ensures GetOutput(u, m, run, i).0.executions == m.executions + |after| - |runs|
  {
    var prepared := m.(helpers := m.helpers[i := Prepare(u.flags[i], m.helpers[i], run)]);
    if MustProcess(u.flags[i], m.helpers[i]) {
      ExecuteExtendsTrace(u, prepared, run, runs, k);
    } else {
      assert after == runs;
    }
  }

  lemma {:induction false} EventExtendsTrace(u: Setup, m: Multi, run: int, gs: seq<nat>, runs: seq<int>, k: nat)
    requires WellFormed(u, m) && Requests(m, gs) && MultiTrace(m, runs, k)
    ensures MultiTrace(GetAll(u, m, run, gs).0, runs + RunsIn(u, m, run, gs), k)
    ensures GetAll(u, m, run, gs).0.executions == m.executions + |RunsIn(u, m, run, gs)|
  {
    if gs == [] {
      assert runs + [] == runs;
    } else {
      var front, i := gs[..|gs| - 1], gs[|gs| - 1];
      EventExtendsTrace(u, m, run, front, runs, k);
      var m1, before, after := GetAll(u, m, run, front).0, RunsIn(u, m, run, front), RunsIn(u, m, run, gs);
      GetExtendsTrace(u, m1, run, i, runs + before, runs + after, k);
    }
  }

  lemma FinishIsTrace(m: Multi, runs: seq<int>, k: nat)
    requires MultiTrace(m, runs, k)
    ensures MultiTrace(Release(m), runs, if m.status.Finalized? then k else |runs|)
  {
    if m.status.Initialized? {
      assert runs[..|runs|] == runs;
      var trace := Trace(runs, false);
      assert Release(m).calls == [Call.Init] + trace + [Finish] + trace[|trace|..];
      FollowConcat(Idle, [Call.Init] + Trace(runs, false), [Finish]);
      FollowConcat(Idle, [Call.Init], Trace(runs, false));
      assert Follow(Idle, [Call.Init]) == Idle;
      TracePhase(runs, false);
      var p := Follow(Idle, m.calls);
      assert Follow(p, [Finish]) == Advance(p, Finish);
    }
  }

  lemma ApplyExtendsTrace(u: Setup, m: Multi, op: MultiOp, runs: seq<int>, more: seq<int>, k: nat, next: Multi)
    requires WellFormed(u, m) && Declared(u, op) && MultiTrace(m, runs, k) && next == Apply(u, m, op)
    requires more == if op.OnEvent? then RunsIn(u, ClearAll(u, m), op.run, op.outputs) else []
    requires m.status.Finalized? || k == |runs + more|
    ensures MultiTrace(next, runs + more, k) && next.executions == m.executions + |more|
  {
    if op.OnEvent? {
      EventExtendsTrace(u, ClearAll(u, m), op.run, op.outputs, runs, k);
    } else {
      assert runs + more == runs;
      if op.OnInit? { InitIsTrace(m, runs, k); } else { FinishIsTrace(m, runs, k); }
    }
  }

  /** Over any history, for any setup, any order of requests and any run numbers, a multifactory's
      callbacks are Init followed by the trace of its executions, with Finish put in after the
      executions that came before it. */
  lemma {:induction false} MultiHistoryIsTrace(u: Setup, ops: seq<MultiOp>)
    requires History(u, ops)
    ensures MultiTrace(MultiAfter(u, ops), ExecutedRuns(u, ops), BeforeFinish(u, ops))
    ensures MultiAfter(u, ops).executions == |ExecutedRuns(u, ops)|
  {
    if ops != [] {
      var front, op := ops[..|ops| - 1], ops[|ops| - 1];
      var m, runs := MultiAfter(u, front), ExecutedRuns(u, front);
      MultiHistoryIsTrace(u, front);
      var more := if op.OnEvent? then RunsIn(u, ClearAll(u, m), op.run, op.outputs) else [];
      ApplyExtendsTrace(u, m, op, runs, more, BeforeFinish(u, ops), MultiAfter(u, ops));
    }
  }

  /** A multifactory never calls ChangeRun. */
  lemma MultiNeverChanges(u: Setup, ops: seq<MultiOp>)
    requires History(u, ops)
    ensures forall c :: c in MultiAfter(u, ops).calls ==> !c.ChangeRun?
  {
    var m, runs := MultiAfter(u, ops), ExecutedRuns(u, ops);
    MultiHistoryIsTrace(u, ops);
    TraceWithoutChange(runs);
    var trace := Trace(runs, false);
    if m.status.Finalized? {
      var before := Trace(runs[..BeforeFinish(u, ops)], false);
      assert m.calls == [Call.Init] + before + [Finish] + trace[|before|..];
      forall c | c in before ensures c in trace { assert before <= trace; }
    }
  }

  /** Over any history a multifactory's callbacks are well bracketed if and only if no execution
      before the last one has run number -1, and, once it is finished, there never was an execution. */
  lemma MultiBracketed(u: Setup, ops: seq<MultiOp>)
    requires History(u, ops)
    ensures var m, runs := MultiAfter(u, ops), ExecutedRuns(u, ops);
            Follow(Idle, m.calls) != Bad <==> if m.status.Finalized? then runs == [] else OnlyLastMayBeNone(runs)
  {
    var runs := ExecutedRuns(u, ops);
    MultiHistoryIsTrace(u, ops);
    FollowConcat(Idle, [Call.Init], Trace(runs, false));
    assert Follow(Idle, [Call.Init]) == Idle;
    TraceExact(runs, false);
  }

  lemma {:induction false} RunsInAreOfEvent(u: Setup, m: Multi, run: int, gs: seq<nat>)
    requires WellFormed(u, m) && Requests(m, gs)
    ensures forall k :: 0 <= k < |RunsIn(u, m, run, gs)| ==> RunsIn(u, m, run, gs)[k] == run
  {
    if gs != [] { RunsInAreOfEvent(u, m, run, gs[..|gs| - 1]); }
  }

  lemma {:induction false} NoNoneExecuted(u: Setup, ops: seq<MultiOp>)
    requires History(u, ops) && forall k :: 0 <= k < |ops| && ops[k].OnEvent? ==> ops[k].run != NO_RUN
    ensures forall k :: 0 <= k < |ExecutedRuns(u, ops)| ==> ExecutedRuns(u, ops)[k] != NO_RUN
  {
    if ops != [] {
      var front, op := ops[..|ops| - 1], ops[|ops| - 1];
      NoNoneExecuted(u, front);
      if op.OnEvent? { RunsInAreOfEvent(u, ClearAll(u, MultiAfter(u, front)), op.run, op.outputs); }
    }
  }

  /** In particular, without events of run number -1 nothing is out of order until it is finished. */
  lemma MultiInOrder(u: Setup, ops: seq<MultiOp>)
    requires History(u, ops) && forall k :: 0 <= k < |ops| ==> !ops[k].OnFinish?
    requires forall k :: 0 <= k < |ops| && ops[k].OnEvent? ==> ops[k].run != NO_RUN
    ensures Follow(Idle, MultiAfter(u, ops).calls) != Bad
  {
    MultiBracketed(u, ops);
    NoNoneExecuted(u, ops);
    NotFinished(u, ops);
  }

  lemma {:induction false} NotFinished(u: Setup, ops: seq<MultiOp>)
    requires History(u, ops) && forall k :: 0 <= k < |ops| ==> !ops[k].OnFinish?
    ensures !MultiAfter(u, ops).status.Finalized?
  {
    if ops != [] {
      var front, op := ops[..|ops| - 1], ops[|ops| - 1];
      NotFinished(u, front);
      if op.OnEvent? { EventKeepsUnfinished(u, ClearAll(u, MultiAfter(u, front)), op.run, op.outputs); }
    }
  }

  lemma {:induction false} EventKeepsUnfinished(u: Setup, m: Multi, run: int, gs: seq<nat>)
    requires WellFormed(u, m) && Requests(m, gs) && !m.status.Finalized?
    ensures !GetAll(u, m, run, gs).0.status.Finalized?
  {
    if gs != [] { EventKeepsUnfinished(u, m, run, gs[..|gs| - 1]); }
  }

  /** Finish comes at most once; it finds the run closed if and only if there was no execution. */
  lemma FinishInsideRun(m: Multi, runs: seq<int>, k: nat)
    requires MultiTrace(m, runs, k)
    ensures Release(Release(m)) == Release(m)
    ensures m.status.Initialized? ==> (Follow(Idle, Release(m).calls) == Finished <==> runs == [])
  {
    FinishIsTrace(m, runs, k);
  }
}
