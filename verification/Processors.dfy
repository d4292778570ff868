/** An event processor: Init, run callbacks around the events, EndRun and Finish at the end. */
module Processors {
  import opened RunCallbacks

  datatype Status = Uninitialized | Initialized | Finalized

  datatype Processor = Processor(status: Status, lastRun: int, count: nat, calls: seq<Call>)

  const NEW_PROCESSOR := Processor(Uninitialized, NO_RUN, 0, [])

  /** Init whatever the status: the engine calls this before any event. */
  function Start(p: Processor): Processor {
    p.(status := Initialized, calls := p.calls + [Init])
  }

  function ReduceCalls(p: Processor, run: int): seq<Call> {
    (if p.status.Uninitialized? then [Init] else []) +
    (if p.lastRun == run then [] else (if p.lastRun != NO_RUN then [EndRun] else []) + [BeginRun(run)]) +
    [Process(run)]
  }

  function Reduce(p: Processor, run: int): Processor {
    if p.status.Finalized? then p
    else Processor(Initialized, run, p.count + 1, p.calls + ReduceCalls(p, run))
  }

  function Finalize(p: Processor): Processor {
    if p.status.Finalized? then p
    else p.(status := Finalized, calls := p.calls + (if p.lastRun != NO_RUN then [EndRun] else []) + [Finish])
  }

  class JEventProcessor {
    var status: Status
    var lastRun: int
    var count: nat
    var calls: seq<Call>

    function State(): Processor
      reads this
    {
      Processor(status, lastRun, count, calls)
    }

    constructor ()
      ensures State() == NEW_PROCESSOR
    {
      status, lastRun, count, calls := Uninitialized, NO_RUN, 0, [];
    }

    method DoInitialize()
      modifies this
      ensures State() == Start(old(State()))
    {
      calls := calls + [Init];
      status := Initialized;
    }

    method DoReduce(run: int) returns (threw: bool)
      modifies this
      ensures State() == Reduce(old(State()), run)
      ensures threw == old(status).Finalized?
    {
      threw := false;
      if status == Uninitialized {
        DoInitialize();
      } else if status == Finalized {
        return true;
      }
      if lastRun != run {
        if lastRun != NO_RUN {
          calls := calls + [EndRun];
        }
        lastRun := run;
        calls := calls + [BeginRun(run)];
      }
      calls := calls + [Process(run)];
      count := count + 1;
    }

    method DoFinalize()
      modifies this
      ensures State() == Finalize(old(State()))
    {
      if status != Finalized {
        if lastRun != NO_RUN {
          calls := calls + [EndRun];
        }
        calls := calls + [Finish];
        status := Finalized;
      }
    }
  }

  // ---- any history

  datatype ProcessorOp = OnInit | OnEvent(run: int) | OnFinalize

  function Apply(p: Processor, op: ProcessorOp): Processor {
    match op
    case OnInit => Start(p)
    case OnEvent(run) => Reduce(p, run)
    case OnFinalize => Finalize(p)
  }

  function ProcessorAfter(ops: seq<ProcessorOp>): Processor {
    if ops == [] then NEW_PROCESSOR else Apply(ProcessorAfter(ops[..|ops| - 1]), ops[|ops| - 1])
  }

  /** The run numbers of the events before the first finalisation. */
  function RunsBefore(ops: seq<ProcessorOp>): seq<int> {
    if ops == [] then []
    else
      var front, op := ops[..|ops| - 1], ops[|ops| - 1];
      RunsBefore(front) + if op.OnEvent? && OnFinalize !in front then [op.run] else []
  }

  /** No initialisation comes after an event or a finalisation. */
  ghost predicate InitsFirst(ops: seq<ProcessorOp>) {
    forall i, j :: 0 <= i < j < |ops| && ops[j].OnInit? ==> ops[i].OnInit?
  }

  ghost predicate NoNone(runs: seq<int>) { forall i :: 0 <= i < |runs| ==> runs[i] != NO_RUN }

  /** The number -1, which also stands for "no run yet", does not come first, and is not followed by
      another number. */
  ghost predicate NoneAtEnd(runs: seq<int>) {
    (runs != [] ==> runs[0] != NO_RUN) && forall i, j :: 0 <= i < j < |runs| && runs[i] == NO_RUN ==> runs[j] == NO_RUN
  }

  ghost predicate InOrder(ops: seq<ProcessorOp>) {
    InitsFirst(ops) && if OnFinalize in ops then NoNone(RunsBefore(ops)) else NoneAtEnd(RunsBefore(ops))
  }

  /** Where the automaton stands after a history that is in order, given the runs before the first
      finalisation, whether there was one, and whether nothing has happened at all. */
  ghost predicate Standing(p: Processor, runs: seq<int>, finalised: bool, untouched: bool) {
    var phase := Follow(Idle, p.calls);
    if finalised then p.status.Finalized? && phase == Finished
    else
      p.lastRun == LastRun(runs) && phase == (if runs == [] then Idle else Running(LastRun(runs))) &&
      (if untouched then p.status.Uninitialized? && runs == [] else p.status.Initialized?)
  }

  /** Whether one more operation leaves a history in order. */
  predicate Fits(runs: seq<int>, finalised: bool, op: ProcessorOp) {
    match op
    case OnInit => !finalised && runs == []
    case OnEvent(run) =>
      finalised || (if runs == [] then run != NO_RUN else LastRun(runs) == NO_RUN ==> run == NO_RUN)
    case OnFinalize => finalised || runs == [] || LastRun(runs) != NO_RUN
  }

  lemma Follow3(p: Phase, calls: seq<Call>)
    requires 1 <= |calls| <= 3
    ensures Follow(p, calls) ==
              if |calls| == 1 then Advance(p, calls[0])
              else if |calls| == 2 then Advance(Advance(p, calls[0]), calls[1])
              else Advance(Advance(Advance(p, calls[0]), calls[1]), calls[2])
  {
    var q := Advance(p, calls[0]);
    if |calls| >= 2 {
      assert calls[1..][0] == calls[1];
      if |calls| == 2 {
        assert calls[1..][1..] == [];
        assert Follow(q, calls[1..]) == Advance(q, calls[1]);
      } else {
        assert calls[1..][1..] == calls[2..] && calls[2..][0] == calls[2];
        assert Follow(Advance(q, calls[1]), calls[2..]) == Advance(Advance(q, calls[1]), calls[2]);
      }
    }
  }

  /** The phase after an event, whatever the phase before. */
  lemma ReducePhase(p: Processor, run: int)
    requires !p.status.Finalized? && (p.status.Uninitialized? ==> p.lastRun == NO_RUN)
    ensures var start := Follow(Idle, p.calls);
            var ready := if p.status.Uninitialized? then Advance(start, Init) else start;
            var begun := if p.lastRun == run then ready
                         else Advance(if p.lastRun != NO_RUN then Advance(ready, EndRun) else ready, BeginRun(run));
            Follow(Idle, Reduce(p, run).calls) == Advance(begun, Process(run))
  {
    var calls := ReduceCalls(p, run);
    FollowConcat(Idle, p.calls, calls);
    if p.lastRun == run {
      assert calls == if p.status.Uninitialized? then [Init, Process(run)] else [Process(run)];
    } else if p.lastRun == NO_RUN {
      assert calls == (if p.status.Uninitialized? then [Init] else []) + [BeginRun(run), Process(run)];
    } else {
      assert calls == [EndRun, BeginRun(run), Process(run)];
    }
    Follow3(Follow(Idle, p.calls), calls);
  }

  lemma FinalizePhase(p: Processor)
    requires !p.status.Finalized?
    ensures var start := Follow(Idle, p.calls);
            var ended := if p.lastRun != NO_RUN then Advance(start, EndRun) else start;
            Follow(Idle, Finalize(p).calls) == Advance(ended, Finish)
  {
    var tail := (if p.lastRun != NO_RUN then [EndRun] else []) + [Finish];
    assert Finalize(p).calls == p.calls + tail;
    FollowConcat(Idle, p.calls, tail);
    Follow3(Follow(Idle, p.calls), tail);
  }

  lemma StartPhase(p: Processor)
    ensures Follow(Idle, Start(p).calls) == Advance(Follow(Idle, p.calls), Init)
  {
    FollowConcat(Idle, p.calls, [Init]);
    Follow3(Follow(Idle, p.calls), [Init]);
  }

  /** Nothing mends a broken trace. */
  lemma ApplyKeepsBad(p: Processor, op: ProcessorOp)
    requires Follow(Idle, p.calls) == Bad
    ensures Follow(Idle, Apply(p, op).calls) == Bad
  {
    var first, rest := ApplyAdds(p, op);
    FollowConcat(Idle, p.calls, first + rest);
    BadForGood(first + rest);
  }

  lemma {:induction false} OnlyInits(ops: seq<ProcessorOp>)
    requires forall i :: 0 <= i < |ops| ==> ops[i].OnInit?
    ensures OnFinalize !in ops && RunsBefore(ops) == []
  {
    if ops != [] { OnlyInits(ops[..|ops| - 1]); }
  }

  lemma {:induction false} NoRunsNoEvents(ops: seq<ProcessorOp>)
    requires OnFinalize !in ops && RunsBefore(ops) == []
    ensures forall i :: 0 <= i < |ops| ==> ops[i].OnInit?
  {
    if ops != [] {
      assert OnFinalize !in ops[..|ops| - 1];
      NoRunsNoEvents(ops[..|ops| - 1]);
    }
  }

  lemma InitsFirstSnoc(front: seq<ProcessorOp>, op: ProcessorOp)
    ensures InitsFirst(front + [op]) <==>
            InitsFirst(front) && (op.OnInit? ==> OnFinalize !in front && RunsBefore(front) == [])
  {
    var ops := front + [op];
    if InitsFirst(ops) {
      assert forall i :: 0 <= i < |front| ==> ops[i] == front[i];
      if op.OnInit? {
        assert ops[|front|].OnInit?;
        OnlyInits(front);
      }
    }
    if op.OnInit? && OnFinalize !in front && RunsBefore(front) == [] {
      NoRunsNoEvents(front);
    }
  }

  lemma NoneAtEndSnoc(front: seq<int>, run: int)
    ensures NoneAtEnd(front + [run]) <==>
            NoneAtEnd(front) && (if front == [] then run != NO_RUN else LastRun(front) == NO_RUN ==> run == NO_RUN)
  {
    var runs := front + [run];
    assert runs[|front|] == run && forall i :: 0 <= i < |front| ==> runs[i] == front[i];
    if front != [] { assert runs[0] == front[0] && runs[|front| - 1] == LastRun(front); }
    if NoneAtEnd(runs) {
      forall i, j | 0 <= i < j < |front| && front[i] == NO_RUN ensures front[j] == NO_RUN {
        assert runs[i] == NO_RUN;
        assert runs[j] == NO_RUN;
      }
    }
  }

  lemma NoNoneIsEnd(runs: seq<int>)
    ensures NoNone(runs) <==> NoneAtEnd(runs) && (runs == [] || LastRun(runs) != NO_RUN)
  {
    if NoneAtEnd(runs) && runs != [] { assert runs[|runs| - 1] == LastRun(runs); }
  }

  lemma HistorySnoc(front: seq<ProcessorOp>, op: ProcessorOp)
    ensures var ops := front + [op];
            ops[..|ops| - 1] == front && ops[|ops| - 1] == op &&
            (OnFinalize in ops <==> OnFinalize in front || op.OnFinalize?) &&
            RunsBefore(ops) == RunsBefore(front) + if op.OnEvent? && OnFinalize !in front then [op.run] else []
  {
    assert (front + [op])[..|front|] == front;
  }

  lemma InOrderSnoc(front: seq<ProcessorOp>, op: ProcessorOp)
    ensures InOrder(front + [op]) <==> InOrder(front) && Fits(RunsBefore(front), OnFinalize in front, op)
  {
    var runs := RunsBefore(front);
    HistorySnoc(front, op);
    InitsFirstSnoc(front, op);
    NoNoneIsEnd(runs);
    assert runs + [] == runs;
    if op.OnEvent? { NoneAtEndSnoc(runs, op.run); }
  }

  lemma StartStands(p: Processor, runs: seq<int>, finalised: bool, untouched: bool)
    requires Standing(p, runs, finalised, untouched)
    ensures if Fits(runs, finalised, OnInit) then Standing(Start(p), runs, false, false)
            else Follow(Idle, Start(p).calls) == Bad
  {
    StartPhase(p);
  }

  lemma ReduceStands(p: Processor, runs: seq<int>, untouched: bool, run: int)
    requires Standing(p, runs, false, untouched)
    ensures if Fits(runs, false, OnEvent(run)) then Standing(Reduce(p, run), runs + [run], false, false)
            else Follow(Idle, Reduce(p, run).calls) == Bad
  {
    ReducePhase(p, run);
  }

  lemma FinalizeStands(p: Processor, runs: seq<int>, untouched: bool)
    requires Standing(p, runs, false, untouched)
    ensures if Fits(runs, false, OnFinalize) then Standing(Finalize(p), runs, true, false)
            else Follow(Idle, Finalize(p).calls) == Bad
  {
    FinalizePhase(p);
  }

  lemma StandingSnoc(p: Processor, runs: seq<int>, finalised: bool, untouched: bool, op: ProcessorOp)
    requires Standing(p, runs, finalised, untouched)
    ensures var next := runs + if op.OnEvent? && !finalised then [op.run] else [];
            if Fits(runs, finalised, op) then Standing(Apply(p, op), next, finalised || op.OnFinalize?, false)
            else Follow(Idle, Apply(p, op).calls) == Bad
  {
    assert runs + [] == runs;
    match op
    case OnInit => StartStands(p, runs, finalised, untouched);
    case OnEvent(run) => if !finalised { ReduceStands(p, runs, untouched, run); }
    case OnFinalize => if !finalised { FinalizeStands(p, runs, untouched); }
  }

  /** The automaton stands where it should, or the history was out of order and the trace is bad. */
  ghost predicate Explains(ops: seq<ProcessorOp>, p: Processor) {
    if InOrder(ops) then Standing(p, RunsBefore(ops), OnFinalize in ops, ops == [])
    else Follow(Idle, p.calls) == Bad
  }

  lemma ExplainsSnoc(front: seq<ProcessorOp>, op: ProcessorOp, p: Processor, next: Processor)
    requires Explains(front, p) && next == Apply(p, op)
    ensures Explains(front + [op], next)
  {
    InOrderSnoc(front, op);
    HistorySnoc(front, op);
    if InOrder(front) {
      StandingSnoc(p, RunsBefore(front), OnFinalize in front, front == [], op);
    } else {
      ApplyKeepsBad(p, op);
    }
  }

  lemma {:induction false} HistoryPhase(ops: seq<ProcessorOp>)
    ensures Explains(ops, ProcessorAfter(ops))
  {
    if ops != [] {
      var front, op := ops[..|ops| - 1], ops[|ops| - 1];
      HistoryPhase(front);
      ExplainsSnoc(front, op, ProcessorAfter(front), ProcessorAfter(ops));
      assert ops == front + [op];
    }
  }

  /** Over any history a processor's callbacks are well bracketed if and only if no initialisation
      comes after an event or a finalisation and, of the events before the first finalisation, none
      has run number -1 once it is finalised; until then the first has not, and after a -1 there is
      only -1. */
  lemma ProcessorExact(ops: seq<ProcessorOp>)
    ensures Follow(Idle, ProcessorAfter(ops).calls) != Bad <==> InOrder(ops)
    ensures InOrder(ops) ==> (Follow(Idle, ProcessorAfter(ops).calls) == Finished <==> OnFinalize in ops)
  {
    HistoryPhase(ops);
  }

  lemma {:induction false} RunsFromEvents(ops: seq<ProcessorOp>)
    requires forall i :: 0 <= i < |ops| && ops[i].OnEvent? ==> ops[i].run != NO_RUN
    ensures NoNone(RunsBefore(ops)) && NoneAtEnd(RunsBefore(ops))
  {
    if ops != [] { RunsFromEvents(ops[..|ops| - 1]); }
  }

  /** In particular, with initialisation first and run numbers other than -1 nothing is out of order;
      and whatever the history, after finalising only an initialisation adds to the callbacks. */
  lemma ProcessorBracketed(ops: seq<ProcessorOp>)
    ensures InitsFirst(ops) && (forall i :: 0 <= i < |ops| && ops[i].OnEvent? ==> ops[i].run != NO_RUN) ==>
              Follow(Idle, ProcessorAfter(ops).calls) != Bad
    ensures forall op :: ProcessorAfter(ops).status.Finalized? ==>
              (Apply(ProcessorAfter(ops), op) == ProcessorAfter(ops) <==> !op.OnInit?)
  {
    if InitsFirst(ops) && forall i :: 0 <= i < |ops| && ops[i].OnEvent? ==> ops[i].run != NO_RUN {
      RunsFromEvents(ops);
      ProcessorExact(ops);
    }
    var p := ProcessorAfter(ops);
    assert |Start(p).calls| == |p.calls| + 1;
  }

  /** The number of events processed is the number of events that came while it was not finalised, each
      with one call of Process. */
  lemma {:induction false} EventsCounted(ops: seq<ProcessorOp>)
    ensures ProcessorAfter(ops).count == |ProcessedRuns(ProcessorAfter(ops).calls)|
    ensures InitsFirst(ops) ==> ProcessorAfter(ops).count == |RunsBefore(ops)|
    ensures InitsFirst(ops) ==> ProcessedRuns(ProcessorAfter(ops).calls) == RunsBefore(ops)
  {
    if ops != [] {
      var front, op := ops[..|ops| - 1], ops[|ops| - 1];
      assert ops == front + [op];
      EventsCounted(front);
      ApplyProcesses(ProcessorAfter(front), op);
      InitsFirstSnoc(front, op);
      FinalizedIs(front);
    }
  }

  lemma {:induction false} NoneProcessed(calls: seq<Call>)
    requires forall i :: 0 <= i < |calls| ==> !calls[i].Process?
    ensures ProcessedRuns(calls) == []
  {
    if calls != [] { NoneProcessed(calls[..|calls| - 1]); }
  }

  lemma ReduceProcesses(p: Processor, run: int)
    ensures ProcessedRuns(p.calls + ReduceCalls(p, run)) == ProcessedRuns(p.calls) + [run]
  {
    var calls := ReduceCalls(p, run);
    var before := calls[..|calls| - 1];
    assert calls == before + [Process(run)];
    NoneProcessed(before);
    ProcessedRunsConcat(p.calls, calls);
  }

  lemma OthersProcessNone(p: Processor, tail: seq<Call>)
    requires forall i :: 0 <= i < |tail| ==> !tail[i].Process?
    ensures ProcessedRuns(p.calls + tail) == ProcessedRuns(p.calls)
  {
    ProcessedRunsConcat(p.calls, tail);
    NoneProcessed(tail);
  }

  lemma ApplyProcesses(p: Processor, op: ProcessorOp)
    ensures var counted := op.OnEvent? && !p.status.Finalized?;
            ProcessedRuns(Apply(p, op).calls) == ProcessedRuns(p.calls) + (if counted then [op.run] else []) &&
            Apply(p, op).count == p.count + if counted then 1 else 0
  {
    if op.OnEvent? {
      if !p.status.Finalized? { ReduceProcesses(p, op.run); }
    } else if op.OnInit? {
      OthersProcessNone(p, [Init]);
    } else if !p.status.Finalized? {
      var tail := (if p.lastRun != NO_RUN then [EndRun] else []) + [Finish];
      assert Apply(p, op).calls == p.calls + tail;
      OthersProcessNone(p, tail);
    }
  }

  lemma {:induction false} FinalizedIs(ops: seq<ProcessorOp>)
    ensures InitsFirst(ops) ==> (ProcessorAfter(ops).status.Finalized? <==> OnFinalize in ops)
  {
    if ops != [] {
      var front, op := ops[..|ops| - 1], ops[|ops| - 1];
      assert ops == front + [op];
      FinalizedIs(front);
      InitsFirstSnoc(front, op);
    }
  }

  /** How often Init has been called. */
  function Inits(calls: seq<Call>): nat {
    if calls == [] then 0 else Inits(calls[..|calls| - 1]) + if calls[|calls| - 1].Init? then 1 else 0
  }

  function Asked(ops: seq<ProcessorOp>): nat {
    if ops == [] then 0 else Asked(ops[..|ops| - 1]) + if ops[|ops| - 1].OnInit? then 1 else 0
  }

  lemma {:induction false} InitsConcat(a: seq<Call>, b: seq<Call>)
    ensures Inits(a + b) == Inits(a) + Inits(b)
  {
    if b == [] {
      assert a + b == a;
    } else {
      assert (a + b)[..|a + b| - 1] == a + b[..|b| - 1];
      InitsConcat(a, b[..|b| - 1]);
    }
  }

  lemma {:induction false} NoInits(calls: seq<Call>)
    requires Init !in calls
    ensures Inits(calls) == 0
  {
    if calls != [] {
      assert Init !in calls[..|calls| - 1];
      NoInits(calls[..|calls| - 1]);
    }
  }

  /** What an operation adds: maybe Init, then other callbacks. */
  lemma ApplyAdds(p: Processor, op: ProcessorOp) returns (first: seq<Call>, rest: seq<Call>)
    ensures Apply(p, op).calls == p.calls + (first + rest) && Init !in rest
    ensures first == if op.OnInit? || (op.OnEvent? && p.status.Uninitialized?) then [Init] else []
  {
    first := if op.OnInit? || (op.OnEvent? && p.status.Uninitialized?) then [Init] else [];
    rest := if op.OnInit? || p.status.Finalized? then []
            else if op.OnFinalize? then (if p.lastRun != NO_RUN then [EndRun] else []) + [Finish]
            else (if p.lastRun == op.run then []
                  else (if p.lastRun != NO_RUN then [EndRun] else []) + [BeginRun(op.run)]) + [Process(op.run)];
  }

  lemma ApplyInits(p: Processor, op: ProcessorOp)
    ensures Inits(Apply(p, op).calls) ==
            Inits(p.calls) + if op.OnInit? || (op.OnEvent? && p.status.Uninitialized?) then 1 else 0
  {
    var first, rest := ApplyAdds(p, op);
    InitsConcat(p.calls, first + rest);
    InitsConcat(first, rest);
    NoInits(rest);
    if first != [] { assert first[..0] == []; }
  }

  /** Init is called once per initialisation, and once more if the very first thing to happen is an
      event. */
  lemma {:induction false} InitsCounted(ops: seq<ProcessorOp>)
    ensures Inits(ProcessorAfter(ops).calls) == Asked(ops) + if ops != [] && ops[0].OnEvent? then 1 else 0
    ensures ProcessorAfter(ops).status.Uninitialized? <==> ops == []
  {
    if ops != [] {
      InitsCounted(ops[..|ops| - 1]);
      ApplyInits(ProcessorAfter(ops[..|ops| - 1]), ops[|ops| - 1]);
    }
  }
}
