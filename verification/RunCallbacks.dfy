/** The run callbacks that factories, multifactories and event processors make, and the one
    automaton all their traces are measured against. */
module RunCallbacks {

  const NO_RUN: int := -1  // the initial "previous run number"

  datatype Call = Init | ChangeRun(run: int) | BeginRun(run: int) | Process(run: int) | EndRun | Finish

  /** Outside any run, inside one, after one, finished for good, or broken. */
  datatype Phase = Idle | Running(run: int) | Between(last: int) | Finished | Bad

  /** Each Process lies inside the BeginRun of its own run, exactly one EndRun separates successive
      BeginRuns, and adjacent runs differ. */
  function Advance(p: Phase, c: Call): Phase {
    match c
    case Init => if p.Idle? then Idle else Bad
    case ChangeRun(_) => if p.Idle? || p.Between? then p else Bad
    case BeginRun(r) => if p.Idle? || (p.Between? && p.last != r) then Running(r) else Bad
    case Process(r) => if p == Running(r) then p else Bad
    case EndRun => if p.Running? then Between(p.run) else Bad
    case Finish => if p.Idle? || p.Between? then Finished else Bad
  }

  function Follow(p: Phase, calls: seq<Call>): Phase
    decreases |calls|
  {
    if calls == [] then p else Follow(Advance(p, calls[0]), calls[1..])
  }

  lemma {:induction false} FollowConcat(p: Phase, a: seq<Call>, b: seq<Call>)
    ensures Follow(p, a + b) == Follow(Follow(p, a), b)
    decreases |a|
  {
    if a == [] {
      assert a + b == b;
    } else {
      assert (a + b)[1..] == a[1..] + b;
      FollowConcat(Advance(p, a[0]), a[1..], b);
    }
  }

  lemma {:induction false} BadForGood(calls: seq<Call>)
    ensures Follow(Bad, calls) == Bad
  {
    if calls != [] { BadForGood(calls[1..]); }
  }

  /** The run numbers of the Process calls. */
  function ProcessedRuns(calls: seq<Call>): seq<int> {
    if calls == [] then []
    else ProcessedRuns(calls[..|calls| - 1]) + (if calls[|calls| - 1].Process? then [calls[|calls| - 1].run] else [])
  }

  lemma {:induction false} ProcessedRunsConcat(a: seq<Call>, b: seq<Call>)
    ensures ProcessedRuns(a + b) == ProcessedRuns(a) + ProcessedRuns(b)
    decreases |b|
  {
    if b == [] {
      assert a + b == a;
    } else {
      assert (a + b)[..|a + b| - 1] == a + b[..|b| - 1];
      ProcessedRunsConcat(a, b[..|b| - 1]);
    }
  }

  // ---- processing events one after the other: factories (with ChangeRun) and multifactories (without)

  /** The callbacks made before Process when the previous run was `prev`. */
  function Announce(prev: int, run: int, change: bool): seq<Call> {
    var c := if change then [ChangeRun(run)] else [];
    if prev == NO_RUN then c + [BeginRun(run)]
    else if prev != run then [EndRun] + c + [BeginRun(run)]
    else []
  }

  function EventCalls(prev: int, run: int, change: bool): seq<Call> {
    Announce(prev, run, change) + [Process(run)]
  }

  /** The trace so far and the remembered run number belong together. */
  ghost predicate InStep(prev: int, calls: seq<Call>) {
    Follow(Idle, calls) == if prev == NO_RUN then Idle else Running(prev)
  }

  lemma EventPhase(p: Phase, prev: int, run: int, change: bool)
    ensures Follow(p, EventCalls(prev, run, change)) ==
              if prev == NO_RUN then (if p.Idle? || (p.Between? && p.last != run) then Running(run) else Bad)
              else if prev != run then (if p.Running? && p.run != run then Running(run) else Bad)
              else (if p == Running(run) then p else Bad)
  {
    var c := if change then [ChangeRun(run)] else [];
    var calls := EventCalls(prev, run, change);
    var p1 := if prev != NO_RUN && prev != run then Advance(p, EndRun) else p;
    if prev == NO_RUN || prev != run {
      var first := if prev == NO_RUN then [] else [EndRun];
      assert calls == first + (c + ([BeginRun(run)] + [Process(run)]));
      FollowConcat(p, first, c + ([BeginRun(run)] + [Process(run)]));
      FollowConcat(p1, c, [BeginRun(run)] + [Process(run)]);
      FollowConcat(Follow(p1, c), [BeginRun(run)], [Process(run)]);
    }
  }

  function LastRun(runs: seq<int>): int {
    if runs == [] then NO_RUN else runs[|runs| - 1]
  }

  /** The trace of processing events of these run numbers, one after the other. */
  function Trace(runs: seq<int>, change: bool): seq<Call> {
    if runs == [] then []
    else
      var front := runs[..|runs| - 1];
      Trace(front, change) + EventCalls(LastRun(front), LastRun(runs), change)
  }

  lemma TraceSnoc(runs: seq<int>, run: int, change: bool)
    ensures Trace(runs + [run], change) == Trace(runs, change) + EventCalls(LastRun(runs), run, change)
  {
    assert (runs + [run])[..|runs + [run]| - 1] == runs;
  }

  /** The number -1, which also stands for "no run yet", occurs at most in the last event. */
  ghost predicate OnlyLastMayBeNone(runs: seq<int>) {
    forall i :: 0 <= i < |runs| - 1 ==> runs[i] != NO_RUN
  }

  lemma OnlyLastSnoc(runs: seq<int>, front: seq<int>)
    requires runs != [] && front == runs[..|runs| - 1]
    ensures OnlyLastMayBeNone(runs) <==> OnlyLastMayBeNone(front) && (front == [] || LastRun(front) != NO_RUN)
  {
    if OnlyLastMayBeNone(front) && (front == [] || LastRun(front) != NO_RUN) {
      forall i | 0 <= i < |runs| - 1 ensures runs[i] != NO_RUN { assert runs[i] == front[i]; }
    }
    if OnlyLastMayBeNone(runs) {
      forall i | 0 <= i < |front| ensures front[i] != NO_RUN { assert runs[i] == front[i]; }
    }
  }

  lemma {:induction false} TracePhase(runs: seq<int>, change: bool)
    ensures Follow(Idle, Trace(runs, change)) ==
              if !OnlyLastMayBeNone(runs) then Bad else if runs == [] then Idle else Running(LastRun(runs))
  {
    if runs != [] {
      var front := runs[..|runs| - 1];
      var calls := EventCalls(LastRun(front), LastRun(runs), change);
      TracePhase(front, change);
      FollowConcat(Idle, Trace(front, change), calls);
      EventPhase(Follow(Idle, Trace(front, change)), LastRun(front), LastRun(runs), change);
      BadForGood(calls);
      OnlyLastSnoc(runs, front);
    }
  }

  /** The trace of a factory or multifactory is well bracketed if and only if no event before the
      last one carries the run number -1. */
  lemma TraceExact(runs: seq<int>, change: bool)
    ensures Follow(Idle, Trace(runs, change)) != Bad <==> OnlyLastMayBeNone(runs)
  {
    TracePhase(runs, change);
  }

  // ---- ChangeRun

  /** Each BeginRun comes right after a ChangeRun to the same run, and there are no other ChangeRuns. */
  ghost predicate Paired(calls: seq<Call>) {
    (forall i :: 0 <= i < |calls| && calls[i].BeginRun? ==> i > 0 && calls[i - 1] == ChangeRun(calls[i].run)) &&
    forall i :: 0 <= i < |calls| && calls[i].ChangeRun? ==> i + 1 < |calls| && calls[i + 1] == BeginRun(calls[i].run)
  }

  lemma PairedConcat(a: seq<Call>, b: seq<Call>)
    requires Paired(a) && Paired(b)
    ensures Paired(a + b)
  {
    var all := a + b;
    forall i | 0 <= i < |all| && all[i].BeginRun? ensures i > 0 && all[i - 1] == ChangeRun(all[i].run) {
      if i < |a| { assert a[i].BeginRun?; } else { assert b[i - |a|].BeginRun?; }
    }
    forall i | 0 <= i < |all| && all[i].ChangeRun? ensures i + 1 < |all| && all[i + 1] == BeginRun(all[i].run) {
      if i < |a| { assert a[i].ChangeRun?; } else { assert b[i - |a|].ChangeRun?; }
    }
  }

  /** The run numbers of the ChangeRun calls. */
  function ChangedRuns(calls: seq<Call>): seq<int> {
    if calls == [] then []
    else ChangedRuns(calls[..|calls| - 1]) + if calls[|calls| - 1].ChangeRun? then [calls[|calls| - 1].run] else []
  }

  /** The runs that differ from the one before; the number -1 counts as no run. */
  function NewRuns(runs: seq<int>): seq<int> {
    if runs == [] then []
    else
      var front, run := runs[..|runs| - 1], runs[|runs| - 1];
      NewRuns(front) + if front == [] || front[|front| - 1] == NO_RUN || front[|front| - 1] != run then [run] else []
  }

  lemma {:induction false} ChangedRunsConcat(a: seq<Call>, b: seq<Call>)
    ensures ChangedRuns(a + b) == ChangedRuns(a) + ChangedRuns(b)
  {
    if b == [] {
      assert a + b == a;
    } else {
      assert (a + b)[..|a + b| - 1] == a + b[..|b| - 1];
      ChangedRunsConcat(a, b[..|b| - 1]);
    }
  }

  lemma OneCall(c: Call)
    ensures ChangedRuns([c]) == if c.ChangeRun? then [c.run] else []
  {
    assert [c][..0] == [];
  }

  lemma EventChangesRun(prev: int, run: int)
    ensures Paired(EventCalls(prev, run, true))
    ensures ChangedRuns(EventCalls(prev, run, true)) == if prev == NO_RUN || prev != run then [run] else []
  {
    var calls := EventCalls(prev, run, true);
    OneCall(EndRun);
    OneCall(ChangeRun(run));
    OneCall(BeginRun(run));
    OneCall(Process(run));
    if prev == NO_RUN || prev != run {
      var first := if prev == NO_RUN then [] else [EndRun];
      assert calls == first + ([ChangeRun(run)] + ([BeginRun(run)] + [Process(run)]));
      ChangedRunsConcat(first, [ChangeRun(run)] + ([BeginRun(run)] + [Process(run)]));
      ChangedRunsConcat([ChangeRun(run)], [BeginRun(run)] + [Process(run)]);
      ChangedRunsConcat([BeginRun(run)], [Process(run)]);
    }
  }

  lemma {:induction false} TraceChangesRun(runs: seq<int>)
    ensures Paired(Trace(runs, true)) && ChangedRuns(Trace(runs, true)) == NewRuns(runs)
  {
    if runs != [] {
      var front := runs[..|runs| - 1];
      var event := EventCalls(LastRun(front), LastRun(runs), true);
      TraceChangesRun(front);
      EventChangesRun(LastRun(front), LastRun(runs));
      PairedConcat(Trace(front, true), event);
      ChangedRunsConcat(Trace(front, true), event);
    }
  }

  /** Without ChangeRun there is none. */
  lemma {:induction false} TraceWithoutChange(runs: seq<int>)
    ensures forall c :: c in Trace(runs, false) ==> !c.ChangeRun?
  {
    if runs != [] { TraceWithoutChange(runs[..|runs| - 1]); }
  }
}
