/** The open/emit/close protocol of an event source, with its skip and limit counters. It is
    written twice in the program, once for callbacks that return a result and once for legacy
    callbacks that throw a return status. */
module EventSources {

  const WORD: nat := 0x1_0000_0000_0000_0000  // event counters are 64 bits wide

  type Word = n: nat | n < WORD

  datatype Style = NewStyle | Legacy

  datatype Status = Uninitialized | Initialized | Opened | Closed

  datatype Result = Success | FailureTryAgain | FailureFinished

  /** What the user's callback does. `ThrowsSuccess` is a legacy callback throwing kSUCCESS. */
  datatype Outcome = Delivers | Finishes | Retries | Fails | ThrowsSuccess

  datatype Answer = Returned(result: Result) | Done | Threw

  datatype Callback = Initialize | Open(returned: bool) | Emit(number: nat, outcome: Outcome) | Close

  datatype Source = Source(status: Status, count: Word, nskip: Word, nevents: Word, log: seq<Callback>)

  /** One request to the source; `opens` says whether the user's Open() would return. */
  datatype Op = InitNow | Next(opens: bool, outcome: Outcome) | OpenNow(opens: bool) | CloseNow

  function Plus(a: Word, b: Word): Word { (a + b) % WORD }

  function Init(s: Source): (Source, Answer) {
    if s.status.Uninitialized? then (s.(status := Initialized, log := s.log + [Initialize]), Done) else (s, Threw)
  }

  function DoOpen(s: Source, opens: bool): (Source, Answer) {
    if !s.status.Initialized? then (s, Threw)
    else
      var t := s.(log := s.log + [Open(opens)]);
      if opens then (t.(status := Opened), Done) else (t, Threw)
  }

  function DoClose(s: Source): Source {
    if s.status.Opened? then s.(status := Closed, log := s.log + [Close]) else s
  }

  predicate AtLimit(s: Source) {
    s.nevents != 0 && s.count == Plus(s.nevents, s.nskip)
  }

  function Called(s: Source, outcome: Outcome): Source {
    s.(log := s.log + [Emit(s.count, outcome)])
  }

  function NextOpened(s: Source, outcome: Outcome): (Source, Answer) {
    if AtLimit(s) then (DoClose(s), Returned(FailureFinished))
    else
      var t := Called(s, outcome);
      match outcome
      case Delivers =>
        var u := t.(count := Plus(t.count, 1));
        (u, Returned(if u.count <= u.nskip then FailureTryAgain else Success))
      case Finishes => (DoClose(t), Returned(FailureFinished))
      case Retries => (t, Returned(FailureTryAgain))
      case Fails => (t, Threw)
      case ThrowsSuccess => (t, Threw)
  }

  function NextOpenedLegacy(s: Source, outcome: Outcome): (Source, Answer) {
    if !(s.count < s.nskip) && AtLimit(s) then (DoClose(s), Returned(FailureFinished))
    else
      var t := Called(s, outcome);
      match outcome
      case Delivers =>
        (t.(count := Plus(t.count, 1)), Returned(if s.count < s.nskip then FailureTryAgain else Success))
      case Finishes => (DoClose(t), Returned(FailureFinished))
      case Retries => (t, Returned(FailureTryAgain))
      case Fails => (t, Threw)
      case ThrowsSuccess => (t, Returned(Success))
  }

  function DoNext(style: Style, s: Source, opens: bool, outcome: Outcome): (Source, Answer) {
    if s.status.Uninitialized? then (s, Threw)
    else
      var (s1, a) := if s.status.Initialized? then DoOpen(s, opens) else (s, Done);
      if a.Threw? then (s1, Threw)
      else if s1.status.Closed? then (s1, Returned(FailureFinished))
      else if style.NewStyle? then NextOpened(s1, outcome) else NextOpenedLegacy(s1, outcome)
  }

  /** The source object: the program's fields plus the log of the user callbacks it made. */
  class JEventSource {
    const style: Style
    var status: Status
    var count: Word
    var nskip: Word
    var nevents: Word
    var log: seq<Callback>

    function State(): Source
      reads this
    {
      Source(status, count, nskip, nevents, log)
    }

    constructor (style: Style)
      ensures this.style == style && State() == Source(Uninitialized, 0, 0, 0, [])
    {
      this.style, status, count, nskip, nevents, log := style, Uninitialized, 0, 0, 0, [];
    }

    method Initialize() returns (a: Answer)
      modifies this
      ensures (State(), a) == Init(old(State()))
    {
      if status == Uninitialized {
        log := log + [Callback.Initialize];
        status := Initialized;
        a := Done;
      } else {
        a := Threw;
      }
    }

    method OpenSource(opens: bool) returns (a: Answer)
      modifies this
      ensures (State(), a) == DoOpen(old(State()), opens)
    {
      if status != Initialized { return Threw; }
      log := log + [Open(opens)];
      if !opens { return Threw; }
      status := Opened;
      a := Done;
    }

    method CloseSource()
      modifies this
      ensures State() == DoClose(old(State()))
    {
      if status != Opened { return; }
      log := log + [Close];
      status := Closed;
    }

    method Next(opens: bool, outcome: Outcome) returns (a: Answer)
      modifies this
      ensures (State(), a) == DoNext(style, old(State()), opens, outcome)
    {
      if status == Uninitialized { return Threw; }
      if style == Legacy {
        a := NextCompatibility(opens, outcome);
        return;
      }
      var first, last := nskip, Plus(nevents, nskip);
      if status == Initialized {
        a := OpenSource(opens);
        if a == Threw { return; }
      }
      if status == Opened {
        if nevents != 0 && count == last {
          CloseSource();
          return Returned(FailureFinished);
        }
        log := log + [Emit(count, outcome)];
        match outcome
        case Delivers =>
          count := Plus(count, 1);
          if count <= first { return Returned(FailureTryAgain); }
          return Returned(Success);
        case Finishes =>
          CloseSource();
          return Returned(FailureFinished);
        case Retries =>
          return Returned(FailureTryAgain);
        case Fails =>
          return Threw;
        case ThrowsSuccess =>
          return Threw;
      } else {
        return Returned(FailureFinished);
      }
    }

    method NextCompatibility(opens: bool, outcome: Outcome) returns (a: Answer)
      requires status != Uninitialized
      modifies this
      ensures (State(), a) == DoNext(Legacy, old(State()), opens, outcome)
    {
      var first, last := nskip, Plus(nevents, nskip);
      if status == Initialized {
        a := OpenSource(opens);
        if a == Threw { return; }
      }
      if status == Opened {
        if count < first {
          log := log + [Emit(count, outcome)];
          if outcome == Delivers {
            count := Plus(count, 1);
            return Returned(FailureTryAgain);
          }
        } else if nevents != 0 && count == last {
          CloseSource();
          return Returned(FailureFinished);
        } else {
          log := log + [Emit(count, outcome)];
          if outcome == Delivers {
            count := Plus(count, 1);
            return Returned(Success);
          }
        }
        // the callback threw
        if outcome == Finishes {
          CloseSource();
          return Returned(FailureFinished);
        } else if outcome == Retries {
          return Returned(FailureTryAgain);
        } else if outcome == Fails {
          return Threw;
        } else {
          return Returned(Success);
        }
      } else {
        return Returned(FailureFinished);
      }
    }
  }

  // ---- runs

  function Step(style: Style, s: Source, op: Op): (Source, Answer) {
    match op
    case InitNow => Init(s)
    case Next(opens, outcome) => DoNext(style, s, opens, outcome)
    case OpenNow(opens) => DoOpen(s, opens)
    case CloseNow => (DoClose(s), Done)
  }

  function After(style: Style, s: Source, ops: seq<Op>): Source {
    if ops == [] then s else Step(style, After(style, s, ops[..|ops| - 1]), ops[|ops| - 1]).0
  }

  function AnswerAt(style: Style, s: Source, ops: seq<Op>, i: nat): Answer
    requires i < |ops|
  {
    Step(style, After(style, s, ops[..i]), ops[i]).1
  }

  function New(nskip: Word, nevents: Word): Source { Source(Uninitialized, 0, nskip, nevents, []) }

  /** A source that has been initialised and not yet used. */
  function Ready(nskip: Word, nevents: Word): Source {
    Source(Initialized, 0, nskip, nevents, [Initialize])
  }

  /** The requests that may open the source. */
  predicate Asks(op: Op) { op.Next? || op.OpenNow? }

  function Deliveries(ops: seq<Op>): nat {
    if ops == [] then 0
    else Deliveries(ops[..|ops| - 1]) + (if ops[|ops| - 1].Next? && ops[|ops| - 1].outcome.Delivers? then 1 else 0)
  }

  ghost predicate NoThrownSuccess(ops: seq<Op>) {
    forall i :: 0 <= i < |ops| && ops[i].Next? ==> !ops[i].outcome.ThrowsSuccess?
  }

  /** Fewer deliveries than the counter can hold. */
  ghost predicate Admissible(ops: seq<Op>) {
    NoThrownSuccess(ops) && Deliveries(ops) < WORD
  }

  /** Same status, same event count, same callbacks and same answers, at every step. */
  ghost predicate SameRun(s: Source, ops: seq<Op>) {
    (forall i: nat :: i <= |ops| ==> After(NewStyle, s, ops[..i]) == After(Legacy, s, ops[..i])) &&
    forall i: nat :: i < |ops| ==> AnswerAt(NewStyle, s, ops, i) == AnswerAt(Legacy, s, ops, i)
  }

  predicate NoOverflow(nskip: Word, nevents: Word) {
    nevents == 0 || nskip + nevents < WORD
  }

  // ---- what every step keeps

  /** The callback log in each status: Init, calls to Open until one returns, then events, then closed
      at most once. */
  ghost predicate LogShape(s: Source) {
    var k := OpenCalls(s.log);
    match s.status
    case Uninitialized => s.log == []
    case Initialized => k == |s.log| - 1 && s.log[0] == Initialize && OnlyRefusals(s.log[1..])
    case Opened => OpensAt(s.log, k) && OnlyEmits(s.log[k + 1..])
    case Closed =>
      OpensAt(s.log, k) && k + 1 < |s.log| && s.log[|s.log| - 1] == Close && OnlyEmits(s.log[k + 1..|s.log| - 1])
  }

  function OpenCalls(log: seq<Callback>): nat {
    if log == [] then 0 else OpenCalls(log[..|log| - 1]) + if log[|log| - 1].Open? then 1 else 0
  }

  ghost predicate OnlyRefusals(log: seq<Callback>) {
    forall i :: 0 <= i < |log| ==> log[i] == Open(false)
  }

  ghost predicate OpensAt(log: seq<Callback>, k: nat) {
    1 <= k < |log| && log[0] == Initialize && log[k] == Open(true) && OnlyRefusals(log[1..k])
  }

  ghost predicate OnlyEmits(log: seq<Callback>) {
    forall i :: 0 <= i < |log| ==> log[i].Emit?
  }

  function Delivered(log: seq<Callback>): nat {
    if log == [] then 0
    else Delivered(log[..|log| - 1]) + (if log[|log| - 1].Emit? && log[|log| - 1].outcome.Delivers? then 1 else 0)
  }

  /** Each event is offered under the number of events delivered before it. */
  ghost predicate Numbered(log: seq<Callback>) {
    log == [] ||
    var front, last := log[..|log| - 1], log[|log| - 1];
    Numbered(front) && (last.Emit? ==> last.number == Delivered(front))
  }

  ghost predicate Good(s: Source) {
    LogShape(s) && Numbered(s.log) && s.count == Delivered(s.log) && (s.status.Initialized? ==> s.count == 0) &&
    (s.nevents != 0 ==> s.count <= s.nskip + s.nevents)
  }

  lemma {:induction false} OneMore(log: seq<Callback>, c: Callback)
    requires Numbered(log) && (c.Emit? ==> c.number == Delivered(log))
    ensures Delivered(log + [c]) == Delivered(log) + (if c.Emit? && c.outcome.Delivers? then 1 else 0)
    ensures Numbered(log + [c])
  {
    assert (log + [c])[..|log + [c]| - 1] == log;
  }

  lemma CallCounts(log: seq<Callback>, c: Callback)
    ensures OpenCalls(log + [c]) == OpenCalls(log) + if c.Open? then 1 else 0
  {
    assert (log + [c])[..|log + [c]| - 1] == log;
  }

  lemma OpenKeepsGood(s: Source, opens: bool)
    requires Good(s)
    ensures Good(DoOpen(s, opens).0)
  {
    if s.status.Initialized? {
      OneMore(s.log, Open(opens));
      CallCounts(s.log, Open(opens));
      assert (s.log + [Open(opens)])[1..|s.log|] == s.log[1..];
    }
  }

  /** One more callback after a successful Open. */
  lemma LogGrows(log: seq<Callback>, k: nat, c: Callback)
    requires OpensAt(log, k)
    ensures OpensAt(log + [c], k) && (log + [c])[k + 1..] == log[k + 1..] + [c]
    ensures (log + [c])[k + 1..|log|] == log[k + 1..]
  {
    assert (log + [c])[1..k] == log[1..k];
  }

  lemma CallKeepsShape(s: Source, outcome: Outcome)
    requires LogShape(s) && s.status.Opened?
    ensures LogShape(Called(s, outcome))
  {
    LogGrows(s.log, OpenCalls(s.log), Emit(s.count, outcome));
    CallCounts(s.log, Emit(s.count, outcome));
  }

  lemma CallKeepsGood(s: Source, outcome: Outcome, count: Word)
    requires Good(s) && s.status.Opened? && !AtLimit(s) && NoOverflow(s.nskip, s.nevents)
    requires count == s.count + if outcome.Delivers? then 1 else 0
    ensures Good(Called(s, outcome).(count := count))
  {
    OneMore(s.log, Emit(s.count, outcome));
    CallKeepsShape(s, outcome);
  }

  lemma CloseKeepsShape(s: Source)
    requires LogShape(s) && s.status.Opened?
    ensures LogShape(DoClose(s))
  {
    var k := OpenCalls(s.log);
    LogGrows(s.log, k, Close);
    CallCounts(s.log, Close);
  }

  lemma CloseKeepsGood(s: Source)
    requires Good(s)
    ensures Good(DoClose(s))
  {
    if s.status.Opened? {
      OneMore(s.log, Close);
      CloseKeepsShape(s);
    }
  }

  /** What a step leaves behind, counting at most `more` events. */
  ghost predicate Kept(s: Source, t: Source, more: nat) {
    Good(t) && !t.status.Uninitialized? && t.nskip == s.nskip && t.nevents == s.nevents && t.count <= s.count + more
  }

  lemma NextOpenedIs(s: Source, outcome: Outcome, u: Source)
    requires s.status.Opened? && !AtLimit(s) && (outcome.Delivers? ==> s.count + 1 < WORD)
    requires u == Called(s, outcome).(count := if outcome.Delivers? then s.count + 1 else s.count)
    ensures NextOpened(s, outcome).0 == if outcome.Finishes? then DoClose(u) else u
  {
  }

  lemma NextOpenedKeepsGood(s: Source, outcome: Outcome)
    requires Good(s) && s.status.Opened? && NoOverflow(s.nskip, s.nevents)
    requires outcome.Delivers? ==> s.count + 1 < WORD
    ensures Kept(s, NextOpened(s, outcome).0, if outcome.Delivers? then 1 else 0)
  {
    if AtLimit(s) {
      CloseKeepsGood(s);
    } else {
      var u := Called(s, outcome).(count := if outcome.Delivers? then s.count + 1 else s.count);
      CallKeepsGood(s, outcome, u.count);
      CloseKeepsGood(u);
      NextOpenedIs(s, outcome, u);
    }
  }

  /** A request opens the source first if need be. */
  lemma NextOpens(style: Style, s: Source, opens: bool, outcome: Outcome)
    requires s.status != Uninitialized
    ensures var t := if s.status.Initialized? then DoOpen(s, opens).0 else s;
            DoNext(style, s, opens, outcome).0 ==
            if !t.status.Opened? then t
            else if style.NewStyle? then NextOpened(t, outcome).0 else NextOpenedLegacy(t, outcome).0
  {
  }

  lemma StepKeepsGood(s: Source, op: Op)
    requires Good(s) && s.status != Uninitialized && NoOverflow(s.nskip, s.nevents)
    requires op.Next? && op.outcome.Delivers? ==> s.count + 1 < WORD
    ensures Kept(s, Step(NewStyle, s, op).0, if op.Next? && op.outcome.Delivers? then 1 else 0)
  {
    if op.CloseNow? {
      CloseKeepsGood(s);
    } else if Asks(op) {
      var t := DoOpen(s, op.opens).0;
      OpenKeepsGood(s, op.opens);
      if op.Next? {
        NextOpens(NewStyle, s, op.opens, op.outcome);
        if t.status.Opened? { NextOpenedKeepsGood(t, op.outcome); }
      }
    }
  }

  lemma {:induction false} RunKeepsGood(nskip: Word, nevents: Word, ops: seq<Op>)
    requires NoOverflow(nskip, nevents) && Deliveries(ops) < WORD
    ensures var s := After(NewStyle, Ready(nskip, nevents), ops);
            Good(s) && s.status != Uninitialized &&
            s.nskip == nskip && s.nevents == nevents && s.count <= Deliveries(ops)
  {
    if ops != [] {
      var front := ops[..|ops| - 1];
      RunKeepsGood(nskip, nevents, front);
      StepKeepsGood(After(NewStyle, Ready(nskip, nevents), front), ops[|ops| - 1]);
    } else {
      assert [Initialize][..0] == [];
    }
  }

  // ---- the two styles agree

  /** A request in which the callback is reached and throws kSUCCESS: the source is open, or opens
      now, and is not at its limit. */
  predicate ThrowReached(s: Source, op: Op) {
    op.Next? && op.outcome.ThrowsSuccess? && (s.status.Opened? || (s.status.Initialized? && op.opens)) && !AtLimit(s)
  }

  ghost predicate NoThrowReached(s: Source, ops: seq<Op>) {
    forall i: nat :: i < |ops| ==> !ThrowReached(After(NewStyle, s, ops[..i]), ops[i])
  }

  /** One request is answered alike in both styles, unless a thrown kSUCCESS is reached. */
  lemma StepAgrees(s: Source, op: Op)
    requires NoOverflow(s.nskip, s.nevents)
    requires op.Next? && op.outcome.Delivers? ==> s.count + 1 < WORD
    ensures if ThrowReached(s, op) then Step(NewStyle, s, op).1 != Step(Legacy, s, op).1
            else Step(NewStyle, s, op) == Step(Legacy, s, op)
  {
  }

  lemma SameRunNext(s: Source, ops: seq<Op>)
    requires ops != [] && SameRun(s, ops[..|ops| - 1])
    requires var t := After(NewStyle, s, ops[..|ops| - 1]);
             Step(NewStyle, t, ops[|ops| - 1]) == Step(Legacy, t, ops[|ops| - 1])
    ensures SameRun(s, ops)
  {
    var front := ops[..|ops| - 1];
    assert front[..|front|] == front && ops[..|ops|] == ops;
    forall i: nat | i <= |ops| ensures After(NewStyle, s, ops[..i]) == After(Legacy, s, ops[..i]) {
      if i < |ops| { assert ops[..i] == front[..i]; }
    }
    forall i: nat | i < |ops| ensures AnswerAt(NewStyle, s, ops, i) == AnswerAt(Legacy, s, ops, i) {
      assert ops[..i] == front[..i];
      if i < |front| { assert AnswerAt(NewStyle, s, front, i) == AnswerAt(Legacy, s, front, i); }
    }
  }

  lemma {:induction false} RunAgrees(nskip: Word, nevents: Word, ops: seq<Op>)
    requires NoOverflow(nskip, nevents) && Deliveries(ops) < WORD && NoThrowReached(Ready(nskip, nevents), ops)
    ensures SameRun(Ready(nskip, nevents), ops)
  {
    if ops != [] {
      var front := ops[..|ops| - 1];
      assert forall i: nat :: i < |front| ==> front[i] == ops[i] && front[..i] == ops[..i];
      RunAgrees(nskip, nevents, front);
      RunKeepsGood(nskip, nevents, front);
      StepAgrees(After(NewStyle, Ready(nskip, nevents), front), ops[|ops| - 1]);
      assert ops[..|front|] == front;
      SameRunNext(Ready(nskip, nevents), ops);
    } else {
      assert ops[..0] == [];
    }
  }

  lemma {:induction false} FewerDeliveries(ops: seq<Op>, i: nat)
    requires i <= |ops|
    ensures Deliveries(ops[..i]) <= Deliveries(ops)
    ensures i < |ops| && ops[i].Next? && ops[i].outcome.Delivers? ==> Deliveries(ops[..i]) < Deliveries(ops)
  {
    if i == |ops| {
      assert ops[..i] == ops;
    } else {
      var front := ops[..|ops| - 1];
      assert front[..i] == ops[..i];
      FewerDeliveries(front, i);
    }
  }

  /** For every stream within the counter, and limits that do not overflow, the two styles run alike
      if and only if no thrown kSUCCESS is ever reached: it is reported as a success, without being counted, by the
      legacy style only. */
  lemma ThrownSuccessExact(nskip: Word, nevents: Word, ops: seq<Op>)
    requires NoOverflow(nskip, nevents) && Deliveries(ops) < WORD
    ensures SameRun(Ready(nskip, nevents), ops) <==> NoThrowReached(Ready(nskip, nevents), ops)
  {
    var s := Ready(nskip, nevents);
    if NoThrowReached(s, ops) { RunAgrees(nskip, nevents, ops); }
    if SameRun(s, ops) {
      forall i: nat | i < |ops| ensures !ThrowReached(After(NewStyle, s, ops[..i]), ops[i]) {
        FewerDeliveries(ops, i);
        RunKeepsGood(nskip, nevents, ops[..i]);
        StepAgrees(After(NewStyle, s, ops[..i]), ops[i]);
        assert After(NewStyle, s, ops[..i]) == After(Legacy, s, ops[..i]);
        assert AnswerAt(NewStyle, s, ops, i) == AnswerAt(Legacy, s, ops, i);
      }
    }
  }

  function Steady(k: nat): seq<Op> { seq(k, _ => Next(true, Delivers)) }

  lemma {:induction false} SteadyDelivers(k: nat)
    ensures Deliveries(Steady(k)) == k
  {
    if k > 0 {
      assert Steady(k)[..k - 1] == Steady(k - 1);
      SteadyDelivers(k - 1);
    }
  }

  /** A source that has skipped k events. */
  predicate Skipped(s: Source, nskip: Word, nevents: Word, k: nat) {
    s.count == k && s.nskip == nskip && s.nevents == nevents && s.status == if k == 0 then Initialized else Opened
  }

  lemma LegacySkip(s: Source, nskip: Word, nevents: Word, k: nat)
    requires k < nskip && Skipped(s, nskip, nevents, k)
    ensures Skipped(Step(Legacy, s, Next(true, Delivers)).0, nskip, nevents, k + 1)
  {
  }

  lemma {:induction false} LegacySkips(nskip: Word, nevents: Word, k: nat)
    requires k <= nskip
    ensures Skipped(After(Legacy, Ready(nskip, nevents), Steady(k)), nskip, nevents, k)
  {
    if k > 0 {
      assert Steady(k)[..k - 1] == Steady(k - 1);
      LegacySkips(nskip, nevents, k - 1);
      LegacySkip(After(Legacy, Ready(nskip, nevents), Steady(k - 1)), nskip, nevents, k - 1);
    }
  }

  lemma OverflowDiffers(nskip: Word, nevents: Word)
    requires !NoOverflow(nskip, nevents)
    ensures var ops := Steady(Plus(nevents, nskip) + 1);
            Admissible(ops) && !SameRun(Ready(nskip, nevents), ops)
  {
    var k := Plus(nevents, nskip);
    var s, ops := Ready(nskip, nevents), Steady(k + 1);
    assert k == nskip + nevents - WORD < nskip;
    SteadyDelivers(k + 1);
    LegacySkips(nskip, nevents, k);
    assert ops[..k] == Steady(k);
    assert AnswerAt(Legacy, s, ops, k) == Returned(FailureTryAgain);
    if After(NewStyle, s, ops[..k]) == After(Legacy, s, ops[..k]) {
      assert AnswerAt(NewStyle, s, ops, k) == Returned(FailureFinished);
    }
  }

  /** For every stream of callback outcomes that never throws kSUCCESS and stays within the
      counter, the two implementations agree at every step if and only if the limit does not
      overflow. */
  lemma StylesAgree(nskip: Word, nevents: Word)
    ensures (forall ops :: Admissible(ops) ==> SameRun(Ready(nskip, nevents), ops)) <==> NoOverflow(nskip, nevents)
  {
    if NoOverflow(nskip, nevents) {
      forall ops | Admissible(ops) ensures SameRun(Ready(nskip, nevents), ops) {
        RunAgrees(nskip, nevents, ops);
      }
    } else {
      OverflowDiffers(nskip, nevents);
    }
  }

  /** Such streams exist for all limits. */
  lemma ThrownSuccessDiffers(nskip: Word, nevents: Word)
    ensures !SameRun(Ready(nskip, nevents), [Next(true, ThrowsSuccess)])
  {
    var s, ops := Ready(nskip, nevents), [Next(true, ThrowsSuccess)];
    assert ops[..0] == [];
    assert AnswerAt(Legacy, s, ops, 0) == Returned(Success) != AnswerAt(NewStyle, s, ops, 0);
  }

  // ---- which events are accepted

  predicate Succeeds(style: Style, s: Source, op: Op) {
    Step(style, s, op).1 == Returned(Success)
  }

  /** The numbers of the events for which a request returned success. */
  function Accepted(style: Style, s: Source, ops: seq<Op>): seq<nat> {
    if ops == [] then []
    else
      var front := ops[..|ops| - 1];
      Accepted(style, s, front) +
      (if Succeeds(style, After(style, s, front), ops[|ops| - 1]) then [After(style, s, front).count] else [])
  }

  function Range(lo: nat, hi: nat): (r: seq<nat>)
    ensures |r| == if lo < hi then hi - lo else 0
    ensures forall i :: 0 <= i < |r| ==> r[i] == lo + i
  {
    if lo < hi then Range(lo, hi - 1) + [hi - 1] else []
  }

  lemma RangeGrows(lo: nat, c: nat, c': nat, accepted: bool)
    requires if accepted then lo <= c && c' == c + 1 else c' == c || (c <= lo && c' <= lo)
    ensures Range(lo, c') == Range(lo, c) + (if accepted then [c] else [])
  {
  }

  lemma AcceptedStep(s: Source, op: Op)
    requires Good(s) && NoOverflow(s.nskip, s.nevents)
    requires op.Next? && op.outcome.Delivers? ==> s.count + 1 < WORD
    ensures Range(s.nskip, Step(NewStyle, s, op).0.count) ==
              Range(s.nskip, s.count) + (if Succeeds(NewStyle, s, op) then [s.count] else [])
  {
    RangeGrows(s.nskip, s.count, Step(NewStyle, s, op).0.count, Succeeds(NewStyle, s, op));
  }

  lemma {:induction false} AcceptedIsRange(nskip: Word, nevents: Word, ops: seq<Op>)
    requires NoOverflow(nskip, nevents) && Deliveries(ops) < WORD
    ensures Accepted(NewStyle, Ready(nskip, nevents), ops) ==
            Range(nskip, After(NewStyle, Ready(nskip, nevents), ops).count)
  {
    if ops != [] {
      var front := ops[..|ops| - 1];
      AcceptedIsRange(nskip, nevents, front);
      RunKeepsGood(nskip, nevents, front);
      AcceptedStep(After(NewStyle, Ready(nskip, nevents), front), ops[|ops| - 1]);
    }
  }

  lemma {:induction false} ClosedForGood(style: Style, s: Source, ops: seq<Op>, i: nat)
    requires i <= |ops| && After(style, s, ops[..i]).status.Closed?
    ensures After(style, s, ops) == After(style, s, ops[..i])
    decreases |ops|
  {
    if i < |ops| {
      var front := ops[..|ops| - 1];
      assert front[..i] == ops[..i];
      ClosedForGood(style, s, front, i);
    } else {
      assert ops[..i] == ops;
    }
  }

  /** Once a request has been told the source is finished, every later request is told so too. */
  lemma FinishedForGood(style: Style, s: Source, ops: seq<Op>, i: nat, j: nat)
    requires i < j < |ops| && AnswerAt(style, s, ops, i) == Returned(FailureFinished) && ops[j].Next?
    ensures AnswerAt(style, s, ops, j) == Returned(FailureFinished)
    ensures After(style, s, ops[..j]) == After(style, s, ops[..i + 1])
  {
    assert ops[..i + 1][..i] == ops[..i];
    assert ops[..j][..i + 1] == ops[..i + 1];
    ClosedForGood(style, s, ops[..j], i + 1);
  }

  /** Over every run of an initialised source, in either style: the user's successes are numbered
      0, 1, 2, ... and the accepted events are exactly those from `nskip` on, never reaching
      nskip + nevents; Init comes first, then Open until it returns, and Close at most once and last. */
  lemma RunProtocol(style: Style, nskip: Word, nevents: Word, ops: seq<Op>)
    requires NoOverflow(nskip, nevents) && Deliveries(ops) < WORD
    requires style.Legacy? ==> NoThrowReached(Ready(nskip, nevents), ops)
    ensures var s := After(style, Ready(nskip, nevents), ops);
            LogShape(s) && Numbered(s.log) && s.count == Delivered(s.log) &&
            (nevents != 0 ==> s.count <= nskip + nevents) &&
            Accepted(style, Ready(nskip, nevents), ops) == Range(nskip, s.count)
  {
    RunKeepsGood(nskip, nevents, ops);
    AcceptedIsRange(nskip, nevents, ops);
    if style.Legacy? {
      RunAgrees(nskip, nevents, ops);
      SameRunSameAccepted(Ready(nskip, nevents), ops);
      assert ops[..|ops|] == ops;
    }
  }

  lemma {:induction false} SameRunSameAccepted(s: Source, ops: seq<Op>)
    requires SameRun(s, ops)
    ensures Accepted(NewStyle, s, ops) == Accepted(Legacy, s, ops)
  {
    if ops != [] {
      var front := ops[..|ops| - 1];
      forall i: nat | i <= |front| ensures After(NewStyle, s, front[..i]) == After(Legacy, s, front[..i]) {
        assert front[..i] == ops[..i];
      }
      forall i: nat | i < |front| ensures AnswerAt(NewStyle, s, front, i) == AnswerAt(Legacy, s, front, i) {
        assert front[..i] == ops[..i];
        assert AnswerAt(NewStyle, s, ops, i) == AnswerAt(Legacy, s, ops, i);
      }
      SameRunSameAccepted(s, front);
      assert ops[..|front|] == front;
      assert AnswerAt(NewStyle, s, ops, |front|) == AnswerAt(Legacy, s, ops, |front|);
    }
  }

  ghost predicate EverOpens(ops: seq<Op>) {
    exists i :: 0 <= i < |ops| && Asks(ops[i]) && ops[i].opens
  }

  /** The requests that call Open in vain: those before the first one for which it returns. */
  ghost function Refusals(ops: seq<Op>): nat {
    if ops == [] then 0
    else
      var front, op := ops[..|ops| - 1], ops[|ops| - 1];
      Refusals(front) + if !EverOpens(front) && Asks(op) && !op.opens then 1 else 0
  }

  lemma EverOpensSnoc(ops: seq<Op>)
    requires ops != []
    ensures EverOpens(ops) <==> EverOpens(ops[..|ops| - 1]) || (Asks(ops[|ops| - 1]) && ops[|ops| - 1].opens)
  {
    var front := ops[..|ops| - 1];
    if EverOpens(front) {
      var i :| 0 <= i < |front| && Asks(front[i]) && front[i].opens;
      assert Asks(ops[i]) && ops[i].opens;
    }
  }

  /** Nothing, or an event; and then maybe Close. */
  ghost predicate NoOpenAdded(s: Source, t: Source, outcome: Outcome) {
    var called := s.log + [Emit(s.count, outcome)];
    if t.status.Closed? then t.log == s.log + [Close] || t.log == called + [Close]
    else t.status.Opened? && t.log == called
  }

  lemma NextAdds(s: Source, outcome: Outcome)
    requires s.status.Opened?
    ensures NoOpenAdded(s, NextOpened(s, outcome).0, outcome)
  {
  }

  lemma NextLegacyAdds(s: Source, outcome: Outcome)
    requires s.status.Opened?
    ensures NoOpenAdded(s, NextOpenedLegacy(s, outcome).0, outcome)
  {
  }

  lemma NextCallsNoOpen(style: Style, s: Source, outcome: Outcome, t: Source)
    requires s.status.Opened?
    requires t == if style.NewStyle? then NextOpened(s, outcome).0 else NextOpenedLegacy(s, outcome).0
    ensures OpenCalls(t.log) == OpenCalls(s.log) && (t.status.Opened? || t.status.Closed?)
  {
    if style.NewStyle? { NextAdds(s, outcome); } else { NextLegacyAdds(s, outcome); }
    CallCounts(s.log, Close);
    CallCounts(s.log, Emit(s.count, outcome));
    CallCounts(s.log + [Emit(s.count, outcome)], Close);
  }

  lemma OpenCallsOpen(s: Source, opens: bool)
    requires s.status != Uninitialized
    ensures var t := DoOpen(s, opens).0;
            OpenCalls(t.log) == OpenCalls(s.log) + (if s.status.Initialized? then 1 else 0) &&
            (s.status.Initialized? ==> t.status == if opens then Opened else Initialized)
  {
    CallCounts(s.log, Open(opens));
  }

  lemma StepCallsOpen(style: Style, s: Source, op: Op)
    requires s.status != Uninitialized
    ensures var t := Step(style, s, op).0;
            OpenCalls(t.log) == OpenCalls(s.log) + (if s.status.Initialized? && Asks(op) then 1 else 0) &&
            t.status != Uninitialized && (t.status.Initialized? <==> s.status.Initialized? && !(Asks(op) && op.opens))
  {
    if op.CloseNow? {
      CallCounts(s.log, Close);
    } else if Asks(op) {
      var t := DoOpen(s, op.opens).0;
      OpenCallsOpen(s, op.opens);
      if op.Next? {
        NextOpens(style, s, op.opens, op.outcome);
        if t.status.Opened? { NextCallsNoOpen(style, t, op.outcome, Step(style, s, op).0); }
      }
    }
  }

  /** Over every run, in either style, Open is called once for each request made in vain and once
      more when it returns: so an opened source has called it exactly once if and only if the first
      request that was not a Close found it returning. */
  lemma {:induction false} OpenCalled(style: Style, nskip: Word, nevents: Word, ops: seq<Op>)
    ensures var s := After(style, Ready(nskip, nevents), ops);
            OpenCalls(s.log) == Refusals(ops) + (if EverOpens(ops) then 1 else 0) &&
            s.status != Uninitialized && (s.status.Initialized? <==> !EverOpens(ops))
  {
    if ops != [] {
      var front := ops[..|ops| - 1];
      OpenCalled(style, nskip, nevents, front);
      StepCallsOpen(style, After(style, Ready(nskip, nevents), front), ops[|ops| - 1]);
      EverOpensSnoc(ops);
    } else {
      assert [Initialize][..0] == [];
    }
  }

  // ---- before initialisation

  /** What comes after the first initialisation. */
  function SinceInit(ops: seq<Op>): seq<Op> {
    if ops == [] then []
    else
      var front := ops[..|ops| - 1];
      if InitNow in front then SinceInit(front) + [ops[|ops| - 1]] else []
  }

  /** Before it is initialised a source refuses everything and stays as it is; what follows the first
      initialisation is a run of a source that is ready. */
  lemma {:induction false} RunsFromInit(style: Style, nskip: Word, nevents: Word, ops: seq<Op>)
    ensures After(style, New(nskip, nevents), ops) ==
            if InitNow in ops then After(style, Ready(nskip, nevents), SinceInit(ops)) else New(nskip, nevents)
  {
    if ops != [] {
      var front, op := ops[..|ops| - 1], ops[|ops| - 1];
      RunsFromInit(style, nskip, nevents, front);
      assert ops == front + [op];
      if InitNow in front {
        assert SinceInit(ops)[..|SinceInit(ops)| - 1] == SinceInit(front);
      } else {
        assert SinceInit(ops) == [];
      }
    }
  }

  lemma RefusedBeforeInit(style: Style, nskip: Word, nevents: Word, ops: seq<Op>, i: nat)
    requires i < |ops| && InitNow !in ops[..i]
    ensures AnswerAt(style, New(nskip, nevents), ops, i) == if Asks(ops[i]) then Threw else Done
  {
    RunsFromInit(style, nskip, nevents, ops[..i]);
  }

  // ---- what every request answers

  /** The source is open, or this request opens it. */
  predicate Opens(s: Source, opens: bool) { s.status.Opened? || (s.status.Initialized? && opens) }

  /** All the events asked for have been delivered. */
  predicate Full(s: Source) { s.nevents != 0 && s.count == s.nskip + s.nevents }

  /** The callback is reached. */
  predicate Reaches(s: Source, opens: bool) { Opens(s, opens) && !Full(s) }

  /** The answer of every request, in either style. It throws if and only if the source is not
      initialised, Open throws, or the callback fails, which in the new style includes throwing success.
      It says to try again if and only if the callback does or delivers an event that is to be
      skipped. It is finished if and only if the source is closed, the callback is finished or all
      events asked for have been delivered. And it succeeds if and only if the callback delivers an event that is
      not to be skipped, or throws success in the legacy style. */
  lemma AnswerExact(style: Style, s: Source, opens: bool, outcome: Outcome)
    requires NoOverflow(s.nskip, s.nevents) && (outcome.Delivers? ==> s.count + 1 < WORD)
    ensures var a := DoNext(style, s, opens, outcome).1;
            (a == Threw <==>
              s.status.Uninitialized? || (s.status.Initialized? && !opens) ||
              (Reaches(s, opens) && (outcome.Fails? || (style.NewStyle? && outcome.ThrowsSuccess?)))) &&
            (a == Returned(FailureTryAgain) <==>
              Reaches(s, opens) && (outcome.Retries? || (outcome.Delivers? && s.count < s.nskip))) &&
            (a == Returned(FailureFinished) <==>
              s.status.Closed? || (Opens(s, opens) && (outcome.Finishes? || Full(s)))) &&
            (a == Returned(Success) <==>
              Reaches(s, opens) &&
              ((outcome.Delivers? && s.count >= s.nskip) || (style.Legacy? && outcome.ThrowsSuccess?)))
  {
    LimitIsFull(s);
  }

  lemma LimitIsFull(s: Source)
    requires NoOverflow(s.nskip, s.nevents)
    ensures AtLimit(s) <==> Full(s)
  {
  }

  /** The source as the callback finds it. */
  function OpenedBy(s: Source, opens: bool): Source {
    if s.status.Initialized? then
      s.(status := if opens then Opened else Initialized, log := s.log + [Open(opens)])
    else s
  }

  /** What a request leaves behind: Open is called if need be; if the callback is reached it is called
      under the number of events so far, and counts one more if it delivers; and the source is closed
      if the answer is that it is finished. Nothing else happens. */
  lemma StateExact(style: Style, s: Source, opens: bool, outcome: Outcome)
    requires NoOverflow(s.nskip, s.nevents) && (outcome.Delivers? ==> s.count + 1 < WORD)
    ensures DoNext(style, s, opens, outcome).0 == Left(OpenedBy(s, opens), outcome)
  {
    LimitIsFull(s);
    OpenedStateExact(style, OpenedBy(s, opens), outcome);
    if s.status != Uninitialized { NextOpens(style, s, opens, outcome); }
  }

  function Left(s: Source, outcome: Outcome): Source {
    if !s.status.Opened? then s
    else
      var called := if Full(s) then [] else [Emit(s.count, outcome)];
      var closes := Full(s) || outcome.Finishes?;
      Source(
        if closes then Closed else Opened,
        if !Full(s) && outcome.Delivers? && s.count + 1 < WORD then s.count + 1 else s.count,
        s.nskip, s.nevents,
        s.log + called + if closes then [Close] else [])
  }

  lemma OpenedStateExact(style: Style, s: Source, outcome: Outcome)
    requires NoOverflow(s.nskip, s.nevents) && (outcome.Delivers? ==> s.count + 1 < WORD)
    ensures s.status.Opened? ==>
              (if style.NewStyle? then NextOpened(s, outcome).0 else NextOpenedLegacy(s, outcome).0) == Left(s, outcome)
  {
    LimitIsFull(s);
    assert s.log + [] == s.log;
    assert s.log + [Emit(s.count, outcome)] + [] == s.log + [Emit(s.count, outcome)];
  }

  /** Why an opened source reports that it is finished: the user said so, or the limit is reached exactly. */
  lemma FinishedOnlyWhen(style: Style, s: Source, opens: bool, outcome: Outcome)
    requires s.status.Opened? && NoOverflow(s.nskip, s.nevents)
    ensures DoNext(style, s, opens, outcome).1 == Returned(FailureFinished) <==>
              (outcome.Finishes? || (s.nevents != 0 && s.count == s.nskip + s.nevents))
  {
  }
}
