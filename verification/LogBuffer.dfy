/** The log stream that many threads write to, character by character. Each thread has its own
    buffer; at the end of a line the buffered line is tagged and written out under a mutex. */
module LogBuffer {

  predicate EndsLine(c: char) { c == '\n' || c == '\r' }

  /** The settings; `stamp` is how a thread is named. */
  datatype Config = Config(tag: string, threadStamped: bool, timeStamped: bool, stamp: nat -> string)

  function Prefix(config: Config, t: nat, time: string): string {
    (if config.timeStamped then time + " # " else "") +
    (if config.threadStamped then config.stamp(t) + " # " else "") + config.tag
  }

  function Buffered(buffers: map<nat, string>, t: nat): string {
    if t in buffers then buffers[t] else ""
  }

  class JStreamLogBuffer {
    const config: Config
    var buffers: map<nat, string>
    var sink: string

    constructor (config: Config)
      ensures this.config == config && buffers == map[] && sink == ""
    {
      this.config, buffers, sink := config, map[], "";
    }

    /** One character, nobody else writing meanwhile. */
    method Overflow(t: nat, c: char, time: string)
      modifies this
      ensures buffers == old(buffers)[t := if EndsLine(c) then "" else Buffered(old(buffers), t) + [c]]
      ensures sink == old(sink) +
              if EndsLine(c) then Prefix(config, t, time) + (Buffered(old(buffers), t) + [c]) else ""
    {
      if t !in buffers { buffers := buffers[t := ""]; }
      var str := buffers[t] + [c];
      var copyOut := "";
      if c == '\n' || c == '\r' {
        copyOut := str;
        str := "";
      }
      buffers := buffers[t := str];
      if |copyOut| != 0 {
        var text := Prepend(config, t, time, copyOut);
        WriteOut(text);
      }
    }

    method WriteOut(text: string)
      modifies `sink
      ensures sink == old(sink) + text
    {
      for i := 0 to |text|
        invariant sink == old(sink) + text[..i]
      {
        sink := sink + [text[i]];
      }
    }
  }

  method Prepend(config: Config, t: nat, time: string, line: string) returns (text: string)
    ensures text == Prefix(config, t, time) + line
  {
    text := line;
    if |config.tag| > 0 { text := config.tag + text; }
    if config.threadStamped { text := config.stamp(t) + " # " + text; }
    if config.timeStamped { text := time + " # " + text; }
  }

  // ---- many threads, step by step

  datatype Line = Line(thread: nat, prefix: string, body: string)

  function Text(line: Line): string { line.prefix + line.body }

  /** Who has the mutex, and how much of its line has been written. */
  datatype Mutex = Unlocked | Locked(line: Line, done: nat)

  /** Lines a thread has completed wait for the mutex; lines lists, in order, those that got it. */
  datatype State = State(buffers: map<nat, string>, waiting: map<nat, Line>, mutex: Mutex, sink: string,
                         lines: seq<Line>)

  const START := State(map[], map[], Unlocked, "", [])

  datatype Op = Put(t: nat, c: char, time: string) | Lock(t: nat) | Emit | Unlock

  predicate Busy(s: State, t: nat) {
    t in s.waiting || (s.mutex.Locked? && s.mutex.line.thread == t)
  }

  predicate Enabled(s: State, op: Op) {
    match op
    case Put(t, _, _) => !Busy(s, t)
    case Lock(t) => t in s.waiting && s.mutex.Unlocked?
    case Emit => s.mutex.Locked? && s.mutex.done < |Text(s.mutex.line)|
    case Unlock => s.mutex.Locked? && s.mutex.done == |Text(s.mutex.line)|
  }

  function Step(config: Config, s: State, op: Op): State
    requires Enabled(s, op)
  {
    match op
    case Put(t, c, time) =>
      var str := Buffered(s.buffers, t) + [c];
      if EndsLine(c)
      then s.(buffers := s.buffers[t := ""], waiting := s.waiting[t := Line(t, Prefix(config, t, time), str)])
      else s.(buffers := s.buffers[t := str])
    case Lock(t) =>
      s.(waiting := s.waiting - {t}, mutex := Locked(s.waiting[t], 0), lines := s.lines + [s.waiting[t]])
    case Emit =>
      s.(mutex := Locked(s.mutex.line, s.mutex.done + 1), sink := s.sink + [Text(s.mutex.line)[s.mutex.done]])
    case Unlock => s.(mutex := Unlocked)
  }

  ghost predicate Runs(config: Config, ops: seq<Op>)
    decreases |ops|, 0
  {
    ops != [] ==> Runs(config, ops[..|ops| - 1]) && Enabled(Run(config, ops[..|ops| - 1]), ops[|ops| - 1])
  }

  ghost function Run(config: Config, ops: seq<Op>): State
    requires Runs(config, ops)
    decreases |ops|, 1
  {
    if ops == [] then START else Step(config, Run(config, ops[..|ops| - 1]), ops[|ops| - 1])
  }

  /** The holder of the mutex writes the rest of its line and lets go. */
  ghost function WriteRest(config: Config, s: State): State
    requires s.mutex.Locked? && s.mutex.done <= |Text(s.mutex.line)|
    decreases |Text(s.mutex.line)| - s.mutex.done
  {
    if s.mutex.done == |Text(s.mutex.line)| then Step(config, s, Unlock) else WriteRest(config, Step(config, s, Emit))
  }

  lemma {:induction false} WriteRestShows(config: Config, s: State)
    requires s.mutex.Locked? && s.mutex.done <= |Text(s.mutex.line)|
    ensures WriteRest(config, s) == s.(mutex := Unlocked, sink := s.sink + Text(s.mutex.line)[s.mutex.done..])
    decreases |Text(s.mutex.line)| - s.mutex.done
  {
    var text, n := Text(s.mutex.line), s.mutex.done;
    if n < |text| {
      WriteRestShows(config, Step(config, s, Emit));
      assert text[n..] == [text[n]] + text[n + 1..];
      assert s.sink + [text[n]] + text[n + 1..] == s.sink + text[n..];
    } else {
      assert s.sink + text[n..] == s.sink;
    }
  }

  /** The steps of one call that nobody disturbs do what the call does. */
  lemma CallAlone(config: Config, s: State, t: nat, c: char, time: string)
    requires !Busy(s, t) && s.mutex.Unlocked?
    ensures var str, put := Buffered(s.buffers, t) + [c], Step(config, s, Put(t, c, time));
            if !EndsLine(c) then put == s.(buffers := s.buffers[t := str])
            else
              var line := Line(t, Prefix(config, t, time), str);
              Enabled(put, Lock(t)) &&
              WriteRest(config, Step(config, put, Lock(t))) ==
                s.(buffers := s.buffers[t := ""], sink := s.sink + Text(line), lines := s.lines + [line])
  {
    if EndsLine(c) {
      var put := Step(config, s, Put(t, c, time));
      var locked := Step(config, put, Lock(t));
      WriteRestShows(config, locked);
      assert locked.waiting == s.waiting;
      assert Text(locked.mutex.line)[0..] == Text(locked.mutex.line);
    }
  }

  // ---- what should come out

  /** Everything thread t has written. */
  ghost function Written(ops: seq<Op>, t: nat): string {
    if ops == [] then ""
    else Written(ops[..|ops| - 1], t) +
         if ops[|ops| - 1].Put? && ops[|ops| - 1].t == t then [ops[|ops| - 1].c] else ""
  }

  /** A text falls into whole lines and a rest. */
  ghost function WholeLines(s: string): seq<string> {
    if s == "" then []
    else WholeLines(s[..|s| - 1]) + if EndsLine(s[|s| - 1]) then [Rest(s[..|s| - 1]) + [s[|s| - 1]]] else []
  }

  ghost function Rest(s: string): string {
    if s == "" || EndsLine(s[|s| - 1]) then "" else Rest(s[..|s| - 1]) + [s[|s| - 1]]
  }

  ghost function Texts(lines: seq<Line>): string {
    if lines == [] then "" else Texts(lines[..|lines| - 1]) + Text(lines[|lines| - 1])
  }

  ghost function Bodies(lines: seq<Line>, t: nat): seq<string> {
    if lines == [] then []
    else Bodies(lines[..|lines| - 1], t) + if lines[|lines| - 1].thread == t then [lines[|lines| - 1].body] else []
  }

  /** What the lines that got the mutex have put out so far: all of them whole, but for the one being
      written. */
  ghost function Shown(s: State): string {
    if s.mutex.Unlocked? || s.lines == [] then Texts(s.lines)
    else Texts(s.lines[..|s.lines| - 1]) + Prefixed(s.mutex)
  }

  ghost function Prefixed(mutex: Mutex): string
    requires mutex.Locked?
  {
    if mutex.done <= |Text(mutex.line)| then Text(mutex.line)[..mutex.done] else ""
  }

  ghost predicate Consistent(s: State) {
    s.sink == Shown(s) &&
    (s.mutex.Locked? ==>
       s.lines != [] && s.mutex.line == s.lines[|s.lines| - 1] && s.mutex.done <= |Text(s.mutex.line)|)
  }

  /** The sink never shows lines of two threads mixed together. */
  lemma {:induction false} SinkIsLines(config: Config, ops: seq<Op>)
    requires Runs(config, ops)
    ensures Consistent(Run(config, ops))
  {
    if ops != [] {
      SinkIsLines(config, ops[..|ops| - 1]);
      StepShows(config, Run(config, ops[..|ops| - 1]), ops[|ops| - 1]);
    }
  }

  lemma StepShows(config: Config, s: State, op: Op)
    requires Consistent(s) && Enabled(s, op)
    ensures Consistent(Step(config, s, op))
  {
    var next := Step(config, s, op);
    match op
    case Lock(t) => assert next.lines[..|s.lines|] == s.lines;
    case Emit =>
      var text := Text(s.mutex.line);
      assert text[..s.mutex.done] + [text[s.mutex.done]] == text[..s.mutex.done + 1];
    case Unlock =>
      var text := Text(s.mutex.line);
      assert text[..|text|] == text;
    case _ =>
  }

  ghost function Waiting(s: State, t: nat): seq<string> {
    if t in s.waiting then [s.waiting[t].body] else []
  }

  ghost predicate InOrder(s: State, t: nat, text: string) {
    Bodies(s.lines, t) + Waiting(s, t) == WholeLines(text) && Buffered(s.buffers, t) == Rest(text)
  }

  /** Each thread's lines come out whole, in order and none missing: those that got the mutex, then
      the one that waits for it, are the whole lines of what the thread wrote, and its buffer holds the rest. */
  lemma {:induction false} ThreadInOrder(config: Config, ops: seq<Op>, t: nat)
    requires Runs(config, ops)
    ensures InOrder(Run(config, ops), t, Written(ops, t))
  {
    if ops != [] {
      var front, op := ops[..|ops| - 1], ops[|ops| - 1];
      ThreadInOrder(config, front, t);
      WaitingAreOwn(config, front);
      StepInOrder(config, Run(config, front), op, t, Written(front, t), Written(ops, t));
    }
  }

  ghost predicate OwnLines(s: State) {
    forall t :: t in s.waiting ==> s.waiting[t].thread == t
  }

  lemma {:induction false} WaitingAreOwn(config: Config, ops: seq<Op>)
    requires Runs(config, ops)
    ensures OwnLines(Run(config, ops))
  {
    if ops != [] {
      WaitingAreOwn(config, ops[..|ops| - 1]);
    }
  }

  lemma OneMoreCharacter(before: string, c: char)
    ensures WholeLines(before + [c]) == WholeLines(before) + if EndsLine(c) then [Rest(before) + [c]] else []
    ensures Rest(before + [c]) == if EndsLine(c) then "" else Rest(before) + [c]
  {
    assert (before + [c])[..|before|] == before;
  }

  lemma OneMoreLine(lines: seq<Line>, line: Line, t: nat)
    ensures Bodies(lines + [line], t) == Bodies(lines, t) + if line.thread == t then [line.body] else []
  {
    assert (lines + [line])[..|lines|] == lines;
  }

  lemma PutInOrder(config: Config, s: State, t: nat, c: char, time: string, before: string)
    requires !Busy(s, t) && InOrder(s, t, before)
    ensures InOrder(Step(config, s, Put(t, c, time)), t, before + [c])
  {
    OneMoreCharacter(before, c);
    assert WholeLines(before) == Bodies(s.lines, t);
  }

  lemma LockInOrder(config: Config, s: State, u: nat, t: nat, text: string)
    requires Enabled(s, Lock(u)) && InOrder(s, t, text) && OwnLines(s)
    ensures InOrder(Step(config, s, Lock(u)), t, text)
  {
    OneMoreLine(s.lines, s.waiting[u], t);
  }

  lemma StepInOrder(config: Config, s: State, op: Op, t: nat, before: string, after: string)
    requires Enabled(s, op) && after == before + if op.Put? && op.t == t then [op.c] else ""
    requires InOrder(s, t, before) && OwnLines(s)
    ensures InOrder(Step(config, s, op), t, after)
  {
    if op.Put? && op.t == t {
      PutInOrder(config, s, t, op.c, op.time, before);
    } else {
      assert after == before;
      if op.Lock? { LockInOrder(config, s, op.t, t, before); }
    }
  }

  /** The lines of thread t that have been written out whole. */
  ghost function WrittenOut(s: State, t: nat): seq<string> {
    Bodies(if s.mutex.Locked? && s.lines != [] then s.lines[..|s.lines| - 1] else s.lines, t)
  }

  /** A thread is held up if and only if a line it has ended is not yet written out whole: nothing else
      keeps it from writing, and what others do never does. */
  lemma HeldUpExact(config: Config, ops: seq<Op>, t: nat, c: char, time: string)
    requires Runs(config, ops)
    ensures Enabled(Run(config, ops), Put(t, c, time)) <==>
            WrittenOut(Run(config, ops), t) == WholeLines(Written(ops, t))
  {
    var s := Run(config, ops);
    SinkIsLines(config, ops);
    ThreadInOrder(config, ops, t);
    if s.mutex.Locked? {
      var front := s.lines[..|s.lines| - 1];
      assert s.lines == front + [s.mutex.line];
      OneMoreLine(front, s.mutex.line, t);
    }
    assert |Bodies(s.lines, t) + Waiting(s, t)| == |WholeLines(Written(ops, t))|;
  }

  /** What stands before a line: the time and the stamp of the thread that wrote it, as configured, and
      the tag. */
  ghost predicate Stamped(config: Config, t: nat, time: string, prefix: string) {
    match (config.timeStamped, config.threadStamped)
    case (false, false) => prefix == config.tag
    case (true, false) => prefix == time + " # " + config.tag
    case (false, true) => prefix == config.stamp(t) + " # " + config.tag
    case (true, true) => prefix == time + " # " + config.stamp(t) + " # " + config.tag
  }

  /** The line is stamped with its own thread, and with the time at which its end was written. */
  ghost predicate Tagged(config: Config, ops: seq<Op>, line: Line) {
    exists k :: 0 <= k < |ops| && ops[k].Put? && ops[k].t == line.thread && EndsLine(ops[k].c) &&
                Stamped(config, line.thread, ops[k].time, line.prefix)
  }

  lemma PrefixIsStamped(config: Config, t: nat, time: string)
    ensures Stamped(config, t, time, Prefix(config, t, time))
  {
    assert "" + config.tag == config.tag;
    assert time + " # " + "" == time + " # ";
    assert "" + (config.stamp(t) + " # ") == config.stamp(t) + " # ";
    assert (time + " # ") + (config.stamp(t) + " # ") == time + " # " + config.stamp(t) + " # ";
  }

  lemma TaggedLater(config: Config, front: seq<Op>, op: Op, line: Line)
    requires Tagged(config, front, line)
    ensures Tagged(config, front + [op], line)
  {
    var k :| 0 <= k < |front| && front[k].Put? && front[k].t == line.thread && EndsLine(front[k].c) &&
             Stamped(config, line.thread, front[k].time, line.prefix);
    assert (front + [op])[k] == front[k];
  }

  lemma TaggedNow(config: Config, front: seq<Op>, op: Op, line: Line)
    requires op.Put? && EndsLine(op.c) && line.thread == op.t && line.prefix == Prefix(config, op.t, op.time)
    ensures Tagged(config, front + [op], line)
  {
    PrefixIsStamped(config, op.t, op.time);
    assert (front + [op])[|front|] == op;
  }

  ghost predicate AllTagged(config: Config, ops: seq<Op>, s: State) {
    (forall t :: t in s.waiting ==> Tagged(config, ops, s.waiting[t])) &&
    forall i :: 0 <= i < |s.lines| ==> Tagged(config, ops, s.lines[i])
  }

  /** Every line that waits or has been put out is stamped like that. */
  lemma {:induction false} EveryLineTagged(config: Config, ops: seq<Op>)
    requires Runs(config, ops)
    ensures AllTagged(config, ops, Run(config, ops))
  {
    if ops != [] {
      var front, op := ops[..|ops| - 1], ops[|ops| - 1];
      assert ops == front + [op];
      EveryLineTagged(config, front);
      StepKeepsTagged(config, front, op, Run(config, front));
    }
  }

  lemma StepKeepsTagged(config: Config, front: seq<Op>, op: Op, s: State)
    requires Enabled(s, op) && AllTagged(config, front, s)
    ensures AllTagged(config, front + [op], Step(config, s, op))
  {
    var next := Step(config, s, op);
    forall t | t in next.waiting ensures Tagged(config, front + [op], next.waiting[t]) {
      if op.Put? && EndsLine(op.c) && t == op.t {
        TaggedNow(config, front, op, next.waiting[t]);
      } else {
        TaggedLater(config, front, op, s.waiting[t]);
      }
    }
    forall i | 0 <= i < |next.lines| ensures Tagged(config, front + [op], next.lines[i]) {
      TaggedLater(config, front, op, if i < |s.lines| then s.lines[i] else s.waiting[op.t]);
    }
  }

  // ---- no character is lost or made up

  ghost function Joined(parts: seq<string>): string {
    if parts == [] then "" else Joined(parts[..|parts| - 1]) + parts[|parts| - 1]
  }

  lemma Associate(a: string, b: string, c: string)
    ensures a + b + c == a + (b + c)
  {
  }

  lemma {:induction false} JoinedConcat(a: seq<string>, b: seq<string>)
    ensures Joined(a + b) == Joined(a) + Joined(b)
  {
    if b == [] {
      assert a + b == a;
    } else {
      assert (a + b)[..|a + b| - 1] == a + b[..|b| - 1];
      JoinedConcat(a, b[..|b| - 1]);
      Associate(Joined(a), Joined(b[..|b| - 1]), b[|b| - 1]);
    }
  }

  lemma CharacterJoined(lines: seq<string>, rest: string, c: char)
    ensures Joined(lines + [rest + [c]]) == Joined(lines) + rest + [c]
    ensures Joined(lines) + (rest + [c]) == Joined(lines) + rest + [c]
  {
    var line := rest + [c];
    assert (lines + [line])[..|lines|] == lines;
    assert Joined(lines + [line]) == Joined(lines) + line;
  }

  /** The whole lines and the rest make up the text. */
  lemma {:induction false} LinesMakeText(s: string)
    ensures Joined(WholeLines(s)) + Rest(s) == s
  {
    if s != "" {
      var front, c := s[..|s| - 1], s[|s| - 1];
      LinesMakeText(front);
      CharacterJoined(WholeLines(front), Rest(front), c);
      assert s == front + [c];
      if EndsLine(c) {
        assert Joined(WholeLines(s)) + "" == Joined(WholeLines(s));
      } else {
        assert WholeLines(s) == WholeLines(front);
      }
    }
  }

  /** A line end ends each whole line and is nowhere else. */
  lemma {:induction false} LinesAreWhole(s: string)
    ensures '\n' !in Rest(s) && '\r' !in Rest(s)
    ensures forall k :: 0 <= k < |WholeLines(s)| ==> OneLine(WholeLines(s)[k])
  {
    if s != "" {
      LinesAreWhole(s[..|s| - 1]);
    }
  }

  ghost predicate OneLine(line: string) {
    line != "" && forall i :: 0 <= i < |line| ==> (line[i] == '\n' || line[i] == '\r' <==> i == |line| - 1)
  }

  /** What a thread wrote is what came out, or is waiting to, or is still buffered, in this order. */
  lemma CharactersConserved(config: Config, ops: seq<Op>, t: nat)
    requires Runs(config, ops)
    ensures var s := Run(config, ops);
            Written(ops, t) == Joined(Bodies(s.lines, t)) + Joined(Waiting(s, t)) + Buffered(s.buffers, t)
  {
    var s := Run(config, ops);
    ThreadInOrder(config, ops, t);
    LinesMakeText(Written(ops, t));
    JoinedConcat(Bodies(s.lines, t), Waiting(s, t));
  }
}
