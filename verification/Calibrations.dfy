/** Calibration constants in plain text files: lists of values, key and value pairs, and tables. */
module Calibrations {
  import opened CalibrationText

  // ---- ordered maps from strings to strings, in the order they are walked

  datatype Entry = Entry(key: string, val: string)

  type Map = seq<Entry>

  ghost predicate Sorted(m: Map) {
    forall i, j :: 0 <= i < j < |m| ==> Less(m[i].key, m[j].key)
  }

  function Put(m: Map, k: string, v: string): Map {
    if m == [] || Less(k, m[0].key) then [Entry(k, v)] + m
    else if m[0].key == k then [Entry(k, v)] + m[1..]
    else [m[0]] + Put(m[1..], k, v)
  }

  function Find(m: Map, k: string): string {
    if m == [] then "" else if m[0].key == k then m[0].val else Find(m[1..], k)
  }

  lemma {:induction false} PutIsIn(m: Map, k: string, v: string)
    ensures forall i :: 0 <= i < |Put(m, k, v)| ==> Put(m, k, v)[i] == Entry(k, v) || Put(m, k, v)[i] in m
  {
    if m != [] { PutIsIn(m[1..], k, v); }
  }

  lemma {:induction false} PutKeepsSorted(m: Map, k: string, v: string)
    requires Sorted(m)
    ensures Sorted(Put(m, k, v))
  {
    if m == [] {
    } else if Less(k, m[0].key) {
      forall j | 0 < j < |m| ensures Less(k, m[j].key) { LessTransitive(k, m[0].key, m[j].key); }
    } else if m[0].key != k {
      LessIsOrder(k, m[0].key);
      PutKeepsSorted(m[1..], k, v);
      PutIsIn(m[1..], k, v);
      var rest := Put(m[1..], k, v);
      forall j | 0 <= j < |rest| ensures Less(m[0].key, rest[j].key) {
        if rest[j] != Entry(k, v) {
          var i :| 0 <= i < |m[1..]| && m[1..][i] == rest[j];
          assert m[i + 1] == rest[j];
        }
      }
    }
  }

  lemma {:induction false} PutLast(m: Map, k: string, v: string)
    requires forall i :: 0 <= i < |m| ==> Less(m[i].key, k)
    ensures Put(m, k, v) == m + [Entry(k, v)]
  {
    if m != [] {
      LessIsOrder(m[0].key, k);
      PutLast(m[1..], k, v);
      assert m == [m[0]] + m[1..];
    }
  }

  lemma {:induction false} FindAt(m: Map, i: nat)
    requires Sorted(m) && i < |m|
    ensures Find(m, m[i].key) == m[i].val
  {
    if i > 0 {
      LessIsOrder(m[0].key, m[i].key);
      FindAt(m[1..], i - 1);
    }
  }

  function Keys(m: Map): (r: seq<string>)
    ensures |r| == |m| && forall i :: 0 <= i < |m| ==> r[i] == m[i].key
  {
    seq(|m|, i requires 0 <= i < |m| => m[i].key)
  }

  function Vals(m: Map): (r: seq<string>)
    ensures |r| == |m| && forall i :: 0 <= i < |m| ==> r[i] == m[i].val
  {
    seq(|m|, i requires 0 <= i < |m| => m[i].val)
  }

  // ---- lists and key and value pairs

  predicate IsData(line: string) { line != "" && line[0] != '#' }

  ghost function Data(lines: seq<string>): seq<string> {
    if lines == [] then []
    else Data(lines[..|lines| - 1]) + if IsData(lines[|lines| - 1]) then [lines[|lines| - 1]] else []
  }

  function Nth(words: seq<string>, n: nat): string { if n < |words| then words[n] else "" }

  /** A line of one word gets its number, four places wide, as key; otherwise key and value are the
      first two words. */
  function Pair(line: string, words: seq<string>, n: nat): Entry {
    if Nth(words, 0) == line then Entry(Pad4(n), line) else Entry(Nth(words, 0), Nth(words, 1))
  }

  ghost function AsMap(lines: seq<string>): Map {
    if lines == [] then []
    else
      var front, line := lines[..|lines| - 1], lines[|lines| - 1];
      if !IsData(line) then AsMap(front)
      else var e := Pair(line, Words(line), |Data(front)|); Put(AsMap(front), e.key, e.val)
  }

  ghost function AsVector(lines: seq<string>): seq<string> {
    if lines == [] then []
    else
      var front, line := lines[..|lines| - 1], lines[|lines| - 1];
      AsVector(front) + if IsData(line) then [Pair(line, Words(line), |Data(front)|).val] else []
  }

  method GetCalibMap(text: string) returns (svals: Map)
    ensures svals == AsMap(Lines(text))
  {
    var lines := ReadLines(text);
    svals := [];
    var n := 0;
    for i := 0 to |lines|
      invariant svals == AsMap(lines[..i]) && n == |Data(lines[..i])|
    {
      assert lines[..i + 1][..i] == lines[..i];
      if IsData(lines[i]) {
        var words := SplitWords(lines[i]);
        var e := Pair(lines[i], words, n);
        svals, n := Put(svals, e.key, e.val), n + 1;
      }
    }
    assert lines[..|lines|] == lines;
  }

  method GetCalibVector(text: string) returns (svals: seq<string>)
    ensures svals == AsVector(Lines(text))
  {
    var lines := ReadLines(text);
    svals := [];
    var n := 0;
    for i := 0 to |lines|
      invariant svals == AsVector(lines[..i]) && n == |Data(lines[..i])|
    {
      assert lines[..i + 1][..i] == lines[..i];
      if IsData(lines[i]) {
        var words := SplitWords(lines[i]);
        svals, n := svals + [Pair(lines[i], words, n).val], n + 1;
      }
    }
    assert lines[..|lines|] == lines;
  }

  /** Values only, in the order of the keys. */
  method WriteVector(vals: Map) returns (text: string)
    ensures text == Unlines(Vals(vals))
  {
    text := "";
    for i := 0 to |vals|
      invariant text == Unlines(Vals(vals)[..i])
    {
      UnlinesOneMore(Vals(vals)[..i], vals[i].val);
      assert Vals(vals)[..i + 1] == Vals(vals)[..i] + [vals[i].val];
      text := text + vals[i].val + "\n";
    }
    assert Vals(vals)[..|vals|] == Vals(vals);
  }

  /** A value that fills a line of its own. */
  ghost predicate Plain(v: string) { Word(v) && v[0] != '#' }

  ghost predicate AllPlain(vals: seq<string>) { forall i :: 0 <= i < |vals| ==> Plain(vals[i]) }

  function Numbered(vals: seq<string>): (m: Map)
    ensures |m| == |vals| && forall i :: 0 <= i < |m| ==> m[i] == Entry(Pad4(i), vals[i])
  {
    seq(|vals|, i requires 0 <= i < |vals| => Entry(Pad4(i), vals[i]))
  }

  lemma PlainPair(line: string, n: nat)
    requires Plain(line)
    ensures IsData(line) && Pair(line, Words(line), n) == Entry(Pad4(n), line)
  {
    WordAlone(line);
  }

  lemma OneMorePlain(front: seq<string>, line: string)
    requires Plain(line)
    ensures Data(front + [line]) == Data(front) + [line] && AsVector(front + [line]) == AsVector(front) + [line]
    ensures AsMap(front + [line]) == Put(AsMap(front), Pad4(|Data(front)|), line)
  {
    assert (front + [line])[..|front|] == front;
    PlainPair(line, |Data(front)|);
  }

  lemma OneMoreComment(front: seq<string>, line: string)
    requires !IsData(line)
    ensures Data(front + [line]) == Data(front) && AsMap(front + [line]) == AsMap(front)
  {
    assert (front + [line])[..|front|] == front;
  }

  lemma NextNumbered(vals: seq<string>, v: string)
    requires |vals| < 10000
    ensures Put(Numbered(vals), Pad4(|vals|), v) == Numbered(vals + [v])
  {
    forall i | 0 <= i < |vals| ensures Less(Numbered(vals)[i].key, Pad4(|vals|)) { PaddedInOrder(i, |vals|); }
    PutLast(Numbered(vals), Pad4(|vals|), v);
  }

  lemma {:induction false} KeyedInOrder(lines: seq<string>)
    requires AllPlain(Data(lines)) && |Data(lines)| <= 10000
    ensures AsMap(lines) == Numbered(Data(lines))
  {
    if lines != [] {
      var front, line := lines[..|lines| - 1], lines[|lines| - 1];
      assert lines == front + [line];
      if IsData(line) {
        assert Data(lines) == Data(front) + [line] && Data(lines)[|Data(front)|] == line;
        assert AllPlain(Data(front)) by {
          forall i | 0 <= i < |Data(front)| ensures Plain(Data(front)[i]) { assert Data(front)[i] == Data(lines)[i]; }
        }
        KeyedInOrder(front);
        OneMorePlain(front, line);
        NextNumbered(Data(front), line);
      } else {
        OneMoreComment(front, line);
        KeyedInOrder(front);
      }
    }
  }

  lemma {:induction false} PlainAsVector(vals: seq<string>)
    requires AllPlain(vals)
    ensures AsVector(vals) == vals
  {
    if vals != [] {
      var front, v := vals[..|vals| - 1], vals[|vals| - 1];
      PlainAsVector(front);
      assert vals == front + [v];
      OneMorePlain(front, v);
    }
  }

  /** What reading as a map, dumping the values and reading as a vector makes of a file. */
  ghost function Dumped(lines: seq<string>): seq<string> { AsVector(Lines(Unlines(Vals(AsMap(lines))))) }

  lemma DumpIsVals(lines: seq<string>)
    requires AllPlain(Vals(AsMap(lines)))
    ensures Dumped(lines) == Vals(AsMap(lines))
  {
    var vals := Vals(AsMap(lines));
    LinesOfUnlines(vals);
    PlainAsVector(vals);
  }

  /** Up to ten thousand values keep their order, whatever comments stand between them. */
  lemma OrderKept(lines: seq<string>)
    requires AllPlain(Data(lines)) && |Data(lines)| <= 10000
    ensures Dumped(lines) == Data(lines)
  {
    KeyedInOrder(lines);
    assert Vals(AsMap(lines)) == Data(lines);
    DumpIsVals(lines);
  }

  /** The numbers 0, 1, ... written with four places. */
  function Count(n: nat): (r: seq<string>)
    ensures |r| == n && forall i :: 0 <= i < n ==> r[i] == Pad4(i)
  {
    seq(n, i requires 0 <= i < n => Pad4(i))
  }

  ghost predicate KeysAsValues(m: Map) {
    Sorted(m) && forall i :: 0 <= i < |m| ==> Plain(m[i].val) && m[i].key == m[i].val
  }

  lemma PutKeyAsValue(m: Map, k: string)
    requires KeysAsValues(m) && Plain(k)
    ensures KeysAsValues(Put(m, k, k))
  {
    PutKeepsSorted(m, k, k);
    PutIsIn(m, k, k);
  }

  ghost predicate Listed(vals: seq<string>) { Data(vals) == vals && KeysAsValues(AsMap(vals)) }

  lemma CountOneMore(front: seq<string>, v: string, vals: seq<string>)
    requires Plain(v) && v == Pad4(|front|) && Listed(front) && vals == front + [v]
    ensures Listed(vals)
  {
    OneMorePlain(front, v);
    PutKeyAsValue(AsMap(front), v);
  }

  lemma {:induction false} CountAsMap(vals: seq<string>)
    requires AllPlain(vals) && forall i :: 0 <= i < |vals| ==> vals[i] == Pad4(i)
    ensures Listed(vals)
  {
    if vals != [] {
      CountAsMap(vals[..|vals| - 1]);
      CountOneMore(vals[..|vals| - 1], vals[|vals| - 1], vals);
    }
  }

  lemma CountIsPlain(n: nat)
    ensures AllPlain(Count(n))
  {
    forall i | 0 <= i < n ensures Plain(Count(n)[i]) { PaddedIsWord(i); }
  }

  /** One value more, and a file whose values change places can be given. */
  lemma OrderLost(n: nat)
    requires n > 10000
    ensures AllPlain(Count(n)) && Data(Count(n)) == Count(n) && Dumped(Count(n)) != Count(n)
  {
    CountIsPlain(n);
    CountAsMap(Count(n));
    var m := AsMap(Count(n));
    DumpIsVals(Count(n));
    if Vals(m) == Count(n) {
      assert m[1001].key == Pad4(1001) && m[10000].key == Pad4(10000);
      PaddedOutOfOrder();
    }
  }

  /** Lists of n values always keep their order, if and only if n is at most ten thousand. */
  lemma OrderExact(n: nat)
    ensures (forall lines :: AllPlain(Data(lines)) && |Data(lines)| == n ==> Dumped(lines) == Data(lines)) <==>
            n <= 10000
  {
    if n <= 10000 {
      forall lines | AllPlain(Data(lines)) && |Data(lines)| == n
        ensures Dumped(lines) == Data(lines)
      {
        OrderKept(lines);
      }
    } else {
      OrderLost(n);
      assert |Data(Count(n))| == n;
    }
  }

  // ---- key and value pairs written and read back

  function PairLine(e: Entry, gap: string): string { e.key + gap + e.val }

  function PairLines(m: Map, gap: string): (r: seq<string>)
    ensures |r| == |m| && forall i :: 0 <= i < |m| ==> r[i] == PairLine(m[i], gap)
  {
    seq(|m|, i requires 0 <= i < |m| => PairLine(m[i], gap))
  }

  lemma PairLinesOneMore(header: seq<string>, m: Map, e: Entry, gap: string)
    ensures header + PairLines(m + [e], gap) == header + PairLines(m, gap) + [PairLine(e, gap)]
  {
  }

  /** A stored map has two blanks between key and value; the header is free text. */
  method PutCalibMap(header: seq<string>, m: Map) returns (text: string)
    ensures text == Unlines(header + PairLines(m, "  "))
  {
    text := WritePairs(Unlines(header), header, m, "  ");
  }

  /** A dumped map has a tab there, and no header. */
  method WriteCalibFileMap(m: Map) returns (text: string)
    ensures text == Unlines(PairLines(m, "\t"))
  {
    text := WritePairs("", [], m, "\t");
    assert [] + PairLines(m, "\t") == PairLines(m, "\t");
  }

  method WritePairs(start: string, ghost header: seq<string>, m: Map, gap: string) returns (text: string)
    requires start == Unlines(header)
    ensures text == Unlines(header + PairLines(m, gap))
  {
    text := start;
    ghost var lines, done := PairLines(m, gap), header;
    for i := 0 to |m|
      invariant done == header + lines[..i] && text == Unlines(done)
    {
      UnlinesOneMore(done, lines[i]);
      OneMore(header, lines, i);
      text, done := text + (m[i].key + gap + m[i].val) + "\n", done + [lines[i]];
    }
    assert lines[..|m|] == lines;
  }

  /** Something blank, but not a new line. */
  ghost predicate Gap(gap: string) { gap != "" && Blanks(gap) && '\n' !in gap }

  lemma PairWords(e: Entry, gap: string)
    requires Word(e.key) && Word(e.val) && Gap(gap)
    ensures Words(PairLine(e, gap)) == [e.key, e.val] && '\n' !in PairLine(e, gap)
  {
    WordAlone(e.key);
    AppendBlanks(e.key, gap);
    AppendWord(e.key + gap, e.val);
  }

  lemma PairReads(e: Entry, n: nat, gap: string)
    requires Word(e.key) && Word(e.val) && Gap(gap)
    ensures Pair(PairLine(e, gap), Words(PairLine(e, gap)), n) == e && '\n' !in PairLine(e, gap)
  {
    PairWords(e, gap);
    assert |PairLine(e, gap)| > |e.key|;
  }

  /** An ordered map whose keys and values are words. */
  ghost predicate LegalMap(m: Map) {
    Sorted(m) && forall i :: 0 <= i < |m| ==> Word(m[i].key) && Word(m[i].val)
  }

  ghost predicate Comments(header: seq<string>) {
    forall i :: 0 <= i < |header| ==> '\n' !in header[i] && (header[i] == "" || header[i][0] == '#')
  }

  lemma {:induction false} CommentsSkipped(header: seq<string>)
    requires Comments(header)
    ensures AsMap(header) == [] && Data(header) == []
  {
    if header != [] { CommentsSkipped(header[..|header| - 1]); }
  }

  lemma OneMorePair(front: seq<string>, e: Entry, gap: string)
    requires Word(e.key) && Word(e.val) && Gap(gap)
    ensures var line := PairLine(e, gap);
            AsMap(front + [line]) == (if e.key[0] == '#' then AsMap(front) else Put(AsMap(front), e.key, e.val)) &&
            Data(front + [line]) == Data(front) + (if e.key[0] == '#' then [] else [line])
  {
    var line := PairLine(e, gap);
    assert (front + [line])[..|front|] == front;
    PairReads(e, |Data(front)|, gap);
    assert line[0] == e.key[0];
  }

  ghost predicate NoHashKey(m: Map) { forall i :: 0 <= i < |m| && m[i].key != "" ==> m[i].key[0] != '#' }

  ghost predicate Gives(lines: seq<string>, m: Map) { AsMap(lines) == m }

  ghost predicate GivesLess(lines: seq<string>, m: Map) {
    |AsMap(lines)| <= |m| && (|AsMap(lines)| == |m| ==> NoHashKey(m))
  }

  lemma GivesOneMore(front: seq<string>, m: Map, e: Entry, gap: string, lines: seq<string>)
    requires Gap(gap) && lines == front + [PairLine(e, gap)] && Word(e.key) && Word(e.val) && e.key[0] != '#'
    requires Gives(front, m) && forall i :: 0 <= i < |m| ==> Less(m[i].key, e.key)
    ensures Gives(lines, m + [e])
  {
    OneMorePair(front, e, gap);
    PutLast(m, e.key, e.val);
  }

  lemma {:induction false} PutAddsOne(m: Map, k: string, v: string)
    ensures |Put(m, k, v)| <= |m| + 1
  {
    if m != [] { PutAddsOne(m[1..], k, v); }
  }

  lemma GivesLessOneMore(front: seq<string>, m: Map, e: Entry, gap: string, lines: seq<string>)
    requires Gap(gap) && GivesLess(front, m) && lines == front + [PairLine(e, gap)] && Word(e.key) && Word(e.val)
    ensures GivesLess(lines, m + [e])
  {
    OneMorePair(front, e, gap);
    PutAddsOne(AsMap(front), e.key, e.val);
  }

  /** Pairs come back, and every pair that looks like a comment is an entry lost. */
  lemma {:induction false} PairsRead(header: seq<string>, m: Map, gap: string, lines: seq<string>)
    requires Comments(header) && LegalMap(m) && Gap(gap) && lines == header + PairLines(m, gap)
    ensures NoHashKey(m) ==> Gives(lines, m)
    ensures GivesLess(lines, m)
  {
    if m == [] {
      assert lines == header;
      CommentsSkipped(header);
    } else {
      var rest, e := m[..|m| - 1], m[|m| - 1];
      var front := header + PairLines(rest, gap);
      PairsRead(header, rest, gap, front);
      assert m == rest + [e];
      PairLinesOneMore(header, rest, e, gap);
      GivesLessOneMore(front, rest, e, gap, lines);
      if NoHashKey(m) { GivesOneMore(front, rest, e, gap, lines); }
    }
  }

  lemma PairsAreLines(header: seq<string>, m: Map, gap: string)
    requires Comments(header) && LegalMap(m) && Gap(gap)
    ensures Lines(Unlines(header + PairLines(m, gap))) == header + PairLines(m, gap)
  {
    forall i | 0 <= i < |m| ensures '\n' !in PairLines(m, gap)[i] { PairWords(m[i], gap); }
    LinesOfUnlines(header + PairLines(m, gap));
  }

  /** Pairs of words, whatever blanks stand between them, come back unchanged, if and only if no key
      starts with '#'. */
  lemma PairsExact(header: seq<string>, m: Map, gap: string)
    requires Comments(header) && LegalMap(m) && Gap(gap)
    ensures AsMap(Lines(Unlines(header + PairLines(m, gap)))) == m <==> NoHashKey(m)
  {
    PairsAreLines(header, m, gap);
    PairsRead(header, m, gap, header + PairLines(m, gap));
  }

  // ---- what is read from any lines

  /** The value on a line: the line itself if it is one word, otherwise its second word, if any. */
  ghost function ValueOn(line: string): string { if Word(line) then line else Nth(Words(line), 1) }

  /** Its key: its number among the data lines if it is one word, otherwise its first word, if any. */
  ghost function KeyOn(line: string, n: nat): string { if Word(line) then Pad4(n) else Nth(Words(line), 0) }

  lemma PairIs(line: string, n: nat)
    requires line != ""
    ensures Pair(line, Words(line), n) == Entry(KeyOn(line, n), ValueOn(line))
  {
    WordsAreWords(line);
    if Word(line) { WordAlone(line); }
  }

  /** The data lines are the lines that are neither empty nor comments, in order. */
  lemma {:induction false} DataLines(lines: seq<string>, i: nat)
    requires i < |lines|
    ensures lines[i] in Data(lines) <==> lines[i] != "" && lines[i][0] != '#'
  {
    if i < |lines| - 1 {
      var front := lines[..|lines| - 1];
      DataLines(front, i);
      assert front[i] == lines[i];
      DataIsData(lines);
    } else {
      DataIsData(lines);
    }
  }

  lemma {:induction false} DataIsData(lines: seq<string>)
    ensures forall line :: line in Data(lines) ==> line != "" && line[0] != '#'
  {
    if lines != [] { DataIsData(lines[..|lines| - 1]); }
  }

  /** A vector has one entry per data line, in order: the value on that line. */
  lemma {:induction false} VectorLaw(lines: seq<string>)
    ensures |AsVector(lines)| == |Data(lines)|
    ensures forall i :: 0 <= i < |Data(lines)| ==> AsVector(lines)[i] == ValueOn(Data(lines)[i])
  {
    if lines != [] {
      var front, line := lines[..|lines| - 1], lines[|lines| - 1];
      VectorLaw(front);
      if IsData(line) { PairIs(line, |Data(front)|); }
    }
  }

  /** Whether the map has the key, and its value. */
  ghost function At(m: Map, k: string): (bool, string) { (k in Keys(m), Find(m, k)) }

  lemma ConsAt(e: Entry, m: Map, j: string, all: Map)
    requires all == [e] + m
    ensures At(all, j) == if e.key == j then (true, e.val) else At(m, j)
  {
    assert all[1..] == m;
    assert Keys(all) == [e.key] + Keys(m);
  }

  /** What a map holds after an entry has been put into it. */
  lemma {:induction false} PutAt(m: Map, k: string, v: string, j: string)
    ensures At(Put(m, k, v), j) == if j == k then (true, v) else At(m, j)
  {
    var put := Put(m, k, v);
    if m == [] || Less(k, m[0].key) {
      ConsAt(Entry(k, v), m, j, put);
    } else {
      var first, rest := m[0], m[1..];
      ConsAt(first, rest, j, m);
      if first.key == k {
        ConsAt(Entry(k, v), rest, j, put);
      } else {
        PutAt(rest, k, v, j);
        ConsAt(first, Put(rest, k, v), j, put);
      }
    }
  }

  /** The number of the last data line with that key, or the number of data lines. */
  ghost function LastWith(data: seq<string>, k: string): (r: nat)
    ensures r <= |data|
  {
    if data == [] then 0
    else if KeyOn(data[|data| - 1], |data| - 1) == k then |data| - 1
    else
      var r := LastWith(data[..|data| - 1], k);
      if r == |data| - 1 then |data| else r
  }

  ghost predicate NoneWith(data: seq<string>, from: nat, k: string) {
    forall j :: from <= j < |data| ==> KeyOn(data[j], j) != k
  }

  lemma NoneWithOneMore(front: seq<string>, line: string, from: nat, k: string)
    requires NoneWith(front, from, k) && (from <= |front| ==> KeyOn(line, |front|) != k)
    ensures NoneWith(front + [line], from, k)
  {
  }

  lemma LastWithSnoc(front: seq<string>, line: string, k: string)
    ensures var r := LastWith(front, k);
            LastWith(front + [line], k) ==
            if KeyOn(line, |front|) == k then |front| else if r == |front| then |front| + 1 else r
  {
    assert (front + [line])[..|front|] == front;
  }

  lemma {:induction false} LastWithIs(data: seq<string>, k: string)
    ensures var r := LastWith(data, k);
            if r < |data| then KeyOn(data[r], r) == k && NoneWith(data, r + 1, k) else NoneWith(data, 0, k)
  {
    if data != [] {
      var front, line := data[..|data| - 1], data[|data| - 1];
      LastWithIs(front, k);
      assert data == front + [line];
      LastWithSnoc(front, line, k);
      var r := LastWith(front, k);
      if KeyOn(line, |front|) != k { NoneWithOneMore(front, line, if r < |front| then r + 1 else 0, k); }
    }
  }

  /** What the data lines say about a key. */
  ghost function Said(data: seq<string>, k: string): (bool, string) {
    var last := LastWith(data, k);
    if last < |data| then (true, ValueOn(data[last])) else (false, "")
  }

  lemma SaidOneMore(front: seq<string>, line: string, k: string)
    ensures Said(front + [line], k) == if KeyOn(line, |front|) == k then (true, ValueOn(line)) else Said(front, k)
  {
    LastWithSnoc(front, line, k);
  }

  /** A map is in the order of its keys, has just the keys of the data lines, and the value that goes
      with a key is that of the last data line with it. */
  lemma {:induction false} MapLaw(lines: seq<string>, k: string)
    ensures Sorted(AsMap(lines)) && At(AsMap(lines), k) == Said(Data(lines), k)
  {
    if lines != [] {
      var front, line := lines[..|lines| - 1], lines[|lines| - 1];
      MapLaw(front, k);
      if IsData(line) {
        var n := |Data(front)|;
        PairIs(line, n);
        PutKeepsSorted(AsMap(front), KeyOn(line, n), ValueOn(line));
        PutAt(AsMap(front), KeyOn(line, n), ValueOn(line), k);
        SaidOneMore(Data(front), line, k);
      } else {
        assert Data(lines) == Data(front);
      }
    }
  }

  /** Pairs that are read as a vector give their values, if and only if no key starts with '#'. */
  lemma PairVectorExact(header: seq<string>, m: Map, gap: string)
    requires Comments(header) && LegalMap(m) && Gap(gap)
    ensures AsVector(Lines(Unlines(header + PairLines(m, gap)))) == Vals(m) <==> NoHashKey(m)
  {
    var lines := header + PairLines(m, gap);
    PairsAreLines(header, m, gap);
    VectorLaw(lines);
    PairData(header, m, gap, lines);
    forall i | 0 <= i < |m| ensures ValueOn(PairLine(m[i], gap)) == m[i].val {
      PairIs(PairLine(m[i], gap), 0);
      PairReads(m[i], 0, gap);
    }
    if NoHashKey(m) {
      assert AsVector(lines) == Vals(m);
    } else {
      assert |AsVector(lines)| < |Vals(m)|;
    }
  }

  ghost predicate DataOf(data: seq<string>, m: Map, gap: string) {
    if NoHashKey(m) then data == PairLines(m, gap) else |data| < |m|
  }

  lemma DataOfOneMore(data: seq<string>, m: Map, e: Entry, gap: string, next: seq<string>)
    requires DataOf(data, m, gap) && Word(e.key)
    requires next == data + if e.key[0] == '#' then [] else [PairLine(e, gap)]
    ensures DataOf(next, m + [e], gap)
  {
    PairLinesOneMore([], m, e, gap);
    assert (m + [e])[|m|] == e;
    if NoHashKey(m) {
      assert NoHashKey(m + [e]) <==> e.key[0] != '#';
    } else {
      var i :| 0 <= i < |m| && m[i].key != "" && m[i].key[0] == '#';
      assert (m + [e])[i] == m[i];
    }
  }

  lemma {:induction false} PairData(header: seq<string>, m: Map, gap: string, lines: seq<string>)
    requires Comments(header) && LegalMap(m) && Gap(gap) && lines == header + PairLines(m, gap)
    ensures DataOf(Data(lines), m, gap)
  {
    if m == [] {
      assert lines == header;
      CommentsSkipped(header);
      assert PairLines(m, gap) == [];
    } else {
      var rest, e := m[..|m| - 1], m[|m| - 1];
      var front := header + PairLines(rest, gap);
      PairData(header, rest, gap, front);
      assert m == rest + [e];
      PairLinesOneMore(header, rest, e, gap);
      OneMorePair(front, e, gap);
      DataOfOneMore(Data(front), rest, e, gap, Data(lines));
    }
  }
}
