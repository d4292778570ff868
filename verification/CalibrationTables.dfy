/** Tables of calibration constants: one row per line, column names in a comment line that starts
    with "#%". */
module CalibrationTables {
  import opened CalibrationText
  import opened Calibrations

  // ---- reading

  datatype Reading = Reading(cols: seq<string>, rows: seq<Map>)

  /** Columns without a name are numbered. */
  function Names(cols: seq<string>, n: nat): (r: seq<string>)
    ensures (n <= |cols| ==> r == cols) && (n >= |cols| ==> |r| == n)
  {
    if n <= |cols| then cols else Names(cols, n - 1) + [Pad4(n - 1)]
  }

  function RowOf(cols: seq<string>, vals: seq<string>): Map
    requires |vals| <= |cols|
  {
    if vals == [] then []
    else Put(RowOf(cols, vals[..|vals| - 1]), cols[|vals| - 1], vals[|vals| - 1])
  }

  predicate NamesColumns(line: string) { |line| >= 2 && line[..2] == "#%" }

  ghost function ReadLine(st: Reading, line: string): Reading {
    if line == "" then st
    else if NamesColumns(line) then Reading(Words(line[2..]), st.rows)
    else if line[0] == '#' then st
    else
      var cols := Names(st.cols, |Words(line)|);
      Reading(cols, st.rows + [RowOf(cols, Words(line))])
  }

  ghost function ReadAll(st: Reading, lines: seq<string>): Reading {
    if lines == [] then st else ReadLine(ReadAll(st, lines[..|lines| - 1]), lines[|lines| - 1])
  }

  /** Rows, and whether their lengths differ; without any row the check of the lengths reads past
      the end. */
  datatype Table = Table(rows: seq<Map>, uneven: bool) | Undefined

  function Judged(rows: seq<Map>): Table {
    if rows == [] then Undefined else Table(rows, exists i :: 0 <= i < |rows| && |rows[i]| != |rows[0]|)
  }

  method GetCalibTable(text: string) returns (t: Table)
    ensures t == Judged(ReadAll(Reading([], []), Lines(text)).rows)
  {
    var lines := ReadLines(text);
    var cols, rows := [], [];
    for i := 0 to |lines|
      invariant Reading(cols, rows) == ReadAll(Reading([], []), lines[..i])
    {
      assert lines[..i + 1][..i] == lines[..i];
      cols, rows := TakeLine(cols, rows, lines[i]);
    }
    assert lines[..|lines|] == lines;
    if rows == [] { return Undefined; }
    for i := 0 to |rows|
      invariant forall j :: 0 <= j < i ==> |rows[j]| == |rows[0]|
    {
      if |rows[i]| != |rows[0]| { return Table(rows, true); }
    }
    t := Table(rows, false);
  }

  method TakeLine(cols: seq<string>, rows: seq<Map>, line: string) returns (names: seq<string>, more: seq<Map>)
    ensures Reading(names, more) == ReadLine(Reading(cols, rows), line)
  {
    names, more := cols, rows;
    if line == "" { return; }
    if NamesColumns(line) { names := SplitWords(line[2..]); }
    if line[0] == '#' { return; }
    var vals := SplitWords(line);
    var row := [];
    names, row := FillRow(cols, vals);
    more := rows + [row];
  }

  method FillRow(cols: seq<string>, vals: seq<string>) returns (names: seq<string>, row: Map)
    ensures names == Names(cols, |vals|) && row == RowOf(names, vals)
  {
    names, row := cols, [];
    for i := 0 to |vals|
      invariant names == Names(cols, i) && row == RowOf(names, vals[..i])
    {
      assert vals[..i + 1][..i] == vals[..i];
      if |names| <= i {
        ghost var before := names;
        names := names + [Pad4(i)];
        SameRow(before, names, vals[..i]);
      }
      row := Put(row, names[i], vals[i]);
    }
    assert vals[..|vals|] == vals;
  }

  lemma {:induction false} SameRow(cols: seq<string>, more: seq<string>, vals: seq<string>)
    requires |vals| <= |cols| <= |more| && more[..|cols|] == cols
    ensures RowOf(more, vals) == RowOf(cols, vals)
  {
    if vals != [] {
      SameRow(cols, more, vals[..|vals| - 1]);
      assert more[|vals| - 1] == more[..|cols|][|vals| - 1];
    }
  }

  // ---- what is read from any lines

  /** Named columns keep their names; the i-th column without a name is called by its number. */
  lemma {:induction false} NameAt(cols: seq<string>, n: nat, i: nat)
    requires i < n || i < |cols|
    ensures |Names(cols, n)| == (if n <= |cols| then |cols| else n)
    ensures Names(cols, n)[i] == if i < |cols| then cols[i] else Pad4(i)
  {
    if n > |cols| && i < n - 1 { NameAt(cols, n - 1, i); }
  }

  /** The number of the last column of that name, or the number of columns. */
  function LastColumn(cols: seq<string>, k: string): (r: nat)
    ensures r <= |cols|
    ensures r < |cols| ==> cols[r] == k && forall i :: r < i < |cols| ==> cols[i] != k
    ensures r == |cols| ==> k !in cols
  {
    if cols == [] then 0
    else if cols[|cols| - 1] == k then |cols| - 1
    else
      var r := LastColumn(cols[..|cols| - 1], k);
      if r == |cols| - 1 then |cols| else r
  }

  /** A row has the columns of its values, and in each the last value that goes with the name. */
  lemma {:induction false} RowLaw(cols: seq<string>, vals: seq<string>, k: string)
    requires |vals| <= |cols|
    ensures var i := LastColumn(cols[..|vals|], k);
            At(RowOf(cols, vals), k) == if i < |vals| then (true, vals[i]) else (false, "")
  {
    if vals != [] {
      var n := |vals| - 1;
      RowLaw(cols, vals[..n], k);
      assert cols[..n + 1][..n] == cols[..n];
      PutAt(RowOf(cols, vals[..n]), cols[n], vals[n], k);
    }
  }

  /** How a data line is read: it adds a row whose i-th value goes with the i-th column name, or with
      its number if there is none. */
  lemma DataLineLaw(st: Reading, line: string, vals: seq<string>, k: string)
    requires line != "" && line[0] != '#' && vals == Words(line)
    ensures var next := ReadLine(st, line);
            |next.rows| == |st.rows| + 1 && next.rows[..|st.rows|] == st.rows && |next.cols| >= |vals| &&
            var i := LastColumn(next.cols[..|vals|], k);
            At(next.rows[|st.rows|], k) == if i < |vals| then (true, vals[i]) else (false, "")
    ensures forall i :: 0 <= i < |ReadLine(st, line).cols| ==>
              ReadLine(st, line).cols[i] == if i < |st.cols| then st.cols[i] else Pad4(i)
  {
    var cols := Names(st.cols, |vals|);
    var next := Reading(cols, st.rows + [RowOf(cols, vals)]);
    assert line[..1] != "#";
    assert ReadLine(st, line) == next;
    RowLaw(cols, vals, k);
    forall i | 0 <= i < |cols| ensures cols[i] == if i < |st.cols| then st.cols[i] else Pad4(i) {
      NameAt(st.cols, |vals|, i);
    }
  }

  /** How any other line is read: it names columns, or is skipped. */
  lemma OtherLineLaw(st: Reading, line: string)
    requires line == "" || line[0] == '#'
    ensures var named := |line| >= 2 && line[0] == '#' && line[1] == '%';
            ReadLine(st, line) == Reading(if named then Words(line[2..]) else st.cols, st.rows)
  {
    if |line| >= 2 { assert line[..2] == [line[0], line[1]]; }
  }

  // ---- writing

  function NamesText(cols: seq<string>): string {
    if cols == [] then " " else NamesText(cols[..|cols| - 1]) + " " + cols[|cols| - 1]
  }

  function RowText(cols: seq<string>, row: Map): string {
    if cols == [] then "" else RowText(cols[..|cols| - 1], row) + Find(row, cols[|cols| - 1]) + "  "
  }

  function RowTexts(cols: seq<string>, rows: seq<Map>): (r: seq<string>)
    ensures |r| == |rows| && forall j :: 0 <= j < |rows| ==> r[j] == RowText(cols, rows[j])
  {
    seq(|rows|, j requires 0 <= j < |rows| => RowText(cols, rows[j]))
  }

  /** The columns of a table are those of its first row. */
  function Written(header: seq<string>, rows: seq<Map>): seq<string>
    requires rows != []
  {
    header + ["#%" + NamesText(Keys(rows[0]))] + RowTexts(Keys(rows[0]), rows)
  }

  /** Reading a missing value out of a map adds it, empty. */
  function Completed(cols: seq<string>, row: Map): Map {
    if cols == [] then row
    else
      var before := Completed(cols[..|cols| - 1], row);
      if cols[|cols| - 1] in Keys(before) then before else Put(before, cols[|cols| - 1], "")
  }

  function AllCompleted(cols: seq<string>, rows: seq<Map>): (r: seq<Map>)
    ensures |r| == |rows| && forall j :: 0 <= j < |rows| ==> r[j] == Completed(cols, rows[j])
  {
    seq(|rows|, j requires 0 <= j < |rows| => Completed(cols, rows[j]))
  }

  lemma {:induction false} PutMissing(m: Map, k: string, j: string)
    requires k !in Keys(m)
    ensures Find(Put(m, k, ""), j) == Find(m, j)
  {
    if m != [] {
      assert m[0].key == Keys(m)[0];
      if m[0].key != k && !Less(k, m[0].key) {
        assert forall i :: 0 <= i < |m| - 1 ==> Keys(m[1..])[i] == Keys(m)[i + 1];
        PutMissing(m[1..], k, j);
      } else if j == k {
        NotFound(m, k);
      }
    }
  }

  lemma {:induction false} NotFound(m: Map, k: string)
    requires k !in Keys(m)
    ensures Find(m, k) == ""
  {
    if m != [] {
      assert m[0].key == Keys(m)[0];
      assert forall i :: 0 <= i < |m| - 1 ==> Keys(m[1..])[i] == Keys(m)[i + 1];
      NotFound(m[1..], k);
    }
  }

  /** Completing a row changes none of its values. */
  lemma {:induction false} CompletedFinds(cols: seq<string>, row: Map, k: string)
    ensures Find(Completed(cols, row), k) == Find(row, k)
  {
    if cols != [] {
      var before := Completed(cols[..|cols| - 1], row);
      CompletedFinds(cols[..|cols| - 1], row, k);
      if cols[|cols| - 1] !in Keys(before) { PutMissing(before, cols[|cols| - 1], k); }
    }
  }

  /** It adds the columns that are missing, and no others. */
  lemma {:induction false} CompletedKeys(cols: seq<string>, row: Map, k: string)
    ensures k in Keys(Completed(cols, row)) <==> k in Keys(row) || k in cols
  {
    if cols != [] {
      var front, last := cols[..|cols| - 1], cols[|cols| - 1];
      CompletedKeys(front, row, k);
      assert cols == front + [last];
      PutAt(Completed(front, row), last, "", k);
    }
  }

  /** Writing leaves a row as it is if it has all the columns. */
  lemma {:induction false} CompleteStays(cols: seq<string>, row: Map)
    requires forall i :: 0 <= i < |cols| ==> cols[i] in Keys(row)
    ensures Completed(cols, row) == row
  {
    if cols != [] { CompleteStays(cols[..|cols| - 1], row); }
  }

  /** A table without rows is not written; the header is free text. The caller's rows are completed
      with empty values for the columns they lack. */
  method PutCalibTable(header: seq<string>, rows: seq<Map>) returns (text: string, after: seq<Map>)
    ensures rows != [] ==> text == Unlines(Written(header, rows)) && after == AllCompleted(Keys(rows[0]), rows)
    ensures rows == [] ==> text == "" && after == []
  {
    if rows == [] { return "", []; }
    var cols := Keys(rows[0]);
    var names := WriteNames(cols);
    text := Unlines(header) + names + "\n";
    UnlinesOneMore(header, names);
    text, after := WriteRows(cols, rows, text, header + [names]);
  }

  method WriteNames(cols: seq<string>) returns (line: string)
    ensures line == "#%" + NamesText(cols)
  {
    line := "#% ";
    for i := 0 to |cols|
      invariant line == "#%" + NamesText(cols[..i])
    {
      assert cols[..i + 1][..i] == cols[..i];
      line := line + " " + cols[i];
    }
    assert cols[..|cols|] == cols;
  }

  method WriteRows(cols: seq<string>, rows: seq<Map>, start: string, ghost top: seq<string>)
    returns (text: string, after: seq<Map>)
    requires start == Unlines(top)
    ensures text == Unlines(top + RowTexts(cols, rows)) && after == AllCompleted(cols, rows)
  {
    ghost var lines, completed := RowTexts(cols, rows), AllCompleted(cols, rows);
    text, after := WriteLines(cols, rows, start, top, lines, completed);
  }

  method WriteLines(cols: seq<string>, rows: seq<Map>, start: string,
                    ghost top: seq<string>, ghost lines: seq<string>, ghost completed: seq<Map>)
    returns (text: string, after: seq<Map>)
    requires start == Unlines(top) && |lines| == |completed| == |rows|
    requires forall j :: 0 <= j < |rows| ==> RowIs(cols, rows[j], lines[j], completed[j])
    ensures text == Unlines(top + lines) && after == completed
  {
    text, after := start, [];
    ghost var done := top;
    for j := 0 to |rows|
      invariant done == top + lines[..j] && text == Unlines(done) && after == completed[..j]
    {
      var line, row := WriteRowAs(cols, rows[j], lines[j], completed[j]);
      UnlinesOneMore(done, line);
      OneMore(top, lines, j);
      OneMore([], completed, j);
      text, done, after := text + line + "\n", done + [line], after + [row];
    }
    assert lines[..|rows|] == lines && completed[..|rows|] == completed;
  }

  /** What a row is written as, and what becomes of it. */
  ghost predicate RowIs(cols: seq<string>, row: Map, line: string, after: Map) {
    line == RowText(cols, row) && after == Completed(cols, row)
  }

  method WriteRowAs(cols: seq<string>, row: Map, ghost text: string, ghost full: Map) returns (line: string, after: Map)
    requires RowIs(cols, row, text, full)
    ensures line == text && after == full
  {
    line, after := WriteRow(cols, row);
  }

  method WriteRow(cols: seq<string>, row: Map) returns (line: string, after: Map)
    ensures line == RowText(cols, row) && after == Completed(cols, row)
  {
    line, after := "", row;
    for i := 0 to |cols|
      invariant line == RowText(cols[..i], row) && after == Completed(cols[..i], row)
    {
      assert cols[..i + 1][..i] == cols[..i];
      CompletedFinds(cols[..i], row, cols[i]);
      if cols[i] !in Keys(after) {
        NotFound(after, cols[i]);
        after := Put(after, cols[i], "");
        line := line + "" + "  ";
      } else {
        line := line + Find(after, cols[i]) + "  ";
      }
    }
    assert cols[..|cols|] == cols;
  }
}
