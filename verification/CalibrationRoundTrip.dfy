/** Which tables come back unchanged after being written and read. */
module CalibrationRoundTrip {
  import opened CalibrationText
  import opened Calibrations
  import opened CalibrationTables

  ghost predicate LegalRows(rows: seq<Map>) { forall j :: 0 <= j < |rows| ==> LegalMap(rows[j]) }

  /** Comment lines, none of which names columns. */
  ghost predicate LegalHeader(header: seq<string>) {
    Comments(header) && forall i :: 0 <= i < |header| ==> !NamesColumns(header[i])
  }

  ghost predicate Ascending(cols: seq<string>) {
    forall i, j :: 0 <= i < j < |cols| ==> Less(cols[i], cols[j])
  }

  ghost predicate AllWords(cols: seq<string>) { forall i :: 0 <= i < |cols| ==> Word(cols[i]) }

  // ---- the words of a written line

  lemma CellWords(s: string, v: string)
    requires Current(s) == "" && Solid(v)
    ensures Words(s + v + "  ") == Words(s) + (if v == "" then [] else [v]) && Current(s + v + "  ") == ""
  {
    AppendWord(s, v);
    AppendSpace(s + v);
    AppendSpace(s + v + " ");
    assert s + v + "  " == s + v + " " + " ";
  }

  /** The values of a row that are not missing. */
  ghost function Filled(cols: seq<string>, row: Map): seq<string> {
    if cols == [] then []
    else
      var val := Find(row, cols[|cols| - 1]);
      Filled(cols[..|cols| - 1], row) + if val == "" then [] else [val]
  }

  lemma {:induction false} FindSolid(row: Map, k: string)
    requires forall i :: 0 <= i < |row| ==> Solid(row[i].val)
    ensures Solid(Find(row, k))
  {
    if row != [] { FindSolid(row[1..], k); }
  }

  lemma {:induction false} RowWords(cols: seq<string>, row: Map)
    requires LegalMap(row)
    ensures Words(RowText(cols, row)) == Filled(cols, row) && Current(RowText(cols, row)) == ""
  {
    if cols != [] {
      RowWords(cols[..|cols| - 1], row);
      FindSolid(row, cols[|cols| - 1]);
      CellWords(RowText(cols[..|cols| - 1], row), Find(row, cols[|cols| - 1]));
    }
  }

  lemma {:induction false} RowHasNoNewline(cols: seq<string>, row: Map)
    requires LegalMap(row)
    ensures '\n' !in RowText(cols, row)
  {
    if cols != [] {
      RowHasNoNewline(cols[..|cols| - 1], row);
      FindSolid(row, cols[|cols| - 1]);
    }
  }

  lemma NameWords(s: string, w: string)
    requires Word(w)
    ensures Words(s + " " + w) == Words(s) + [w]
  {
    AppendSpace(s);
    AppendWord(s + " ", w);
  }

  lemma {:induction false} NamesWords(cols: seq<string>)
    requires AllWords(cols)
    ensures Words(NamesText(cols)) == cols
  {
    if cols == [] {
      AppendSpace("");
      assert "" + " " == " ";
    } else {
      NamesWords(cols[..|cols| - 1]);
      NameWords(NamesText(cols[..|cols| - 1]), cols[|cols| - 1]);
    }
  }

  lemma {:induction false} NamesHaveNoNewline(cols: seq<string>)
    requires AllWords(cols)
    ensures '\n' !in NamesText(cols)
  {
    if cols != [] { NamesHaveNoNewline(cols[..|cols| - 1]); }
  }

  lemma {:induction false} RowStart(cols: seq<string>, row: Map)
    requires cols != [] && Find(row, cols[0]) != ""
    ensures RowText(cols, row) != "" && RowText(cols, row)[0] == Find(row, cols[0])[0]
  {
    if |cols| > 1 { RowStart(cols[..|cols| - 1], row); }
  }

  // ---- reading line after line

  lemma {:induction false} ReadAllConcat(st: Reading, a: seq<string>, b: seq<string>)
    ensures ReadAll(st, a + b) == ReadAll(ReadAll(st, a), b)
  {
    if b == [] {
      assert a + b == a;
    } else {
      assert (a + b)[..|a + b| - 1] == a + b[..|b| - 1];
      ReadAllConcat(st, a, b[..|b| - 1]);
    }
  }

  lemma {:induction false} HeaderSkipped(st: Reading, header: seq<string>)
    requires LegalHeader(header)
    ensures ReadAll(st, header) == st
  {
    if header != [] { HeaderSkipped(st, header[..|header| - 1]); }
  }

  lemma NamesRead(st: Reading, cols: seq<string>)
    requires AllWords(cols)
    ensures ReadLine(st, "#%" + NamesText(cols)) == Reading(cols, st.rows)
  {
    NamesWords(cols);
    var line := "#%" + NamesText(cols);
    assert line[..2] == "#%" && line[2..] == NamesText(cols);
  }

  ghost predicate RowsFrom(r: Reading, lines: seq<string>) {
    |r.rows| <= |lines| && (|r.rows| == |lines| ==> forall j :: 0 <= j < |lines| ==> IsData(lines[j]))
  }

  lemma RowsFromOneMore(r: Reading, front: seq<string>, line: string, lines: seq<string>)
    requires RowsFrom(r, front) && lines == front + [line]
    ensures RowsFrom(ReadLine(r, line), lines)
  {
    assert |ReadLine(r, line).rows| == |r.rows| + if IsData(line) then 1 else 0;
  }

  /** Only data lines give rows. */
  lemma {:induction false} RowsCounted(cols: seq<string>, lines: seq<string>)
    ensures RowsFrom(ReadAll(Reading(cols, []), lines), lines)
  {
    if lines != [] {
      RowsCounted(cols, lines[..|lines| - 1]);
      var front := lines[..|lines| - 1];
      RowsFromOneMore(ReadAll(Reading(cols, []), front), front, lines[|lines| - 1], lines);
    }
  }

  lemma {:induction false} RowsRead(cols: seq<string>, lines: seq<string>)
    requires forall j :: 0 <= j < |lines| ==> IsData(lines[j]) && |Words(lines[j])| <= |cols|
    ensures var r := ReadAll(Reading(cols, []), lines);
            r.cols == cols && |r.rows| == |lines| &&
            forall j :: 0 <= j < |lines| ==> r.rows[j] == RowOf(cols, Words(lines[j]))
  {
    if lines != [] {
      RowsRead(cols, lines[..|lines| - 1]);
      DataRead(ReadAll(Reading(cols, []), lines[..|lines| - 1]), lines[|lines| - 1]);
    }
  }

  lemma DataRead(st: Reading, line: string)
    requires IsData(line) && |Words(line)| <= |st.cols|
    ensures ReadLine(st, line) == Reading(st.cols, st.rows + [RowOf(st.cols, Words(line))])
  {
  }

  lemma {:induction false} RowInOrder(cols: seq<string>, vals: seq<string>)
    requires Ascending(cols) && |vals| <= |cols|
    ensures |RowOf(cols, vals)| == |vals|
    ensures forall i :: 0 <= i < |vals| ==> RowOf(cols, vals)[i] == Entry(cols[i], vals[i])
  {
    if vals != [] {
      var n := |vals| - 1;
      RowInOrder(cols, vals[..n]);
      PutLast(RowOf(cols, vals[..n]), cols[n], vals[n]);
    }
  }

  lemma {:induction false} FilledLength(cols: seq<string>, row: Map)
    ensures |Filled(cols, row)| <= |cols|
  {
    if cols != [] { FilledLength(cols[..|cols| - 1], row); }
  }

  lemma {:induction false} FilledWhole(row: Map, n: nat)
    requires LegalMap(row) && n <= |row|
    ensures Filled(Keys(row)[..n], row) == Vals(row)[..n]
  {
    if n > 0 {
      FilledWhole(row, n - 1);
      assert Keys(row)[..n][..n - 1] == Keys(row)[..n - 1];
      FindAt(row, n - 1);
      assert Vals(row)[..n] == Vals(row)[..n - 1] + [row[n - 1].val];
    }
  }

  // ---- the round trip

  /** What reading makes of a written table. */
  ghost function ReadBack(header: seq<string>, rows: seq<Map>): Table
    requires rows != []
  {
    Judged(ReadAll(Reading([], []), Lines(Unlines(Written(header, rows)))).rows)
  }

  ghost predicate SameColumns(rows: seq<Map>)
    requires rows != []
  {
    rows[0] != [] && forall j :: 0 <= j < |rows| ==> Keys(rows[j]) == Keys(rows[0])
  }

  ghost predicate NoHash(rows: seq<Map>) {
    forall j :: 0 <= j < |rows| && rows[j] != [] && rows[j][0].val != "" ==> rows[j][0].val[0] != '#'
  }

  lemma WrittenRead(header: seq<string>, rows: seq<Map>, cols: seq<string>)
    requires rows != [] && LegalRows(rows) && LegalHeader(header) && cols == Keys(rows[0])
    ensures ReadBack(header, rows) == Judged(ReadAll(Reading(cols, []), RowTexts(cols, rows)).rows)
  {
    var names, texts := "#%" + NamesText(cols), RowTexts(cols, rows);
    assert AllWords(cols) by { assert LegalMap(rows[0]); }
    NamesHaveNoNewline(cols);
    NoNewlines(header, names, rows, cols);
    LinesOfUnlines(header + [names] + texts);
    var start := Reading([], []);
    ReadAllConcat(start, header + [names], texts);
    ReadAllConcat(start, header, [names]);
    HeaderSkipped(start, header);
    NamesRead(start, cols);
    assert [names][..0] == [];
  }

  lemma NoNewlines(header: seq<string>, names: string, rows: seq<Map>, cols: seq<string>)
    requires LegalRows(rows) && LegalHeader(header) && '\n' !in names
    ensures var all := header + [names] + RowTexts(cols, rows); forall i :: 0 <= i < |all| ==> '\n' !in all[i]
  {
    forall j | 0 <= j < |rows| ensures '\n' !in RowTexts(cols, rows)[j] {
      RowHasNoNewline(cols, rows[j]);
    }
  }

  lemma ColumnsAscend(row: Map)
    requires LegalMap(row)
    ensures Ascending(Keys(row))
  {
  }

  /** A row with the table's columns, whose line is not taken for a comment, comes back. */
  lemma RowComesBack(row: Map, cols: seq<string>)
    requires LegalMap(row) && cols == Keys(row) && row != [] && row[0].val[0] != '#'
    ensures IsData(RowText(cols, row)) && |Words(RowText(cols, row))| == |cols| &&
            RowOf(cols, Words(RowText(cols, row))) == row
  {
    RowIsRead(row, cols);
    RowIsData(row, cols);
    RowIsBack(row, cols);
  }

  lemma RowIsRead(row: Map, cols: seq<string>)
    requires LegalMap(row) && cols == Keys(row)
    ensures Words(RowText(cols, row)) == Vals(row)
  {
    RowWords(cols, row);
    FilledWhole(row, |row|);
    assert cols[..|row|] == cols && Vals(row)[..|row|] == Vals(row);
  }

  lemma RowIsData(row: Map, cols: seq<string>)
    requires LegalMap(row) && cols == Keys(row) && row != [] && row[0].val[0] != '#'
    ensures IsData(RowText(cols, row))
  {
    FindAt(row, 0);
    RowStart(cols, row);
  }

  lemma RowIsBack(row: Map, cols: seq<string>)
    requires LegalMap(row) && cols == Keys(row)
    ensures RowOf(cols, Vals(row)) == row
  {
    ColumnsAscend(row);
    RowInOrder(cols, Vals(row));
  }

  /** If reading gives a full row equal to the one written, it had the table's columns. */
  lemma RowHadColumns(row: Map, cols: seq<string>)
    requires LegalMap(row) && Ascending(cols) && cols != [] && IsData(RowText(cols, row)) && |row| == |cols|
    requires |Words(RowText(cols, row))| <= |cols| && row == RowOf(cols, Words(RowText(cols, row)))
    ensures Keys(row) == cols && row[0].val[0] != '#'
  {
    RowInOrder(cols, Words(RowText(cols, row)));
    FindAt(row, 0);
    RowStart(cols, row);
  }

  lemma RowTextWords(row: Map, cols: seq<string>)
    requires LegalMap(row)
    ensures |Words(RowText(cols, row))| <= |cols|
  {
    RowWords(cols, row);
    FilledLength(cols, row);
  }

  lemma TableComesBack(header: seq<string>, rows: seq<Map>)
    requires rows != [] && LegalRows(rows) && LegalHeader(header) && SameColumns(rows) && NoHash(rows)
    ensures ReadBack(header, rows) == Table(rows, false)
  {
    var cols := Keys(rows[0]);
    WrittenRead(header, rows, cols);
    var texts := RowTexts(cols, rows);
    forall j | 0 <= j < |rows|
      ensures IsData(texts[j]) && |Words(texts[j])| <= |cols| && |rows[j]| == |cols|
      ensures RowOf(cols, Words(texts[j])) == rows[j]
    {
      assert |Keys(rows[j])| == |rows[j]|;
      RowComesBack(rows[j], cols);
    }
    RowsRead(cols, texts);
    assert ReadAll(Reading(cols, []), texts).rows == rows;
  }

  lemma TableWasProper(header: seq<string>, rows: seq<Map>)
    requires rows != [] && LegalRows(rows) && LegalHeader(header) && ReadBack(header, rows) == Table(rows, false)
    ensures SameColumns(rows) && NoHash(rows)
  {
    var cols := Keys(rows[0]);
    var texts := RowTexts(cols, rows);
    WrittenRead(header, rows, cols);
    RowsCounted(cols, texts);
    forall j | 0 <= j < |rows| ensures |Words(texts[j])| <= |cols| { RowTextWords(rows[j], cols); }
    RowsRead(cols, texts);
    ColumnsAscend(rows[0]);
    assert IsData(texts[0]);
    forall j | 0 <= j < |rows| ensures Keys(rows[j]) == cols && rows[j][0].val[0] != '#' {
      RowHadColumns(rows[j], cols);
    }
  }

  /** A table of words comes back unchanged and is found even, if and only if all rows have the same
      columns, at least one, and no row starts with a value that starts with '#'. */
  lemma RoundTripExact(header: seq<string>, rows: seq<Map>)
    requires rows != [] && LegalRows(rows) && LegalHeader(header)
    ensures ReadBack(header, rows) == Table(rows, false) <==> SameColumns(rows) && NoHash(rows)
  {
    if SameColumns(rows) && NoHash(rows) { TableComesBack(header, rows); }
    if ReadBack(header, rows) == Table(rows, false) { TableWasProper(header, rows); }
  }
}
