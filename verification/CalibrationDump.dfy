/** Tables dumped to a file: unlike a stored table, each row is written with its own columns and with
    a blank before every value. */
module CalibrationDump {
  import opened CalibrationText
  import opened Calibrations
  import opened CalibrationTables
  import opened CalibrationRoundTrip

  // ---- writing

  /** Each word with some blanks before it. */
  function Spaced(gap: string, words: seq<string>): string {
    if words == [] then "" else Spaced(gap, words[..|words| - 1]) + gap + words[|words| - 1]
  }

  function DumpedRows(rows: seq<Map>): (r: seq<string>)
    ensures |r| == |rows| && forall j :: 0 <= j < |rows| ==> r[j] == Spaced(" ", Vals(rows[j]))
  {
    seq(|rows|, j requires 0 <= j < |rows| => Spaced(" ", Vals(rows[j])))
  }

  /** The column names are those of the first row; without rows there is nothing. */
  function DumpedLines(rows: seq<Map>): seq<string> {
    if rows == [] then [] else ["#%" + Spaced("  ", Keys(rows[0]))] + DumpedRows(rows)
  }

  method WriteCalibFileVectorMap(rows: seq<Map>) returns (text: string)
    ensures text == Unlines(DumpedLines(rows))
  {
    text := "";
    ghost var done: seq<string> := [];
    for j := 0 to |rows|
      invariant done == FirstLines(rows, j) && text == Unlines(done)
    {
      text, done := WriteRowLines(rows[j], j == 0, text, done);
      FirstLinesNext(rows, j);
    }
    assert DumpedLines(rows)[..|DumpedLines(rows)|] == DumpedLines(rows);
  }

  /** One row, with the column names before it if it is the first. */
  function RowLines(row: Map, first: bool): seq<string> {
    (if first then ["#%" + Spaced("  ", Keys(row))] else []) + [Spaced(" ", Vals(row))]
  }

  method WriteRowLines(row: Map, first: bool, start: string, ghost done: seq<string>)
    returns (text: string, ghost after: seq<string>)
    requires start == Unlines(done)
    ensures after == done + RowLines(row, first) && text == Unlines(after)
  {
    text, after := start, done;
    if first {
      var names := WriteSpaced("  ", Keys(row));
      UnlinesOneMore(after, "#%" + names);
      text, after := text + ("#%" + names) + "\n", after + ["#%" + names];
    }
    var line := WriteSpaced(" ", Vals(row));
    UnlinesOneMore(after, line);
    text, after := text + line + "\n", after + [line];
  }

  /** The lines of the first j rows. */
  ghost function FirstLines(rows: seq<Map>, j: nat): seq<string>
    requires j <= |rows|
  {
    DumpedLines(rows)[..if j == 0 then 0 else j + 1]
  }

  lemma FirstLinesNext(rows: seq<Map>, j: nat)
    requires j < |rows|
    ensures FirstLines(rows, j + 1) == FirstLines(rows, j) + RowLines(rows[j], j == 0)
  {
    var lines := DumpedLines(rows);
    assert lines[j + 1] == Spaced(" ", Vals(rows[j]));
  }

  method WriteSpaced(gap: string, words: seq<string>) returns (line: string)
    ensures line == Spaced(gap, words)
  {
    line := "";
    for i := 0 to |words|
      invariant line == Spaced(gap, words[..i])
    {
      assert words[..i + 1][..i] == words[..i];
      line := line + gap + words[i];
    }
    assert words[..|words|] == words;
  }

  // ---- reading it back

  lemma GapWords(s: string, gap: string, w: string)
    requires Word(w) && (gap == " " || gap == "  ")
    ensures Words(s + gap + w) == Words(s) + [w]
  {
    AppendSpace(s);
    if gap == "  " {
      AppendSpace(s + " ");
      assert s + " " + " " == s + gap;
    }
    AppendWord(s + gap, w);
  }

  lemma {:induction false} SpacedWords(gap: string, words: seq<string>)
    requires AllWords(words) && (gap == " " || gap == "  ")
    ensures Words(Spaced(gap, words)) == words && '\n' !in Spaced(gap, words)
    ensures words != [] ==> Spaced(gap, words) != "" && Spaced(gap, words)[0] == ' '
  {
    if words != [] {
      SpacedWords(gap, words[..|words| - 1]);
      GapWords(Spaced(gap, words[..|words| - 1]), gap, words[|words| - 1]);
    }
  }

  /** What reading makes of a dumped table. */
  ghost function ReadDump(rows: seq<Map>): Table {
    Judged(ReadAll(Reading([], []), Lines(Unlines(DumpedLines(rows)))).rows)
  }

  lemma RowReads(row: Map)
    requires LegalMap(row)
    ensures var line := Spaced(" ", Vals(row));
            '\n' !in line && Words(line) == Vals(row) && (IsData(line) <==> row != [])
  {
    SpacedWords(" ", Vals(row));
  }

  lemma DumpRead(rows: seq<Map>, cols: seq<string>)
    requires rows != [] && LegalRows(rows) && cols == Keys(rows[0])
    ensures ReadDump(rows) == Judged(ReadAll(Reading(cols, []), DumpedRows(rows)).rows)
  {
    var spaced, texts := Spaced("  ", cols), DumpedRows(rows);
    var names := "#%" + spaced;
    assert AllWords(cols) by { assert LegalMap(rows[0]); }
    SpacedWords("  ", cols);
    assert names[..2] == "#%" && names[2..] == spaced;
    forall j | 0 <= j < |rows| ensures '\n' !in texts[j] { RowReads(rows[j]); }
    LinesOfUnlines([names] + texts);
    ReadAllConcat(Reading([], []), [names], texts);
    assert [names][..0] == [];
  }

  ghost predicate Back(cols: seq<string>, text: string, row: Map) {
    IsData(text) && |Words(text)| <= |cols| && RowOf(cols, Words(text)) == row
  }

  lemma RowBack(row: Map, cols: seq<string>, text: string)
    requires LegalMap(row) && row != [] && cols == Keys(row) && text == Spaced(" ", Vals(row))
    ensures Back(cols, text, row)
  {
    RowReads(row);
    ColumnsAscend(row);
    RowInOrder(cols, Vals(row));
  }

  lemma AllBack(rows: seq<Map>, cols: seq<string>, texts: seq<string>)
    requires |texts| == |rows| && forall j :: 0 <= j < |rows| ==> Back(cols, texts[j], rows[j])
    ensures ReadAll(Reading(cols, []), texts).rows == rows
  {
    forall j | 0 <= j < |texts| ensures IsData(texts[j]) && |Words(texts[j])| <= |cols| {
      assert Back(cols, texts[j], rows[j]);
    }
    RowsRead(cols, texts);
    var read := ReadAll(Reading(cols, []), texts).rows;
    forall j | 0 <= j < |rows| ensures read[j] == rows[j] { assert Back(cols, texts[j], rows[j]); }
  }

  lemma DumpComesBack(rows: seq<Map>)
    requires rows != [] && LegalRows(rows) && SameColumns(rows)
    ensures ReadDump(rows) == Table(rows, false)
  {
    var cols, texts := Keys(rows[0]), DumpedRows(rows);
    DumpRead(rows, cols);
    forall j | 0 <= j < |rows| ensures Back(cols, texts[j], rows[j]) && |rows[j]| == |rows[0]| {
      assert |Keys(rows[j])| == |rows[j]|;
      RowBack(rows[j], cols, texts[j]);
    }
    AllBack(rows, cols, texts);
  }

  /** A row that is read back under the table's columns had just these. */
  lemma RowHad(row: Map, cols: seq<string>)
    requires Ascending(cols) && |row| == |cols| && RowOf(cols, Vals(row)) == row
    ensures Keys(row) == cols
  {
    RowInOrder(cols, Vals(row));
  }

  /** Rows are only read from data lines, and rows of the table's length under its columns. */
  lemma RowsOfDump(rows: seq<Map>, cols: seq<string>, texts: seq<string>)
    requires |texts| == |rows|
    requires forall j :: 0 <= j < |rows| ==> Words(texts[j]) == Vals(rows[j]) && |rows[j]| == |cols|
    requires ReadAll(Reading(cols, []), texts).rows == rows
    ensures forall j :: 0 <= j < |rows| ==> IsData(texts[j]) && RowOf(cols, Vals(rows[j])) == rows[j]
  {
    RowsCounted(cols, texts);
    RowsRead(cols, texts);
  }

  lemma DumpWasProper(rows: seq<Map>)
    requires rows != [] && LegalRows(rows) && ReadDump(rows) == Table(rows, false)
    ensures SameColumns(rows)
  {
    var cols, texts := Keys(rows[0]), DumpedRows(rows);
    DumpRead(rows, cols);
    forall j | 0 <= j < |rows| ensures Words(texts[j]) == Vals(rows[j]) && |rows[j]| == |cols| {
      RowReads(rows[j]);
    }
    RowsOfDump(rows, cols, texts);
    RowReads(rows[0]);
    ColumnsAscend(rows[0]);
    forall j | 0 <= j < |rows| ensures Keys(rows[j]) == cols { RowHad(rows[j], cols); }
  }

  /** A dumped table of words comes back unchanged and is found even, if and only if all rows have the
      same columns, at least one. No value is taken for a comment. */
  lemma DumpExact(rows: seq<Map>)
    requires rows != [] && LegalRows(rows)
    ensures ReadDump(rows) == Table(rows, false) <==> SameColumns(rows)
  {
    if SameColumns(rows) { DumpComesBack(rows); }
    if ReadDump(rows) == Table(rows, false) { DumpWasProper(rows); }
  }
}
