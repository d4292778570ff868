/** Text handling for calibration files: lines, white-space separated words, zero-padded numbers, and
    the order of strings. */
module CalibrationText {

  // ---- lines

  /** The lines ended by a newline, and what comes after the last newline. */
  ghost function Ended(s: string): seq<string> {
    if s == "" then []
    else Ended(s[..|s| - 1]) + if s[|s| - 1] == '\n' then [After(s[..|s| - 1])] else []
  }

  ghost function After(s: string): string {
    if s == "" || s[|s| - 1] == '\n' then "" else After(s[..|s| - 1]) + [s[|s| - 1]]
  }

  /** What getline delivers: a last line without newline counts, unless it is empty. */
  ghost function Lines(s: string): seq<string> {
    Ended(s) + if After(s) == "" then [] else [After(s)]
  }

  method ReadLines(s: string) returns (lines: seq<string>)
    ensures lines == Lines(s)
  {
    lines := [];
    var line := "";
    for i := 0 to |s|
      invariant lines == Ended(s[..i]) && line == After(s[..i])
    {
      assert s[..i + 1][..i] == s[..i];
      if s[i] == '\n' {
        lines, line := lines + [line], "";
      } else {
        line := line + [s[i]];
      }
    }
    assert s[..|s|] == s;
    if line != "" { lines := lines + [line]; }
  }

  function Unlines(lines: seq<string>): string {
    if lines == [] then "" else Unlines(lines[..|lines| - 1]) + lines[|lines| - 1] + "\n"
  }

  lemma OneMore<T>(top: seq<T>, lines: seq<T>, j: nat)
    requires j < |lines|
    ensures top + lines[..j + 1] == top + lines[..j] + [lines[j]]
    ensures lines[..j + 1] == lines[..j] + [lines[j]]
  {
  }

  lemma UnlinesOneMore(lines: seq<string>, line: string)
    ensures Unlines(lines + [line]) == Unlines(lines) + line + "\n"
  {
    assert (lines + [line])[..|lines|] == lines;
  }

  lemma {:induction false} AppendLine(s: string, line: string)
    requires After(s) == "" && '\n' !in line
    ensures Ended(s + line) == Ended(s) && After(s + line) == line
  {
    if line == "" {
      assert s + line == s;
    } else {
      var n := |line| - 1;
      AppendLine(s, line[..n]);
      assert (s + line)[..|s + line| - 1] == s + line[..n];
    }
  }

  lemma AppendNewline(s: string)
    ensures Ended(s + "\n") == Ended(s) + [After(s)] && After(s + "\n") == ""
  {
    assert (s + "\n")[..|s|] == s;
  }

  /** The text consists of these lines, each ended. */
  ghost predicate Holds(s: string, lines: seq<string>) { Ended(s) == lines && After(s) == "" }

  lemma HoldsOneMore(s: string, lines: seq<string>, line: string)
    requires Holds(s, lines) && '\n' !in line
    ensures Holds(s + line + "\n", lines + [line])
  {
    AppendLine(s, line);
    AppendNewline(s + line);
  }

  /** Lines written one after the other are read back, if none of them has a newline inside. */
  lemma {:induction false} LinesOfUnlines(lines: seq<string>)
    requires forall i :: 0 <= i < |lines| ==> '\n' !in lines[i]
    ensures Holds(Unlines(lines), lines) && Lines(Unlines(lines)) == lines
  {
    if lines != [] {
      var front, line := lines[..|lines| - 1], lines[|lines| - 1];
      LinesOfUnlines(front);
      HoldsOneMore(Unlines(front), front, line);
      assert front + [line] == lines;
    }
  }

  /** A last line that is not ended is read all the same. */
  lemma LinesOfText(lines: seq<string>, last: string)
    requires '\n' !in last && forall i :: 0 <= i < |lines| ==> '\n' !in lines[i]
    ensures Lines(Unlines(lines) + last) == lines + if last == "" then [] else [last]
  {
    LinesOfUnlines(lines);
    AppendLine(Unlines(lines), last);
  }

  // ---- words

  predicate Space(c: char) {
    c == ' ' || c == '\t' || c == '\n' || c == '\r' || c == 11 as char || c == 12 as char
  }

  /** The words ended by white space, and the word still being read. */
  ghost function Done(s: string): seq<string> {
    if s == "" then []
    else Done(s[..|s| - 1]) + if Space(s[|s| - 1]) && Current(s[..|s| - 1]) != "" then [Current(s[..|s| - 1])] else []
  }

  ghost function Current(s: string): string {
    if s == "" || Space(s[|s| - 1]) then "" else Current(s[..|s| - 1]) + [s[|s| - 1]]
  }

  ghost function Words(s: string): seq<string> {
    Done(s) + if Current(s) == "" then [] else [Current(s)]
  }

  method SplitWords(s: string) returns (words: seq<string>)
    ensures words == Words(s)
  {
    words := [];
    var word := "";
    for i := 0 to |s|
      invariant words == Done(s[..i]) && word == Current(s[..i])
    {
      assert s[..i + 1][..i] == s[..i];
      if Space(s[i]) {
        if word != "" { words := words + [word]; }
        word := "";
      } else {
        word := word + [s[i]];
      }
    }
    assert s[..|s|] == s;
    if word != "" { words := words + [word]; }
  }

  /** A word: not empty, no white space in it. */
  ghost predicate Word(s: string) {
    s != "" && Solid(s)
  }

  ghost predicate Solid(s: string) {
    forall i :: 0 <= i < |s| ==> !Space(s[i])
  }

  lemma {:induction false} AppendWord(s: string, w: string)
    requires Current(s) == "" && Solid(w)
    ensures Done(s + w) == Done(s) && Current(s + w) == w
  {
    if w == "" {
      assert s + w == s;
    } else {
      var n := |w| - 1;
      AppendWord(s, w[..n]);
      assert (s + w)[..|s + w| - 1] == s + w[..n];
    }
  }

  lemma AppendSpace(s: string)
    ensures Done(s + " ") == Words(s) && Current(s + " ") == ""
  {
    assert (s + " ")[..|s|] == s;
  }

  lemma WordAlone(w: string)
    requires Word(w)
    ensures Words(w) == [w]
  {
    AppendWord("", w);
    assert "" + w == w;
  }

  /** Blanks of any kind. */
  ghost predicate Blanks(s: string) {
    forall i :: 0 <= i < |s| ==> s[i] in {' ', '\t', '\n', '\r', 11 as char, 12 as char}
  }

  lemma {:induction false} AppendBlanks(s: string, gap: string)
    requires Blanks(gap) && gap != ""
    ensures Done(s + gap) == Words(s) && Current(s + gap) == ""
  {
    var n := |gap| - 1;
    assert (s + gap)[..|s + gap| - 1] == s + gap[..n];
    if n > 0 {
      AppendBlanks(s, gap[..n]);
    } else {
      assert s + gap[..n] == s;
    }
  }

  /** Words with blanks around them. */
  function Apart(gaps: seq<string>, words: seq<string>): string
    requires |gaps| == |words| + 1
  {
    if words == [] then gaps[0] else Apart(gaps[..|words|], words[..|words| - 1]) + words[|words| - 1] + gaps[|words|]
  }

  /** Any text made of words with blanks of any kind between them is split into just these words. */
  lemma {:induction false} WordsOfText(gaps: seq<string>, words: seq<string>)
    requires |gaps| == |words| + 1 && (forall i :: 0 <= i < |gaps| ==> Blanks(gaps[i]))
    requires (forall i :: 0 <= i < |words| ==> Word(words[i])) && forall i :: 0 < i < |words| ==> gaps[i] != ""
    ensures Words(Apart(gaps, words)) == words
    ensures words == [] || gaps[|words|] != "" ==> Current(Apart(gaps, words)) == ""
  {
    if words == [] {
      if gaps[0] != "" {
        AppendBlanks("", gaps[0]);
        assert "" + gaps[0] == gaps[0];
      }
    } else {
      var n := |words| - 1;
      WordsOfText(gaps[..|words|], words[..n]);
      OneMoreWord(Apart(gaps[..|words|], words[..n]), words[n], gaps[n + 1]);
      assert words == words[..n] + [words[n]];
    }
  }

  lemma OneMoreWord(s: string, word: string, gap: string)
    requires Current(s) == "" && Word(word) && Blanks(gap)
    ensures Words(s + word + gap) == Words(s) + [word] && (gap != "" ==> Current(s + word + gap) == "")
  {
    AppendWord(s, word);
    if gap != "" { AppendBlanks(s + word, gap); } else { assert s + word + gap == s + word; }
  }

  lemma {:induction false} WordsAreWords(s: string)
    ensures forall i :: 0 <= i < |Words(s)| ==> Word(Words(s)[i])
    ensures Solid(Current(s)) && forall i :: 0 <= i < |Done(s)| ==> Word(Done(s)[i])
  {
    if s != "" { WordsAreWords(s[..|s| - 1]); }
  }

  // ---- zero-padded numbers

  function Digit(n: nat): char
    requires n < 10
  {
    '0' + n as char
  }

  function Digits(n: nat): string {
    if n < 10 then [Digit(n)] else Digits(n / 10) + [Digit(n % 10)]
  }

  function Zeros(n: int): string {
    if n <= 0 then "" else Zeros(n - 1) + "0"
  }

  /** Decimal, padded with zeros to four places. */
  function Pad4(n: nat): string { Zeros(4 - |Digits(n)|) + Digits(n) }

  lemma FourPlaces(n: nat)
    requires n < 10000
    ensures Pad4(n) == [Digit(n / 1000), Digit(n / 100 % 10), Digit(n / 10 % 10), Digit(n % 10)]
  {
    assert n / 10 / 10 == n / 100 && n / 100 / 10 == n / 1000;
    assert Zeros(0) == "" && Zeros(1) == "0" && Zeros(2) == "00" && Zeros(3) == "000";
    if n >= 10 {
      assert Digits(n) == Digits(n / 10) + [Digit(n % 10)];
      if n >= 100 {
        assert Digits(n / 10) == Digits(n / 100) + [Digit(n / 10 % 10)];
        if n >= 1000 {
          assert Digits(n / 100) == Digits(n / 1000) + [Digit(n / 100 % 10)];
        }
      }
    }
  }

  /** The number a text of digits stands for. */
  function NumberOf(s: string): int {
    if s == "" then 0 else NumberOf(s[..|s| - 1]) * 10 + (s[|s| - 1] as int - '0' as int)
  }

  lemma {:induction false} DigitsMean(n: nat)
    ensures NumberOf(Digits(n)) == n && |Digits(n)| > 0
    ensures n >= 10 ==> Digits(n)[0] != '0'
  {
    var s := Digits(n);
    if n < 10 {
      assert s[..|s| - 1] == "";
    } else {
      DigitsMean(n / 10);
      assert s[..|s| - 1] == Digits(n / 10);
      if n / 10 < 10 { assert Digits(n / 10)[0] == Digit(n / 10); }
    }
  }

  lemma {:induction false} ZerosMeanNothing(n: int, s: string)
    ensures NumberOf(Zeros(n) + s) == NumberOf(s) && |Zeros(n)| == if n > 0 then n else 0
    decreases |s|, if n > 0 then n else 0
  {
    var all := Zeros(n) + s;
    if s != "" {
      assert all[..|all| - 1] == Zeros(n) + s[..|s| - 1];
      ZerosMeanNothing(n, s[..|s| - 1]);
    } else if n > 0 {
      assert all == Zeros(n) && all[..|all| - 1] == Zeros(n - 1) + "";
      ZerosMeanNothing(n - 1, "");
    }
  }

  /** A padded number is that number, with four digits or as many as it needs. */
  lemma PaddedMeans(n: nat)
    ensures NumberOf(Pad4(n)) == n && |Pad4(n)| == if |Digits(n)| < 4 then 4 else |Digits(n)|
  {
    DigitsMean(n);
    ZerosMeanNothing(4 - |Digits(n)|, Digits(n));
  }

  lemma {:induction false} DigitsAreWord(n: nat)
    ensures Word(Digits(n)) && forall i :: 0 <= i < |Digits(n)| ==> '0' <= Digits(n)[i] <= '9'
  {
    if n >= 10 { DigitsAreWord(n / 10); }
  }

  lemma PaddedIsWord(n: nat)
    ensures Word(Pad4(n)) && Pad4(n)[0] != '#'
  {
    DigitsAreWord(n);
    ZerosAreZero(4 - |Digits(n)|);
  }

  lemma {:induction false} ZerosAreZero(n: int)
    ensures forall i :: 0 <= i < |Zeros(n)| ==> Zeros(n)[i] == '0'
  {
    if n > 0 { ZerosAreZero(n - 1); }
  }

  // ---- the order of strings

  predicate Less(a: string, b: string) {
    b != "" && (a == "" || a[0] < b[0] || (a[0] == b[0] && Less(a[1..], b[1..])))
  }

  lemma {:induction false} LessIsOrder(a: string, b: string)
    ensures !(Less(a, b) && Less(b, a)) && !Less(a, a)
    ensures a == b || Less(a, b) || Less(b, a)
  {
    if a != "" && b != "" {
      LessIsOrder(a[1..], b[1..]);
      if a[0] == b[0] && a[1..] == b[1..] { assert a == [a[0]] + a[1..] == b; }
    }
    if a != "" { LessIsOrder(a[1..], a[1..]); }
  }

  lemma {:induction false} LessTransitive(a: string, b: string, c: string)
    requires Less(a, b) && Less(b, c)
    ensures Less(a, c)
  {
    if a != "" && a[0] == b[0] == c[0] { LessTransitive(a[1..], b[1..], c[1..]); }
  }

  lemma PaddedInOrder(i: nat, j: nat)
    requires i < j < 10000
    ensures Less(Pad4(i), Pad4(j))
  {
    FourPlaces(i);
    FourPlaces(j);
    FourPlacesMakeNumber(i);
    FourPlacesMakeNumber(j);
    FourDigitsInOrder(i / 1000, i / 100 % 10, i / 10 % 10, i % 10, j / 1000, j / 100 % 10, j / 10 % 10, j % 10);
  }

  lemma FourPlacesMakeNumber(n: nat)
    ensures n == 1000 * (n / 1000) + 100 * (n / 100 % 10) + 10 * (n / 10 % 10) + n % 10
  {
    var a, b := n / 10, n / 100;
    assert a / 10 == b && b / 10 == n / 1000;
    assert a == 10 * b + a % 10 && b == 10 * (b / 10) + b % 10;
  }

  lemma FourDigitsInOrder(a: nat, b: nat, c: nat, d: nat, e: nat, f: nat, g: nat, h: nat)
    requires a < 10 && b < 10 && c < 10 && d < 10 && e < 10 && f < 10 && g < 10 && h < 10
    requires 1000 * a + 100 * b + 10 * c + d < 1000 * e + 100 * f + 10 * g + h
    ensures Less([Digit(a), Digit(b), Digit(c), Digit(d)], [Digit(e), Digit(f), Digit(g), Digit(h)])
  {
    var s, t := [Digit(a), Digit(b), Digit(c), Digit(d)], [Digit(e), Digit(f), Digit(g), Digit(h)];
    assert s[1..] == [Digit(b), Digit(c), Digit(d)] && t[1..] == [Digit(f), Digit(g), Digit(h)];
    assert s[1..][1..] == [Digit(c), Digit(d)] && t[1..][1..] == [Digit(g), Digit(h)];
    assert s[1..][1..][1..] == [Digit(d)] && t[1..][1..][1..] == [Digit(h)];
    assert Less(s[1..][1..][1..], t[1..][1..][1..]) <==> d < h;
    assert Less(s[1..][1..], t[1..][1..]) <==> c < g || (c == g && d < h);
    assert Less(s[1..], t[1..]) <==> b < f || (b == f && (c < g || (c == g && d < h)));
  }

  lemma FiveDigits()
    ensures Pad4(10000) == "10000"
  {
    assert Digits(100) == "100";
    assert Digits(1000) == Digits(100) + "0";
    assert Digits(10000) == Digits(1000) + "0";
  }

  /** The ten thousand and first key breaks the order. */
  lemma PaddedOutOfOrder()
    ensures !Less(Pad4(1001), Pad4(10000))
  {
    FourPlaces(1001);
    FiveDigits();
    var s, t := Pad4(1001), Pad4(10000);
    assert s == "1001";
    assert s[1..] == "001" && t[1..] == "0000";
    assert s[1..][1..] == "01" && t[1..][1..] == "000";
    assert s[1..][1..][1..] == "1" && t[1..][1..][1..] == "00";
  }
}
