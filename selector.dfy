/**
 `StringSelector.execute` (nodes.py:75-84): the text is split on '\n' and the line at
 `line_num` modulo the number of lines is returned. `line_num` is declared with a
 minimum of 0 (nodes.py:67), hence a `nat`.
 */
module Selector {
  import opened PyStr

  /** Lines 76-80: `string.split('\n')`. */
  function Lines(text: string): seq<string>
  {
    Split(text, "\n")
  }

  /** Lines 76-84. The branch for zero lines keeps the text, as the source does. */
  function Select(text: string, lineNum: nat): string
  {
    var lines := Lines(text);
    if |lines| == 0 then text else lines[lineNum % |lines|]
  }

  /** A one-character separator occurs exactly where that character stands. */
  lemma {:induction false} OccursAtChar(s: string, c: char, j: int)
    ensures OccursAt(s, [c], j) <==> 0 <= j < |s| && s[j] == c
  {
    if 0 <= j < |s| {
      assert s[j..j + 1] == [s[j]];
    }
  }

  /**
   Splitting never yields zero lines, so the `len(lines) == 0` branch is dead; there is
   one line more than there are '\n' characters, and the selected one is at `line_num mod` that count.
   */
  lemma {:induction false} SelectPicksLine(text: string, lineNum: nat)
    ensures |Lines(text)| >= 1
    ensures |Lines(text)| == Occurrences(text, "\n") + 1
    ensures Select(text, lineNum) == Lines(text)[lineNum % |Lines(text)|]
  {
    SplitCount(text, "\n");
  }

  /** The lines joined back with '\n' give the text, so the selected line is a piece of it. */
  lemma {:induction false} LinesJoin(text: string)
    ensures Join(Lines(text), "\n") == text
  {
    JoinSplit(text, "\n");
  }

  /** The result never contains a '\n', and all its characters come from the text. */
  lemma {:induction false} SelectNoNewline(text: string, lineNum: nat)
    ensures '\n' !in Select(text, lineNum)
    ensures forall c :: c in Select(text, lineNum) ==> c in text
  {
    var lines := Lines(text);
    var r := Select(text, lineNum);
    var k := lineNum % |lines|;
    SplitPiecesFree(text, "\n");
    SplitChars(text, "\n");
    if '\n' in r {
      var j :| 0 <= j < |r| && r[j] == '\n';
      OccursAtChar(r, '\n', j);
    }
  }

  /** Every line can be selected: the index below the line count picks that very line. */
  lemma {:induction false} SelectEachLine(text: string, k: nat)
    requires k < |Lines(text)|
    ensures Select(text, k) == Lines(text)[k]
  {
    ModUnique(k, |Lines(text)|, 0, k);
  }

  /** Euclidean division is unique. */
  lemma {:induction false} ModUnique(a: int, m: int, q: int, r: int)
    requires m > 0 && a == q * m + r && 0 <= r < m
    ensures a % m == r
  {
    var q', r' := a / m, a % m;
    assert a == q' * m + r';
    var d := q - q';
    assert d * m == r' - r;
    assert d >= 1 ==> d * m == (d - 1) * m + m && (d - 1) * m >= 0;
    assert d <= -1 ==> d * m == (d + 1) * m - m && (d + 1) * m <= 0;
  }
  lemma {:induction false} ModStep(n: nat, m: nat)
    requires m > 0
    ensures (n + m) % m == n % m
  {
    var q := n / m;
    assert n == q * m + n % m;
    assert n + m == (q + 1) * m + n % m;
    ModUnique(n + m, m, q + 1, n % m);
  }
  lemma {:induction false} ModPeriodic(n: nat, k: nat, m: nat)
    requires m > 0
    ensures (n + k * m) % m == n % m
    decreases k
  {
    if k > 0 {
      var x := n + (k - 1) * m;
      assert n + k * m == x + m;
      ModPeriodic(n, k - 1, m);
      ModStep(x, m);
    }
  }

  /** Selection is periodic in `line_num`, with the number of lines as its period. */
  lemma {:induction false} SelectPeriodic(text: string, lineNum: nat, k: nat)
    ensures Select(text, lineNum + k * |Lines(text)|) == Select(text, lineNum)
  {
    ModPeriodic(lineNum, k, |Lines(text)|);
  }

  /** Text with no '\n' is returned unchanged for every `line_num`, and only such text has a single line. */
  lemma {:induction false} SelectSingleLine(text: string, lineNum: nat)
    ensures '\n' !in text <==> Lines(text) == [text]
    ensures '\n' !in text ==> Select(text, lineNum) == text
  {
    SplitWhole(text, "\n");
    if '\n' in text {
      var j :| 0 <= j < |text| && text[j] == '\n';
      OccursAtChar(text, '\n', j);
    } else {
      forall j ensures !OccursAt(text, "\n", j) {
        OccursAtChar(text, '\n', j);
        if 0 <= j < |text| {
          assert text[j] in text;
        }
      }
    }
  }

  /** A carriage return is not a line separator: CRLF text splits at the LF only. */
  lemma {:induction false} ExampleCarriageReturn()
    ensures Select("a\rb", 7) == "a\rb"
    ensures Lines("a\r" + "\n" + "b") == ["a\r", "b"]
  {
    SelectSingleLine("a\rb", 7);
    SplitAtFirst("a\r", '\n', "b");
    SelectSingleLine("b", 0);
  }

  // The wrap-around example, in steps: the split one line at a time, over the text
  // written as a concatenation, which keeps each proof obligation small.

  lemma {:induction false} ExampleLinesTail()
    ensures Lines("line1" + "\n" + "line2") == ["line1"] + ["line2"]
  {
    SplitAtFirst("line1", '\n', "line2");
    SelectSingleLine("line2", 0);
  }

  lemma {:induction false} ExampleLines()
    ensures Lines("line0" + "\n" + ("line1" + "\n" + "line2")) == ["line0"] + (["line1"] + ["line2"])
  {
    ExampleLinesTail();
    SplitAtFirst("line0", '\n', "line1" + "\n" + "line2");
  }

  /** Index 5 of three lines wraps round to the last one. */
  lemma {:induction false} ExampleWrapAround()
    ensures Select("line0" + "\n" + ("line1" + "\n" + "line2"), 5) == "line2"
  {
    ExampleLines();
    assert ["line0"] + (["line1"] + ["line2"]) == ["line0", "line1", "line2"];
  }
}
