/**
 `StringSplitter.execute` (nodes.py:50-59): the text is cut at every occurrence of the
 delimiter; each segment is trimmed, optionally loses the comma at each of its line
 ends, and is emitted followed by "\n"; the number of segments is the second output.
 */
module Splitter {
  import opened Wrappers
  import opened PyStr
  import opened Rewrites
  import opened RewriteLaws

  /** The default of the `delimiter` input (nodes.py:38); `str.split` rejects it. */
  const DefaultDelimiter: string := ""

  /** The node's two outputs: the text and the segment count. */
  datatype Output = Output(text: string, count: nat)

  /** Lines 54-56: one segment after its clean-up. */
  function CleanSegment(segment: string, removeLastComma: bool): string
  {
    var trimmed := TrimLines(segment);
    if removeLastComma then DropEolCommas(trimmed) else trimmed
  }

  /** What the loop of lines 53-57 has built after the segments `done`: each cleaned segment followed by "\n". */
  function Render(done: seq<string>, removeLastComma: bool): string
    decreases |done|
  {
    if done == [] then []
    else Render(done[..|done| - 1], removeLastComma) + CleanSegment(done[|done| - 1], removeLastComma) + "\n"
  }

  /** Every segment, cleaned. */
  function CleanAll(segments: seq<string>, removeLastComma: bool): (r: seq<string>)
    ensures |r| == |segments|
    ensures forall k :: 0 <= k < |r| ==> r[k] == CleanSegment(segments[k], removeLastComma)
  {
    seq(|segments|, k requires 0 <= k < |segments| => CleanSegment(segments[k], removeLastComma))
  }

  /**
   The node itself. An empty delimiter, the declared default, makes `str.split` raise
   `ValueError`; that is the error outcome here.
   */
  method Execute(text: string, delimiter: string, removeLastComma: bool) returns (res: Result<Output>)
    ensures delimiter == [] <==> res.Err?
    ensures delimiter == DefaultDelimiter ==> res == Err(EmptySeparator)
    ensures delimiter != [] ==>
      res == Ok(Output(Render(Split(text, delimiter), removeLastComma), |Split(text, delimiter)|))
    ensures delimiter != [] ==> res.value.count == Occurrences(text, delimiter) + 1
    ensures res.Ok? ==> |res.value.text| > 0 && res.value.text[|res.value.text| - 1] == '\n'
  {
    if delimiter == [] {
      return Err(EmptySeparator);
    }
    var lines := Split(text, delimiter);
    var result := "";
    for i := 0 to |lines|
      invariant result == Render(lines[..i], removeLastComma)
    {
      var str := TrimLines(lines[i]);
      if removeLastComma {
        str := DropEolCommas(str);
      }
      assert lines[..i + 1][..i] == lines[..i];
      result := result + str + "\n";
    }
    assert lines[..|lines|] == lines;
    SplitCount(text, delimiter);
    RenderEndsWithNewline(lines, removeLastComma);
    return Ok(Output(result, |lines|));
  }

  /** The output ends in "\n" whenever there is at least one segment, and holds at least one character per segment. */
  lemma {:induction false} RenderEndsWithNewline(done: seq<string>, removeLastComma: bool)
    requires done != []
    ensures var r := Render(done, removeLastComma); |r| >= |done| && r[|r| - 1] == '\n'
  {
    RenderLength(done, removeLastComma);
  }

  lemma {:induction false} RenderLength(done: seq<string>, removeLastComma: bool)
    ensures |Render(done, removeLastComma)| >= |done|
    decreases |done|
  {
    if done != [] {
      RenderLength(done[..|done| - 1], removeLastComma);
    }
  }

  /** Rendering is a homomorphism: the segments of two batches render one after the other. */
  lemma {:induction false} RenderAppend(a: seq<string>, b: seq<string>, removeLastComma: bool)
    ensures Render(a + b, removeLastComma) == Render(a, removeLastComma) + Render(b, removeLastComma)
    decreases |b|
  {
    if b == [] {
      assert a + b == a;
    } else {
      var b', p := b[..|b| - 1], b[|b| - 1];
      assert b == b' + [p];
      assert a + b == (a + b') + [p];
      RenderSnoc(a + b', p, removeLastComma);
      RenderSnoc(b', p, removeLastComma);
      RenderAppend(a, b', removeLastComma);
      Regroup(Render(a, removeLastComma), Render(b', removeLastComma), CleanSegment(p, removeLastComma), "\n");
    }
  }

  /** Joining in front of one more piece. */
  lemma {:induction false} JoinSnoc(parts: seq<string>, p: string, sep: string)
    requires parts != []
    ensures Join(parts + [p], sep) == Join(parts, sep) + sep + p
    decreases |parts|
  {
    var ps := parts + [p];
    assert ps[0] == parts[0];
    if |parts| == 1 {
      assert ps[1..] == [p];
    } else {
      assert ps[1..] == parts[1..] + [p];
      JoinSnoc(parts[1..], p, sep);
    }
  }

  lemma {:induction false} CleanAllSnoc(done: seq<string>, removeLastComma: bool)
    requires done != []
    ensures CleanAll(done, removeLastComma) ==
      CleanAll(done[..|done| - 1], removeLastComma) + [CleanSegment(done[|done| - 1], removeLastComma)]
  {
    var qs := CleanAll(done, removeLastComma);
    var r := CleanAll(done[..|done| - 1], removeLastComma) + [CleanSegment(done[|done| - 1], removeLastComma)];
    assert |qs| == |r|;
    forall k | 0 <= k < |qs| ensures qs[k] == r[k] {
      if k < |done| - 1 {
        assert done[..|done| - 1][k] == done[k];
      }
    }
  }

  /** The output is the cleaned segments joined by "\n", with one more "\n" at the end. */
  lemma {:induction false} RenderIsJoin(done: seq<string>, removeLastComma: bool)
    requires done != []
    ensures Render(done, removeLastComma) == Join(CleanAll(done, removeLastComma), "\n") + "\n"
    decreases |done|
  {
    var init := done[..|done| - 1];
    var last := CleanSegment(done[|done| - 1], removeLastComma);
    CleanAllSnoc(done, removeLastComma);
    if init != [] {
      RenderIsJoin(init, removeLastComma);
      JoinSnoc(CleanAll(init, removeLastComma), last, "\n");
    } else {
      assert CleanAll(init, removeLastComma) == [];
    }
  }

  /** A segment of one line loses its surrounding spaces, and then at most its final comma. */
  lemma {:induction false} CleanSingleLine(segment: string, removeLastComma: bool)
    requires '\n' !in segment
    ensures CleanSegment(segment, removeLastComma) ==
      if removeLastComma then DropLastComma(StripSpaces(segment)) else StripSpaces(segment)
  {
    TrimSingleLine(segment);
    if removeLastComma {
      StripSpacesInner(segment, ' ', ' ');
      DropEolCommasSingleLine(StripSpaces(segment));
    }
  }

  /** Cleaning a one-line segment leaves it on one line. */
  lemma {:induction false} CleanSegmentOneLine(segment: string, removeLastComma: bool)
    requires '\n' !in segment
    ensures '\n' !in CleanSegment(segment, removeLastComma)
  {
    CleanSingleLine(segment, removeLastComma);
    var t := StripSpaces(segment);
    StripSpacesInner(segment, ' ', ' ');
    assert forall k :: 0 <= k < |DropLastComma(t)| ==> DropLastComma(t)[k] == t[k];
  }

  /** A segment that spans several lines is cleaned line by line. */
  lemma {:induction false} CleanPerLine(a: string, b: string, removeLastComma: bool)
    requires '\n' !in a
    ensures CleanSegment(a + "\n" + b, removeLastComma) ==
      CleanSegment(a, removeLastComma) + "\n" + CleanSegment(b, removeLastComma)
  {
    TrimPerLine(a, b, true);
    if removeLastComma {
      TrimSingleLine(a);
      StripSpacesInner(a, ' ', ' ');
      DropEolCommasPerLine(TrimLines(a), TrimLines(b));
    }
  }

  /** Trimming comes first, so a comma followed by a space is not at the line end yet. */
  lemma {:induction false} ExampleCommaAfterSpace()
    ensures CleanSegment("a ,", true) == "a "
    ensures CleanSegment("\ta\t ", false) == "\ta\t"
  {
    CleanSingleLine("a ,", true);
    StripSpacesIdentity("a ,");
    CleanSingleLine("\ta\t ", false);
  }

  // The trailing-delimiter example, in steps: the split one piece at a time, each piece
  // cleaned, and the rendering one segment at a time. As in the normalizer's examples,
  // texts are written as concatenations and a `...Glue` lemma equates them with literals,
  // which keeps each proof obligation small.

  lemma {:induction false} ExampleSplitLast()
    ensures Split(" c" + [','] + "", [',']) == [" c", ""]
  {
    SplitAtFirst(" c", ',', "");
    assert Split("", [',']) == [""];
  }

  lemma {:induction false} ExampleSplitTail()
    ensures Split(" b" + [','] + (" c" + [','] + ""), [',']) == [" b"] + [" c", ""]
  {
    ExampleSplitLast();
    SplitAtFirst(" b", ',', " c" + [','] + "");
  }

  lemma {:induction false} ExampleSplitPieces()
    ensures Split("a" + [','] + (" b" + [','] + (" c" + [','] + "")), [',']) == ["a"] + ([" b"] + [" c", ""])
  {
    ExampleSplitTail();
    SplitAtFirst("a", ',', " b" + [','] + (" c" + [','] + ""));
  }

  lemma {:induction false} ExampleSplitGlue()
    ensures "a" + [','] + (" b" + [','] + (" c" + [','] + "")) == "a, b, c,"
    ensures ["a"] + ([" b"] + [" c", ""]) == ["a", " b", " c", ""]
  {
  }

  lemma {:induction false} ExampleCleanPieces()
    ensures CleanSegment("a", true) == "a" && CleanSegment(" b", true) == "b"
    ensures CleanSegment(" c", true) == "c" && CleanSegment("", true) == ""
  {
    CleanSingleLine("a", true);
    CleanSingleLine(" b", true);
    CleanSingleLine(" c", true);
    CleanSingleLine("", true);
    assert StripSpaces(" b") == "b";
    assert StripSpaces(" c") == "c";
    StripSpacesIdentity("a");
  }

  /** One more segment renders after the others as itself cleaned, then "\n". */
  lemma {:induction false} RenderSnoc(done: seq<string>, p: string, removeLastComma: bool)
    ensures Render(done + [p], removeLastComma) == Render(done, removeLastComma) + CleanSegment(p, removeLastComma) + "\n"
  {
    var d := done + [p];
    assert d[..|d| - 1] == done && d[|d| - 1] == p;
  }

  lemma {:induction false} ExampleRenderTwo()
    ensures Render([] + ["a"] + [" b"], true) == [] + ("a" + "\n") + ("b" + "\n")
  {
    ExampleCleanPieces();
    RenderSnoc([], "a", true);
    RenderSnoc([] + ["a"], " b", true);
    assert Render([], true) == [];
  }

  lemma {:induction false} ExampleRenderPieces()
    ensures Render([] + ["a"] + [" b"] + [" c"] + [""], true)
         == [] + ("a" + "\n") + ("b" + "\n") + ("c" + "\n") + ("" + "\n")
  {
    ExampleCleanPieces();
    ExampleRenderTwo();
    RenderSnoc([] + ["a"] + [" b"], " c", true);
    RenderSnoc([] + ["a"] + [" b"] + [" c"], "", true);
  }

  lemma {:induction false} ExampleRenderGlue()
    ensures [] + ["a"] + [" b"] + [" c"] + [""] == ["a", " b", " c", ""]
    ensures [] + ("a" + "\n") + ("b" + "\n") + ("c" + "\n") + ("" + "\n") == "a\nb\nc\n\n"
  {
  }

  /** A trailing delimiter leaves an empty last segment, which still gets its "\n" and is counted. */
  lemma {:induction false} ExampleTrailingDelimiter()
    ensures Render(Split("a, b, c,", ","), true) == "a\nb\nc\n\n"
    ensures |Split("a, b, c,", ",")| == 4
  {
    ExampleSplitGlue();
    ExampleSplitPieces();
    ExampleRenderGlue();
    ExampleRenderPieces();
  }
}
