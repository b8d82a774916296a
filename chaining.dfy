/**
 The splitter's output fed to the selector: both nodes cut at '\n', so splitting the
 splitter's text gives back its cleaned segments, plus the empty line after the final "\n".
 */
module Chaining {
  import opened PyStr
  import opened Splitter
  import opened Selector

  /** Lines joined by '\n' and closed by one more '\n' split back into those lines and an empty one. */
  lemma {:induction false} SplitClosedJoin(qs: seq<string>)
    requires qs != []
    requires forall k :: 0 <= k < |qs| ==> '\n' !in qs[k]
    ensures Split(Join(qs, "\n") + "\n", "\n") == qs + [""]
    decreases |qs|
  {
    assert '\n' !in qs[0];
    if |qs| == 1 {
      assert Join(qs, "\n") + "\n" == qs[0] + ['\n'] + "";
      SplitAtFirst(qs[0], '\n', "");
      assert Split("", "\n") == [""];
    } else {
      var rest := Join(qs[1..], "\n") + "\n";
      assert Join(qs, "\n") + "\n" == qs[0] + ['\n'] + rest;
      SplitAtFirst(qs[0], '\n', rest);
      SplitClosedJoin(qs[1..]);
      assert [qs[0]] + (qs[1..] + [""]) == qs + [""];
    }
  }

  /**
   When no segment spans several lines, the selector reads the splitter's output as the
   cleaned segments followed by one empty line, so line `k` of it is segment `k` cleaned.
   */
  lemma {:induction false} SelectSplitterOutput(segments: seq<string>, removeLastComma: bool, k: nat)
    requires segments != []
    requires forall i :: 0 <= i < |segments| ==> '\n' !in segments[i]
    ensures Lines(Render(segments, removeLastComma)) == CleanAll(segments, removeLastComma) + [""]
    ensures k < |segments| ==>
      Select(Render(segments, removeLastComma), k) == CleanSegment(segments[k], removeLastComma)
    ensures Select(Render(segments, removeLastComma), |segments|) == ""
  {
    var qs := CleanAll(segments, removeLastComma);
    forall i | 0 <= i < |qs| ensures '\n' !in qs[i] {
      CleanSegmentOneLine(segments[i], removeLastComma);
    }
    RenderIsJoin(segments, removeLastComma);
    SplitClosedJoin(qs);
    var text := Render(segments, removeLastComma);
    assert Lines(text) == qs + [""];
    if k < |segments| {
      SelectEachLine(text, k);
    }
    SelectEachLine(text, |segments|);
  }
}
