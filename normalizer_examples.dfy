/**
 Worked inputs of `PromptNormalizer.execute`, each derived from the general laws of
 the seven steps rather than by unfolding the scan character by character.

 Each example is proved step by step, one lemma per substitution or per line of the
 input. The intermediate texts are written as concatenations of the pieces the laws
 speak about (`"a," + "\n" + "b,"`), and a separate `...Glue` lemma equates each
 concatenation with its literal. Kept apart like this, every proof obligation stays
 small; asking the verifier to evaluate a scan on a whole literal at once costs far more.
 */
module NormalizerExamples {
  import opened Rewrites
  import opened RewriteLaws
  import opened Normalizer

  lemma JoinLinesStripped()
    ensures StripLineComments("a," + "\n" + "b,") == "a," + "\n" + "b,"
  {
    NoPairAbsent("a,", '/', '/');
    NoPairAbsent("b,", '/', '/');
    StripLineCommentsIdentity("a,");
    StripLineCommentsIdentity("b,");
    StripLineCommentsPerLine("a,", "b,");
  }

  lemma JoinLinesJoined()
    ensures LineBreaksToSpaces("a," + "\n" + "b,") == "a," + " " + "b,"
  {
    LineBreakReplaced("a,", "\n", "b,");
    LineBreaksIdentity("b,");
  }

  lemma JoinLinesGlue()
    ensures "a," + "\n" + "b," == "a,\nb,"
    ensures "a," + " " + "b," == "a, b,"
  {
  }

  lemma {:induction false} JoinLinesCollapsed()
    ensures Collapsed("a,\nb,") == "a, b,"
  {
    JoinLinesGlue();
    JoinLinesStripped();
    JoinLinesJoined();
    JoinLinesKept();
  }

  lemma {:induction false} JoinLinesKept()
    ensures CollapseSpaces(RemoveBlockComments("a, b,")) == "a, b,"
  {
    NoPairAbsent("a, b,", '/', '*');
    BlockCommentsIdentity("a, b,");
    CollapseSpacesIdentity("a, b,");
  }

  /** Two lines ending in commas: the inner comma survives, because lines are joined first. */
  lemma {:induction false} ExampleJoinLines()
    ensures Normalize("a,\nb,", false) == "a, b"
  {
    JoinLinesCollapsed();
    NormalizeFromCollapsed("a,\nb,", "a, b,");
    StripSpacesIdentity("a, b,");
  }

  /** An opener with no closer after it on its line is no match, so this text passes line 23 unchanged. */
  lemma {:induction false} ExampleUnclosedBlock()
    ensures RemoveBlockComments("a " + "/*" + " b") == "a " + "/" + ("*" + " b")
  {
    NoPairAbsent("a ", '/', '*');
    assert CloseOffset(" b").None?;
    BlockCommentUnclosed("a ", " b");
    NoPairAbsent("*" + " b", '/', '*');
    BlockCommentsIdentity("*" + " b");
  }

  lemma {:induction false} UnclosedBlockGlue()
    ensures "a " + "/*" + " b" == "a /* b"
    ensures "a " + "/" + ("*" + " b") == "a /* b"
  {
  }

  // The block-comment example, in four steps.

  lemma {:induction false} BlockExampleMarkers()
    ensures '#' !in "x /*a*/ y /*b*/ z" && '\n' !in "x /*a*/ y /*b*/ z" && '\r' !in "x /*a*/ y /*b*/ z"
    ensures NoPair("x /*a*/ y /*b*/ z", '/', '/')
  {
  }

  lemma {:induction false} BlockExampleLines()
    ensures LineBreaksToSpaces(StripLineComments("x /*a*/ y /*b*/ z")) == "x /*a*/ y /*b*/ z"
  {
    BlockExampleMarkers();
    StripLineCommentsIdentity("x /*a*/ y /*b*/ z");
    LineBreaksIdentity("x /*a*/ y /*b*/ z");
  }

  lemma {:induction false} BlockExampleInner()
    ensures RemoveBlockComments(" y /*b*/ z") == " y  z"
  {
    BlockCommentRemoved(" y ", "b", " z");
    assert " y " + "/*" + "b" + "*/" + " z" == " y /*b*/ z";
    BlockCommentsIdentity(" z");
  }

  lemma {:induction false} BlockExampleRemoved()
    ensures RemoveBlockComments("x " + "/*" + "a" + "*/" + " y /*b*/ z") == "x " + " y  z"
  {
    BlockExampleInner();
    BlockCommentRemoved("x ", "a", " y /*b*/ z");
  }

  lemma {:induction false} BlockExampleGlue()
    ensures "x " + "/*" + "a" + "*/" + " y /*b*/ z" == "x /*a*/ y /*b*/ z"
    ensures "x " + " y  z" == "x  y  z"
  {
  }

  lemma {:induction false} BlockExampleRuns()
    ensures CollapseSpaces("  " + "y") == " " + "y"
    ensures CollapseSpaces("  " + "z") == " " + "z"
  {
    CollapseSpacesIdentity("y");
    CollapseSpacesIdentity("z");
    CollapseSpacesRun("  ", "y");
    CollapseSpacesRun("  ", "z");
  }

  lemma {:induction false} BlockExampleCollapsed()
    ensures CollapseSpaces("x" + ("  " + "y") + ("  " + "z")) == "x" + (" " + "y") + (" " + "z")
  {
    Regroup3("x", "  " + "y", "  " + "z");
    Regroup3("x", " " + "y", " " + "z");
    CollapseSpacesSplit("x", ("  " + "y") + ("  " + "z"));
    CollapseSpacesSplit("  " + "y", "  " + "z");
    CollapseSpacesIdentity("x");
    BlockExampleRuns();
  }

  lemma {:induction false} BlockExampleSpaced()
    ensures "x" + ("  " + "y") + ("  " + "z") == "x  y  z"
    ensures "x" + (" " + "y") + (" " + "z") == "x y z"
  {
  }

  /** Each `/* ... */` goes, and the spaces left on both sides of it merge into one. */
  lemma {:induction false} ExampleBlockComments()
    ensures Normalize("x /*a*/ y /*b*/ z", false) == "x y z"
  {
    BlockExampleLines();
    BlockExampleRemoved();
    BlockExampleGlue();
    BlockExampleSpaced();
    BlockExampleCollapsed();
    NormalizeFromCollapsed("x /*a*/ y /*b*/ z", "x y z");
    StripSpacesIdentity("x y z");
  }

  // A `#` comment line between two prompt lines, in four steps.

  lemma {:induction false} CommentLineKept(s: string)
    requires s == "a, " || s == " b," || s == "c"
    ensures StripLineComments(s) == s
  {
    NoPairAbsent(s, '/', '/');
    StripLineCommentsIdentity(s);
  }

  lemma {:induction false} CommentLineTail()
    ensures StripLineComments("# comment" + "\n" + "c") == "" + "\n" + "c"
  {
    StripLineCommentsPerLine("# comment", "c");
    StripLineCommentsWholeLine("# comment");
    CommentLineKept("c");
  }

  lemma {:induction false} CommentLineMiddle()
    ensures StripLineComments(" b," + "\n" + ("# comment" + "\n" + "c")) == " b," + "\n" + ("" + "\n" + "c")
  {
    StripLineCommentsPerLine(" b,", "# comment" + "\n" + "c");
    CommentLineTail();
    CommentLineKept(" b,");
  }

  lemma {:induction false} CommentLineStripped()
    ensures StripLineComments("a, " + "\n" + (" b," + "\n" + ("# comment" + "\n" + "c")))
         == "a, " + "\n" + (" b," + "\n" + ("" + "\n" + "c"))
  {
    StripLineCommentsPerLine("a, ", " b," + "\n" + ("# comment" + "\n" + "c"));
    CommentLineMiddle();
    CommentLineKept("a, ");
  }

  lemma {:induction false} CommentLineJoined()
    ensures LineBreaksToSpaces("a, " + "\n" + (" b," + "\n" + ("" + "\n" + "c")))
         == "a, " + " " + (" b," + " " + ("" + " " + "c"))
  {
    LineBreakReplaced("", "\n", "c");
    LineBreaksIdentity("c");
    LineBreakReplaced(" b,", "\n", "" + "\n" + "c");
    LineBreakReplaced("a, ", "\n", " b," + "\n" + ("" + "\n" + "c"));
  }

  lemma {:induction false} CommentLineRuns()
    ensures CollapseSpaces("   " + "b,") == " " + "b,"
    ensures CollapseSpaces("  " + "c") == " " + "c"
  {
    NoPairAbsent("b,", ' ', ' ');
    CollapseSpacesIdentity("b,");
    CollapseSpacesIdentity("c");
    CollapseSpacesRun("   ", "b,");
    CollapseSpacesRun("  ", "c");
  }

  lemma {:induction false} CommentLineCollapsed()
    ensures CollapseSpaces("a," + ("   " + "b,") + ("  " + "c")) == "a," + (" " + "b,") + (" " + "c")
  {
    Regroup3("a,", "   " + "b,", "  " + "c");
    Regroup3("a,", " " + "b,", " " + "c");
    CollapseSpacesSplit("a,", ("   " + "b,") + ("  " + "c"));
    CollapseSpacesSplit("   " + "b,", "  " + "c");
    NoPairAbsent("a,", ' ', ' ');
    CollapseSpacesIdentity("a,");
    CommentLineRuns();
  }

  lemma {:induction false} CommentLineGlue()
    ensures "a, " + "\n" + (" b," + "\n" + ("# comment" + "\n" + "c")) == "a, \n b,\n# comment\nc"
    ensures "a, " + " " + (" b," + " " + ("" + " " + "c")) == "a," + ("   " + "b,") + ("  " + "c")
    ensures "a," + (" " + "b,") + (" " + "c") == "a, b, c"
  {
  }

  lemma {:induction false} CommentLineBlocks()
    ensures RemoveBlockComments("a," + ("   " + "b,") + ("  " + "c")) == "a," + ("   " + "b,") + ("  " + "c")
  {
    var t := "a," + ("   " + "b,") + ("  " + "c");
    assert '/' !in t;
    NoPairAbsent(t, '/', '*');
    BlockCommentsIdentity(t);
  }

  /**
   The comment line disappears but the commas at the ends of the other lines stay:
   by the time `,$` runs, the lines have been joined and only the last one is at an end.
   */
  lemma {:induction false} ExampleCommentLine()
    ensures Normalize("a, \n b,\n# comment\nc", false) == "a, b, c"
  {
    CommentLineGlue();
    CommentLineStripped();
    CommentLineJoined();
    CommentLineBlocks();
    CommentLineCollapsed();
    NormalizeFromCollapsed("a, \n b,\n# comment\nc", "a, b, c");
    StripSpacesIdentity("a, b, c");
  }

  lemma {:induction false} CarriageReturnStripped()
    ensures StripLineComments("a #c\rb") == "a "
  {
    var s := "a #c\rb";
    StripLineCommentsLine(s);
    assert MarkerIndex(s) == 2 by {
      assert CommentStart(s[2..]);
      assert !CommentStart(s[0..]) && !CommentStart(s[1..]);
    }
  }

  /** `.` matches a lone '\r', so a `#` comment runs over a CR line break and eats the next line. */
  lemma {:induction false} ExampleCarriageReturnInComment()
    ensures Normalize("a #c\rb", false) == "a"
  {
    CarriageReturnStripped();
    NoPairAbsent("a ", '/', '/');
    NoPairAbsent("a ", '/', '*');
    CollapsedIdentity("a ");
    NormalizeFromCollapsed("a #c\rb", "a ");
    StripSpacesOneTrailing("a");
    assert "a" + " " == "a ";
  }

  lemma {:induction false} TrailingCommaDropped()
    ensures Normalize("a ,", false) == "a "
  {
    NoPairAbsent("a ,", '/', '/');
    NoPairAbsent("a ,", '/', '*');
    CollapsedIdentity("a ,");
    NormalizeFromCollapsed("a ,", "a ,");
    StripSpacesIdentity("a ,");
  }

  lemma {:induction false} TrailingSpaceStripped()
    ensures Normalize("a ", false) == "a"
  {
    NoPairAbsent("a ", '/', '/');
    NoPairAbsent("a ", '/', '*');
    CollapsedIdentity("a ");
    NormalizeFromCollapsed("a ", "a ");
    StripSpacesOneTrailing("a");
    assert "a" + " " == "a ";
  }

  /** The node is not idempotent: dropping the final comma can expose a trailing space. */
  lemma {:induction false} ExampleNotIdempotent()
    ensures Normalize("a ,", false) == "a "
    ensures Normalize(Normalize("a ,", false), false) == "a"
  {
    TrailingCommaDropped();
    TrailingSpaceStripped();
  }

  lemma {:induction false} InnerCommaRemoved()
    ensures Without("a , b", ',') == "a  b"
  {
    WithoutAppend("a ", ", b", ',');
    assert "a " + ", b" == "a , b";
  }

  /** With `remove_comma`, commas go last, so the spaces around an inner comma are not merged. */
  lemma {:induction false} ExampleRemoveCommaInner()
    ensures Normalize("a , b", true) == "a  b"
  {
    NoPairAbsent("a , b", '/', '/');
    NoPairAbsent("a , b", '/', '*');
    CollapsedIdentity("a , b");
    NormalizeFromCollapsed("a , b", "a , b");
    StripSpacesIdentity("a , b");
    InnerCommaRemoved();
  }
}
