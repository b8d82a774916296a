/**
 What each substitution of Rewrites removes, stated against reference definitions:
 per line (every substitution acts on the lines of its input one by one), on a single
 line, and as the identity on text that offers no match.
 */
module RewriteLaws {
  import opened Wrappers
  import opened Rewrites

  /** Concatenation regrouped. */
  lemma Regroup(w: string, x: string, y: string, z: string)
    ensures w + (x + y + z) == w + x + y + z
  {
  }

  lemma Regroup3(x: string, y: string, z: string)
    ensures x + (y + z) == x + y + z
  {
  }

  // ---------------------------------------------------------------------------
  // Step 1: line comments

  lemma {:induction false} StripLineCommentsHead(s: string)
    ensures StripLineComments(s) != [] ==>
      s != [] && (StripLineComments(s)[0] == s[0] || StripLineComments(s)[0] == '\n')
    decreases |s|
  {
    if s != [] && CommentStart(s) {
      StripLineCommentsHead(SkipToEol(s));
    }
  }

  /** No `//` survives the line-comment step. */
  lemma {:induction false} StripLineCommentsNoDoubleSlash(s: string)
    ensures NoPair(StripLineComments(s), '/', '/')
    decreases |s|
  {
    if s == [] {
    } else if CommentStart(s) {
      StripLineCommentsNoDoubleSlash(SkipToEol(s));
    } else {
      var t := StripLineComments(s[1..]);
      StripLineCommentsNoDoubleSlash(s[1..]);
      StripLineCommentsHead(s[1..]);
      NoPairCons(s[0], t, '/', '/');
    }
  }

  /** On a single line, the line-comment step keeps exactly what stands before the first marker. */
  lemma {:induction false} StripLineCommentsLine(s: string)
    requires '\n' !in s
    ensures StripLineComments(s) == s[..MarkerIndex(s)]
    decreases |s|
  {
    if s == [] {
    } else if CommentStart(s) {
      SkipToEolLine(s);
    } else {
      StripLineCommentsLine(s[1..]);
      assert s[..MarkerIndex(s)] == [s[0]] + s[1..][..MarkerIndex(s[1..])];
    }
  }

  /** On the last line, a comment runs to the end of the text. */
  lemma {:induction false} SkipToEolLine(s: string)
    requires '\n' !in s
    ensures SkipToEol(s) == []
    decreases |s|
  {
    if s != [] {
      assert s[0] in s;
      assert forall x :: x in s[1..] ==> x in s;
      SkipToEolLine(s[1..]);
    }
  }

  /** A line that starts with a comment marker is removed whole. */
  lemma {:induction false} StripLineCommentsWholeLine(s: string)
    requires '\n' !in s && CommentStart(s)
    ensures StripLineComments(s) == []
  {
    SkipToEolLine(s);
  }

  lemma {:induction false} SkipToEolPast(a: string, b: string)
    requires '\n' !in a
    ensures SkipToEol(a + "\n" + b) == "\n" + b
    decreases |a|
  {
    if a == [] {
      assert a + "\n" + b == "\n" + b;
    } else {
      assert (a + "\n" + b)[1..] == a[1..] + "\n" + b;
      SkipToEolPast(a[1..], b);
    }
  }

  /** A '\n' is kept, and the scan goes on after it. */
  lemma StripLineCommentsNewline(b: string)
    ensures StripLineComments("\n" + b) == "\n" + StripLineComments(b)
  {
    var nb := "\n" + b;
    assert !CommentStart(nb) && nb[1..] == b;
  }

  /** A comment that starts a line removes the rest of that line. */
  lemma StripLineCommentsAtMarker(a: string, b: string)
    requires '\n' !in a && CommentStart(a)
    ensures StripLineComments(a) == []
    ensures StripLineComments(a + "\n" + b) == "\n" + StripLineComments(b)
  {
    var s := a + "\n" + b;
    SkipToEolLine(a);
    assert s[0] == a[0] && (|a| > 1 ==> s[1] == a[1]);
    assert CommentStart(s);
    SkipToEolPast(a, b);
    StripLineCommentsNewline(b);
  }

  /** A character that starts no comment is kept by the line-comment scan. */
  lemma StripLineCommentsKeepHead(s: string)
    requires s != [] && !CommentStart(s)
    ensures StripLineComments(s) == [s[0]] + StripLineComments(s[1..])
  {
  }

  /** A character that starts no comment is kept, and the scan goes on after it. */
  lemma StripLineCommentsKeep(a: string, b: string)
    requires '\n' !in a && a != [] && !CommentStart(a)
    requires StripLineComments(a[1..] + "\n" + b) == StripLineComments(a[1..]) + "\n" + StripLineComments(b)
    ensures StripLineComments(a + "\n" + b) == StripLineComments(a) + "\n" + StripLineComments(b)
  {
    var s := a + "\n" + b;
    assert s[1..] == a[1..] + "\n" + b;
    assert !CommentStart(s) by {
      assert s[0] == a[0] && s[1] == (if |a| > 1 then a[1] else '\n');
    }
    StripLineCommentsKeepHead(s);
    StripLineCommentsKeepHead(a);
    Regroup([a[0]], StripLineComments(a[1..]), "\n", StripLineComments(b));
  }

  /** The line-comment step treats each line on its own and keeps every '\n'. */
  lemma {:induction false} StripLineCommentsPerLine(a: string, b: string)
    requires '\n' !in a
    ensures StripLineComments(a + "\n" + b) == StripLineComments(a) + "\n" + StripLineComments(b)
    decreases |a|
  {
    if a == [] {
      assert a + "\n" + b == "\n" + b;
      StripLineCommentsNewline(b);
    } else if CommentStart(a) {
      StripLineCommentsAtMarker(a, b);
    } else {
      assert forall x :: x in a[1..] ==> x in a;
      StripLineCommentsPerLine(a[1..], b);
      StripLineCommentsKeep(a, b);
    }
  }

  /** Text without comment markers passes the line-comment step unchanged. */
  lemma {:induction false} StripLineCommentsIdentity(s: string)
    requires '#' !in s && NoPair(s, '/', '/')
    ensures StripLineComments(s) == s
    decreases |s|
  {
    if s != [] {
      assert !PairAt(s, 0, '/', '/');
      NoPairSlice(s, 1, |s|, '/', '/');
      StripLineCommentsIdentity(s[1..]);
    }
  }

  // ---------------------------------------------------------------------------
  // Step 2: line terminators

  /** Text without line terminators passes step 2 unchanged. */
  lemma {:induction false} LineBreaksIdentity(s: string)
    requires '\n' !in s && '\r' !in s
    ensures LineBreaksToSpaces(s) == s
    decreases |s|
  {
    if s != [] {
      LineBreaksIdentity(s[1..]);
    }
  }

  /**
   Each terminator, CRLF, LF or CR, becomes one space; a CR counts alone only when
   no LF follows it.
   */
  lemma {:induction false} LineBreakReplaced(a: string, t: string, b: string)
    requires '\n' !in a && '\r' !in a
    requires t == "\r\n" || t == "\n" || t == "\r"
    requires t == "\r" ==> b == [] || b[0] != '\n'
    ensures LineBreaksToSpaces(a + t + b) == a + " " + LineBreaksToSpaces(b)
    decreases |a|
  {
    var s := a + t + b;
    if a == [] {
      assert s == t + b;
      LineBreakAtHead(t, b);
    } else {
      var u := a[1..];
      assert s[0] == a[0];
      LineBreaksKeepHead(s);
      assert s[1..] == u + t + b;
      LineBreakReplaced(u, t, b);
      assert a == [a[0]] + u;
      Regroup([a[0]], u, " ", LineBreaksToSpaces(b));
    }
  }

  /** A terminator at the head becomes one space. */
  lemma {:induction false} LineBreakAtHead(t: string, b: string)
    requires t == "\r\n" || t == "\n" || t == "\r"
    requires t == "\r" ==> b == [] || b[0] != '\n'
    ensures LineBreaksToSpaces(t + b) == " " + LineBreaksToSpaces(b)
  {
    var s := t + b;
    assert s[|t|..] == b;
  }

  /** A character that is no terminator is kept by step 2. */
  lemma LineBreaksKeepHead(s: string)
    requires s != [] && s[0] != '\n' && s[0] != '\r'
    ensures LineBreaksToSpaces(s) == [s[0]] + LineBreaksToSpaces(s[1..])
  {
  }

  // ---------------------------------------------------------------------------
  // Step 3: block comments

  /** Text with no opener passes step 3 unchanged. */
  lemma {:induction false} BlockCommentsIdentity(s: string)
    requires NoPair(s, '/', '*')
    ensures RemoveBlockComments(s) == s
    decreases |s|
  {
    if s != [] {
      assert !PairAt(s, 0, '/', '*');
      NoPairSlice(s, 1, |s|, '/', '*');
      BlockCommentsIdentity(s[1..]);
    }
  }

  /** The first closer after an opener ends the match, when no '\n' lies between them. */
  lemma {:induction false} CloseOffsetFirst(c: string, b: string)
    requires '\n' !in c && NoPair(c, '*', '/')
    ensures CloseOffset(c + "*/" + b) == Some(|c|)
  {
    var t := c + "*/" + b;
    assert CloserAt(t, |c|);
    assert t[..|c|] == c;
    forall j | 0 <= j < |c| ensures !CloserAt(t, j) {
      assert t[j] == c[j];
      if j + 1 < |c| {
        assert t[j + 1] == c[j + 1];
        assert !PairAt(c, j, '*', '/');
      } else {
        assert t[j + 1] == '*';
      }
    }
  }

  /**
   Removal is leftmost and shortest: the first opener is removed together with the
   first closer after it (on the same line), and the scan goes on after that closer.
   */
  lemma {:induction false} BlockCommentRemoved(a: string, c: string, b: string)
    requires NoPair(a, '/', '*') && '\n' !in c && NoPair(c, '*', '/')
    ensures RemoveBlockComments(a + "/*" + c + "*/" + b) == a + RemoveBlockComments(b)
    decreases |a|
  {
    var s := a + "/*" + c + "*/" + b;
    if a == [] {
      assert s == "/*" + (c + "*/" + b);
      BlockCommentAtHead(c, b);
    } else {
      var t := a[1..];
      assert !PairAt(s, 0, '/', '*') by {
        assert s[0] == a[0] && s[1] == (if |a| > 1 then a[1] else '/');
        assert !PairAt(a, 0, '/', '*');
      }
      RemoveBlockCommentsKeepHead(s);
      assert s[1..] == t + "/*" + c + "*/" + b;
      NoPairSlice(a, 1, |a|, '/', '*');
      BlockCommentRemoved(t, c, b);
      assert a == [a[0]] + t;
      Regroup3([a[0]], t, RemoveBlockComments(b));
    }
  }

  /**
   An opener with no closer after it on its line is no match: its slash is kept and the
   scan goes on from the star.
   */
  lemma {:induction false} BlockCommentUnclosed(a: string, c: string)
    requires NoPair(a, '/', '*') && CloseOffset(c).None?
    ensures RemoveBlockComments(a + "/*" + c) == a + "/" + RemoveBlockComments("*" + c)
    decreases |a|
  {
    var s := a + "/*" + c;
    if a == [] {
      assert s == "/*" + c;
      BlockCommentUnclosedAtHead(c);
    } else {
      var t := a[1..];
      assert !PairAt(s, 0, '/', '*') by {
        assert s[0] == a[0] && s[1] == (if |a| > 1 then a[1] else '/');
        assert !PairAt(a, 0, '/', '*');
      }
      RemoveBlockCommentsKeepHead(s);
      assert s[1..] == t + "/*" + c;
      NoPairSlice(a, 1, |a|, '/', '*');
      BlockCommentUnclosed(t, c);
      assert a == [a[0]] + t;
      Regroup([a[0]], t, "/", RemoveBlockComments("*" + c));
    }
  }

  /** An opener at the head with no closer on its line keeps its slash. */
  lemma {:induction false} BlockCommentUnclosedAtHead(c: string)
    requires CloseOffset(c).None?
    ensures RemoveBlockComments("/*" + c) == "/" + RemoveBlockComments("*" + c)
  {
    var s := "/*" + c;
    assert PairAt(s, 0, '/', '*');
    assert s[2..] == c && s[1..] == "*" + c;
  }

  /** An opener at the head, with its closer on the same line, goes together with the closer. */
  lemma {:induction false} BlockCommentAtHead(c: string, b: string)
    requires '\n' !in c && NoPair(c, '*', '/')
    ensures RemoveBlockComments("/*" + (c + "*/" + b)) == RemoveBlockComments(b)
  {
    var s := "/*" + (c + "*/" + b);
    assert PairAt(s, 0, '/', '*');
    assert s[2..] == c + "*/" + b;
    CloseOffsetFirst(c, b);
    assert s[|c| + 4..] == b;
  }

  /** A character that starts no opener is kept by the block-comment scan. */
  lemma RemoveBlockCommentsKeepHead(s: string)
    requires s != [] && !PairAt(s, 0, '/', '*')
    ensures RemoveBlockComments(s) == [s[0]] + RemoveBlockComments(s[1..])
  {
  }

  // ---------------------------------------------------------------------------
  // Step 4: runs of spaces

  lemma {:induction false} WithoutSkipSpaces(s: string)
    ensures Without(SkipSpaces(s), ' ') == Without(s, ' ')
    decreases |s|
  {
    if s != [] && s[0] == ' ' {
      WithoutSkipSpaces(s[1..]);
      assert SkipSpaces(s) == SkipSpaces(s[1..]);
    }
  }

  /** Collapsing only removes spaces: every other character is kept, in order. */
  lemma {:induction false} CollapseSpacesKeepsOthers(s: string)
    ensures Without(CollapseSpaces(s), ' ') == Without(s, ' ')
    decreases |s|
  {
    if s == [] {
    } else if PairAt(s, 0, ' ', ' ') {
      var rest := s[LeadingSpaces(s)..];
      CollapseSpacesKeepsOthers(rest);
      WithoutSkipSpaces(s);
      var t := CollapseSpaces(rest);
      assert (" " + t)[0] == ' ' && (" " + t)[1..] == t;
    } else {
      CollapseSpacesKeepsOthers(s[1..]);
      var t := CollapseSpaces(s[1..]);
      assert ([s[0]] + t)[0] == s[0] && ([s[0]] + t)[1..] == t;
    }
  }

  /** Text without two adjacent spaces passes step 4 unchanged. */
  lemma {:induction false} CollapseSpacesIdentity(s: string)
    requires NoDoubleSpace(s)
    ensures CollapseSpaces(s) == s
    decreases |s|
  {
    if s != [] {
      assert !PairAt(s, 0, ' ', ' ');
      NoPairSlice(s, 1, |s|, ' ', ' ');
      CollapseSpacesIdentity(s[1..]);
    }
  }

  /** One step of the collapse at a run of two or more spaces. */
  lemma CollapseSpacesAtRun(s: string)
    requires PairAt(s, 0, ' ', ' ')
    ensures CollapseSpaces(s) == " " + CollapseSpaces(s[LeadingSpaces(s)..])
  {
  }

  /** Where `a + b` starts with a run of spaces, the run is the one that starts `a`. */
  lemma CollapseSpacesRunAppend(a: string, b: string)
    requires a != [] && (b == [] || a[|a| - 1] != ' ' || b[0] != ' ')
    requires PairAt(a + b, 0, ' ', ' ')
    ensures PairAt(a, 0, ' ', ' ')
    ensures CollapseSpaces(a + b) == " " + CollapseSpaces(a[LeadingSpaces(a)..] + b)
  {
    var s := a + b;
    var n := LeadingSpaces(a);
    LeadingSpacesAppend(a, b);
    assert |a| >= 2 by {
      assert s[|a| - 1] == a[|a| - 1];
      assert b != [] ==> s[|a|] == b[0];
    }
    assert s[0] == a[0] && s[1] == a[1];
    assert s[n..] == a[n..] + b;
    CollapseSpacesAtRun(s);
  }

  /** So a split after a leading run reduces to a split of what follows the run. */
  lemma {:induction false} CollapseSpacesSplitRun(a: string, b: string)
    requires a != [] && (b == [] || a[|a| - 1] != ' ' || b[0] != ' ')
    requires PairAt(a + b, 0, ' ', ' ')
    requires var n := LeadingSpaces(a);
      CollapseSpaces(a[n..] + b) == CollapseSpaces(a[n..]) + CollapseSpaces(b)
    ensures CollapseSpaces(a + b) == CollapseSpaces(a) + CollapseSpaces(b)
  {
    var n := LeadingSpaces(a);
    CollapseSpacesRunAppend(a, b);
    CollapseSpacesAtRun(a);
    Regroup3(" ", CollapseSpaces(a[n..]), CollapseSpaces(b));
  }

  /**
   Collapsing works run by run: text may be cut anywhere that does not fall inside a
   run of spaces, and each part collapsed on its own.
   */
  lemma {:induction false} CollapseSpacesSplit(a: string, b: string)
    requires a == [] || b == [] || a[|a| - 1] != ' ' || b[0] != ' '
    ensures CollapseSpaces(a + b) == CollapseSpaces(a) + CollapseSpaces(b)
    decreases |a|
  {
    var s := a + b;
    if a == [] {
      assert s == b;
    } else if PairAt(s, 0, ' ', ' ') {
      var n := LeadingSpaces(a);
      assert n > 0;
      CollapseSpacesSplit(a[n..], b);
      CollapseSpacesSplitRun(a, b);
    } else {
      assert |a| >= 2 ==> !PairAt(a, 0, ' ', ' ');
      assert s[1..] == a[1..] + b;
      CollapseSpacesSplit(a[1..], b);
      if |a| == 1 {
        assert a[1..] == [];
      }
    }
  }

  /** A run of spaces, however long, collapses to one space. */
  lemma CollapseSpacesRun(a: string, b: string)
    requires a != [] && (forall k :: 0 <= k < |a| ==> a[k] == ' ')
    requires b == [] || b[0] != ' '
    ensures CollapseSpaces(a + b) == " " + CollapseSpaces(b)
  {
    var s := a + b;
    if |a| == 1 {
      assert s[1..] == b;
    } else {
      assert PairAt(s, 0, ' ', ' ');
      assert forall k :: 0 <= k < |a| ==> s[k] == a[k];
      LeadingSpacesUnique(s, |a|);
      assert s[|a|..] == b;
    }
  }

  // ---------------------------------------------------------------------------
  // Step 5 and line 54: leading and trailing spaces of each line

  /** The three facts about the leading run of spaces determine its length. */
  lemma {:induction false} LeadingSpacesUnique(s: string, n: nat)
    requires n <= |s| && (forall k :: 0 <= k < n ==> s[k] == ' ') && (n < |s| ==> s[n] != ' ')
    ensures LeadingSpaces(s) == n
  {
  }

  /** The three facts about the trailing run of spaces determine where it begins. */
  lemma {:induction false} TrailingStartUnique(s: string, n: nat)
    requires n <= |s| && (forall k :: n <= k < |s| ==> s[k] == ' ') && (n > 0 ==> s[n - 1] != ' ')
    ensures TrailingStart(s) == n
  {
  }

  /** `rstrip` of a line that starts with a run of spaces followed by more. */
  lemma {:induction false} TrailingStartAfterRun(t: string, n: nat)
    requires 0 < n < |t| && t[n] != ' ' && forall k :: 0 <= k < n ==> t[k] == ' '
    ensures TrailingStart(t) == n + TrailingStart(t[n..])
    ensures DropTrailingSpaces(t) == t[..n] + DropTrailingSpaces(t[n..])
  {
    var u := t[n..];
    var m := TrailingStart(u);
    assert u[0] == t[n];
    forall k | n + m <= k < |t| ensures t[k] == ' ' {
      assert t[k] == u[k - n];
    }
    assert t[n + m - 1] == u[m - 1];
    TrailingStartUnique(t, n + m);
    assert t[..n] + u[..m] == t[..n + m];
  }

  /** `rstrip` of a line that starts with a character other than a space. */
  lemma {:induction false} TrailingStartAfterHead(t: string)
    requires t != [] && t[0] != ' '
    ensures TrailingStart(t) == 1 + TrailingStart(t[1..])
    ensures DropTrailingSpaces(t) == [t[0]] + DropTrailingSpaces(t[1..])
  {
    var u := t[1..];
    var m := TrailingStart(u);
    forall k | 1 + m <= k < |t| ensures t[k] == ' ' {
      assert t[k] == u[k - 1];
    }
    assert m > 0 ==> t[m] == u[m - 1];
    TrailingStartUnique(t, 1 + m);
    assert [t[0]] + u[..m] == t[..1 + m];
  }

  /** Away from line starts, on a single line, the trim keeps all but the trailing spaces. */
  lemma {:induction false} TrimFromMidLine(t: string)
    requires '\n' !in t
    ensures TrimFrom(t, false) == DropTrailingSpaces(t)
    decreases |t|
  {
    if t == [] {
    } else if t[0] == ' ' {
      var n := LeadingSpaces(t);
      if n == |t| {
        TrailingStartUnique(t, 0);
      } else {
        assert t[n] in t;
        TrimFromMidLine(t[n..]);
        TrailingStartAfterRun(t, n);
      }
    } else {
      TrimFromMidLine(t[1..]);
      TrailingStartAfterHead(t);
    }
  }

  /** On a single line, the trim is `str.strip(' ')`. */
  lemma {:induction false} TrimSingleLine(s: string)
    requires '\n' !in s
    ensures TrimLines(s) == StripSpaces(s)
  {
    if s != [] && s[0] == ' ' {
      TrimFromMidLine(SkipSpaces(s));
    } else {
      TrimFromMidLine(s);
      assert SkipSpaces(s) == s;
    }
  }

  /** `str.strip(' ')` removes the leading and trailing spaces and nothing else. */
  lemma {:induction false} StripSpacesInfix(s: string)
    ensures var lo, r := LeadingSpaces(s), StripSpaces(s);
      && lo + |r| <= |s| && r == s[lo..lo + |r|]
      && (forall k :: 0 <= k < lo ==> s[k] == ' ')
      && (forall k :: lo + |r| <= k < |s| ==> s[k] == ' ')
  {
    var lo := LeadingSpaces(s);
    var u := s[lo..];
    var r := StripSpaces(s);
    assert r == u[..TrailingStart(u)];
    forall k | lo + |r| <= k < |s| ensures s[k] == ' ' {
      assert s[k] == u[k - lo];
    }
  }

  /** `str.strip(' ')` adds no character and no pair of adjacent characters. */
  lemma {:induction false} StripSpacesInner(s: string, x: char, y: char)
    ensures forall c :: c in StripSpaces(s) ==> c in s
    ensures NoPair(s, x, y) ==> NoPair(StripSpaces(s), x, y)
  {
    StripSpacesInfix(s);
    var lo := LeadingSpaces(s);
    var r := StripSpaces(s);
    if NoPair(s, x, y) {
      NoPairSlice(s, lo, lo + |r|, x, y);
    }
    forall c | c in r ensures c in s {
      var k :| 0 <= k < |r| && r[k] == c;
      assert s[lo + k] == c;
    }
  }

  /** Appending text leaves the leading run alone unless the run is all of `a` and the text goes on with a space. */
  lemma {:induction false} LeadingSpacesAppend(a: string, c: string)
    requires LeadingSpaces(a) < |a| || c == [] || c[0] != ' '
    ensures LeadingSpaces(a + c) == LeadingSpaces(a)
  {
    var n := LeadingSpaces(a);
    var s := a + c;
    assert forall k :: 0 <= k < n ==> s[k] == a[k];
    assert n < |a| ==> s[n] == a[n];
    assert n == |a| && c != [] ==> s[n] == c[0];
    LeadingSpacesUnique(s, n);
  }

  /** One step of the trim at a run of spaces. */
  lemma TrimFromRun(s: string, bol: bool)
    requires s != [] && s[0] == ' '
    ensures var n := LeadingSpaces(s);
      TrimFrom(s, bol) ==
        (if bol || n == |s| || s[n] == '\n' then [] else s[..n]) + TrimFrom(s[n..], false)
  {
  }

  /** The run of spaces that starts a line is trimmed the same way whatever follows the line. */
  lemma TrimRunBeforeNewline(a: string, b: string, bol: bool)
    requires '\n' !in a && a != [] && a[0] == ' '
    ensures var n := LeadingSpaces(a);
      TrimFrom(a + "\n" + b, bol) ==
        (if bol || n == |a| then [] else a[..n]) + TrimFrom(a[n..] + "\n" + b, false)
  {
    var c := "\n" + b;
    var s := a + c;
    assert a + "\n" + b == s;
    var n := LeadingSpaces(a);
    assert LeadingSpaces(s) == n by {
      LeadingSpacesAppend(a, c);
    }
    assert s[n..] == a[n..] + "\n" + b;
    TrimFromRun(s, bol);
    if !(bol || n == |a|) {
      assert s[n] == a[n] && a[n] in a;
      assert s[..n] == a[..n];
    }
  }

  /** On a line with no '\n', the run that starts it is kept only away from a line start and when text follows it. */
  lemma TrimRunInLine(a: string, bol: bool)
    requires '\n' !in a && a != [] && a[0] == ' '
    ensures var n := LeadingSpaces(a);
      TrimFrom(a, bol) == (if bol || n == |a| then [] else a[..n]) + TrimFrom(a[n..], false)
  {
    var n := LeadingSpaces(a);
    TrimFromRun(a, bol);
    if n < |a| {
      assert a[n] in a;
    }
  }

  /** The step of `TrimPerLine` for a line that starts with a run of spaces. */
  lemma {:induction false} TrimPerLineRun(a: string, b: string, bol: bool)
    requires '\n' !in a && a != [] && a[0] == ' '
    requires var n := LeadingSpaces(a);
      TrimFrom(a[n..] + "\n" + b, false) == TrimFrom(a[n..], false) + "\n" + TrimFrom(b, true)
    ensures TrimFrom(a + "\n" + b, bol) == TrimFrom(a, bol) + "\n" + TrimFrom(b, true)
  {
    var n := LeadingSpaces(a);
    var head := if bol || n == |a| then [] else a[..n];
    var rest := TrimFrom(a[n..], false);
    TrimRunBeforeNewline(a, b, bol);
    TrimRunInLine(a, bol);
    Regroup(head, rest, "\n", TrimFrom(b, true));
  }

  /** The trim treats each line on its own and keeps every '\n'. */
  lemma {:induction false} TrimPerLine(a: string, b: string, bol: bool)
    requires '\n' !in a
    ensures TrimFrom(a + "\n" + b, bol) == TrimFrom(a, bol) + "\n" + TrimFrom(b, true)
    decreases |a|
  {
    var s := a + "\n" + b;
    if a == [] {
      assert s == "\n" + b && s[1..] == b;
    } else if a[0] == ' ' {
      var n := LeadingSpaces(a);
      assert forall x :: x in a[n..] ==> x in a;
      TrimPerLine(a[n..], b, false);
      TrimPerLineRun(a, b, bol);
    } else {
      assert s[0] == a[0];
      assert s[1..] == a[1..] + "\n" + b;
      TrimPerLine(a[1..], b, false);
    }
  }

  /** A line with no space at either end is its own `strip(' ')`. */
  lemma {:induction false} StripSpacesIdentity(s: string)
    requires s == [] || (s[0] != ' ' && s[|s| - 1] != ' ')
    ensures StripSpaces(s) == s
  {
    LeadingSpacesUnique(s, 0);
    assert SkipSpaces(s) == s;
    TrailingStartUnique(s, |s|);
  }

  /** One trailing space after a line with no space at either end is stripped. */
  lemma {:induction false} StripSpacesOneTrailing(t: string)
    requires t != [] && t[0] != ' ' && t[|t| - 1] != ' '
    ensures StripSpaces(t + " ") == t
  {
    var s := t + " ";
    LeadingSpacesUnique(s, 0);
    assert SkipSpaces(s) == s;
    TrailingStartUnique(s, |t|);
    assert s[..|t|] == t;
  }

  // ---------------------------------------------------------------------------
  // Step 6 and line 56: a comma at the end of a line

  /** On a single line, only a final comma is removed. */
  lemma {:induction false} DropEolCommasSingleLine(s: string)
    requires '\n' !in s
    ensures DropEolCommas(s) == DropLastComma(s)
    decreases |s|
  {
    if |s| > 1 {
      var t := s[1..];
      assert '\n' !in t by {
        assert forall x :: x in t ==> x in s;
      }
      DropEolCommasSingleLine(t);
      assert s[1] != '\n' by {
        assert s[1] in s;
      }
      DropEolCommasKeepHead(s);
      assert s == [s[0]] + t;
      DropLastCommaCons(s[0], t);
    }
  }

  /** A character not followed by a '\n' is kept by the final-comma scan. */
  lemma DropEolCommasKeepHead(s: string)
    requires |s| > 1 && s[1] != '\n'
    ensures DropEolCommas(s) == [s[0]] + DropEolCommas(s[1..])
  {
  }

  lemma {:induction false} DropLastCommaCons(c: char, t: string)
    requires t != []
    ensures DropLastComma([c] + t) == [c] + DropLastComma(t)
  {
    var s := [c] + t;
    assert s[|s| - 1] == t[|t| - 1];
    if t[|t| - 1] == ',' {
      assert s[..|s| - 1] == [c] + t[..|t| - 1];
    }
  }

  /** The final-comma step treats each line on its own and keeps every '\n'. */
  lemma {:induction false} DropEolCommasPerLine(a: string, b: string)
    requires '\n' !in a
    ensures DropEolCommas(a + "\n" + b) == DropEolCommas(a) + "\n" + DropEolCommas(b)
    decreases |a|
  {
    var s := a + "\n" + b;
    if a == [] {
      assert s == "\n" + b && s[1..] == b;
    } else {
      assert s[0] == a[0] && s[1] == (if |a| > 1 then a[1] else '\n');
      assert s[1..] == a[1..] + "\n" + b;
      DropEolCommasPerLine(a[1..], b);
    }
  }
}
