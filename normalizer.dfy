/**
 `PromptNormalizer.execute` (nodes.py:20-29): seven substitutions applied in order,
 each to the result of the one before.
 */
module Normalizer {
  import opened Rewrites
  import opened RewriteLaws

  /** Lines 21-24: comments cut, line terminators turned into spaces, runs of spaces collapsed. */
  function Collapsed(s: string): string
  {
    var r1 := StripLineComments(s);
    var r2 := LineBreaksToSpaces(r1);
    var r3 := RemoveBlockComments(r2);
    CollapseSpaces(r3)
  }

  /** Lines 21-25: the text that reaches the final-comma step. */
  function Cleaned(s: string): string
  {
    TrimLines(Collapsed(s))
  }

  /** Lines 21-29: the node's one output for `string` and `remove_comma`. */
  function Normalize(s: string, removeComma: bool): string
  {
    var r6 := DropEolCommas(Cleaned(s));
    if removeComma then Without(r6, ',') else r6
  }

  /** After line 24 the text is one line with no comment marker and no two adjacent spaces. */
  lemma {:induction false} CollapsedShape(s: string)
    ensures var r := Collapsed(s);
      && '\n' !in r && '\r' !in r && '#' !in r
      && NoDoubleSpace(r)
      && |r| <= |s|
  {
    var r1 := StripLineComments(s);
    var r2 := LineBreaksToSpaces(r1);
    assert '#' !in r2;
  }

  /** Line 25 strips the spaces at both ends of that one line, and keeps the rest. */
  lemma {:induction false} CleanedShape(s: string)
    ensures var c := Cleaned(s);
      && c == StripSpaces(Collapsed(s))
      && '\n' !in c && '\r' !in c && '#' !in c
      && NoDoubleSpace(c)
      && (c == [] || (c[0] != ' ' && c[|c| - 1] != ' '))
      && |c| <= |s|
  {
    var r := Collapsed(s);
    CollapsedShape(s);
    TrimSingleLine(r);
    StripSpacesInner(r, ' ', ' ');
  }

  /**
   Line 26 removes at most one comma, and only the very last character: the text has
   become a single line, so `,$` can only match at its end.
   */
  lemma {:induction false} NormalizeFinalComma(s: string)
    ensures Normalize(s, false) == DropLastComma(Cleaned(s))
    ensures Normalize(s, true) == Without(DropLastComma(Cleaned(s)), ',')
  {
    CleanedShape(s);
    DropEolCommasSingleLine(Cleaned(s));
  }

  /** No line terminator and no `#` survive, and with `remove_comma` no comma either. */
  lemma {:induction false} NormalizeCharacters(s: string, removeComma: bool)
    ensures var r := Normalize(s, removeComma);
      && '\n' !in r && '\r' !in r && '#' !in r
      && (removeComma ==> ',' !in r)
  {
    NormalizeFinalComma(s);
    CleanedShape(s);
    var c := Cleaned(s);
    var d := DropLastComma(c);
    assert forall x :: x in d ==> x in c;
  }

  /** Without comma removal the output has no two adjacent spaces and does not start with one. */
  lemma {:induction false} NormalizeSpacing(s: string)
    ensures var r := Normalize(s, false);
      && NoDoubleSpace(r)
      && (r == [] || r[0] != ' ')
  {
    NormalizeFinalComma(s);
    CleanedShape(s);
    var c := Cleaned(s);
    if c != [] && c[|c| - 1] == ',' {
      NoPairSlice(c, 0, |c| - 1, ' ', ' ');
    }
  }

  /** The output is never longer than the input; in particular empty input gives empty output. */
  lemma {:induction false} NormalizeNotLonger(s: string, removeComma: bool)
    ensures |Normalize(s, removeComma)| <= |s|
    ensures s == [] ==> Normalize(s, removeComma) == []
  {
    CleanedShape(s);
  }

  /** Only the outcome of lines 21-24 matters to the rest of the pipeline. */
  lemma {:induction false} NormalizeFromCollapsed(s: string, t: string)
    requires Collapsed(s) == t
    ensures Normalize(s, false) == DropLastComma(StripSpaces(t))
    ensures Normalize(s, true) == Without(DropLastComma(StripSpaces(t)), ',')
  {
    NormalizeFinalComma(s);
    CleanedShape(s);
  }

  /** Text already on one line, with no comment marker and no two adjacent spaces, passes lines 21-24 unchanged. */
  lemma {:induction false} CollapsedIdentity(t: string)
    requires '\n' !in t && '\r' !in t && '#' !in t
    requires NoPair(t, '/', '/') && NoPair(t, '/', '*') && NoDoubleSpace(t)
    ensures Collapsed(t) == t
  {
    StripLineCommentsIdentity(t);
    LineBreaksIdentity(t);
    BlockCommentsIdentity(t);
    CollapseSpacesIdentity(t);
  }

  /**
   Clean one-line text is a fixpoint of the node: no comment marker, no line terminator,
   no two adjacent spaces, no space at either end and no final comma. With `remove_comma`
   it must hold no comma at all.
   */
  lemma {:induction false} NormalizeStable(t: string)
    requires '\n' !in t && '\r' !in t && '#' !in t
    requires NoPair(t, '/', '/') && NoPair(t, '/', '*') && NoDoubleSpace(t)
    requires t == [] || (t[0] != ' ' && t[|t| - 1] != ' ' && t[|t| - 1] != ',')
    ensures Normalize(t, false) == t
    ensures ',' !in t ==> Normalize(t, true) == t
  {
    CollapsedIdentity(t);
    NormalizeFromCollapsed(t, t);
    StripSpacesIdentity(t);
    if ',' !in t {
      WithoutAbsent(t, ',');
    }
  }
}
