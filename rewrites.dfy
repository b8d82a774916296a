/**
 The regular-expression substitutions that nodes.py applies, each written out as a
 left-to-right scan over a string, following Python's `re.sub`: matches do not
 overlap, the leftmost match wins, `.` stops at '\n' (but not at '\r'), and under
 `re.MULTILINE` `^` holds at the start and after each '\n' while `$` holds before
 each '\n' and at the end. Beside each scan stands a reference definition or a
 characterisation lemma of what it removes.
 */
module Rewrites {
  import opened Wrappers

  /** Characters `x` then `y` stand at index `i` of `s`. */
  predicate PairAt(s: string, i: int, x: char, y: char)
  {
    0 <= i < |s| - 1 && s[i] == x && s[i + 1] == y
  }

  /** Nowhere in `s` does `x` stand right before `y`. */
  predicate NoPair(s: string, x: char, y: char)
  {
    forall i :: 0 <= i < |s| ==> !PairAt(s, i, x, y)
  }

  predicate NoDoubleSpace(s: string)
  {
    NoPair(s, ' ', ' ')
  }

  /** Taking a slice never creates a pair. */
  lemma {:induction false} NoPairSlice(s: string, lo: int, hi: int, x: char, y: char)
    requires 0 <= lo <= hi <= |s| && NoPair(s, x, y)
    ensures NoPair(s[lo..hi], x, y)
    ensures hi == |s| ==> NoPair(s[lo..], x, y)
  {
    assert hi == |s| ==> s[lo..hi] == s[lo..];
    forall i ensures !PairAt(s[lo..hi], i, x, y) {
      if 0 <= i < hi - lo - 1 {
        assert !PairAt(s, lo + i, x, y);
      }
    }
  }

  /** Putting `x` in front of `t` creates no pair when `x` and the head of `t` are not one. */
  lemma {:induction false} NoPairCons(x: char, t: string, a: char, b: char)
    requires NoPair(t, a, b) && (t == [] || x != a || t[0] != b)
    ensures NoPair([x] + t, a, b)
  {
    var s := [x] + t;
    forall i | 0 <= i < |s| ensures !PairAt(s, i, a, b) {
      if i > 0 {
        assert !PairAt(t, i - 1, a, b);
      }
    }
  }

  /** A pair cannot occur where its first character does not. */
  lemma {:induction false} NoPairAbsent(s: string, x: char, y: char)
    requires x !in s
    ensures NoPair(s, x, y)
  {
    forall i | 0 <= i < |s| ensures !PairAt(s, i, x, y) {
      assert s[i] in s;
    }
  }

  /** `s` with every `c` removed: `re.sub(c, "", s)` for one literal character. */
  function Without(s: string, c: char): (r: string)
    ensures c !in r
    ensures |r| <= |s|
    ensures forall x :: x != c ==> (x in r <==> x in s)
  {
    if s == [] then []
    else if s[0] == c then Without(s[1..], c)
    else [s[0]] + Without(s[1..], c)
  }

  lemma {:induction false} WithoutAppend(a: string, b: string, c: char)
    ensures Without(a + b, c) == Without(a, c) + Without(b, c)
  {
    if a == [] {
      assert a + b == b;
    } else {
      assert (a + b)[1..] == a[1..] + b;
      WithoutAppend(a[1..], b, c);
    }
  }

  /** Removing a character that does not occur changes nothing. */
  lemma {:induction false} WithoutAbsent(s: string, c: char)
    requires c !in s
    ensures Without(s, c) == s
  {
    if s != [] {
      assert s[0] in s;
      assert forall x :: x in s[1..] ==> x in s;
      WithoutAbsent(s[1..], c);
    }
  }

  // ---------------------------------------------------------------------------
  // Step 1 of the normalizer: re.sub("(//.*|#.*)", "", s, flags=re.MULTILINE)

  /** A `//` or `#` line comment starts at the head of `s`. */
  predicate CommentStart(s: string)
  {
    |s| > 0 && (s[0] == '#' || PairAt(s, 0, '/', '/'))
  }

  /** `s` without its leading run of characters other than '\n': where `.*` stops. */
  function SkipToEol(s: string): (r: string)
    ensures |r| <= |s|
    ensures r == [] || r[0] == '\n'
    ensures s != [] && s[0] != '\n' ==> |r| < |s|
    decreases |s|
  {
    if s == [] || s[0] == '\n' then s else SkipToEol(s[1..])
  }

  /** The scan of step 1: each comment is cut up to, not including, the '\n' that ends its line. */
  function StripLineComments(s: string): (r: string)
    ensures |r| <= |s|
    ensures '#' !in r
    decreases |s|
  {
    if s == [] then []
    else if CommentStart(s) then StripLineComments(SkipToEol(s))
    else [s[0]] + StripLineComments(s[1..])
  }

  /** Where the first comment marker of `s` stands (|s| when there is none). */
  function MarkerIndex(s: string): (i: nat)
    ensures i <= |s|
    ensures i < |s| ==> CommentStart(s[i..])
    ensures forall j :: 0 <= j < i ==> !CommentStart(s[j..])
    decreases |s|
  {
    if s == [] || CommentStart(s) then 0
    else
      var k := MarkerIndex(s[1..]);
      assert forall j :: 1 <= j <= 1 + k ==> s[j..] == s[1..][j - 1..];
      1 + k
  }

  // ---------------------------------------------------------------------------
  // Step 2 of the normalizer: re.sub("(\r\n|\n|\r)", " ", s)

  /** The scan of step 2: CRLF is tried first, so it becomes a single space. */
  function LineBreaksToSpaces(s: string): (r: string)
    ensures |r| <= |s|
    ensures '\n' !in r && '\r' !in r
    ensures forall c :: c in r ==> c == ' ' || c in s
    decreases |s|
  {
    if s == [] then []
    else if PairAt(s, 0, '\r', '\n') then " " + LineBreaksToSpaces(s[2..])
    else if s[0] == '\n' || s[0] == '\r' then " " + LineBreaksToSpaces(s[1..])
    else [s[0]] + LineBreaksToSpaces(s[1..])
  }

  // ---------------------------------------------------------------------------
  // Step 3 of the normalizer: re.sub("/\*.*?\*/", "", s)

  // The closer of a block comment, a star then a slash, stands at index `j` of `t`.
  predicate CloserAt(t: string, j: int)
  {
    PairAt(t, j, '*', '/')
  }

  // Where the lazy match that follows an opening slash-star ends: at the first closer
  // of `t`, provided no '\n' comes before it (`.` does not match '\n').
  function CloseOffset(t: string): (o: Option<nat>)
    ensures o.Some? ==> CloserAt(t, o.value) && '\n' !in t[..o.value]
    ensures o.Some? ==> forall j :: 0 <= j < o.value ==> !CloserAt(t, j)
    ensures o.None? ==> forall j :: CloserAt(t, j) ==> '\n' in t[..j]
    decreases |t|
  {
    if |t| < 2 || t[0] == '\n' then None
    else if t[0] == '*' && t[1] == '/' then Some(0)
    else
      assert forall j :: 1 <= j ==> (CloserAt(t, j) <==> CloserAt(t[1..], j - 1));
      assert forall j :: 1 <= j <= |t| ==> t[..j] == [t[0]] + t[1..][..j - 1];
      match CloseOffset(t[1..])
      case None => None
      case Some(k) => Some(k + 1)
  }

  // The scan of step 3: each opener that has a closer on its line is removed together
  // with everything up to and including the first such closer.
  function RemoveBlockComments(s: string): (r: string)
    ensures |r| <= |s|
    ensures forall c :: c in r ==> c in s
    decreases |s|
  {
    if s == [] then []
    else if PairAt(s, 0, '/', '*') then
      match CloseOffset(s[2..])
      case Some(j) => RemoveBlockComments(s[j + 4..])
      case None => [s[0]] + RemoveBlockComments(s[1..])
    else [s[0]] + RemoveBlockComments(s[1..])
  }

  // ---------------------------------------------------------------------------
  // Step 4 of the normalizer: re.sub("(  +)", " ", s)

  /** How many spaces `s` starts with. */
  function LeadingSpaces(s: string): (n: nat)
    ensures n <= |s|
    ensures forall k :: 0 <= k < n ==> s[k] == ' '
    ensures n < |s| ==> s[n] != ' '
    decreases |s|
  {
    if s != [] && s[0] == ' ' then
      var m := LeadingSpaces(s[1..]);
      assert forall k :: 1 <= k < 1 + m ==> s[k] == s[1..][k - 1];
      1 + m
    else 0
  }

  /** The suffix of `s` after its leading run of spaces. */
  function SkipSpaces(s: string): string
  {
    s[LeadingSpaces(s)..]
  }

  /** The scan of step 4: a run of two or more spaces becomes one space. */
  function CollapseSpaces(s: string): (r: string)
    ensures |r| <= |s|
    ensures s != [] ==> r != [] && r[0] == s[0]
    ensures NoDoubleSpace(r)
    ensures forall c :: c in r ==> c in s
    decreases |s|
  {
    if s == [] then []
    else if PairAt(s, 0, ' ', ' ') then
      var t := CollapseSpaces(s[LeadingSpaces(s)..]);
      NoPairCons(' ', t, ' ', ' ');
      " " + t
    else
      var t := CollapseSpaces(s[1..]);
      NoPairCons(s[0], t, ' ', ' ');
      [s[0]] + t
  }

  // ---------------------------------------------------------------------------
  // Step 5 of the normalizer, and line 54: re.sub("(^ +| +$)", "", s, flags=re.MULTILINE)

  /**
   The scan of `(^ +| +$)` from a position that is (`bol`) or is not at the start of a
   line. A run of spaces at the start of a line matches `^ +`; a run that reaches a '\n'
   or the end matches ` +$`; at the spaces of any other run neither alternative matches,
   so the scan keeps that run.
   */
  function TrimFrom(s: string, bol: bool): (r: string)
    ensures |r| <= |s|
    decreases |s|
  {
    if s == [] then []
    else if s[0] == ' ' then
      var n := LeadingSpaces(s);
      if bol || n == |s| || s[n] == '\n' then TrimFrom(s[n..], false)
      else s[..n] + TrimFrom(s[n..], false)
    else [s[0]] + TrimFrom(s[1..], s[0] == '\n')
  }

  function TrimLines(s: string): string
  {
    TrimFrom(s, true)
  }

  /** Where the trailing run of spaces of `s` begins. */
  function TrailingStart(s: string): (n: nat)
    ensures n <= |s|
    ensures forall k :: n <= k < |s| ==> s[k] == ' '
    ensures n > 0 ==> s[n - 1] != ' '
    decreases |s|
  {
    if s != [] && s[|s| - 1] == ' ' then TrailingStart(s[..|s| - 1]) else |s|
  }

  /** `s.rstrip(' ')`. */
  function DropTrailingSpaces(s: string): string
  {
    s[..TrailingStart(s)]
  }

  /** `s.strip(' ')`: only the space character is stripped, tabs are kept. */
  function StripSpaces(s: string): (r: string)
    ensures r == [] || (r[0] != ' ' && r[|r| - 1] != ' ')
  {
    DropTrailingSpaces(SkipSpaces(s))
  }

  // ---------------------------------------------------------------------------
  // Step 6 of the normalizer, and line 56: re.sub("(,$)", "", s, flags=re.MULTILINE)

  /** The scan of `(,$)`: a comma right before a '\n' or at the very end is removed. */
  function DropEolCommas(s: string): (r: string)
    ensures |r| <= |s|
    decreases |s|
  {
    if s == [] then []
    else if s[0] == ',' && (|s| == 1 || s[1] == '\n') then DropEolCommas(s[1..])
    else [s[0]] + DropEolCommas(s[1..])
  }

  /** `s` without its last character when that is a comma. */
  function DropLastComma(s: string): string
  {
    if s != [] && s[|s| - 1] == ',' then s[..|s| - 1] else s
  }
}
