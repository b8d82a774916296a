/**
 Python's `str.find(sep)`, `str.split(sep)` (with an explicit, non-empty separator)
 and `sep.join(parts)`, on strings of code points.
 */
module PyStr {
  import opened Wrappers

  /** `sep` occurs in `s` starting at index `i`. */
  predicate OccursAt(s: string, sep: string, i: int)
  {
    0 <= i && i + |sep| <= |s| && s[i..i + |sep|] == sep
  }

  /** Occurrences in a tail are the occurrences in the whole string, shifted by one. */
  lemma {:induction false} OccursAtTail(s: string, sep: string, j: int)
    requires s != [] && 1 <= j
    ensures OccursAt(s, sep, j) <==> OccursAt(s[1..], sep, j - 1)
  {
    if j + |sep| <= |s| {
      assert s[1..][j - 1..j - 1 + |sep|] == s[j..j + |sep|];
    }
  }

  /** `s.find(sep)`: the least index at which `sep` occurs, or None for Python's -1. */
  function Find(s: string, sep: string): (o: Option<nat>)
    ensures o.Some? ==> OccursAt(s, sep, o.value)
    decreases |s|
  {
    if |s| < |sep| then None
    else if s[..|sep|] == sep then Some(0)
    else
      match Find(s[1..], sep)
      case None => None
      case Some(k) =>
        assert s[1..][k..k + |sep|] == s[k + 1..k + 1 + |sep|];
        Some(k + 1)
  }

  /** The index Find returns is the least occurrence, and None means there is none. */
  lemma {:induction false} FindLeast(s: string, sep: string)
    ensures Find(s, sep).Some? ==> forall j :: 0 <= j < Find(s, sep).value ==> !OccursAt(s, sep, j)
    ensures Find(s, sep).None? ==> forall j :: !OccursAt(s, sep, j)
    decreases |s|
  {
    if |s| < |sep| {
    } else if s[..|sep|] == sep {
    } else {
      FindLeast(s[1..], sep);
      assert !OccursAt(s, sep, 0);
      forall j | 1 <= j
        ensures OccursAt(s, sep, j) <==> OccursAt(s[1..], sep, j - 1)
      {
        OccursAtTail(s, sep, j);
      }
    }
  }

  /** The number of non-overlapping occurrences of `sep` in `s`, scanning left to right. */
  function Occurrences(s: string, sep: string): nat
    requires sep != []
    decreases |s|
  {
    if |s| < |sep| then 0
    else if s[..|sep|] == sep then 1 + Occurrences(s[|sep|..], sep)
    else Occurrences(s[1..], sep)
  }

  /** `s.split(sep)` for a non-empty `sep`: the pieces between the occurrences that a left-to-right scan finds. */
  function Split(s: string, sep: string): (parts: seq<string>)
    requires sep != []
    ensures |parts| >= 1
    decreases |s|
  {
    match Find(s, sep)
    case None => [s]
    case Some(i) => [s[..i]] + Split(s[i + |sep|..], sep)
  }

  /** `sep.join(parts)`. */
  function Join(parts: seq<string>, sep: string): string
  {
    if |parts| == 0 then []
    else if |parts| == 1 then parts[0]
    else parts[0] + sep + Join(parts[1..], sep)
  }

  /** At the first occurrence, the text is the first piece, the separator and the rest. */
  lemma {:induction false} SplitFirst(s: string, sep: string)
    requires sep != [] && Find(s, sep).Some?
    ensures var i := Find(s, sep).value;
      && s == s[..i] + sep + s[i + |sep|..]
      && Split(s, sep) == [s[..i]] + Split(s[i + |sep|..], sep)
  {
    var i := Find(s, sep).value;
    assert s[i..i + |sep|] == sep;
    assert s == s[..i] + s[i..i + |sep|] + s[i + |sep|..];
  }

  lemma {:induction false} JoinCons(p: string, tail: seq<string>, sep: string)
    requires tail != []
    ensures Join([p] + tail, sep) == p + sep + Join(tail, sep)
  {
    assert ([p] + tail)[1..] == tail;
  }

  /** Joining the pieces with the separator gives back the string that was split. */
  lemma {:induction false} JoinSplit(s: string, sep: string)
    requires sep != []
    ensures Join(Split(s, sep), sep) == s
    decreases |s|
  {
    var o := Find(s, sep);
    if o.Some? {
      var i := o.value;
      var rest := s[i + |sep|..];
      SplitFirst(s, sep);
      JoinSplit(rest, sep);
      JoinCons(s[..i], Split(rest, sep), sep);
    }
  }

  /** Where `sep` does not start `s`, the search goes on one character further. */
  lemma {:induction false} FindShift(s: string, sep: string)
    requires |s| >= |sep| && s[..|sep|] != sep
    ensures Find(s, sep) == if Find(s[1..], sep).Some? then Some(Find(s[1..], sep).value + 1) else None
  {
    match Find(s[1..], sep)
    case None =>
    case Some(k) =>
  }

  /** Where `sep` does not start `s`, the count goes on one character further. */
  lemma {:induction false} OccurrencesSkip(s: string, sep: string)
    requires sep != [] && |s| >= |sep| && s[..|sep|] != sep
    ensures Occurrences(s, sep) == Occurrences(s[1..], sep)
  {
  }

  /** After the first occurrence, the count goes on from just past that occurrence. */
  lemma {:induction false} OccurrencesFromFind(s: string, sep: string)
    requires sep != []
    ensures Find(s, sep).None? ==> Occurrences(s, sep) == 0
    ensures Find(s, sep).Some? ==>
      Occurrences(s, sep) == 1 + Occurrences(s[Find(s, sep).value + |sep|..], sep)
    decreases |s|
  {
    if |s| >= |sep| && s[..|sep|] != sep {
      OccurrencesFromFind(s[1..], sep);
      OccurrencesFromFindShift(s, sep);
    }
  }

  /** The step of the proof above where `sep` does not start `s`. */
  lemma {:induction false} OccurrencesFromFindShift(s: string, sep: string)
    requires sep != [] && |s| >= |sep| && s[..|sep|] != sep
    requires Find(s[1..], sep).None? ==> Occurrences(s[1..], sep) == 0
    requires Find(s[1..], sep).Some? ==>
      Occurrences(s[1..], sep) == 1 + Occurrences(s[1..][Find(s[1..], sep).value + |sep|..], sep)
    ensures Find(s, sep).None? ==> Occurrences(s, sep) == 0
    ensures Find(s, sep).Some? ==>
      Occurrences(s, sep) == 1 + Occurrences(s[Find(s, sep).value + |sep|..], sep)
  {
    var t := s[1..];
    FindShift(s, sep);
    OccurrencesSkip(s, sep);
    if Find(t, sep).Some? {
      var k := Find(t, sep).value;
      assert t[k + |sep|..] == s[k + 1 + |sep|..];
    }
  }

  /** `len(s.split(sep))` is one more than the number of non-overlapping occurrences of `sep`. */
  lemma {:induction false} SplitCount(s: string, sep: string)
    requires sep != []
    ensures |Split(s, sep)| == Occurrences(s, sep) + 1
    decreases |s|
  {
    OccurrencesFromFind(s, sep);
    if Find(s, sep).Some? {
      var i := Find(s, sep).value;
      SplitFirst(s, sep);
      SplitCount(s[i + |sep|..], sep);
    }
  }

  /** An occurrence inside a prefix is an occurrence in the whole string, ending within the prefix. */
  lemma OccursInPrefix(s: string, sep: string, i: int, j: int)
    requires 0 <= i <= |s|
    ensures OccursAt(s[..i], sep, j) ==> OccursAt(s, sep, j) && j + |sep| <= i
  {
    if OccursAt(s[..i], sep, j) {
      assert s[..i][j..j + |sep|] == s[j..j + |sep|];
    }
  }

  /** No piece contains the separator, and the first piece is everything before the first occurrence. */
  lemma {:induction false} SplitPiecesFree(s: string, sep: string)
    requires sep != []
    ensures forall k, j :: 0 <= k < |Split(s, sep)| ==> !OccursAt(Split(s, sep)[k], sep, j)
    ensures Split(s, sep)[0] == match Find(s, sep) case None => s case Some(i) => s[..i]
    decreases |s|
  {
    FindLeast(s, sep);
    var o := Find(s, sep);
    if o.Some? {
      var i := o.value;
      var rest := s[i + |sep|..];
      SplitFirst(s, sep);
      SplitPiecesFree(rest, sep);
      forall j ensures !OccursAt(s[..i], sep, j) {
        OccursInPrefix(s, sep, i, j);
      }
      var parts := Split(s, sep);
      forall k, j | 1 <= k < |parts| ensures !OccursAt(parts[k], sep, j) {
        assert parts[k] == Split(rest, sep)[k - 1];
      }
    }
  }

  /** Every character of a piece comes from the string that was split. */
  lemma {:induction false} SplitChars(s: string, sep: string)
    requires sep != []
    ensures forall k, c :: 0 <= k < |Split(s, sep)| && c in Split(s, sep)[k] ==> c in s
    decreases |s|
  {
    match Find(s, sep)
    case None =>
    case Some(i) =>
      var rest := s[i + |sep|..];
      SplitChars(rest, sep);
      var parts := Split(s, sep);
      forall k, c | 0 <= k < |parts| && c in parts[k] ensures c in s {
        if k > 0 {
          assert parts[k] == Split(rest, sep)[k - 1];
          assert c in rest;
        }
      }
  }

  /** A string in which the separator does not occur splits into itself alone, and only then. */
  lemma {:induction false} SplitWhole(s: string, sep: string)
    requires sep != []
    ensures Split(s, sep) == [s] <==> forall j :: !OccursAt(s, sep, j)
  {
    FindLeast(s, sep);
    match Find(s, sep)
    case None =>
    case Some(i) =>
      assert |Split(s, sep)| >= 2;
  }

  /** A one-character separator cuts at its first occurrence. */
  lemma {:induction false} SplitAtFirst(a: string, c: char, b: string)
    requires c !in a
    ensures Split(a + [c] + b, [c]) == [a] + Split(b, [c])
  {
    var s := a + [c] + b;
    assert OccursAt(s, [c], |a|) by { assert s[|a|..|a| + 1] == [c]; }
    forall j | 0 <= j < |a| ensures !OccursAt(s, [c], j) {
      assert s[j] == a[j] != c;
      assert s[j..j + 1] == [s[j]];
    }
    FindLeast(s, [c]);
    match Find(s, [c])
    case None =>
      assert false;
    case Some(i) =>
      assert i == |a|;
      assert s[..i] == a;
      assert s[i + 1..] == b;
  }
}
