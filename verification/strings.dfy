/**
  The character-level string extensions of `Extensions.Strings.cs`: control
  character removal, the two clamped substring helpers and `ToOneCharString`.
  A `null` string argument is `None`; the `ArgumentOutOfRangeException` that
  `String.Substring` throws is a `Failure`.
*/
module Strings {
  import opened Wrappers
  import opened Primitives

  /** The exception `String.Substring` raises for a start or length outside the string. */
  datatype SubstringError = ArgumentOutOfRange

  // ---------------------------------------------------------------------------
  // Control characters
  // ---------------------------------------------------------------------------

  /** The characters `RemoveControlCharsExcept` lets through. */
  predicate Kept(c: char, exclude: seq<char>) {
    !IsControl(c) || c in exclude
  }

  /** `a` can be obtained from `b` by deleting characters. */
  ghost predicate IsSubsequence(a: string, b: string)
    decreases |b|
  {
    if |a| == 0 then true
    else if |b| == 0 then false
    else (a[0] == b[0] && IsSubsequence(a[1..], b[1..])) || IsSubsequence(a, b[1..])
  }

  /** The characters of `s` that are kept, in their original order. */
  function {:induction false} FilterKept(s: string, exclude: seq<char>): (r: string)
    ensures forall i :: 0 <= i < |r| ==> Kept(r[i], exclude)
    ensures forall c :: multiset(r)[c] == if Kept(c, exclude) then multiset(s)[c] else 0
    ensures IsSubsequence(r, s)
    decreases |s|
  {
    if |s| == 0 then ""
    else
      var rest := FilterKept(s[1..], exclude);
      assert s == [s[0]] + s[1..];
      assert multiset(s) == multiset{s[0]} + multiset(s[1..]);
      if Kept(s[0], exclude) then
        var r := [s[0]] + rest;
        assert r[1..] == rest;
        r
      else
        rest
  }

  /**
    `RemoveControlCharsExcept(input, excludeChars)`: the characters of `input`
    that are not control characters or are listed in `excludeChars`, in order.
    A `null` exclusion list behaves as an empty one.
  */
  function RemoveControlCharsExcept(input: string, excludeChars: Option<seq<char>>): (r: string)
    ensures forall i :: 0 <= i < |r| ==> !IsControl(r[i]) || r[i] in excludeChars.GetOr([])
    ensures forall c :: multiset(r)[c] ==
                        if !IsControl(c) || c in excludeChars.GetOr([]) then multiset(input)[c] else 0
    ensures IsSubsequence(r, input)
  {
    FilterKept(input, excludeChars.GetOr([]))
  }

  /**
    `RemoveControlChars(input)`: every control character removed and every
    other character kept, in order; the same as excluding nothing.
  */
  function RemoveControlChars(input: string): (r: string)
    ensures r == RemoveControlCharsExcept(input, Some([]))
    ensures forall i :: 0 <= i < |r| ==> !IsControl(r[i])
    ensures forall c :: !IsControl(c) ==> multiset(r)[c] == multiset(input)[c]
    ensures forall c :: IsControl(c) ==> c !in r
  {
    RemoveControlCharsExcept(input, None)
  }

  /** Filtering a string whose characters are all kept changes nothing. */
  lemma {:induction false} FilterKeepsAllKept(s: string, exclude: seq<char>)
    requires forall i :: 0 <= i < |s| ==> Kept(s[i], exclude)
    ensures FilterKept(s, exclude) == s
    decreases |s|
  {
    if |s| > 0 {
      FilterKeepsAllKept(s[1..], exclude);
      assert s == [s[0]] + s[1..];
    }
  }

  /** Removing control characters is idempotent. */
  lemma RemoveControlCharsIdempotent(input: string)
    ensures RemoveControlChars(RemoveControlChars(input)) == RemoveControlChars(input)
  {
    var once := RemoveControlChars(input);
    FilterKeepsAllKept(once, []);
  }

  /** Allowing more characters through never drops a character that was kept before. */
  lemma {:induction false} ExcludingMoreKeepsMore(s: string, small: seq<char>, large: seq<char>)
    requires forall c :: c in small ==> c in large
    ensures IsSubsequence(FilterKept(s, small), FilterKept(s, large))
    decreases |s|
  {
    if |s| > 0 {
      ExcludingMoreKeepsMore(s[1..], small, large);
      var a := FilterKept(s[1..], small);
      var b := FilterKept(s[1..], large);
      if Kept(s[0], small) {
        assert ([s[0]] + a)[1..] == a;
        assert ([s[0]] + b)[1..] == b;
      } else if Kept(s[0], large) {
        SubsequenceOfTail(a, b, s[0]);
      }
    }
  }

  /** A subsequence of `b` is also a subsequence of `[c] + b`. */
  lemma {:induction false} SubsequenceOfTail(a: string, b: string, c: char)
    requires IsSubsequence(a, b)
    ensures IsSubsequence(a, [c] + b)
  {
    assert ([c] + b)[1..] == b;
  }

  // ---------------------------------------------------------------------------
  // Slicing
  // ---------------------------------------------------------------------------

  /** `String.Substring(start, length)`. */
  function Substring(s: string, start: int, length: int): (r: Result<string, SubstringError>)
    ensures r.Success? <==> 0 <= start && 0 <= length && start + length <= |s|
    ensures r.Success? ==> |r.value| == length
  {
    if 0 <= start && 0 <= length && start + length <= |s| then Success(s[start..start + length])
    else Failure(ArgumentOutOfRange)
  }

  /**
    `Slice(str, startIndex, endIndex)` as written: the end index is clamped to
    `[startIndex, Length - 1]` and anything that does not span at least two
    characters gives `""`.
  */
  function Slice(str: Option<string>, startIndex: int, endIndex: int): (r: Result<string, SubstringError>)
    ensures str.None? ==> r == Success("")
    ensures str.Some? ==>
              var last := Min(endIndex, |str.value| - 1);
              && (r.Failure? <==> startIndex < 0 && startIndex < last)
              && (r.Success? && startIndex < last ==>
                    r.value == str.value[startIndex..last + 1] && |r.value| == last - startIndex + 1)
              && (startIndex >= last ==> r == Success(""))
    ensures r.Success? ==> |r.value| != 1
  {
    match str
    case None => Success("")
    case Some(s) =>
      var e := Clamp(endIndex, startIndex, |s| - 1);
      if startIndex >= e then Success("")
      else Substring(s, startIndex, (e - startIndex) + 1)
  }

  /**
    The inclusive slice the documentation promises: the end index is capped at
    the last character and only a start beyond it gives `""`.
  */
  function SliceInclusive(str: Option<string>, startIndex: int, endIndex: int): (r: Result<string, SubstringError>)
    ensures str.Some? && 0 <= startIndex <= endIndex < |str.value| ==>
              r == Success(str.value[startIndex..endIndex + 1])
    ensures str.Some? && 0 <= startIndex ==> r.Success?
    ensures r.Success? && startIndex > endIndex ==> r.value == ""
  {
    match str
    case None => Success("")
    case Some(s) =>
      var e := Min(endIndex, |s| - 1);
      if startIndex > e then Success("")
      else Substring(s, startIndex, (e - startIndex) + 1)
  }

  /** The two slices agree except where the documented inclusive range holds a single character. */
  lemma SliceDiffersOnlyOnSingleCharacter(str: Option<string>, startIndex: int, endIndex: int)
    ensures Slice(str, startIndex, endIndex) != SliceInclusive(str, startIndex, endIndex) <==>
              str.Some? && startIndex == Min(endIndex, |str.value| - 1)
  {
  }

  /** "abc".Slice(1, 1) is "" although both indexes are documented as inclusive. */
  lemma SliceDropsSingleCharacter()
    ensures Slice(Some("abc"), 1, 1) == Success("")
    ensures SliceInclusive(Some("abc"), 1, 1) == Success("b")
  {
    assert "abc"[1..2] == "b";
  }

  /**
    `SliceLength(str, startIndex, length)` as written. For a non-empty string
    both arguments are clamped and the result is the substring at the clamped
    start; for the empty string `Clamp(startIndex, 0, -1)` yields -1 and a
    positive length reaches `Substring(-1, 1)`, which throws.
  */
  function SliceLength(str: Option<string>, startIndex: int, length: int): (r: Result<string, SubstringError>)
    ensures str.None? ==> r == Success("")
    ensures str.Some? && |str.value| > 0 ==>
              var s := str.value;
              var k := Min(Max(startIndex, 0), |s| - 1);
              && r.Success?
              && |r.value| == Min(Max(length, 0), |s| - k)
              && r.value == s[k..k + |r.value|]
    ensures str.Some? && |str.value| == 0 ==>
              (r.Failure? <==> 0 <= startIndex && 0 < length)
    ensures r.Success? ==> |r.value| <= |str.GetOr("")|
  {
    match str
    case None => Success("")
    case Some(s) =>
      var k := Clamp(startIndex, 0, |s| - 1);
      var n := Clamp(length, 0, |s| - k);
      if n == 0 then Success("")
      else Substring(s, k, n)
  }

  /** `SliceLength` with the empty string handled before clamping: it never throws. */
  function SliceLengthSafe(str: Option<string>, startIndex: int, length: int): (r: string)
    ensures |r| <= |str.GetOr("")|
    ensures str.Some? && |str.value| > 0 ==>
              var k := Min(Max(startIndex, 0), |str.value| - 1);
              |r| == Min(Max(length, 0), |str.value| - k) && r == str.value[k..k + |r|]
    ensures SliceLength(str, startIndex, length).Success? ==>
              SliceLength(str, startIndex, length).value == r
  {
    match str
    case None => ""
    case Some(s) =>
      if |s| == 0 then ""
      else
        var k := Clamp(startIndex, 0, |s| - 1);
        var n := Clamp(length, 0, |s| - k);
        s[k..k + n]
  }

  /** "".SliceLength(0, 1) throws instead of clamping to "". */
  lemma SliceLengthThrowsOnEmpty()
    ensures SliceLength(Some(""), 0, 1) == Failure(ArgumentOutOfRange)
    ensures SliceLengthSafe(Some(""), 0, 1) == ""
  {
  }

  // ---------------------------------------------------------------------------
  // Single characters
  // ---------------------------------------------------------------------------

  /** `ToOneCharString(c)`: the string holding just `c`. */
  function ToOneCharString(c: char): (r: string)
    ensures |r| == 1 && r[0] == c
    ensures RemoveControlChars(r) == if IsControl(c) then "" else r
  {
    [c]
  }
}
