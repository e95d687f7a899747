/**
  `Humanize` from `Extensions.Strings.cs`: two regex replacements, first
  `_` by a blank, then every `[a-z][A-Z]` match by its two characters with a
  blank between them.
*/
module Humanizing {
  import opened Wrappers
  import opened Primitives

  /** The first replacement, `UnderscoreRegex.Replace(s, " ")`. */
  function ReplaceUnderscores(s: string): (r: string)
    ensures |r| == |s|
    ensures forall i :: 0 <= i < |s| ==> r[i] == (if s[i] == '_' then ' ' else s[i])
    decreases |s|
  {
    if |s| == 0 then "" else [if s[0] == '_' then ' ' else s[0]] + ReplaceUnderscores(s[1..])
  }

  /** A match of `[a-z][A-Z]` starting at position `i`. */
  predicate CamelPairAt(s: string, i: int) {
    0 <= i && i + 1 < |s| && IsAsciiLower(s[i]) && IsAsciiUpper(s[i + 1])
  }

  /**
    The second replacement: `Regex.Replace` scans left to right and, after a
    match, resumes behind it; `SplitCamelCaseString` turns the match `xY` into
    `x Y`.
  */
  function {:induction false} SplitCamelCase(s: string): (r: string)
    ensures forall i :: 0 <= i < |r| ==> r[i] == ' ' || r[i] in s
    decreases |s|
  {
    if |s| < 2 then s
    else if CamelPairAt(s, 0) then
      var rest := SplitCamelCase(s[2..]);
      assert forall i :: 0 <= i < |rest| ==> rest[i] == ' ' || rest[i] in s by {
        assert forall c :: c in s[2..] ==> c in s;
      }
      [s[0], ' ', s[1]] + rest
    else
      var rest := SplitCamelCase(s[1..]);
      assert forall i :: 0 <= i < |rest| ==> rest[i] == ' ' || rest[i] in s by {
        assert forall c :: c in s[1..] ==> c in s;
      }
      [s[0]] + rest
  }

  /**
    `Humanize(identifierString)`: `null` gives `""`; otherwise underscores
    become blanks and camel-case boundaries are split; no underscore survives.
  */
  function Humanize(identifierString: Option<string>): (r: string)
    ensures identifierString.None? ==> r == ""
    ensures '_' !in r
  {
    var s := ReplaceUnderscores(identifierString.GetOr(""));
    SplitCamelCase(s)
  }

  /**
    The humanised text described character by character: each character of
    the identifier in turn, an underscore written as a blank, followed by one
    blank exactly where a lower-case ASCII letter meets an upper-case one.
  */
  function Spelled(s: string): string
    decreases |s|
  {
    if |s| == 0 then ""
    else
      [if s[0] == '_' then ' ' else s[0]] + (if CamelPairAt(s, 0) then " " else "") + Spelled(s[1..])
  }

  /** Number of positions where `[a-z][A-Z]` matches, overlapping or not. */
  function CamelPairs(s: string): nat
    decreases |s|
  {
    if |s| == 0 then 0 else (if CamelPairAt(s, 0) then 1 else 0) + CamelPairs(s[1..])
  }

  /** The regex scan agrees with the per-character description: its matches can never overlap. */
  lemma {:induction false} SplitCamelCaseSpelled(s: string)
    requires '_' !in s
    ensures SplitCamelCase(s) == Spelled(s)
    decreases |s|
  {
    if |s| == 0 {
    } else if |s| == 1 {
    } else if CamelPairAt(s, 0) {
      // s[1] is upper case, so no match can start there.
      assert !CamelPairAt(s[1..], 0);
      assert s[1..][1..] == s[2..];
      SplitCamelCaseSpelled(s[2..]);
    } else {
      SplitCamelCaseSpelled(s[1..]);
    }
  }

  /** Replacing underscores neither creates nor destroys a camel-case boundary. */
  lemma {:induction false} UnderscoresKeepCamelPairs(s: string, i: int)
    ensures CamelPairAt(ReplaceUnderscores(s), i) <==> CamelPairAt(s, i)
  {
  }

  /** Spelling the underscore-free text equals spelling the original one. */
  lemma {:induction false} SpelledIgnoresUnderscores(s: string)
    ensures Spelled(ReplaceUnderscores(s)) == Spelled(s)
    decreases |s|
  {
    if |s| > 0 {
      var t := ReplaceUnderscores(s);
      assert t[1..] == ReplaceUnderscores(s[1..]);
      UnderscoresKeepCamelPairs(s, 0);
      SpelledIgnoresUnderscores(s[1..]);
    }
  }

  /**
    `Humanize` of a non-null identifier is its per-character spelling: every
    `_` becomes a blank, one blank is inserted between each lower/upper ASCII
    pair, and no other character changes.
  */
  lemma HumanizeIsSpelled(s: string)
    ensures Humanize(Some(s)) == Spelled(s)
  {
    var t := ReplaceUnderscores(s);
    assert '_' !in t;
    SplitCamelCaseSpelled(t);
    SpelledIgnoresUnderscores(s);
  }

  /** The spelling is one character longer per camel-case boundary. */
  lemma {:induction false} SpelledLength(s: string)
    ensures |Spelled(s)| == |s| + CamelPairs(s)
    decreases |s|
  {
    if |s| > 0 {
      SpelledLength(s[1..]);
    }
  }

  /** `Humanize` lengthens the identifier by exactly the number of camel-case boundaries. */
  lemma HumanizeLength(s: string)
    ensures |Humanize(Some(s))| == |s| + CamelPairs(s)
  {
    HumanizeIsSpelled(s);
    SpelledLength(s);
  }

  /** "aB" becomes "a B" and "a_b" becomes "a b". */
  lemma HumanizeExamples()
    ensures Humanize(Some("aB")) == "a B"
    ensures Humanize(Some("a_b")) == "a b"
  {
    HumanizeIsSpelled("aB");
    HumanizeIsSpelled("a_b");
    assert "aB"[1..] == "B";
    assert "a_b"[1..] == "_b" && "_b"[1..] == "b";
  }
}
