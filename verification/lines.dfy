/**
  `ToLines` and `Indent` from `Extensions.Strings.cs`. `ToLines` is
  `Regex.Split` with the pattern `\r\n|\r|\n`: the regex engine tries the
  alternatives left to right at every position, so a carriage return followed
  by a line feed is one separator, and the separators themselves are dropped.
*/
module Lines {
  import opened Wrappers
  import opened Primitives

  predicate IsBreak(c: char) { c == '\r' || c == '\n' }

  /** A piece of text without carriage returns or line feeds. */
  predicate NoBreaks(s: string) {
    forall i :: 0 <= i < |s| ==> !IsBreak(s[i])
  }

  /** The strings the separator pattern matches. */
  predicate IsSeparator(sep: string) {
    sep == "\r\n" || sep == "\r" || sep == "\n"
  }

  /** The pieces `Regex.Split` returns together with the separators it matched between them. */
  datatype Split = Split(lines: seq<string>, separators: seq<string>)

  /** `lines[0] + separators[0] + lines[1] + … + lines[n]`. */
  function Join(lines: seq<string>, separators: seq<string>): string
    requires |lines| == |separators| + 1
    decreases |separators|
  {
    if |separators| == 0 then lines[0]
    else lines[0] + separators[0] + Join(lines[1..], separators[1..])
  }

  /**
    A decomposition of `s` that the regex split could produce: the pieces hold
    no breaks, the separators are matches of the pattern, joining gives `s`
    back, and a lone `"\r"` is never directly followed by `"\n"` (the regex
    would have matched `"\r\n"` there instead).
  */
  ghost predicate IsLineSplit(s: string, p: Split) {
    && |p.lines| == |p.separators| + 1
    && (forall k :: 0 <= k < |p.lines| ==> NoBreaks(p.lines[k]))
    && (forall k :: 0 <= k < |p.separators| ==> IsSeparator(p.separators[k]))
    && Join(p.lines, p.separators) == s
    && (forall k :: 0 < k < |p.separators| && p.separators[k - 1] == "\r" && p.lines[k] == "" ==>
          p.separators[k] != "\n")
  }

  /** The left-to-right scan `Regex.Split` performs. */
  function {:induction false} SplitAtBreaks(s: string): (p: Split)
    ensures |p.lines| == |p.separators| + 1
    ensures forall k :: 0 <= k < |p.lines| ==> NoBreaks(p.lines[k])
    ensures forall k :: 0 <= k < |p.separators| ==> IsSeparator(p.separators[k])
    decreases |s|
  {
    if |s| == 0 then Split([""], [])
    else if s[0] == '\n' then
      var rest := SplitAtBreaks(s[1..]);
      Split([""] + rest.lines, ["\n"] + rest.separators)
    else if s[0] == '\r' && |s| > 1 && s[1] == '\n' then
      var rest := SplitAtBreaks(s[2..]);
      Split([""] + rest.lines, ["\r\n"] + rest.separators)
    else if s[0] == '\r' then
      var rest := SplitAtBreaks(s[1..]);
      Split([""] + rest.lines, ["\r"] + rest.separators)
    else
      var rest := SplitAtBreaks(s[1..]);
      assert forall i :: 0 < i < |[s[0]] + rest.lines[0]| ==> ([s[0]] + rest.lines[0])[i] == rest.lines[0][i - 1];
      Split([[s[0]] + rest.lines[0]] + rest.lines[1..], rest.separators)
  }

  /**
    `ToLines(text)`: `null` gives no lines; otherwise at least one line, none
    holding a break character.
  */
  function ToLines(text: Option<string>): (r: seq<string>)
    ensures text.None? <==> |r| == 0
    ensures forall k :: 0 <= k < |r| ==> NoBreaks(r[k])
  {
    match text
    case None => []
    case Some(t) => SplitAtBreaks(t).lines
  }

  /** Splitting `""` gives one empty line. */
  lemma EmptyTextIsOneLine()
    ensures ToLines(Some("")) == [""]
  {
  }

  /** Prepending a separator to a join. */
  lemma JoinCons(line: string, sep: string, lines: seq<string>, seps: seq<string>)
    requires |lines| == |seps| + 1
    ensures Join([line] + lines, [sep] + seps) == line + sep + Join(lines, seps)
  {
    assert ([line] + lines)[1..] == lines;
    assert ([sep] + seps)[1..] == seps;
  }

  /** Prepending a character to the first line of a join. */
  lemma JoinConsChar(c: char, lines: seq<string>, seps: seq<string>)
    requires |lines| == |seps| + 1
    ensures Join([[c] + lines[0]] + lines[1..], seps) == [c] + Join(lines, seps)
  {
    var lines' := [[c] + lines[0]] + lines[1..];
    if |seps| > 0 {
      assert lines'[1..] == lines[1..];
    }
  }

  /** Re-joining the pieces with the separators that were matched reproduces the text. */
  lemma {:induction false} SplitJoinRoundTrip(s: string)
    ensures Join(SplitAtBreaks(s).lines, SplitAtBreaks(s).separators) == s
    decreases |s|
  {
    var p := SplitAtBreaks(s);
    if |s| == 0 {
    } else if s[0] == '\n' {
      var rest := SplitAtBreaks(s[1..]);
      SplitJoinRoundTrip(s[1..]);
      JoinCons("", "\n", rest.lines, rest.separators);
      assert s == "\n" + s[1..];
    } else if s[0] == '\r' && |s| > 1 && s[1] == '\n' {
      var rest := SplitAtBreaks(s[2..]);
      SplitJoinRoundTrip(s[2..]);
      JoinCons("", "\r\n", rest.lines, rest.separators);
      assert s == "\r\n" + s[2..];
    } else if s[0] == '\r' {
      var rest := SplitAtBreaks(s[1..]);
      SplitJoinRoundTrip(s[1..]);
      JoinCons("", "\r", rest.lines, rest.separators);
      assert s == "\r" + s[1..];
    } else {
      var rest := SplitAtBreaks(s[1..]);
      SplitJoinRoundTrip(s[1..]);
      JoinConsChar(s[0], rest.lines, rest.separators);
      assert s == [s[0]] + s[1..];
    }
  }

  /** The split the scan produces is a regex split of the text. */
  lemma {:induction false} SplitIsLineSplit(s: string)
    ensures IsLineSplit(s, SplitAtBreaks(s))
    decreases |s|
  {
    SplitJoinRoundTrip(s);
    var p := SplitAtBreaks(s);
    if |s| == 0 {
    } else if s[0] == '\n' {
      SplitIsLineSplit(s[1..]);
    } else if s[0] == '\r' && |s| > 1 && s[1] == '\n' {
      SplitIsLineSplit(s[2..]);
    } else if s[0] == '\r' {
      var rest := SplitAtBreaks(s[1..]);
      SplitIsLineSplit(s[1..]);
      SplitJoinRoundTrip(s[1..]);
      if |rest.separators| > 0 && rest.lines[0] == "" {
        assert s[1..] == rest.separators[0] + Join(rest.lines[1..], rest.separators[1..]);
        assert rest.separators[0] != "\n";
      }
    } else {
      SplitIsLineSplit(s[1..]);
    }
  }

  /** A text without breaks is a single line. */
  lemma {:induction false} NoBreaksIsOneLine(s: string)
    requires NoBreaks(s)
    ensures SplitAtBreaks(s) == Split([s], [])
    decreases |s|
  {
    if |s| > 0 {
      NoBreaksIsOneLine(s[1..]);
      assert [s[0]] + s[1..] == s;
    }
  }

  /** Peeling the first character off a non-empty first line keeps a regex split. */
  lemma PeelFirstChar(s: string, p: Split)
    requires IsLineSplit(s, p) && |p.lines[0]| > 0
    ensures |s| > 0 && s[0] == p.lines[0][0] && !IsBreak(s[0])
    ensures IsLineSplit(s[1..], Split([p.lines[0][1..]] + p.lines[1..], p.separators))
  {
    var L, S := p.lines, p.separators;
    var head := L[0][1..];
    var L' := [head] + L[1..];
    assert L'[1..] == L[1..];
    assert [L[0][0]] + head == L[0];
    assert [[L[0][0]] + L'[0]] + L'[1..] == L;
    JoinConsChar(L[0][0], L', S);
    assert s == [L[0][0]] + Join(L', S);
    assert NoBreaks(head) by {
      forall i | 0 <= i < |head| ensures !IsBreak(head[i]) {
        assert head[i] == L[0][i + 1];
      }
    }
    assert forall k :: 0 < k < |L'| ==> L'[k] == L[k];
  }

  /** Peeling an empty first line and its separator keeps a regex split of the remainder. */
  lemma PeelSeparator(s: string, p: Split)
    requires IsLineSplit(s, p) && |p.separators| > 0 && p.lines[0] == ""
    ensures s == p.separators[0] + Join(p.lines[1..], p.separators[1..])
    ensures IsLineSplit(Join(p.lines[1..], p.separators[1..]), Split(p.lines[1..], p.separators[1..]))
    ensures p.separators[0] == "\r" ==>
              var tail := Join(p.lines[1..], p.separators[1..]);
              |tail| == 0 || tail[0] != '\n'
  {
    var L, S := p.lines, p.separators;
    var tail := Join(L[1..], S[1..]);
    var P' := Split(L[1..], S[1..]);
    assert forall k :: 0 <= k < |P'.lines| ==> P'.lines[k] == L[k + 1];
    assert forall k :: 0 <= k < |P'.separators| ==> P'.separators[k] == S[k + 1];
    if S[0] == "\r" && |tail| > 0 {
      if |L[1]| > 0 {
        assert tail[0] == L[1][0];
      } else {
        assert |S| > 1;
        assert tail == S[1] + Join(L[2..], S[2..]);
        assert S[1] != "\n";
        assert tail[0] == S[1][0];
      }
    }
  }

  /**
    The regex split is the only decomposition with those properties: any
    `IsLineSplit` of `s` is the one the scan produces.
  */
  lemma {:induction false} LineSplitIsUnique(s: string, p: Split)
    requires IsLineSplit(s, p)
    ensures SplitAtBreaks(s) == p
    decreases |s|
  {
    var L, S := p.lines, p.separators;
    if |S| == 0 {
      NoBreaksIsOneLine(s);
    } else if |L[0]| > 0 {
      PeelFirstChar(s, p);
      var p' := Split([L[0][1..]] + L[1..], S);
      LineSplitIsUnique(s[1..], p');
      assert [s[0]] + p'.lines[0] == L[0];
      assert p'.lines[1..] == L[1..];
      assert [L[0]] + L[1..] == L;
    } else {
      PeelSeparator(s, p);
      var tail := Join(L[1..], S[1..]);
      LineSplitIsUnique(tail, Split(L[1..], S[1..]));
      assert L == [""] + L[1..];
      assert S == [S[0]] + S[1..];
      if S[0] == "\n" {
        assert s[1..] == tail;
      } else if S[0] == "\r\n" {
        assert s[2..] == tail;
      } else {
        assert s[1..] == tail;
      }
    }
  }

  /** Line ends counted character by character: every `\n`, and every `\r` not followed by `\n`. */
  function LineEnds(s: string): nat
    decreases |s|
  {
    if |s| == 0 then 0
    else
      var ends := s[0] == '\n' || (s[0] == '\r' && (|s| == 1 || s[1] != '\n'));
      (if ends then 1 else 0) + LineEnds(s[1..])
  }

  /** There is one more line than there are line ends; so `""` is one line. */
  lemma {:induction false} LineCount(s: string)
    ensures |ToLines(Some(s))| == LineEnds(s) + 1
    decreases |s|
  {
    if |s| == 0 {
    } else if s[0] == '\n' {
      LineCount(s[1..]);
    } else if s[0] == '\r' && |s| > 1 && s[1] == '\n' {
      LineCount(s[2..]);
      assert s[1..][1..] == s[2..];
    } else {
      LineCount(s[1..]);
    }
  }

  // ---------------------------------------------------------------------------
  // Indent
  // ---------------------------------------------------------------------------

  /** The text with trailing white space removed (`String.TrimEnd()`). */
  function TrimEnd(s: string): (r: string)
    ensures |r| <= |s| && r == s[..|r|]
    ensures forall i :: |r| <= i < |s| ==> IsWhiteSpace(s[i])
    ensures |r| == 0 || !IsWhiteSpace(r[|r| - 1])
    decreases |s|
  {
    if |s| == 0 || !IsWhiteSpace(s[|s| - 1]) then s
    else TrimEnd(s[..|s| - 1])
  }

  /** What the `StringBuilder` of `Indent` holds: each line after the indent, each followed by a new line. */
  function IndentedBlock(lines: seq<string>, indent: string, newLine: string): string
    decreases |lines|
  {
    if |lines| == 0 then ""
    else indent + lines[0] + newLine + IndentedBlock(lines[1..], indent, newLine)
  }

  /** Each line with the indent in front of it. */
  function Prefixed(lines: seq<string>, indent: string): (r: seq<string>)
    ensures |r| == |lines|
    ensures forall k :: 0 <= k < |r| ==> r[k] == indent + lines[k]
    decreases |lines|
  {
    if |lines| == 0 then [] else [indent + lines[0]] + Prefixed(lines[1..], indent)
  }

  /**
    `Indent(text, spaces)` with `Environment.NewLine` as `newLine`. `null`
    counts as `""`; a non-positive count returns the text unchanged; otherwise
    the indented block of the text's lines, trailing white space trimmed.
  */
  function Indent(text: Option<string>, spaces: int, newLine: string): (r: string)
    ensures spaces <= 0 ==> r == text.GetOr("")
    ensures spaces > 0 ==>
              var block := IndentedBlock(ToLines(Some(text.GetOr(""))), Repeat(' ', spaces), newLine);
              && |r| <= |block| && r == block[..|r|]
              && (forall i :: |r| <= i < |block| ==> IsWhiteSpace(block[i]))
              && (|r| == 0 || !IsWhiteSpace(r[|r| - 1]))
  {
    var t := text.GetOr("");
    if spaces <= 0 then t
    else
      var lines := ToLines(Some(t));
      TrimEnd(IndentedBlock(lines, Repeat(' ', spaces), newLine))
  }

  /**
    Splitting `a + sep + b`, where `a` holds no breaks and a lone `"\r"` is not
    followed by `'\n'`, gives `a` as the first line and then the lines of `b`.
  */
  lemma SplitAfterLine(a: string, sep: string, b: string)
    requires NoBreaks(a) && IsSeparator(sep)
    requires sep == "\r" ==> |b| == 0 || b[0] != '\n'
    ensures SplitAtBreaks(a + sep + b) ==
              Split([a] + SplitAtBreaks(b).lines, [sep] + SplitAtBreaks(b).separators)
  {
    var q := SplitAtBreaks(b);
    SplitIsLineSplit(b);
    var p := Split([a] + q.lines, [sep] + q.separators);
    JoinCons(a, sep, q.lines, q.separators);
    assert forall k :: 0 < k < |p.lines| ==> p.lines[k] == q.lines[k - 1];
    assert forall k :: 0 < k < |p.separators| ==> p.separators[k] == q.separators[k - 1];
    if sep == "\r" && |q.separators| > 0 && q.lines[0] == "" {
      assert b == q.separators[0] + Join(q.lines[1..], q.separators[1..]);
    }
    assert IsLineSplit(a + sep + b, p);
    LineSplitIsUnique(a + sep + b, p);
  }

  /**
    With a positive indent and a line-break new line, the untrimmed block of
    `Indent` splits back into the indented lines followed by one empty line.
  */
  lemma {:induction false} IndentedBlockSplitsBack(lines: seq<string>, spaces: nat, newLine: string)
    requires spaces > 0 && IsSeparator(newLine)
    requires forall k :: 0 <= k < |lines| ==> NoBreaks(lines[k])
    ensures ToLines(Some(IndentedBlock(lines, Repeat(' ', spaces), newLine))) ==
              Prefixed(lines, Repeat(' ', spaces)) + [""]
    decreases |lines|
  {
    var indent := Repeat(' ', spaces);
    if |lines| > 0 {
      var rest := IndentedBlock(lines[1..], indent, newLine);
      IndentedBlockSplitsBack(lines[1..], spaces, newLine);
      var first := indent + lines[0];
      assert NoBreaks(first) by {
        forall i | 0 <= i < |first| ensures !IsBreak(first[i]) {
          if i >= |indent| { assert first[i] == lines[0][i - |indent|]; }
        }
      }
      if |rest| > 0 {
        assert rest[0] == indent[0];
      }
      SplitAfterLine(first, newLine, rest);
      assert IndentedBlock(lines, indent, newLine) == first + newLine + rest;
      assert Prefixed(lines, indent) == [first] + Prefixed(lines[1..], indent);
    }
  }
}
