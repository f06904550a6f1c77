/**
 * The default match formatter: splits a match's line into the text before the match
 * (leading whitespace removed), the match itself, and the text after it (trailing
 * whitespace removed), each with its console colour.
 */
module Formatters {
  import opened Wrappers
  import opened Match
  import Matchers

  /** The sixteen console colours, in the platform's order. */
  datatype ConsoleColor =
    | Black | DarkBlue | DarkGreen | DarkCyan | DarkRed | DarkMagenta | DarkYellow | Gray
    | DarkGray | Blue | Green | Cyan | Red | Magenta | Yellow | White

  /** A span of text with its colour. */
  datatype FormattedSpan = FormattedSpan(text: string, colour: ConsoleColor)

  /** A match together with the spans it is rendered as. */
  datatype FormattedMatch = FormattedMatch(grepMatch: GrepMatch, spans: seq<FormattedSpan>)

  /** The characters the platform classes as white space (the Unicode White_Space set). */
  predicate IsWhiteSpace(c: char)
  {
    ('\U{0009}' <= c <= '\U{000D}') || c == ' ' || c == '\U{0085}' || c == '\U{00A0}' || c == '\U{1680}' ||
    ('\U{2000}' <= c <= '\U{200A}') || c == '\U{2028}' || c == '\U{2029}' || c == '\U{202F}' || c == '\U{205F}' ||
    c == '\U{3000}'
  }

  predicate AllWhiteSpace(s: string)
  {
    forall i :: 0 <= i < |s| ==> IsWhiteSpace(s[i])
  }

  /** `s` with its leading white space removed: what is dropped is all white space, and what is kept does not start with any. */
  function TrimStart(s: string): (r: string)
    ensures |r| <= |s| && r == s[|s| - |r|..]
    ensures AllWhiteSpace(s[..|s| - |r|])
    ensures r == [] || !IsWhiteSpace(r[0])
    decreases |s|
  {
    if |s| > 0 && IsWhiteSpace(s[0]) then
      var r := TrimStart(s[1..]);
      assert s[1..][..|s| - 1 - |r|] == s[1..|s| - |r|];
      r
    else s
  }

  /** `s` with its trailing white space removed: what is dropped is all white space, and what is kept does not end with any. */
  function TrimEnd(s: string): (r: string)
    ensures |r| <= |s| && r == s[..|r|]
    ensures AllWhiteSpace(s[|r|..])
    ensures r == [] || !IsWhiteSpace(r[|r| - 1])
    decreases |s|
  {
    if |s| > 0 && IsWhiteSpace(s[|s| - 1]) then
      var r := TrimEnd(s[..|s| - 1]);
      assert s[..|s| - 1][|r|..] == s[|r|..|s| - 1] && s[..|s| - 1][..|r|] == s[..|r|];
      assert s[|r|..] == s[|r|..|s| - 1] + [s[|s| - 1]];
      r
    else s
  }

  /** The text before the match: the context up to the match's 1-based index. */
  function PreMatch(m: GrepMatch): string
    requires 1 <= m.index <= |m.context| + 1
  {
    m.context[..m.index - 1]
  }

  /** The text after the match: the context from just past the match's value. */
  function PostMatch(m: GrepMatch): string
    requires 0 <= m.index - 1 + |m.value| <= |m.context|
  {
    m.context[m.index - 1 + |m.value|..]
  }

  /**
   * Formats a match as three spans: the trimmed text before it in dark grey, its value
   * in blue, and the trimmed text after it in dark grey. The substring operations fail
   * when the index lies before the line or the value would run past its end.
   */
  function FormatMatch(m: GrepMatch): (r: Result<FormattedMatch, Exception>)
    ensures r.Failure? <==> !(1 <= m.index && m.index - 1 + |m.value| <= |m.context|)
    ensures r.Failure? ==> r.error.ArgumentOutOfRangeException?
    ensures r.Success? ==> r.value.grepMatch == m && |r.value.spans| == 3
    ensures r.Success? ==> r.value.spans[1] == FormattedSpan(m.value, Blue)
    ensures r.Success? ==> r.value.spans[0].colour == DarkGray && r.value.spans[2].colour == DarkGray
    ensures r.Success? ==> r.value.spans[0].text == TrimStart(PreMatch(m))
    ensures r.Success? ==> r.value.spans[2].text == TrimEnd(PostMatch(m))
  {
    if m.index - 1 < 0 || m.index - 1 > |m.context| then
      Failure(ArgumentOutOfRangeException("length"))
    else if m.index - 1 + |m.value| > |m.context| then
      Failure(ArgumentOutOfRangeException("startIndex"))
    else
      var preMatch := TrimStart(PreMatch(m));
      var postMatch := TrimEnd(PostMatch(m));
      Success(FormattedMatch(m, [
        FormattedSpan(preMatch, DarkGray),
        FormattedSpan(m.value, Blue),
        FormattedSpan(postMatch, DarkGray)]))
  }

  /**
   * For a record whose value really sits at its index, the line is the untrimmed text
   * before the match, the value, and the untrimmed text after it; the first span is
   * that text before with only leading white space cut off, and the last span the text
   * after with only trailing white space cut off.
   */
  lemma FormatRebuildsContext(m: GrepMatch)
    requires Anchored(m)
    ensures FormatMatch(m).Success?
    ensures m.context == PreMatch(m) + m.value + PostMatch(m)
    ensures var pre, first := PreMatch(m), FormatMatch(m).value.spans[0].text;
      |first| <= |pre| && pre == pre[..|pre| - |first|] + first && AllWhiteSpace(pre[..|pre| - |first|])
    ensures var post, last := PostMatch(m), FormatMatch(m).value.spans[2].text;
      |last| <= |post| && post == last + post[|last|..] && AllWhiteSpace(post[|last|..])
  {
    var k := m.index - 1 + |m.value|;
    assert m.context == m.context[..m.index - 1] + m.context[m.index - 1..k] + m.context[k..];
    TrimmedPieces(PreMatch(m), PostMatch(m));
  }

  /** Trimming only cuts white space off the outer ends. */
  lemma TrimmedPieces(pre: string, post: string)
    ensures var first := TrimStart(pre);
      pre == pre[..|pre| - |first|] + first && AllWhiteSpace(pre[..|pre| - |first|])
    ensures var last := TrimEnd(post);
      post == last + post[|last|..] && AllWhiteSpace(post[|last|..])
  {
    var first, last := TrimStart(pre), TrimEnd(post);
    assert pre == pre[..|pre| - |first|] + pre[|pre| - |first|..];
    assert post == post[..|last|] + post[|last|..];
  }

  /** Trimming twice removes nothing more than trimming once. */
  lemma TrimIdempotent(s: string)
    ensures TrimStart(TrimStart(s)) == TrimStart(s)
    ensures TrimEnd(TrimEnd(s)) == TrimEnd(s)
  {
  }

  /**
   * Every record the literal matcher reports under ordinal comparison can be formatted,
   * and its spans rebuild the line it was found in.
   */
  lemma LiteralMatchesFormat(lines: seq<string>, pattern: string, m: GrepMatch)
    requires m in Matchers.FileMatches(lines, pattern, false)
    ensures 1 <= m.line <= |lines| && m.context == lines[m.line - 1]
    ensures FormatMatch(m).Success? && FormatMatch(m).value.spans[1].text == pattern
    ensures m.context == PreMatch(m) + pattern + PostMatch(m)
  {
    Matchers.FileMatchRecord(lines, pattern, false, m);
    assert m.value == pattern && Matchers.MatchesAt(m.context, pattern, m.index - 1, false);
    Matchers.OrdinalMatchesAt(m.context, pattern, m.index - 1);
    FormatRebuildsContext(m);
  }
}
