/**
 * The literal matcher: for every line of a file it repeatedly searches for the
 * pattern, restarting one character after the previous hit, and appends one match
 * record per hit.
 */
module Matchers {
  import opened Wrappers
  import opened Match

  /** The matcher's two read-only settings. */
  datatype SimpleMatcher = SimpleMatcher(textToMatch: string, ignoreCase: bool)

  /** The matcher's constructor: a null pattern is refused, anything else is kept as given. */
  function NewSimpleMatcher(textToMatch: Option<string>, ignoreCase: bool): (r: Result<SimpleMatcher, Exception>)
    ensures r.Failure? <==> textToMatch.None?
    ensures r.Failure? ==> r.error == ArgumentNullException("textToMatch")
    ensures r.Success? ==> r.value.textToMatch == textToMatch.value && r.value.ignoreCase == ignoreCase
  {
    match textToMatch
    case None => Failure(ArgumentNullException("textToMatch"))
    case Some(text) => Success(SimpleMatcher(text, ignoreCase))
  }

  // ---------------------------------------------------------------------------
  // Comparison and search

  /** Simple case folding: the 26 upper-case ASCII letters map to lower case. */
  function FoldCase(c: char): char
  {
    if 'A' <= c <= 'Z' then (c as int + 32) as char else c
  }

  predicate CharsEqual(a: char, b: char, ignoreCase: bool)
  {
    if ignoreCase then FoldCase(a) == FoldCase(b) else a == b
  }

  /** `pattern` occurs in `data` starting at the 0-based position `p`. */
  predicate MatchesAt(data: string, pattern: string, p: int, ignoreCase: bool)
  {
    0 <= p && p + |pattern| <= |data| &&
    forall j :: 0 <= j < |pattern| ==> CharsEqual(data[p + j], pattern[j], ignoreCase)
  }

  /** Under ordinal comparison an occurrence is exactly an equal slice. */
  lemma OrdinalMatchesAt(data: string, pattern: string, p: int)
    ensures MatchesAt(data, pattern, p, false) <==>
      0 <= p && p + |pattern| <= |data| && data[p .. p + |pattern|] == pattern
  {
    if 0 <= p && p + |pattern| <= |data| && data[p .. p + |pattern|] == pattern {
      forall j | 0 <= j < |pattern| ensures data[p + j] == pattern[j] {
        assert data[p .. p + |pattern|][j] == data[p + j];
      }
    }
  }

  /**
   * The string search the matcher relies on: the first position at or after `start`
   * where `pattern` occurs, or -1. An empty pattern occurs at `start` itself.
   */
  function IndexOf(data: string, pattern: string, start: int, ignoreCase: bool): (r: int)
    requires 0 <= start <= |data|
    ensures r == -1 || start <= r <= |data|
    ensures r >= 0 ==> MatchesAt(data, pattern, r, ignoreCase)
    decreases |data| - start
  {
    if MatchesAt(data, pattern, start, ignoreCase) then start
    else if start == |data| then -1
    else IndexOf(data, pattern, start + 1, ignoreCase)
  }

  /** The position `IndexOf` returns is the first occurrence: none lies between `start` and it, and none at all after `start` when it is -1. */
  lemma {:induction false} IndexOfFirst(data: string, pattern: string, start: int, ignoreCase: bool)
    requires 0 <= start <= |data|
    ensures var r := IndexOf(data, pattern, start, ignoreCase);
      forall p :: start <= p && (r < 0 || p < r) ==> !MatchesAt(data, pattern, p, ignoreCase)
    decreases |data| - start
  {
    if !MatchesAt(data, pattern, start, ignoreCase) && start < |data| {
      IndexOfFirst(data, pattern, start + 1, ignoreCase);
    }
  }

  // ---------------------------------------------------------------------------
  // What the matcher reports, as functions


  /**
   * The records one line yields once the previous hit was at `last` (-1 before the
   * first search): search from `last + 1`, record a hit, and search again while the hit
   * lies inside the line. This is the loop with its column-0 stop corrected; the loop as
   * written is `AsWrittenLineScan`.
   */
  function LineScan(data: string, pattern: string, ignoreCase: bool, last: int, line: int): seq<GrepMatch>
    requires -1 <= last < |data|
    decreases |data| - last
  {
    var p := IndexOf(data, pattern, last + 1, ignoreCase);
    if p < 0 then []
    else
      var rest := if p < |data| then LineScan(data, pattern, ignoreCase, p, line) else [];
      [GrepMatch(p + 1, line, pattern, data)] + rest
  }

  /** The records for line number `line`, whose text is `data`. */
  function LineMatches(data: string, pattern: string, ignoreCase: bool, line: int): seq<GrepMatch>
  {
    LineScan(data, pattern, ignoreCase, -1, line)
  }

  /** The records for a whole file: each line's records, in line order, numbered from 1. */
  function FileMatches(lines: seq<string>, pattern: string, ignoreCase: bool): seq<GrepMatch>
    decreases |lines|
  {
    if |lines| == 0 then []
    else
      var n := |lines|;
      FileMatches(lines[..n - 1], pattern, ignoreCase) + LineMatches(lines[n - 1], pattern, ignoreCase, n)
  }

  /** The 1-based indices reported by a list of records. */
  function Indices(ms: seq<GrepMatch>): set<int>
  {
    set k | 0 <= k < |ms| :: ms[k].index
  }

  /** The 1-based positions of every occurrence of `pattern` at or after 0-based position `from`. */
  function Occurrences(data: string, pattern: string, ignoreCase: bool, from: int): set<int>
  {
    set p | from <= p <= |data| && MatchesAt(data, pattern, p, ignoreCase) :: p + 1
  }

  /** Every record names `line`, carries the pattern and the whole line, and sits at a real occurrence. */
  predicate RecordsOfLine(ms: seq<GrepMatch>, data: string, pattern: string, ignoreCase: bool, line: int)
  {
    forall m :: m in ms ==>
      m.line == line && m.value == pattern && m.context == data && MatchesAt(data, pattern, m.index - 1, ignoreCase)
  }

  /** Every record of a file names a line of it, carries the pattern and that line, and sits at an occurrence. */
  predicate RecordsOfFile(ms: seq<GrepMatch>, lines: seq<string>, pattern: string, ignoreCase: bool)
  {
    forall m :: m in ms ==>
      1 <= m.line <= |lines| && m.value == pattern && m.context == lines[m.line - 1] &&
      MatchesAt(m.context, pattern, m.index - 1, ignoreCase)
  }

  predicate IncreasingIndices(ms: seq<GrepMatch>)
  {
    forall i, j :: 0 <= i < j < |ms| ==> ms[i].index < ms[j].index
  }

  /** Records come in scan order: by line, then by strictly increasing index. */
  predicate InScanOrder(ms: seq<GrepMatch>)
  {
    forall i, j :: 0 <= i < j < |ms| ==>
      ms[i].line < ms[j].line || (ms[i].line == ms[j].line && ms[i].index < ms[j].index)
  }

  // ---------------------------------------------------------------------------
  // The matcher

  /**
   * Reads `content` line by line and returns every match record. A null content is refused.
   */
  method GetMatches(matcher: SimpleMatcher, content: Option<seq<string>>) returns (r: Result<seq<GrepMatch>, Exception>)
    ensures content.None? ==> r == Failure(ArgumentNullException("content"))
    ensures content.Some? ==> r == Success(FileMatches(content.value, matcher.textToMatch, matcher.ignoreCase))
    ensures content.Some? ==> RecordsOfFile(r.value, content.value, matcher.textToMatch, matcher.ignoreCase)
    ensures content.Some? ==> InScanOrder(r.value)
  {
    if content.None? {
      return Failure(ArgumentNullException("content"));
    }
    var lines := content.value;
    var pattern, ignoreCase := matcher.textToMatch, matcher.ignoreCase;
    var result: seq<GrepMatch> := [];
    var line := 0;
    while line < |lines|
      invariant 0 <= line <= |lines|
      invariant result == FileMatches(lines[..line], pattern, ignoreCase)
    {
      var data := lines[line];
      line := line + 1;
      assert lines[..line][..line - 1] == lines[..line - 1];
      result := AppendLineMatches(result, data, pattern, ignoreCase, line);
    }
    assert lines[..line] == lines;
    FileMatchesRecords(lines, pattern, ignoreCase);
    FileMatchesInScanOrder(lines, pattern, ignoreCase);
    return Success(result);
  }

  /**
   * The scan of one line, numbered `line`: search from one past the previous hit, append a
   * record for each hit, and stop after a miss or a hit at the line's end. The loop as
   * written also stops after a hit at column 0 (`lastMatch > 0`); here it goes on.
   */
  method AppendLineMatches(result: seq<GrepMatch>, data: string, pattern: string, ignoreCase: bool, line: int)
    returns (r: seq<GrepMatch>)
    ensures r == result + LineMatches(data, pattern, ignoreCase, line)
  {
    r := result;
    var lastMatch := -1;
    var more := true;
    ghost var rest := LineScan(data, pattern, ignoreCase, -1, line);
    ghost var total := r + rest;
    while more
      invariant -1 <= lastMatch <= |data|
      invariant more ==> lastMatch < |data| && rest == LineScan(data, pattern, ignoreCase, lastMatch, line)
      invariant !more ==> rest == []
      invariant total == r + rest
      decreases if more then |data| - lastMatch + 1 else 0
    {
      var previous := lastMatch;
      lastMatch := IndexOf(data, pattern, lastMatch + 1, ignoreCase);
      LineScanUnfold(data, pattern, ignoreCase, previous, line, lastMatch);
      if lastMatch >= 0 {
        var hit := GrepMatch(lastMatch + 1, line, pattern, data);
        ghost var next := if lastMatch < |data| then LineScan(data, pattern, ignoreCase, lastMatch, line) else [];
        assert r + ([hit] + next) == (r + [hit]) + next;
        r := r + [hit];
        rest := next;
      }
      more := lastMatch >= 0 && lastMatch < |data|;
    }
  }

  /** One step of the scan: a miss ends it; a hit is recorded, and the scan goes on from it while it is inside the line. */
  lemma LineScanUnfold(data: string, pattern: string, ignoreCase: bool, last: int, line: int, p: int)
    requires -1 <= last < |data|
    requires p == IndexOf(data, pattern, last + 1, ignoreCase)
    ensures LineScan(data, pattern, ignoreCase, last, line) ==
      if p < 0 then []
      else [GrepMatch(p + 1, line, pattern, data)] + if p < |data| then LineScan(data, pattern, ignoreCase, p, line) else []
  {
  }

  // ---------------------------------------------------------------------------
  // Properties of one line

  /** Every record of a line scan names that line, carries the pattern and the line, and sits at an occurrence. */
  lemma {:induction false} LineScanRecords(data: string, pattern: string, ignoreCase: bool, last: int, line: int)
    requires -1 <= last < |data|
    ensures RecordsOfLine(LineScan(data, pattern, ignoreCase, last, line), data, pattern, ignoreCase, line)
    decreases |data| - last
  {
    var p := IndexOf(data, pattern, last + 1, ignoreCase);
    LineScanUnfold(data, pattern, ignoreCase, last, line, p);
    if p >= 0 {
      var rest := if p < |data| then LineScan(data, pattern, ignoreCase, p, line) else [];
      if p < |data| {
        LineScanRecords(data, pattern, ignoreCase, p, line);
      }
      RecordsCons(GrepMatch(p + 1, line, pattern, data), rest, data, pattern, ignoreCase, line);
    }
  }

  /** Within a line the reported indices strictly increase, and all lie after the previous hit. */
  lemma {:induction false} LineScanIncreasing(data: string, pattern: string, ignoreCase: bool, last: int, line: int)
    requires -1 <= last < |data|
    ensures IncreasingIndices(LineScan(data, pattern, ignoreCase, last, line))
    ensures forall m :: m in LineScan(data, pattern, ignoreCase, last, line) ==> last + 1 < m.index
    decreases |data| - last
  {
    var p := IndexOf(data, pattern, last + 1, ignoreCase);
    LineScanUnfold(data, pattern, ignoreCase, last, line, p);
    if p >= 0 {
      var rest := if p < |data| then LineScan(data, pattern, ignoreCase, p, line) else [];
      if p < |data| {
        LineScanIncreasing(data, pattern, ignoreCase, p, line);
      }
      IncreasingCons(GrepMatch(p + 1, line, pattern, data), rest);
    }
  }

  lemma RecordsCons(m: GrepMatch, rest: seq<GrepMatch>, data: string, pattern: string, ignoreCase: bool, line: int)
    requires RecordsOfLine(rest, data, pattern, ignoreCase, line)
    requires m.line == line && m.value == pattern && m.context == data && MatchesAt(data, pattern, m.index - 1, ignoreCase)
    ensures RecordsOfLine([m] + rest, data, pattern, ignoreCase, line)
  {
    forall x | x in [m] + rest
      ensures x.line == line && x.value == pattern && x.context == data && MatchesAt(data, pattern, x.index - 1, ignoreCase)
    {
      if x != m { assert x in rest; }
    }
  }

  lemma IncreasingCons(m: GrepMatch, rest: seq<GrepMatch>)
    requires IncreasingIndices(rest)
    requires forall x :: x in rest ==> m.index < x.index
    ensures IncreasingIndices([m] + rest)
  {
    var ms := [m] + rest;
    forall i, j | 0 <= i < j < |ms| ensures ms[i].index < ms[j].index {
      assert ms[j] == rest[j - 1] && rest[j - 1] in rest;
      if i > 0 {
        assert ms[i] == rest[i - 1];
      }
    }
  }

  /**
   * The scan reports exactly one record per occurrence after the previous hit, overlapping
   * occurrences included, whatever the line starts with.
   */
  lemma {:induction false} LineScanFindsEveryOccurrence(data: string, pattern: string, ignoreCase: bool, last: int, line: int)
    requires -1 <= last < |data|
    ensures Indices(LineScan(data, pattern, ignoreCase, last, line)) == Occurrences(data, pattern, ignoreCase, last + 1)
    decreases |data| - last
  {
    var p := IndexOf(data, pattern, last + 1, ignoreCase);
    LineScanUnfold(data, pattern, ignoreCase, last, line, p);
    OccurrencesFrom(data, pattern, ignoreCase, last + 1, p);
    if p < 0 {
      assert Indices([]) == {};
    } else {
      var rest := if p < |data| then LineScan(data, pattern, ignoreCase, p, line) else [];
      if p < |data| {
        LineScanFindsEveryOccurrence(data, pattern, ignoreCase, p, line);
      } else {
        NoOccurrencesPastEnd(data, pattern, ignoreCase, p + 1);
        assert Indices([]) == {};
      }
      assert Indices(rest) == Occurrences(data, pattern, ignoreCase, p + 1);
      IndicesCons(GrepMatch(p + 1, line, pattern, data), rest);
    }
  }

  /** The occurrences from `from` are the one `IndexOf` finds and those after it, or none when it finds none. */
  lemma OccurrencesFrom(data: string, pattern: string, ignoreCase: bool, from: int, p: int)
    requires 0 <= from <= |data|
    requires p == IndexOf(data, pattern, from, ignoreCase)
    ensures p < 0 ==> Occurrences(data, pattern, ignoreCase, from) == {}
    ensures p >= 0 ==> Occurrences(data, pattern, ignoreCase, from) == {p + 1} + Occurrences(data, pattern, ignoreCase, p + 1)
  {
    IndexOfFirst(data, pattern, from, ignoreCase);
    if p >= 0 {
      OccurrencesSplit(data, pattern, ignoreCase, from, p);
    } else {
      assert Occurrences(data, pattern, ignoreCase, from) == {};
    }
  }

  lemma NoOccurrencesPastEnd(data: string, pattern: string, ignoreCase: bool, from: int)
    requires from > |data|
    ensures Occurrences(data, pattern, ignoreCase, from) == {}
  {
  }

  /** Under ordinal comparison every record's value is the slice of its context at its index. */
  lemma OrdinalRecordsAreAnchored(ms: seq<GrepMatch>, lines: seq<string>, pattern: string)
    requires RecordsOfFile(ms, lines, pattern, false)
    ensures forall m :: m in ms ==> Anchored(m)
    ensures forall m :: m in ms && |pattern| > 0 ==> 1 <= m.index <= |m.context| - |pattern| + 1
  {
    forall m | m in ms ensures Anchored(m) {
      OrdinalMatchesAt(m.context, pattern, m.index - 1);
    }
  }

  /** The first occurrence at or after `from` is `p`: the later ones are those after `p`. */
  lemma OccurrencesSplit(data: string, pattern: string, ignoreCase: bool, from: int, p: int)
    requires 0 <= from <= p
    requires MatchesAt(data, pattern, p, ignoreCase)
    requires forall q :: from <= q < p ==> !MatchesAt(data, pattern, q, ignoreCase)
    ensures Occurrences(data, pattern, ignoreCase, from) == {p + 1} + Occurrences(data, pattern, ignoreCase, p + 1)
  {
  }

  lemma IndicesCons(m: GrepMatch, ms: seq<GrepMatch>)
    ensures Indices([m] + ms) == {m.index} + Indices(ms)
  {
    var all := [m] + ms;
    forall x | x in Indices(all) ensures x in {m.index} + Indices(ms) {
      var k :| 0 <= k < |all| && all[k].index == x;
      if k > 0 { assert ms[k - 1].index == x; }
    }
    forall x | x in Indices(ms) ensures x in Indices(all) {
      var k :| 0 <= k < |ms| && ms[k].index == x;
      assert all[k + 1].index == x;
    }
    assert all[0].index == m.index;
  }

  // ---------------------------------------------------------------------------
  // Properties of a whole file

  /** Every record names a line of the file (counted from 1), carries the pattern and that line, and sits at an occurrence. */
  lemma {:induction false} FileMatchesRecords(lines: seq<string>, pattern: string, ignoreCase: bool)
    ensures RecordsOfFile(FileMatches(lines, pattern, ignoreCase), lines, pattern, ignoreCase)
    decreases |lines|
  {
    if |lines| > 0 {
      var init := lines[..|lines| - 1];
      FileMatchesRecords(init, pattern, ignoreCase);
      LineScanRecords(lines[|lines| - 1], pattern, ignoreCase, -1, |lines|);
      var a := FileMatches(init, pattern, ignoreCase);
      var b := LineMatches(lines[|lines| - 1], pattern, ignoreCase, |lines|);
      assert FileMatches(lines, pattern, ignoreCase) == a + b;
      forall m | m in a
        ensures m.context == lines[m.line - 1]
      {
        assert init[m.line - 1] == lines[m.line - 1];
      }
    }
  }

  /** Records are ordered by line, then by index. */
  lemma {:induction false} FileMatchesInScanOrder(lines: seq<string>, pattern: string, ignoreCase: bool)
    ensures InScanOrder(FileMatches(lines, pattern, ignoreCase))
    decreases |lines|
  {
    if |lines| > 0 {
      var init := lines[..|lines| - 1];
      FileMatchesInScanOrder(init, pattern, ignoreCase);
      FileMatchesLines(init, pattern, ignoreCase);
      LineScanLines(lines[|lines| - 1], pattern, ignoreCase, -1, |lines|);
      LineScanIncreasing(lines[|lines| - 1], pattern, ignoreCase, -1, |lines|);
      var a := FileMatches(init, pattern, ignoreCase);
      var b := LineMatches(lines[|lines| - 1], pattern, ignoreCase, |lines|);
      assert FileMatches(lines, pattern, ignoreCase) == a + b;
      ScanOrderAppend(a, b, |lines|);
    }
  }

  /**
   * Appending the records of line `n`, in increasing index order, to records that all name
   * earlier lines keeps scan order.
   */
  lemma ScanOrderAppend(a: seq<GrepMatch>, b: seq<GrepMatch>, n: int)
    requires InScanOrder(a) && IncreasingIndices(b)
    requires forall m :: m in a ==> m.line < n
    requires forall m :: m in b ==> m.line == n
    ensures InScanOrder(a + b)
  {
    var all := a + b;
    forall i, j | 0 <= i < j < |all|
      ensures all[i].line < all[j].line || (all[i].line == all[j].line && all[i].index < all[j].index)
    {
      if j < |a| {
        assert all[i] == a[i] && all[j] == a[j];
      } else if i < |a| {
        CrossOrder(a, b, n, i, j - |a|);
        assert all[i] == a[i] && all[j] == b[j - |a|];
      } else {
        assert all[i] == b[i - |a|] && all[j] == b[j - |a|];
      }
    }
  }

  lemma CrossOrder(a: seq<GrepMatch>, b: seq<GrepMatch>, n: int, i: int, k: int)
    requires 0 <= i < |a| && 0 <= k < |b|
    requires forall m :: m in a ==> m.line < n
    requires forall m :: m in b ==> m.line == n
    ensures a[i].line < b[k].line
  {
    assert a[i] in a && b[k] in b;
  }

  /** The records a file reports for line `n` are exactly what that line alone reports. */
  lemma {:induction false} FileMatchesOnLine(lines: seq<string>, pattern: string, ignoreCase: bool, n: int)
    requires 1 <= n <= |lines|
    ensures OnLine(FileMatches(lines, pattern, ignoreCase), n) == LineMatches(lines[n - 1], pattern, ignoreCase, n)
    decreases |lines|
  {
    var init := lines[..|lines| - 1];
    var a := FileMatches(init, pattern, ignoreCase);
    var b := LineMatches(lines[|lines| - 1], pattern, ignoreCase, |lines|);
    assert FileMatches(lines, pattern, ignoreCase) == a + b;
    OnLineAppend(a, b, n);
    LineScanLines(lines[|lines| - 1], pattern, ignoreCase, -1, |lines|);
    FileMatchesLines(init, pattern, ignoreCase);
    if n == |lines| {
      OnLineNone(a, n);
      OnLineAll(b, n);
    } else {
      FileMatchesOnLine(init, pattern, ignoreCase, n);
      OnLineNone(b, n);
    }
  }

  /** Every record of a line scan names that line. */
  lemma {:induction false} LineScanLines(data: string, pattern: string, ignoreCase: bool, last: int, line: int)
    requires -1 <= last < |data|
    ensures forall m :: m in LineScan(data, pattern, ignoreCase, last, line) ==> m.line == line
    decreases |data| - last
  {
    var p := IndexOf(data, pattern, last + 1, ignoreCase);
    LineScanUnfold(data, pattern, ignoreCase, last, line, p);
    if 0 <= p < |data| {
      LineScanLines(data, pattern, ignoreCase, p, line);
    }
  }

  /** Every record of a file names one of its lines, counted from 1. */
  lemma {:induction false} FileMatchesLines(lines: seq<string>, pattern: string, ignoreCase: bool)
    ensures forall m :: m in FileMatches(lines, pattern, ignoreCase) ==> 1 <= m.line <= |lines|
    decreases |lines|
  {
    if |lines| > 0 {
      FileMatchesLines(lines[..|lines| - 1], pattern, ignoreCase);
      LineScanLines(lines[|lines| - 1], pattern, ignoreCase, -1, |lines|);
    }
  }

  /** One record of a file, taken on its own: it names a line, carries the pattern and that line, and sits at an occurrence. */
  lemma FileMatchRecord(lines: seq<string>, pattern: string, ignoreCase: bool, m: GrepMatch)
    requires m in FileMatches(lines, pattern, ignoreCase)
    ensures 1 <= m.line <= |lines| && m.value == pattern && m.context == lines[m.line - 1]
    ensures MatchesAt(m.context, pattern, m.index - 1, ignoreCase)
  {
    FileMatchesRecords(lines, pattern, ignoreCase);
  }

  /** The records of `ms` that name line `n`, in order. */
  function OnLine(ms: seq<GrepMatch>, n: int): seq<GrepMatch>
  {
    if ms == [] then []
    else OnLine(ms[..|ms| - 1], n) + (if ms[|ms| - 1].line == n then [ms[|ms| - 1]] else [])
  }

  lemma {:induction false} OnLineAppend(a: seq<GrepMatch>, b: seq<GrepMatch>, n: int)
    ensures OnLine(a + b, n) == OnLine(a, n) + OnLine(b, n)
    decreases |b|
  {
    if b != [] {
      assert (a + b)[..|a + b| - 1] == a + b[..|b| - 1];
      OnLineAppend(a, b[..|b| - 1], n);
    } else {
      assert a + b == a;
    }
  }

  lemma {:induction false} OnLineNone(ms: seq<GrepMatch>, n: int)
    requires forall m :: m in ms ==> m.line != n
    ensures OnLine(ms, n) == []
    decreases |ms|
  {
    if ms != [] { OnLineNone(ms[..|ms| - 1], n); }
  }

  lemma {:induction false} OnLineAll(ms: seq<GrepMatch>, n: int)
    requires forall m :: m in ms ==> m.line == n
    ensures OnLine(ms, n) == ms
    decreases |ms|
  {
    if ms != [] { OnLineAll(ms[..|ms| - 1], n); }
  }

  // ---------------------------------------------------------------------------
  // Fixed inputs

  /**
   * Case-sensitive matching never reports a match whose text differs from the pattern
   * only in letter case; case-insensitive matching does.
   */
  lemma CaseSensitivity()
    ensures LineMatches("Text", "text", false, 1) == []
    ensures LineMatches("Text", "text", true, 1) == [GrepMatch(1, 1, "text", "Text")]
  {
    assert !MatchesAt("Text", "text", 0, false) by { assert "Text"[0] != "text"[0]; }
    IndexOfIs("Text", "text", 0, false, -1);
    assert MatchesAt("Text", "text", 0, true) by {
      assert FoldCase('T') == 't';
    }
    IndexOfIs("Text", "text", 0, true, 0);
    IndexOfIs("Text", "text", 1, true, -1);
    assert LineScan("Text", "text", true, 0, 1) == [];
  }

  /** The unit test with a single match: "text" in "Simple test text content." is found once, at 13. */
  lemma SimpleMatchScenario()
    ensures var ms := LineMatches("Simple test text content.", "text", false, 1);
      |ms| == 1 && ms[0].index == 13
  {
    TextOccurrences();
    SingleOccurrenceScan("Simple test text content.", "text", 12);
  }

  /** The unit test with no match: "Not present" never occurs in "Simple test text content.". */
  lemma SimpleNoMatchScenario()
    ensures LineMatches("Simple test text content.", "Not present", false, 1) == []
  {
    var s := "Simple test text content.";
    forall q | 0 <= q <= |s| ensures !MatchesAt(s, "Not present", q, false) {
      FirstCharOfOccurrence(s, "Not present", q, false);
    }
    IndexOfIs(s, "Not present", 0, false, -1);
  }

  /** The unit test with several matches: "te" in "Simple test text content." is found at 8, 13 and 21. */
  lemma MultipleSimpleMatchScenario()
    ensures var ms := LineMatches("Simple test text content.", "te", false, 1);
      |ms| == 3 && ms[0].index == 8 && ms[1].index == 13 && ms[2].index == 21
  {
    TeOccurrences();
    ThreeOccurrencesScan("Simple test text content.", "te", 7, 12, 20);
  }

  /**
   * None of the unit tests' lines starts with its pattern, so on all three the loop as
   * written reports the same records as the corrected one.
   */
  lemma UnitTestsCannotSeeColumnZero()
    ensures AsWrittenLineMatches("Simple test text content.", "text", false, 1) ==
      LineMatches("Simple test text content.", "text", false, 1)
    ensures AsWrittenLineMatches("Simple test text content.", "Not present", false, 1) ==
      LineMatches("Simple test text content.", "Not present", false, 1)
    ensures AsWrittenLineMatches("Simple test text content.", "te", false, 1) ==
      LineMatches("Simple test text content.", "te", false, 1)
  {
    var s := "Simple test text content.";
    FirstCharOfOccurrence(s, "text", 0, false);
    FirstCharOfOccurrence(s, "Not present", 0, false);
    FirstCharOfOccurrence(s, "te", 0, false);
    AsWrittenAgreesOffColumnZero(s, "text", false, 1);
    AsWrittenAgreesOffColumnZero(s, "Not present", false, 1);
    AsWrittenAgreesOffColumnZero(s, "te", false, 1);
  }

  lemma SingleOccurrenceScan(s: string, pattern: string, a: int)
    requires 0 <= a < |s|
    requires forall q :: MatchesAt(s, pattern, q, false) <==> q == a
    ensures LineMatches(s, pattern, false, 1) == [GrepMatch(a + 1, 1, pattern, s)]
  {
    IndexOfIs(s, pattern, a + 1, false, -1);
    assert LineScan(s, pattern, false, a, 1) == [];
    LineScanNext(s, pattern, false, -1, 1, a);
  }

  lemma ThreeOccurrencesScan(s: string, pattern: string, a: int, b: int, c: int)
    requires 0 <= a < b < c < |s|
    requires forall q :: MatchesAt(s, pattern, q, false) <==> q == a || q == b || q == c
    ensures LineMatches(s, pattern, false, 1) ==
      [GrepMatch(a + 1, 1, pattern, s), GrepMatch(b + 1, 1, pattern, s), GrepMatch(c + 1, 1, pattern, s)]
  {
    IndexOfIs(s, pattern, c + 1, false, -1);
    assert LineScan(s, pattern, false, c, 1) == [];
    LineScanNext(s, pattern, false, b, 1, c);
    LineScanNext(s, pattern, false, a, 1, b);
    LineScanNext(s, pattern, false, -1, 1, a);
  }

  /** A hit at `p`, inside the line and the first after `last`, is recorded and the scan goes on from it. */
  lemma LineScanNext(data: string, pattern: string, ignoreCase: bool, last: int, line: int, p: int)
    requires -1 <= last < p < |data|
    requires MatchesAt(data, pattern, p, ignoreCase)
    requires forall q :: last + 1 <= q < p ==> !MatchesAt(data, pattern, q, ignoreCase)
    ensures LineScan(data, pattern, ignoreCase, last, line) ==
      [GrepMatch(p + 1, line, pattern, data)] + LineScan(data, pattern, ignoreCase, p, line)
  {
    IndexOfIs(data, pattern, last + 1, ignoreCase, p);
    LineScanStep(data, pattern, ignoreCase, last, line, p);
  }

  lemma LineScanStep(data: string, pattern: string, ignoreCase: bool, last: int, line: int, p: int)
    requires -1 <= last < p < |data|
    requires IndexOf(data, pattern, last + 1, ignoreCase) == p
    ensures LineScan(data, pattern, ignoreCase, last, line) ==
      [GrepMatch(p + 1, line, pattern, data)] + LineScan(data, pattern, ignoreCase, p, line)
  {
    LineScanUnfold(data, pattern, ignoreCase, last, line, p);
  }

  lemma TeOccurrences()
    ensures forall q :: MatchesAt("Simple test text content.", "te", q, false) <==> q == 7 || q == 12 || q == 20
  {
    var s := "Simple test text content.";
    forall q | MatchesAt(s, "te", q, false) ensures q == 7 || q == 12 || q == 20 {
      assert CharsEqual(s[q + 0], "te"[0], false) && CharsEqual(s[q + 1], "te"[1], false);
    }
    assert MatchesAt(s, "te", 7, false) && MatchesAt(s, "te", 12, false) && MatchesAt(s, "te", 20, false);
  }

  lemma TextOccurrences()
    ensures forall q :: MatchesAt("Simple test text content.", "text", q, false) <==> q == 12
  {
    var s := "Simple test text content.";
    forall q | MatchesAt(s, "text", q, false) ensures q == 12 {
      assert CharsEqual(s[q + 0], "text"[0], false) && CharsEqual(s[q + 1], "text"[1], false);
      assert CharsEqual(s[q + 2], "text"[2], false);
    }
    assert MatchesAt(s, "text", 12, false);
  }

  lemma FirstCharOfOccurrence(data: string, pattern: string, q: int, ignoreCase: bool)
    requires |pattern| > 0
    ensures MatchesAt(data, pattern, q, ignoreCase) ==> CharsEqual(data[q], pattern[0], ignoreCase)
  {
    if MatchesAt(data, pattern, q, ignoreCase) {
      assert CharsEqual(data[q + 0], pattern[0], ignoreCase);
    }
  }

  /** `IndexOf` is determined by where the pattern occurs: `r` is the first occurrence from `start`, or -1 for none. */
  lemma IndexOfIs(data: string, pattern: string, start: int, ignoreCase: bool, r: int)
    requires 0 <= start <= |data|
    requires r == -1 || (start <= r && MatchesAt(data, pattern, r, ignoreCase))
    requires forall q :: start <= q && (r < 0 || q < r) ==> !MatchesAt(data, pattern, q, ignoreCase)
    ensures IndexOf(data, pattern, start, ignoreCase) == r
  {
    IndexOfFirst(data, pattern, start, ignoreCase);
  }

  // ---------------------------------------------------------------------------
  // The column-0 stop, as written

  /**
   * The per-line loop exactly as written: it searches again only while the hit is
   * strictly after column 0 and inside the line, so a hit at column 0 ends the line.
   */
  function AsWrittenLineScan(data: string, pattern: string, ignoreCase: bool, last: int, line: int): (r: seq<GrepMatch>)
    requires -1 <= last < |data|
    ensures r <= LineScan(data, pattern, ignoreCase, last, line)
    decreases |data| - last
  {
    var p := IndexOf(data, pattern, last + 1, ignoreCase);
    LineScanUnfold(data, pattern, ignoreCase, last, line, p);
    if p < 0 then []
    else
      var rest := if 0 < p < |data| then AsWrittenLineScan(data, pattern, ignoreCase, p, line) else [];
      [GrepMatch(p + 1, line, pattern, data)] + rest
  }

  function AsWrittenLineMatches(data: string, pattern: string, ignoreCase: bool, line: int): seq<GrepMatch>
  {
    AsWrittenLineScan(data, pattern, ignoreCase, -1, line)
  }

  /** Once a hit lies past column 0, the loop as written and the corrected loop go on identically. */
  lemma {:induction false} AsWrittenAgreesAfterColumnZero(data: string, pattern: string, ignoreCase: bool, last: int, line: int)
    requires 0 <= last < |data|
    ensures AsWrittenLineScan(data, pattern, ignoreCase, last, line) == LineScan(data, pattern, ignoreCase, last, line)
    decreases |data| - last
  {
    var p := IndexOf(data, pattern, last + 1, ignoreCase);
    if 0 <= p < |data| {
      AsWrittenAgreesAfterColumnZero(data, pattern, ignoreCase, p, line);
    }
  }

  /**
   * What the loop as written reports for one line: a line that starts with the pattern
   * yields the single record at index 1 and nothing more; any other line yields exactly
   * what the corrected loop yields.
   */
  lemma AsWrittenAgreesOffColumnZero(data: string, pattern: string, ignoreCase: bool, line: int)
    ensures MatchesAt(data, pattern, 0, ignoreCase) ==>
      AsWrittenLineMatches(data, pattern, ignoreCase, line) == [GrepMatch(1, line, pattern, data)]
    ensures !MatchesAt(data, pattern, 0, ignoreCase) ==>
      AsWrittenLineMatches(data, pattern, ignoreCase, line) == LineMatches(data, pattern, ignoreCase, line)
  {
    var p := IndexOf(data, pattern, 0, ignoreCase);
    if 0 < p < |data| {
      AsWrittenAgreesAfterColumnZero(data, pattern, ignoreCase, p, line);
    }
  }

  /**
   * A line that starts with the pattern hides every later occurrence: in "te te" the
   * pattern "te" occurs at 1 and at 4, yet the loop as written reports only 1, while the
   * corrected loop reports both.
   */
  lemma ColumnZeroHidesLaterMatches()
    ensures AsWrittenLineMatches("te te", "te", false, 1) == [GrepMatch(1, 1, "te", "te te")]
    ensures Occurrences("te te", "te", false, 0) == {1, 4}
    ensures Indices(LineMatches("te te", "te", false, 1)) == {1, 4}
  {
    TwoOccurrencesInTeTe();
    ColumnZeroThenLater("te te", "te", 3);
  }

  /** A line whose pattern occurs at column 0 and once more, at `b`: the loop as written reports only the first. */
  lemma ColumnZeroThenLater(s: string, pattern: string, b: int)
    requires 0 < b < |s|
    requires forall q :: MatchesAt(s, pattern, q, false) <==> q == 0 || q == b
    ensures AsWrittenLineMatches(s, pattern, false, 1) == [GrepMatch(1, 1, pattern, s)]
    ensures Occurrences(s, pattern, false, 0) == {1, b + 1}
    ensures Indices(LineMatches(s, pattern, false, 1)) == {1, b + 1}
  {
    AsWrittenAgreesOffColumnZero(s, pattern, false, 1);
    OccurrencesOfTwo(s, pattern, 0, b);
    LineScanFindsEveryOccurrence(s, pattern, false, -1, 1);
  }

  lemma TwoOccurrencesInTeTe()
    ensures forall q :: MatchesAt("te te", "te", q, false) <==> q == 0 || q == 3
  {
    var s := "te te";
    forall q | MatchesAt(s, "te", q, false) ensures q == 0 || q == 3 {
      assert CharsEqual(s[q + 0], "te"[0], false) && CharsEqual(s[q + 1], "te"[1], false);
    }
    assert MatchesAt(s, "te", 0, false) && MatchesAt(s, "te", 3, false);
  }

  lemma OccurrencesOfTwo(s: string, pattern: string, a: int, b: int)
    requires 0 <= a < b <= |s|
    requires forall q :: MatchesAt(s, pattern, q, false) <==> q == a || q == b
    ensures Occurrences(s, pattern, false, 0) == {a + 1, b + 1}
  {
    var occ := Occurrences(s, pattern, false, 0);
    assert MatchesAt(s, pattern, a, false) && MatchesAt(s, pattern, b, false);
    assert a + 1 in occ && b + 1 in occ;
    forall x | x in occ ensures x == a + 1 || x == b + 1 {
      var q :| 0 <= q <= |s| && MatchesAt(s, pattern, q, false) && x == q + 1;
    }
  }
}
