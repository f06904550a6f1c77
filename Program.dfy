/**
 * The console program's search: every enumerated file is either recorded in the result
 * map (with its matches, or with none when it is empty), reported as unopenable, skipped
 * as binary, or ends the run; the summary line then counts the files with matches, the
 * matches and the files searched.
 */
module ConsoleProgram {
  import opened Wrappers
  import opened Match
  import opened Streams
  import opened ConsoleFileProvider
  import Matchers

  /** What mapping a file into memory does. */
  datatype OpenBehaviour =
    | Opens
      /** An I/O error: reported on the console, and the file is left out of the results. */
    | IoFailure(message: string)
      /** An access error: not an I/O error, so nothing catches it and the run ends. */
    | AccessDenied(message: string)

  /** A file on disk: its bytes, and what opening it does. */
  datatype DiskFile = DiskFile(bytes: seq<byte>, open: OpenBehaviour)

  datatype FileInfo = FileInfo(fullName: string, length: nat)

  /** A value of the result map: the file's information and its matches (none for an empty file). */
  datatype Entry = Entry(info: FileInfo, matches: Option<seq<GrepMatch>>)

  /** What processing one file does. */
  datatype Step =
    | Recorded(entry: Entry)
    | OpenReported(message: string)
    | BinarySkipped
    | Aborted(message: string)

  /**
   * The fixed inputs of a search: the files on disk, the matcher, whether binary files
   * are skipped, and how a file's bytes are decoded into lines.
   */
  datatype Search = Search(
    disk: map<string, DiskFile>,
    matcher: Matchers.SimpleMatcher,
    ignoreBinary: bool,
    readLines: seq<byte> -> seq<string>)

  /** One of the file's first 128 bytes is NUL. */
  predicate StartsBinary(bytes: seq<byte>)
  {
    exists i :: 0 <= i < |bytes| && i < ProbeSize && bytes[i] == 0
  }

  /** What processing the file `name` does. */
  function ExpectedStep(s: Search, name: string): (step: Step)
    requires name in s.disk
    ensures step.Recorded? ==> step.entry.info == FileInfo(name, |s.disk[name].bytes|)
    ensures step.Recorded? && step.entry.matches.None? <==> |s.disk[name].bytes| == 0
    ensures step.Recorded? && step.entry.matches.Some? ==>
      s.disk[name].open.Opens? && !(s.ignoreBinary && StartsBinary(s.disk[name].bytes)) &&
      step.entry.matches.value ==
        Matchers.FileMatches(s.readLines(s.disk[name].bytes), s.matcher.textToMatch, s.matcher.ignoreCase)
    ensures step.BinarySkipped? <==>
      |s.disk[name].bytes| > 0 && s.disk[name].open.Opens? && s.ignoreBinary && StartsBinary(s.disk[name].bytes)
    ensures step.OpenReported? <==> |s.disk[name].bytes| > 0 && s.disk[name].open.IoFailure?
    ensures step.Aborted? <==> |s.disk[name].bytes| > 0 && s.disk[name].open.AccessDenied?
  {
    var file := s.disk[name];
    var info := FileInfo(name, |file.bytes|);
    if info.length == 0 then
      Recorded(Entry(info, None))
    else
      match file.open
      case IoFailure(message) => OpenReported(message)
      case AccessDenied(message) => Aborted(message)
      case Opens =>
        if s.ignoreBinary && StartsBinary(file.bytes) then BinarySkipped
        else
          var lines := s.readLines(file.bytes);
          Recorded(Entry(info, Some(Matchers.FileMatches(lines, s.matcher.textToMatch, s.matcher.ignoreCase))))
  }

  /** The result map after a step: only a recorded file changes it, overwriting any earlier entry. */
  function Apply(m: map<string, Entry>, name: string, step: Step): map<string, Entry>
  {
    if step.Recorded? then m[name := step.entry] else m
  }

  /**
   * Processing `files` one after another from the map `m`: the final map, or the message
   * of the first file that ends the run.
   */
  function SearchAll(s: Search, m: map<string, Entry>, files: seq<string>): Result<map<string, Entry>, string>
    requires forall f :: f in files ==> f in s.disk
    decreases |files|
  {
    if files == [] then Success(m)
    else
      var step := ExpectedStep(s, files[0]);
      if step.Aborted? then Failure(step.message)
      else SearchAll(s, Apply(m, files[0], step), files[1..])
  }

  /**
   * The unopenable files a run over `files` reports, in order, with their messages; the
   * run reports nothing after the file that ends it.
   */
  function Reports(s: Search, files: seq<string>): seq<(string, string)>
    requires forall f :: f in files ==> f in s.disk
    decreases |files|
  {
    if files == [] then []
    else
      var step := ExpectedStep(s, files[0]);
      if step.Aborted? then []
      else (if step.OpenReported? then [(files[0], step.message)] else []) + Reports(s, files[1..])
  }

  /** The files a run over `files` skips as binary, in order, up to the file that ends the run. */
  function Skipped(s: Search, files: seq<string>): seq<string>
    requires forall f :: f in files ==> f in s.disk
    decreases |files|
  {
    if files == [] then []
    else
      var step := ExpectedStep(s, files[0]);
      if step.Aborted? then []
      else (if step.BinarySkipped? then [files[0]] else []) + Skipped(s, files[1..])
  }

  /** Every reported file is one of the run's, non-empty, and its open failed with an I/O error carrying the reported message. */
  lemma {:induction false} ReportsAreOpenFailures(s: Search, files: seq<string>)
    requires forall f :: f in files ==> f in s.disk
    ensures forall r :: r in Reports(s, files) ==>
      r.0 in files && |s.disk[r.0].bytes| > 0 && s.disk[r.0].open == IoFailure(r.1)
    decreases |files|
  {
    if files != [] {
      ReportsAreOpenFailures(s, files[1..]);
      var step := ExpectedStep(s, files[0]);
      if !step.Aborted? {
        var head: seq<(string, string)> := if step.OpenReported? then [(files[0], step.message)] else [];
        assert Reports(s, files) == head + Reports(s, files[1..]);
        forall r | r in Reports(s, files)
          ensures r.0 in files && |s.disk[r.0].bytes| > 0 && s.disk[r.0].open == IoFailure(r.1)
        {
          if r in head {
            assert r == (files[0], step.message);
          } else {
            assert r in Reports(s, files[1..]);
            assert r.0 in files[1..];
          }
        }
      }
    }
  }

  /** Every skipped file is one of the run's, opened, and starts binary, with skipping on. */
  lemma {:induction false} SkippedAreBinary(s: Search, files: seq<string>)
    requires forall f :: f in files ==> f in s.disk
    ensures forall f :: f in Skipped(s, files) ==>
      f in files && s.ignoreBinary && s.disk[f].open.Opens? && |s.disk[f].bytes| > 0 && StartsBinary(s.disk[f].bytes)
    decreases |files|
  {
    if files != [] {
      SkippedAreBinary(s, files[1..]);
      var step := ExpectedStep(s, files[0]);
      if !step.Aborted? {
        var head: seq<string> := if step.BinarySkipped? then [files[0]] else [];
        assert Skipped(s, files) == head + Skipped(s, files[1..]);
        forall f | f in Skipped(s, files)
          ensures f in files && s.ignoreBinary && s.disk[f].open.Opens? && |s.disk[f].bytes| > 0 && StartsBinary(s.disk[f].bytes)
        {
          if f !in head {
            assert f in Skipped(s, files[1..]);
            assert f in files[1..];
          }
        }
      }
    }
  }

  /** The first step of a run: what it does to the map, the reports and the skipped files. */
  lemma RunUnfold(s: Search, m: map<string, Entry>, files: seq<string>, step: Step)
    requires files != [] && forall f :: f in files ==> f in s.disk
    requires step == ExpectedStep(s, files[0])
    ensures step.Aborted? ==> SearchAll(s, m, files) == Failure(step.message)
    ensures step.Aborted? ==> Reports(s, files) == [] && Skipped(s, files) == []
    ensures !step.Aborted? ==> SearchAll(s, m, files) == SearchAll(s, Apply(m, files[0], step), files[1..])
    ensures !step.Aborted? ==>
      Reports(s, files) == (if step.OpenReported? then [(files[0], step.message)] else []) + Reports(s, files[1..])
    ensures !step.Aborted? ==>
      Skipped(s, files) == (if step.BinarySkipped? then [files[0]] else []) + Skipped(s, files[1..])
  {
  }

  /** Some file among `files` ends the run. */
  predicate SomeAborts(s: Search, files: seq<string>)
    requires forall f :: f in files ==> f in s.disk
  {
    exists f :: f in files && ExpectedStep(s, f).Aborted?
  }

  /** The file is among `files` and gets recorded. */
  predicate RecordedIn(s: Search, files: seq<string>, k: string)
    requires forall f :: f in files ==> f in s.disk
  {
    k in files && ExpectedStep(s, k).Recorded?
  }

  /** The per-file work of a search, with the results it accumulates. */
  class Processor {
    const search: Search
    /** The result map, keyed by full path. */
    var results: map<string, Entry>
    /** The files reported as unopenable, with the error message. */
    var reported: seq<(string, string)>
    /** The files whose mapping and stream were left open because they were skipped as binary. */
    ghost var unreleased: seq<string>

    constructor (search: Search)
      ensures this.search == search && results == map[] && reported == [] && unreleased == []
    {
      this.search := search;
      results := map[];
      reported := [];
      unreleased := [];
    }

    /**
     * Processes one file: an empty file is recorded without being opened; an open that
     * fails with an I/O error is reported; an access error ends the run; with binary
     * skipping on, a NUL among the first 128 bytes (or the file's length, if shorter)
     * skips the file; otherwise its lines are matched from the start and recorded.
     */
    method ProcessFile(fileName: string) returns (step: Step)
      requires fileName in search.disk
      modifies this
      ensures step == ExpectedStep(search, fileName)
      ensures results == Apply(old(results), fileName, step)
      ensures reported == if step.OpenReported? then old(reported) + [(fileName, step.message)] else old(reported)
      ensures unreleased == if step.BinarySkipped? then old(unreleased) + [fileName] else old(unreleased)
    {
      var file := search.disk[fileName];
      var info := FileInfo(fileName, |file.bytes|);
      if info.length == 0 {
        results := results[fileName := Entry(info, None)];
        return Recorded(Entry(info, None));
      }

      if file.open.IoFailure? {
        reported := reported + [(fileName, file.open.message)];
        return OpenReported(file.open.message);
      } else if file.open.AccessDenied? {
        return Aborted(file.open.message);
      }

      var mmf := new MappedFile(file.bytes);
      var stream := mmf.CreateViewStream(info.length);
      assert stream.data == file.bytes;

      if search.ignoreBinary {
        var buffer := new byte[ProbeSize](_ => 0);
        ghost var before := buffer[..];
        var n := stream.Read(buffer);
        ghost var probe := ProbeBuffer(file.bytes, 0);
        ReadFillsProbe(file.bytes, 0, before, buffer[..], n);
        var i := 0;
        while i < buffer.Length
          invariant 0 <= i <= buffer.Length && i <= |file.bytes|
          invariant forall j :: 0 <= j < i ==> file.bytes[j] != 0
        {
          if i == info.length {
            break;
          }
          if buffer[i] == 0 {
            assert probe[i] == file.bytes[i];
            unreleased := unreleased + [fileName];
            return BinarySkipped;
          }
          assert probe[i] == file.bytes[i];
          i := i + 1;
        }
        stream.position := 0;
      }

      var content := Some(search.readLines(stream.data[stream.position..]));
      var matches := Matchers.GetMatches(search.matcher, content);
      stream.Close();
      mmf.Dispose();

      var entry := Entry(info, Some(matches.value));
      results := results[fileName := entry];
      return Recorded(entry);
    }

    /** Processes the first of the files `rest` still to do, and relates the state to what remains of the run. */
    method ProcessNext(rest: seq<string>) returns (step: Step)
      requires rest != [] && forall f :: f in rest ==> f in search.disk
      modifies this
      ensures step == ExpectedStep(search, rest[0])
      ensures step.Aborted? ==> SearchAll(search, old(results), rest) == Failure(step.message)
      ensures step.Aborted? ==> reported == old(reported) + Reports(search, rest)
      ensures step.Aborted? ==> unreleased == old(unreleased) + Skipped(search, rest)
      ensures !step.Aborted? ==> SearchAll(search, old(results), rest) == SearchAll(search, results, rest[1..])
      ensures !step.Aborted? ==> old(reported) + Reports(search, rest) == reported + Reports(search, rest[1..])
      ensures !step.Aborted? ==> old(unreleased) + Skipped(search, rest) == unreleased + Skipped(search, rest[1..])
    {
      ghost var before := results;
      step := ProcessFile(rest[0]);
      RunUnfold(search, before, rest, step);
      if !step.Aborted? {
        assert SearchAll(search, before, rest) == SearchAll(search, results, rest[1..]);
      }
    }

    /**
     * Processes the files in order; the run stops at the first file whose open raises an
     * access error, and otherwise leaves in `results` the map of the whole search.
     */
    method ProcessFiles(files: seq<string>) returns (failure: Option<string>)
      requires forall f :: f in files ==> f in search.disk
      modifies this
      ensures SearchAll(search, old(results), files) ==
        if failure.None? then Success(results) else Failure(failure.value)
      ensures reported == old(reported) + Reports(search, files)
      ensures unreleased == old(unreleased) + Skipped(search, files)
    {
      var i := 0;
      while i < |files|
        invariant 0 <= i <= |files|
        invariant SearchAll(search, old(results), files) == SearchAll(search, results, files[i..])
        invariant old(reported) + Reports(search, files) == reported + Reports(search, files[i..])
        invariant old(unreleased) + Skipped(search, files) == unreleased + Skipped(search, files[i..])
      {
        assert files[i..][1..] == files[i + 1..];
        var step := ProcessNext(files[i..]);
        if step.Aborted? {
          return Some(step.message);
        }
        i := i + 1;
      }
      assert files[i..] == [];
      return None;
    }
  }

  /** A run completes exactly when no file in it ends the run. */
  lemma {:induction false} SearchAllSucceeds(s: Search, m: map<string, Entry>, files: seq<string>)
    requires forall f :: f in files ==> f in s.disk
    ensures SearchAll(s, m, files).Success? <==> !SomeAborts(s, files)
    ensures SearchAll(s, m, files).Failure? ==> exists f :: f in files && ExpectedStep(s, f) == Aborted(SearchAll(s, m, files).error)
    decreases |files|
  {
    if files != [] {
      var step := ExpectedStep(s, files[0]);
      if !step.Aborted? {
        SearchAllSucceeds(s, Apply(m, files[0], step), files[1..]);
        assert forall f :: f in files <==> f == files[0] || f in files[1..];
      }
    }
  }

  /**
   * A completed run leaves exactly the starting entries plus one entry per recorded
   * file, and a recorded file's entry is the one its own step produces, however often it
   * was listed.
   */
  lemma {:induction false} SearchAllCharacterization(s: Search, m: map<string, Entry>, files: seq<string>)
    requires forall f :: f in files ==> f in s.disk
    requires SearchAll(s, m, files).Success?
    ensures var r := SearchAll(s, m, files).value;
      forall k :: k in r <==> k in m || RecordedIn(s, files, k)
    ensures var r := SearchAll(s, m, files).value;
      forall k :: k in r ==>
        r[k] == if RecordedIn(s, files, k) then ExpectedStep(s, k).entry else m[k]
    decreases |files|
  {
    if files != [] {
      var step := ExpectedStep(s, files[0]);
      SearchAllCharacterization(s, Apply(m, files[0], step), files[1..]);
      assert forall f :: f in files <==> f == files[0] || f in files[1..];
    }
  }

  /** Running a completed search again over the same files changes nothing. */
  lemma SearchAllIdempotent(s: Search, m: map<string, Entry>, files: seq<string>)
    requires forall f :: f in files ==> f in s.disk
    requires SearchAll(s, m, files).Success?
    ensures SearchAll(s, SearchAll(s, m, files).value, files) == SearchAll(s, m, files)
  {
    var r := SearchAll(s, m, files).value;
    SearchAllSucceeds(s, m, files);
    SearchAllSucceeds(s, r, files);
    SearchAllCharacterization(s, m, files);
    SearchAllCharacterization(s, r, files);
    var r2 := SearchAll(s, r, files).value;
    assert r2 == r;
  }

  /**
   * The order in which the files are processed, and how often each is listed, do not
   * change the results of a completed run.
   */
  lemma SearchAllOrderIrrelevant(s: Search, m: map<string, Entry>, files: seq<string>, others: seq<string>)
    requires forall f :: f in files ==> f in s.disk
    requires forall f :: f in files <==> f in others
    requires SearchAll(s, m, files).Success?
    ensures SearchAll(s, m, others) == SearchAll(s, m, files)
  {
    SearchAllSucceeds(s, m, files);
    SearchAllSucceeds(s, m, others);
    SearchAllCharacterization(s, m, files);
    SearchAllCharacterization(s, m, others);
    var r, r2 := SearchAll(s, m, files).value, SearchAll(s, m, others).value;
    assert forall k :: RecordedIn(s, files, k) <==> RecordedIn(s, others, k);
    assert r2 == r;
  }

  /** The number of matches an entry holds; an empty file's absent list counts as none. */
  function MatchCount(e: Entry): nat
  {
    if e.matches.Some? then |e.matches.value| else 0
  }

  /** The files of the map with at least one match. */
  function WithMatches(m: map<string, Entry>): set<string>
  {
    set k | k in m && MatchCount(m[k]) > 0
  }

  /** The total number of matches in the map. */
  ghost function TotalMatches(m: map<string, Entry>): nat
    decreases |m|
  {
    if m == map[] then 0
    else
      var k :| k in m;
      MatchCount(m[k]) + TotalMatches(m - {k})
  }

  /** The figures of the summary line. */
  datatype Summary = Summary(filesWithMatches: nat, totalMatches: nat, filesSearched: nat)

  /**
   * The summary of a result map: files with matches, matches, and files searched. There
   * are never more files with matches than matches, nor than files searched.
   */
  ghost function Summarize(m: map<string, Entry>): (r: Summary)
    ensures r.filesWithMatches <= r.totalMatches && r.filesWithMatches <= r.filesSearched
    ensures r.filesSearched == |m|
  {
    SummaryBounds(m);
    Summary(|WithMatches(m)|, TotalMatches(m), |m|)
  }

  /** The total does not depend on the order in which the map's entries are taken. */
  lemma {:induction false} TotalMatchesRemove(m: map<string, Entry>, k: string)
    requires k in m
    ensures TotalMatches(m) == MatchCount(m[k]) + TotalMatches(m - {k})
    decreases |m|
  {
    var j :| j in m && TotalMatches(m) == MatchCount(m[j]) + TotalMatches(m - {j});
    if j != k {
      assert (m - {j}) - {k} == (m - {k}) - {j};
      TotalMatchesRemove(m - {j}, k);
      TotalMatchesRemove(m - {k}, j);
    }
  }

  /** Recording a file again replaces its earlier entry: its matches are counted once. */
  lemma TotalAfterRecord(m: map<string, Entry>, k: string, e: Entry)
    ensures TotalMatches(m[k := e]) == TotalMatches(m - {k}) + MatchCount(e)
    ensures |WithMatches(m[k := e])| == |WithMatches(m - {k})| + (if MatchCount(e) > 0 then 1 else 0)
  {
    TotalMatchesRemove(m[k := e], k);
    assert m[k := e] - {k} == m - {k};
    WithMatchesRemove(m[k := e], k);
  }

  /** Taking one file out of the map takes it out of the files with matches, and nothing else. */
  lemma WithMatchesRemove(m: map<string, Entry>, k: string)
    requires k in m
    ensures WithMatches(m) == WithMatches(m - {k}) + (if MatchCount(m[k]) > 0 then {k} else {})
    ensures k !in WithMatches(m - {k})
  {
  }

  /** A map has no more files with matches than matches, nor than files. */
  lemma {:induction false} SummaryBounds(m: map<string, Entry>)
    ensures |WithMatches(m)| <= TotalMatches(m)
    ensures |WithMatches(m)| <= |m|
    decreases |m|
  {
    if m != map[] {
      var k :| k in m;
      TotalMatchesRemove(m, k);
      WithMatchesRemove(m, k);
      SummaryBounds(m - {k});
    } else {
      assert WithMatches(m) == {};
    }
  }
}
