# grep.core in Dafny

This project models the core of grep.core, a C# grep clone, and proves properties of the model.
The core has four parts:

- The match record `GrepMatch`: a 1-based column index, a 1-based line number, the value (for the literal matcher, the pattern itself, which differs from the text at the index when case is ignored) and the whole line.
- The literal matcher `SimpleMatcher`. It reads its content line by line. In each line it searches for the pattern again and again, each time from one character past the previous hit. It appends one record per hit.
- The default formatter. It splits a record's line into the text before the match with leading white space trimmed, the match, and the text after it with trailing white space trimmed. Each span gets a console colour.
- The console program's per-file work:
  - the 128-byte NUL probe that flags a file as binary;
  - the decision to record an empty file, report an unopenable one, skip a binary one, or scan it;
  - the update of the result map, keyed by full path;
  - the summary line's totals.

The modules follow the source's structure:

- `Wrappers`: `Option`, with `None` for a .NET `null`; `Result`; the exceptions the core raises.
- `Match`: the record.
- `Matchers`: the matcher. `GetMatches` is a method with the source's two nested loops, proved equal to the recursive specification `FileMatches`.
- `Formatters`: the formatter.
- `Streams`: a view stream as a class with a `position` field and a `Read` into an array; a memory mapping that can be disposed.
- `ConsoleFileProvider`: `IsBinary`, a method with the probe loop and its early returns.
- `ConsoleProgram`:
  - the per-file body, as the method `Processor.ProcessFile` on a class that owns the result map;
  - a sequential run, `Processor.ProcessFiles`, with its specification fold `SearchAll`;
  - the summary totals.

The file system is a map from full path to the file's bytes and to what opening it does. Decoding a file's bytes into lines is a parameter of the search.

Points where the program behaves differently from what a reader might assume:

- `IsBinary` in `Grep.Core.Console/FileProvider.cs` is not a non-destructive peek. It restores the stream position only when it inspected all 128 bytes without finding a NUL. After a NUL, or in a file shorter than 128 bytes, the position is left after the bytes read. The probe inlined in `Program.cs` always resets the position to 0 on the non-binary path, and the model proves that the matcher then sees the file from its start.
- The summary's "in N file(s)" is the size of the result map. That map holds empty files, but neither unopenable files nor binary-skipped files.
- The program fills a concurrent dictionary from `Parallel.ForEach`. The model runs the files in sequence, and proves that the order and repetition of the files do not change the map of a completed run.
- The matcher's loop stops scanning a line after a hit at column 0. The model keeps that loop as written beside the corrected one, and the rest of the model uses the corrected loop; see Findings.

## Model

| member | source | states |
|---|---|---|
| `Match.ConstructorStoresArguments` | Grep.Core/GrepMatch.cs:25-31 | The constructor stores its four arguments unchanged and validates nothing: records whose index lies before or past their line are constructible. |
| `Matchers.NewSimpleMatcher` | Grep.Core/Matchers/SimpleMatcher.cs:28-37 | A null pattern fails with `ArgumentNullException("textToMatch")`, and only a null pattern fails; otherwise pattern and case flag are kept. |
| `Matchers.IndexOf` | Grep.Core/Matchers/SimpleMatcher.cs:57 | The result is -1 or a position in `[start, length]` where the pattern occurs. |
| `Matchers.IndexOfFirst` | Grep.Core/Matchers/SimpleMatcher.cs:57 | No occurrence lies between `start` and the position `IndexOf` returns, and none at all after `start` when it returns -1. |
| `Matchers.OrdinalMatchesAt` | Grep.Core/Matchers/SimpleMatcher.cs:57 | Under case-sensitive comparison, an occurrence at `p` is exactly an equal slice of the line at `p`. |
| `Matchers.GetMatches` | Grep.Core/Matchers/SimpleMatcher.cs:40-68 | Null content fails with `ArgumentNullException("content")`. Otherwise the line loop, with `AppendLineMatches` as its inner loop, returns exactly `FileMatches` (with the column-0 stop corrected), every record is a real occurrence on a numbered line carrying the pattern and that line, and records come in line-then-index order. |
| `Matchers.AppendLineMatches` | Grep.Core/Matchers/SimpleMatcher.cs:54-64 | The do-while loop over one line, searching again after every hit inside the line, appends exactly `LineMatches` of that line to the records so far. |
| `Matchers.LineScanRecords` | Grep.Core/Matchers/SimpleMatcher.cs:54-62 | Every record of a line scan carries the line number, the pattern, the whole line, and the index of a real occurrence. |
| `Matchers.LineScanIncreasing` | Grep.Core/Matchers/SimpleMatcher.cs:54-64 | Within a line, reported indices strictly increase and all lie after the previous hit, since each search starts one past it. |
| `Matchers.LineScanFindsEveryOccurrence` | Grep.Core/Matchers/SimpleMatcher.cs:54-64 | The scan reports exactly the 1-based positions of all occurrences after the previous hit, overlapping ones included, whatever the line starts with. |
| `Matchers.OccurrencesFrom` | Grep.Core/Matchers/SimpleMatcher.cs:57 | The occurrences from a start position are the one `IndexOf` finds plus those after it, or none when it returns -1. |
| `Matchers.OrdinalRecordsAreAnchored` | Grep.Core/Matchers/SimpleMatcher.cs:57-61 | Under case-sensitive comparison every record's value is the slice of its line at its index. For a non-empty pattern, the index lies between 1 and the line length minus the pattern length plus 1. |
| `Matchers.FileMatchesRecords` | Grep.Core/Matchers/SimpleMatcher.cs:49-61 | Every record of a file names a line of it (from 1), carries the pattern and that line, and sits at an occurrence. |
| `Matchers.FileMatchRecord` | Grep.Core/Matchers/SimpleMatcher.cs:49-61 | Any single record of a file names a line of it, carries the pattern and that line, and sits at an occurrence. |
| `Matchers.FileMatchesInScanOrder` | Grep.Core/Matchers/SimpleMatcher.cs:47-64 | A file's records are ordered by line, then by strictly increasing index. |
| `Matchers.ScanOrderAppend` | Grep.Core/Matchers/SimpleMatcher.cs:47-64 | Appending one later line's records, in increasing index order, to records in scan order keeps scan order. |
| `Matchers.FileMatchesOnLine` | Grep.Core/Matchers/SimpleMatcher.cs:49-65 | The records a file reports for line n are exactly those its n-th line reports alone, numbered n. |
| `Matchers.CaseSensitivity` | Grep.Core/Matchers/SimpleMatcher.cs:57 | "text" is not found in "Text" case-sensitively, and is found at index 1 when case is ignored. |
| `Matchers.SimpleMatchScenario` | Grep.Core.Tests/Matchers/SimpleMatcherTests.cs:27-36 | "text" in "Simple test text content." gives one record, at index 13. |
| `Matchers.SimpleNoMatchScenario` | Grep.Core.Tests/Matchers/SimpleMatcherTests.cs:42-50 | "Not present" in "Simple test text content." gives no record. |
| `Matchers.MultipleSimpleMatchScenario` | Grep.Core.Tests/Matchers/SimpleMatcherTests.cs:56-67 | "te" in "Simple test text content." gives three records, at 8, 13 and 21. |
| `Matchers.UnitTestsCannotSeeColumnZero` | Grep.Core.Tests/Matchers/SimpleMatcherTests.cs:27-67 | On the three unit-test lines the loop as written and the corrected loop report the same records, since no line starts with its pattern. |
| `Matchers.AsWrittenLineScan` | Grep.Core/Matchers/SimpleMatcher.cs:54-64 | The loop as written, which stops after a hit at column 0, reports a prefix of what the corrected loop reports: it never reports a record the corrected loop does not, and never in another order. |
| `Matchers.AsWrittenAgreesAfterColumnZero` | Grep.Core/Matchers/SimpleMatcher.cs:54-64 | After a hit past column 0, the loop as written and the corrected loop report the same remaining records. |
| `Matchers.AsWrittenAgreesOffColumnZero` | Grep.Core/Matchers/SimpleMatcher.cs:54-64 | The loop as written reports only the record at index 1 for a line that starts with the pattern, and exactly the corrected loop's records for any other line. |
| `Matchers.ColumnZeroThenLater` | Grep.Core/Matchers/SimpleMatcher.cs:64 | For a line whose pattern occurs at column 0 and at one later position, the loop as written reports only index 1, while the corrected loop reports both positions. |
| `Matchers.ColumnZeroHidesLaterMatches` | Grep.Core/Matchers/SimpleMatcher.cs:64 | In "te te", "te" occurs at 1 and 4, yet the loop as written reports only 1. The corrected loop reports both. |
| `Formatters.TrimStart` | Grep.Core/Formatters/DefaultFormatter.cs:22 | The result is a suffix of the input. What is dropped is all white space, and what is kept does not start with white space. |
| `Formatters.TrimEnd` | Grep.Core/Formatters/DefaultFormatter.cs:23 | The result is a prefix of the input. What is dropped is all white space, and what is kept does not end with white space. |
| `Formatters.FormatMatch` | Grep.Core/Formatters/DefaultFormatter.cs:20-33 | Fails with `ArgumentOutOfRangeException` exactly when the index is below 1 or the value would run past the line. Otherwise: the input record unchanged, and three spans in order: trimmed text before in DarkGray, the value in Blue, trimmed text after in DarkGray. |
| `Formatters.FormatRebuildsContext` | Grep.Core/Formatters/DefaultFormatter.cs:22-32 | For a record whose value sits at its index, formatting succeeds. The line is untrimmed pre + value + untrimmed post. The first span is a suffix of pre after white space, and the last span a prefix of post before white space. |
| `Formatters.TrimIdempotent` | Grep.Core/Formatters/DefaultFormatter.cs:22-23 | Trimming a second time removes nothing more. |
| `Formatters.LiteralMatchesFormat` | Grep.Core/Formatters/DefaultFormatter.cs:20-33 | Every case-sensitive record of a file names a line of it, formats successfully with the pattern as its middle span, and rebuilds that line. |
| `Streams.ReadCount` | Grep.Core.Console/FileProvider.cs:63 | A read delivers no more than asked, stays within the data, and delivers nothing exactly at or past the end, or when asked for nothing. Before the end it delivers the smaller of the count asked for and the bytes remaining. |
| `Streams.ViewStream.Read` | Grep.Core.Console/FileProvider.cs:62-63 | The bytes read from the position fill the start of the buffer, the rest of the buffer is unchanged, and the position advances by the count. |
| `Streams.ViewStream.Close` | Grep.Core.Console/Program.cs:173 | The stream is closed. |
| `Streams.MappedFile.CreateViewStream` | Grep.Core.Console/Program.cs:145 | A fresh open stream over the first `length` bytes of the mapping, at position 0. |
| `Streams.MappedFile.Dispose` | Grep.Core.Console/Program.cs:174 | The mapping is disposed. |
| `ConsoleFileProvider.ProbeLimit` | Grep.Core.Console/FileProvider.cs:65-70 | The probe inspects the file length when that is below 128, and 128 otherwise (including for a negative length); so never more than 128 bytes, nor more than the file length. |
| `ConsoleFileProvider.ProbeBuffer` | Grep.Core.Console/FileProvider.cs:62-63 | The 128-byte buffer after one read holds the data from the position, and zero past the data's end. |
| `ConsoleFileProvider.IsBinary` | Grep.Core.Console/FileProvider.cs:57-82 | True exactly when a NUL lies among the first `min(128, fileLength)` buffer bytes; an empty file is never binary. The position returns to its entry value only when no NUL was found and 128 bytes were inspected; otherwise it stays after the bytes read. |
| `ConsoleFileProvider.ReadFillsProbe` | Grep.Core.Console/FileProvider.cs:62-63 | One read into the zeroed buffer leaves exactly the probe buffer. |
| `ConsoleFileProvider.ProbeFromStart` | Grep.Core.Console/Program.cs:151-166 | Probing from position 0 finds a NUL exactly when one of the file's first `min(128, length)` bytes is NUL; an empty file is never binary. |
| `ConsoleFileProvider.ProbeIgnoresLaterBytes` | Grep.Core.Console/FileProvider.cs:62-65 | Bytes past the 128 read never change the verdict. |
| `ConsoleProgram.ExpectedStep` | Grep.Core.Console/Program.cs:119-176 | An empty file is recorded with null matches before any open. An I/O error is reported. An access error ends the run. A binary file is skipped when skipping is on. Otherwise the record holds the matcher's records for the whole file. |
| `ConsoleProgram.Processor.constructor` | Grep.Core.Console/Program.cs:84 | The result map starts empty. |
| `ConsoleProgram.Processor.ProcessFile` | Grep.Core.Console/Program.cs:119-176 | The step is `ExpectedStep`: the probe loop agrees with it, and after the reset to 0 the matcher reads the whole file. Only a recorded file changes the map, overwriting its key. Open errors are logged. A binary skip leaves the mapping unreleased. |
| `ConsoleProgram.Processor.ProcessFiles` | Grep.Core.Console/Program.cs:117-212 | The run's map is `SearchAll` of the files, or the run fails with the first access error's message. The errors it prints are exactly `Reports` of the files, and the mappings it leaves open exactly `Skipped` of them, both in file order and up to the file that ends the run. |
| `ConsoleProgram.Processor.ProcessNext` | Grep.Core.Console/Program.cs:119-176 | Processing the next file leaves the map, the printed errors and the unreleased mappings so that the rest of the run completes them to what the whole run specifies; a file that ends the run completes them itself. |
| `ConsoleProgram.ReportsAreOpenFailures` | Grep.Core.Console/Program.cs:131-142 | Every printed error names a non-empty file of the run whose open failed with an I/O error, with that error's message. |
| `ConsoleProgram.SkippedAreBinary` | Grep.Core.Console/Program.cs:148-166 | Every file left unreleased is a non-empty file of the run that opened, with binary skipping on, and has a NUL among its first 128 bytes. |
| `ConsoleProgram.SearchAllSucceeds` | Grep.Core.Console/Program.cs:127-143 | A run completes exactly when no file's open raises an access error; a failed run carries such a file's message. |
| `ConsoleProgram.SearchAllCharacterization` | Grep.Core.Console/Program.cs:119-176 | A completed run's map has exactly the starting keys plus the recorded files. Unopenable and binary-skipped files are absent, and each recorded file holds its own entry. |
| `ConsoleProgram.SearchAllIdempotent` | Grep.Core.Console/Program.cs:176 | Running a completed search again over the same files leaves its map unchanged. |
| `ConsoleProgram.SearchAllOrderIrrelevant` | Grep.Core.Console/Program.cs:117-209 | Any order or repetition of the same files gives the same map. |
| `ConsoleProgram.Summarize` | Grep.Core.Console/Program.cs:67-70 | The summary has no more files with matches than matches, nor than files searched, and "files searched" is the map's size. |
| `ConsoleProgram.TotalMatchesRemove` | Grep.Core.Console/Program.cs:69 | The match total is any one entry's count plus the total of the rest, so its order of summation does not matter. |
| `ConsoleProgram.TotalAfterRecord` | Grep.Core.Console/Program.cs:67-69 | Recording a file again replaces its entry, so its matches and its file-with-matches are counted once. |
| `ConsoleProgram.WithMatchesRemove` | Grep.Core.Console/Program.cs:67 | Removing one file from the map removes it from the files with matches, and changes nothing else there. |
| `ConsoleProgram.SummaryBounds` | Grep.Core.Console/Program.cs:67-70 | A map never has more files with matches than matches, nor than entries. |

## Left out

- The regular-expression matcher: it delegates matching to the platform's regex engine, which is not part of this model. `Search.matcher` is a `Matchers.SimpleMatcher`, so the console search is modelled only for the `-F` (`--fixed-strings`) option; without it, which is the default, `Program.cs:63` builds a `RegexMatcher`.
- The content providers and line decoding: `StreamReader.ReadLine` splitting and text decoding are the search's `readLines` parameter, and the matcher receives its lines as a sequence.
- Directory enumeration, glob matching and directory exclusion: these are file-system and library calls. A run takes its list of full paths as given, and every listed path is required to be on the modelled disk.
- Command-line parsing, console colours and printing, the stopwatch and the debugger pause: pure I/O.
- Concurrency: `Parallel.ForEach`, `ContinueWith`, `Task.WhenAll`, the console lock and async reading are modelled as one sequential loop. A crash in one worker is modelled as the run stopping at that file.
- Culture-aware comparison: `Matchers.IndexOf` compares ordinally, and ignoring case folds only the ASCII letters A-Z. Locale collation, which can match strings of a different length, is not modelled.
- `Streams.ViewStream.Read`: does not model short reads; a read always delivers as many bytes as remain and fit.
- `ConsoleProgram.Processor.ProcessFile`: the file's length and bytes are taken as fixed between the size query and the mapping; a file that changes or vanishes in between is not modelled.
- `ConsoleProgram.Processor.ProcessFile`: the release of the stream and mapping on the scanned path is not part of its contract; only the binary-skip path's unreleased mapping is recorded.
- `ConsoleProgram.Summarize`: a ghost function. The sum over the map's values is defined by choosing keys, not computed.
- `Matchers.GetMatches`: states the corrected scan, which goes on after a hit at column 0. The loop as written stops there; `Matchers.AsWrittenAgreesOffColumnZero` states exactly where the two differ.
- `Matchers.AppendLineMatches`: its loop searches again after a hit at column 0, where the loop at `SimpleMatcher.cs:64` stops. On a line that starts with the pattern it appends every occurrence, while the program appends only the record at index 1.
- `ConsoleProgram.ExpectedStep`: a recorded file's matches are the corrected `Matchers.FileMatches`. For a file with a line that starts with the pattern and holds it again later (pattern "te", line "te te"), the program's entry holds fewer records than the model's: only index 1 on that line.
- `ConsoleProgram.Processor.ProcessFile`: it scans with the corrected `Matchers.GetMatches`, so its stored entry and the summary's match total differ from the program's in the same way as `ConsoleProgram.ExpectedStep`.
- Strings as code units: a line is a sequence of Unicode scalar values, while .NET indexes strings by UTF-16 code units. On a line with a character outside the Basic Multilingual Plane before a hit, the model's 1-based index is smaller than the program's: by one for each such character. Lone surrogates, which a .NET string can hold, cannot be represented. This affects `Matchers.IndexOf`, `Matchers.LineScan`, `Formatters.FormatMatch` and every index the model reports.
- Integer width: indices, line numbers and counts are unbounded integers. The 32-bit `int` width of `GrepMatch.Index` and `GrepMatch.Line` is not modelled, and neither is the overflow exception of the checked `Sum()` that totals the matches at `Program.cs:69`.
- Null record fields: `GrepMatch.value` and `GrepMatch.context` are strings and cannot be null. The source constructor accepts null for both (`GrepMatch.cs:25-31`), and `Formatters.FormatMatch` would then throw a `NullReferenceException` (`DefaultFormatter.cs:22-23`); neither is modelled.
- White space: `char.IsWhiteSpace` is modelled by its fixed list of Unicode code points.

## Findings

| source | as written | input that shows it | evidently intended | confidence | as-written member | corrected member |
|---|---|---|---|---|---|---|
| Grep.Core/Matchers/SimpleMatcher.cs:64 | The inner loop continues only while `lastMatch > 0`, so a hit at column 0 ends the scan of that line | pattern "te", line "te te": only index 1 is reported, though "te" also occurs at index 4 | continue after every hit inside the line (`lastMatch >= 0`), so every occurrence is reported | not executed | `Matchers.ColumnZeroHidesLaterMatches` | `Matchers.LineScanFindsEveryOccurrence` |

The loop as written is `Matchers.AsWrittenLineScan`. The corrected loop is `Matchers.LineScan`, which `Matchers.AppendLineMatches`, `Matchers.GetMatches` and the console pipeline use.
