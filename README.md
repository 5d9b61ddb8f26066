# DifferenceFiles in Dafny

DifferenceFiles is a command-line tool that compares two directory trees.
For every entry of a recursive walk of the first tree it finds the file at
the same relative path under the second tree. It then reports that file as
missing, as a mismatch or as a match, counts the outcomes, and writes a
summary to the console and, optionally, to a log file.

This project models the core of that tool and proves properties of the
model:

- `runDifferences`, the per-entry classification and tally loop, and its
  log output;
- `isExactMatch`, the byte comparator;
- `printLog` and the message builders `searchMsg`, `openErrorMsg`,
  `missingMsg`, `mismatchMsg` and `resultsMsg`;
- the lexical path helpers `getRelativePath` and `findCorrespondingFile`;
- the progress spinner `getHourglassCharacter`.

Layout, one module per file:

| file | module | models |
|---|---|---|
| results.dfy | Results | `Option` and `Result` |
| paths.dfy | Paths | paths as a root plus components; `relative`, `getRelativePath`, `findCorrespondingFile`, lexical normalisation |
| text.dfy | Text | decimal rendering of counts; splitting text into '\n'-terminated lines |
| messages.dfy | Messages | the message builders and the error handler's log text, with readers that recover what each message reports |
| reporting.dfy | Reporting | `printLog` as a `Reporter` object holding the console text and the log-file text |
| compare.dfy | Compare | the file tree (a map from paths to nodes) and `isExactMatch` |
| cli.dfy | Cli | the spinner as an `Hourglass` object whose fields are the function's statics |
| traversal.dfy | Traversal | `runDifferences`: classification, counters, the loop (which stops at an aborting comparison), the log, two end-to-end scenarios |

Each file system query is a function of a `FileTree` value:

- `exists` and `is_directory` return a result or throw;
- `ifstream` opening succeeds only on a readable regular file.

The walk is a sequence of entry paths, in the order the directory iterator
yields them. The clock readings the spinner takes are a sequence of numbers.

Platform assumptions:

- The program targets Windows: it includes `utils\cli.h` with a backslash.
  The model assumes the Windows build with the GNU C++ library (MinGW).
- On that build, opening a directory with `ifstream` fails.
- In the GNU C++ library, dereferencing an exhausted `istreambuf_iterator`
  yields `char_traits<char>::eof()` converted to `char`, the byte 0xFF
  (`Compare.EofByte`), and sets the iterator's stream buffer to null. The
  next `++` calls `sbumpc()` through that null pointer. That is undefined
  behaviour; in practice the process is killed. The model records it as
  `Compare.Undefined`, and the run stops at that entry without writing a
  summary.

Where the code does not do what a reader of the tool would expect, the
model follows the code:

- **Lengths are not compared.** The three-iterator `std::equal`
  (src/main.cpp:146-150) walks the first file only. A first file that is a
  prefix of the second, or an empty first file, is a match, although the
  two files differ in length. A longer first file
  that starts with the second never matches. It is a mismatch when its
  next byte is not 0xFF. When that byte is 0xFF, the comparison runs into
  the undefined behaviour above: first = [0xFF] against an empty second
  file is one such input.
- **`count` can be lower than the bucket total.** `count` is incremented
  only after `is_directory` succeeds (src/main.cpp:65-66). If that query
  throws, `errors` grows but `count` does not. So `count + (entries whose
  is_directory threw) == missing + matches + mismatches + errors`
  (`Traversal.TallyBounds`).
- **An unreadable counterpart is an error, not a mismatch.** `isExactMatch`
  throws, and the handler counts an error.
- **The error line loses ten characters and has no newline.** At
  src/main.cpp:85, `ex.what() + '\n'` adds the integer 10 to a
  `const char*`. The text logged is the message without its first ten
  characters, with no line terminator.
- **The blank lines are not logged.** The two `printLog("\n")` calls
  (src/main.cpp:57, 92) pass no logger, so the log file gets the header, the
  entry messages and the summary with no blank lines between them.

## Model

| member | source | states |
|---|---|---|
| Paths.GetRelativePath | src/utils/filesystem.cpp:15-18 | the result is always relative. It is `relative(path, directory)` whenever that is non-empty. It falls back to `path.filename()` exactly when the roots differ, which is exactly when the lexical result is empty. |
| Paths.FindCorrespondingFile | src/utils/filesystem.cpp:11-13 | the result is on the search directory's root and begins with all of its components. It is strictly longer than the search directory, unless the file has no components and lies on a different root (a bare root such as "D:\\"). |
| Paths.Relative | src/utils/filesystem.cpp:16 | `relative` gives a relative path, empty exactly when the roots differ. A file under the base is addressed by its components past the base, or "." for the base itself. `Paths.RelativeInverse` proves that joining the result back onto the base gives the file again. |
| Paths.Join | src/utils/filesystem.cpp:12 | `a / b`: a rooted `b` replaces `a`; a relative `b` keeps `a`'s root and appends its components after `a`'s. |
| Paths.CommonPrefixLen | src/utils/filesystem.cpp:16 | the common prefix `relative` climbs out of: both sequences agree up to it and differ just after it |
| Paths.RelativeOfDescendant | src/utils/filesystem.cpp:16 | a file `directory / s`, with `s` non-empty, is addressed by `s` relative to `directory` |
| Paths.CorrespondingOfDescendant | src/utils/filesystem.cpp:11-17 | `sourceDirectory / s` corresponds to `searchDirectory / s` |
| Paths.CorrespondingRoundTrip | src/utils/filesystem.cpp:11-17 | mapping a file under the source tree to the search tree and back gives the same file |
| Paths.OutsideDirectoryClimbs | src/utils/filesystem.cpp:16-17 | a path on the same root but outside the directory gets a relative path that starts with "..", not the file-name fallback |
| Paths.RelativeInverse | src/utils/filesystem.cpp:16 | `directory / relative(p, directory)` normalises back to `p` for normalised paths on one root |
| Text.Decimal | src/main.cpp:183-187 | a count is written as a non-empty string of decimal digits, one digit exactly for counts below 10, and with no leading '0' otherwise |
| Text.DecimalRoundTrip | src/main.cpp:183-187 | reading the digits of a written count back gives the count |
| Text.LinesUnlines | src/main.cpp:182-187 | text made of lines free of '\n', each terminated by '\n', splits back into those lines |
| Messages.SearchMsg | src/main.cpp:159-163 | the header starts with "Searching for differences between:" on its own line and ends a line. `Messages.SearchMsgRoundTrip` reads both directories back from it. |
| Messages.OpenErrorMsg | src/main.cpp:165-167 | the open error starts with the ten characters "Failed to " and ends with "." rather than a newline. `Messages.OpenErrorLogged` gives what the handler logs of it. |
| Messages.MissingMsg | src/main.cpp:169-171 | the missing-file message starts with a quote and ends a line. `Messages.MissingMsgRoundTrip` reads the path back from it. |
| Messages.MismatchMsg | src/main.cpp:173-177 | the mismatch message starts with "Not a match:" on its own line and ends a line. `Messages.MismatchMsgRoundTrip` reads both files back from it. |
| Messages.ResultsMsg | src/main.cpp:179-190 | the summary starts with the error count line and ends a line. `Messages.ResultsMsgShape`, `ResultsMsgPlurals` and `ResultsMsgRoundTrip` give its lines, plural endings and counts. |
| Messages.ErrorLogText | src/main.cpp:85 | `ex.what() + '\n'` is the message with its first ten characters dropped: those ten characters followed by the result give the message back. |
| Messages.OpenErrorLogged | src/main.cpp:83-86 | the handler logs an open failure as `open "<path>".`: the first ten characters "Failed to " are cut off and no newline is added |
| Messages.SearchMsgRoundTrip | src/main.cpp:159-163 | the search header names the first and then the second directory, each on its own quoted line |
| Messages.MismatchMsgRoundTrip | src/main.cpp:173-177 | the mismatch message names the source file and then its counterpart |
| Messages.MissingMsgRoundTrip | src/main.cpp:169-171 | the missing-file message names the missing path |
| Messages.ResultsMsgShape | src/main.cpp:179-190 | the summary is exactly the five summary lines, each terminated by '\n' and none containing another '\n' |
| Messages.ResultsMsgPlurals | src/main.cpp:183-187 | "error", "file", "match" and "mismatch" take their plural ending exactly when the count is not 1; the "missing" line never changes |
| Messages.ResultsMsgRoundTrip | src/main.cpp:179-190 | reading the summary back gives the five counts it was built from |
| Reporting.Reporter.PrintLog | src/main.cpp:153-157 | the console always receives the message; the log receives it only when there is a logger |
| Compare.IsExactMatch | src/main.cpp:137-151 | stepping both streams byte by byte returns `ExactMatch`: an open error naming the first unopenable file, or how the comparison ends: equal, unequal, or in the undefined increment past the second file's end |
| Compare.ExactMatch | src/main.cpp:137-151 | if the first file cannot be opened, the error names it whatever the second path is. If only the second fails, the error names the second. The comparison runs exactly when both files open. |
| Compare.NoLongerFirst | src/main.cpp:146-150 | when the first file is no longer than the second, the comparison never reaches undefined behaviour, and it finds the files equal exactly when the first is a prefix of the second |
| Compare.LongerFirst | src/main.cpp:146-150 | when the first file is longer, the comparison never finds the files equal. It reaches undefined behaviour exactly when the first file starts with the second and its next byte is 0xFF. |
| Compare.PastEndByte | src/main.cpp:146-150 | a one-byte first file against an empty second file: the byte 0xFF leads to undefined behaviour, any other byte to a mismatch |
| Compare.ExactMatchCases | src/main.cpp:137-150 | identical contents match; an empty first file or a first file that is a prefix of the second matches; a differing byte at an index inside both files is a mismatch; so is a longer first file that starts with the second and continues with a byte other than 0xFF |
| Traversal.Classify | src/main.cpp:62-86 | an entry is skipped exactly when `is_directory` says it is a directory, and is an uncounted error exactly when that query throws. It is missing exactly when it is not a directory and its counterpart does not exist, and then it names the counterpart. A mismatch names the entry and its counterpart. `Traversal.ClassifyOnTree` gives the outcome for every kind of node. |
| Traversal.Record | src/main.cpp:62-86 | a directory changes no counter. A missing counterpart adds one to `missing`, a match to `matches`, a mismatch to `mismatches` and an error to `errors`. Each also adds one to `count`, unless `is_directory` threw. An aborted comparison adds one to `count` only. |
| Traversal.ClassifyOnTree | src/main.cpp:62-86 | a directory is skipped. A failing status query is an error, counted in `count` only when it is not the first query. For any other entry, including one no longer in the tree: an absent counterpart is missing and no file is opened. A source or counterpart that cannot be opened is an error naming it. Two readable files are a match, a mismatch or an aborted run as the comparison ends. |
| Traversal.TallyBounds | src/main.cpp:62-86 | every entry is a directory, an aborted comparison, or lands in exactly one bucket. `count` plus the entries whose `is_directory` threw equals the bucket total plus the aborted comparisons. So, with no aborted comparison, `missing + matches + mismatches <= count <= missing + matches + mismatches + errors`, with equality on the right when that query never throws. |
| Traversal.EntryLog | src/main.cpp:64-86 | a directory, a match and an aborted comparison log nothing. A missing counterpart logs a message from which its path reads back. A mismatch logs a message from which both file names read back. An error logs the exception text without its first ten characters. |
| Traversal.FirstFaultIsFirst | src/main.cpp:59-89 | no entry before `FirstFault` aborts its comparison, and the entry at it does |
| Traversal.OutcomeAt | src/main.cpp:59-64 | the outcome at each position of the walk is the classification of the entry at that position |
| Traversal.ProcessEntry | src/main.cpp:62-86 | the per-entry block and its handler: the counters change as `Record` says for the entry's classification, exactly that entry's text is written, and the run halts exactly when the comparison aborts |
| Traversal.Visit | src/main.cpp:60-88 | one turn of the loop extends the tally and the text written from the first `i` entries to the first `i + 1`, and reports whether that entry aborted the run. An aborting entry leaves the spinner as it was. Otherwise the spinner is stepped with the turn's clock readings: unchanged below 250 ms since `past`, else one frame on with `past` reset. |
| Traversal.NoAbortsBefore | src/main.cpp:59-89 | the entries before the first aborting comparison contain no aborted outcome |
| Traversal.FinishedRunBounds | src/main.cpp:59-94 | in a run that finishes, the printed counters satisfy `missing + matches + mismatches <= count <= missing + matches + mismatches + errors` |
| Traversal.WalkEntries | src/main.cpp:59-89 | the loop stops exactly when some comparison aborts. The entries it gets through are all of them, or those up to and including the first aborting one. After the loop the counters are the tally of those entries' outcomes in walk order. The console has received their log text. So has the log, but only when there is a logger. |
| Traversal.RunDifferences | src/main.cpp:42-94 | the run's counters are the tally of the entries the walk gets through, which are all of them unless a comparison aborts. The console shows the search header, a blank line and the entry messages, then a blank line and the summary unless the run aborted. The log receives the header, the entry messages and, unless the run aborted, the summary, or nothing when no output path is given. |
| Traversal.SameAndDifferentFiles | src/main.cpp:42-94 | two trees with a shared identical file and a shared file differing in one byte give two files examined, no missing file, one match, one mismatch and no errors |
| Traversal.OnlyInFirst | src/main.cpp:64-73 | a file with no counterpart gives one file examined and one missing |
| Cli.Advance | src/utils/cli.cpp:19 | the frame index stays in `[0, 4)` |
| Cli.AdvanceByIsModular | src/utils/cli.cpp:19 | `n` frame changes move the frame index by `n` modulo 4 |
| Cli.FrameCycle | src/utils/cli.cpp:11-19 | the frames follow one another in the order `- \ \| /`, and four changes return to the starting frame |
| Cli.ElapsedReachesWait | src/utils/cli.cpp:9-18 | the truncated millisecond count reaches 250 exactly when the tick difference reaches 250 milliseconds' worth |
| Cli.Hourglass.constructor | src/utils/cli.cpp:8-13 | the statics start at the first clock reading and frame 0 |
| Cli.Hourglass.Tick | src/utils/cli.cpp:7-24 | the returned character is the current frame and one of `-`, `\`, `\|`, `/`. Below 250 ms since `past`, the state is unchanged. At or above it, the frame advances by one modulo 4 and `past` becomes the second clock reading. |

## Left out

- `main`, `getInputPath`, `getOutputPath` and `getPath` (src/main.cpp:29-40, 96-135): interactive prompts, and re-prompt loops driven by live file system state.
- `createDirectoryIfNeeded` (src/utils/filesystem.cpp:6-9): a file system side effect with nothing to state.
- The directory iterator: the walk is a parameter, in whatever order the iterator yields entries. Exceptions thrown by the iterator itself (src/main.cpp:59), outside the per-entry `try`, are not modelled.
- Symbolic links: `relative` first applies `weakly_canonical`, which resolves them. The model's `relative` is purely lexical, on paths given normalised.
- Paths.FindCorrespondingFile: never fails. In the program, the status queries `weakly_canonical` makes inside `relative` can throw. That happens inside the per-entry `try`, after `count` was incremented, so the entry would be a counted error. The model has no such error.
- Traversal.ProcessEntry: converting a path to a string (`path::string()`) never fails in the model. On the Windows build it converts the UTF-16 name to UTF-8 and throws `filesystem_error` for a name that is not valid UTF-16, such as one holding an unpaired surrogate. `missingMsg` (src/main.cpp:72) and `mismatchMsg` (:76) run after `++missing` and `++mismatches`, so such an entry counts in its bucket and in `errors` as well. `openErrorMsg` (:140, :144) throws the conversion error in place of the open error. So "every examined file lands in exactly one bucket" (`Traversal.TallyBounds`) holds for names the conversion accepts.
- Native path formatting: `PathString` writes the root as given and joins components with '\\'. Root-name rules, drive-relative paths and quoting beyond what the messages add are not modelled.
- Paths.FindCorrespondingFile: when `getRelativePath` falls back to an empty file name, C++ `searchDirectory / ""` adds a trailing separator. The model returns the search directory itself.
- Opening the log file (src/main.cpp:51-54): a non-empty output path is taken to give a working logger. `getOutputPath` re-prompts until the file can be opened, and a later failure would only make the stream writes no-ops.
- Stream buffering: the model's console and log are the text the program hands to the streams. When a comparison aborts the run, the process dies with the `ofstream` buffer unflushed, so the log file holds at most what had been flushed.
- Terminal cosmetics: the '\b' and spinner characters written to `cout` (src/main.cpp:60, 88, 90). The spinner's state is modelled and its character is returned; the writes are not.
- `system_clock::now()`: clock readings are parameters, counted in clock ticks, with the number of ticks per millisecond (`ticksPerMs`) fixed per spinner. Cli.Hourglass.Tick: `past` becomes the second reading, with no assumption that it is no earlier than the first, because `system_clock` is not monotonic.
- The function-local statics of `getHourglassCharacter` are initialised on the first call. `Cli.Hourglass.constructor` takes that first reading as a parameter.
- `long long` overflow of the counters: the counters are unbounded naturals.
- Other C++ library builds: MSVC's debug library aborts on dereferencing an exhausted `istreambuf_iterator`, and its release library yields a stale byte. Only the GNU library's behaviour described above is modelled. What the process does after the undefined increment is not modelled: the run simply ends there, with no summary.
- Messages.ErrorLogText: modelled for exception texts of at least ten characters (the `Message` type). A shorter text would make the pointer run past its end, which is undefined behaviour. `openErrorMsg` and the library's `filesystem_error` texts are all longer.
