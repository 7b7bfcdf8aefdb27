# Hour-bucketed status capture: a Dafny model

The repository holds two small Java programs that capture a public status
stream to disk: `StatusFilterStream` (statuses matching `-t` keywords and
`-l` bounding boxes) and `StatusSampleStream` (a random sample). Both register
the same listener. For each delivered status, `onStatus`:

1. computes the file name of the current hour, `yyyy.MM.dd_HH.gz`;
2. rotates when there is no writer yet or the name changed: it closes the old
   writer, prints `#tweets=<n> in <previous file>` and opens the new file in
   append mode;
3. writes the raw JSON of the status as one line;
4. increments `numTweetsInCurrentFile`;
5. remembers the name in `prevOutputFilename`.

The only difference between the two listeners is that the filter program also
echoes each record to standard output.

This project models:

- **`HourBucket`** (`bucket.dfy`): `getOutputFilename`, computed from the
  calendar fields of the hour. It is proved to be injective on well-formed
  hours (a parser reads the name back), and its layout is proved for
  four-digit years.
- **`RotatingSink`** (`sink.dfy`): the listener, modelled once with an `echo`
  flag.
  - The pure function `Step` is one `onStatus` call on the three fields. It
    acts on a world made of the files of the output directory (name to lines)
    and the console log.
  - `Run` is a sequence of calls.
  - The class `StatusSink` keeps the three mutable fields. Its method
    `OnStatus` mirrors the Java branches and is proved to compute exactly
    `Step`.
  - Whether opening a file succeeds is an input, so the failure paths are
    stated. The writer is `NoWriter` (null), `Open(file)`, or `Stale`, the
    closed writer left in place when reopening fails.
  - A failed first open makes `writer.println` dereference null. This is the
    `NullDereference` outcome, with the fields unchanged.
  - The counter is a Java `int` and wraps (`JavaInt`, `javaint.dfy`).
- **`FilterStream`** (`filter_stream.dfy`): the argument handling of
  `StatusFilterStream.main`.
  - The function `Scan` is the option loop. The method `ParseFilterArgs` is
    the loop as written, proved equal to `ParseArgs`.
  - The lemmas describe the outcome without the loop: which arguments are
    accepted, which option is rejected, and that the last `-t` and the last
    `-l` win.
  - Java's `String.split` is modelled in `JavaSplit` (`javasplit.dfy`):
    `split(",", 4)` keeps the rest in its last field, and `split(",")` drops
    trailing empty pieces.
  - An unknown token in option position leaves `argsIndex` unchanged, so the
    Java loop spins forever. This is the outcome `NoProgress(i)`.
- **`SampleStream`** (`sample_stream.dfy`): the argument check of
  `StatusSampleStream.main` and the listener without echo.

`Decimal` (`decimal.dfy`) holds the zero-padded and signed decimal texts, and
`Maybe` (`maybe.dfy`) holds `Option`.

Clock, filesystem and console are parameters:

- the hour is a `Bucket(year, month, day, hour)` argument;
- "the open succeeds" is a boolean per call;
- the files are a `map<string, seq<string>>` keyed by file name within the
  output directory;
- the console is a list of structured lines: `Summary(count, file)` on
  standard output, `OpenFailure(file)` for the stack trace on standard error,
  and `Echo(record)`. A `Summary(count, file)` line prints as
  `SummaryText(count, file)`.

The code behaves as follows:

- The summary line reads `#tweets=<n> in <file>`.
- The counter is never reset on rotation, so a summary reports the total
  since start (`CounterIsCumulative`, `SummaryReportsRunningTotal`).
- A failed reopen is not retried within the same hour
  (`StaleWriterLosesRestOfHour`).
- Nothing closes or flushes the writer at shutdown.

## Model

| member | source | states |
|---|---|---|
| Decimal.Digits | src/main/java/sanghoon/twitter/StatusFilterStream.java:130 | the decimal text of a natural number is non-empty, all digits, with no leading zero |
| Decimal.ValueOfDigits | src/main/java/sanghoon/twitter/StatusFilterStream.java:130 | reading the printed digits back gives the number |
| Decimal.Padded | src/main/java/sanghoon/twitter/StatusFilterStream.java:56 | a zero-padded calendar field is all digits and has length max(digit count, width) |
| Decimal.PaddedValue | src/main/java/sanghoon/twitter/StatusFilterStream.java:56 | leading zeros do not change the value of a padded field |
| Decimal.PaddedWidth | src/main/java/sanghoon/twitter/StatusSampleStream.java:36 | a field below 10^width is printed in exactly width characters |
| Decimal.IntText | src/main/java/sanghoon/twitter/StatusFilterStream.java:130 | Java's text of an int: its digits without leading zeros, preceded by '-' when negative; it reads back to the value |
| HourBucket.OutputFilename | src/main/java/sanghoon/twitter/StatusFilterStream.java:55-58 | the name is at least 16 characters and ends with ".gz" |
| HourBucket.ParseOutputFilename | src/main/java/sanghoon/twitter/StatusFilterStream.java:55-58 | the name of a well-formed hour parses back to that hour (round trip) |
| HourBucket.DistinctHoursDistinctFiles | src/main/java/sanghoon/twitter/StatusSampleStream.java:35-38 | two well-formed hours give the same file name if and only if they are the same hour |
| HourBucket.FilenameLayout | src/main/java/sanghoon/twitter/StatusSampleStream.java:35-38 | for a four-digit year the name is exactly dddd.dd.dd_dd.gz: 16 characters, separators at 4, 7 and 10, digits elsewhere |
| JavaInt.Inc | src/main/java/sanghoon/twitter/StatusFilterStream.java:150 | `++` adds one, except that the largest int wraps to the smallest |
| JavaInt.WrapCongruent | src/main/java/sanghoon/twitter/StatusFilterStream.java:119 | the int that a count wraps to differs from the count by a multiple of 2^32 |
| JavaInt.IncTimesWraps | src/main/java/sanghoon/twitter/StatusFilterStream.java:150 | n executions of `++` add n modulo 2^32 |
| JavaSplit.Pieces | src/main/java/sanghoon/twitter/StatusFilterStream.java:76 | a text with k commas has k + 1 comma-separated pieces |
| JavaSplit.PiecesHaveNoComma | src/main/java/sanghoon/twitter/StatusFilterStream.java:96 | no piece contains the separator |
| JavaSplit.JoinPieces | src/main/java/sanghoon/twitter/StatusFilterStream.java:96 | joining the pieces with commas gives the text back |
| JavaSplit.SplitLimit | src/main/java/sanghoon/twitter/StatusFilterStream.java:76 | `split(",", n)` yields min(commas + 1, n) fields |
| JavaSplit.SplitLimitJoins | src/main/java/sanghoon/twitter/StatusFilterStream.java:76 | the limited split is determined: each field but the last is the corresponding comma-free piece, and the last field is the rest of the text, commas included (all pieces when there are at most n); joining the fields gives the text back |
| JavaSplit.FourFieldsNeedThreeCommas | src/main/java/sanghoon/twitter/StatusFilterStream.java:76-77 | `split(",", 4)` yields fewer than four fields exactly when the text has fewer than three commas |
| JavaSplit.DropTrailingEmptyMeaning | src/main/java/sanghoon/twitter/StatusFilterStream.java:96 | exactly the empty pieces at the end are dropped, and the result ends in a non-empty piece |
| JavaSplit.SplitMeaning | src/main/java/sanghoon/twitter/StatusFilterStream.java:96 | `split(",")` is the text itself when it has no comma, otherwise a prefix of the pieces that drops only trailing empty ones |
| JavaSplit.Split | src/main/java/sanghoon/twitter/StatusFilterStream.java:96 | `split(",")` has at most one element per comma-separated piece, and is the text itself when it has no comma |
| JavaSplit.NoCommaOnePiece | src/main/java/sanghoon/twitter/StatusFilterStream.java:96 | a text without commas is one piece |
| RotatingSink.SummaryText | src/main/java/sanghoon/twitter/StatusFilterStream.java:130 | the summary is exactly "#tweets=", then Java's text of the count, then " in ", then the file name |
| RotatingSink.NullableText | src/main/java/sanghoon/twitter/StatusFilterStream.java:130 | concatenating a null String contributes "null", a non-null one its own text |
| RotatingSink.Println | src/main/java/sanghoon/twitter/StatusFilterStream.java:147 | an open writer appends the record as the last line of its file, which then exists, and leaves every other file alone; a closed writer loses it |
| RotatingSink.Rotate | src/main/java/sanghoon/twitter/StatusFilterStream.java:125-143 | rotation prints the summary of the old writer's count and previous file when a writer existed, then the open failure when the open fails, and nothing else; the writer is open on the new name exactly when the open succeeds, and null only when there was none and the open failed; no file's lines change, and the new file exists after a successful open |
| RotatingSink.Step | src/main/java/sanghoon/twitter/StatusFilterStream.java:121-153 | one `onStatus` call keeps the listener invariant, dereferences null exactly when there is no writer and the open fails, and only appends to the console |
| RotatingSink.Run | src/main/java/sanghoon/twitter/StatusFilterStream.java:121-153 | a sequence of calls gives one outcome per delivered status, keeps the listener invariant, and only appends to the console |
| RotatingSink.WriterAfterStep | src/main/java/sanghoon/twitter/StatusFilterStream.java:125-143 | rotation happens exactly when there is no writer or the name changed; otherwise the writer is kept, else it is the new file, or the closed old writer (null if none) when opening fails |
| RotatingSink.ConsoleAfterStep | src/main/java/sanghoon/twitter/StatusFilterStream.java:128-148 | a call prints, in order: the summary (only if a writer existed and rotation happens), the open failure, then the echo (filter variant, completed calls only) |
| RotatingSink.SummaryNamesPreviousFile | src/main/java/sanghoon/twitter/StatusFilterStream.java:128-131 | under the invariant, the summary at a rotation names the previous file, which is never null |
| RotatingSink.ListenerAfterStep | src/main/java/sanghoon/twitter/StatusFilterStream.java:145-152 | a call fails exactly when there is no writer and opening fails, and then leaves the fields unchanged; a completed call increments the counter and remembers this call's name |
| RotatingSink.FilesAfterStep | src/main/java/sanghoon/twitter/StatusFilterStream.java:123-147 | with an open writer, the record becomes the last line of this call's file and earlier lines are kept (append); otherwise no file changes; no other file ever changes |
| RotatingSink.FailedReopen | src/main/java/sanghoon/twitter/StatusFilterStream.java:133-152 | when reopening after a close fails, the closed writer stays and the record is lost, yet the call completes, counts, and remembers the new name |
| RotatingSink.FailedFirstOpen | src/main/java/sanghoon/twitter/StatusFilterStream.java:138-147 | a failed first open dereferences null: fields and files unchanged, only the failure is printed |
| RotatingSink.SuccessfulStep | src/main/java/sanghoon/twitter/StatusFilterStream.java:128-152 | when rotation happens and the open succeeds (from no writer, an open one, or the closed writer a failed reopen left), or no rotation is needed and the writer is open, the exact new state: writer open on the bucket's file, counter + 1, record appended, and a summary only on rotation from an existing writer |
| RotatingSink.CounterIsCumulative | src/main/java/sanghoon/twitter/StatusFilterStream.java:150 | after any run, the counter is the initial count incremented once per completed call: rotation never resets it |
| RotatingSink.OpensKeepCompleting | src/main/java/sanghoon/twitter/StatusFilterStream.java:133-147 | starting from a valid listener whose writer is not stale, while every open succeeds, every call completes and no writer is left stale |
| RotatingSink.EveryRecordInItsBucketFile | src/main/java/sanghoon/twitter/StatusFilterStream.java:134-147 | starting from a valid listener whose writer is not stale, while every open succeeds, each file ends with its earlier lines followed by exactly the records whose hour names it, in arrival order |
| RotatingSink.SameBucketSameFile | src/main/java/sanghoon/twitter/StatusSampleStream.java:63-87 | starting from a valid listener whose writer is not stale, while every open succeeds, records within one hour all go to that hour's file, in order, after its earlier lines, and no other file changes |
| RotatingSink.StaleWriterLosesRestOfHour | src/main/java/sanghoon/twitter/StatusFilterStream.java:125-152 | after a failed reopen, later records of the same hour never rotate: no summary or open failure is printed (only echoes), all records are counted, all are lost, and the writer stays closed |
| RotatingSink.StaleHourPrintsNoRotation | src/main/java/sanghoon/twitter/StatusFilterStream.java:125-131 | on a closed writer's own hour, a run prints nothing but echo lines |
| RotatingSink.SummaryReportsRunningTotal | src/main/java/sanghoon/twitter/StatusFilterStream.java:128-150 | two records in one hour, then one in the next: the second summary reports the initial count + 2, while the file it names received two lines |
| RotatingSink.EchoesAreCompletedRecords | src/main/java/sanghoon/twitter/StatusFilterStream.java:145-148 | the filter variant echoes exactly the records of completed calls, in order; the sample variant echoes nothing |
| RotatingSink.EchoOnlyPrints | src/main/java/sanghoon/twitter/StatusSampleStream.java:85-93 | with or without the echo, a run has the same fields, outcomes, files and non-echo console lines |
| RotatingSink.StatusSink.constructor | src/main/java/sanghoon/twitter/StatusSampleStream.java:56-59 | a new listener has no writer, no previous name and count 0 |
| RotatingSink.StatusSink.OnStatus | src/main/java/sanghoon/twitter/StatusSampleStream.java:61-93 | the imperative `onStatus` leaves exactly the fields, files, console and outcome that `Step` describes |
| FilterStream.ParseFilterArgs | src/main/java/sanghoon/twitter/StatusFilterStream.java:62-105 | the loop as written ends with the same result as the recursive description `ParseArgs` |
| FilterStream.ParseArgs | src/main/java/sanghoon/twitter/StatusFilterStream.java:62-105 | the argument handling ends in usage exactly when there are no arguments, and a parsed configuration's directory is the last argument |
| FilterStream.Scan | src/main/java/sanghoon/twitter/StatusFilterStream.java:71-100 | the option loop never ends in usage, and a parse that succeeds takes the last argument as the directory |
| FilterStream.ScanVerdict | src/main/java/sanghoon/twitter/StatusFilterStream.java:72-105 | from any even index: the arguments parse exactly when the count is odd and every option is accepted; the directory is missing exactly when it is even and all are accepted; the directory is the last argument |
| FilterStream.ScanTrack | src/main/java/sanghoon/twitter/StatusFilterStream.java:94-98 | the track kept is `split(",")` of the last `-t` value, or the earlier one when there is none |
| FilterStream.ScanLocations | src/main/java/sanghoon/twitter/StatusFilterStream.java:74-92 | the locations kept are the four fields of the last `-l` value, or the earlier ones when there is none |
| FilterStream.ScanFirstRejected | src/main/java/sanghoon/twitter/StatusFilterStream.java:72-100 | the first rejected option decides the error: too few fields for `-l`, otherwise no progress |
| FilterStream.ScanErrorAt | src/main/java/sanghoon/twitter/StatusFilterStream.java:72-100 | every error names an option position at or after the start, all options before it are accepted, and it is an `-l` with fewer than four fields or a token that is neither `-l` nor `-t` |
| FilterStream.ParsedExactly | src/main/java/sanghoon/twitter/StatusFilterStream.java:71-107 | the arguments are accepted if and only if they are accepted option pairs plus one final argument; then that argument is the directory and the last `-t` and `-l` win |
| FilterStream.MissingOutputDirExactly | src/main/java/sanghoon/twitter/StatusFilterStream.java:102-105 | "output-dir parameter is not specified" if and only if every option is accepted and the last one consumes the final argument |
| FilterStream.FirstRejectedOption | src/main/java/sanghoon/twitter/StatusFilterStream.java:74-80 | after accepted options, an `-l` with fewer than three commas is rejected as invalid locations, and an unknown token makes the loop spin |
| FilterStream.NewListener | src/main/java/sanghoon/twitter/StatusFilterStream.java:114-119 | the filter program's listener starts empty and echoes |
| SampleStream.OutputDirArgument | src/main/java/sanghoon/twitter/StatusSampleStream.java:42-47 | usage if and only if there is no argument; otherwise the directory is the first argument |
| SampleStream.ExtraArgumentsIgnored | src/main/java/sanghoon/twitter/StatusSampleStream.java:47 | arguments after the first do not matter |
| SampleStream.SameDirectoryAsFilter | src/main/java/sanghoon/twitter/StatusFilterStream.java:102-107 | given only a directory, both programs use it, and the filter program has no track and no locations |
| SampleStream.NewListener | src/main/java/sanghoon/twitter/StatusSampleStream.java:54-59 | the sample program's listener starts empty and does not echo |

## Left out

- The stream library (`TwitterStream`, `FilterQuery`, `TwitterObjectFactory.getRawJSON`, listener registration, `filter`/`sample`) is a foreign network library. A record is an opaque, non-null string, already one line of raw JSON. `getRawJSON` can throw or return null when the JSON store is off. That aborts the call after a rotation may already have set `writer` and before `prevOutputFilename` is set, so the next rotation prints `#tweets=0 in null`. The model does not capture this, so RotatingSink.SummaryNamesPreviousFile holds only in the model.
- The filter query settings (`track`, `locations`, the language "en") only matter to the remote service. The model stops at the parsed configuration.
- The empty callbacks (`onDeletionNotice`, `onTrackLimitationNotice`, `onScrubGeo`, `onStallWarning`, `onException`) do nothing.
- `GZIPOutputStream` and the UTF-8 writer are a foreign codec and buffering. A file is its sequence of lines. Appending a new gzip member is modelled as appending lines, and buffered data is treated as written.
- An open that fails after creating the file (the gzip header write failing) is not distinguished from one that fails before. A failed open leaves the files unchanged.
- `SimpleDateFormat`, `Date` and the time zone are the clock and a library. The hour is passed in as calendar fields, and well-formed means month 1-12, day 1-31 and hour 0-23.
- `mkdirs` and the output directory itself are filesystem effects. Files are keyed by their name within the one output directory.
- The usage text and the stack-trace text are I/O. The usage case is a result value, and a stack trace is a single `OpenFailure` console line.
- Whether the stream library survives the `NullPointerException` of a failed first open is decided by the stream library, which this program does not contain. The model stops that call with the `NullDereference` outcome and lets the next call run.
- Delivery threading belongs to the library. Calls are modelled one at a time.
- Write errors on an open writer are not modelled. `PrintWriter` swallows an `IOException` from `println` or `close`, for example on a full disk, so Java then loses the record silently and still counts it. In the model an `Open` writer always keeps the line.
- Closing or flushing at shutdown is absent from the code, so it is not modelled.
- FilterStream.ParsedExactly: the locations are kept as their four text fields. The model does not convert them with `Double.parseDouble`, which throws on a field that is not a number, including a fourth field that still holds commas. So the bounding-box array and that exception are not modelled.
- FilterStream.ScanVerdict, FilterStream.MissingOutputDirExactly, FilterStream.ScanFirstRejected, FilterStream.FirstRejectedOption, FilterStream.ScanErrorAt, FilterStream.Scan, FilterStream.ParseArgs and FilterStream.ParseFilterArgs: because `Double.parseDouble` is left out, an `-l` value with four or more fields counts as accepted even when a field is not a number. The program throws `NumberFormatException` at StatusFilterStream.java:82 for such a value, before any later verdict. For example, the model gives `MissingOutputDir` for `["-l", "a,b,c,d"]`, where the program throws.
- HourBucket.DistinctHoursDistinctFiles: distinct names are proved for distinct calendar labels only. `SimpleDateFormat` formats local time in the default locale. When daylight saving ends, one local hour repeats, so two real hours share one name and one file with no summary between them. Some locales also use a different calendar year, such as the Buddhist year under th_TH. Time zone and locale are not modelled.
- FilterStream.ParseArgs: the loop that never ends on an unknown token is the result `NoProgress(i)`, because it does not terminate.
