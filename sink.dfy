/**
 * The hour-bucketed rotating sink: the status listener that both stream
 * variants register. Per record it computes the bucket's file name, rotates
 * (closes the old writer, logs a summary, opens the new file for append)
 * when there is no writer or the name changed, writes the record as one
 * line, counts it and remembers the name.
 *
 * The filesystem is the map from file names inside the output directory to
 * their lines; the console is a log of structured lines. Whether opening the
 * file succeeds is an input, so that the failure paths can be stated.
 */
module RotatingSink {
  import opened Maybe
  import opened Decimal
  import opened JavaInt
  import opened HourBucket

  /** The listener's `writer` field: null, a writer open on a file, or the
      closed writer that stays in place when reopening failed. */
  datatype Writer = NoWriter | Open(file: string) | Stale

  /** The listener's three fields: `writer`, `prevOutputFilename`, `numTweetsInCurrentFile`. */
  datatype Listener = Listener(writer: Writer, prev: Option<string>, count: int32)

  /** What the listener prints: the rotation summary and the per-record echo
      on standard output, the stack trace of a failed open on standard error. */
  datatype LogLine = Summary(count: int32, file: string) | OpenFailure(file: string) | Echo(record: string)

  datatype World = World(files: map<string, seq<string>>, console: seq<LogLine>)

  /** A call either returns, or throws the NullPointerException of `writer.println`. */
  datatype Outcome = Completed | NullDereference

  datatype StepResult = StepResult(listener: Listener, world: World, outcome: Outcome)

  /** One delivered status: the bucket current when it is processed, its raw
      JSON text, and whether opening the bucket's file would succeed. */
  datatype Event = Event(bucket: Bucket, record: string, openOk: bool)

  datatype RunResult = RunResult(listener: Listener, world: World, outcomes: seq<Outcome>)

  /** The state at process start: no writer, no previous name, count 0. */
  const Initial := Listener(NoWriter, None, 0)

  /** The lines of a file; a file that does not exist has none. */
  function Lines(files: map<string, seq<string>>, f: string): seq<string> {
    if f in files then files[f] else []
  }

  /** Java's string concatenation of a possibly null String. */
  function NullableText(s: Option<string>): (t: string)
    ensures s.Some? ==> t == s.value
    ensures s.None? ==> t == "null"
  {
    match s
    case None => "null"
    case Some(t) => t
  }

  /** The stdout text of a summary line: `#tweets=<n> in <file>`. */
  function SummaryText(count: int32, file: string): (t: string)
    ensures var n := IntText(count as int);
      && |t| == 8 + |n| + 4 + |file|
      && t[..8] == "#tweets="
      && t[8..8 + |n|] == n
      && t[8 + |n|..12 + |n|] == " in "
      && t[12 + |n|..] == file
  {
    var n := IntText(count as int);
    var t := "#tweets=" + n + " in " + file;
    assert t[..8] == "#tweets=";
    assert t[8..8 + |n|] == n;
    assert t[8 + |n|..12 + |n|] == " in ";
    assert t[12 + |n|..] == file;
    t
  }

  /** The structural invariant of the listener fields: a writer exists once a
      name has been remembered, and an open writer is on the remembered file. */
  predicate Valid(l: Listener) {
    && (l.writer == NoWriter <==> l.prev == None)
    && (l.writer.Open? ==> l.prev == Some(l.writer.file))
  }

  /** The rotation test: `writer == null || !outputFilename.equals(prevOutputFilename)`. */
  predicate NeedsRotation(l: Listener, name: string) {
    l.writer == NoWriter || l.prev != Some(name)
  }

  /** `writer.println(record)`: one line at the end of the open file; lost on
      a closed writer. */
  function Println(w: Writer, files: map<string, seq<string>>, record: string): (r: map<string, seq<string>>)
    requires w != NoWriter
    ensures w.Open? ==> Lines(r, w.file) == Lines(files, w.file) + [record] && r.Keys == files.Keys + {w.file}
    ensures w.Stale? ==> r == files
    ensures forall f :: w.Open? && f != w.file ==> Lines(r, f) == Lines(files, f)
  {
    match w
    case Open(f) => files[f := Lines(files, f) + [record]]
    case Stale => files
  }

  /** The rotation block: close and summarise the old writer if there is one,
      then open `name` for append or report the failure. */
  function Rotate(l: Listener, w: World, name: string, openOk: bool): (r: (Writer, World))
    ensures r.0.Open? <==> openOk
    ensures r.0.Open? ==> r.0.file == name
    ensures r.0 == NoWriter <==> l.writer == NoWriter && !openOk
    ensures forall f :: Lines(r.1.files, f) == Lines(w.files, f)
    ensures r.1.files.Keys == if openOk then w.files.Keys + {name} else w.files.Keys
    ensures |w.console| <= |r.1.console| && r.1.console[..|w.console|] == w.console
    ensures OpenFailure(name) in r.1.console[|w.console|..] <==> !openOk
    ensures r.1.console == w.console
      + (if l.writer == NoWriter then [] else [Summary(l.count, NullableText(l.prev))])
      + (if openOk then [] else [OpenFailure(name)])
  {
    var closed := if l.writer == NoWriter then NoWriter else Stale;
    var summary := if l.writer == NoWriter then [] else [Summary(l.count, NullableText(l.prev))];
    if openOk then (Open(name), World(w.files[name := Lines(w.files, name)], w.console + summary))
    else
      assert (w.console + summary + [OpenFailure(name)])[|w.console|..] == summary + [OpenFailure(name)];
      (closed, World(w.files, w.console + summary + [OpenFailure(name)]))
  }

  /** `onStatus` for one record; `echo` is true for the filter variant, which
      also prints each record to standard output. */
  function Step(l: Listener, w: World, b: Bucket, record: string, openOk: bool, echo: bool): (r: StepResult)
    ensures Valid(l) ==> Valid(r.listener)
    ensures r.outcome == NullDereference <==> l.writer == NoWriter && !openOk
    ensures |w.console| <= |r.world.console| && r.world.console[..|w.console|] == w.console
  {
    var name := OutputFilename(b);
    var (writer, w1) := if NeedsRotation(l, name) then Rotate(l, w, name, openOk) else (l.writer, w);
    if writer == NoWriter then
      StepResult(l, w1, NullDereference)
    else
      var console := if echo then w1.console + [Echo(record)] else w1.console;
      StepResult(Listener(writer, Some(name), Inc(l.count)), World(Println(writer, w1.files, record), console), Completed)
  }

  /** A sequence of deliveries, one `onStatus` call after another. */
  function Run(l: Listener, w: World, events: seq<Event>, echo: bool): (r: RunResult)
    ensures |r.outcomes| == |events|
    ensures Valid(l) ==> Valid(r.listener)
    ensures |w.console| <= |r.world.console| && r.world.console[..|w.console|] == w.console
    decreases |events|
  {
    if events == [] then RunResult(l, w, [])
    else
      var e := events[0];
      var s := Step(l, w, e.bucket, e.record, e.openOk, echo);
      var rest := Run(s.listener, s.world, events[1..], echo);
      RunResult(rest.listener, rest.world, [s.outcome] + rest.outcomes)
  }

  // ---------------------------------------------------------------------
  // One call
  // ---------------------------------------------------------------------

  /** Rotation happens exactly when there is no writer or the name changed:
      without it the writer is kept; with it the writer is the newly opened
      file, or, when opening fails, the closed old writer (null if there was none). */
  lemma WriterAfterStep(l: Listener, w: World, b: Bucket, record: string, openOk: bool, echo: bool)
    ensures var name := OutputFilename(b);
      Step(l, w, b, record, openOk, echo).listener.writer ==
        if !NeedsRotation(l, name) then l.writer
        else if openOk then Open(name)
        else if l.writer == NoWriter then NoWriter
        else Stale
  {
  }

  /** What is printed by one call, in order: the summary of the previous file
      (only when a writer existed and rotation happens), then the report of a
      failed open, then the echo of the record (filter variant, completed calls only). */
  lemma ConsoleAfterStep(l: Listener, w: World, b: Bucket, record: string, openOk: bool, echo: bool)
    ensures var r := Step(l, w, b, record, openOk, echo);
      r.world.console == w.console + RotationLog(l, OutputFilename(b), openOk)
                         + (if echo && r.outcome == Completed then [Echo(record)] else [])
  {
    var name := OutputFilename(b);
    ConcatAssoc(w.console, SummaryLog(l, name), FailureLog(l, name, openOk));
  }

  /** The summary one call prints: only when a writer existed and rotation happens. */
  function SummaryLog(l: Listener, name: string): seq<LogLine> {
    if NeedsRotation(l, name) && l.writer != NoWriter then [Summary(l.count, NullableText(l.prev))] else []
  }

  /** The failure report one call prints: only when rotation happens and the open fails. */
  function FailureLog(l: Listener, name: string, openOk: bool): seq<LogLine> {
    if NeedsRotation(l, name) && !openOk then [OpenFailure(name)] else []
  }

  /** The lines one call prints before the echo. */
  function RotationLog(l: Listener, name: string, openOk: bool): seq<LogLine> {
    SummaryLog(l, name) + FailureLog(l, name, openOk)
  }

  /** The summary names the previous file, which the invariant guarantees
      is not null when a writer exists. */
  lemma SummaryNamesPreviousFile(l: Listener, w: World, b: Bucket, record: string, openOk: bool, echo: bool)
    requires Valid(l) && l.writer != NoWriter && NeedsRotation(l, OutputFilename(b))
    ensures l.prev.Some?
    ensures Step(l, w, b, record, openOk, echo).world.console[|w.console|] == Summary(l.count, l.prev.value)
  {
  }

  /** A call completes unless there was no writer and opening failed; a
      completed call counts the record and remembers the bucket's name, and
      the counter is never reset. A call that dereferences null changes
      none of the listener's fields. */
  lemma ListenerAfterStep(l: Listener, w: World, b: Bucket, record: string, openOk: bool, echo: bool)
    ensures var r := Step(l, w, b, record, openOk, echo);
      && (r.outcome == NullDereference <==> l.writer == NoWriter && !openOk)
      && (r.outcome == Completed ==> r.listener.count == Inc(l.count) && r.listener.prev == Some(OutputFilename(b)))
      && (r.outcome == NullDereference ==> r.listener == l)
  {
  }

  /** The record lands in the file named by the bucket computed in this call,
      after the lines that file already had (append mode), whenever the writer
      that results is open; otherwise no file changes. No other file changes
      in any case, and the only file that may appear is the bucket's. */
  lemma FilesAfterStep(l: Listener, w: World, b: Bucket, record: string, openOk: bool, echo: bool)
    requires Valid(l)
    ensures var name := OutputFilename(b);
      var r := Step(l, w, b, record, openOk, echo);
      && (r.listener.writer.Open? ==>
            && r.listener.writer.file == name
            && Lines(r.world.files, name) == Lines(w.files, name) + [record]
            && r.world.files.Keys == w.files.Keys + {name})
      && (!r.listener.writer.Open? ==> r.world.files == w.files)
      && (forall f :: f != name ==> Lines(r.world.files, f) == Lines(w.files, f))
  {
  }

  /** Failed reopen after a close: the closed writer stays, the record is
      lost, yet the count goes up and the new name is remembered. */
  lemma FailedReopen(l: Listener, w: World, b: Bucket, record: string, echo: bool)
    requires l.writer != NoWriter && NeedsRotation(l, OutputFilename(b))
    ensures var r := Step(l, w, b, record, false, echo);
      && r.outcome == Completed
      && r.listener == Listener(Stale, Some(OutputFilename(b)), Inc(l.count))
      && r.world.files == w.files
  {
  }

  /** Failed first open: `writer.println` dereferences null, so the listener is
      unchanged, nothing is written, and only the failure is reported. */
  lemma FailedFirstOpen(l: Listener, w: World, b: Bucket, record: string, echo: bool)
    requires l.writer == NoWriter
    ensures var r := Step(l, w, b, record, false, echo);
      r == StepResult(l, World(w.files, w.console + [OpenFailure(OutputFilename(b))]), NullDereference)
  {
  }

  /** A call whose writer ends open (the open succeeded, or no rotation was
      needed and the writer was open) completes with the writer on the
      bucket's file and the record as that file's new last line. */
  lemma SuccessfulStep(l: Listener, w: World, b: Bucket, record: string, openOk: bool, echo: bool)
    requires Valid(l)
    requires if NeedsRotation(l, OutputFilename(b)) then openOk else !l.writer.Stale?
    ensures var name := OutputFilename(b);
      var logged := if NeedsRotation(l, name) && l.writer != NoWriter
                    then w.console + [Summary(l.count, NullableText(l.prev))] else w.console;
      Step(l, w, b, record, openOk, echo) == StepResult(
        Listener(Open(name), Some(name), Inc(l.count)),
        World(w.files[name := Lines(w.files, name) + [record]], if echo then logged + [Echo(record)] else logged),
        Completed)
  {
    var name := OutputFilename(b);
    if NeedsRotation(l, name) {
      assert w.files[name := Lines(w.files, name)][name := Lines(w.files, name) + [record]]
          == w.files[name := Lines(w.files, name) + [record]];
    }
  }

  // ---------------------------------------------------------------------
  // Many calls
  // ---------------------------------------------------------------------

  /** The records, in order, of the events whose bucket names file `f`. */
  function RecordsFor(events: seq<Event>, f: string): (rs: seq<string>)
    ensures |rs| <= |events|
  {
    if events == [] then []
    else (if OutputFilename(events[0].bucket) == f then [events[0].record] else []) + RecordsFor(events[1..], f)
  }

  function Records(events: seq<Event>): (rs: seq<string>)
    ensures |rs| == |events|
    ensures forall i :: 0 <= i < |events| ==> rs[i] == events[i].record
  {
    if events == [] then [] else [events[0].record] + Records(events[1..])
  }

  function CountCompleted(outcomes: seq<Outcome>): (n: nat)
    ensures n <= |outcomes|
  {
    if outcomes == [] then 0
    else (if outcomes[0] == Completed then 1 else 0) + CountCompleted(outcomes[1..])
  }

  predicate AllOpensSucceed(events: seq<Event>) {
    forall i :: 0 <= i < |events| ==> events[i].openOk
  }

  predicate AllInBucket(events: seq<Event>, b: Bucket) {
    forall i :: 0 <= i < |events| ==> events[i].bucket == b
  }

  /** The counter after any sequence of calls is the initial count plus one
      increment per completed call: rotation never resets it, so a summary
      reports the total since start, not the lines of the file it names. */
  lemma {:induction false} CounterIsCumulative(l: Listener, w: World, events: seq<Event>, echo: bool)
    ensures var r := Run(l, w, events, echo);
      r.listener.count == IncTimes(l.count, CountCompleted(r.outcomes))
    decreases |events|
  {
    if events != [] {
      var e := events[0];
      var s := Step(l, w, e.bucket, e.record, e.openOk, echo);
      var rest := Run(s.listener, s.world, events[1..], echo);
      RunSteps(l, w, events, echo);
      CounterIsCumulative(s.listener, s.world, events[1..], echo);
      CountAfterStep(l, w, e.bucket, e.record, e.openOk, echo);
      CountsAdd(l.count, s, rest);
    }
  }

  lemma CountAfterStep(l: Listener, w: World, b: Bucket, record: string, openOk: bool, echo: bool)
    ensures var r := Step(l, w, b, record, openOk, echo);
      r.listener.count == if r.outcome == Completed then Inc(l.count) else l.count
  {
  }

  lemma CountsAdd(c: int32, s: StepResult, rest: RunResult)
    requires s.listener.count == if s.outcome == Completed then Inc(c) else c
    requires rest.listener.count == IncTimes(s.listener.count, CountCompleted(rest.outcomes))
    ensures rest.listener.count == IncTimes(c, CountCompleted([s.outcome] + rest.outcomes))
  {
    CountCompletedCons(s.outcome, rest.outcomes);
    if s.outcome == Completed {
      IncTimesShift(c, CountCompleted(rest.outcomes));
    }
  }

  lemma CountCompletedCons(o: Outcome, os: seq<Outcome>)
    ensures CountCompleted([o] + os) == (if o == Completed then 1 else 0) + CountCompleted(os)
  {
    assert ([o] + os)[1..] == os;
  }

  /** While every open succeeds, starting from a listener without a stale
      writer, every call completes and no writer is left stale. */
  lemma {:induction false} OpensKeepCompleting(l: Listener, w: World, events: seq<Event>, echo: bool)
    requires Valid(l) && !l.writer.Stale? && AllOpensSucceed(events)
    ensures var r := Run(l, w, events, echo);
      && (forall i :: 0 <= i < |events| ==> r.outcomes[i] == Completed)
      && Valid(r.listener) && !r.listener.writer.Stale?
    decreases |events|
  {
    if events != [] {
      var e := events[0];
      var s := Step(l, w, e.bucket, e.record, e.openOk, echo);
      var rest := Run(s.listener, s.world, events[1..], echo);
      OpensSucceedTail(events);
      OpenedStep(l, w, e.bucket, e.record, e.openOk, echo);
      OpensKeepCompleting(s.listener, s.world, events[1..], echo);
      RunSteps(l, w, events, echo);
      AllCompletedCons(s.outcome, rest.outcomes);
    }
  }

  /** While every open succeeds, no record is lost or misplaced: starting from
      a listener without a stale writer, each file ends up with the lines it
      had, followed by exactly the records whose bucket names it, in arrival
      order. */
  lemma {:induction false} EveryRecordInItsBucketFile(l: Listener, w: World, events: seq<Event>, echo: bool, f: string)
    requires Valid(l) && !l.writer.Stale? && AllOpensSucceed(events)
    ensures Lines(Run(l, w, events, echo).world.files, f) == Lines(w.files, f) + RecordsFor(events, f)
    decreases |events|
  {
    if events != [] {
      var e := events[0];
      var s := Step(l, w, e.bucket, e.record, e.openOk, echo);
      OpensSucceedTail(events);
      OpenedStep(l, w, e.bucket, e.record, e.openOk, echo);
      EveryRecordInItsBucketFile(s.listener, s.world, events[1..], echo, f);
      RunSteps(l, w, events, echo);
      AppendThenRest(w.files, events, f, s.world.files, Run(s.listener, s.world, events[1..], echo).world.files);
    }
  }

  /** One record appended to its bucket's file, followed by the records of
      a run of the later events, is the records of all the events. */
  lemma AppendThenRest(files: map<string, seq<string>>, events: seq<Event>, f: string,
                       mid: map<string, seq<string>>, final: map<string, seq<string>>)
    requires events != []
    requires var e := events[0];
      mid == files[OutputFilename(e.bucket) := Lines(files, OutputFilename(e.bucket)) + [e.record]]
    requires Lines(final, f) == Lines(mid, f) + RecordsFor(events[1..], f)
    ensures Lines(final, f) == Lines(files, f) + RecordsFor(events, f)
  {
    AppendOneRecord(files, OutputFilename(events[0].bucket), events[0], events[1..], f);
    assert [events[0]] + events[1..] == events;
  }

  /** A call with a successful open (or none needed) on a listener without a
      stale writer appends the record to its bucket's file and completes. */
  lemma OpenedStep(l: Listener, w: World, b: Bucket, record: string, openOk: bool, echo: bool)
    requires Valid(l) && !l.writer.Stale? && openOk
    ensures var r := Step(l, w, b, record, openOk, echo);
      && r.world.files == w.files[OutputFilename(b) := Lines(w.files, OutputFilename(b)) + [record]]
      && r.outcome == Completed && Valid(r.listener) && !r.listener.writer.Stale?
  {
    SuccessfulStep(l, w, b, record, openOk, echo);
  }

  lemma OpensSucceedTail(events: seq<Event>)
    requires events != [] && AllOpensSucceed(events)
    ensures events[0].openOk && AllOpensSucceed(events[1..])
  {
    assert events[0].openOk;
    forall i | 0 <= i < |events[1..]| ensures events[1..][i].openOk {
      assert events[1..][i] == events[i + 1];
    }
  }

  lemma AllCompletedCons(o: Outcome, os: seq<Outcome>)
    requires o == Completed && forall i :: 0 <= i < |os| ==> os[i] == Completed
    ensures forall i :: 0 <= i < |os| + 1 ==> ([o] + os)[i] == Completed
  {
  }

  lemma AppendOneRecord(files: map<string, seq<string>>, name: string, e: Event, tail: seq<Event>, f: string)
    requires name == OutputFilename(e.bucket)
    ensures Lines(files[name := Lines(files, name) + [e.record]], f) + RecordsFor(tail, f)
         == Lines(files, f) + RecordsFor([e] + tail, f)
  {
    var mine: seq<string> := if name == f then [e.record] else [];
    LinesAfterAppend(files, name, e.record, f);
    RecordsForCons(e, tail, f);
    ConcatAssoc(Lines(files, f), mine, RecordsFor(tail, f));
  }

  lemma ConcatAssoc<T>(a: seq<T>, b: seq<T>, c: seq<T>)
    ensures (a + b) + c == a + (b + c)
  {
  }

  lemma LinesAfterAppend(files: map<string, seq<string>>, name: string, record: string, f: string)
    ensures Lines(files[name := Lines(files, name) + [record]], f)
         == Lines(files, f) + (if name == f then [record] else [])
  {
  }

  lemma RecordsForCons(e: Event, tail: seq<Event>, f: string)
    ensures RecordsFor([e] + tail, f) == (if OutputFilename(e.bucket) == f then [e.record] else []) + RecordsFor(tail, f)
  {
    assert ([e] + tail)[1..] == tail;
  }

  /** Records delivered within one hour bucket all appear in that bucket's
      single file, after what it held before, in arrival order; no other
      file changes. */
  lemma {:induction false} SameBucketSameFile(l: Listener, w: World, b: Bucket, events: seq<Event>, echo: bool)
    requires Valid(l) && !l.writer.Stale? && AllOpensSucceed(events) && AllInBucket(events, b)
    ensures var r := Run(l, w, events, echo);
      && Lines(r.world.files, OutputFilename(b)) == Lines(w.files, OutputFilename(b)) + Records(events)
      && (forall f :: f != OutputFilename(b) ==> Lines(r.world.files, f) == Lines(w.files, f))
  {
    forall f ensures Lines(Run(l, w, events, echo).world.files, f)
                  == Lines(w.files, f) + if f == OutputFilename(b) then Records(events) else [] {
      EveryRecordInItsBucketFile(l, w, events, echo, f);
      RecordsForOneBucket(events, b, f);
    }
  }

  lemma {:induction false} RecordsForOneBucket(events: seq<Event>, b: Bucket, f: string)
    requires AllInBucket(events, b)
    ensures RecordsFor(events, f) == if f == OutputFilename(b) then Records(events) else []
    decreases |events|
  {
    if events != [] {
      InBucketTail(events, b);
      RecordsForOneBucket(events[1..], b, f);
    }
  }

  /** After a failed reopen the closed writer is never replaced within the
      same hour: every later record of that bucket is counted but lost,
      whether or not opening would now succeed. */
  lemma {:induction false} StaleWriterLosesRestOfHour(l: Listener, w: World, b: Bucket, events: seq<Event>, echo: bool)
    requires l.writer == Stale && l.prev == Some(OutputFilename(b)) && AllInBucket(events, b)
    ensures var r := Run(l, w, events, echo);
      && r.world.files == w.files
      && r.listener.writer == Stale && r.listener.prev == l.prev
      && r.listener.count == IncTimes(l.count, |events|)
      && (forall i :: 0 <= i < |events| ==> r.outcomes[i] == Completed)
      && WithoutEchoes(r.world.console) == WithoutEchoes(w.console)
    decreases |events|
  {
    StaleHourPrintsNoRotation(l, w, b, events, echo);
    if events != [] {
      var e := events[0];
      var s := Step(l, w, e.bucket, e.record, e.openOk, echo);
      var rest := Run(s.listener, s.world, events[1..], echo);
      InBucketTail(events, b);
      StaleStep(l, w, b, e.record, e.openOk, echo);
      StaleWriterLosesRestOfHour(s.listener, s.world, b, events[1..], echo);
      RunSteps(l, w, events, echo);
      StaleCombine(l, w, |events|, s, rest);
    }
  }

  /** On the stale writer's own hour nothing rotates, so no summary and no
      open failure is printed: the console gains at most echo lines. */
  lemma {:induction false} StaleHourPrintsNoRotation(l: Listener, w: World, b: Bucket, events: seq<Event>, echo: bool)
    requires l.writer == Stale && l.prev == Some(OutputFilename(b)) && AllInBucket(events, b)
    ensures WithoutEchoes(Run(l, w, events, echo).world.console) == WithoutEchoes(w.console)
    decreases |events|
  {
    if events != [] {
      var e := events[0];
      var s := Step(l, w, e.bucket, e.record, e.openOk, echo);
      InBucketTail(events, b);
      StaleStep(l, w, b, e.record, e.openOk, echo);
      StaleStepConsole(l, w, b, e.record, e.openOk, echo);
      StaleHourPrintsNoRotation(s.listener, s.world, b, events[1..], echo);
      RunSteps(l, w, events, echo);
    }
  }

  lemma StaleStepConsole(l: Listener, w: World, b: Bucket, record: string, openOk: bool, echo: bool)
    requires l.writer == Stale && l.prev == Some(OutputFilename(b))
    ensures WithoutEchoes(Step(l, w, b, record, openOk, echo).world.console) == WithoutEchoes(w.console)
  {
    ConsoleAfterStep(l, w, b, record, openOk, echo);
    assert RotationLog(l, OutputFilename(b), openOk) == [];
    WithoutEchoesOfAppended(w.console, [], echo, record);
    assert w.console + [] == w.console;
  }

  /** On the stale writer's own hour a call only counts the record. */
  lemma StaleStep(l: Listener, w: World, b: Bucket, record: string, openOk: bool, echo: bool)
    requires l.writer == Stale && l.prev == Some(OutputFilename(b))
    ensures var r := Step(l, w, b, record, openOk, echo);
      r.listener == Listener(Stale, l.prev, Inc(l.count)) && r.world.files == w.files && r.outcome == Completed
  {
  }

  lemma InBucketTail(events: seq<Event>, b: Bucket)
    requires events != [] && AllInBucket(events, b)
    ensures events[0].bucket == b && AllInBucket(events[1..], b)
  {
    assert events[0].bucket == b;
    forall i | 0 <= i < |events[1..]| ensures events[1..][i].bucket == b {
      assert events[1..][i] == events[i + 1];
    }
  }

  lemma StaleCombine(l: Listener, w: World, n: nat, s: StepResult, rest: RunResult)
    requires n >= 1 && |rest.outcomes| == n - 1
    requires s.listener == Listener(Stale, l.prev, Inc(l.count)) && s.world.files == w.files && s.outcome == Completed
    requires && rest.world.files == s.world.files
             && rest.listener.writer == Stale && rest.listener.prev == s.listener.prev
             && rest.listener.count == IncTimes(s.listener.count, n - 1)
             && (forall i :: 0 <= i < n - 1 ==> rest.outcomes[i] == Completed)
    ensures && rest.world.files == w.files
            && rest.listener.writer == Stale && rest.listener.prev == l.prev
            && rest.listener.count == IncTimes(l.count, n)
            && (forall i :: 0 <= i < n ==> ([s.outcome] + rest.outcomes)[i] == Completed)
  {
    IncTimesShift(l.count, n - 1);
    forall i | 0 <= i < n ensures ([s.outcome] + rest.outcomes)[i] == Completed {
      if i > 0 {
        assert ([s.outcome] + rest.outcomes)[i] == rest.outcomes[i - 1];
      }
    }
  }

  /** Two records in one hour, then one in the next: the summary written at
      the second rotation reports the count since process start plus two,
      although the file it names received two lines during this hour. */
  lemma SummaryReportsRunningTotal(l: Listener, w: World, b2: Bucket, b3: Bucket, r2: string, r3: string, r4: string)
    requires Valid(l) && !l.writer.Stale? && l.prev != Some(OutputFilename(b2))
    requires WellFormed(b2) && WellFormed(b3) && b2 != b3
    ensures var r := Run(l, w, [Event(b2, r2, true), Event(b2, r3, true), Event(b3, r4, true)], false);
      var n2 := OutputFilename(b2);
      && r.world.console == w.console
           + (if l.writer == NoWriter then [] else [Summary(l.count, NullableText(l.prev))])
           + [Summary(Inc(Inc(l.count)), n2)]
      && Lines(r.world.files, n2) == Lines(w.files, n2) + [r2, r3]
  {
    var n2 := OutputFilename(b2);
    var events := [Event(b2, r2, true), Event(b2, r3, true), Event(b3, r4, true)];
    var s2 := TwoInOneHour(l, w, b2, r2, r3);
    DistinctHoursDistinctFiles(b2, b3);
    SuccessfulStep(s2.listener, s2.world, b3, r4, true, false);
    var s3 := Step(s2.listener, s2.world, b3, r4, true, false);
    assert s3.world.console == s2.world.console + [Summary(Inc(Inc(l.count)), n2)];
    assert Lines(s3.world.files, n2) == Lines(s2.world.files, n2);
    RunThree(l, w, events, false);
  }

  /** The first two calls of the scenario above. */
  lemma TwoInOneHour(l: Listener, w: World, b: Bucket, r1: string, r2: string) returns (s: StepResult)
    requires Valid(l) && !l.writer.Stale? && l.prev != Some(OutputFilename(b))
    ensures var s1 := Step(l, w, b, r1, true, false);
      s == Step(s1.listener, s1.world, b, r2, true, false)
    ensures var n := OutputFilename(b);
      && s.listener == Listener(Open(n), Some(n), Inc(Inc(l.count)))
      && s.world.console == w.console + (if l.writer == NoWriter then [] else [Summary(l.count, NullableText(l.prev))])
      && Lines(s.world.files, n) == Lines(w.files, n) + [r1, r2]
  {
    var n := OutputFilename(b);
    SuccessfulStep(l, w, b, r1, true, false);
    var s1 := Step(l, w, b, r1, true, false);
    SuccessfulStep(s1.listener, s1.world, b, r2, true, false);
    s := Step(s1.listener, s1.world, b, r2, true, false);
    assert Lines(s.world.files, n) == (Lines(w.files, n) + [r1]) + [r2];
    ConcatAssoc(Lines(w.files, n), [r1], [r2]);
    assert [r1] + [r2] == [r1, r2];
  }

  /** A run of three calls is the three calls one after another. */
  lemma RunThree(l: Listener, w: World, events: seq<Event>, echo: bool)
    requires |events| == 3
    ensures var s1 := Step(l, w, events[0].bucket, events[0].record, events[0].openOk, echo);
      var s2 := Step(s1.listener, s1.world, events[1].bucket, events[1].record, events[1].openOk, echo);
      var s3 := Step(s2.listener, s2.world, events[2].bucket, events[2].record, events[2].openOk, echo);
      Run(l, w, events, echo).world == s3.world
  {
    var s1 := Step(l, w, events[0].bucket, events[0].record, events[0].openOk, echo);
    var s2 := Step(s1.listener, s1.world, events[1].bucket, events[1].record, events[1].openOk, echo);
    RunSteps(l, w, events, echo);
    RunSteps(s1.listener, s1.world, events[1..], echo);
    RunSteps(s2.listener, s2.world, events[1..][1..], echo);
    assert events[1..][1..][1..] == [];
  }

  // ---------------------------------------------------------------------
  // The two variants: with and without the echo
  // ---------------------------------------------------------------------

  /** The records printed by echo lines, in order. */
  function EchoedRecords(lines: seq<LogLine>): (rs: seq<string>)
    ensures |rs| <= |lines|
  {
    if lines == [] then []
    else (if lines[0].Echo? then [lines[0].record] else []) + EchoedRecords(lines[1..])
  }

  /** The console without the echo lines. */
  function WithoutEchoes(lines: seq<LogLine>): (r: seq<LogLine>)
    ensures |r| <= |lines|
  {
    if lines == [] then []
    else (if lines[0].Echo? then [] else [lines[0]]) + WithoutEchoes(lines[1..])
  }

  /** The records of the calls that completed. */
  function CompletedRecords(events: seq<Event>, outcomes: seq<Outcome>): (rs: seq<string>)
    requires |events| == |outcomes|
    ensures |rs| <= |events|
  {
    if events == [] then []
    else
      (if outcomes[0] == Completed then [events[0].record] else [])
        + CompletedRecords(events[1..], outcomes[1..])
  }

  lemma {:induction false} EchoedRecordsAppend(a: seq<LogLine>, b: seq<LogLine>)
    ensures EchoedRecords(a + b) == EchoedRecords(a) + EchoedRecords(b)
    decreases |a|
  {
    if a == [] {
      assert a + b == b;
    } else {
      assert (a + b)[1..] == a[1..] + b;
      EchoedRecordsAppend(a[1..], b);
      ConcatAssoc(if a[0].Echo? then [a[0].record] else [], EchoedRecords(a[1..]), EchoedRecords(b));
    }
  }

  lemma {:induction false} WithoutEchoesAppend(a: seq<LogLine>, b: seq<LogLine>)
    ensures WithoutEchoes(a + b) == WithoutEchoes(a) + WithoutEchoes(b)
    decreases |a|
  {
    if a == [] {
      assert a + b == b;
    } else {
      assert (a + b)[1..] == a[1..] + b;
      WithoutEchoesAppend(a[1..], b);
      ConcatAssoc(if a[0].Echo? then [] else [a[0]], WithoutEchoes(a[1..]), WithoutEchoes(b));
    }
  }

  /** The lines printed before the echo are no echo lines. */
  lemma RotationLogHasNoEcho(l: Listener, name: string, openOk: bool)
    ensures EchoedRecords(RotationLog(l, name, openOk)) == []
    ensures WithoutEchoes(RotationLog(l, name, openOk)) == RotationLog(l, name, openOk)
  {
    EchoedRecordsAppend(SummaryLog(l, name), FailureLog(l, name, openOk));
    WithoutEchoesAppend(SummaryLog(l, name), FailureLog(l, name, openOk));
  }

  /** One call adds to the echoed records the record itself, when the
      variant echoes and the call completes, and nothing else. */
  lemma EchoedAfterStep(l: Listener, w: World, b: Bucket, record: string, openOk: bool, echo: bool)
    ensures var r := Step(l, w, b, record, openOk, echo);
      EchoedRecords(r.world.console)
        == EchoedRecords(w.console) + (if echo && r.outcome == Completed then [record] else [])
  {
    var r := Step(l, w, b, record, openOk, echo);
    var printed := echo && r.outcome == Completed;
    ConsoleAfterStep(l, w, b, record, openOk, echo);
    RotationLogHasNoEcho(l, OutputFilename(b), openOk);
    EchoedOfAppended(w.console, RotationLog(l, OutputFilename(b), openOk), printed, record);
  }

  lemma EchoedOfAppended(before: seq<LogLine>, log: seq<LogLine>, printed: bool, record: string)
    requires EchoedRecords(log) == []
    ensures EchoedRecords(before + log + (if printed then [Echo(record)] else []))
         == EchoedRecords(before) + (if printed then [record] else [])
  {
    var echoed := if printed then [Echo(record)] else [];
    EchoedRecordsAppend(before, log);
    EchoedRecordsAppend(before + log, echoed);
    assert EchoedRecords(echoed) == if printed then [record] else [];
    assert EchoedRecords(before) + [] == EchoedRecords(before);
  }

  lemma WithoutEchoesOfAppended(before: seq<LogLine>, log: seq<LogLine>, printed: bool, record: string)
    requires WithoutEchoes(log) == log
    ensures WithoutEchoes(before + log + (if printed then [Echo(record)] else []))
         == WithoutEchoes(before) + log
  {
    var echoed := if printed then [Echo(record)] else [];
    WithoutEchoesAppend(before, log);
    WithoutEchoesAppend(before + log, echoed);
    assert WithoutEchoes(echoed) == [];
    assert WithoutEchoes(before) + log + [] == WithoutEchoes(before) + log;
  }

  /** One call of either variant does the same, apart from the echo line. */
  lemma EchoStepOnlyPrints(l: Listener, w1: World, w2: World, b: Bucket, record: string, openOk: bool)
    requires w1.files == w2.files && WithoutEchoes(w1.console) == WithoutEchoes(w2.console)
    ensures var a := Step(l, w1, b, record, openOk, true);
      var c := Step(l, w2, b, record, openOk, false);
      && a.listener == c.listener && a.outcome == c.outcome && a.world.files == c.world.files
      && WithoutEchoes(a.world.console) == WithoutEchoes(c.world.console)
  {
    var a := Step(l, w1, b, record, openOk, true);
    var log := RotationLog(l, OutputFilename(b), openOk);
    ConsoleAfterStep(l, w1, b, record, openOk, true);
    ConsoleAfterStep(l, w2, b, record, openOk, false);
    RotationLogHasNoEcho(l, OutputFilename(b), openOk);
    WithoutEchoesOfAppended(w1.console, log, a.outcome == Completed, record);
    WithoutEchoesOfAppended(w2.console, log, false, record);
  }

  /** The filter variant echoes exactly the records of the calls that
      completed, in order; the sample variant echoes nothing. */
  lemma {:induction false} EchoesAreCompletedRecords(l: Listener, w: World, events: seq<Event>, echo: bool)
    ensures var r := Run(l, w, events, echo);
      EchoedRecords(r.world.console)
        == EchoedRecords(w.console) + (if echo then CompletedRecords(events, r.outcomes) else [])
    decreases |events|
  {
    if events != [] {
      var e := events[0];
      var s := Step(l, w, e.bucket, e.record, e.openOk, echo);
      var rest := Run(s.listener, s.world, events[1..], echo);
      RunSteps(l, w, events, echo);
      EchoedAfterStep(l, w, e.bucket, e.record, e.openOk, echo);
      EchoesAreCompletedRecords(s.listener, s.world, events[1..], echo);
      CompletedRecordsCons(events, s.outcome, rest.outcomes);
      if echo {
        var mine := if s.outcome == Completed then [e.record] else [];
        ConcatAssoc(EchoedRecords(w.console), mine, CompletedRecords(events[1..], rest.outcomes));
      }
    }
  }

  lemma CompletedRecordsCons(events: seq<Event>, o: Outcome, os: seq<Outcome>)
    requires |events| == |os| + 1
    ensures CompletedRecords(events, [o] + os)
         == (if o == Completed then [events[0].record] else []) + CompletedRecords(events[1..], os)
  {
    assert ([o] + os)[1..] == os;
  }

  /** Apart from the echo lines the two variants behave identically: the same
      listener state, outcomes, files and other console lines. */
  lemma {:induction false} EchoOnlyPrints(l: Listener, w1: World, w2: World, events: seq<Event>)
    requires w1.files == w2.files && WithoutEchoes(w1.console) == WithoutEchoes(w2.console)
    ensures var a := Run(l, w1, events, true);
      var c := Run(l, w2, events, false);
      && a.listener == c.listener && a.outcomes == c.outcomes && a.world.files == c.world.files
      && WithoutEchoes(a.world.console) == WithoutEchoes(c.world.console)
    decreases |events|
  {
    if events != [] {
      var e := events[0];
      var s1 := Step(l, w1, e.bucket, e.record, e.openOk, true);
      var s2 := Step(l, w2, e.bucket, e.record, e.openOk, false);
      RunSteps(l, w1, events, true);
      RunSteps(l, w2, events, false);
      EchoStepOnlyPrints(l, w1, w2, e.bucket, e.record, e.openOk);
      EchoOnlyPrints(s1.listener, s1.world, s2.world, events[1..]);
    }
  }

  /** Peels the first call off a run. */
  lemma RunSteps(l: Listener, w: World, events: seq<Event>, echo: bool)
    requires events != []
    ensures var s := Step(l, w, events[0].bucket, events[0].record, events[0].openOk, echo);
      var rest := Run(s.listener, s.world, events[1..], echo);
      Run(l, w, events, echo) == RunResult(rest.listener, rest.world, [s.outcome] + rest.outcomes)
  {
  }

  // ---------------------------------------------------------------------
  // The listener object
  // ---------------------------------------------------------------------

  /** The anonymous `StatusListener` of either stream program, with its three
      mutable fields. */
  class StatusSink {
    /** True for the filter variant, which echoes each record to stdout. */
    const echo: bool
    var writer: Writer
    var prevOutputFilename: Option<string>
    var numTweetsInCurrentFile: int32

    function State(): Listener
      reads this
    {
      Listener(writer, prevOutputFilename, numTweetsInCurrentFile)
    }

    constructor (echo: bool)
      ensures this.echo == echo && State() == Initial
    {
      this.echo := echo;
      writer := NoWriter;
      prevOutputFilename := None;
      numTweetsInCurrentFile := 0;
    }

    /** `onStatus`: consumes one record, given the bucket current at the call,
        the record's raw text and whether opening a file would succeed;
        returns the outcome, the new file contents and the new console log. */
    method OnStatus(bucket: Bucket, status: string, openOk: bool, files: map<string, seq<string>>, console: seq<LogLine>)
      returns (outcome: Outcome, files': map<string, seq<string>>, console': seq<LogLine>)
      modifies this
      ensures StepResult(State(), World(files', console'), outcome)
           == Step(old(State()), World(files, console), bucket, status, openOk, echo)
    {
      var outputFilename := OutputFilename(bucket);
      files', console' := files, console;
      if writer == NoWriter || prevOutputFilename != Some(outputFilename) {
        if writer != NoWriter {
          writer := Stale;
          console' := console' + [Summary(numTweetsInCurrentFile, NullableText(prevOutputFilename))];
        }
        if openOk {
          files' := files'[outputFilename := Lines(files', outputFilename)];
          writer := Open(outputFilename);
        } else {
          console' := console' + [OpenFailure(outputFilename)];
        }
      }
      if writer == NoWriter {
        outcome := NullDereference;
        return;
      }
      match writer {
        case Open(f) => files' := files'[f := Lines(files', f) + [status]];
        case Stale =>
      }
      if echo {
        console' := console' + [Echo(status)];
      }
      numTweetsInCurrentFile := Inc(numTweetsInCurrentFile);
      prevOutputFilename := Some(outputFilename);
      outcome := Completed;
    }
  }
}
