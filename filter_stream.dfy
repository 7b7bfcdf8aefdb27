/**
 * The filter program: the option loop of `StatusFilterStream.main` and its
 * listener, the rotating sink with the per-record echo. Converting the
 * location fields to `double` and building the stream query are not
 * modelled; the accepted `-l` value is kept as its four text fields.
 */
module FilterStream {
  import opened Maybe
  import opened JavaSplit
  import RotatingSink

  /** What the option loop leaves behind when it reaches the output directory. */
  datatype Config = Config(track: Option<seq<string>>, locations: Option<seq<string>>, outputDir: string)

  /** How `main` ends its argument handling. `Usage`: no argument at all.
      `InvalidLocations(i)`: the `-l` at index i has fewer than four fields.
      `MissingOutputDir`: the last option consumed the final argument.
      `NoProgress(i)`: the token at index i is neither `-l` nor `-t`, which
      leaves `argsIndex` at i forever, so the Java loop never ends.
      `Parsed`: the configuration the stream is started with. */
  datatype ParseResult =
    | Usage
    | InvalidLocations(at: nat)
    | MissingOutputDir
    | NoProgress(at: nat)
    | Parsed(config: Config)

  /** The loop `while (argsIndex < args.length - 1)` from index i on, with the
      values of `track` and `locations` so far. */
  function Scan(args: seq<string>, i: nat, track: Option<seq<string>>, locations: Option<seq<string>>): (r: ParseResult)
    requires i <= |args|
    ensures r != Usage
    ensures r.Parsed? ==> |args| >= 1 && r.config.outputDir == args[|args| - 1]
    decreases |args| - i
  {
    if i < |args| - 1 then
      if args[i] == "-l" then
        var fields := SplitLimit(args[i + 1], 4);
        if |fields| < 4 then InvalidLocations(i) else Scan(args, i + 2, track, Some(fields))
      else if args[i] == "-t" then
        Scan(args, i + 2, Some(Split(args[i + 1])), locations)
      else
        NoProgress(i)
    else if i >= |args| then MissingOutputDir
    else Parsed(Config(track, locations, args[i]))
  }

  /** The argument handling of `main`, lines 62-105. */
  function ParseArgs(args: seq<string>): (r: ParseResult)
    ensures r == Usage <==> |args| == 0
    ensures r.Parsed? ==> r.config.outputDir == args[|args| - 1]
  {
    if |args| < 1 then Usage else Scan(args, 0, None, None)
  }

  /** The option loop as the program runs it. */
  method ParseFilterArgs(args: seq<string>) returns (r: ParseResult)
    ensures r == ParseArgs(args)
  {
    if |args| < 1 {
      return Usage;
    }
    var track: Option<seq<string>> := None;
    var locations: Option<seq<string>> := None;
    var argsIndex := 0;
    while argsIndex < |args| - 1
      invariant 0 <= argsIndex <= |args|
      invariant Scan(args, argsIndex, track, locations) == ParseArgs(args)
      decreases |args| - argsIndex
    {
      if args[argsIndex] == "-l" {
        var fields := SplitLimit(args[argsIndex + 1], 4);
        if |fields| < 4 {
          return InvalidLocations(argsIndex);
        }
        locations := Some(fields);
        argsIndex := argsIndex + 2;
      } else if args[argsIndex] == "-t" {
        track := Some(Split(args[argsIndex + 1]));
        argsIndex := argsIndex + 2;
      } else {
        // nothing in the Java loop changes here: it would spin forever
        return NoProgress(argsIndex);
      }
    }
    if argsIndex >= |args| {
      return MissingOutputDir;
    }
    return Parsed(Config(track, locations, args[argsIndex]));
  }

  // ---------------------------------------------------------------------
  // What the loop accepts, stated without the loop
  // ---------------------------------------------------------------------

  /** The loop looks at options only at even indices before the last argument. */
  predicate IsOptionIndex(args: seq<string>, i: int) {
    0 <= i && i % 2 == 0 && i < |args| - 1
  }

  /** An option the loop consumes: `-t`, or `-l` with at least four fields. */
  predicate Accepted(args: seq<string>, i: int)
    requires IsOptionIndex(args, i)
  {
    args[i] == "-t" || (args[i] == "-l" && |SplitLimit(args[i + 1], 4)| == 4)
  }

  predicate AllAcceptedFrom(args: seq<string>, k: int) {
    forall i :: k <= i < |args| && IsOptionIndex(args, i) ==> Accepted(args, i)
  }

  lemma AllAcceptedStep(args: seq<string>, k: nat)
    requires k % 2 == 0
    ensures k < |args| - 1 ==>
      (AllAcceptedFrom(args, k) <==> Accepted(args, k) && AllAcceptedFrom(args, k + 2))
    ensures k >= |args| - 1 ==> AllAcceptedFrom(args, k)
  {
    if k < |args| - 1 {
      assert IsOptionIndex(args, k);
      if Accepted(args, k) && AllAcceptedFrom(args, k + 2) {
        forall i | k <= i < |args| && IsOptionIndex(args, i) ensures Accepted(args, i) {
          if i != k {
            assert k + 2 <= i;
          }
        }
      }
    }
  }

  lemma FlagsDiffer()
    ensures "-l" != "-t"
  {
    assert "-l"[1] != "-t"[1];
  }

  /** The index of the last `flag` option at or after k, if any. */
  function LastOption(args: seq<string>, flag: string, k: nat): (r: Option<nat>)
    requires k % 2 == 0
    ensures r.Some? ==> k <= r.value && r.value + 1 < |args|
    decreases |args| - k
  {
    if k >= |args| - 1 then None
    else
      match LastOption(args, flag, k + 2)
      case Some(j) => Some(j)
      case None => if args[k] == flag then Some(k) else None
  }

  /** LastOption finds a `flag` option with none after it, or reports that
      there is none. */
  lemma {:induction false} LastOptionMeaning(args: seq<string>, flag: string, k: nat)
    requires k % 2 == 0
    ensures var r := LastOption(args, flag, k);
      && (r.Some? ==> && k <= r.value && IsOptionIndex(args, r.value) && args[r.value] == flag
                      && forall j :: r.value < j && IsOptionIndex(args, j) ==> args[j] != flag)
      && (r.None? ==> forall j :: k <= j && IsOptionIndex(args, j) ==> args[j] != flag)
    decreases |args| - k
  {
    if k < |args| - 1 {
      LastOptionMeaning(args, flag, k + 2);
      var later := LastOption(args, flag, k + 2);
      if later.None? {
        forall j | k <= j && IsOptionIndex(args, j) && j != k ensures args[j] != flag {
          assert k + 2 <= j;
        }
      }
    }
  }

  /** The general form of the facts below, for the loop started at any even
      index: which verdict it reaches, and where the output directory is. */
  lemma {:induction false} ScanVerdict(args: seq<string>, k: nat, t: Option<seq<string>>, l: Option<seq<string>>)
    requires k % 2 == 0 && k <= |args|
    ensures var r := Scan(args, k, t, l);
      && r != Usage
      && (r.Parsed? <==> |args| % 2 == 1 && AllAcceptedFrom(args, k))
      && (r == MissingOutputDir <==> |args| % 2 == 0 && AllAcceptedFrom(args, k))
      && (r.Parsed? ==> r.config.outputDir == args[|args| - 1])
    decreases |args| - k
  {
    FlagsDiffer();
    AllAcceptedStep(args, k);
    if k < |args| - 1 {
      if Accepted(args, k) {
        if args[k] == "-l" {
          ScanVerdict(args, k + 2, t, Some(SplitLimit(args[k + 1], 4)));
        } else {
          ScanVerdict(args, k + 2, Some(Split(args[k + 1])), l);
        }
      }
    }
  }

  /** The track after the options from k on: the value of the last `-t`
      there, or `t` when there is none. */
  function TrackAfter(args: seq<string>, k: nat, t: Option<seq<string>>): Option<seq<string>>
    requires k % 2 == 0
  {
    match LastOption(args, "-t", k)
    case None => t
    case Some(j) => Some(Split(args[j + 1]))
  }

  /** The locations after the options from k on: the fields of the last `-l`
      there, or `l` when there is none. */
  function LocationsAfter(args: seq<string>, k: nat, l: Option<seq<string>>): Option<seq<string>>
    requires k % 2 == 0
  {
    match LastOption(args, "-l", k)
    case None => l
    case Some(j) => Some(SplitLimit(args[j + 1], 4))
  }

  /** The track the loop keeps is the value of the last `-t`. */
  lemma {:induction false} ScanTrack(args: seq<string>, k: nat, t: Option<seq<string>>, l: Option<seq<string>>)
    requires k % 2 == 0 && k <= |args|
    ensures var r := Scan(args, k, t, l);
      r.Parsed? ==> r.config.track == TrackAfter(args, k, t)
    decreases |args| - k
  {
    if k < |args| - 1 {
      if args[k] == "-l" {
        if |SplitLimit(args[k + 1], 4)| >= 4 {
          ScanTrack(args, k + 2, t, Some(SplitLimit(args[k + 1], 4)));
          TrackStepLocations(args, k, t, l);
        }
      } else if args[k] == "-t" {
        ScanTrack(args, k + 2, Some(Split(args[k + 1])), l);
        TrackStepTrack(args, k, t, l);
      }
    }
  }

  lemma TrackStepLocations(args: seq<string>, k: nat, t: Option<seq<string>>, l: Option<seq<string>>)
    requires k % 2 == 0 && k < |args| - 1 && args[k] == "-l" && |SplitLimit(args[k + 1], 4)| >= 4
    requires var r := Scan(args, k + 2, t, Some(SplitLimit(args[k + 1], 4)));
      r.Parsed? ==> r.config.track == TrackAfter(args, k + 2, t)
    ensures var r := Scan(args, k, t, l);
      r.Parsed? ==> r.config.track == TrackAfter(args, k, t)
  {
    FlagsDiffer();
  }

  lemma TrackStepTrack(args: seq<string>, k: nat, t: Option<seq<string>>, l: Option<seq<string>>)
    requires k % 2 == 0 && k < |args| - 1 && args[k] == "-t"
    requires var r := Scan(args, k + 2, Some(Split(args[k + 1])), l);
      r.Parsed? ==> r.config.track == TrackAfter(args, k + 2, Some(Split(args[k + 1])))
    ensures var r := Scan(args, k, t, l);
      r.Parsed? ==> r.config.track == TrackAfter(args, k, t)
  {
    assert Scan(args, k, t, l) == Scan(args, k + 2, Some(Split(args[k + 1])), l);
  }

  /** The locations the loop keeps are the fields of the last `-l`. */
  lemma {:induction false} ScanLocations(args: seq<string>, k: nat, t: Option<seq<string>>, l: Option<seq<string>>)
    requires k % 2 == 0 && k <= |args|
    ensures var r := Scan(args, k, t, l);
      r.Parsed? ==> r.config.locations == LocationsAfter(args, k, l)
    decreases |args| - k
  {
    if k < |args| - 1 {
      if args[k] == "-l" {
        if |SplitLimit(args[k + 1], 4)| >= 4 {
          ScanLocations(args, k + 2, t, Some(SplitLimit(args[k + 1], 4)));
          LocationsStepLocations(args, k, t, l);
        }
      } else if args[k] == "-t" {
        ScanLocations(args, k + 2, Some(Split(args[k + 1])), l);
        LocationsStepTrack(args, k, t, l);
      }
    }
  }

  lemma LocationsStepLocations(args: seq<string>, k: nat, t: Option<seq<string>>, l: Option<seq<string>>)
    requires k % 2 == 0 && k < |args| - 1 && args[k] == "-l" && |SplitLimit(args[k + 1], 4)| >= 4
    requires var r := Scan(args, k + 2, t, Some(SplitLimit(args[k + 1], 4)));
      r.Parsed? ==> r.config.locations == LocationsAfter(args, k + 2, Some(SplitLimit(args[k + 1], 4)))
    ensures var r := Scan(args, k, t, l);
      r.Parsed? ==> r.config.locations == LocationsAfter(args, k, l)
  {
  }

  lemma LocationsStepTrack(args: seq<string>, k: nat, t: Option<seq<string>>, l: Option<seq<string>>)
    requires k % 2 == 0 && k < |args| - 1 && args[k] == "-t"
    requires var r := Scan(args, k + 2, Some(Split(args[k + 1])), l);
      r.Parsed? ==> r.config.locations == LocationsAfter(args, k + 2, l)
    ensures var r := Scan(args, k, t, l);
      r.Parsed? ==> r.config.locations == LocationsAfter(args, k, l)
  {
    FlagsDiffer();
    assert Scan(args, k, t, l) == Scan(args, k + 2, Some(Split(args[k + 1])), l);
    assert LastOption(args, "-l", k) == LastOption(args, "-l", k + 2);
  }

  /** An error names an option position at or after where the loop started:
      an `-l` whose value has fewer than four fields, or a token that is
      neither `-l` nor `-t`. */
  lemma {:induction false} ScanErrorAt(args: seq<string>, k: nat, t: Option<seq<string>>, l: Option<seq<string>>)
    requires k % 2 == 0 && k <= |args|
    ensures var r := Scan(args, k, t, l);
      && (r.InvalidLocations? ==> k <= r.at && IsOptionIndex(args, r.at) && args[r.at] == "-l" && !Accepted(args, r.at))
      && (r.NoProgress? ==> k <= r.at && IsOptionIndex(args, r.at) && args[r.at] != "-l" && args[r.at] != "-t")
      && (r.InvalidLocations? || r.NoProgress? ==> AcceptedBetween(args, k, r.at))
    decreases |args| - k
  {
    if k < |args| - 1 && Accepted(args, k) {
      var t', l' := ScanAcceptedStep(args, k, t, l);
      ScanErrorAt(args, k + 2, t', l');
      var r := Scan(args, k + 2, t', l');
      if r.InvalidLocations? || r.NoProgress? {
        AcceptedBetweenCons(args, k, r.at);
      }
    } else if k < |args| - 1 {
      ScanRejectedHere(args, k, t, l);
    }
  }

  /** How the loop stops at a rejected option at index i. */
  function Rejection(args: seq<string>, i: nat): ParseResult
    requires i < |args|
  {
    if args[i] == "-l" then InvalidLocations(i) else NoProgress(i)
  }

  /** Every option from index k up to i is accepted. */
  predicate AcceptedBetween(args: seq<string>, k: nat, i: nat) {
    forall j :: k <= j < i && IsOptionIndex(args, j) ==> Accepted(args, j)
  }

  lemma AcceptedBetweenCons(args: seq<string>, k: nat, i: nat)
    requires IsOptionIndex(args, k) && Accepted(args, k) && AcceptedBetween(args, k + 2, i)
    ensures AcceptedBetween(args, k, i)
  {
    forall j | k <= j < i && IsOptionIndex(args, j) ensures Accepted(args, j) {
      if j != k {
        assert k + 2 <= j;
      }
    }
  }

  /** Errors name the first option the loop rejects: an `-l` with too few
      fields, or a token that is no option at all. */
  lemma ScanFirstRejected(args: seq<string>, k: nat, t: Option<seq<string>>, l: Option<seq<string>>, i: nat)
    requires k % 2 == 0 && k <= i && IsOptionIndex(args, i) && !Accepted(args, i)
    requires AcceptedBetween(args, k, i)
    ensures Scan(args, k, t, l) == Rejection(args, i)
  {
    ScanErrorAt(args, k, t, l);
    ScanVerdict(args, k, t, l);
    assert !AllAcceptedFrom(args, k);
    var r := Scan(args, k, t, l);
    assert r.InvalidLocations? || r.NoProgress?;
    assert !Accepted(args, r.at);
    assert !(r.at < i);
    assert !(i < r.at);
  }

  /** A rejected option ends the loop where it stands. */
  lemma ScanRejectedHere(args: seq<string>, i: nat, t: Option<seq<string>>, l: Option<seq<string>>)
    requires IsOptionIndex(args, i) && !Accepted(args, i)
    ensures Scan(args, i, t, l) == Rejection(args, i)
  {
  }

  /** An accepted option moves the loop two arguments on. */
  lemma ScanAcceptedStep(args: seq<string>, k: nat, t: Option<seq<string>>, l: Option<seq<string>>)
      returns (t': Option<seq<string>>, l': Option<seq<string>>)
    requires IsOptionIndex(args, k) && Accepted(args, k)
    ensures Scan(args, k, t, l) == Scan(args, k + 2, t', l')
  {
    FlagsDiffer();
    t' := if args[k] == "-l" then t else Some(Split(args[k + 1]));
    l' := if args[k] == "-l" then Some(SplitLimit(args[k + 1], 4)) else l;
  }

  /** The arguments are accepted exactly when they are a sequence of accepted
      option pairs followed by one more argument, which is the output
      directory; a later `-t` or `-l` overrides an earlier one. */
  lemma ParsedExactly(args: seq<string>)
    ensures ParseArgs(args).Parsed? <==> |args| % 2 == 1 && AllAcceptedFrom(args, 0)
    ensures ParseArgs(args).Parsed? ==>
      var c := ParseArgs(args).config;
      && c.outputDir == args[|args| - 1]
      && c.track == TrackAfter(args, 0, None)
      && c.locations == LocationsAfter(args, 0, None)
  {
    if |args| > 0 {
      ScanVerdict(args, 0, None, None);
      ScanTrack(args, 0, None, None);
      ScanLocations(args, 0, None, None);
    }
  }

  /** "output-dir parameter is not specified" is reported exactly when every
      option is accepted and the last one consumed the final argument. */
  lemma MissingOutputDirExactly(args: seq<string>)
    ensures ParseArgs(args) == MissingOutputDir <==> |args| > 0 && |args| % 2 == 0 && AllAcceptedFrom(args, 0)
  {
    if |args| > 0 {
      ScanVerdict(args, 0, None, None);
    }
  }

  /** An `-l` value with fewer than four comma-separated fields (fewer than
      three commas) is rejected, provided the options before it were accepted;
      an unknown token in option position makes the loop spin. */
  lemma FirstRejectedOption(args: seq<string>, i: nat)
    requires IsOptionIndex(args, i) && !Accepted(args, i)
    requires forall j :: 0 <= j < i && IsOptionIndex(args, j) ==> Accepted(args, j)
    ensures ParseArgs(args) == if args[i] == "-l" then InvalidLocations(i) else NoProgress(i)
    ensures args[i] == "-l" ==> CommaCount(args[i + 1]) < 3
  {
    ScanFirstRejected(args, 0, None, None, i);
    FourFieldsNeedThreeCommas(args[i + 1]);
  }

  /** The filter program's listener: the rotating sink with every record also
      echoed to standard output. */
  method NewListener() returns (s: RotatingSink.StatusSink)
    ensures fresh(s) && s.echo && s.State() == RotatingSink.Initial
  {
    s := new RotatingSink.StatusSink(true);
  }
}
