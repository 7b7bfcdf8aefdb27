/**
 * The sample program: `StatusSampleStream.main` takes the output directory
 * as its only argument and registers the rotating sink without the echo.
 * Creating the directory and starting the stream are not modelled.
 */
module SampleStream {
  import opened Maybe
  import FilterStream
  import RotatingSink

  /** The argument check of `main`: without arguments the program prints its
      usage and returns; otherwise the first argument is the output
      directory. */
  function OutputDirArgument(args: seq<string>): (r: Option<string>)
    ensures r.None? <==> |args| == 0
    ensures r.Some? ==> r.value == args[0]
  {
    if |args| < 1 then None else Some(args[0])
  }

  /** Arguments after the first are ignored. */
  lemma ExtraArgumentsIgnored(args: seq<string>, more: seq<string>)
    requires |args| >= 1
    ensures OutputDirArgument(args + more) == OutputDirArgument(args)
  {
  }

  /** Given only an output directory, both programs accept it and use it,
      the filter program without a track or a location filter. */
  lemma SameDirectoryAsFilter(dir: string)
    ensures OutputDirArgument([dir]) == Some(dir)
    ensures FilterStream.ParseArgs([dir]) == FilterStream.Parsed(FilterStream.Config(None, None, dir))
  {
  }

  /** The sample program's listener: the rotating sink without the echo. */
  method NewListener() returns (s: RotatingSink.StatusSink)
    ensures fresh(s) && !s.echo && s.State() == RotatingSink.Initial
  {
    s := new RotatingSink.StatusSink(false);
  }
}
