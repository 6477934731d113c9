/**
 * The two worker functions, `convert_image` and `convert_video`: the task
 * tuples they receive, the output file they name, the ffmpeg command line
 * they build, and how every way they can end is turned into an outcome
 * `(True, src)` or `(False, "src: cause")`. The codec and the subprocess are
 * parameters: an image codec that either saves the JPEG or reports the text
 * of the exception it raised, and an ffmpeg runner that either exits with a
 * return code or raises.
 */
module Workers {
  import opened Optional
  import opened PurePaths
  import Decimal

  /** `('img', (src, outdir, quality))` or `('vid', (src, outdir, ffmpeg))`. */
  datatype Task =
    | ImageTask(src: string, outDir: string, quality: int)
    | VideoTask(src: string, outDir: string, ffmpeg: Option<string>)

  /** `(True, src)` or `(False, message)`. */
  datatype Outcome = Converted(src: string) | Failed(message: string)

  /** `Image.open(src)` then `save(out, "JPEG", quality=q)`: None when both return, Some(str(e)) when one raises. */
  type ImageCodec = (string, string, int) -> Option<string>

  /** What `subprocess.run(argv)` gives back: the return code, or the text of the exception it raised. */
  datatype ProcessResult = Exited(returnCode: int) | Raised(cause: string)

  type FfmpegRunner = seq<string> -> ProcessResult

  const FfmpegNotFound := "FFmpeg not found."
  const FfmpegExited := "FFmpeg exited with code "

  /** Python truthiness of the ffmpeg path: neither None nor the empty string. */
  predicate Available(ffmpeg: Option<string>)
  {
    ffmpeg.Some? && ffmpeg.value != ""
  }

  /** `Path(outdir) / (Path(src).stem + ext)`. */
  function OutputPath(src: string, outDir: string, ext: string): string
  {
    Join(outDir, Stem(Name(src)) + ext)
  }

  /** What a failure message starts with: the source path, a colon and a space. */
  function Prefix(src: string): string
  {
    src + ": "
  }

  predicate HasPrefix(s: string, p: string)
  {
    |p| <= |s| && s[..|p|] == p
  }

  /** The only two shapes a worker returns for source `src`. */
  predicate WellFormed(o: Outcome, src: string)
  {
    o == Converted(src) || (o.Failed? && HasPrefix(o.message, Prefix(src)))
  }

  /** The cause part of a failure message for `src`. */
  function Cause(o: Outcome, src: string): string
    requires o.Failed? && HasPrefix(o.message, Prefix(src))
  {
    o.message[|Prefix(src)|..]
  }

  /** `convert_image`. */
  function ConvertImage(src: string, outDir: string, quality: int, codec: ImageCodec): (o: Outcome)
    ensures WellFormed(o, src)
    ensures o.Converted? <==> codec(src, OutputPath(src, outDir, ".jpg"), quality) == None
    ensures o.Failed? ==> Some(Cause(o, src)) == codec(src, OutputPath(src, outDir, ".jpg"), quality)
  {
    match codec(src, OutputPath(src, outDir, ".jpg"), quality)
    case None => Converted(src)
    case Some(cause) => Failed(Prefix(src) + cause)
  }

  /** The ffmpeg command line of `convert_video`. */
  function FfmpegArgv(ffmpeg: string, src: string, out: string): (argv: seq<string>)
    ensures |argv| == 15 && argv[0] == ffmpeg && argv[|argv| - 1] == out
  {
    [ffmpeg,
     "-y",
     "-i", src,
     "-vcodec", "libx264",
     "-preset", "ultrafast",
     "-threads", "1",
     "-acodec", "aac",
     "-strict", "experimental",
     out]
  }

  /**
   * A command line as ffmpeg reads it, after the program name: `-y` takes
   * no value, each flag in `ValueFlags` takes the next word as its value,
   * and the one word left at the end is the output file. The options are
   * kept in the order they appear; where `-y` stands among them is not
   * recorded.
   *
   * This is the reading the command line is written for, not ffmpeg's own
   * parser: a last word that begins with '-' is taken here as the output
   * file, while ffmpeg would take it as an option. Such an output path
   * arises when the output directory is `.` and a video's name starts
   * with '-'.
   */
  datatype ArgView = ArgView(overwrite: bool, options: seq<(string, string)>, output: string)

  const ValueFlags: set<string> := {"-i", "-vcodec", "-preset", "-threads", "-acodec", "-strict"}

  function ReadArgs(args: seq<string>): Option<ArgView>
    decreases |args|
  {
    if |args| == 0 then None
    else if |args| == 1 then Some(ArgView(false, [], args[0]))
    else if args[0] in ValueFlags then
      match ReadArgs(args[2..])
      case None => None
      case Some(v) => Some(v.(options := [(args[0], args[1])] + v.options))
    else if args[0] == "-y" then
      match ReadArgs(args[1..])
      case None => None
      case Some(v) => Some(v.(overwrite := true))
    else None
  }

  /** Flag/value pairs written out as words. */
  function Words(options: seq<(string, string)>): (w: seq<string>)
    ensures |w| == 2 * |options|
  {
    if options == [] then [] else [options[0].0, options[0].1] + Words(options[1..])
  }

  /** Written-out options followed by an output file read back as those options and that file. */
  lemma {:induction false} ReadWords(options: seq<(string, string)>, out: string)
    requires forall i :: 0 <= i < |options| ==> options[i].0 in ValueFlags
    ensures ReadArgs(Words(options) + [out]) == Some(ArgView(false, options, out))
  {
    if options != [] {
      ReadWords(options[1..], out);
      var w := Words(options) + [out];
      assert w[2..] == Words(options[1..]) + [out];
      assert [(options[0].0, options[0].1)] + options[1..] == options;
    }
  }

  /** The options every video conversion passes after `-y`, in order. */
  function VideoOptions(src: string): (opts: seq<(string, string)>)
    ensures forall i :: 0 <= i < |opts| ==> opts[i].0 in ValueFlags
  {
    [("-i", src), ("-vcodec", "libx264"), ("-preset", "ultrafast"),
     ("-threads", "1"), ("-acodec", "aac"), ("-strict", "experimental")]
  }

  /**
   * ffmpeg reads the command line as intended whatever the two paths are:
   * overwrite on, `src` as the only input, H.264 video at the `ultrafast`
   * preset, one thread, AAC audio, and `out` as the output file.
   */
  lemma FfmpegArgvReads(ffmpeg: string, src: string, out: string)
    ensures ReadArgs(FfmpegArgv(ffmpeg, src, out)[1..]) == Some(ArgView(true, VideoOptions(src), out))
  {
    var opts := VideoOptions(src);
    var words := Words(opts) + [out];
    VideoOptionsWords(src);
    ReadWords(opts, out);
    ReadOverwrite(words, ArgView(false, opts, out));
    assert FfmpegArgv(ffmpeg, src, out)[1..] == ["-y"] + words;
  }

  lemma VideoOptionsWords(src: string)
    ensures Words(VideoOptions(src)) ==
      ["-i", src, "-vcodec", "libx264", "-preset", "ultrafast", "-threads", "1",
       "-acodec", "aac", "-strict", "experimental"]
  {
    var opts := VideoOptions(src);
    assert opts[6..] == [];
    assert Words(opts[5..]) == ["-strict", "experimental"] + Words(opts[6..]);
    assert Words(opts[4..]) == ["-acodec", "aac"] + Words(opts[5..]);
    assert Words(opts[3..]) == ["-threads", "1"] + Words(opts[4..]);
    assert Words(opts[2..]) == ["-preset", "ultrafast"] + Words(opts[3..]);
    assert Words(opts[1..]) == ["-vcodec", "libx264"] + Words(opts[2..]);
  }

  lemma ReadOverwrite(rest: seq<string>, v: ArgView)
    requires |rest| >= 1 && ReadArgs(rest) == Some(v)
    ensures ReadArgs(["-y"] + rest) == Some(v.(overwrite := true))
  {
    OverwriteTakesNoValue();
    assert (["-y"] + rest)[1..] == rest;
  }

  lemma OverwriteTakesNoValue()
    ensures "-y" !in ValueFlags
  {
  }

  /** `convert_video`. */
  function ConvertVideo(src: string, outDir: string, ffmpeg: Option<string>, run: FfmpegRunner): (o: Outcome)
    ensures WellFormed(o, src)
    ensures !Available(ffmpeg) ==> o == Failed(Prefix(src) + FfmpegNotFound)
    ensures o.Converted? <==>
      Available(ffmpeg) && run(FfmpegArgv(ffmpeg.value, src, OutputPath(src, outDir, ".mp4"))) == Exited(0)
    ensures Available(ffmpeg) && run(FfmpegArgv(ffmpeg.value, src, OutputPath(src, outDir, ".mp4"))).Raised? ==>
      o == Failed(Prefix(src) + run(FfmpegArgv(ffmpeg.value, src, OutputPath(src, outDir, ".mp4"))).cause)
  {
    if !Available(ffmpeg) then Failed(Prefix(src) + FfmpegNotFound)
    else
      match run(FfmpegArgv(ffmpeg.value, src, OutputPath(src, outDir, ".mp4")))
      case Exited(code) =>
        if code == 0 then Converted(src)
        else Failed(Prefix(src) + FfmpegExited + Decimal.IntToString(code))
      case Raised(cause) => Failed(Prefix(src) + cause)
  }

  /**
   * The return code written into a failure message, read back: only text
   * that is exactly how `str` prints an integer (no leading zero, no "-0")
   * counts as a code.
   */
  function ExitCodeIn(cause: string): Option<int>
  {
    if HasPrefix(cause, FfmpegExited) && Decimal.Canonical(cause[|FfmpegExited|..]) then
      Decimal.ParseInt(cause[|FfmpegExited|..])
    else None
  }

  /** The message text written for code `n` reads back as `n`. */
  lemma ExitCodeReadsBack(n: int)
    ensures ExitCodeIn(FfmpegExited + Decimal.IntToString(n)) == Some(n)
  {
    var cause := FfmpegExited + Decimal.IntToString(n);
    assert cause[..|FfmpegExited|] == FfmpegExited;
    assert cause[|FfmpegExited|..] == Decimal.IntToString(n);
    Decimal.IntRoundTrip(n);
    Decimal.IntToStringCanonical(n);
  }

  /** A nonzero return code can be read back exactly from the message it produces. */
  lemma VideoExitCodeReported(src: string, outDir: string, ffmpeg: Option<string>, run: FfmpegRunner, code: int)
    requires Available(ffmpeg)
    requires run(FfmpegArgv(ffmpeg.value, src, OutputPath(src, outDir, ".mp4"))) == Exited(code)
    requires code != 0
    ensures var o := ConvertVideo(src, outDir, ffmpeg, run);
      o.Failed? && HasPrefix(Cause(o, src), FfmpegExited) && ExitCodeIn(Cause(o, src)) == Some(code)
  {
    var cause := FfmpegExited + Decimal.IntToString(code);
    VideoExitMessage(src, outDir, ffmpeg, run, code);
    CauseAfterPrefix(src, cause);
    ExitCodeReadsBack(code);
  }

  /** The failure a nonzero return code produces, word for word. */
  lemma VideoExitMessage(src: string, outDir: string, ffmpeg: Option<string>, run: FfmpegRunner, code: int)
    requires Available(ffmpeg)
    requires run(FfmpegArgv(ffmpeg.value, src, OutputPath(src, outDir, ".mp4"))) == Exited(code)
    requires code != 0
    ensures ConvertVideo(src, outDir, ffmpeg, run) == Failed(Prefix(src) + (FfmpegExited + Decimal.IntToString(code)))
  {
    assert Prefix(src) + FfmpegExited + Decimal.IntToString(code) == Prefix(src) + (FfmpegExited + Decimal.IntToString(code));
  }

  /** The cause of a failure built as `src + ": " + cause` is `cause` again. */
  lemma CauseAfterPrefix(src: string, cause: string)
    ensures HasPrefix(Prefix(src) + cause, Prefix(src))
    ensures Cause(Failed(Prefix(src) + cause), src) == cause
  {
    assert (Prefix(src) + cause)[..|Prefix(src)|] == Prefix(src);
  }

  /** A cause read as code `n` is exactly "FFmpeg exited with code " followed by `str(n)`. */
  lemma ExitCodeTextIsCanonical(cause: string, n: int)
    requires ExitCodeIn(cause) == Some(n)
    ensures cause == FfmpegExited + Decimal.IntToString(n)
  {
    assert cause == cause[..|FfmpegExited|] + cause[|FfmpegExited|..];
    Decimal.CanonicalRoundTrip(cause[|FfmpegExited|..], n);
  }

  /** Without ffmpeg, the failure's cause cannot be read as an exit code. */
  lemma NotFoundHasNoExitCode(src: string, outDir: string, ffmpeg: Option<string>, run: FfmpegRunner)
    requires !Available(ffmpeg)
    ensures var o := ConvertVideo(src, outDir, ffmpeg, run);
      o.Failed? && ExitCodeIn(Cause(o, src)) == None
  {
    var o := ConvertVideo(src, outDir, ffmpeg, run);
    assert Cause(o, src) == FfmpegNotFound;
  }

  /** Run the worker a task was submitted to (`executor.submit(convert_image | convert_video, args)`). */
  function Work(t: Task, codec: ImageCodec, run: FfmpegRunner): (o: Outcome)
    ensures WellFormed(o, t.src)
  {
    match t
    case ImageTask(src, outDir, quality) => ConvertImage(src, outDir, quality, codec)
    case VideoTask(src, outDir, ffmpeg) => ConvertVideo(src, outDir, ffmpeg, run)
  }

  /**
   * The output file lies directly in the output directory and is named by
   * the source's stem: for a source `dir/a.b.heic` the image worker writes
   * `outdir/a.b.jpg`.
   */
  lemma OutputNaming(dir: string, name: string, ext: string, outDir: string, newExt: string)
    requires '/' !in name && IsSuffixForm(ext) && EndsWithAfterSomething(name, ext)
    ensures OutputPath(Join(dir, name), outDir, newExt) == Join(outDir, name[..|name| - |ext|] + newExt)
  {
    NameOfJoin(dir, name);
    StemIs(name, ext);
  }
}
