/**
 * The scan at the start of `run_conversion`: each directory entry that is a
 * regular file is matched, by its pathlib suffix and case-sensitively,
 * against the image suffixes and the video suffixes, and becomes an image
 * task, a video task (only when an ffmpeg executable was found) or nothing.
 */
module Classifier {
  import opened Optional
  import opened PurePaths
  import opened Workers
  import opened Filtering

  /** One child of the input directory, as `iterdir()` yields it: its name and whether `is_file()` holds. */
  datatype Entry = Entry(name: string, isFile: bool)

  /**
   * The inputs of one run that every task is built from: the input and
   * output directories as `str(path)` prints them, the JPEG quality and the
   * result of the ffmpeg lookup.
   */
  datatype Config = Config(inputDir: string, outputDir: string, quality: int, ffmpeg: Option<string>)

  const ImageSuffixes: set<string> := {".heic", ".HEIC"}
  const VideoSuffixes: set<string> := {".mov", ".MOV", ".qt", ".QT", ".mp4", ".MP4", ".m4v", ".M4V"}

  /** The task one entry becomes, if any. */
  function Classify(cfg: Config, e: Entry): (t: Option<Task>)
    ensures t.Some? ==> t.value.src == Join(cfg.inputDir, e.name) && t.value.outDir == cfg.outputDir
    ensures t.Some? && t.value.ImageTask? ==> t.value.quality == cfg.quality
    ensures t.Some? && t.value.VideoTask? ==> t.value.ffmpeg == cfg.ffmpeg && Available(cfg.ffmpeg)
  {
    if !e.isFile then None
    else if Suffix(e.name) in ImageSuffixes then Some(ImageTask(Join(cfg.inputDir, e.name), cfg.outputDir, cfg.quality))
    else if Suffix(e.name) in VideoSuffixes then
      if Available(cfg.ffmpeg) then Some(VideoTask(Join(cfg.inputDir, e.name), cfg.outputDir, cfg.ffmpeg))
      else None
    else None
  }

  function ClassifyWith(cfg: Config): Entry -> Option<Task>
  {
    e => Classify(cfg, e)
  }

  /** `files_to_process`: the tasks the entries become, in the order `iterdir()` gave them. */
  function Tasks(cfg: Config, entries: seq<Entry>): seq<Task>
  {
    FilterMap(entries, ClassifyWith(cfg))
  }

  /** The name has one of the given suffixes after at least one other character. */
  predicate EndsWithOneOf(name: string, exts: set<string>)
  {
    exists ext :: ext in exts && EndsWithAfterSomething(name, ext)
  }

  lemma SuffixInSet(name: string, exts: set<string>)
    requires forall ext :: ext in exts ==> IsSuffixForm(ext)
    ensures Suffix(name) in exts <==> EndsWithOneOf(name, exts)
  {
    if Suffix(name) in exts {
      SuffixIs(name, Suffix(name));
    }
    if EndsWithOneOf(name, exts) {
      var ext :| ext in exts && EndsWithAfterSomething(name, ext);
      SuffixIs(name, ext);
    }
  }

  lemma SuffixSetsWellFormed()
    ensures forall ext :: ext in ImageSuffixes ==> IsSuffixForm(ext)
    ensures forall ext :: ext in VideoSuffixes ==> IsSuffixForm(ext)
    ensures ImageSuffixes !! VideoSuffixes
  {
  }

  /**
   * Which entries become which tasks, stated on the entry's name: an image
   * task iff it is a regular file whose name ends in `.heic` or `.HEIC`
   * after at least one other character (so `x.Heic`, a bare `.heic` and a
   * directory named `x.heic` are not); a video task iff it is a regular file
   * ending in one of the video suffixes and ffmpeg is available; nothing
   * otherwise.
   */
  lemma ClassifyByName(cfg: Config, e: Entry)
    ensures Classify(cfg, e).Some? && Classify(cfg, e).value.ImageTask?
      <==> e.isFile && EndsWithOneOf(e.name, ImageSuffixes)
    ensures Classify(cfg, e).Some? && Classify(cfg, e).value.VideoTask?
      <==> e.isFile && EndsWithOneOf(e.name, VideoSuffixes) && Available(cfg.ffmpeg)
    ensures Classify(cfg, e) == None
      <==> !e.isFile || (!EndsWithOneOf(e.name, ImageSuffixes) &&
                         (!EndsWithOneOf(e.name, VideoSuffixes) || !Available(cfg.ffmpeg)))
  {
    SuffixSetsWellFormed();
    SuffixInSet(e.name, ImageSuffixes);
    SuffixInSet(e.name, VideoSuffixes);
  }

  /**
   * The task list is the entries that classify, in scan order: the k-th
   * task is built from the k-th such entry, takes its source path from that
   * entry's name and carries the run's output directory, and no entry that
   * classifies is left out.
   */
  lemma TasksFollowEntries(cfg: Config, entries: seq<Entry>)
    ensures var tasks, ix := Tasks(cfg, entries), Kept(entries, ClassifyWith(cfg));
      |tasks| == |ix| && Increasing(ix) &&
      (forall k :: 0 <= k < |ix| ==>
         Classify(cfg, entries[ix[k]]) == Some(tasks[k]) &&
         tasks[k].src == Join(cfg.inputDir, entries[ix[k]].name) &&
         tasks[k].outDir == cfg.outputDir) &&
      (forall i :: 0 <= i < |entries| ==> (i in ix <==> Classify(cfg, entries[i]).Some?))
  {
    FilterMapKeeps(entries, ClassifyWith(cfg));
  }

  /** With no ffmpeg, no task is a video task: video files are dropped, not reported. */
  lemma NoFfmpegNoVideo(cfg: Config, entries: seq<Entry>)
    requires !Available(cfg.ffmpeg)
    ensures forall t :: t in Tasks(cfg, entries) ==> t.ImageTask? && t.quality == cfg.quality
  {
    FilterMapKeeps(entries, ClassifyWith(cfg));
    var tasks, ix := Tasks(cfg, entries), Kept(entries, ClassifyWith(cfg));
    forall t | t in tasks
      ensures t.ImageTask? && t.quality == cfg.quality
    {
      var k :| 0 <= k < |tasks| && tasks[k] == t;
      assert Classify(cfg, entries[ix[k]]) == Some(t);
    }
  }

  /**
   * Without ffmpeg, a directory holding no image file yields no task at all,
   * whatever video files it holds: the run ends in "nothing to convert".
   */
  lemma NoFfmpegNoImagesNoTasks(cfg: Config, entries: seq<Entry>)
    requires !Available(cfg.ffmpeg)
    requires forall i :: 0 <= i < |entries| ==> !(entries[i].isFile && EndsWithOneOf(entries[i].name, ImageSuffixes))
    ensures Tasks(cfg, entries) == []
  {
    FilterMapKeeps(entries, ClassifyWith(cfg));
    var ix := Kept(entries, ClassifyWith(cfg));
    if ix != [] {
      ClassifyByName(cfg, entries[ix[0]]);
    }
  }

  /**
   * Where a task's output goes: directly in the output directory, named by
   * the entry's name without its matched suffix, plus `.jpg` for an image
   * task and `.mp4` for a video task.
   */
  lemma TaskOutputName(cfg: Config, e: Entry)
    requires '/' !in e.name && Classify(cfg, e).Some?
    ensures var t, ext := Classify(cfg, e).value, Suffix(e.name);
      ext in ImageSuffixes + VideoSuffixes &&
      (t.ImageTask? ==> OutputPath(t.src, t.outDir, ".jpg") == Join(cfg.outputDir, e.name[..|e.name| - |ext|] + ".jpg")) &&
      (t.VideoTask? ==> OutputPath(t.src, t.outDir, ".mp4") == Join(cfg.outputDir, e.name[..|e.name| - |ext|] + ".mp4"))
  {
    var ext := Suffix(e.name);
    SuffixSetsWellFormed();
    assert ext in ImageSuffixes + VideoSuffixes;
    SuffixIs(e.name, ext);
    OutputNaming(cfg.inputDir, e.name, ext, cfg.outputDir, ".jpg");
    OutputNaming(cfg.inputDir, e.name, ext, cfg.outputDir, ".mp4");
  }

  /**
   * The scan loop: `files_to_process.append(...)` for every entry that
   * classifies; entries that are not regular files or match no suffix are
   * skipped.
   */
  method ScanEntries(cfg: Config, entries: seq<Entry>) returns (tasks: seq<Task>)
    ensures tasks == Tasks(cfg, entries)
  {
    tasks := [];
    for i := 0 to |entries|
      invariant tasks == Tasks(cfg, entries[..i])
    {
      var e := entries[i];
      var found := Classify(cfg, e);
      assert ClassifyWith(cfg)(e) == found;
      FilterMapSnoc(entries[..i], e, ClassifyWith(cfg));
      assert entries[..i + 1] == entries[..i] + [e];
      if found.Some? {
        tasks := tasks + [found.value];
      }
    }
    assert entries[..|entries|] == entries;
  }
}
