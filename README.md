# heic2jpg batch conversion engine, in Dafny

This project models the decision logic of `run_conversion` in `heic2jpg.py`,
a bulk HEIC-to-JPEG and video-to-MP4 converter, and proves what that logic
promises. `run_conversion` is the engine behind the desktop front end
(`ConverterGUI.process`); the command line's `main` repeats the same logic
inline.

- **Classifier** (`classifier.dfy`, module `Classifier`). It scans the children
  of the input directory. Each regular file is matched by its pathlib suffix,
  case-sensitively, against the image suffixes `.heic`/`.HEIC` and the eight
  video suffixes. A match becomes an image task `(src, outdir, quality)` or a
  video task `(src, outdir, ffmpeg)`. Video files are dropped silently when no
  ffmpeg executable was found. Everything else is ignored. The scan loop is
  the method `ScanEntries`, proved equal to the filter-map `Tasks`.
- **Path naming** (`paths.dfy`, module `PurePaths`). This is POSIX pathlib's
  `name`, `suffix` and `stem` (built on `str.rfind`) and `Path / name`. A source
  `dir/a.b.heic` gives the output `outdir/a.b.jpg`.
- **Workers** (`workers.dfy`, module `Workers`). These are `convert_image` and
  `convert_video`, taken as functions of their task:
  - The image codec is a parameter. It either saves the JPEG or reports the
    text of the exception it raised.
  - The ffmpeg subprocess is a parameter. It gets the exact command line and
    either exits with a return code or raises.
  - Every outcome is `(True, src)` or `(False, "src: cause")`.
  - A reference reading of the ffmpeg command line (`ReadArgs`) shows what
    ffmpeg is told to do.
- **Return codes in messages** (`decimal.dfy`, module `Decimal`). This is
  Python's `str(int)`, which can be negative. It is proved to read back.
- **Dispatch** (`pool.dfy`, module `Pool`). The pool runs sequentially:
  - every task is submitted in list order;
  - the futures are read back in that same order;
  - after each one, `progress_callback(i + 1, count)` is called when a
    callback is given.
- **Aggregation and the whole run** (`engine.dfy`, module `Engine`). The
  success count and the failure messages are computed in result order.
  `RunConversion` ties it together:
  - with no task, it returns the early `(0, [], "No convertible media files found.")`
    without creating the output directory;
  - otherwise it creates the directory once. A worker count below 1 makes
    the pool constructor raise at that point; None is accepted. Otherwise it
    dispatches and aggregates.
- `filtering.dfy` (module `Filtering`) holds the filter-map that both the scan
  and the error list compute. `optional.dfy` holds `Option`.

Python's `None` and an empty string are both false in `if ffmpeg_exe:` and
`if not ffmpeg_path:`. So the ffmpeg path is an `Option<string>`, and it
counts as available only when present and non-empty (`Workers.Available`).

Two points about `run_conversion` worth noting:
- Results are collected by iterating the list of futures. So the results, the
  error messages and the progress calls come in submission order, not in
  completion order.
- `run_conversion` does not check that the input directory exists; only
  `main` does (heic2jpg.py:246-248).

## Model

| member | source | states |
|---|---|---|
| `PurePaths.SuffixIs` | heic2jpg.py:96 | the pathlib suffix of a name is exactly `ext` iff the name ends with `ext` after at least one other character (so a bare `.heic` has no suffix) |
| `PurePaths.StemThenSuffix` | heic2jpg.py:33 | stem followed by suffix gives back the whole name |
| `PurePaths.StemIs` | heic2jpg.py:33 | when the suffix is `ext`, the stem is the name minus that one suffix (`a.b.heic` → `a.b`) |
| `PurePaths.NameOfJoin` | heic2jpg.py:92-97 | the name of `str(input_path / child)` is the child's name again, for any directory string |
| `Decimal.IntRoundTrip` | heic2jpg.py:75 | the decimal text of any return code, negative ones included, reads back as that code |
| `Decimal.IntToStringCanonical` | heic2jpg.py:75 | the text of any return code has no leading zero and is never `-0` |
| `Decimal.CanonicalRoundTrip` | heic2jpg.py:75 | canonical decimal text that reads as `n` is exactly the text of `n`, so reading and printing are inverse on it |
| `Workers.ConvertImage` | heic2jpg.py:25-40 | the outcome is `(True, src)` exactly when the codec saved `outdir/stem.jpg` at the given quality; otherwise it is `(False, src + ": " + cause)` with the codec's cause |
| `Workers.FfmpegArgv` | heic2jpg.py:57-67 | the command line has 15 words, starts with the ffmpeg path and ends with the output path |
| `Workers.FfmpegArgvReads` | heic2jpg.py:57-67 | whatever the two paths are, the command line reads as overwrite on and the options input `src`, libx264, ultrafast preset, one thread, aac, strict experimental, in that order, with the output path last (where `-y` stands among the options is not part of the reading) |
| `Workers.ConvertVideo` | heic2jpg.py:42-78 | a missing or empty ffmpeg path gives `(False, src + ": FFmpeg not found.")`; the outcome is `(True, src)` exactly when ffmpeg ran the fixed command line and exited 0; when running ffmpeg raises, the outcome is `(False, src + ": " + text of the exception)`; every other outcome is a failure prefixed by `src + ": "` |
| `Workers.VideoExitCodeReported` | heic2jpg.py:72-75 | a nonzero return code `c` gives a failure whose cause is "FFmpeg exited with code " followed by the canonical decimal text of `c` (the only text that reads back as `c`) |
| `Workers.ExitCodeTextIsCanonical` | heic2jpg.py:75 | a cause that reads as return code `n` is exactly "FFmpeg exited with code " followed by the text of `n` |
| `Workers.NotFoundHasNoExitCode` | heic2jpg.py:48-49 | without a usable ffmpeg path the video worker fails, and its cause cannot be read as an exit code |
| `Workers.Work` | heic2jpg.py:117-121 | an image task goes to the image worker and a video task to the video worker; either returns `(True, src)` or a failure message prefixed by `src + ": "` |
| `Workers.OutputNaming` | heic2jpg.py:52-54 | for a source `dir/name` whose suffix is `ext`, the output is `outdir / (name minus ext + new extension)`, directly in the output directory |
| `Filtering.FilterMapKeeps` | heic2jpg.py:92-103 | a filter-map keeps exactly the elements it maps to a value, in their original order, and its k-th value comes from the k-th kept element |
| `Classifier.Classify` | heic2jpg.py:92-103 | a task from an entry has source `input_path / name` and the run's output directory; an image task carries the quality; a video task carries the ffmpeg path, which is available |
| `Classifier.ClassifyByName` | heic2jpg.py:82-103 | image task iff regular file ending in `.heic` or `.HEIC` after another character; video task iff regular file ending in a video suffix and ffmpeg available; otherwise dropped, with no error entry |
| `Classifier.TasksFollowEntries` | heic2jpg.py:87-103 | the task list is built from the entries that classify, in scan order, each task from its entry's name, and none of those entries is left out |
| `Classifier.NoFfmpegNoVideo` | heic2jpg.py:98-103 | without ffmpeg every task is an image task carrying the run's quality |
| `Classifier.NoFfmpegNoImagesNoTasks` | heic2jpg.py:92-107 | without ffmpeg, a directory with no image file yields no task, so the run ends in "nothing to convert" |
| `Classifier.TaskOutputName` | heic2jpg.py:32-34 | a task's output is in the output directory, named by the entry's name minus its matched suffix, plus `.jpg` for an image or `.mp4` for a video |
| `Classifier.ScanEntries` | heic2jpg.py:87-103 | the scan loop builds exactly the filter-map of the entries through the classifier |
| `Pool.Dispatch` | heic2jpg.py:115-127 | every task is submitted once, in order; the results are the workers' outcomes in submission order; the progress callback is called `count` times, with `(1, count)`, `(2, count)`, …, `(count, count)`, or never when no callback is given |
| `Pool.MapAllAt` | heic2jpg.py:123-125 | the i-th collected result is the outcome of the i-th submitted task |
| `Engine.ResultAt` | heic2jpg.py:117-125 | there is one result per task, the i-th result is the worker's outcome for the i-th task, and it names that task's source |
| `Engine.CountsAddUp` | heic2jpg.py:130-131 | the success count plus the number of error messages equals the number of results |
| `Engine.ErrorsInResultOrder` | heic2jpg.py:131 | the error list is exactly the messages of the failed results, in result order, one per failed result |
| `Engine.AllConverted` | heic2jpg.py:130-131 | when every worker succeeds, the success count is the task count and the error list is empty |
| `Engine.ErrorsNameTheirSources` | heic2jpg.py:130-131 | every error message is the failure of one task and starts with that task's source path and ": " |
| `Engine.RunConversion` | heic2jpg.py:80-133 | with no task, the result is `(0, [], "No convertible media files found.")`, no directory is created and no worker or callback runs; otherwise the directory is created; a worker count below 1 then makes the pool constructor raise, with no task submitted; otherwise the tasks are submitted in scan order, the results are their outcomes in order, `success + len(errors) == count`, and progress is reported once per task |

## Left out

- Decoding HEIC and encoding JPEG (`Image.open`, `image.save`). These are
  foreign calls. Their result is the `ImageCodec` parameter: success, or the
  text of the raised exception.
- Running ffmpeg (`subprocess.run`). This is a foreign call. Its result is
  the `FfmpegRunner` parameter: a return code, or the text of the raised
  exception. The discarding of ffmpeg's output streams is not modelled.
- The process pool's concurrency and process isolation. Workers run one
  after another in submission order, which is the order the code reads
  results in. A worker process that dies (a broken pool) is not modelled;
  every worker returns an outcome.
- Engine.RunConversion: models only the pool's refusal of a worker count
  below 1. A count of None (what `os.cpu_count()` gives when it cannot tell)
  is accepted, as the pool then falls back to a count of its own. On Windows
  `ProcessPoolExecutor` also refuses more than 61 workers; that platform
  limit is not modelled.
- Paths are POSIX paths (`PurePosixPath`). Windows separators (`\`) and
  drives are not modelled, so on Windows the source paths, output paths and
  failure messages the program builds differ from the model's.
- Engine.RunConversion: does not model `mkdir` failing (for example when the
  output path names an existing file); `run_conversion` then raises before
  any worker runs.
- Finding ffmpeg (`get_ffmpeg_path`). Its result is the `ffmpeg` field of
  `Classifier.Config`.
- The filesystem. `iterdir` and `is_file` become the input sequence of
  entries. `mkdir` becomes the `mkdirCalled` flag. Entry names are taken to
  contain no '/', as directory listings guarantee. If the input directory is
  missing, `iterdir` raises; that exception is not modelled.
- Output files written by the workers. Overwriting, partial files left
  behind on failure, and two sources with the same stem writing one output
  are not modelled.
- pathlib's normalisation of directory strings (repeated or trailing slashes,
  `.` components). A directory is taken as `str(path)` prints it. `Join`
  covers `.`, the root and other directories. `Suffix` and `Stem` follow
  pathlib's rule that the last dot counts only when it is neither the first
  nor the last character, as in Python 3.12. Later pathlib releases compute
  the suffix after stripping leading dots, so there a name such as `..heic`
  has no suffix and is dropped rather than becoming an image task.
- The elapsed time (`time.time()`). It is a wall-clock float. The summary
  records only that a duration was returned (`Engine.Ending.Elapsed`).
- `ConverterGUI` and `main`. They are the tkinter form and the
  argparse/tqdm command line. `main` repeats the same classification,
  dispatch and aggregation inline.
