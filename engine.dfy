/**
 * `run_conversion`: scan, stop early when nothing is convertible, otherwise
 * create the output directory once, submit one worker per task, read the
 * results back in submission order while reporting progress, and reduce
 * them to a success count and the list of failure messages.
 *
 * The process pool is modelled as running each worker to completion in
 * submission order; `run_conversion` reads their results in that order too.
 */
module Engine {
  import opened Optional
  import opened Workers
  import opened Filtering
  import opened Classifier
  import opened Pool

  const NothingToConvert := "No convertible media files found."

  /** How the run ended, the third element of the returned triple: the elapsed time, or the early-exit message. */
  datatype Ending = Elapsed | Notice(text: string)

  datatype Summary = Summary(successCount: nat, errors: seq<string>, ending: Ending)

  /** The worker a task is submitted to, with the codec and the ffmpeg runner it uses. */
  function Worker(codec: ImageCodec, run: FfmpegRunner): Task -> Outcome
  {
    t => Work(t, codec, run)
  }

  /** What the workers return for the tasks, one outcome per task in submission order. */
  function Results(tasks: seq<Task>, codec: ImageCodec, run: FfmpegRunner): seq<Outcome>
  {
    MapAll(tasks, Worker(codec, run))
  }

  /** The i-th result is what the worker of the i-th task returned, and it names that task's source. */
  lemma ResultAt(tasks: seq<Task>, codec: ImageCodec, run: FfmpegRunner, i: nat)
    requires i < |tasks|
    ensures |Results(tasks, codec, run)| == |tasks|
    ensures Results(tasks, codec, run)[i] == Work(tasks[i], codec, run)
    ensures WellFormed(Results(tasks, codec, run)[i], tasks[i].src)
  {
    MapAllAt(tasks, Worker(codec, run), i);
  }

  /** `sum(1 for success, _ in results if success)`. */
  function SuccessCount(results: seq<Outcome>): nat
  {
    if results == [] then 0
    else SuccessCount(results[..|results| - 1]) + if results[|results| - 1].Converted? then 1 else 0
  }

  function FailureMessage(o: Outcome): Option<string>
  {
    match o
    case Converted(_) => None
    case Failed(message) => Some(message)
  }

  /** `[msg for success, msg in results if not success]`. */
  function Errors(results: seq<Outcome>): seq<string>
  {
    FilterMap(results, FailureMessage)
  }

  /** Every result is counted once: as a success or as one error message. */
  lemma {:induction false} CountsAddUp(results: seq<Outcome>)
    ensures SuccessCount(results) + |Errors(results)| == |results|
  {
    if results != [] {
      CountsAddUp(results[..|results| - 1]);
    }
  }

  /**
   * The error list is exactly the messages of the failed results, in result
   * order: its k-th message is that of the k-th failed result, and every
   * failed result contributes one.
   */
  lemma ErrorsInResultOrder(results: seq<Outcome>)
    ensures var errs, ix := Errors(results), Kept(results, FailureMessage);
      |errs| == |ix| && Increasing(ix) &&
      (forall k :: 0 <= k < |ix| ==> results[ix[k]] == Failed(errs[k])) &&
      (forall i :: 0 <= i < |results| ==> (i in ix <==> results[i].Failed?))
  {
    FilterMapKeeps(results, FailureMessage);
  }

  /** When every worker succeeds, all tasks count as converted and there are no errors. */
  lemma AllConverted(results: seq<Outcome>)
    requires forall i :: 0 <= i < |results| ==> results[i].Converted?
    ensures SuccessCount(results) == |results| && Errors(results) == []
  {
    CountsAddUp(results);
    ErrorsInResultOrder(results);
  }

  /**
   * Every error message is the failure of one task and starts with that
   * task's source path followed by ": ".
   */
  lemma ErrorsNameTheirSources(tasks: seq<Task>, codec: ImageCodec, run: FfmpegRunner)
    ensures var results := Results(tasks, codec, run);
      forall m :: m in Errors(results) ==>
        exists i :: 0 <= i < |tasks| && results[i] == Failed(m) && HasPrefix(m, Prefix(tasks[i].src))
  {
    var results := Results(tasks, codec, run);
    ErrorsInResultOrder(results);
    var ix := Kept(results, FailureMessage);
    forall m | m in Errors(results)
      ensures exists i :: 0 <= i < |tasks| && results[i] == Failed(m) && HasPrefix(m, Prefix(tasks[i].src))
    {
      var k :| 0 <= k < |Errors(results)| && Errors(results)[k] == m;
      var i := ix[k];
      ResultAt(tasks, codec, run, i);
      assert results[i] == Failed(m);
    }
  }

  /**
   * `ProcessPoolExecutor(max_workers=workers)` accepts the worker count: it
   * refuses one below 1 with `ValueError`, and takes None (what
   * `os.cpu_count()` returns when it cannot tell) as the machine's CPU count
   * or 1.
   */
  predicate PoolAccepts(workers: Option<int>)
  {
    workers.None? || workers.value > 0
  }

  /**
   * One call of `run_conversion` on the entries `iterdir()` yields.
   * `outcome` is the returned triple, or None when the pool refused the
   * worker count and `run_conversion` raised. `submitted` lists the tasks
   * handed to the pool, `results` what their workers returned, `progress`
   * the arguments of each `progress_callback` call (none when no callback
   * is given), and `mkdirCalled` whether the output directory was created.
   */
  method RunConversion(cfg: Config, entries: seq<Entry>, codec: ImageCodec, run: FfmpegRunner, workers: Option<int>,
                       hasCallback: bool)
    returns (outcome: Option<Summary>, submitted: seq<Task>, results: seq<Outcome>, progress: seq<(nat, nat)>,
             mkdirCalled: bool)
    ensures var tasks := Tasks(cfg, entries);
      tasks == [] ==>
        outcome == Some(Summary(0, [], Notice(NothingToConvert))) &&
        !mkdirCalled && submitted == [] && results == [] && progress == []
    ensures var tasks := Tasks(cfg, entries);
      tasks != [] && !PoolAccepts(workers) ==>
        outcome == None && mkdirCalled && submitted == [] && results == [] && progress == []
    ensures var tasks := Tasks(cfg, entries);
      tasks != [] && PoolAccepts(workers) ==>
        mkdirCalled && submitted == tasks &&
        results == Results(tasks, codec, run) &&
        outcome == Some(Summary(SuccessCount(results), Errors(results), Elapsed)) &&
        outcome.value.successCount + |outcome.value.errors| == |tasks| &&
        |progress| == (if hasCallback then |tasks| else 0) &&
        (forall k :: 0 <= k < |progress| ==> progress[k] == (k + 1, |tasks|))
  {
    var tasks := ScanEntries(cfg, entries);
    if |tasks| == 0 {
      return Some(Summary(0, [], Notice(NothingToConvert))), [], [], [], false;
    }

    mkdirCalled := true;
    if !PoolAccepts(workers) {
      return None, [], [], [], mkdirCalled;
    }
    submitted, results, progress := Dispatch(tasks, Worker(codec, run), hasCallback);
    CountsAddUp(results);
    outcome := Some(Summary(SuccessCount(results), Errors(results), Elapsed));
  }
}
