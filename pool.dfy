/**
 * The process pool section of `run_conversion`, for any worker function:
 * every task is submitted in list order, and the futures are then read back
 * in that same list order (not in completion order), with a progress call
 * after each one. Each worker is modelled as a function of its task.
 */
module Pool {

  /** What running `work` on each task gives, in task order. */
  function MapAll<T, O>(tasks: seq<T>, work: T -> O): (rs: seq<O>)
    ensures |rs| == |tasks|
  {
    if tasks == [] then []
    else MapAll(tasks[..|tasks| - 1], work) + [work(tasks[|tasks| - 1])]
  }

  /** The i-th result is what the worker returned for the i-th task. */
  lemma {:induction false} MapAllAt<T, O>(tasks: seq<T>, work: T -> O, i: nat)
    requires i < |tasks|
    ensures MapAll(tasks, work)[i] == work(tasks[i])
  {
    if i < |tasks| - 1 {
      MapAllAt(tasks[..|tasks| - 1], work, i);
    }
  }

  /**
   * Submit one worker per task (`submitted` lists them in submission
   * order), then collect each future's result in list order into `results`,
   * calling `progress_callback(i + 1, count)` after each when a callback is
   * given (`progress` lists the arguments of those calls).
   */
  method Dispatch<T, O>(tasks: seq<T>, work: T -> O, hasCallback: bool)
    returns (submitted: seq<T>, results: seq<O>, progress: seq<(nat, nat)>)
    ensures submitted == tasks
    ensures results == MapAll(tasks, work)
    ensures |progress| == (if hasCallback then |tasks| else 0)
    ensures forall k :: 0 <= k < |progress| ==> progress[k] == (k + 1, |tasks|)
  {
    var count := |tasks|;
    submitted := [];
    var futures: seq<O> := [];
    for j := 0 to count
      invariant submitted == tasks[..j]
      invariant futures == MapAll(tasks[..j], work)
    {
      assert tasks[..j + 1][..j] == tasks[..j];
      submitted := submitted + [tasks[j]];
      futures := futures + [work(tasks[j])];
    }
    assert tasks[..count] == tasks;

    results := [];
    progress := [];
    for i := 0 to count
      invariant results == futures[..i]
      invariant |progress| == (if hasCallback then i else 0)
      invariant forall k :: 0 <= k < |progress| ==> progress[k] == (k + 1, count)
    {
      results := results + [futures[i]];
      if hasCallback {
        progress := progress + [(i + 1, count)];
      }
    }
    assert futures[..count] == futures;
  }
}
