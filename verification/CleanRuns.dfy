/** Every plan has a run in which every segment succeeds at its first attempt. */
module CleanRuns {
  import opened FetchPlans
  import opened PartNames
  import opened Fetching
  import opened FetchRuns
  import opened FetchTallies

  function StepOf(job: Job, s: State, i: nat, a: Action): State
    requires i < |s.tasks| && !a.Mark?
  {
    State(s.tasks[i := After(job, s.tasks[i], a)], s.failed, s.clock, PartsAfter(s.tasks[i], a, s.parts))
  }

  lemma PathStep(job: Job, path: seq<State>, i: nat, a: Action) returns (longer: seq<State>)
    requires Path(job, path) && i < |path[|path| - 1].tasks| && !a.Mark?
    requires Enabled(job, path[|path| - 1], path[|path| - 1].tasks[i], a)
    ensures Path(job, longer) && longer[0] == path[0]
    ensures longer[|longer| - 1] == StepOf(job, path[|path| - 1], i, a)
  {
    var s := path[|path| - 1];
    var s' := StepOf(job, s, i, a);
    assert Step(job, s, i, a, s');
    longer := path + [s'];
    forall k | 0 <= k < |longer| - 1
      ensures Next(job, longer[k], longer[k + 1])
    {
      if k < |path| - 1 {
        assert longer[k] == path[k] && longer[k + 1] == path[k + 1];
      }
    }
  }

  /** The five steps of a download without any trouble. */
  lemma CleanDownload(job: Job, path: seq<State>, i: nat) returns (longer: seq<State>)
    requires Path(job, path) && i < |path[|path| - 1].tasks|
    requires var t := path[|path| - 1].tasks[i];
             t.phase == Ready && t.exit in job.ids && t.range.endInclusive < |job.content|
    ensures Path(job, longer) && longer[0] == path[0]
    ensures var s, s' := path[|path| - 1], longer[|longer| - 1];
            && |s'.tasks| == |s.tasks| && s'.tasks[i].phase.Done?
            && (forall j :: 0 <= j < |s.tasks| && j != i ==> s'.tasks[j] == s.tasks[j])
            && s'.parts.Keys == s.parts.Keys + {PartName(s.tasks[i].index)}
  {
    longer := PathStep(job, path, i, Begin);
    longer := PathStep(job, longer, i, Respond(206));
    longer := PathStep(job, longer, i, Create);
    var slice := Slice(job.content, path[|path| - 1].tasks[i].range);
    longer := PathStep(job, longer, i, Receive(slice));
    assert [] + slice == slice;
    longer := PathStep(job, longer, i, EndOfBody);
  }

  /** Each segment after the other, the first `n` of them done. */
  lemma {:induction false} CleanRun(job: Job, plan: seq<Segment>, n: nat) returns (run: seq<State>)
    requires Runnable(job, plan) && n <= |plan|
    ensures IsRun(job, plan, run) && run[0].parts == map[]
    ensures var s := run[|run| - 1];
            && |s.tasks| == |plan|
            && (forall i :: 0 <= i < n ==> s.tasks[i].phase.Done?)
            && (forall i :: n <= i < |plan| ==> s.tasks[i] == run[0].tasks[i])
            && forall name :: name in s.parts ==> IsPlanned(name, n)
  {
    if n == 0 {
      var tasks := seq(|plan|, i requires 0 <= i < |plan| =>
                         Task(plan[i].index, plan[i].range, plan[i].exit, plan[i].exit, 0, Ready, []));
      run := [State(tasks, map[], 0, map[])];
    } else {
      var before := CleanRun(job, plan, n - 1);
      RangesInside(job, plan, n - 1);
      run := CleanDownload(job, before, n - 1);
      assert PartName(before[|before| - 1].tasks[n - 1].index) == PartName(n - 1);
    }
  }

  /** So success is possible, from an empty directory, for every plan and every content. */
  lemma SuccessIsPossible(job: Job, plan: seq<Segment>) returns (run: seq<State>)
    requires Runnable(job, plan)
    ensures IsRun(job, plan, run) && run[0].parts == map[] && AllDone(run[|run| - 1])
    ensures forall name :: name in run[|run| - 1].parts ==> IsPlanned(name, |plan|)
  {
    run := CleanRun(job, plan, |plan|);
  }
}
