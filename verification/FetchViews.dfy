/**
  What one segment sees of a run: its own steps, and between them whatever the other segments do to the shared record
  of failures, to the clock and to part files that are not its own.
*/
module FetchViews {
  import opened FetchPlans
  import opened PartNames
  import opened ExitSelection
  import opened Fetching
  import opened FetchRuns

  /** Others may mark further failures between two readings of the clock, and none is forgotten. */
  predicate LaterFailures(before: Failures, clock: nat, after: Failures, now: nat) {
    && clock <= now
    && (forall id :: id in before ==> id in after)
    && forall id :: id in after ==> (id in before && after[id] == before[id]) || clock <= after[id] <= now
  }

  predicate SameFile(name: string, before: Directory, after: Directory) {
    (name in before <==> name in after) && (name in before ==> after[name] == before[name])
  }

  /** Time in which only other segments move. */
  ghost predicate Meanwhile(s: State, s': State) {
    && |s.tasks| == 1 && s'.tasks == s.tasks
    && LaterFailures(s.failed, s.clock, s'.failed, s'.clock)
    && SameFile(PartName(s.tasks[0].index), s.parts, s'.parts)
  }

  ghost predicate View(job: Job, path: seq<State>) {
    path != [] && forall k :: 0 <= k < |path| - 1 ==> Next(job, path[k], path[k + 1]) || Meanwhile(path[k], path[k + 1])
  }

  function Seen(s: State, i: nat): State
    requires i < |s.tasks|
  {
    State([s.tasks[i]], s.failed, s.clock, s.parts)
  }

  /** A step of the run is a step of the segment itself, or one of the others. */
  lemma StepSeen(job: Job, plan: seq<Segment>, s: State, k: nat, a: Action, s': State, i: nat)
    requires Runnable(job, plan) && Step(job, s, k, a, s') && |s.tasks| == |plan| && i < |plan|
    requires FitsPlan(s.tasks[i], plan[i]) && FitsPlan(s.tasks[k], plan[k])
    ensures |s'.tasks| == |plan|
    ensures Next(job, Seen(s, i), Seen(s', i)) || Meanwhile(Seen(s, i), Seen(s', i))
  {
    if k == i {
      var t, v := s.tasks[i], Seen(s, i);
      assert v.tasks[0 := After(job, t, a)] == [After(job, t, a)];
      assert Step(job, v, 0, a, Seen(s', i));
    } else {
      RangesInside(job, plan, i);
      RangesInside(job, plan, k);
      PartNamesDiffer(i, k);
      OtherParts(s.tasks[k], a, s.parts, PartName(i));
    }
  }

  /** What a segment sees of a run of all segments, however they interleave, is such a view. */
  lemma RunSeen(job: Job, plan: seq<Segment>, run: seq<State>, i: nat) returns (path: seq<State>)
    requires Runnable(job, plan) && IsRun(job, plan, run) && i < |plan|
    ensures |path| == |run| && View(job, path)
    ensures forall k :: 0 <= k < |run| ==> i < |run[k].tasks| && path[k] == Seen(run[k], i)
  {
    forall k | 0 <= k < |run|
      ensures Inv(job, plan, run[0].parts, run[k])
    {
      RunInv(job, plan, run, k);
    }
    path := seq(|run|, k requires 0 <= k < |run| => Seen(run[k], i));
    forall k | 0 <= k < |path| - 1
      ensures Next(job, path[k], path[k + 1]) || Meanwhile(path[k], path[k + 1])
    {
      var n, a :| Step(job, run[k], n, a, run[k + 1]);
      StepSeen(job, plan, run[k], n, a, run[k + 1], i);
    }
  }

  /** Conversely, whatever step a segment takes in its view, it can take among all the others. */
  lemma StepLifts(job: Job, s: State, i: nat, a: Action, v: State) returns (s': State)
    requires i < |s.tasks| && Step(job, Seen(s, i), 0, a, v)
    ensures Step(job, s, i, a, s') && |s'.tasks| == |s.tasks| && Seen(s', i) == v
    ensures forall k :: 0 <= k < |s.tasks| && k != i ==> s'.tasks[k] == s.tasks[k]
  {
    s' := State(s.tasks[i := After(job, s.tasks[i], a)], v.failed, v.clock, v.parts);
    assert Seen(s, i).tasks[0] == s.tasks[i];
  }
}
