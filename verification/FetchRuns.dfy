/** What holds in every state of every run, however the tasks interleave. */
module FetchRuns {
  import opened Common
  import opened PlanRanges
  import opened FetchPlans
  import opened PartNames
  import opened ExitSelection
  import opened Fetching

  // ----- the log of one segment

  /** What may come after what in the log of one segment. */
  ghost predicate Follows(job: Job, a: Event, b: Event) {
    match (a, b)
    case (Started(e, n), AttemptFailed(f, m, _)) => e == f && n == m
    case (Started(e, _), Finished(f, _)) => e == f
    case (AttemptFailed(e, n, error), Started(f, m)) =>
      IsRetryable(error) && n < job.maxAttempts && m == n + 1 && f in job.ids
      && (f == e ==> forall id :: id in job.ids ==> id == e)
    case _ => false
  }

  /**
    The first attempt is made on the planned exit; a new attempt follows only a retryable failure and uses
    another exit while there is one; nothing follows success.
  */
  ghost predicate Orderly(job: Job, planned: ExitId, log: seq<Event>) {
    && (log != [] ==> log[0] == Started(planned, 1))
    && forall k :: 0 <= k < |log| - 1 ==> Follows(job, log[k], log[k + 1])
  }

  /** The two reasons to give up: a failure not worth another try, or no tries left. */
  ghost predicate GaveUp(job: Job, index: nat, last: Event, error: FetchError) {
    && last.AttemptFailed?
    && if IsRetryable(last.error)
       then last.attempt == job.maxAttempts && error == SegmentAttemptsExhausted(index, job.maxAttempts, last.error)
       else error == last.error
  }

  ghost predicate LogFits(job: Job, t: Task) {
    var n := |t.log|;
    match t.phase
    case Ready =>
      if t.attempt == 0 then n == 0 && t.exit == t.planned
      else n > 0 && t.log[n - 1].AttemptFailed? && Follows(job, t.log[n - 1], Started(t.exit, t.attempt + 1))
    case Sent => n > 0 && t.log[n - 1] == Started(t.exit, t.attempt)
    case Opening => n > 0 && t.log[n - 1] == Started(t.exit, t.attempt)
    case Streaming(_) => n > 0 && t.log[n - 1] == Started(t.exit, t.attempt)
    case Failed(error) => n > 0 && t.log[n - 1] == AttemptFailed(t.exit, t.attempt, error)
    case Marking(error) => n > 0 && t.log[n - 1] == AttemptFailed(t.exit, t.attempt, error) && IsRetryable(error)
    case Picking =>
      && n > 0 && t.log[n - 1].AttemptFailed? && t.attempt < job.maxAttempts
      && t.log[n - 1] == AttemptFailed(t.exit, t.attempt, t.log[n - 1].error) && IsRetryable(t.log[n - 1].error)
    case Done(bytes) => n > 0 && t.log[n - 1] == Finished(t.exit, bytes)
    case Aborted(error) => n > 0 && GaveUp(job, t.index, t.log[n - 1], error)
  }

  ghost predicate TaskOk(job: Job, t: Task) {
    && t.exit in job.ids && t.attempt <= job.maxAttempts
    && Orderly(job, t.planned, t.log) && LogFits(job, t)
    && (t.phase == Ready ==> t.attempt < job.maxAttempts)
    && (t.log != [] ==> t.attempt > 0)
    && (t.phase.Done? ==> t.phase.bytes == Len(t.range))
    && (!t.phase.Done? ==> forall k :: 0 <= k < |t.log| ==> !t.log[k].Finished?)
  }

  /** One step keeps a segment's own bookkeeping. */
  lemma TaskStep(job: Job, s: State, t: Task, a: Action)
    requires TaskOk(job, t) && Enabled(job, s, t, a)
    ensures TaskOk(job, After(job, t, a))
  {
    if a.Pick? {
      PickAvoids(job.ids, s.failed, t.exit, a.next);
    }
  }

  // ----- the shared directory

  /** What a segment has put into its part file. */
  ghost predicate PartOk(job: Job, parts: Directory, t: Task) {
    && (t.phase.Streaming? ==> PartName(t.index) in parts && parts[PartName(t.index)] == t.phase.body)
    && (t.phase.Done? ==> t.range.endInclusive < |job.content| && PartName(t.index) in parts
                          && parts[PartName(t.index)] == Slice(job.content, t.range))
  }

  lemma OwnPart(job: Job, s: State, t: Task, a: Action)
    requires Enabled(job, s, t, a) && PartOk(job, s.parts, t) && t.range.endInclusive < |job.content|
    ensures PartOk(job, PartsAfter(t, a, s.parts), After(job, t, a))
  {
  }

  /** A step of one segment leaves every file but its own alone. */
  lemma OtherParts(t: Task, a: Action, parts: Directory, name: string)
    requires name != PartName(t.index)
    ensures name in PartsAfter(t, a, parts) <==> name in parts
    ensures name in parts ==> PartsAfter(t, a, parts)[name] == parts[name]
  {
  }

  ghost predicate IsPlanned(name: string, n: nat) {
    exists i :: 0 <= i < n && name == PartName(i)
  }

  /** Files that belong to no segment are as they were before the run. */
  ghost predicate OthersUntouched(n: nat, before: Directory, parts: Directory) {
    forall name :: !IsPlanned(name, n) ==>
      && (name in parts <==> name in before)
      && (name in parts ==> parts[name] == before[name])
  }

  ghost predicate FitsPlan(t: Task, seg: Segment) {
    t.index == seg.index && t.range == seg.range && t.planned == seg.exit
  }

  ghost predicate Inv(job: Job, plan: seq<Segment>, before: Directory, s: State) {
    && |s.tasks| == |plan|
    && (forall i :: 0 <= i < |plan| ==> FitsPlan(s.tasks[i], plan[i]))
    && (forall i :: 0 <= i < |plan| ==> TaskOk(job, s.tasks[i]))
    && (forall i :: 0 <= i < |plan| ==> PartOk(job, s.parts, s.tasks[i]))
    && OthersUntouched(|plan|, before, s.parts)
  }

  lemma RangesInside(job: Job, plan: seq<Segment>, i: nat)
    requires Runnable(job, plan) && i < |plan|
    ensures plan[i].range.endInclusive < |job.content| && plan[i].index == i < TWO32
  {
    TilesBounds(PiecesOf(plan), 0, |job.content|);
    assert PiecesOf(plan)[i].range == plan[i].range;
  }

  lemma TheirPart(job: Job, plan: seq<Segment>, s: State, i: nat, a: Action, k: nat)
    requires Runnable(job, plan) && |s.tasks| == |plan| && i < |plan| && k < |plan| && k != i
    requires FitsPlan(s.tasks[i], plan[i]) && FitsPlan(s.tasks[k], plan[k])
    requires PartOk(job, s.parts, s.tasks[k])
    ensures PartOk(job, PartsAfter(s.tasks[i], a, s.parts), s.tasks[k])
  {
    RangesInside(job, plan, i);
    RangesInside(job, plan, k);
    PartNamesDiffer(i, k);
    OtherParts(s.tasks[i], a, s.parts, PartName(k));
  }

  lemma StepInv(job: Job, plan: seq<Segment>, before: Directory, s: State, i: nat, a: Action, s': State)
    requires Runnable(job, plan) && Inv(job, plan, before, s) && Step(job, s, i, a, s')
    ensures Inv(job, plan, before, s')
  {
    var t := s.tasks[i];
    RangesInside(job, plan, i);
    TaskStep(job, s, t, a);
    OwnPart(job, s, t, a);
    forall k | 0 <= k < |plan|
      ensures FitsPlan(s'.tasks[k], plan[k]) && TaskOk(job, s'.tasks[k]) && PartOk(job, s'.parts, s'.tasks[k])
    {
      if k != i {
        TheirPart(job, plan, s, i, a, k);
      }
    }
    forall name | !IsPlanned(name, |plan|)
      ensures name in s'.parts <==> name in before
      ensures name in s'.parts ==> s'.parts[name] == before[name]
    {
      assert name != PartName(t.index);
      OtherParts(t, a, s.parts, name);
    }
  }

  /** Every state of every run, in every interleaving. */
  lemma {:induction false} RunInv(job: Job, plan: seq<Segment>, run: seq<State>, k: nat)
    requires Runnable(job, plan) && IsRun(job, plan, run) && k < |run|
    ensures Inv(job, plan, run[0].parts, run[k])
  {
    if k == 0 {
      forall i | 0 <= i < |plan|
        ensures TaskOk(job, run[0].tasks[i])
      {
        assert plan[i].exit in job.ids;
      }
    } else {
      RunInv(job, plan, run, k - 1);
      var i, a :| Step(job, run[k - 1], i, a, run[k]);
      StepInv(job, plan, run[0].parts, run[k - 1], i, a, run[k]);
    }
  }

  // ----- what is retried, by error and status number

  /** A segment gives up only after its last permitted attempt, or on a failure that no retry can cure. */
  lemma AbortsForAReason(job: Job, plan: seq<Segment>, run: seq<State>, k: nat, i: nat)
    requires Runnable(job, plan) && IsRun(job, plan, run) && k < |run| && i < |plan|
    ensures i < |run[k].tasks|
    ensures var t := run[k].tasks[i];
            t.phase.Aborted? ==> t.log != [] && GaveUp(job, i, t.log[|t.log| - 1], t.phase.error)
  {
    RunInv(job, plan, run, k);
    RangesInside(job, plan, i);
    assert FitsPlan(run[k].tasks[i], plan[i]) && TaskOk(job, run[k].tasks[i]);
  }

  /** A segment that has given up on a failure of the network, the disk or the server has made every attempt. */
  lemma GivesUpLast(job: Job, plan: seq<Segment>, run: seq<State>, k: nat, i: nat)
    requires Runnable(job, plan) && IsRun(job, plan, run) && k < |run| && i < |plan|
    ensures i < |run[k].tasks|
    ensures var t := run[k].tasks[i];
            t.phase.Aborted? ==>
              && t.log != [] && t.log[|t.log| - 1].AttemptFailed?
              && var last := t.log[|t.log| - 1];
                 if || last.error == HttpTransport || last.error == Io || last.error.SegmentLengthMismatch?
                    || (last.error.HttpStatus? && 500 <= last.error.status < 600)
                    || (last.error.RangeRejected? && 500 <= last.error.status)
                 then last.attempt == job.maxAttempts
                      && t.phase.error == SegmentAttemptsExhausted(i, job.maxAttempts, last.error)
                 else t.phase.error == last.error
  {
    AbortsForAReason(job, plan, run, k, i);
  }

  lemma OnlyRetryable(job: Job, planned: ExitId, log: seq<Event>, j: nat)
    requires Orderly(job, planned, log) && j + 1 < |log| && log[j].AttemptFailed?
    ensures IsRetryable(log[j].error)
  {
    assert Follows(job, log[j], log[j + 1]);
  }

  /** After a client error, or a refusal with a status below 500, a segment makes no further attempt. */
  lemma RefusalsAreFinal(job: Job, plan: seq<Segment>, run: seq<State>, k: nat, i: nat, j: nat)
    requires Runnable(job, plan) && IsRun(job, plan, run) && k < |run| && i < |plan|
    requires i < |run[k].tasks| && j < |run[k].tasks[i].log|
    requires run[k].tasks[i].log[j].AttemptFailed?
    requires var error := run[k].tasks[i].log[j].error;
             || (error.HttpStatus? && !(500 <= error.status < 600))
             || (error.RangeRejected? && error.status < 500)
    ensures var t := run[k].tasks[i];
            && j == |t.log| - 1
            && (t.phase.Failed? || t.phase == Aborted(t.log[j].error))
  {
    RunInv(job, plan, run, k);
    var t := run[k].tasks[i];
    assert TaskOk(job, t);
    if j < |t.log| - 1 {
      OnlyRetryable(job, t.planned, t.log, j);
    }
  }

  // ----- the retry protocol, read off the steps

  /** Whenever a segment picks an exit, in any run, it is another one while there is one, and failed longest ago. */
  lemma EveryPick(job: Job, plan: seq<Segment>, run: seq<State>, k: nat, i: nat, next: ExitId)
    requires Runnable(job, plan) && IsRun(job, plan, run) && k + 1 < |run|
    requires Step(job, run[k], i, Pick(next), run[k + 1])
    ensures i < |run[k].tasks| == |run[k + 1].tasks| && run[k + 1].tasks[i].exit == next
    ensures var avoid := run[k].tasks[i].exit;
            if forall id :: id in job.ids ==> id == avoid then next == avoid
            else next in job.ids && next != avoid && LongestAgo(job.ids, run[k].failed, avoid, next)
  {
    PickMeans(job.ids, run[k].failed, run[k].tasks[i].exit, next);
  }

  // ----- the retry protocol, read off the log

  lemma {:induction false} OrderlyAttempts(job: Job, planned: ExitId, log: seq<Event>, j: nat)
    requires Orderly(job, planned, log) && j < |log|
    ensures !log[j].Finished? ==> log[j].attempt == j / 2 + 1
    ensures log[j].Started? <==> j % 2 == 0
  {
    if j > 0 {
      OrderlyAttempts(job, planned, log, j - 1);
      assert Follows(job, log[j - 1], log[j]);
    }
  }

  /** In every run each segment's log is orderly and its attempts are numbered 1, 2, ... up to the limit. */
  lemma RetriesAreOrderly(job: Job, plan: seq<Segment>, run: seq<State>, k: nat, i: nat)
    requires Runnable(job, plan) && IsRun(job, plan, run) && k < |run| && i < |plan|
    ensures i < |run[k].tasks| && Orderly(job, plan[i].exit, run[k].tasks[i].log)
    ensures forall e :: e in run[k].tasks[i].log && e.Started? ==>
              1 <= e.attempt <= job.maxAttempts && e.exit in job.ids
  {
    RunInv(job, plan, run, k);
    var t := run[k].tasks[i];
    forall e | e in t.log && e.Started?
      ensures 1 <= e.attempt <= job.maxAttempts && e.exit in job.ids
    {
      var j :| 0 <= j < |t.log| && t.log[j] == e;
      if j == 0 {
        assert plan[i].exit in job.ids;
      } else {
        assert Follows(job, t.log[j - 1], t.log[j]);
        OrderlyAttempts(job, t.planned, t.log, j - 1);
      }
    }
  }
}
