/** Exits tried by a segment running alone, and bytes counted over all segments. */
module FetchTallies {
  import opened PlanRanges
  import opened FetchPlans
  import opened ExitSelection
  import opened Fetching
  import opened FetchRuns

  // ----- a segment running alone

  /** The exits of the attempts, in order. */
  function Tries(log: seq<Event>): seq<ExitId> {
    if log == [] then []
    else
      var last := log[|log| - 1];
      Tries(log[..|log| - 1]) + if last.Started? then [last.exit] else []
  }

  ghost function Members(s: seq<ExitId>): set<ExitId> {
    set e | e in s
  }

  ghost function Tried(log: seq<Event>): set<ExitId> {
    Members(Tries(log))
  }

  lemma MembersPush(s: seq<ExitId>)
    requires s != []
    ensures Members(s) == Members(s[..|s| - 1]) + {s[|s| - 1]}
  {
    assert s == s[..|s| - 1] + [s[|s| - 1]];
  }

  lemma TriesPush(log: seq<Event>, e: Event)
    ensures Tries(log + [e]) == Tries(log) + if e.Started? then [e.exit] else []
    ensures Tried(log + [e]) == Tried(log) + if e.Started? then {e.exit} else {}
  {
    assert (log + [e])[..|log|] == log;
  }

  ghost predicate DistinctUpTo(tries: seq<ExitId>, n: nat) {
    forall i, j :: 0 <= i < j < |tries| && j < n ==> tries[i] != tries[j]
  }

  predicate InAttempt(phase: Phase) {
    !phase.Ready? && !phase.Picking? && !phase.Aborted?
  }

  /** The record of failures holds just the exits this segment has failed on. */
  ghost predicate Alone(job: Job, failed: Failures, t: Task) {
    && DistinctUpTo(Tries(t.log), |job.ids|)
    && (t.phase == Ready ==>
          && failed.Keys == Tried(t.log)
          && (0 < |Tries(t.log)| < |job.ids| ==> t.exit !in Tried(t.log)))
    && (t.phase == Picking ==> failed.Keys == Tried(t.log) && t.exit in Tried(t.log))
    && (InAttempt(t.phase) ==> failed.Keys + {t.exit} == Tried(t.log))
  }

  lemma {:induction false} TriedCount(tries: seq<ExitId>)
    ensures |Members(tries)| <= |tries|
    ensures (forall i, j :: 0 <= i < j < |tries| ==> tries[i] != tries[j]) ==> |Members(tries)| == |tries|
  {
    if tries != [] {
      var n := |tries| - 1;
      TriedCount(tries[..n]);
      MembersPush(tries);
    }
  }

  lemma {:induction false} SubsetCount(a: set<ExitId>, b: set<ExitId>)
    requires a <= b
    ensures |a| <= |b|
  {
    if a != {} {
      var x :| x in a;
      SubsetCount(a - {x}, b - {x});
    }
  }

  /** While there are more exits than attempts made, some exit has not been tried. */
  lemma SomeUntried(ids: seq<ExitId>, tries: seq<ExitId>) returns (id: ExitId)
    requires AscendingExits(ids) && |tries| < |ids|
    ensures id in ids && id !in tries
  {
    TriedCount(ids);
    TriedCount(tries);
    if forall id :: id in ids ==> id in tries {
      SubsetCount(Members(ids), Members(tries));
      assert false;
    }
    id :| id in ids && id !in tries;
  }

  lemma BeginAlone(job: Job, failed: Failures, t: Task)
    requires TaskOk(job, t) && Alone(job, failed, t) && t.phase == Ready
    ensures Alone(job, failed, After(job, t, Begin))
  {
    TriesPush(t.log, Started(t.exit, t.attempt + 1));
    var tries := Tries(t.log);
    if 0 < |tries| < |job.ids| {
      assert forall i :: 0 <= i < |tries| ==> tries[i] in Tried(t.log);
    }
  }

  lemma PickAlone(job: Job, failed: Failures, t: Task, next: ExitId)
    requires AscendingExits(job.ids) && Alone(job, failed, t) && t.phase == Picking
    requires Picks(job.ids, failed, t.exit, next)
    ensures Alone(job, failed, After(job, t, Pick(next)))
  {
    if |Tries(t.log)| < |job.ids| {
      var untried := SomeUntried(job.ids, Tries(t.log));
      PickUntried(job.ids, failed, t.exit, next, untried);
    }
  }

  lemma FailAlone(job: Job, failed: Failures, t: Task, error: FetchError)
    requires Alone(job, failed, t) && InAttempt(t.phase)
    ensures Alone(job, failed, Fail(t, error))
  {
    TriesPush(t.log, AttemptFailed(t.exit, t.attempt, error));
  }

  lemma FinishAlone(job: Job, failed: Failures, t: Task)
    requires Alone(job, failed, t) && t.phase.Streaming?
    ensures Alone(job, failed, After(job, t, EndOfBody))
  {
    FailAlone(job, failed, t, SegmentLengthMismatch(t.index, |t.phase.body|, Len(t.range)));
    TriesPush(t.log, Finished(t.exit, |t.phase.body|));
  }

  lemma RespondAlone(job: Job, failed: Failures, t: Task, status: nat)
    requires Alone(job, failed, t) && t.phase == Sent
    ensures Alone(job, failed, After(job, t, Respond(status)))
  {
    FailAlone(job, failed, t, HttpStatus(status));
    FailAlone(job, failed, t, RangeRejected(t.exit, t.index, status));
  }

  lemma AloneAfter(job: Job, s: State, t: Task, a: Action)
    requires AscendingExits(job.ids) && TaskOk(job, t) && Alone(job, s.failed, t) && Enabled(job, s, t, a) && !a.Mark?
    ensures Alone(job, s.failed, After(job, t, a))
  {
    match a
    case Begin => BeginAlone(job, s.failed, t);
    case Pick(next) => PickAlone(job, s.failed, t, next);
    case EndOfBody => FinishAlone(job, s.failed, t);
    case Lose => FailAlone(job, s.failed, t, HttpTransport);
    case Respond(status) => RespondAlone(job, s.failed, t, status);
    case CannotCreate => FailAlone(job, s.failed, t, Io);
    case Break(error, _) => FailAlone(job, s.failed, t, error);
    case _ =>
  }

  lemma MarkAlone(job: Job, failed: Failures, t: Task, now: nat)
    requires Alone(job, failed, t) && t.phase.Marking?
    ensures Alone(job, failed[t.exit := now], After(job, t, Mark(now)))
  {
  }

  lemma AloneStep(job: Job, s: State, a: Action, s': State)
    requires AscendingExits(job.ids) && |s.tasks| == 1
    requires TaskOk(job, s.tasks[0]) && Alone(job, s.failed, s.tasks[0]) && Step(job, s, 0, a, s')
    ensures Alone(job, s'.failed, s'.tasks[0])
  {
    if a.Mark? {
      MarkAlone(job, s.failed, s.tasks[0], a.now);
    } else {
      AloneAfter(job, s, s.tasks[0], a);
    }
  }

  lemma {:induction false} AloneRun(job: Job, plan: seq<Segment>, run: seq<State>, k: nat)
    requires Runnable(job, plan) && IsRun(job, plan, run) && |plan| == 1 && AscendingExits(job.ids) && k < |run|
    ensures |run[k].tasks| == 1 && Alone(job, run[k].failed, run[k].tasks[0])
  {
    RunInv(job, plan, run, k);
    if k > 0 {
      AloneRun(job, plan, run, k - 1);
      RunInv(job, plan, run, k - 1);
      var i, a :| Step(job, run[k - 1], i, a, run[k]);
      AloneStep(job, run[k - 1], a, run[k]);
    }
  }

  lemma {:induction false} TriesRegistered(job: Job, log: seq<Event>)
    requires forall e :: e in log && e.Started? ==> e.exit in job.ids
    ensures forall i :: 0 <= i < |Tries(log)| ==> Tries(log)[i] in job.ids
  {
    if log != [] {
      assert log == log[..|log| - 1] + [log[|log| - 1]];
      TriesRegistered(job, log[..|log| - 1]);
    }
  }

  lemma SameSize(a: set<ExitId>, b: set<ExitId>)
    requires a <= b && |a| == |b|
    ensures a == b
  {
    if a != b {
      var x :| x in b && x !in a;
      SubsetCount(a, b - {x});
    }
  }

  lemma AllCovered(ids: seq<ExitId>, tries: seq<ExitId>)
    requires AscendingExits(ids) && |tries| == |ids|
    requires forall i, j :: 0 <= i < j < |tries| ==> tries[i] != tries[j]
    requires forall i :: 0 <= i < |tries| ==> tries[i] in ids
    ensures forall id :: id in ids ==> id in tries
  {
    TriedCount(ids);
    TriedCount(tries);
    SameSize(Members(tries), Members(ids));
    assert forall id :: id in ids ==> id in Members(ids);
  }

  /** A segment running alone tries every exit once before it tries one twice. */
  lemma AllExitsBeforeAnyTwice(job: Job, plan: seq<Segment>, run: seq<State>, k: nat)
    requires Runnable(job, plan) && IsRun(job, plan, run) && |plan| == 1 && AscendingExits(job.ids) && k < |run|
    ensures |run[k].tasks| == 1
    ensures var tries := Tries(run[k].tasks[0].log);
            && (forall i, j :: 0 <= i < j < |tries| && j < |job.ids| ==> tries[i] != tries[j])
            && (|tries| >= |job.ids| ==> forall id :: id in job.ids ==> id in tries[..|job.ids|])
  {
    AloneRun(job, plan, run, k);
    var tries := Tries(run[k].tasks[0].log);
    if |tries| >= |job.ids| {
      RetriesAreOrderly(job, plan, run, k, 0);
      TriesRegistered(job, run[k].tasks[0].log);
      AllCovered(job.ids, tries[..|job.ids|]);
    }
  }

  // ----- bytes

  /** What a byte counter adds up over one segment's events. */
  function FinishedBytes(log: seq<Event>): nat {
    if log == [] then 0
    else
      var last := log[|log| - 1];
      FinishedBytes(log[..|log| - 1]) + if last.Finished? then last.bytes else 0
  }

  function TrackedBytes(tasks: seq<Task>): nat {
    if tasks == [] then 0 else TrackedBytes(tasks[..|tasks| - 1]) + FinishedBytes(tasks[|tasks| - 1].log)
  }

  lemma {:induction false} OneFinish(job: Job, planned: ExitId, log: seq<Event>, n: nat)
    requires Orderly(job, planned, log) && n < |log|
    ensures FinishedBytes(log[..n]) == 0
  {
    if n > 0 {
      OneFinish(job, planned, log, n - 1);
      assert Follows(job, log[n - 1], log[n]);
      assert log[..n][..n - 1] == log[..n - 1];
    }
  }

  function LengthOf(ps: seq<Piece>): nat {
    if ps == [] then 0 else LengthOf(ps[..|ps| - 1]) + Len(ps[|ps| - 1].range)
  }

  lemma {:induction false} DoneBytes(job: Job, tasks: seq<Task>, ps: seq<Piece>, n: nat)
    requires n <= |tasks| == |ps|
    requires forall i :: 0 <= i < |ps| ==>
               TaskOk(job, tasks[i]) && tasks[i].phase.Done? && tasks[i].range == ps[i].range
    ensures TrackedBytes(tasks[..n]) == LengthOf(ps[..n])
  {
    if n > 0 {
      DoneBytes(job, tasks, ps, n - 1);
      var t := tasks[n - 1];
      OneFinish(job, t.planned, t.log, |t.log| - 1);
      assert tasks[..n][..n - 1] == tasks[..n - 1] && ps[..n][..n - 1] == ps[..n - 1];
    }
  }

  lemma {:induction false} TilesNeighbour(ps: seq<Piece>, from: int, to: int, n: nat)
    requires Tiles(ps, from, to) && n < |ps|
    ensures ps[n].range.endInclusive + 1 == if n + 1 == |ps| then to else ps[n + 1].range.start
    ensures ps[0].range.start == from
  {
    if n > 0 {
      TilesNeighbour(ps[1..], ps[0].range.endInclusive + 1, to, n - 1);
    }
  }

  lemma {:induction false} TilesLength(ps: seq<Piece>, from: int, to: int, n: nat)
    requires Tiles(ps, from, to) && n <= |ps|
    ensures LengthOf(ps[..n]) == (if n == |ps| then to else ps[n].range.start) - from
  {
    if n > 0 {
      TilesLength(ps, from, to, n - 1);
      assert ps[..n][..n - 1] == ps[..n - 1];
      TilesNeighbour(ps, from, to, n - 1);
    }
  }

  ghost predicate AllDone(s: State) {
    forall i :: 0 <= i < |s.tasks| ==> s.tasks[i].phase.Done?
  }

  /** When every segment has succeeded, the finished bytes add up to the size of the file. */
  lemma FinishedBytesAddUp(job: Job, plan: seq<Segment>, run: seq<State>, k: nat)
    requires Runnable(job, plan) && IsRun(job, plan, run) && k < |run| && AllDone(run[k])
    ensures TrackedBytes(run[k].tasks) == |job.content|
  {
    RunInv(job, plan, run, k);
    var ps, tasks := PiecesOf(plan), run[k].tasks;
    DoneBytes(job, tasks, ps, |ps|);
    TilesLength(ps, 0, |job.content|, |ps|);
    assert tasks[..|ps|] == tasks && ps[..|ps|] == ps;
  }
}
