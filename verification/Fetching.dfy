/**
  Segment downloads as interleaved steps of many tasks that share one record of failures and one directory of
  part files, against a server and a network that may do anything, except that a complete partial response
  carries the bytes that were asked for.
*/
module Fetching {
  import opened Common
  import opened PlanRanges
  import opened FetchPlans
  import opened PartNames
  import opened ExitSelection

  type Byte = n: int | 0 <= n < 256

  type Directory = map<string, seq<Byte>>

  datatype FetchError =
    | HttpTransport
    | HttpStatus(status: nat)
    | Io
    | InvalidUrl
    | ZeroFileSize
    | SegmentLengthMismatch(index: nat, got: nat, expected: nat)
    | RangeRejected(exit: ExitId, index: nat, status: nat)
    | TotalLengthMismatch(got: nat, expected: nat)
    | HashMismatch
    | InvalidPlan
    | UnknownExit(exit: ExitId)
    | CorruptPart(name: string)
    | InvalidDigest
    | SegmentAttemptsExhausted(index: nat, attempts: nat, lastError: FetchError)

  /** Transport failures, server errors, I/O errors and length mismatches are worth another try. */
  function IsRetryable(error: FetchError): bool {
    match error
    case HttpTransport => true
    case HttpStatus(status) => 500 <= status < 600
    case Io => true
    case SegmentLengthMismatch(_, _, _) => true
    case RangeRejected(_, _, status) => status >= 500
    case _ => false
  }

  // ----- progress

  datatype Event =
    | Started(exit: ExitId, attempt: nat)
    | Finished(exit: ExitId, bytes: nat)
    | AttemptFailed(exit: ExitId, attempt: nat, error: FetchError)

  /** Where one segment stands: between attempts, in one, cleaning up after one, or at its end. */
  datatype Phase =
    | Ready
    | Sent
    | Opening
    | Streaming(body: seq<Byte>)
    | Failed(error: FetchError)
    | Marking(error: FetchError)
    | Picking
    | Done(bytes: nat)
    | Aborted(error: FetchError)

  datatype Task =
    Task(index: nat, range: ByteRange, planned: ExitId, exit: ExitId, attempt: nat, phase: Phase, log: seq<Event>)

  datatype State = State(tasks: seq<Task>, failed: Failures, clock: nat, parts: Directory)

  datatype Job = Job(ids: seq<ExitId>, maxAttempts: nat, content: seq<Byte>)

  // ----- steps of one segment

  datatype Action =
    | Begin
    | Lose
    | Respond(status: nat)
    | CannotCreate
    | Create
    | Receive(chunk: seq<Byte>)
    | Break(error: FetchError, partial: seq<Byte>)
    | EndOfBody
    | Remove
    | Mark(now: nat)
    | Pick(next: ExitId)

  function Fail(t: Task, error: FetchError): Task {
    t.(phase := Failed(error), log := t.log + [AttemptFailed(t.exit, t.attempt, error)])
  }

  /** The slice of the origin's content that a range asks for. */
  function Slice(content: seq<Byte>, r: ByteRange): seq<Byte>
    requires r.endInclusive < |content|
  {
    content[r.start..r.endInclusive + 1]
  }

  /** What a segment itself does in a step: its own new state. */
  function After(job: Job, t: Task, a: Action): Task {
    match a
    case Begin =>
      var u := t.(attempt := t.attempt + 1);
      if t.exit in job.ids then u.(phase := Sent, log := t.log + [Started(t.exit, t.attempt + 1)])
      else u.(phase := Aborted(UnknownExit(t.exit)))
    case Lose => Fail(t, HttpTransport)
    case Respond(status) =>
      if 400 <= status < 600 then Fail(t, HttpStatus(status))
      else if status == 206 then t.(phase := Opening)
      else Fail(t, RangeRejected(t.exit, t.index, status))
    case CannotCreate => Fail(t, Io)
    case Create => t.(phase := Streaming([]))
    case Receive(chunk) => if t.phase.Streaming? then t.(phase := Streaming(t.phase.body + chunk)) else t
    case Break(error, _) => Fail(t, error)
    case EndOfBody =>
      if !t.phase.Streaming? then t
      else if |t.phase.body| == Len(t.range) then
        t.(phase := Done(|t.phase.body|), log := t.log + [Finished(t.exit, |t.phase.body|)])
      else Fail(t, SegmentLengthMismatch(t.index, |t.phase.body|, Len(t.range)))
    case Remove =>
      if !t.phase.Failed? then t
      else if IsRetryable(t.phase.error) then t.(phase := Marking(t.phase.error))
      else t.(phase := Aborted(t.phase.error))
    case Mark(_) =>
      if !t.phase.Marking? then t
      else if t.attempt >= job.maxAttempts then
        t.(phase := Aborted(SegmentAttemptsExhausted(t.index, t.attempt, t.phase.error)))
      else t.(phase := Picking)
    case Pick(next) => t.(exit := next, phase := Ready)
  }

  /** What a step does to the directory. */
  function PartsAfter(t: Task, a: Action, parts: Directory): Directory {
    var name := PartName(t.index);
    var before := if name in parts then parts[name] else [];
    match a
    case Create => parts[name := []]
    case Receive(chunk) => parts[name := before + chunk]
    case Break(_, partial) => parts[name := before + partial]
    case EndOfBody => if t.phase.Streaming? && |t.phase.body| != Len(t.range) then parts - {name} else parts
    case Remove => parts - {name}
    case _ => parts
  }

  /** Which actions are possible in which phase; an honest server's complete bodies are the bytes asked for. */
  ghost predicate Enabled(job: Job, s: State, t: Task, a: Action) {
    match a
    case Begin => t.phase == Ready
    case Lose => t.phase == Sent
    case Respond(_) => t.phase == Sent
    case CannotCreate => t.phase == Opening
    case Create => t.phase == Opening
    case Receive(_) => t.phase.Streaming?
    case Break(error, _) => t.phase.Streaming? && (error == HttpTransport || error == Io)
    case EndOfBody =>
      t.phase.Streaming?
      && (|t.phase.body| == Len(t.range) && t.range.endInclusive < |job.content| ==>
            t.phase.body == Slice(job.content, t.range))
    case Remove => t.phase.Failed?
    case Mark(now) => t.phase.Marking? && now >= s.clock
    case Pick(next) => t.phase == Picking && Picks(job.ids, s.failed, t.exit, next)
  }

  ghost predicate Step(job: Job, s: State, i: nat, a: Action, s': State) {
    && i < |s.tasks|
    && var t := s.tasks[i];
       && Enabled(job, s, t, a)
       && s' == State(s.tasks[i := After(job, t, a)],
                      if a.Mark? then s.failed[t.exit := a.now] else s.failed,
                      if a.Mark? then a.now else s.clock,
                      PartsAfter(t, a, s.parts))
  }

  ghost predicate Next(job: Job, s: State, s': State) {
    exists i, a :: Step(job, s, i, a, s')
  }

  ghost predicate Path(job: Job, path: seq<State>) {
    path != [] && forall k :: 0 <= k < |path| - 1 ==> Next(job, path[k], path[k + 1])
  }

  /** The plan is valid for the origin's content, and names registered exits only. */
  ghost predicate Runnable(job: Job, plan: seq<Segment>) {
    && 0 < |job.content| < TWO64
    && ValidPlan(plan, |job.content|)
    && (forall i :: 0 <= i < |plan| ==> plan[i].exit in job.ids)
    && job.maxAttempts > 0
  }

  /** Every task at its start; the directory holds whatever it held before. */
  ghost predicate Initial(job: Job, plan: seq<Segment>, s: State) {
    && |s.tasks| == |plan|
    && (forall i :: 0 <= i < |plan| ==>
          s.tasks[i] == Task(plan[i].index, plan[i].range, plan[i].exit, plan[i].exit, 0, Ready, []))
    && s.failed == map[]
  }

  /** A run of any length, from the start. */
  ghost predicate IsRun(job: Job, plan: seq<Segment>, run: seq<State>) {
    Path(job, run) && Initial(job, plan, run[0])
  }
}
