/**
  The retry loop of one segment as it is written, with the network's behaviour given in advance and other segments
  moving in between. Its contract ties it to the protocol: from start to end it is a view of the step relation.
*/
module Downloading {
  import opened Common
  import opened PlanRanges
  import opened FetchPlans
  import opened PartNames
  import opened ExitSelection
  import opened Fetching
  import opened FetchViews

  /** A body either ends, or breaks off with an error after part of a chunk has been written. */
  datatype Ending = Complete | Interrupted(transport: bool, partial: seq<Byte>)

  /** How one request goes: no response at all, or a status, a file that opens or not, and a body. */
  datatype Reply = NoResponse | Response(status: nat, opens: bool, chunks: seq<seq<Byte>>, ending: Ending)

  function Body(chunks: seq<seq<Byte>>): seq<Byte> {
    if chunks == [] then [] else Body(chunks[..|chunks| - 1]) + chunks[|chunks| - 1]
  }

  lemma BodyPush(chunks: seq<seq<Byte>>, i: nat)
    requires i < |chunks|
    ensures Body(chunks[..i + 1]) == Body(chunks[..i]) + chunks[i]
  {
    assert chunks[..i + 1][..i] == chunks[..i];
  }

  /** A complete body of the right length is what was asked for. */
  ghost predicate Honest(content: seq<Byte>, range: ByteRange, reply: Reply) {
    (&& reply.Response? && reply.ending.Complete?
     && |Body(reply.chunks)| == Len(range) && range.endInclusive < |content|)
    ==> Body(reply.chunks) == Slice(content, range)
  }

  // ----- what a reply means, in its own terms

  /** A partial response that is written out whole and has the length of the range. */
  predicate Delivers(range: ByteRange, reply: Reply) {
    && reply.Response? && reply.status == 206 && reply.opens
    && reply.ending.Complete? && |Body(reply.chunks)| == Len(range)
  }

  /** A response that says no, and that asking again will not change. */
  predicate Refuses(reply: Reply) {
    reply.Response? && reply.status != 206 && reply.status < 500
  }

  /** The failure that a reply which does not deliver amounts to. */
  ghost predicate FailsWith(reply: Reply, exit: ExitId, index: nat, range: ByteRange, error: FetchError) {
    match reply
    case NoResponse => error == HttpTransport
    case Response(status, opens, chunks, ending) =>
      if 400 <= status < 600 then error == HttpStatus(status)
      else if status != 206 then error == RangeRejected(exit, index, status)
      else if !opens then error == Io
      else if ending.Interrupted? then error == if ending.transport then HttpTransport else Io
      else |Body(chunks)| != Len(range) && error == SegmentLengthMismatch(index, |Body(chunks)|, Len(range))
  }

  lemma RefusalMeans(reply: Reply, exit: ExitId, index: nat, range: ByteRange, error: FetchError)
    requires FailsWith(reply, exit, index, range, error)
    ensures Refuses(reply) <==>
              || (error.HttpStatus? && error.status < 500)
              || (error.RangeRejected? && error.status < 500)
    ensures !Refuses(reply) <==>
              || error == HttpTransport || error == Io || error.SegmentLengthMismatch?
              || (error.HttpStatus? && 500 <= error.status < 600)
              || (error.RangeRejected? && 500 <= error.status)
  {
  }

  /** The `n`-th attempt as it is reported: it started, and failed as its reply says, but not for good. */
  ghost predicate FailedAttempt(reply: Reply, started: Event, failed: Event, n: nat, segment: Segment) {
    && started == Started(started.exit, n)
    && failed.AttemptFailed? && failed == AttemptFailed(started.exit, n, failed.error)
    && FailsWith(reply, started.exit, segment.index, segment.range, failed.error)
    && !Refuses(reply)
  }

  /** The first `n` attempts failed, but not for good; the first one used the planned exit. */
  ghost predicate FailedSoFar(replies: seq<Reply>, events: seq<Event>, n: nat, segment: Segment) {
    && n <= |replies| && 2 * n <= |events|
    && (events != [] ==> events[0] == Started(segment.exit, 1))
    && forall k :: 0 <= k < n ==> FailedAttempt(replies[k], events[2 * k], events[2 * k + 1], k + 1, segment)
  }

  lemma FailedOnceMore(replies: seq<Reply>, events: seq<Event>, n: nat, segment: Segment, a: Event, b: Event)
    requires FailedSoFar(replies, events, n, segment) && |events| == 2 * n && n < |replies|
    requires FailedAttempt(replies[n], a, b, n + 1, segment) && (n == 0 ==> a.exit == segment.exit)
    ensures FailedSoFar(replies, events + [a] + [b], n + 1, segment)
  {
    var longer := events + [a] + [b];
    forall k | 0 <= k < n + 1
      ensures FailedAttempt(replies[k], longer[2 * k], longer[2 * k + 1], k + 1, segment)
    {
      if k < n {
        assert longer[2 * k] == events[2 * k] && longer[2 * k + 1] == events[2 * k + 1];
      }
    }
  }

  lemma FailedBefore(replies: seq<Reply>, events: seq<Event>, n: nat, segment: Segment, more: seq<Event>)
    requires FailedSoFar(replies, events, n, segment) && |events| == 2 * n
    requires n == 0 && more != [] ==> more[0] == Started(segment.exit, 1)
    ensures FailedSoFar(replies, events + more, n, segment)
  {
    var longer := events + more;
    forall k | 0 <= k < n
      ensures FailedAttempt(replies[k], longer[2 * k], longer[2 * k + 1], k + 1, segment)
    {
      assert longer[2 * k] == events[2 * k] && longer[2 * k + 1] == events[2 * k + 1];
    }
  }

  datatype SegmentAttemptStats = SegmentAttemptStats(index: nat, exit: ExitId, bytes: nat, attempts: nat)

  ghost function Last(path: seq<State>): State
    requires path != []
  {
    path[|path| - 1]
  }

  /** The view ends with these contents: one segment, and what is shared. */
  ghost predicate At(job: Job, path: seq<State>, t: Task, failed: Failures, clock: nat, parts: Directory) {
    View(job, path) && Last(path) == State([t], failed, clock, parts)
  }

  lemma Extend(job: Job, path: seq<State>, s: State) returns (longer: seq<State>)
    requires View(job, path) && (Next(job, Last(path), s) || Meanwhile(Last(path), s))
    ensures path <= longer && View(job, longer) && Last(longer) == s
  {
    longer := path + [s];
    forall k | 0 <= k < |longer| - 1
      ensures Next(job, longer[k], longer[k + 1]) || Meanwhile(longer[k], longer[k + 1])
    {
      if k < |path| - 1 {
        assert longer[k] == path[k] && longer[k + 1] == path[k + 1];
      }
    }
  }

  /** The segment takes a step of its own. */
  lemma Act(job: Job, path: seq<State>, t: Task, failed: Failures, clock: nat, parts: Directory, a: Action)
    returns (longer: seq<State>)
    requires At(job, path, t, failed, clock, parts) && Enabled(job, State([t], failed, clock, parts), t, a)
    ensures path <= longer
    ensures At(job, longer, After(job, t, a), if a.Mark? then failed[t.exit := a.now] else failed,
               if a.Mark? then a.now else clock, PartsAfter(t, a, parts))
  {
    var s := State([t], failed, clock, parts);
    var s' := State([After(job, t, a)], if a.Mark? then failed[t.exit := a.now] else failed,
                    if a.Mark? then a.now else clock, PartsAfter(t, a, parts));
    assert s.tasks[0 := After(job, t, a)] == s'.tasks;
    assert Step(job, s, 0, a, s');
    longer := Extend(job, path, s');
  }

  /** Others take steps of theirs. */
  lemma Wait(job: Job, path: seq<State>, t: Task, failed: Failures, clock: nat, parts: Directory,
             later: Failures, now: nat, changed: Directory)
    returns (longer: seq<State>)
    requires At(job, path, t, failed, clock, parts)
    requires LaterFailures(failed, clock, later, now) && SameFile(PartName(t.index), parts, changed)
    ensures path <= longer && At(job, longer, t, later, now, changed)
  {
    longer := Extend(job, path, State([t], later, now, changed));
  }

  class PartStore {
    var files: Directory

    constructor (files: Directory)
      ensures this.files == files
    {
      this.files := files;
    }

    method Create(name: string)
      modifies this
      ensures files == old(files)[name := []]
    {
      files := files[name := []];
    }

    method Append(name: string, bytes: seq<Byte>)
      modifies this
      ensures files == old(files)[name := (if name in old(files) then old(files)[name] else []) + bytes]
    {
      files := files[name := (if name in files then files[name] else []) + bytes];
    }

    method Remove(name: string)
      modifies this
      ensures files == old(files) - {name}
    {
      files := files - {name};
    }

    /** Other segments write and remove files of their own, in any way. */
    method OthersWrite(own: string)
      modifies this
      ensures SameFile(own, old(files), files)
    {
      var changed: Directory := *;
      if SameFile(own, files, changed) {
        files := changed;
      }
    }
  }

  /** Other segments mark failures of theirs, in any way; `now` is a reading of the clock after that. */
  method OthersFail(selector: ExitSelector, clock: nat) returns (now: nat)
    modifies selector
    ensures LaterFailures(old(selector.lastFailed), clock, selector.lastFailed, now)
  {
    now := *;
    if now < clock {
      now := clock;
    }
    var later: Failures := *;
    if LaterFailures(selector.lastFailed, clock, later, now) {
      selector.lastFailed := later;
    }
  }

  method WriteChunk(ghost job: Job, ghost path: seq<State>, ghost t: Task, ghost failed: Failures, ghost clock: nat,
                    index: nat, chunk: seq<Byte>, store: PartStore)
    returns (ghost path': seq<State>)
    requires t.index == index && t.phase.Streaming?
    requires At(job, path, t, failed, clock, store.files)
    modifies store
    ensures path <= path' && At(job, path', t.(phase := Streaming(t.phase.body + chunk)), failed, clock, store.files)
    ensures PartName(index) in old(store.files) ==>
              PartName(index) in store.files
              && store.files[PartName(index)] == old(store.files[PartName(index)]) + chunk
  {
    ghost var before := store.files;
    store.OthersWrite(PartName(index));
    path' := Wait(job, path, t, failed, clock, before, failed, clock, store.files);
    path' := Act(job, path', t, failed, clock, store.files, Receive(chunk));
    store.Append(PartName(index), chunk);
  }

  /** Writes the body chunk by chunk and returns the number of bytes written. */
  method StreamBody(ghost job: Job, ghost path: seq<State>, ghost t: Task, ghost failed: Failures, ghost clock: nat,
                    index: nat, chunks: seq<seq<Byte>>, store: PartStore)
    returns (written: nat, ghost path': seq<State>)
    requires t.index == index && t.phase == Opening
    requires At(job, path, t, failed, clock, store.files)
    modifies store
    ensures written == |Body(chunks)| && path <= path'
    ensures PartName(index) in store.files && store.files[PartName(index)] == Body(chunks)
    ensures At(job, path', t.(phase := Streaming(Body(chunks))), failed, clock, store.files)
  {
    path' := Act(job, path, t, failed, clock, store.files, Action.Create);
    store.Create(PartName(index));
    written := 0;
    for i := 0 to |chunks|
      invariant written == |Body(chunks[..i])| && path <= path'
      invariant PartName(index) in store.files && store.files[PartName(index)] == Body(chunks[..i])
      invariant At(job, path', t.(phase := Streaming(Body(chunks[..i]))), failed, clock, store.files)
    {
      BodyPush(chunks, i);
      ghost var u := t.(phase := Streaming(Body(chunks[..i])));
      path' := WriteChunk(job, path', u, failed, clock, index, chunks[i], store);
      written := written + |chunks[i]|;
    }
    assert chunks[..|chunks|] == chunks;
  }

  /** The segment after an attempt that ended with `r`. */
  ghost function Ended(t: Task, r: Result<nat, FetchError>): Task {
    match r
    case Ok(bytes) => t.(phase := Done(bytes), log := t.log + [Finished(t.exit, bytes)])
    case Err(error) => Fail(t, error)
  }

  /** One request: the bytes written, or why it failed; a failure may leave a partial part file behind. */
  method DownloadAttempt(ghost job: Job, ghost path: seq<State>, ghost t: Task,
                         ghost failed: Failures, ghost clock: nat,
                         exit: ExitId, index: nat, range: ByteRange, reply: Reply, store: PartStore)
    returns (r: Result<nat, FetchError>, ghost path': seq<State>)
    requires t.exit == exit && t.index == index && t.range == range && t.phase == Sent
    requires At(job, path, t, failed, clock, store.files)
    requires Honest(job.content, range, reply)
    modifies store
    ensures path <= path' && At(job, path', Ended(t, r), failed, clock, store.files)
    ensures r.Ok? <==> reply.Response? && reply.status == 206 && reply.opens && reply.ending.Complete?
                       && |Body(reply.chunks)| == Len(range)
    ensures r.Ok? ==> r.value == Len(range)
    ensures r.Ok? ==> PartName(index) in store.files && store.files[PartName(index)] == Body(reply.chunks)
    ensures r.Err? ==> FailsWith(reply, exit, index, range, r.error)
  {
    ghost var before := store.files;
    store.OthersWrite(PartName(index));
    path' := Wait(job, path, t, failed, clock, before, failed, clock, store.files);
    if reply.NoResponse? {
      path' := Act(job, path', t, failed, clock, store.files, Lose);
      return Err(HttpTransport), path';
    }
    path' := Act(job, path', t, failed, clock, store.files, Respond(reply.status));
    if 400 <= reply.status < 600 {
      return Err(HttpStatus(reply.status)), path';
    }
    if reply.status != 206 {
      return Err(RangeRejected(exit, index, reply.status)), path';
    }
    ghost var opening := t.(phase := Opening);
    if !reply.opens {
      path' := Act(job, path', opening, failed, clock, store.files, CannotCreate);
      return Err(Io), path';
    }
    var written;
    written, path' := StreamBody(job, path', opening, failed, clock, index, reply.chunks, store);
    ghost var streamed := t.(phase := Streaming(Body(reply.chunks)));
    if reply.ending.Interrupted? {
      var error := if reply.ending.transport then HttpTransport else Io;
      path' := Act(job, path', streamed, failed, clock, store.files, Break(error, reply.ending.partial));
      store.Append(PartName(index), reply.ending.partial);
      return Err(error), path';
    }
    path' := Act(job, path', streamed, failed, clock, store.files, EndOfBody);
    if written != Len(range) {
      store.Remove(PartName(index));
      return Err(SegmentLengthMismatch(index, written, Len(range))), path';
    }
    r := Ok(written);
  }

  /** How a segment whose loop has returned `r` stands in the protocol. */
  ghost predicate Returned(t: Task, r: Result<SegmentAttemptStats, FetchError>) {
    match r
    case Ok(stats) =>
      t.phase == Done(stats.bytes) && t.exit == stats.exit && t.attempt == stats.attempts && t.index == stats.index
    case Err(error) => t.phase == Aborted(error)
  }

  /** The lock was released after marking, so others may come first. */
  method PickNext(ghost job: Job, ghost path: seq<State>, ghost t: Task, clock: nat,
                  exit: ExitId, index: nat, selector: ExitSelector, store: PartStore)
    returns (r: Result<ExitId, FetchError>, now: nat, ghost path': seq<State>)
    requires AscendingExits(selector.ids) && job.ids == selector.ids
    requires t.exit == exit && t.index == index && t.phase == Picking
    requires At(job, path, t, selector.lastFailed, clock, store.files)
    modifies selector, store
    ensures r.Ok? && path <= path'
    ensures At(job, path', t.(exit := r.value, phase := Ready), selector.lastFailed, now, store.files)
    ensures SameFile(PartName(index), old(store.files), store.files)
    ensures LaterFailures(old(selector.lastFailed), clock, selector.lastFailed, now)
    ensures (forall id :: id in selector.ids ==> id == exit) ==> r.value == exit
    ensures (exists id :: id in selector.ids && id != exit) ==>
              r.value in selector.ids && r.value != exit && LongestAgo(selector.ids, selector.lastFailed, exit, r.value)
  {
    ghost var failed, files := selector.lastFailed, store.files;
    now := OthersFail(selector, clock);
    store.OthersWrite(PartName(index));
    path' := Wait(job, path, t, failed, clock, files, selector.lastFailed, now, store.files);
    var next := selector.PickRetry(exit);
    path' := Act(job, path', t, selector.lastFailed, now, store.files, Pick(next));
    r := Ok(next);
  }

  /** What follows a failed attempt: clean up, and unless it is time to give up, the exit of the next attempt. */
  method AfterFailure(ghost job: Job, ghost path: seq<State>, ghost t: Task, maxAttempts: nat, clock: nat,
                      error: FetchError, exit: ExitId, index: nat, attempt: nat,
                      selector: ExitSelector, store: PartStore)
    returns (r: Result<ExitId, FetchError>, now: nat, ghost path': seq<State>)
    requires AscendingExits(selector.ids) && job.ids == selector.ids && job.maxAttempts == maxAttempts
    requires t.exit == exit && t.index == index && t.attempt == attempt && t.phase == Failed(error)
    requires At(job, path, t, selector.lastFailed, clock, store.files)
    modifies selector, store
    ensures path <= path'
    ensures At(job, path', if r.Ok? then t.(exit := r.value, phase := Ready) else t.(phase := Aborted(r.error)),
               selector.lastFailed, now, store.files)
    ensures var curable := || error == HttpTransport || error == Io || error.SegmentLengthMismatch?
                           || (error.HttpStatus? && 500 <= error.status < 600)
                           || (error.RangeRejected? && 500 <= error.status);
            && (r.Ok? <==> curable && attempt < maxAttempts)
            && (!curable ==> r == Err(error) && selector.lastFailed == old(selector.lastFailed))
            && (curable && attempt >= maxAttempts ==> r == Err(SegmentAttemptsExhausted(index, attempt, error)))
            && (curable ==> exit in selector.lastFailed && clock <= selector.lastFailed[exit] <= now)
    ensures PartName(index) !in store.files
    ensures r.Ok? ==>
              if forall id :: id in selector.ids ==> id == exit then r.value == exit
              else r.value in selector.ids && r.value != exit
                   && LongestAgo(selector.ids, selector.lastFailed, exit, r.value)
  {
    path' := Act(job, path, t, selector.lastFailed, clock, store.files, Action.Remove);
    store.Remove(PartName(index));
    if !IsRetryable(error) {
      return Err(error), clock, path';
    }
    ghost var failed, files := selector.lastFailed, store.files;
    now := OthersFail(selector, clock);
    store.OthersWrite(PartName(index));
    path' := Wait(job, path', t.(phase := Marking(error)), failed, clock, files, selector.lastFailed, now, store.files);
    path' := Act(job, path', t.(phase := Marking(error)), selector.lastFailed, now, store.files, Mark(now));
    selector.MarkFailed(exit, now);
    if attempt >= maxAttempts {
      return Err(SegmentAttemptsExhausted(index, attempt, error)), now, path';
    }
    r, now, path' := PickNext(job, path', t.(phase := Picking), now, exit, index, selector, store);
  }

  /** Attempt `n`, on `exit`, is the last: its reply delivers, or refuses, or leaves no attempts. */
  ghost predicate Settles(reply: Reply, maxAttempts: nat, segment: Segment, n: nat, exit: ExitId, last: Event,
                          r: Result<SegmentAttemptStats, FetchError>, files: Directory)
  {
    var name := PartName(segment.index);
    match r
    case Ok(stats) =>
      && Delivers(segment.range, reply)
      && stats == SegmentAttemptStats(segment.index, exit, Len(segment.range), n)
      && last == Finished(exit, stats.bytes)
      && name in files && files[name] == Body(reply.chunks)
    case Err(error) =>
      && last.AttemptFailed?
      && FailsWith(reply, exit, segment.index, segment.range, last.error)
      && (if Refuses(reply) then error == last.error
          else n == maxAttempts && error == SegmentAttemptsExhausted(segment.index, maxAttempts, last.error))
      && name !in files
  }

  /**
    How the whole loop ends, in terms of the replies alone: with the first reply that delivers or refuses, or when
    all have failed.
  */
  ghost predicate Outcome(replies: seq<Reply>, maxAttempts: nat, segment: Segment, events: seq<Event>,
                          r: Result<SegmentAttemptStats, FetchError>, files: Directory)
  {
    var n := |events| / 2;
    && 1 <= n <= maxAttempts == |replies| && |events| == 2 * n
    && FailedSoFar(replies, events, n - 1, segment)
    && events[2 * n - 2] == Started(events[2 * n - 2].exit, n)
    && Settles(replies[n - 1], maxAttempts, segment, n, events[2 * n - 2].exit, events[2 * n - 1], r, files)
  }

  /** The events of the last attempt complete the outcome. */
  lemma EndsHere(replies: seq<Reply>, maxAttempts: nat, segment: Segment, events: seq<Event>, n: nat, exit: ExitId,
                 last: Event, r: Result<SegmentAttemptStats, FetchError>, files: Directory)
    requires n < maxAttempts == |replies| && FailedSoFar(replies, events, n, segment) && |events| == 2 * n
    requires n == 0 ==> exit == segment.exit
    requires Settles(replies[n], maxAttempts, segment, n + 1, exit, last, r, files)
    ensures Outcome(replies, maxAttempts, segment, events + [Started(exit, n + 1)] + [last], r, files)
  {
    FailedBefore(replies, events, n, segment, [Started(exit, n + 1), last]);
    var longer := events + [Started(exit, n + 1)] + [last];
    assert longer == events + [Started(exit, n + 1), last];
    assert longer[2 * n] == Started(exit, n + 1) && longer[2 * n + 1] == last;
  }

  ghost predicate Stands(job: Job, path: seq<State>, segment: Segment, exit: ExitId, attempt: nat, phase: Phase,
                         events: seq<Event>, failed: Failures, clock: nat, parts: Directory)
  {
    At(job, path, Task(segment.index, segment.range, segment.exit, exit, attempt, phase, events), failed, clock, parts)
  }

  /** The end of a pass after a failed attempt. */
  method GoOn(ghost job: Job, ghost path: seq<State>, segment: Segment, exit: ExitId, attempt: nat, maxAttempts: nat,
              clock: nat, selector: ExitSelector, store: PartStore, ghost replies: seq<Reply>, ghost reply: Reply,
              error: FetchError, ghost before: seq<Event>, ghost events: seq<Event>)
    returns (r: Option<Result<SegmentAttemptStats, FetchError>>, next: ExitId, now: nat, ghost path': seq<State>)
    requires AscendingExits(selector.ids) && job.ids == selector.ids && job.maxAttempts == maxAttempts
    requires attempt < maxAttempts == |replies| && reply == replies[attempt]
    requires exit in selector.ids && (attempt == 0 ==> exit == segment.exit)
    requires FailsWith(reply, exit, segment.index, segment.range, error)
    requires FailedSoFar(replies, before, attempt, segment) && |before| == 2 * attempt
    requires events == before + [Started(exit, attempt + 1)] + [AttemptFailed(exit, attempt + 1, error)]
    requires Stands(job, path, segment, exit, attempt + 1, Failed(error), events,
                    selector.lastFailed, clock, store.files)
    modifies selector, store
    ensures path <= path'
    ensures r.None? ==>
              && attempt + 1 < maxAttempts && next in selector.ids
              && FailedSoFar(replies, events, attempt + 1, segment)
              && Stands(job, path', segment, next, attempt + 1, Ready, events, selector.lastFailed, now, store.files)
    ensures r.Some? ==>
              && r.value.Err? && Outcome(replies, maxAttempts, segment, events, r.value, store.files)
              && Stands(job, path', segment, exit, attempt + 1, Aborted(r.value.error), events,
                        selector.lastFailed, now, store.files)
  {
    var n := attempt + 1;
    ghost var failed := AttemptFailed(exit, n, error);
    ghost var t := Task(segment.index, segment.range, segment.exit, exit, n, Failed(error), events);
    RefusalMeans(reply, exit, segment.index, segment.range, error);
    var after;
    after, now, path' := AfterFailure(job, path, t, maxAttempts, clock, error, exit, segment.index, n, selector, store);
    if after.Err? {
      r, next := Some(Err(after.error)), exit;
      EndsHere(replies, maxAttempts, segment, before, attempt, exit, failed, r.value, store.files);
    } else {
      r, next := None, after.value;
      FailedOnceMore(replies, before, attempt, segment, Started(exit, n), failed);
    }
  }

  /** One pass of the loop, from the start of an attempt to the end of it all or to the exit of the next one. */
  method TryOnce(ghost job: Job, ghost path: seq<State>, segment: Segment, exit: ExitId, attempt: nat, maxAttempts: nat,
                 clock: nat, selector: ExitSelector, store: PartStore, ghost replies: seq<Reply>, reply: Reply,
                 events: seq<Event>)
    returns (r: Option<Result<SegmentAttemptStats, FetchError>>, next: ExitId, now: nat, events': seq<Event>,
             ghost path': seq<State>)
    requires AscendingExits(selector.ids) && job.ids == selector.ids && job.maxAttempts == maxAttempts
    requires attempt < maxAttempts == |replies| && reply == replies[attempt]
    requires Honest(job.content, segment.range, reply) && exit in selector.ids
    requires attempt == 0 ==> exit == segment.exit
    requires FailedSoFar(replies, events, attempt, segment) && |events| == 2 * attempt
    requires Stands(job, path, segment, exit, attempt, Ready, events, selector.lastFailed, clock, store.files)
    modifies selector, store
    ensures path <= path'
    ensures r.None? ==>
              && attempt + 1 < maxAttempts && next in selector.ids
              && FailedSoFar(replies, events', attempt + 1, segment) && |events'| == 2 * (attempt + 1)
              && Stands(job, path', segment, next, attempt + 1, Ready, events', selector.lastFailed, now, store.files)
    ensures r.Some? ==>
              && Outcome(replies, maxAttempts, segment, events', r.value, store.files)
              && Stands(job, path', segment, exit, attempt + 1,
                        if r.value.Ok? then Done(Len(segment.range)) else Aborted(r.value.error),
                        events', selector.lastFailed, now, store.files)
    ensures r.Some? && r.value.Ok? ==> r.value.value.exit == exit && r.value.value.attempts == attempt + 1
  {
    var index, range, n := segment.index, segment.range, attempt + 1;
    next := exit;
    ghost var t := Task(index, range, segment.exit, exit, attempt, Ready, events);
    path' := Act(job, path, t, selector.lastFailed, clock, store.files, Begin);
    events' := events + [Started(exit, n)];
    t := Task(index, range, segment.exit, exit, n, Sent, events');
    var result;
    result, path' := DownloadAttempt(job, path', t, selector.lastFailed, clock, exit, index, range, reply, store);
    if result.Ok? {
      now := clock;
      events' := events' + [Finished(exit, result.value)];
      r := Some(Ok(SegmentAttemptStats(index, exit, result.value, n)));
      EndsHere(replies, maxAttempts, segment, events, attempt, exit, Finished(exit, result.value), r.value,
               store.files);
    } else {
      events' := events' + [AttemptFailed(exit, n, result.error)];
      r, next, now, path' := GoOn(job, path', segment, exit, attempt, maxAttempts, clock, selector, store,
                                  replies, reply, result.error, events, events');
    }
  }

  method DownloadWithRetry(ghost job: Job, segment: Segment, maxAttempts: nat, clock: nat,
                           selector: ExitSelector, store: PartStore, replies: seq<Reply>)
    returns (r: Result<SegmentAttemptStats, FetchError>, events: seq<Event>, ghost path: seq<State>)
    requires AscendingExits(selector.ids) && job.ids == selector.ids && job.maxAttempts == maxAttempts > 0
    requires |replies| == maxAttempts
    requires forall k :: 0 <= k < maxAttempts ==> Honest(job.content, segment.range, replies[k])
    modifies selector, store
    ensures View(job, path)
    ensures path[0] == State([Task(segment.index, segment.range, segment.exit, segment.exit, 0, Ready, [])],
                             old(selector.lastFailed), clock, old(store.files))
    ensures |Last(path).tasks| == 1 && Returned(Last(path).tasks[0], r) && Last(path).tasks[0].log == events
    ensures Last(path).failed == selector.lastFailed && Last(path).parts == store.files
    ensures if segment.exit in selector.ids then Outcome(replies, maxAttempts, segment, events, r, store.files)
            else r == Err(UnknownExit(segment.exit)) && events == []
  {
    var exit := segment.exit;
    var attempt: nat := 0;
    events := [];
    var now := clock;
    ghost var t := Task(segment.index, segment.range, exit, exit, 0, Ready, []);
    ghost var start := State([t], selector.lastFailed, clock, store.files);
    path := [start];
    while true
      invariant attempt < maxAttempts && [start] <= path
      invariant Stands(job, path, segment, exit, attempt, Ready, events, selector.lastFailed, now, store.files)
      invariant if attempt == 0 then exit == segment.exit else segment.exit in selector.ids && exit in selector.ids
      invariant FailedSoFar(replies, events, attempt, segment) && |events| == 2 * attempt
      decreases maxAttempts - attempt
    {
      if exit !in selector.ids {
        t := Task(segment.index, segment.range, segment.exit, exit, attempt, Ready, events);
        path := Act(job, path, t, selector.lastFailed, now, store.files, Begin);
        r := Err(UnknownExit(exit));
        return;
      }
      var result;
      result, exit, now, events, path := TryOnce(job, path, segment, exit, attempt, maxAttempts, now,
                                                 selector, store, replies, replies[attempt], events);
      attempt := attempt + 1;
      if result.Some? {
        r := result.value;
        return;
      }
    }
  }
}
