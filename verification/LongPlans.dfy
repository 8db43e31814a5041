/** Beyond a million segments a successful download can be wrong. */
module LongPlans {
  import opened Common
  import opened Sequences
  import opened Decimal
  import opened PlanRanges
  import opened PlanSplit
  import opened FetchPlans
  import opened PartNames
  import opened Fetching
  import opened FetchRuns
  import opened FetchTallies
  import opened CleanRuns
  import opened Assembly

  /** The planned names, as the directory lists them. */
  function SortedNames(n: nat): seq<string> {
    Sort(NotAfter(), PlannedNames(n))
  }

  lemma SortedNamesAre(n: nat)
    requires n <= TWO32
    ensures Ascends(NameBefore(), SortedNames(n)) && |SortedNames(n)| == n
    ensures forall name :: name in SortedNames(n) <==> IsPlanned(name, n)
  {
    PlannedNamesDiffer(n);
    SortedDistinct(PlannedNames(n));
    SortMembers(NotAfter(), PlannedNames(n));
  }

  lemma NoRepeats(names: seq<string>, i: nat, j: nat)
    requires Ascends(NameBefore(), names) && i < j < |names|
    ensures names[i] != names[j]
  {
    assert NameBefore()(names[i], names[j]);
    NotBeforeItself(names[i]);
  }

  /** The first place where name order departs from index order: a later segment stands there. */
  lemma FirstDeparture(n: nat, k: nat) returns (i: nat, j: nat)
    requires 1_000_000 < n <= TWO32 && k <= n
    requires forall t :: 0 <= t < k ==> |SortedNames(n)| > t && SortedNames(n)[t] == PartName(t)
    ensures i < j < n && |SortedNames(n)| == n && SortedNames(n)[i] == PartName(j)
    ensures SortedNames(n)[..i] == PlannedNames(n)[..i]
    decreases n - k
  {
    SortedNamesAre(n);
    var names := SortedNames(n);
    if k == n {
      assert names == PlannedNames(n);
      NameOrderIff(n);
      assert false;
    } else if names[k] == PartName(k) {
      i, j := FirstDeparture(n, k + 1);
    } else {
      assert IsPlanned(names[k], n);
      var t :| 0 <= t < n && names[k] == PartName(t);
      i, j := k, t;
      if t < k {
        NoRepeats(names, t, k);
      }
    }
  }

  /** All zero, but for the first byte of segment `j`. */
  function Marked(plan: seq<Segment>, size: nat, j: nat): (content: seq<Byte>)
    requires j < |plan|
    ensures |content| == size
    ensures forall b :: 0 <= b < size ==> content[b] == if b == plan[j].range.start then 1 else 0
  {
    seq(size, b requires 0 <= b < size => if b == plan[j].range.start then 1 else 0)
  }

  lemma {:induction false} ConcatAt(names: seq<string>, dir: Directory, i: nat)
    requires i < |names| && forall name :: name in names ==> name in dir
    requires dir[names[i]] != []
    ensures |Concat(names[..i], dir)| < |Concat(names, dir)|
    ensures Concat(names, dir)[|Concat(names[..i], dir)|] == dir[names[i]][0]
  {
    if i == 0 {
      assert names[..0] == [];
    } else {
      ConcatAt(names[1..], dir, i - 1);
      assert names[..i][1..] == names[1..][..i - 1];
    }
  }

  lemma SegmentStarts(job: Job, plan: seq<Segment>, i: nat, j: nat)
    requires Runnable(job, plan) && i < j < |plan|
    ensures plan[i].range.start < plan[j].range.start <= plan[j].range.endInclusive < |job.content|
  {
    RangesInside(job, plan, j);
    TilesBounds(PiecesOf(plan), 0, |job.content|);
    assert PiecesOf(plan)[i].range == plan[i].range && PiecesOf(plan)[j].range == plan[j].range;
  }

  lemma {:induction false} ConcatAppend(a: seq<string>, b: seq<string>, dir: Directory)
    requires forall name :: name in a + b ==> name in dir
    ensures (forall name :: name in a ==> name in dir) && forall name :: name in b ==> name in dir
    ensures Concat(a + b, dir) == Concat(a, dir) + Concat(b, dir)
  {
    assert forall name :: name in a ==> name in a + b;
    assert forall name :: name in b ==> name in a + b;
    if a == [] {
      assert a + b == b;
    } else {
      assert (a + b)[1..] == a[1..] + b;
      ConcatAppend(a[1..], b, dir);
    }
  }

  /** The parts of the first `i` segments, put together, end where segment `i` starts. */
  lemma PrefixLength(job: Job, plan: seq<Segment>, dir: Directory, i: nat)
    requires Runnable(job, plan) && Completed(plan, job.content, dir) && i < |plan|
    ensures |Concat(PlannedNames(|plan|)[..i], dir)| == plan[i].range.start
  {
    var names := PlannedNames(|plan|);
    PlannedConcat(job, plan, dir, 0);
    PlannedConcat(job, plan, dir, i);
    StartsAtZero(job, plan);
    assert names[0..] == names && names[..i] + names[i..] == names;
    ConcatAppend(names[..i], names[i..], dir);
  }

  /** In name order the marked byte comes too early. */
  lemma MarkMoves(job: Job, plan: seq<Segment>, dir: Directory, i: nat, j: nat)
    requires Runnable(job, plan) && Completed(plan, job.content, dir) && i < j < |plan|
    requires job.content == Marked(plan, |job.content|, j)
    requires var names := SortedNames(|plan|);
             && |names| == |plan| && names[i] == PartName(j) && names[..i] == PlannedNames(|plan|)[..i]
             && forall name :: name in names ==> name in dir
    ensures Concat(SortedNames(|plan|), dir) != job.content
  {
    SegmentStarts(job, plan, i, j);
    PrefixLength(job, plan, dir, i);
    assert dir[PartName(j)] == Slice(job.content, plan[j].range);
    ConcatAt(SortedNames(|plan|), dir, i);
  }

  /** Put together in name order, the files have the right length and the wrong content. */
  ghost predicate Scrambles(dir: Directory, content: seq<Byte>) {
    && AllPartNames(dir)
    && forall names :: Listed(names, dir) ==> |Concat(names, dir)| == |content| && Concat(names, dir) != content
  }

  /** Then assembling without a digest succeeds, and its output is not the content. */
  lemma ScrambledSuccess<D>(dir: Directory, content: seq<Byte>, hash: seq<Byte> -> D,
                            r: Result<D, FetchError>, output: seq<Byte>)
    requires 0 < |content| < TWO64 && Scrambles(dir, content)
    requires Assembles(dir, |content|, None, hash, r, output)
    ensures r.Ok? && output != content
  {
  }

  lemma OneListing(names: seq<string>, dir: Directory, n: nat)
    requires n <= TWO32 && Listed(names, dir) && forall name :: name in dir <==> IsPlanned(name, n)
    ensures names == SortedNames(n)
  {
    SortedNamesAre(n);
    OneWay();
    AscendingUnique(NameBefore(), names, SortedNames(n));
  }

  lemma PlannedOnly(job: Job, plan: seq<Segment>, dir: Directory, i: nat, j: nat)
    requires Runnable(job, plan) && Completed(plan, job.content, dir) && i < j < |plan|
    requires forall name :: name in dir <==> IsPlanned(name, |plan|)
    requires job.content == Marked(plan, |job.content|, j)
    requires |SortedNames(|plan|)| == |plan| && SortedNames(|plan|)[i] == PartName(j)
    requires SortedNames(|plan|)[..i] == PlannedNames(|plan|)[..i]
    ensures Scrambles(dir, job.content)
  {
    PlannedParse(job, plan);
    SortedNamesAre(|plan|);
    PlannedLength(job, plan, dir);
    MarkMoves(job, plan, dir, i, j);
    forall names | Listed(names, dir)
      ensures |Concat(names, dir)| == |job.content| && Concat(names, dir) != job.content
    {
      OneListing(names, dir, |plan|);
    }
  }

  /**
    The converse of `CompletedAssembly` and `DownloadIsExact`: every valid plan of more than a million segments has a
    content and a run, from an empty directory, in which every segment succeeds, and the parts are scrambled.
  */
  lemma LongPlansScramble(ids: seq<ExitId>, maxAttempts: nat, plan: seq<Segment>, size: FileSize)
    returns (job: Job, run: seq<State>)
    requires ValidPlan(plan, size) && |plan| > 1_000_000 && maxAttempts > 0
    requires forall i :: 0 <= i < |plan| ==> plan[i].exit in ids
    ensures Runnable(job, plan) && |job.content| == size && job.ids == ids && job.maxAttempts == maxAttempts
    ensures IsRun(job, plan, run) && run[0].parts == map[] && AllDone(run[|run| - 1])
    ensures Scrambles(run[|run| - 1].parts, job.content)
  {
    var n := |plan|;
    var i, j := FirstDeparture(n, 0);
    job := Job(ids, maxAttempts, Marked(plan, size, j));
    run := SuccessIsPossible(job, plan);
    var dir := run[|run| - 1].parts;
    RunCompletes(job, plan, run, |run| - 1);
    forall name
      ensures name in dir <==> IsPlanned(name, n)
    {
    }
    PlannedOnly(job, plan, dir, i, j);
  }
}
