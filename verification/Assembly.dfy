/** Putting the part files together, and what comes out after a successful run. */
module Assembly {
  import opened Common
  import opened Sequences
  import opened Decimal
  import opened PlanSplit
  import opened FetchPlans
  import opened PartNames
  import opened Fetching
  import opened FetchRuns
  import opened FetchTallies

  const BUFFER_SIZE: nat := 65_536

  function NameBefore(): (string, string) -> bool {
    (a: string, b: string) => Before(a, b)
  }

  /** The files of the directory in name order. */
  ghost predicate Listed(names: seq<string>, dir: Directory) {
    Ascends(NameBefore(), names) && forall name :: name in names <==> name in dir
  }

  ghost predicate AllPartNames(dir: Directory) {
    forall name :: name in dir ==> IsPartName(name)
  }

  function Concat(names: seq<string>, dir: Directory): seq<Byte>
    requires forall name :: name in names ==> name in dir
  {
    if names == [] then [] else dir[names[0]] + Concat(names[1..], dir)
  }

  /** The outcome of assembling: what is written out, and whether it is presented as success. */
  ghost predicate Assembles<D>(dir: Directory, size: FileSize, expected: Option<D>, hash: seq<Byte> -> D,
                               r: Result<D, FetchError>, output: seq<Byte>)
  {
    if AllPartNames(dir) then
      exists names :: Listed(names, dir) && output == Concat(names, dir)
        && r == (if |output| != size then Err(TotalLengthMismatch(|output|, size))
                 else if expected.Some? && hash(output) != expected.value then Err(HashMismatch)
                 else Ok(hash(output)))
    else
      output == [] && r.Err? && r.error.CorruptPart? && r.error.name in dir && !IsPartName(r.error.name)
  }

  lemma {:induction false} ConcatPush(names: seq<string>, dir: Directory, k: nat)
    requires k < |names| && forall name :: name in names ==> name in dir
    ensures Concat(names[..k + 1], dir) == Concat(names[..k], dir) + dir[names[k]]
  {
    if k == 0 {
      assert names[..1] == [names[0]] && names[..0] == [];
      assert Concat([names[0]][1..], dir) == [];
    } else {
      assert names[..k + 1][1..] == names[1..][..k] && names[..k][1..] == names[1..][..k - 1];
      ConcatPush(names[1..], dir, k - 1);
    }
  }

  /** The files of the directory, in whatever order it lists them. */
  method CollectPartFiles(dir: Directory) returns (r: Result<seq<string>, FetchError>)
    ensures AllPartNames(dir) ==> r.Ok?
    ensures r.Ok? ==> AllPartNames(dir) && (forall name :: name in r.value <==> name in dir)
    ensures r.Ok? ==> forall i, j :: 0 <= i < j < |r.value| ==> r.value[i] != r.value[j]
    ensures r.Err? ==> r.error.CorruptPart? && r.error.name in dir && !IsPartName(r.error.name)
  {
    var names: seq<string> := [];
    var rest := dir.Keys;
    while rest != {}
      invariant rest <= dir.Keys
      invariant forall name :: name in names <==> name in dir && name !in rest
      invariant forall name :: name in names ==> IsPartName(name)
      invariant forall i, j :: 0 <= i < j < |names| ==> names[i] != names[j]
      decreases rest
    {
      var name :| name in rest;
      ParsePartNameIff(name);
      if ParsePartName(name).None? {
        return Err(CorruptPart(name));
      }
      assert name !in names;
      names := names + [name];
      rest := rest - {name};
    }
    r := Ok(names);
  }

  lemma SortedTwice(found: seq<string>, names: seq<string>, i: nat, j: nat)
    requires multiset(found) == multiset(names) && i < j < |names| && names[i] == names[j]
    ensures exists a, b :: 0 <= a < b < |found| && found[a] == found[b]
  {
    var x := names[i];
    assert names == names[..i] + [names[i]] + names[i + 1..j] + [names[j]] + names[j + 1..];
    assert multiset(found)[x] >= 2;
    assert x in multiset(found);
    var a :| 0 <= a < |found| && found[a] == x;
    assert found == found[..a] + [found[a]] + found[a + 1..];
    if x in found[..a] {
      var b :| 0 <= b < a && found[..a][b] == x;
      assert found[b] == found[a];
    } else {
      assert multiset(found[..a])[x] == 0;
      assert x in multiset(found[a + 1..]);
      var b :| 0 <= b < |found[a + 1..]| && found[a + 1..][b] == x;
      assert found[a] == found[a + 1 + b];
    }
  }

  lemma SortedDistinct(found: seq<string>)
    requires forall i, j :: 0 <= i < j < |found| ==> found[i] != found[j]
    ensures Ascends(NameBefore(), Sort(NotAfter(), found))
  {
    var names := Sort(NotAfter(), found);
    NameOrderIsTotal();
    SortAscends(NotAfter(), found);
    forall i, j | 0 <= i < j < |names|
      ensures Before(names[i], names[j])
    {
      assert NotAfter()(names[i], names[j]);
      if names[i] == names[j] {
        SortedTwice(found, names, i, j);
      }
    }
  }

  lemma SortedListing(found: seq<string>, dir: Directory)
    requires forall name :: name in found <==> name in dir
    requires forall i, j :: 0 <= i < j < |found| ==> found[i] != found[j]
    ensures Listed(Sort(NotAfter(), found), dir)
  {
    SortedDistinct(found);
    SortMembers(NotAfter(), found);
  }

  /** Copies one part in buffer-sized reads, counting the bytes. */
  method AppendPart(output: seq<Byte>, part: seq<Byte>, total: nat) returns (written: seq<Byte>, counted: nat)
    ensures written == output + part && counted == total + |part|
  {
    written, counted := output, total;
    var offset := 0;
    while offset < |part|
      invariant 0 <= offset <= |part|
      invariant written == output + part[..offset] && counted == total + offset
    {
      var n: nat :| 0 < n <= BUFFER_SIZE && offset + n <= |part|;
      assert part[..offset] + part[offset..offset + n] == part[..offset + n];
      written := written + part[offset..offset + n];
      counted := counted + n;
      offset := offset + n;
    }
    assert part[..|part|] == part;
  }

  method Assemble<D(==)>(dir: Directory, expectedSize: FileSize, expectedDigest: Option<D>, hash: seq<Byte> -> D)
    returns (r: Result<D, FetchError>, output: seq<Byte>)
    ensures Assembles(dir, expectedSize, expectedDigest, hash, r, output)
  {
    output := [];
    var collected := CollectPartFiles(dir);
    if collected.Err? {
      r := Err(collected.error);
      return;
    }
    SortedListing(collected.value, dir);
    var names := Sort(NotAfter(), collected.value);
    var total: nat := 0;
    for i := 0 to |names|
      invariant output == Concat(names[..i], dir) && total == |output|
    {
      ConcatPush(names, dir, i);
      output, total := AppendPart(output, dir[names[i]], total);
    }
    assert names[..|names|] == names;
    if total != expectedSize {
      r := Err(TotalLengthMismatch(total, expectedSize));
      return;
    }
    var digest := hash(output);
    if expectedDigest.Some? && digest != expectedDigest.value {
      r := Err(HashMismatch);
      return;
    }
    r := Ok(digest);
  }

  // ----- planned parts and others

  /** The part file of every segment holds exactly the bytes of its range. */
  ghost predicate Completed(plan: seq<Segment>, content: seq<Byte>, dir: Directory) {
    forall i :: 0 <= i < |plan| ==>
      && plan[i].range.endInclusive < |content|
      && PartName(i) in dir && dir[PartName(i)] == Slice(content, plan[i].range)
  }

  function PlannedNames(n: nat): (names: seq<string>)
    ensures |names| == n && forall i :: 0 <= i < n ==> names[i] == PartName(i)
  {
    seq(n, i requires 0 <= i < n => PartName(i))
  }

  ghost function Planned(n: nat): string -> bool {
    name => name in PlannedNames(n)
  }

  ghost function Unplanned(n: nat): string -> bool {
    name => name !in PlannedNames(n)
  }

  lemma {:induction false} FilterListed(p: string -> bool, names: seq<string>)
    requires Ascends(NameBefore(), names)
    ensures Ascends(NameBefore(), Filter(p, names))
  {
    if names != [] {
      FilterListed(p, names[1..]);
      forall k | 0 <= k < |Filter(p, names[1..])|
        ensures Before(names[0], Filter(p, names[1..])[k])
      {
        assert Filter(p, names[1..])[k] in names[1..];
        var j :| 0 <= j < |names[1..]| && names[1..][j] == Filter(p, names[1..])[k];
        assert NameBefore()(names[0], names[j + 1]);
      }
    }
  }

  lemma PlannedNamesDiffer(n: nat)
    requires n <= TWO32
    ensures forall i, j :: 0 <= i < j < n ==> PlannedNames(n)[i] != PlannedNames(n)[j]
    ensures forall name :: name in PlannedNames(n) <==> IsPlanned(name, n)
  {
    forall i, j | 0 <= i < j < n
      ensures PlannedNames(n)[i] != PlannedNames(n)[j]
    {
      PartNamesDiffer(i, j);
    }
    forall name
      ensures name in PlannedNames(n) <==> IsPlanned(name, n)
    {
      if IsPlanned(name, n) {
        var i :| 0 <= i < n && name == PartName(i);
        assert PlannedNames(n)[i] == name;
      }
      if name in PlannedNames(n) {
        var i :| 0 <= i < n && PlannedNames(n)[i] == name;
      }
    }
  }

  lemma OneWay()
    ensures forall a, b :: NameBefore()(a, b) ==> !NameBefore()(b, a)
  {
    forall a, b | NameBefore()(a, b)
      ensures !NameBefore()(b, a)
    {
      BeforeTotal(a, b);
    }
  }

  /** The planned files are listed in name order, whatever stands between them. */
  lemma PlannedSorted(names: seq<string>, dir: Directory, n: nat)
    requires Listed(names, dir) && n <= TWO32
    requires forall i :: 0 <= i < n ==> PartName(i) in dir
    ensures Filter(Planned(n), names) == Sort(NotAfter(), PlannedNames(n))
  {
    FilterListed(Planned(n), names);
    PlannedNamesDiffer(n);
    SortedDistinct(PlannedNames(n));
    SortMembers(NotAfter(), PlannedNames(n));
    OneWay();
    AscendingUnique(NameBefore(), Filter(Planned(n), names), Sort(NotAfter(), PlannedNames(n)));
  }

  /** Up to a million segments, that is index order. */
  lemma PlannedInOrder(n: nat)
    requires n <= 1_000_000
    ensures Sort(NotAfter(), PlannedNames(n)) == PlannedNames(n)
  {
    NameOrderIff(n);
    SortOfSorted(NotAfter(), PlannedNames(n));
  }

  /** Planned and other files share out the bytes; if the others are empty they leave no trace. */
  lemma {:induction false} ConcatSplit(names: seq<string>, dir: Directory, n: nat)
    requires forall name :: name in names ==> name in dir
    ensures |Concat(names, dir)|
         == |Concat(Filter(Planned(n), names), dir)| + |Concat(Filter(Unplanned(n), names), dir)|
    ensures Concat(Filter(Unplanned(n), names), dir) == [] ==>
              Concat(names, dir) == Concat(Filter(Planned(n), names), dir)
  {
    if names != [] {
      ConcatSplit(names[1..], dir, n);
      var rest, others := Filter(Planned(n), names[1..]), Filter(Unplanned(n), names[1..]);
      if Planned(n)(names[0]) {
        assert ([names[0]] + rest)[1..] == rest;
      } else {
        assert ([names[0]] + others)[1..] == others;
      }
    }
  }

  lemma {:induction false} ConcatEmpty(names: seq<string>, dir: Directory)
    requires forall name :: name in names ==> name in dir
    ensures Concat(names, dir) == [] <==> forall name :: name in names ==> dir[name] == []
  {
    if names != [] {
      ConcatEmpty(names[1..], dir);
      assert names == [names[0]] + names[1..];
    }
  }

  /** The planned parts, put together in index order, are the content. */
  lemma {:induction false} PlannedConcat(job: Job, plan: seq<Segment>, dir: Directory, k: nat)
    requires Runnable(job, plan) && Completed(plan, job.content, dir) && k <= |plan|
    ensures var from := if k == |plan| then |job.content| else plan[k].range.start;
            from <= |job.content| && Concat(PlannedNames(|plan|)[k..], dir) == job.content[from..]
    decreases |plan| - k
  {
    var names, ps := PlannedNames(|plan|), PiecesOf(plan);
    if k == |plan| {
      assert names[k..] == [] && job.content[|job.content|..] == [];
    } else {
      PlannedConcat(job, plan, dir, k + 1);
      TilesNeighbour(ps, 0, |job.content|, k);
      assert ps[k].range == plan[k].range;
      assert names[k..][1..] == names[k + 1..] && names[k..][0] == PartName(k);
      var r := plan[k].range;
      assert job.content[r.start..] == Slice(job.content, r) + job.content[r.endInclusive + 1..];
    }
  }

  function LengthIn(dir: Directory): string -> int {
    (name: string) => if name in dir then |dir[name]| else 0
  }

  lemma {:induction false} ConcatLength(names: seq<string>, dir: Directory)
    requires forall name :: name in names ==> name in dir
    ensures |Concat(names, dir)| == Sum(LengthIn(dir), names)
  {
    if names != [] {
      ConcatLength(names[1..], dir);
    }
  }

  lemma StartsAtZero(job: Job, plan: seq<Segment>)
    requires Runnable(job, plan)
    ensures plan != [] && plan[0].range.start == 0
  {
    assert PiecesOf(plan)[0].range == plan[0].range;
  }

  /** In whatever order, the planned parts hold as many bytes as the content. */
  lemma PlannedLength(job: Job, plan: seq<Segment>, dir: Directory)
    requires Runnable(job, plan) && Completed(plan, job.content, dir)
    ensures forall name :: name in Sort(NotAfter(), PlannedNames(|plan|)) ==> name in dir
    ensures |Concat(Sort(NotAfter(), PlannedNames(|plan|)), dir)| == |job.content|
    ensures Concat(PlannedNames(|plan|), dir) == job.content
  {
    var planned := PlannedNames(|plan|);
    SortMembers(NotAfter(), planned);
    PlannedConcat(job, plan, dir, 0);
    StartsAtZero(job, plan);
    assert planned[0..] == planned;
    ConcatLength(planned, dir);
    ConcatLength(Sort(NotAfter(), planned), dir);
    SumSort(NotAfter(), LengthIn(dir), planned);
  }

  /**
    Over a completed plan the length is right exactly when every other file is empty; and then, for a plan of at
    most a million segments, the output is the content.
  */
  lemma CompletedAssembly(job: Job, plan: seq<Segment>, dir: Directory, names: seq<string>)
    requires Runnable(job, plan) && Completed(plan, job.content, dir) && Listed(names, dir)
    ensures |Concat(names, dir)| == |job.content|
        <==> forall name :: name in dir && !IsPlanned(name, |plan|) ==> dir[name] == []
    ensures |plan| <= 1_000_000 && |Concat(names, dir)| == |job.content| ==> Concat(names, dir) == job.content
  {
    var n := |plan|;
    PlannedSorted(names, dir, n);
    PlannedLength(job, plan, dir);
    ConcatSplit(names, dir, n);
    if n <= 1_000_000 {
      PlannedInOrder(n);
    }
    ConcatEmpty(Filter(Unplanned(n), names), dir);
    PlannedNamesDiffer(n);
  }

  // ----- from the first request to the finished file

  lemma RunCompletes(job: Job, plan: seq<Segment>, run: seq<State>, k: nat)
    requires Runnable(job, plan) && IsRun(job, plan, run) && k < |run| && AllDone(run[k])
    ensures Completed(plan, job.content, run[k].parts)
    ensures OthersUntouched(|plan|, run[0].parts, run[k].parts)
  {
    RunInv(job, plan, run, k);
    forall i | 0 <= i < |plan|
      ensures plan[i].range.endInclusive < |job.content| && PartName(i) in run[k].parts
      ensures run[k].parts[PartName(i)] == Slice(job.content, plan[i].range)
    {
      RangesInside(job, plan, i);
      assert FitsPlan(run[k].tasks[i], plan[i]) && PartOk(job, run[k].parts, run[k].tasks[i]);
    }
  }

  /**
    End to end: in every interleaving, after whatever failures, truncations, retries and exit changes, if every
    segment succeeds and assembling reports success, the output is the origin's content byte for byte,
    whatever the directory held before the run.
  */
  lemma DownloadIsExact<D>(job: Job, plan: seq<Segment>, run: seq<State>, k: nat,
                           expected: Option<D>, hash: seq<Byte> -> D, r: Result<D, FetchError>, output: seq<Byte>)
    requires Runnable(job, plan) && |plan| <= 1_000_000
    requires IsRun(job, plan, run) && k < |run| && AllDone(run[k])
    requires Assembles(run[k].parts, |job.content|, expected, hash, r, output)
    ensures r.Ok? ==> output == job.content
  {
    RunCompletes(job, plan, run, k);
    if r.Ok? {
      var names :| Listed(names, run[k].parts) && output == Concat(names, run[k].parts);
      CompletedAssembly(job, plan, run[k].parts, names);
    }
  }

  /** What the directory held before the run, beside part files of the plan: nothing, or empty part files. */
  ghost predicate Harmless(before: Directory, n: nat) {
    forall name :: name in before && !IsPlanned(name, n) ==> IsPartName(name) && before[name] == []
  }

  lemma PlannedParse(job: Job, plan: seq<Segment>)
    requires Runnable(job, plan)
    ensures forall name :: IsPlanned(name, |plan|) ==> IsPartName(name)
  {
    forall i | 0 <= i < |plan|
      ensures IsPartName(PartName(i))
    {
      RangesInside(job, plan, i);
      PartNameParses(i);
      ParsePartNameIff(PartName(i));
    }
  }

  /** Whether it does succeed depends on what was there before: a stale part with bytes in it always fails. */
  lemma StalePartsDecide<D>(job: Job, plan: seq<Segment>, run: seq<State>, k: nat,
                            expected: Option<D>, hash: seq<Byte> -> D, r: Result<D, FetchError>, output: seq<Byte>)
    requires Runnable(job, plan)
    requires IsRun(job, plan, run) && k < |run| && AllDone(run[k])
    requires Assembles(run[k].parts, |job.content|, expected, hash, r, output)
    ensures r.Ok? <==> Harmless(run[0].parts, |plan|) && (expected.Some? ==> hash(output) == expected.value)
    ensures |plan| <= 1_000_000 ==>
              (r.Ok? <==> Harmless(run[0].parts, |plan|) && (expected.Some? ==> hash(job.content) == expected.value))
  {
    RunCompletes(job, plan, run, k);
    PlannedParse(job, plan);
    var dir := run[k].parts;
    if AllPartNames(dir) {
      var names :| Listed(names, dir) && output == Concat(names, dir)
        && r == (if |output| != |job.content| then Err(TotalLengthMismatch(|output|, |job.content|))
                 else if expected.Some? && hash(output) != expected.value then Err(HashMismatch)
                 else Ok(hash(output)));
      CompletedAssembly(job, plan, dir, names);
    }
  }
}
