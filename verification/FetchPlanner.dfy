/** Building a plan. */
module FetchPlanner {
  import opened Common
  import opened Sequences
  import opened PlanRanges
  import opened PlanMerge
  import opened PlanSplit
  import opened PlanExits
  import opened PlanPieces
  import opened FetchPlans
  import opened FetchPlanTheorems

  /** Numbers the pieces and checks the result. */
  method Number(ps: seq<Piece>, size: FileSize) returns (r: Result<seq<Segment>, PlanError>)
    ensures if |ps| <= TWO32 && Tiles(ps, 0, size)
            then r.Ok? && ValidPlan(r.value, size) && PiecesOf(r.value) == ps
            else r.Err?
  {
    var segments: seq<Segment> := [];
    for i := 0 to |ps|
      invariant i <= TWO32
      invariant |segments| == i
      invariant forall k :: 0 <= k < i ==> segments[k] == Segment(k, ps[k].range, ps[k].exit)
    {
      if i >= TWO32 {
        return Err(TooManySegments);
      }
      segments := segments + [Segment(i, ps[i].range, ps[i].exit)];
    }
    assert PiecesOf(segments) == ps;
    var problem := Validate(segments, size);
    if problem.Some? {
      return Err(problem.value);
    }
    r := Ok(segments);
  }

  /** Drops exits and splits the file among the others. */
  method AssignPieces(exits: seq<Exit>, size: FileSize, partsPerExit: Parts, m: MinSegment)
    returns (assignments: seq<Piece>)
    requires exits != []
    ensures assignments == Assignments(exits, size, partsPerExit, m)
  {
    var remaining := DropWeakest(exits, size, m);
    var used := Sort(LowerId(), remaining);
    assert used == UsedExits(exits, size, m);
    ProductStrict(0, |used|, m);
    var limit := size / (|used| * m);
    var parts: Parts := if limit >= partsPerExit then partsPerExit else 1;
    assert parts == EffectiveParts(|used|, size, partsPerExit, m);
    if |used| == 1 && parts == 1 {
      WholeFile(used, size);
      assignments := [Piece(Range(0, size - 1), used[0].id)];
    } else {
      assignments := SplitAcrossExits(used, size, parts);
    }
  }

  /**
    The segments go through `used` only, in id order, and these are the heaviest exits, and among equals those with
    the lowest ids, as many of them as can have a minimum segment each.
  */
  ghost predicate ThroughStrongest(segments: seq<Segment>, exits: seq<Exit>, used: seq<Exit>, size: FileSize,
                                   m: MinSegment)
  {
    && KeepsStrongest(exits, used) && KeepsAsMany(|used|, |exits|, size, m)
    && (forall i :: 0 <= i < |segments| ==> HasExit(used, segments[i].exit))
    && forall i, j :: 0 <= i < j < |segments| ==> segments[i].exit <= segments[j].exit
  }

  lemma SegmentsThrough(segments: seq<Segment>, exits: seq<Exit>, used: seq<Exit>, size: FileSize, m: MinSegment)
    requires exits != [] && used == UsedExits(exits, size, m) && GoThrough(PiecesOf(segments), used)
    ensures ThroughStrongest(segments, exits, used, size, m)
  {
    UsedAreStrongest(exits, size, m);
    var ps := PiecesOf(segments);
    assert forall i :: 0 <= i < |segments| ==> ps[i].exit == segments[i].exit;
  }

  /** Succeeds exactly when the pieces fit, before merging, and there are numbers for them, after it. */
  method Build(exits: seq<Exit>, size: FileSize, partsPerExit: Parts, m: MinSegment)
    returns (r: Result<seq<Segment>, PlanError>)
    ensures exits == [] ==> r == Err(NoExits)
    ensures r.Ok? <==> Succeeds(exits, size, partsPerExit, m)
    ensures size / m <= TWO32 ==> (r.Ok? <==> Plannable(exits, size, partsPerExit, m))
    ensures r.Ok? ==> ValidPlan(r.value, size) && PiecesOf(r.value) == PlannedPieces(exits, size, partsPerExit, m)
    ensures r.Ok? ==> ThroughStrongest(r.value, exits, UsedExits(exits, size, m), size, m)
  {
    if exits == [] {
      return Err(NoExits);
    }
    var assignments := AssignPieces(exits, size, partsPerExit, m);
    AssignmentsOrdered(exits, size, partsPerExit, m);
    assignments := MergeTinySegments(assignments, m);
    PlannableIff(exits, size, partsPerExit, m);
    if size / m <= TWO32 {
      FewSegments(exits, size, partsPerExit, m);
    }
    r := Number(assignments, size);
    if r.Ok? {
      PlanThroughStrongest(exits, size, partsPerExit, m);
      SegmentsThrough(r.value, exits, UsedExits(exits, size, m), size, m);
    }
  }
}
