/** When building a plan succeeds, and what the plan looks like. */
module FetchPlanTheorems {
  import opened Common
  import opened PlanRanges
  import opened PlanMerge
  import opened PlanRuns
  import opened PlanSplit
  import opened PlanPieces
  import opened FetchPlans

  /** Whether the pieces can be merged into a gapless plan: they leave no gap in front of a run. */
  ghost predicate Plannable(exits: seq<Exit>, size: FileSize, partsPerExit: Parts, m: MinSegment) {
    && exits != []
    && var ps := Assignments(exits, size, partsPerExit, m);
       && ps != [] && ps[0].range.start == 0 && EndsAt(ps, size) && RunsFit(ps, m, 0)
  }

  lemma AssignmentsOrdered(exits: seq<Exit>, size: FileSize, partsPerExit: Parts, m: MinSegment)
    requires exits != []
    ensures Ordered(Assignments(exits, size, partsPerExit, m))
  {
    var used := UsedExits(exits, size, m);
    CutsDivide(used, size);
    PiecesOrdered(used, Cuts(used, size), EffectiveParts(|used|, size, partsPerExit, m), |used|);
  }

  /** For all inputs: the merged pieces tile the file if and only if the inputs are plannable. */
  lemma PlannableIff(exits: seq<Exit>, size: FileSize, partsPerExit: Parts, m: MinSegment)
    requires exits != []
    ensures Tiles(PlannedPieces(exits, size, partsPerExit, m), 0, size)
        <==> Plannable(exits, size, partsPerExit, m)
  {
    var ps := Assignments(exits, size, partsPerExit, m);
    AssignmentsOrdered(exits, size, partsPerExit, m);
    if ps != [] {
      MergedTilesIff(ps, m, size);
    }
  }

  /** A plan has at most max(1, size / m) segments, and none below the minimum unless it is alone. */
  lemma PlanGranularity(exits: seq<Exit>, size: FileSize, partsPerExit: Parts, m: MinSegment)
    requires Plannable(exits, size, partsPerExit, m)
    ensures var ps := PlannedPieces(exits, size, partsPerExit, m);
            && 1 <= |ps| <= Max(1, size / m)
            && (|ps| > 1 ==> forall i :: 0 <= i < |ps| ==> Len(ps[i].range) >= m)
  {
    var raw := Assignments(exits, size, partsPerExit, m);
    var ps := PlannedPieces(exits, size, partsPerExit, m);
    AssignmentsOrdered(exits, size, partsPerExit, m);
    PlannableIff(exits, size, partsPerExit, m);
    MergedSettled(raw, m);
    if |ps| > 1 {
      CountBound(ps, m, 0, size);
      QuotientBounds(size, m);
      CancelStrict(|ps|, size / m + 1, m);
    }
  }

  // ----- the number of segments

  /** What decides whether `FetchPlanner.Build` returns a plan: segment numbers have 32 bits. */
  ghost predicate Succeeds(exits: seq<Exit>, size: FileSize, partsPerExit: Parts, m: MinSegment) {
    Plannable(exits, size, partsPerExit, m) && |PlannedPieces(exits, size, partsPerExit, m)| <= TWO32
  }

  lemma FewSegments(exits: seq<Exit>, size: FileSize, partsPerExit: Parts, m: MinSegment)
    requires exits != [] && size / m <= TWO32
    ensures Succeeds(exits, size, partsPerExit, m) <==> Plannable(exits, size, partsPerExit, m)
  {
    if Plannable(exits, size, partsPerExit, m) {
      PlanGranularity(exits, size, partsPerExit, m);
    }
  }

  lemma {:induction false} GreedyShorter(ps: seq<Piece>, m: MinSegment)
    requires Ordered(ps)
    ensures |Greedy(ps, m)| <= |ps|
    decreases |ps|
  {
    if |ps| > 1 {
      if Tiny(ps[0], m) {
        OrderedJoin(ps, 0, ps[1].exit);
        var next := [Joined(ps[0], ps[1], ps[1].exit)] + ps[2..];
        assert ps[..0] + [Joined(ps[0], ps[1], ps[1].exit)] + ps[2..] == next;
        GreedyShorter(next, m);
      } else {
        OrderedTail(ps, 1);
        GreedyShorter(ps[1..], m);
      }
    }
  }

  lemma {:induction false} PiecesCount(exits: seq<Exit>, cuts: seq<nat>, parts: Parts, i: nat)
    requires Divides(cuts, |exits|) && i <= |exits|
    ensures |PiecesUpTo(exits, cuts, parts, i)| <= i * parts
  {
    if i > 0 {
      PiecesCount(exits, cuts, parts, i - 1);
      Distribute(i - 1, 1, parts);
    }
  }

  /** No plan has more segments than parts were asked for. */
  lemma FewParts(exits: seq<Exit>, size: FileSize, partsPerExit: Parts, m: MinSegment)
    requires exits != []
    ensures var n := |UsedExits(exits, size, m)|;
            n * EffectiveParts(n, size, partsPerExit, m) <= TWO32 ==>
              (Succeeds(exits, size, partsPerExit, m) <==> Plannable(exits, size, partsPerExit, m))
  {
    var used := UsedExits(exits, size, m);
    CutsDivide(used, size);
    PiecesCount(used, Cuts(used, size), EffectiveParts(|used|, size, partsPerExit, m), |used|);
    AssignmentsOrdered(exits, size, partsPerExit, m);
    GreedyShorter(Assignments(exits, size, partsPerExit, m), m);
  }
}
