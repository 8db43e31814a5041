/** When building a plan succeeds, read off the bytes that each exit gets. */
module FetchPlanShares {
  import opened Common
  import opened Sequences
  import opened PlanRanges
  import opened PlanMerge
  import opened PlanRuns
  import opened PlanSplit
  import opened PlanExits
  import opened PlanPieces
  import opened FetchPlans
  import opened FetchPlanTheorems

  // ----- enough for every exit

  lemma NextShareTiles(parts: Parts, before: seq<Piece>, start: nat, share: nat, exit: ExitId)
    requires start + share < TWO64 && share >= parts && Tiles(before, 0, start)
    ensures Tiles(before + ExitPieces(start, share, parts, exit), 0, start + share)
  {
    ExitPiecesShape(start, share, parts, exit);
    TilesAppend(before, ExitPieces(start, share, parts, exit), 0, start, start + share);
  }

  lemma {:induction false} SharesTile(exits: seq<Exit>, cuts: seq<nat>, parts: Parts, i: nat)
    requires Divides(cuts, |exits|) && i <= |exits|
    requires forall k :: 0 <= k < i ==> cuts[k + 1] - cuts[k] >= parts
    ensures Tiles(PiecesUpTo(exits, cuts, parts, i), 0, cuts[i])
  {
    if i > 0 {
      SharesTile(exits, cuts, parts, i - 1);
      assert cuts[i - 1 + 1] - cuts[i - 1] >= parts;
      NextShareTiles(parts, PiecesUpTo(exits, cuts, parts, i - 1), cuts[i - 1], cuts[i] - cuts[i - 1], exits[i - 1].id);
    }
  }

  /** No exit's weight is so small that its fair share falls below the minimum segment. */
  ghost predicate BoundedSkew(used: seq<Exit>, m: MinSegment) {
    forall i :: 0 <= i < |used| ==> TotalWeight(used) <= |used| * m * used[i].weight
  }

  lemma PartsFit(n: nat, size: FileSize, partsPerExit: Parts, m: MinSegment)
    requires n > 0 && !Crowded(n, size, m)
    ensures var parts := EffectiveParts(n, size, partsPerExit, m);
            parts * (n * m) <= size || (n == 1 && parts == 1)
  {
    ProductStrict(0, n, m);
    QuotientBounds(size, n * m);
    if size / (n * m) >= partsPerExit {
      ProductMonotone(partsPerExit, size / (n * m), n * m);
    }
  }

  lemma ShareLargeEnough(used: seq<Exit>, size: FileSize, parts: Parts, m: MinSegment, i: nat)
    requires i < |used| && TotalWeight(used) <= |used| * m * used[i].weight
    requires parts * (|used| * m) <= size
    ensures FloorShare(used, size, i) >= parts
  {
    var w, x, k := TotalWeight(used), used[i].weight, |used| * m;
    TotalWeightPositive(used);
    ProductMonotone(w, k * x, parts);
    ProductMonotone(parts * k, size, x);
    assert k * x * parts == parts * k * x;
    assert w * parts == parts * w;
    QuotientBounds(size * x, w);
    CancelStrict(parts, size * x / w + 1, w);
  }

  lemma ShareIsFloor(used: seq<Exit>, size: FileSize, i: nat)
    requires i < |used|
    ensures FloorShare(used, size, i) <= ShareOf(used, size, i) < FloorShare(used, size, i) + |used|
    ensures i < |used| - 1 ==> ShareOf(used, size, i) == FloorShare(used, size, i)
  {
    if i == |used| - 1 {
      LastShareExcess(used, size);
    }
  }

  lemma UsedNotCrowded(exits: seq<Exit>, size: FileSize, m: MinSegment)
    requires exits != []
    ensures !Crowded(|UsedExits(exits, size, m)|, size, m)
  {
    CapacityStep(|exits|, size, m);
    var k := Capacity(|exits|, size, m);
    CapacityStep(k, size, m);
  }

  lemma TilingIsPlannable(exits: seq<Exit>, size: FileSize, partsPerExit: Parts, m: MinSegment)
    requires exits != [] && Tiles(Assignments(exits, size, partsPerExit, m), 0, size)
    ensures Plannable(exits, size, partsPerExit, m)
  {
    var ps := Assignments(exits, size, partsPerExit, m);
    AssignmentsOrdered(exits, size, partsPerExit, m);
    MergedShape(ps, m, 0, size, size) by {
      TilesBounds(ps, 0, size);
    }
    PlannableIff(exits, size, partsPerExit, m);
  }

  lemma SkewGivesParts(exits: seq<Exit>, size: FileSize, partsPerExit: Parts, m: MinSegment, i: nat)
    requires exits != [] && BoundedSkew(UsedExits(exits, size, m), m) && i < |UsedExits(exits, size, m)|
    ensures var used := UsedExits(exits, size, m);
            ShareOf(used, size, i) >= EffectiveParts(|used|, size, partsPerExit, m)
  {
    var used := UsedExits(exits, size, m);
    var parts := EffectiveParts(|used|, size, partsPerExit, m);
    UsedNotCrowded(exits, size, m);
    PartsFit(|used|, size, partsPerExit, m);
    ShareIsFloor(used, size, i);
    if parts * (|used| * m) <= size {
      ShareLargeEnough(used, size, parts, m, i);
    } else {
      LastShare(used, size);
    }
  }

  /**
    Under bounded skew every exit gets at least one byte per part, so no sub-split is empty, and building succeeds
    unless there are more segments than numbers for them.
  */
  lemma BoundedSkewPlans(exits: seq<Exit>, size: FileSize, partsPerExit: Parts, m: MinSegment)
    requires exits != [] && BoundedSkew(UsedExits(exits, size, m), m)
    ensures var used := UsedExits(exits, size, m);
            var parts := EffectiveParts(|used|, size, partsPerExit, m);
            && (forall i :: 0 <= i < |used| ==> ShareOf(used, size, i) >= parts)
            && Tiles(Assignments(exits, size, partsPerExit, m), 0, size)
            && (size / m <= TWO32 || |used| * parts <= TWO32 ==> Succeeds(exits, size, partsPerExit, m))
    ensures Plannable(exits, size, partsPerExit, m)
  {
    var used := UsedExits(exits, size, m);
    var parts := EffectiveParts(|used|, size, partsPerExit, m);
    forall i | 0 <= i < |used|
      ensures ShareOf(used, size, i) >= parts
    {
      SkewGivesParts(exits, size, partsPerExit, m, i);
    }
    var cuts := Cuts(used, size);
    CutsDivide(used, size);
    forall i | 0 <= i < |used|
      ensures cuts[i + 1] - cuts[i] >= parts
    {
      assert ShareOf(used, size, i) >= parts;
    }
    SharesTile(used, cuts, parts, |used|);
    TilingIsPlannable(exits, size, partsPerExit, m);
    FewParts(exits, size, partsPerExit, m);
    if size / m <= TWO32 {
      FewSegments(exits, size, partsPerExit, m);
    }
  }

  /** As many pieces as asked for, all through one exit, which tile a stretch and differ by at most one byte. */
  ghost predicate SharesOut(ps: seq<Piece>, from: int, to: int, parts: Parts, exit: ExitId) {
    && |ps| == parts && Tiles(ps, from, to)
    && (forall j :: 0 <= j < parts ==> ps[j].exit == exit)
    && forall j, k :: 0 <= j < parts && 0 <= k < parts ==> Len(ps[j].range) <= Len(ps[k].range) + 1
  }

  lemma PiecesOfOne(start: nat, share: nat, parts: Parts, exit: ExitId)
    requires start + share < TWO64 && share >= parts
    ensures SharesOut(ExitPieces(start, share, parts, exit), start, start + share, parts, exit)
  {
    ExitPiecesShape(start, share, parts, exit);
  }

  /** `ps` is what the split adds for exit `i`. */
  ghost predicate AreAssigned(used: seq<Exit>, size: FileSize, parts: Parts, i: nat, ps: seq<Piece>) {
    && i < |used| && Divides(Cuts(used, size), |used|)
    && PiecesUpTo(used, Cuts(used, size), parts, i + 1) == PiecesUpTo(used, Cuts(used, size), parts, i) + ps
  }

  lemma ExitShare(used: seq<Exit>, size: FileSize, parts: Parts, i: nat) returns (ps: seq<Piece>)
    requires i < |used| && ShareOf(used, size, i) >= parts
    ensures AreAssigned(used, size, parts, i, ps)
    ensures SharesOut(ps, Boundary(used, size, i), Boundary(used, size, i + 1), parts, used[i].id)
  {
    var cuts := Cuts(used, size);
    CutsDivide(used, size);
    PiecesNext(used, cuts, parts, i);
    ps := ExitPieces(cuts[i], cuts[i + 1] - cuts[i], parts, used[i].id);
    PiecesOfOne(cuts[i], cuts[i + 1] - cuts[i], parts, used[i].id);
  }

  lemma ShareInPlain(used: seq<Exit>, size: FileSize, i: nat)
    requires i < |used|
    ensures var bytes, w := ShareOf(used, size, i), TotalWeight(used);
            && bytes * w > size * used[i].weight - w
            && (i < |used| - 1 ==> bytes * w <= size * used[i].weight)
            && (bytes - |used|) * w < size * used[i].weight
  {
    ShareIsFloor(used, size, i);
    TotalWeightPositive(used);
    var bytes, fair, w := ShareOf(used, size, i), FloorShare(used, size, i), TotalWeight(used);
    QuotientBounds(size * used[i].weight, w);
    ProductMonotone(fair + 1, bytes + 1, w);
    Distribute(bytes, 1, w);
    ProductStrict(bytes - |used|, fair, w);
  }

  /** The total weight is the sum of all weights. */
  lemma {:induction false} TotalIsSum(used: seq<Exit>, i: nat)
    requires i <= |used|
    ensures PrefixWeight(used, i) == Sum((x: Exit) => x.weight, used[..i])
  {
    if i > 0 {
      TotalIsSum(used, i - 1);
      assert used[..i] == used[..i - 1] + [used[i - 1]];
      SumAppend((x: Exit) => x.weight, used[..i - 1], [used[i - 1]]);
      assert [used[i - 1]][1..] == [];
    }
  }

  /**
    Under bounded skew the pieces of exit `i` are as many as asked for, differ by at most one byte, and hold together
    its part of the file by weight, rounded down, however many pieces that is; only the last exit has more, by
    fewer bytes than there are exits.
  */
  lemma ProportionalPieces(exits: seq<Exit>, size: FileSize, partsPerExit: Parts, m: MinSegment, i: nat)
    returns (ps: seq<Piece>, from: nat, bytes: nat)
    requires exits != [] && BoundedSkew(UsedExits(exits, size, m), m) && i < |UsedExits(exits, size, m)|
    ensures var used := UsedExits(exits, size, m);
            var parts := EffectiveParts(|used|, size, partsPerExit, m);
            AreAssigned(used, size, parts, i, ps) && SharesOut(ps, from, from + bytes, parts, used[i].id)
    ensures var used := UsedExits(exits, size, m);
            && bytes * TotalWeight(used) > size * used[i].weight - TotalWeight(used)
            && (i < |used| - 1 ==> bytes * TotalWeight(used) <= size * used[i].weight)
            && (bytes - |used|) * TotalWeight(used) < size * used[i].weight
  {
    var used := UsedExits(exits, size, m);
    SkewGivesParts(exits, size, partsPerExit, m, i);
    ps := ExitShare(used, size, EffectiveParts(|used|, size, partsPerExit, m), i);
    ShareIsFloor(used, size, i);
    ShareInPlain(used, size, i);
    from, bytes := Boundary(used, size, i), ShareOf(used, size, i);
  }

  /** The number of parts asked for if the file can give each a minimum segment, and otherwise one. */
  lemma PartsMean(n: nat, size: FileSize, partsPerExit: Parts, m: MinSegment)
    requires n > 0
    ensures EffectiveParts(n, size, partsPerExit, m) == if partsPerExit * (n * m) <= size then partsPerExit else 1
  {
    ProductStrict(0, n, m);
    QuotientBounds(size, n * m);
    if size / (n * m) >= partsPerExit {
      ProductMonotone(partsPerExit, size / (n * m), n * m);
    } else {
      ProductMonotone(size / (n * m) + 1, partsPerExit, n * m);
    }
  }

  /** So many pieces does the split hand to an exit that has a byte for each. */
  lemma PiecesPerExit(exits: seq<Exit>, size: FileSize, partsPerExit: Parts, m: MinSegment, i: nat)
    returns (ps: seq<Piece>)
    requires exits != [] && i < |UsedExits(exits, size, m)|
    requires var used := UsedExits(exits, size, m);
             ShareOf(used, size, i) >= if partsPerExit * (|used| * m) <= size then partsPerExit else 1
    ensures var used := UsedExits(exits, size, m);
            && AreAssigned(used, size, EffectiveParts(|used|, size, partsPerExit, m), i, ps)
            && |ps| == if partsPerExit * (|used| * m) <= size then partsPerExit else 1
  {
    var used := UsedExits(exits, size, m);
    PartsMean(|used|, size, partsPerExit, m);
    ps := ExitShare(used, size, EffectiveParts(|used|, size, partsPerExit, m), i);
  }

  ghost predicate AllLarge(ps: seq<Piece>, m: MinSegment) {
    forall i :: 0 <= i < |ps| ==> Len(ps[i].range) >= m
  }

  lemma LargeShare(start: nat, share: nat, parts: Parts, m: MinSegment, exit: ExitId)
    requires start + share < TWO64 && share >= parts * m
    ensures share >= parts && AllLarge(ExitPieces(start, share, parts, exit), m)
  {
    ProductMonotone(1, m, parts);
    QuotientBounds(share, parts);
    CancelStrict(m, share / parts + 1, parts);
  }

  lemma AllLargeAppend(a: seq<Piece>, b: seq<Piece>, m: MinSegment)
    requires AllLarge(a, m) && AllLarge(b, m)
    ensures AllLarge(a + b, m)
  {
  }

  lemma {:induction false} LargeShares(exits: seq<Exit>, cuts: seq<nat>, parts: Parts, m: MinSegment, i: nat)
    requires Divides(cuts, |exits|) && i <= |exits|
    requires forall k :: 0 <= k < i ==> AllLarge(ExitPieces(cuts[k], cuts[k + 1] - cuts[k], parts, exits[k].id), m)
    ensures AllLarge(PiecesUpTo(exits, cuts, parts, i), m)
  {
    if i > 0 {
      LargeShares(exits, cuts, parts, m, i - 1);
      assert AllLarge(ExitPieces(cuts[i - 1], cuts[i - 1 + 1] - cuts[i - 1], parts, exits[i - 1].id), m);
      AllLargeAppend(PiecesUpTo(exits, cuts, parts, i - 1),
                     ExitPieces(cuts[i - 1], cuts[i] - cuts[i - 1], parts, exits[i - 1].id), m);
    }
  }

  /** When every exit has a minimum segment for each of its parts, the plan is the split, untouched by merging. */
  lemma PlanIsSplit(exits: seq<Exit>, size: FileSize, partsPerExit: Parts, m: MinSegment)
    requires exits != []
    requires var used := UsedExits(exits, size, m);
             var parts := EffectiveParts(|used|, size, partsPerExit, m);
             forall i :: 0 <= i < |used| ==> ShareOf(used, size, i) >= parts * m
    ensures PlannedPieces(exits, size, partsPerExit, m) == Assignments(exits, size, partsPerExit, m)
    ensures Plannable(exits, size, partsPerExit, m)
  {
    var used := UsedExits(exits, size, m);
    var parts := EffectiveParts(|used|, size, partsPerExit, m);
    var cuts := Cuts(used, size);
    CutsDivide(used, size);
    forall k | 0 <= k < |used|
      ensures cuts[k + 1] - cuts[k] >= parts
      ensures AllLarge(ExitPieces(cuts[k], cuts[k + 1] - cuts[k], parts, used[k].id), m)
    {
      assert ShareOf(used, size, k) == cuts[k + 1] - cuts[k];
      assert cuts[k] <= cuts[k + 1] <= cuts[|used|];
      LargeShare(cuts[k], cuts[k + 1] - cuts[k], parts, m, used[k].id);
    }
    LargeShares(used, cuts, parts, m, |used|);
    SharesTile(used, cuts, parts, |used|);
    AssignmentsOrdered(exits, size, partsPerExit, m);
    NoTinyGreedy(Assignments(exits, size, partsPerExit, m), m);
    TilingIsPlannable(exits, size, partsPerExit, m);
  }

  // ----- one part per exit

  /** The stray first bytes that leading exits without a share leave behind. */
  ghost predicate Strays(ps: seq<Piece>) {
    forall i :: 0 <= i < |ps| ==> ps[i].range == Range(0, 0)
  }

  /** `n` stray pieces, then pieces that tile up to `to`. */
  ghost predicate StraysThenTiles(ps: seq<Piece>, n: nat, to: nat) {
    n <= |ps| && Strays(ps[..n]) && Tiles(ps[n..], 0, to)
  }

  lemma StrayNext(ps: seq<Piece>, n: nat, exit: ExitId)
    requires StraysThenTiles(ps, n, 0)
    ensures StraysThenTiles(ps + [Piece(Range(0, 0), exit)], n + 1, 0)
  {
    TilesBounds(ps[n..], 0, 0);
    assert ps[n..] == [] && ps[..n] == ps;
    var all := ps + [Piece(Range(0, 0), exit)];
    assert all[..n + 1] == all && all[n + 1..] == [];
  }

  lemma TilesNext(ps: seq<Piece>, n: nat, more: seq<Piece>, mid: nat, to: nat)
    requires StraysThenTiles(ps, n, mid) && Tiles(more, mid, to)
    ensures StraysThenTiles(ps + more, n, to)
  {
    TilesAppend(ps[n..], more, 0, mid, to);
    assert (ps + more)[..n] == ps[..n] && (ps + more)[n..] == ps[n..] + more;
  }

  lemma OnePartNext(before: seq<Piece>, n: nat, start: nat, share: nat, exit: ExitId) returns (n': nat)
    requires StraysThenTiles(before, n, start) && start + share < TWO64
    ensures StraysThenTiles(before + ExitPieces(start, share, 1, exit), n', start + share)
    ensures n' == if start + share == 0 then n + 1 else n
  {
    if start + share == 0 {
      StrayNext(before, n, exit);
      n' := n + 1;
    } else {
      ExitPiecesShape(start, share, 1, exit);
      TilesNext(before, n, ExitPieces(start, share, 1, exit), start, start + share);
      n' := n;
    }
  }

  lemma {:induction false} OnePartPieces(exits: seq<Exit>, cuts: seq<nat>, i: nat) returns (n: nat)
    requires Divides(cuts, |exits|) && i <= |exits|
    ensures StraysThenTiles(PiecesUpTo(exits, cuts, 1, i), n, cuts[i])
    ensures n > 0 <==> i > 0 && cuts[1] == 0
  {
    if i == 0 {
      n := 0;
    } else {
      var before := OnePartPieces(exits, cuts, i - 1);
      assert cuts[1] <= cuts[i];
      n := OnePartNext(PiecesUpTo(exits, cuts, 1, i - 1), before, cuts[i - 1], cuts[i] - cuts[i - 1], exits[i - 1].id);
    }
  }

  lemma {:induction false} StraysAbsorbed(ps: seq<Piece>, n: nat, m: MinSegment, size: FileSize)
    requires n <= |ps| && Strays(ps[..n]) && Ordered(ps) && m >= 2
    requires Tiles(ps[n..], 0, size)
    ensures Ordered(ps[n..]) && Merged(ps, m) == Merged(ps[n..], m)
  {
    OrderedTail(ps, n);
    if n > 0 {
      OrderedTail(ps, 1);
      assert ps == [ps[0]] + ps[1..] && ps[1..][n - 1..] == ps[n..];
      assert ps[..n][0] == ps[0];
      assert ps[1..][..n - 1] == ps[..n][1..];
      StraysAbsorbed(ps[1..], n - 1, m, size);
      assert ps[1..] != [] && ps[1].range.start == 0 by {
        if n > 1 {
          assert ps[..n][1].range == Range(0, 0);
        } else {
          assert ps[1..] == ps[n..];
        }
      }
      SpuriousAbsorbed(ps[0], ps[1..], m, size);
    } else {
      assert ps[0..] == ps;
    }
  }

  lemma {:induction false} NoTinyRuns(ps: seq<Piece>, j: nat)
    requires j <= |ps|
    ensures RunStart(ps, 1, j) == j
  {
    if j > 0 {
      NoTinyRuns(ps, j - 1);
    }
  }

  lemma CapacityAtMost(exits: seq<Exit>, size: FileSize, m: MinSegment)
    requires exits != []
    ensures |UsedExits(exits, size, m)| <= |exits|
  {
  }

  /**
    With one part per exit a plan exists for all weights when the minimum segment is at least two bytes; with a
    minimum of one byte, exactly when the first exit's share is not empty.
  */
  lemma OnePartPlansIff(exits: seq<Exit>, size: FileSize, partsPerExit: Parts, m: MinSegment)
    requires exits != [] && EffectiveParts(|UsedExits(exits, size, m)|, size, partsPerExit, m) == 1
    ensures Plannable(exits, size, partsPerExit, m)
        <==> m >= 2 || ShareOf(UsedExits(exits, size, m), size, 0) >= 1
    ensures |exits| <= TWO32 ==>
              (Succeeds(exits, size, partsPerExit, m)
               <==> m >= 2 || ShareOf(UsedExits(exits, size, m), size, 0) >= 1)
  {
    CapacityAtMost(exits, size, m);
    FewParts(exits, size, partsPerExit, m);
    var used := UsedExits(exits, size, m);
    var ps := Assignments(exits, size, partsPerExit, m);
    AssignmentsOrdered(exits, size, partsPerExit, m);
    CutsDivide(used, size);
    assert Cuts(used, size)[1] == ShareOf(used, size, 0);
    var n := OnePartPieces(used, Cuts(used, size), |used|);
    assert StraysThenTiles(ps, n, size);
    if n == 0 {
      assert ps[0..] == ps;
      TilingIsPlannable(exits, size, partsPerExit, m);
    } else if m >= 2 {
      StraysAbsorbed(ps, n, m, size);
      TilesBounds(ps[n..], 0, size);
      MergedShape(ps[n..], m, 0, size, size);
      PlannableIff(exits, size, partsPerExit, m);
    } else {
      assert ps[..n][0] == ps[0];
      assert ps[n..] != [];
      assert ps[1].range.start == 0 by {
        if n > 1 {
          assert ps[..n][1].range == Range(0, 0);
        } else {
          assert ps[n..][0] == ps[1];
        }
      }
      NoTinyRuns(ps, 1);
      NoTinyRuns(ps, |ps|);
      assert BeginsRun(ps, 1, 1) && !Adjacent(ps, 1);
    }
  }

  // ----- several parts per exit

  /** Every exit has either no bytes at all or at least one for each of its parts. */
  predicate WholeShares(used: seq<Exit>, size: FileSize, parts: Parts) {
    forall i :: 0 <= i < |used| ==> ShareOf(used, size, i) == 0 || ShareOf(used, size, i) >= parts
  }

  lemma NextWhole(parts: Parts, before: seq<Piece>, start: nat, share: nat, exit: ExitId)
    requires start + share < TWO64 && parts >= 2 && (share == 0 || share >= parts) && Tiles(before, 0, start)
    ensures Tiles(before + ExitPieces(start, share, parts, exit), 0, start + share)
  {
    if share == 0 {
      assert before + ExitPieces(start, share, parts, exit) == before;
    } else {
      NextShareTiles(parts, before, start, share, exit);
    }
  }

  lemma {:induction false} WholeSharesTile(exits: seq<Exit>, cuts: seq<nat>, parts: Parts, i: nat)
    requires Divides(cuts, |exits|) && i <= |exits| && parts >= 2
    requires forall k :: 0 <= k < i ==> cuts[k + 1] == cuts[k] || cuts[k + 1] - cuts[k] >= parts
    ensures Tiles(PiecesUpTo(exits, cuts, parts, i), 0, cuts[i])
  {
    if i > 0 {
      WholeSharesTile(exits, cuts, parts, i - 1);
      assert cuts[i - 1 + 1] == cuts[i - 1] || cuts[i - 1 + 1] - cuts[i - 1] >= parts;
      NextWhole(parts, PiecesUpTo(exits, cuts, parts, i - 1), cuts[i - 1], cuts[i] - cuts[i - 1], exits[i - 1].id);
    }
  }

  /** With several parts per exit, whole shares are enough, whatever the minimum segment is. */
  lemma WholeSharesPlan(exits: seq<Exit>, size: FileSize, partsPerExit: Parts, m: MinSegment)
    requires exits != []
    requires var used := UsedExits(exits, size, m);
             var parts := EffectiveParts(|used|, size, partsPerExit, m);
             parts >= 2 && WholeShares(used, size, parts)
    ensures Plannable(exits, size, partsPerExit, m)
    ensures size / m <= TWO32 ==> Succeeds(exits, size, partsPerExit, m)
  {
    var used := UsedExits(exits, size, m);
    var parts := EffectiveParts(|used|, size, partsPerExit, m);
    var cuts := Cuts(used, size);
    CutsDivide(used, size);
    forall k | 0 <= k < |used|
      ensures cuts[k + 1] == cuts[k] || cuts[k + 1] - cuts[k] >= parts
    {
      assert ShareOf(used, size, k) == cuts[k + 1] - cuts[k];
    }
    WholeSharesTile(used, cuts, parts, |used|);
    TilingIsPlannable(exits, size, partsPerExit, m);
    if size / m <= TWO32 {
      FewSegments(exits, size, partsPerExit, m);
    }
  }

  /** Exits without bytes have no pieces. */
  lemma {:induction false} NoBytesNoPieces(exits: seq<Exit>, cuts: seq<nat>, parts: Parts, i: nat)
    requires Divides(cuts, |exits|) && i <= |exits| && parts >= 2 && cuts[i] == 0
    ensures PiecesUpTo(exits, cuts, parts, i) == []
  {
    if i > 0 {
      assert cuts[i - 1] <= cuts[i];
      NoBytesNoPieces(exits, cuts, parts, i - 1);
    }
  }

  lemma CoveredByOne(a: seq<Piece>, b: seq<Piece>, byte: int)
    requires Covered(a + b, byte)
    ensures Covered(a, byte) || Covered(b, byte)
  {
    var i :| 0 <= i < |a + b| && Holds((a + b)[i], byte);
    if i < |a| {
      assert Holds(a[i], byte);
    } else {
      assert Holds(b[i - |a|], byte);
    }
  }

  lemma NotBefore(exits: seq<Exit>, cuts: seq<nat>, parts: Parts, i: nat)
    requires Divides(cuts, |exits|) && i <= |exits| && parts >= 2
    ensures !Covered(PiecesUpTo(exits, cuts, parts, i), cuts[i])
  {
    PiecesOrdered(exits, cuts, parts, i);
    if cuts[i] == 0 {
      NoBytesNoPieces(exits, cuts, parts, i);
    }
  }

  /** The bytes of an exit with fewer bytes than parts are in no piece. */
  lemma {:induction false} ShortShareLost(exits: seq<Exit>, cuts: seq<nat>, parts: Parts, i: nat, n: nat)
    requires Divides(cuts, |exits|) && i < n <= |exits| && 0 < cuts[i + 1] - cuts[i] < parts
    ensures !Covered(PiecesUpTo(exits, cuts, parts, n), cuts[i])
  {
    var start, end, exit := cuts[n - 1], cuts[n], exits[n - 1].id;
    if n == i + 1 {
      NotBefore(exits, cuts, parts, i);
      assert ExitPieces(start, end - start, parts, exit) == [];
    } else {
      ShortShareLost(exits, cuts, parts, i, n - 1);
      assert cuts[i + 1] <= start;
      ExitPiecesShape(start, end - start, parts, exit);
    }
    if Covered(PiecesUpTo(exits, cuts, parts, n), cuts[i]) {
      CoveredByOne(PiecesUpTo(exits, cuts, parts, n - 1), ExitPieces(start, end - start, parts, exit), cuts[i]);
    }
  }

  lemma LengthsPositive(ps: seq<Piece>)
    requires Ordered(ps)
    ensures Merged(ps, 1) == ps
  {
    NoTinyGreedy(ps, 1);
  }

  lemma UnmergedTiles(exits: seq<Exit>, size: FileSize, partsPerExit: Parts)
    requires Plannable(exits, size, partsPerExit, 1)
    ensures Tiles(Assignments(exits, size, partsPerExit, 1), 0, size)
  {
    PlannableIff(exits, size, partsPerExit, 1);
    AssignmentsOrdered(exits, size, partsPerExit, 1);
    LengthsPositive(Assignments(exits, size, partsPerExit, 1));
  }

  /** With several parts per exit and no minimum segment, whole shares are also necessary. */
  lemma WholeSharesIff(exits: seq<Exit>, size: FileSize, partsPerExit: Parts)
    requires exits != [] && EffectiveParts(|UsedExits(exits, size, 1)|, size, partsPerExit, 1) >= 2
    ensures var used := UsedExits(exits, size, 1);
            Plannable(exits, size, partsPerExit, 1)
            <==> WholeShares(used, size, EffectiveParts(|used|, size, partsPerExit, 1))
  {
    var used := UsedExits(exits, size, 1);
    var parts := EffectiveParts(|used|, size, partsPerExit, 1);
    var cuts, ps := Cuts(used, size), Assignments(exits, size, partsPerExit, 1);
    CutsDivide(used, size);
    if WholeShares(used, size, parts) {
      WholeSharesPlan(exits, size, partsPerExit, 1);
    } else if Plannable(exits, size, partsPerExit, 1) {
      var i :| 0 <= i < |used| && ShareOf(used, size, i) != 0 && ShareOf(used, size, i) < parts;
      assert ShareOf(used, size, i) == cuts[i + 1] - cuts[i];
      assert cuts[i] <= cuts[i + 1] <= cuts[|used|];
      ShortShareLost(used, cuts, parts, i, |used|);
      UnmergedTiles(exits, size, partsPerExit);
      TilesCover(ps, 0, size);
    }
  }

  // ----- shares too small for their parts

  lemma LaterPieces(before: seq<Piece>, start: nat, share: nat, parts: Parts, exit: ExitId, low: nat)
    requires start + share < TWO64 && low <= start && StartsFrom(before, low)
    ensures StartsFrom(before + ExitPieces(start, share, parts, exit), low)
  {
    ExitPiecesShape(start, share, parts, exit);
  }

  lemma {:induction false} ShortFirst(exits: seq<Exit>, cuts: seq<nat>, parts: Parts, i: nat)
    requires Divides(cuts, |exits|) && 1 <= i <= |exits|
    requires 1 <= cuts[1] < parts
    ensures StartsFrom(PiecesUpTo(exits, cuts, parts, i), cuts[1])
  {
    if i == 1 {
      assert PiecesUpTo(exits, cuts, parts, 0) == [];
    } else {
      ShortFirst(exits, cuts, parts, i - 1);
      LaterPieces(PiecesUpTo(exits, cuts, parts, i - 1), cuts[i - 1], cuts[i] - cuts[i - 1], parts,
                  exits[i - 1].id, cuts[1]);
    }
  }

  /** A first exit with some bytes, but fewer than its parts, leaves a gap that no merge can close. */
  lemma ShortFirstFails(exits: seq<Exit>, size: FileSize, partsPerExit: Parts, m: MinSegment)
    requires exits != []
    requires var used := UsedExits(exits, size, m);
             1 <= ShareOf(used, size, 0) < EffectiveParts(|used|, size, partsPerExit, m)
    ensures !Plannable(exits, size, partsPerExit, m)
  {
    var used := UsedExits(exits, size, m);
    CutsDivide(used, size);
    assert Cuts(used, size)[1] == ShareOf(used, size, 0);
    ShortFirst(used, Cuts(used, size), EffectiveParts(|used|, size, partsPerExit, m), |used|);
  }

  lemma EarlyEnd(ps: seq<Piece>, to: nat, size: FileSize)
    requires EndsBefore(ps, to) && to < size
    ensures ps != [] ==> EndsAt(ps, size) ==> size == 1 && ps[0].range.start == 0 && ps[|ps| - 1].range == Range(0, 0)
  {
  }

  /** Neither can the gap that a last exit with fewer bytes than parts leaves. */
  lemma ShortLastFails(exits: seq<Exit>, size: FileSize, partsPerExit: Parts, m: MinSegment)
    requires exits != []
    requires var used := UsedExits(exits, size, m);
             ShareOf(used, size, |used| - 1) < EffectiveParts(|used|, size, partsPerExit, m)
    ensures !Plannable(exits, size, partsPerExit, m)
  {
    var used := UsedExits(exits, size, m);
    var parts := EffectiveParts(|used|, size, partsPerExit, m);
    var n, cuts := |used| - 1, Cuts(used, size);
    CutsDivide(used, size);
    PiecesOrdered(used, cuts, parts, n);
    assert cuts[n + 1] - cuts[n] == ShareOf(used, size, n);
    assert Assignments(exits, size, partsPerExit, m) == PiecesUpTo(used, cuts, parts, n);
    EarlyEnd(PiecesUpTo(used, cuts, parts, n), cuts[n], size);
  }

  /** Weights 1 and 99, a file of 100 bytes and two parts per exit: the first exit's byte is lost. */
  lemma SkewedWeightsFail()
    ensures var exits := [Exit(1, 1), Exit(2, 99)];
            !Plannable(exits, 100, 2, 1)
  {
    var exits := [Exit(1, 1), Exit(2, 99)];
    assert Remaining(exits, 100, 1) == exits;
    SortOfSorted(LowerId(), exits);
    assert UsedExits(exits, 100, 1) == exits;
    assert PrefixWeight(exits, 0) == 0 && PrefixWeight(exits, 1) == 1 && TotalWeight(exits) == 100;
    assert FloorShare(exits, 100, 0) == 1;
    assert Boundary(exits, 100, 0) == 0 && Boundary(exits, 100, 1) == 1;
    ShortFirstFails(exits, 100, 2, 1);
  }

  /** Weights 1 and 99, a file of 10 bytes and one part per exit: the first exit leaves a stray byte. */
  lemma StrayByteFails()
    ensures var exits := [Exit(1, 1), Exit(2, 99)];
            !Plannable(exits, 10, 1, 1)
  {
    var exits := [Exit(1, 1), Exit(2, 99)];
    assert Remaining(exits, 10, 1) == exits;
    SortOfSorted(LowerId(), exits);
    assert UsedExits(exits, 10, 1) == exits;
    assert PrefixWeight(exits, 0) == 0 && PrefixWeight(exits, 1) == 1 && TotalWeight(exits) == 100;
    assert FloorShare(exits, 10, 0) == 0;
    assert Boundary(exits, 10, 0) == 0 && Boundary(exits, 10, 1) == 0;
    OnePartPlansIff(exits, 10, 1, 1);
  }

  // ----- more pieces than numbers

  lemma OneExit(exit: Exit, size: FileSize, partsPerExit: Parts)
    requires size >= partsPerExit
    ensures UsedExits([exit], size, 1) == [exit] && EffectiveParts(1, size, partsPerExit, 1) == partsPerExit
    ensures Assignments([exit], size, partsPerExit, 1) == OnExit(EvenRanges(0, size, partsPerExit), exit.id)
  {
    var used := [exit];
    assert Remaining(used, size, 1) == used;
    SortOfSorted(LowerId(), used);
    QuotientUnique(size, 1, size);
    var cuts := Cuts(used, size);
    CutsDivide(used, size);
    assert PiecesUpTo(used, cuts, partsPerExit, 0) == [];
  }

  lemma SplitTiles(size: FileSize, parts: Parts, exit: ExitId)
    requires size >= parts
    ensures Tiles(OnExit(EvenRanges(0, size, parts), exit), 0, size)
  {
    ExitPiecesShape(0, size, parts, exit);
  }

  lemma OneByteEach(exit: Exit, n: FileSize)
    ensures Tiles(Assignments([exit], n, n, 1), 0, n) && |Assignments([exit], n, n, 1)| == n
  {
    OneExit(exit, n, n);
    SplitTiles(n, n, exit.id);
  }

  /** One exit and a part for each of more than 2^32 bytes: the pieces fit, but there are too few numbers for them. */
  lemma TooManySegmentsFail(exit: Exit, n: int)
    requires TWO32 < n < TWO64
    ensures Plannable([exit], n, n, 1) && !Succeeds([exit], n, n, 1)
  {
    OneByteEach(exit, n);
    TilingIsPlannable([exit], n, n, 1);
    AssignmentsOrdered([exit], n, n, 1);
    LengthsPositive(Assignments([exit], n, n, 1));
  }
}
