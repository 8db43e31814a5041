/** Plans, the check every plan has to pass, and the pieces the planner makes its plan of. */
module FetchPlans {
  import opened Common
  import opened Sequences
  import opened PlanRanges
  import opened PlanMerge
  import opened PlanSplit
  import opened PlanExits
  import opened PlanPieces

  datatype Segment = Segment(index: U32, range: ByteRange, exit: ExitId)

  datatype PlanError =
    | NoExits
    | TooManySegments
    | IndexOutOfOrder(index: U32)
    | GapOrOverlap(index: U32)
    | RangeEndOverflow
    | WrongCoverage(cursor: U64)

  function PieceOf(s: Segment): Piece {
    Piece(s.range, s.exit)
  }

  function PiecesOf(segments: seq<Segment>): (ps: seq<Piece>)
    ensures |ps| == |segments| && forall i :: 0 <= i < |ps| ==> ps[i] == PieceOf(segments[i])
  {
    seq(|segments|, i requires 0 <= i < |segments| => PieceOf(segments[i]))
  }

  /** Sequential indices, and the ranges tile the file. */
  ghost predicate ValidPlan(segments: seq<Segment>, size: FileSize) {
    && |segments| <= TWO32
    && (forall i :: 0 <= i < |segments| ==> segments[i].index == i)
    && Tiles(PiecesOf(segments), 0, size)
  }

  lemma {:induction false} TilesPrefix(ps: seq<Piece>, k: nat, from: int, cursor: int, to: int)
    requires k <= |ps| && Tiles(ps[..k], from, cursor)
    ensures Tiles(ps, from, to) <==> Tiles(ps[k..], cursor, to)
  {
    if k == 0 {
      assert ps[0..] == ps && ps[..0] == [];
    } else {
      assert ps[..k][1..] == ps[1..][..k - 1] && ps[1..][k - 1..] == ps[k..];
      TilesPrefix(ps[1..], k - 1, ps[0].range.endInclusive + 1, cursor, to);
    }
  }

  lemma TilesPush(ps: seq<Piece>, k: nat, from: int, cursor: int)
    requires k < |ps| && Tiles(ps[..k], from, cursor) && ps[k].range.start == cursor
    ensures Tiles(ps[..k + 1], from, ps[k].range.endInclusive + 1)
  {
    assert ps[..k + 1] == ps[..k] + [ps[k]];
    assert [ps[k]][1..] == [];
    TilesAppend(ps[..k], [ps[k]], from, cursor, ps[k].range.endInclusive + 1);
  }

  lemma FirstInside(ps: seq<Piece>, from: int, to: int)
    requires ps != []
    ensures Tiles(ps, from, to) ==> ps[0].range.endInclusive < to
  {
    if Tiles(ps, from, to) {
      TilesBounds(ps, from, to);
    }
  }

  method Validate(segments: seq<Segment>, size: FileSize) returns (r: Option<PlanError>)
    ensures r.None? <==> ValidPlan(segments, size)
  {
    ghost var ps := PiecesOf(segments);
    var cursor: U64 := 0;
    for i := 0 to |segments|
      invariant i <= TWO32
      invariant forall k :: 0 <= k < i ==> segments[k].index == k
      invariant Tiles(ps[..i], 0, cursor)
    {
      var seg := segments[i];
      if i >= TWO32 {
        return Some(TooManySegments);
      }
      if seg.index != i {
        return Some(IndexOutOfOrder(seg.index));
      }
      TilesPrefix(ps, i, 0, cursor, size);
      assert ps[i..][0] == ps[i];
      if seg.range.start != cursor {
        return Some(GapOrOverlap(seg.index));
      }
      if seg.range.endInclusive + 1 >= TWO64 {
        FirstInside(ps[i..], cursor, size);
        return Some(RangeEndOverflow);
      }
      TilesPush(ps, i, 0, cursor);
      cursor := seg.range.endInclusive + 1;
    }
    TilesPrefix(ps, |ps|, 0, cursor, size);
    assert ps[|ps|..] == [];
    if cursor != size {
      return Some(WrongCoverage(cursor));
    }
    r := None;
  }

  // ----- the pieces before merging

  /** No piece reaches byte `to`, but for the stray first byte. */
  ghost predicate EndsBefore(ps: seq<Piece>, to: nat) {
    forall i :: 0 <= i < |ps| ==> ps[i].range.endInclusive <= Max(to - 1, 0)
  }

  ghost predicate StartsFrom(ps: seq<Piece>, from: nat) {
    forall i :: 0 <= i < |ps| ==> from <= ps[i].range.start
  }

  lemma ExitPiecesShape(start: nat, share: nat, parts: Parts, exit: ExitId)
    requires start + share < TWO64
    ensures var ps := ExitPieces(start, share, parts, exit);
            && (share >= parts ==> Tiles(ps, start, start + share))
            && Ordered(ps) && StartsFrom(ps, start) && EndsBefore(ps, start + share)
  {
    if share >= parts {
      EvenRangesSplit(start, share, parts);
      EvenTiles(EvenRanges(start, share, parts), start, share, parts, exit);
      TilesBounds(ExitPieces(start, share, parts, exit), start, start + share);
    }
  }

  lemma OrderedAppend(a: seq<Piece>, b: seq<Piece>, start: nat, end: nat)
    requires Ordered(a) && Ordered(b) && start <= end
    requires EndsBefore(a, start) && StartsFrom(b, start) && EndsBefore(b, end)
    ensures Ordered(a + b) && EndsBefore(a + b, end)
  {
  }

  /** Whatever the weights, the pieces never step backwards. */
  lemma {:induction false} PiecesOrdered(exits: seq<Exit>, cuts: seq<nat>, parts: Parts, i: nat)
    requires Divides(cuts, |exits|) && i <= |exits|
    ensures Ordered(PiecesUpTo(exits, cuts, parts, i))
    ensures EndsBefore(PiecesUpTo(exits, cuts, parts, i), cuts[i])
  {
    if i > 0 {
      PiecesOrdered(exits, cuts, parts, i - 1);
      var start, end, exit := cuts[i - 1], cuts[i], exits[i - 1].id;
      ExitPiecesShape(start, end - start, parts, exit);
      OrderedAppend(PiecesUpTo(exits, cuts, parts, i - 1), ExitPieces(start, end - start, parts, exit), start, end);
    }
  }

  // ----- what is planned

  /** The number of parts per exit actually used: one when the file is too small for more. */
  function EffectiveParts(n: nat, size: FileSize, partsPerExit: Parts, m: MinSegment): Parts
    requires n > 0
  {
    ProductStrict(0, n, m);
    if size / (n * m) >= partsPerExit then partsPerExit else 1
  }

  /** The exits used, in id order. */
  function UsedExits(exits: seq<Exit>, size: FileSize, m: MinSegment): (used: seq<Exit>)
    requires exits != []
    ensures |used| == Capacity(|exits|, size, m) > 0
  {
    RemainingIsTop(exits, size, m);
    Sort(LowerId(), Remaining(exits, size, m))
  }

  ghost predicate AscendingById(exits: seq<Exit>) {
    forall i, j :: 0 <= i < j < |exits| ==> exits[i].id <= exits[j].id
  }

  /** The exits used are the strongest, as many as can be fed, and in id order. */
  lemma UsedAreStrongest(exits: seq<Exit>, size: FileSize, m: MinSegment)
    requires exits != []
    ensures KeepsStrongest(exits, UsedExits(exits, size, m))
    ensures KeepsAsMany(|UsedExits(exits, size, m)|, |exits|, size, m)
    ensures AscendingById(UsedExits(exits, size, m))
  {
    var kept := Remaining(exits, size, m);
    RemainingAreStrongest(exits, size, m);
    RemainingIsTop(exits, size, m);
    KeepsStrongestRespects(exits, kept, UsedExits(exits, size, m));
    OrdersAreTotal();
    SortAscends(LowerId(), kept);
    var used := UsedExits(exits, size, m);
    forall i, j | 0 <= i < j < |used|
      ensures used[i].id <= used[j].id
    {
      assert LowerId()(used[i], used[j]);
    }
  }

  // ----- through which exits

  ghost predicate HasExit(exits: seq<Exit>, id: ExitId) {
    exists y :: y in exits && y.id == id
  }

  /** Every piece goes through one of these exits, and later pieces not through earlier ones. */
  ghost predicate GoThrough(ps: seq<Piece>, exits: seq<Exit>) {
    && (forall i :: 0 <= i < |ps| ==> HasExit(exits, ps[i].exit))
    && forall i, j :: 0 <= i < j < |ps| ==> ps[i].exit <= ps[j].exit
  }

  lemma AppendThrough(before: seq<Piece>, next: seq<Piece>, exits: seq<Exit>, i: nat)
    requires 0 < i <= |exits| && AscendingById(exits) && GoThrough(before, exits[..i - 1])
    requires forall k :: 0 <= k < |next| ==> next[k].exit == exits[i - 1].id
    ensures GoThrough(before + next, exits[..i])
  {
    var all := before + next;
    assert exits[..i] == exits[..i - 1] + [exits[i - 1]];
    forall k | 0 <= k < |all|
      ensures HasExit(exits[..i], all[k].exit)
    {
      if k < |before| {
        assert HasExit(exits[..i - 1], before[k].exit);
        var y :| y in exits[..i - 1] && y.id == before[k].exit;
        assert y in exits[..i];
      } else {
        assert exits[i - 1] in exits[..i];
      }
    }
    forall k | 0 <= k < |before|
      ensures before[k].exit <= exits[i - 1].id
    {
      assert HasExit(exits[..i - 1], before[k].exit);
      var y :| y in exits[..i - 1] && y.id == before[k].exit;
      var j :| 0 <= j < i - 1 && exits[..i - 1][j] == y;
      assert exits[j] == y;
    }
  }

  lemma {:induction false} PiecesGoThrough(exits: seq<Exit>, cuts: seq<nat>, parts: Parts, i: nat)
    requires Divides(cuts, |exits|) && i <= |exits| && AscendingById(exits)
    ensures GoThrough(PiecesUpTo(exits, cuts, parts, i), exits[..i])
  {
    if i > 0 {
      PiecesGoThrough(exits, cuts, parts, i - 1);
      var before := PiecesUpTo(exits, cuts, parts, i - 1);
      var next := ExitPieces(cuts[i - 1], cuts[i] - cuts[i - 1], parts, exits[i - 1].id);
      AppendThrough(before, next, exits, i);
    }
  }

  lemma {:induction false} GreedyThrough(ps: seq<Piece>, m: MinSegment, exits: seq<Exit>)
    requires Ordered(ps) && GoThrough(ps, exits)
    ensures GoThrough(Greedy(ps, m), exits)
    ensures forall k :: 0 <= k < |Greedy(ps, m)| ==> ps != [] && ps[0].exit <= Greedy(ps, m)[k].exit
    decreases |ps|
  {
    if |ps| > 1 {
      if Tiny(ps[0], m) {
        OrderedJoin(ps, 0, ps[1].exit);
        var next := [Joined(ps[0], ps[1], ps[1].exit)] + ps[2..];
        assert ps[..0] + [Joined(ps[0], ps[1], ps[1].exit)] + ps[2..] == next;
        GreedyThrough(next, m, exits);
      } else {
        OrderedTail(ps, 1);
        GreedyThrough(ps[1..], m, exits);
      }
    }
  }

  lemma MergedThrough(ps: seq<Piece>, m: MinSegment, exits: seq<Exit>)
    requires Ordered(ps) && GoThrough(ps, exits)
    ensures GoThrough(Merged(ps, m), exits)
  {
    GreedyThrough(ps, m, exits);
  }

  /** What is merged into the plan. */
  function Assignments(exits: seq<Exit>, size: FileSize, partsPerExit: Parts, m: MinSegment): seq<Piece>
    requires exits != []
  {
    var used := UsedExits(exits, size, m);
    CutsDivide(used, size);
    PiecesUpTo(used, Cuts(used, size), EffectiveParts(|used|, size, partsPerExit, m), |used|)
  }

  /** The pieces of the finished plan. */
  function PlannedPieces(exits: seq<Exit>, size: FileSize, partsPerExit: Parts, m: MinSegment): seq<Piece>
    requires exits != []
  {
    var used := UsedExits(exits, size, m);
    CutsDivide(used, size);
    PiecesOrdered(used, Cuts(used, size), EffectiveParts(|used|, size, partsPerExit, m), |used|);
    Merged(Assignments(exits, size, partsPerExit, m), m)
  }

  lemma WholeFile(used: seq<Exit>, size: FileSize)
    requires |used| == 1
    ensures Divides(Cuts(used, size), 1)
    ensures PiecesUpTo(used, Cuts(used, size), 1, 1) == [Piece(Range(0, size - 1), used[0].id)]
  {
    CutsDivide(used, size);
    var cuts := Cuts(used, size);
    assert PiecesUpTo(used, cuts, 1, 0) == [];
    var r := EvenRanges(0, size, 1);
    EvenRangesSplit(0, size, 1);
    SinglePart(r, 0, size);
    assert OnExit(r, used[0].id) == [Piece(Range(0, size - 1), used[0].id)];
  }

  /** The plan goes through the strongest exits only, in id order. */
  lemma PlanThroughStrongest(exits: seq<Exit>, size: FileSize, partsPerExit: Parts, m: MinSegment)
    requires exits != []
    ensures GoThrough(PlannedPieces(exits, size, partsPerExit, m), UsedExits(exits, size, m))
  {
    var used := UsedExits(exits, size, m);
    var parts := EffectiveParts(|used|, size, partsPerExit, m);
    UsedAreStrongest(exits, size, m);
    CutsDivide(used, size);
    PiecesOrdered(used, Cuts(used, size), parts, |used|);
    PiecesGoThrough(used, Cuts(used, size), parts, |used|);
    assert used[..|used|] == used;
    MergedThrough(Assignments(exits, size, partsPerExit, m), m, used);
  }
}
