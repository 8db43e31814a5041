/** The pieces the planner assigns before merging, exit by exit. */
module PlanPieces {
  import opened Common
  import opened PlanRanges
  import opened PlanSplit

  function EvenRange(start: nat, len: nat, parts: Parts, j: nat): (r: ByteRange)
    requires len >= parts && start + len < TWO64 && j < parts
    ensures r.start == EvenStart(start, len / parts, len % parts, j)
    ensures Len(r) == len / parts + (if j < len % parts then 1 else 0)
  {
    EvenStep(start, len / parts, len % parts, j);
    EvenEnd(start, len, parts, j + 1);
    QuotientZero(len, parts);
    Range(EvenStart(start, len / parts, len % parts, j), EvenStart(start, len / parts, len % parts, j + 1) - 1)
  }

  function EvenRanges(start: nat, len: nat, parts: Parts): seq<ByteRange>
    requires len >= parts && start + len < TWO64
  {
    seq(parts, j requires 0 <= j < parts => EvenRange(start, len, parts, j))
  }

  lemma EvenRangesSplit(start: nat, len: nat, parts: Parts)
    requires len >= parts && start + len < TWO64
    ensures EvenlySplit(EvenRanges(start, len, parts), start, len, parts)
  {
  }

  lemma SpreadUnique(a: seq<ByteRange>, b: seq<ByteRange>, start: nat, parts: Parts, base: nat, rem: nat)
    requires Spread(a, start, parts, base, rem) && Spread(b, start, parts, base, rem)
    ensures a == b
  {
    forall j | 0 <= j < parts
      ensures a[j] == b[j]
    {
    }
  }

  /**
    What the split hands to one exit. A share smaller than the number of parts yields nothing; an empty
    share at the very start of the file yields a stray first byte when there is only one part.
  */
  function ExitPieces(start: nat, share: nat, parts: Parts, exit: ExitId): seq<Piece>
    requires start + share < TWO64
  {
    if share >= parts then OnExit(EvenRanges(start, share, parts), exit)
    else if start == 0 && share == 0 && parts == 1 then [Piece(Range(0, 0), exit)]
    else []
  }

  /** The pieces of the first `i` exits. */
  function PiecesUpTo(exits: seq<Exit>, cuts: seq<nat>, parts: Parts, i: nat): seq<Piece>
    requires Divides(cuts, |exits|) && i <= |exits|
  {
    if i == 0 then []
    else
      PiecesUpTo(exits, cuts, parts, i - 1)
      + ExitPieces(cuts[i - 1], cuts[i] - cuts[i - 1], parts, exits[i - 1].id)
  }

  /** A split into one part is the whole stretch. */
  lemma SinglePart(r: seq<ByteRange>, start: nat, len: nat)
    requires EvenlySplit(r, start, len, 1) && 0 < len && start + len < TWO64
    ensures r == [Range(start, start + len - 1)]
  {
    QuotientUnique(len, 1, len);
    assert len == len / 1 * 1 + len % 1;
    assert r[0].start == EvenStart(start, len, 0, 0) && Len(r[0]) == len;
  }

  lemma AssignShare(start: U64, len: nat, parts: Parts, exit: ExitId, ranges: seq<ByteRange>)
    requires len > 0 && start + len < TWO64
    requires if len < parts then ranges == [] else EvenlySplit(ranges, start, len, parts)
    ensures OnExit(ranges, exit) == ExitPieces(start, len, parts, exit)
  {
    if len >= parts {
      EvenRangesSplit(start, len, parts);
      SpreadUnique(ranges, EvenRanges(start, len, parts), start, parts, len / parts, len % parts);
    }
  }

  lemma AssignNothing(parts: Parts, exit: ExitId, ranges: seq<ByteRange>)
    requires if 1 < parts then ranges == [] else EvenlySplit(ranges, 0, 1, parts)
    ensures OnExit(ranges, exit) == ExitPieces(0, 0, parts, exit)
  {
    if parts == 1 {
      SinglePart(ranges, 0, 1);
    }
  }

  /** One exit's turn: bytes `start` up to, not including, `exitEnd`, where the next exit starts. */
  method AssignExit(start: U64, exitEnd: U64, parts: Parts, exit: ExitId) returns (pieces: seq<Piece>, next: U64)
    requires start <= exitEnd
    ensures pieces == ExitPieces(start, exitEnd - start, parts, exit)
    ensures next == exitEnd
  {
    var exitEndInclusive := SaturatingSub(exitEnd, 1);
    pieces, next := [], start;
    if exitEndInclusive >= start {
      var ranges := EvenSubsplit(start, exitEndInclusive, parts);
      if start < exitEnd {
        AssignShare(start, exitEnd - start, parts, exit, ranges);
      } else {
        AssignNothing(parts, exit, ranges);
      }
      pieces := OnExit(ranges, exit);
      next := exitEnd;
    }
  }

  /** The units of one exit over all units are its weight over all weights, however many parts there are. */
  lemma UnitsCancel(exits: seq<Exit>, size: FileSize, parts: Parts, i: nat)
    requires i < |exits|
    ensures TotalWeight(exits) * parts > 0
    ensures size * (exits[i].weight * parts) / (TotalWeight(exits) * parts) == FloorShare(exits, size, i)
  {
    TotalWeightPositive(exits);
    ScaleQuotient(size * exits[i].weight, TotalWeight(exits), parts);
    assert size * (exits[i].weight * parts) == size * exits[i].weight * parts;
  }

  /** The share of exit `i` as the planner computes it, from its units out of all units. */
  function UnitShare(exits: seq<Exit>, size: FileSize, parts: Parts, i: nat): (share: nat)
    requires i < |exits|
    ensures share == FloorShare(exits, size, i)
  {
    UnitsCancel(exits, size, parts, i);
    size * (exits[i].weight * parts) / (TotalWeight(exits) * parts)
  }

  /** Where exit `i` ends, when it begins at `cursor`; the last exit covers everything to the end. */
  method EndOfExit(exits: seq<Exit>, size: FileSize, parts: Parts, cursor: nat, i: nat) returns (endExclusive: nat)
    requires i < |exits| && cursor == Cuts(exits, size)[i]
    ensures endExclusive == Cuts(exits, size)[i + 1]
  {
    endExclusive := if i == |exits| - 1 then size else cursor + UnitShare(exits, size, parts, i);
  }

  lemma PiecesNext(exits: seq<Exit>, cuts: seq<nat>, parts: Parts, i: nat)
    requires Divides(cuts, |exits|) && i < |exits|
    ensures cuts[i] <= cuts[i + 1] < TWO64
    ensures PiecesUpTo(exits, cuts, parts, i + 1)
         == PiecesUpTo(exits, cuts, parts, i) + ExitPieces(cuts[i], cuts[i + 1] - cuts[i], parts, exits[i].id)
  {
    assert cuts[i + 1] <= cuts[|exits|];
  }

  /** One pass of the loop over the exits: exit `i` gets the bytes from its cut to the next one. */
  method AssignNext(exits: seq<Exit>, size: FileSize, parts: Parts, cursor: nat, start: U64, i: nat)
    returns (pieces: seq<Piece>, endExclusive: nat, next: U64)
    requires i < |exits| && Divides(Cuts(exits, size), |exits|)
    requires cursor == start == Cuts(exits, size)[i]
    ensures endExclusive == next == Cuts(exits, size)[i + 1]
    ensures PiecesUpTo(exits, Cuts(exits, size), parts, i + 1)
         == PiecesUpTo(exits, Cuts(exits, size), parts, i) + pieces
  {
    PiecesNext(exits, Cuts(exits, size), parts, i);
    endExclusive := EndOfExit(exits, size, parts, cursor, i);
    pieces, next := AssignExit(start, endExclusive, parts, exits[i].id);
  }

  method SplitAcrossExits(exits: seq<Exit>, size: FileSize, parts: Parts) returns (assignments: seq<Piece>)
    requires exits != []
    ensures Divides(Cuts(exits, size), |exits|)
    ensures assignments == PiecesUpTo(exits, Cuts(exits, size), parts, |exits|)
  {
    assignments := [];
    CutsDivide(exits, size);
    var cursor: nat := 0;
    var start: U64 := 0;
    for i := 0 to |exits|
      invariant assignments == PiecesUpTo(exits, Cuts(exits, size), parts, i)
      invariant cursor == start == Cuts(exits, size)[i]
    {
      var pieces;
      pieces, cursor, start := AssignNext(exits, size, parts, cursor, start, i);
      assignments := assignments + pieces;
    }
    // Nothing is left over here, so the fix-up that would extend the last assignment is never taken.
    assert start == size;
  }
}
