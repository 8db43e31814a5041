/** Splitting a file across exits by weight, and each exit's share evenly into sub-pieces. */
module PlanSplit {
  import opened Common
  import opened PlanRanges

  type ExitWeight = n: int | 0 < n < TWO32 witness 1
  type FileSize = n: int | 0 < n < TWO64 witness 1
  type Parts = n: int | 0 < n < TWO64 witness 1

  datatype Exit = Exit(id: ExitId, weight: ExitWeight)

  // ----- even split of one share

  /** Where part `j` begins when the first `rem` parts have `base + 1` bytes and the others `base`. */
  function EvenStart(start: nat, base: nat, rem: nat, j: nat): nat {
    start + j * base + Min(j, rem)
  }

  ghost predicate Spread(r: seq<ByteRange>, start: nat, parts: Parts, base: nat, rem: nat) {
    && |r| == parts
    && forall j :: 0 <= j < parts ==>
         r[j].start == EvenStart(start, base, rem, j) && Len(r[j]) == base + (if j < rem then 1 else 0)
  }

  /** `r` splits `len` bytes from `start` into parts that differ by at most one byte, the longer ones first. */
  ghost predicate EvenlySplit(r: seq<ByteRange>, start: nat, len: nat, parts: Parts) {
    Spread(r, start, parts, len / parts, len % parts)
  }

  lemma EvenStep(start: nat, base: nat, rem: nat, j: nat)
    ensures EvenStart(start, base, rem, j + 1)
         == EvenStart(start, base, rem, j) + base + (if j < rem then 1 else 0)
  {
    Distribute(j, 1, base);
  }

  /** The parts end exactly where the stretch ends, and none begins beyond. */
  lemma EvenEnd(start: nat, len: nat, parts: Parts, j: nat)
    requires j <= parts
    ensures EvenStart(start, len / parts, len % parts, j) <= start + len
    ensures j == parts ==> EvenStart(start, len / parts, len % parts, j) == start + len
  {
    QuotientBounds(len, parts);
    var base, rem := len / parts, len % parts;
    assert len == parts * base + rem;
    ProductMonotone(j, parts, base);
  }

  lemma QuotientZero(len: nat, parts: Parts)
    ensures len < parts ==> len / parts == 0 && len % parts == len
    ensures len >= parts ==> len / parts >= 1
  {
    QuotientBounds(len, parts);
    if len < parts {
      QuotientUnique(len, parts, 0);
      assert len == 0 * parts + len % parts;
    } else {
      CancelStrict(1, len / parts + 1, parts);
    }
  }

  /** In plain words: the pieces fill the stretch from end to end, and each is as long as the next or a byte longer. */
  ghost predicate FillsEvenly(r: seq<ByteRange>, start: int, endInclusive: int) {
    && r != [] && r[0].start == start && r[|r| - 1].endInclusive == endInclusive
    && (forall j :: 0 <= j < |r| - 1 ==> r[j + 1].start == r[j].endInclusive + 1)
    && forall i, j :: 0 <= i < j < |r| ==> Len(r[j]) <= Len(r[i]) <= Len(r[j]) + 1
  }

  lemma EvenFills(r: seq<ByteRange>, start: nat, len: nat, parts: Parts)
    requires EvenlySplit(r, start, len, parts)
    ensures FillsEvenly(r, start, start + len - 1)
  {
    var base, rem := len / parts, len % parts;
    EvenEnd(start, len, parts, parts);
    EvenStep(start, base, rem, parts - 1);
    forall j | 0 <= j < |r| - 1
      ensures r[j + 1].start == r[j].endInclusive + 1
    {
      EvenStep(start, base, rem, j);
    }
  }

  /** A stretch shorter than the number of parts yields nothing at all. */
  method EvenSubsplit(start: U64, endInclusive: U64, parts: Parts) returns (out: seq<ByteRange>)
    requires start <= endInclusive < TWO64 - 1
    ensures var len := endInclusive - start + 1;
            if len < parts then out == [] else EvenlySplit(out, start, len, parts)
    ensures endInclusive - start + 1 >= parts ==> |out| == parts && FillsEvenly(out, start, endInclusive)
  {
    var totalLen: U64 := endInclusive - start + 1;
    QuotientBounds(totalLen, parts);
    QuotientZero(totalLen, parts);
    var base: U64 := totalLen / parts;
    var remainder: U64 := totalLen % parts;
    out := [];
    var cursor: U64 := start;
    for i := 0 to parts
      invariant |out| == i && cursor == EvenStart(start, base, remainder, i)
      invariant totalLen < parts ==> i <= totalLen
      invariant forall j :: 0 <= j < i ==> out[j].start == EvenStart(start, base, remainder, j)
      invariant forall j :: 0 <= j < i ==> Len(out[j]) == base + (if j < remainder then 1 else 0)
    {
      EvenStep(start, base, remainder, i);
      EvenEnd(start, totalLen, parts, i + 1);
      var len: U64 := base + if i < remainder then 1 else 0;
      var rangeEnd: U64 := cursor + len - 1;
      var range := TryNew(cursor, rangeEnd);
      if range.None? {
        return [];
      }
      out := out + [range.value];
      cursor := rangeEnd + 1;
    }
    if totalLen >= parts {
      EvenFills(out, start, totalLen, parts);
    }
  }

  function OnExit(r: seq<ByteRange>, exit: ExitId): (ps: seq<Piece>)
    ensures |ps| == |r| && forall j :: 0 <= j < |r| ==> ps[j] == Piece(r[j], exit)
  {
    seq(|r|, j requires 0 <= j < |r| => Piece(r[j], exit))
  }

  lemma {:induction false} SpreadTiles(r: seq<ByteRange>, start: nat, parts: Parts, base: nat, rem: nat,
                                       exit: ExitId, k: nat)
    requires Spread(r, start, parts, base, rem) && k <= parts
    ensures Tiles(OnExit(r, exit)[k..], EvenStart(start, base, rem, k), EvenStart(start, base, rem, parts))
    decreases parts - k
  {
    var ps := OnExit(r, exit);
    if k == parts {
      assert ps[k..] == [];
    } else {
      EvenStep(start, base, rem, k);
      SpreadTiles(r, start, parts, base, rem, exit, k + 1);
      assert ps[k..][1..] == ps[k + 1..];
    }
  }

  /** An even split tiles its stretch. */
  lemma EvenTiles(r: seq<ByteRange>, start: nat, len: nat, parts: Parts, exit: ExitId)
    requires EvenlySplit(r, start, len, parts)
    ensures Tiles(OnExit(r, exit), start, start + len)
  {
    SpreadTiles(r, start, parts, len / parts, len % parts, exit, 0);
    EvenEnd(start, len, parts, parts);
    assert OnExit(r, exit)[0..] == OnExit(r, exit);
  }

  // ----- weighted split across exits

  function PrefixWeight(exits: seq<Exit>, i: nat): nat
    requires i <= |exits|
  {
    if i == 0 then 0 else PrefixWeight(exits, i - 1) + exits[i - 1].weight
  }

  function TotalWeight(exits: seq<Exit>): nat {
    PrefixWeight(exits, |exits|)
  }

  lemma {:induction false} PrefixWeightGrows(exits: seq<Exit>, i: nat, j: nat)
    requires i <= j <= |exits|
    ensures PrefixWeight(exits, i) + (j - i) <= PrefixWeight(exits, j)
  {
    if i < j {
      PrefixWeightGrows(exits, i, j - 1);
    }
  }

  lemma TotalWeightPositive(exits: seq<Exit>)
    ensures exits != [] ==> TotalWeight(exits) > 0
  {
    PrefixWeightGrows(exits, 0, |exits|);
  }

  /** The share of exit `i` rounded down to whole bytes. */
  function FloorShare(exits: seq<Exit>, size: FileSize, i: nat): nat
    requires i < |exits|
  {
    TotalWeightPositive(exits);
    QuotientBounds(size * exits[i].weight, TotalWeight(exits));
    size * exits[i].weight / TotalWeight(exits)
  }

  /** The first byte of exit `i`, were every exit given its rounded share. */
  function FloorStart(exits: seq<Exit>, size: FileSize, i: nat): nat
    requires i <= |exits|
  {
    if i == 0 then 0 else FloorStart(exits, size, i - 1) + FloorShare(exits, size, i - 1)
  }

  /** Where exit `i` begins; exit `|exits|` begins at the end of the file. */
  function Boundary(exits: seq<Exit>, size: FileSize, i: nat): nat
    requires i <= |exits|
  {
    if i == |exits| then size else FloorStart(exits, size, i)
  }

  /** The bytes of exit `i`: its rounded share, or for the last exit everything that is left. */
  function ShareOf(exits: seq<Exit>, size: FileSize, i: nat): int
    requires i < |exits|
  {
    Boundary(exits, size, i + 1) - Boundary(exits, size, i)
  }

  lemma {:induction false} FloorStartBounds(exits: seq<Exit>, size: FileSize, i: nat)
    requires i <= |exits|
    ensures FloorStart(exits, size, i) * TotalWeight(exits) <= size * PrefixWeight(exits, i)
    ensures size * PrefixWeight(exits, i) <= (FloorStart(exits, size, i) + i) * TotalWeight(exits)
  {
    if i > 0 {
      FloorStartBounds(exits, size, i - 1);
      TotalWeightPositive(exits);
      var w := TotalWeight(exits);
      var before, share := FloorStart(exits, size, i - 1), FloorShare(exits, size, i - 1);
      var exit := exits[i - 1];
      QuotientBounds(size * exit.weight, w);
      Distribute(before, share, w);
      Distribute(PrefixWeight(exits, i - 1), exit.weight, size);
      Distribute(before + (i - 1), share + 1, w);
    }
  }

  /** The last exit always has bytes, so the shares fill the file exactly. */
  lemma LastShare(exits: seq<Exit>, size: FileSize)
    requires exits != []
    ensures 0 <= FloorStart(exits, size, |exits| - 1) < size
    ensures ShareOf(exits, size, |exits| - 1) >= 1
  {
    var n := |exits| - 1;
    FloorStartBounds(exits, size, n);
    var w, x := TotalWeight(exits), FloorStart(exits, size, n);
    ProductStrict(PrefixWeight(exits, n), w, size);
    CancelStrict(x, size, w);
  }

  /** Proportional up to rounding: the last exit gets fewer than |exits| bytes beyond its own rounded share. */
  lemma LastShareExcess(exits: seq<Exit>, size: FileSize)
    requires exits != []
    ensures var n := |exits| - 1;
            FloorShare(exits, size, n) <= ShareOf(exits, size, n) < FloorShare(exits, size, n) + |exits|
  {
    var n := |exits| - 1;
    var w, x, share := TotalWeight(exits), FloorStart(exits, size, n), FloorShare(exits, size, n);
    TotalWeightPositive(exits);
    FloorStartBounds(exits, size, n);
    FloorStartBounds(exits, size, n + 1);
    QuotientBounds(size * exits[n].weight, w);
    CancelAtMost(x + share, size, w);
    Distribute(PrefixWeight(exits, n), exits[n].weight, size);
    Distribute(x + n, share + 1, w);
    CancelStrict(size, x + n + share + 1, w);
  }

  lemma {:induction false} FloorStartMonotone(exits: seq<Exit>, size: FileSize, i: nat, j: nat)
    requires i <= j <= |exits|
    ensures FloorStart(exits, size, i) <= FloorStart(exits, size, j)
  {
    if i < j {
      FloorStartMonotone(exits, size, i, j - 1);
    }
  }

  lemma {:induction false} BoundaryMonotone(exits: seq<Exit>, size: FileSize, i: nat, j: nat)
    requires i <= j <= |exits| && exits != []
    ensures Boundary(exits, size, i) <= Boundary(exits, size, j)
    ensures i < |exits| ==> Boundary(exits, size, i) < size
    decreases j - i
  {
    LastShare(exits, size);
    FloorStartMonotone(exits, size, i, if i < |exits| then |exits| - 1 else i);
    if j < |exits| {
      FloorStartMonotone(exits, size, i, j);
    }
  }

  /** All boundaries: exit `i` has the bytes from cut `i` up to, not including, cut `i + 1`. */
  function Cuts(exits: seq<Exit>, size: FileSize): (cuts: seq<nat>)
    ensures |cuts| == |exits| + 1
    ensures forall i :: 0 <= i <= |exits| ==> cuts[i] == Boundary(exits, size, i)
  {
    seq(|exits| + 1, i requires 0 <= i <= |exits| => Boundary(exits, size, i))
  }

  /** `cuts` divides a file among `n` exits, the last of which gets some bytes. */
  ghost predicate Divides(cuts: seq<nat>, n: nat) {
    && |cuts| == n + 1 && n > 0
    && cuts[0] == 0 && cuts[n - 1] < cuts[n] < TWO64
    && forall i, j :: 0 <= i <= j <= n ==> cuts[i] <= cuts[j]
  }

  lemma CutsDivide(exits: seq<Exit>, size: FileSize)
    requires exits != []
    ensures Divides(Cuts(exits, size), |exits|)
  {
    var cuts := Cuts(exits, size);
    LastShare(exits, size);
    forall i, j | 0 <= i <= j <= |exits|
      ensures cuts[i] <= cuts[j]
    {
      BoundaryMonotone(exits, size, i, j);
    }
  }
}
