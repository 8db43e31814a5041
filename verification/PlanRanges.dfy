/** Byte ranges, and what it means for pieces to tile a file. */
module PlanRanges {
  import opened Common

  type ExitId = n: int | 0 < n < 256 witness 1

  datatype RawRange = Range(start: U64, endInclusive: U64)

  /** A range with inclusive ends, as in section 14.1.2 of RFC 9110; never empty. */
  type ByteRange = r: RawRange | r.start <= r.endInclusive witness Range(0, 0)

  /** The checked constructor of a range; absent when it would be empty. */
  function TryNew(start: U64, endInclusive: U64): Option<ByteRange> {
    if endInclusive < start then None else Some(Range(start, endInclusive))
  }

  function Len(r: ByteRange): int {
    r.endInclusive - r.start + 1
  }

  /** One byte range assigned to one exit. */
  datatype Piece = Piece(range: ByteRange, exit: ExitId)

  /** The pieces follow each other without gap or overlap from byte `from` up to, not including, byte `to`. */
  ghost predicate Tiles(ps: seq<Piece>, from: int, to: int) {
    if ps == [] then from == to
    else ps[0].range.start == from && Tiles(ps[1..], ps[0].range.endInclusive + 1, to)
  }

  /** Neither ends of the ranges ever move backwards. */
  ghost predicate Ordered(ps: seq<Piece>) {
    forall i, j :: 0 <= i < j < |ps| ==>
      ps[i].range.start <= ps[j].range.start && ps[i].range.endInclusive <= ps[j].range.endInclusive
  }

  ghost predicate Holds(p: Piece, byte: int) {
    p.range.start <= byte <= p.range.endInclusive
  }

  ghost predicate Covered(ps: seq<Piece>, byte: int) {
    exists i :: 0 <= i < |ps| && Holds(ps[i], byte)
  }

  /** Every byte of the stretch is in exactly one piece, and the pieces hold no other byte. */
  ghost predicate ExactCover(ps: seq<Piece>, from: int, to: int) {
    && from <= to
    && (forall byte :: from <= byte < to <==> Covered(ps, byte))
    && (forall i, j, byte :: 0 <= i < j < |ps| && Holds(ps[i], byte) ==> !Holds(ps[j], byte))
  }

  lemma {:induction false} TilesBounds(ps: seq<Piece>, from: int, to: int)
    requires Tiles(ps, from, to)
    ensures from <= to
    ensures forall i :: 0 <= i < |ps| ==> from <= ps[i].range.start && ps[i].range.endInclusive < to
    ensures forall i, j :: 0 <= i < j < |ps| ==> ps[i].range.endInclusive < ps[j].range.start
    ensures Ordered(ps)
  {
    if ps != [] {
      TilesBounds(ps[1..], ps[0].range.endInclusive + 1, to);
    }
  }

  lemma {:induction false} TilesAppend(a: seq<Piece>, b: seq<Piece>, from: int, mid: int, to: int)
    requires Tiles(a, from, mid) && Tiles(b, mid, to)
    ensures Tiles(a + b, from, to)
  {
    if a == [] {
      assert a + b == b;
    } else {
      TilesAppend(a[1..], b, a[0].range.endInclusive + 1, mid, to);
      assert (a + b)[1..] == a[1..] + b;
    }
  }

  lemma {:induction false} TilesCover(ps: seq<Piece>, from: int, to: int)
    requires Tiles(ps, from, to)
    ensures forall byte :: from <= byte < to <==> Covered(ps, byte)
  {
    TilesBounds(ps, from, to);
    if ps != [] {
      var rest := ps[0].range.endInclusive + 1;
      TilesCover(ps[1..], rest, to);
      forall byte | from <= byte < to
        ensures Covered(ps, byte)
      {
        if byte < rest {
          assert Holds(ps[0], byte);
        } else {
          assert Covered(ps[1..], byte);
          var i :| 0 <= i < |ps[1..]| && Holds(ps[1..][i], byte);
          assert Holds(ps[i + 1], byte);
        }
      }
    }
  }

  lemma {:induction false} CoverTiles(ps: seq<Piece>, from: int, to: int)
    requires Ordered(ps) && ExactCover(ps, from, to)
    ensures Tiles(ps, from, to)
    decreases |ps|
  {
    if ps == [] {
      assert !Covered(ps, from);
    } else {
      var first, rest := ps[0], ps[1..];
      assert Holds(first, first.range.start) && Holds(first, first.range.endInclusive);
      assert Covered(ps, first.range.start) && Covered(ps, first.range.endInclusive);
      assert Covered(ps, from);
      var i :| 0 <= i < |ps| && Holds(ps[i], from);
      assert first.range.start == from;
      var mid := first.range.endInclusive + 1;
      forall byte
        ensures mid <= byte < to <==> Covered(rest, byte)
      {
        if mid <= byte < to {
          assert Covered(ps, byte);
          var k :| 0 <= k < |ps| && Holds(ps[k], byte);
          assert rest[k - 1] == ps[k];
        }
        if Covered(rest, byte) {
          var k :| 0 <= k < |rest| && Holds(rest[k], byte);
          assert rest[k] == ps[k + 1] && Holds(ps[k + 1], byte);
          assert Covered(ps, byte);
          assert !Holds(first, byte);
        }
      }
      CoverTiles(rest, mid, to);
    }
  }

  /** Tiling in order is the same as covering every byte exactly once, in order. */
  lemma TilesIffExactCover(ps: seq<Piece>, from: nat, to: nat)
    ensures Tiles(ps, from, to) <==> Ordered(ps) && ExactCover(ps, from, to)
  {
    if Tiles(ps, from, to) {
      TilesBounds(ps, from, to);
      TilesCover(ps, from, to);
    }
    if Ordered(ps) && ExactCover(ps, from, to) {
      CoverTiles(ps, from, to);
    }
  }
}
