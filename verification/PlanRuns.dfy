/**
  Exactly which lists of pieces merge into a gapless plan. Merging groups neighbours into runs; whatever lies
  between two pieces of one run disappears, so only what lies between two runs has to fit already.
*/
module PlanRuns {
  import opened PlanRanges
  import opened PlanMerge

  /** The first piece of the run that is still too short when piece `j` comes up; `j` itself when there is none. */
  function RunStart(ps: seq<Piece>, m: MinSegment, j: nat): (s: nat)
    requires j <= |ps|
    ensures s <= j
  {
    if j == 0 then 0
    else
      var s := RunStart(ps, m, j - 1);
      if ps[j - 1].range.endInclusive - ps[s].range.start + 1 < m then s else j
  }

  /** Piece `t` begins a run of its own, which does not fall to the piece before it. */
  ghost predicate BeginsRun(ps: seq<Piece>, m: MinSegment, t: nat)
    requires t < |ps|
  {
    RunStart(ps, m, t) == t && RunStart(ps, m, |ps|) != t
  }

  ghost predicate Adjacent(ps: seq<Piece>, t: nat)
    requires 0 < t < |ps|
  {
    ps[t].range.start == ps[t - 1].range.endInclusive + 1
  }

  /** Pieces `s` up to, not including, `j` as one. */
  function Spanned(ps: seq<Piece>, s: nat, j: nat): Piece
    requires Ordered(ps) && s < j <= |ps|
  {
    Piece(Range(ps[s].range.start, ps[j - 1].range.endInclusive), ps[j - 1].exit)
  }

  /** What is left to process when the run from `s` is open at `j`. */
  function Pending(ps: seq<Piece>, s: nat, j: nat): seq<Piece>
    requires Ordered(ps) && s <= j <= |ps|
  {
    if s == j then ps[j..] else [Spanned(ps, s, j)] + ps[j..]
  }

  lemma PendingOrdered(ps: seq<Piece>, s: nat, j: nat)
    requires Ordered(ps) && s <= j <= |ps|
    ensures Ordered(Pending(ps, s, j))
  {
  }

  lemma OpenRunIsTiny(ps: seq<Piece>, m: MinSegment, j: nat)
    requires Ordered(ps) && j <= |ps| && RunStart(ps, m, j) < j
    ensures Tiny(Spanned(ps, RunStart(ps, m, j), j), m)
  {
  }

  lemma AbsorbHead(ps: seq<Piece>, m: MinSegment)
    requires Ordered(ps) && |ps| > 1 && Tiny(ps[0], m)
    ensures ps[0].range.start <= ps[1].range.endInclusive
    ensures var next := [Joined(ps[0], ps[1], ps[1].exit)] + ps[2..];
            Ordered(next) && Greedy(ps, m) == Greedy(next, m)
  {
    OrderedJoin(ps, 0, ps[1].exit);
    assert ps[..0] + [Joined(ps[0], ps[1], ps[1].exit)] + ps[2..] == [Joined(ps[0], ps[1], ps[1].exit)] + ps[2..];
  }

  lemma AbsorbOpen(ps: seq<Piece>, m: MinSegment, s: nat, j: nat)
    requires Ordered(ps) && s < j < |ps| && Tiny(Spanned(ps, s, j), m) && Ordered(Pending(ps, s, j))
    ensures var one := [Spanned(ps, s, j + 1)] + ps[j + 1..];
            Ordered(one) && Greedy(Pending(ps, s, j), m) == Greedy(one, m)
  {
    var now := Pending(ps, s, j);
    AbsorbHead(now, m);
    assert now[2..] == ps[j + 1..];
    assert Joined(now[0], now[1], now[1].exit) == Spanned(ps, s, j + 1);
  }

  /** An open run takes in the next piece. */
  lemma AbsorbNext(ps: seq<Piece>, m: MinSegment, j: nat)
    requires Ordered(ps) && j < |ps|
    ensures var s := RunStart(ps, m, j);
            && Ordered(Pending(ps, s, j)) && Ordered([Spanned(ps, s, j + 1)] + ps[j + 1..])
            && Greedy(Pending(ps, s, j), m) == Greedy([Spanned(ps, s, j + 1)] + ps[j + 1..], m)
  {
    var s := RunStart(ps, m, j);
    PendingOrdered(ps, s, j);
    PendingOrdered(ps, s, j + 1);
    if s < j {
      OpenRunIsTiny(ps, m, j);
      AbsorbOpen(ps, m, s, j);
    } else {
      assert Pending(ps, s, j) == [Spanned(ps, s, j + 1)] + ps[j + 1..];
    }
  }

  /** A run that has grown long enough is closed. */
  lemma CloseRun(ps: seq<Piece>, m: MinSegment, j: nat)
    requires Ordered(ps) && j < |ps| && RunStart(ps, m, j + 1) != RunStart(ps, m, j)
    ensures var s := RunStart(ps, m, j);
            && RunStart(ps, m, j + 1) == j + 1 && Ordered(ps[j + 1..])
            && !Tiny(Spanned(ps, s, j + 1), m)
            && Ordered(Pending(ps, s, j))
            && Greedy(Pending(ps, s, j), m) == [Spanned(ps, s, j + 1)] + Greedy(ps[j + 1..], m)
  {
    AbsorbNext(ps, m, j);
    OrderedTail(ps, j + 1);
    var one := [Spanned(ps, RunStart(ps, m, j), j + 1)] + ps[j + 1..];
    assert one[1..] == ps[j + 1..];
    assert !Tiny(one[0], m);
    if |one| == 1 {
      assert Greedy(ps[j + 1..], m) == [];
    }
  }

  lemma {:induction false} RunStartGrows(ps: seq<Piece>, m: MinSegment, i: nat, j: nat)
    requires i <= j <= |ps|
    ensures RunStart(ps, m, i) <= RunStart(ps, m, j)
    ensures RunStart(ps, m, j) < i ==> RunStart(ps, m, j) == RunStart(ps, m, i)
  {
    if i < j {
      RunStartGrows(ps, m, i, j - 1);
    }
  }

  /** The open run never closes exactly when it is all that is left, and too short. */
  lemma {:induction false} SingleRun(ps: seq<Piece>, m: MinSegment, j: nat)
    requires Ordered(ps) && j < |ps|
    ensures Ordered(Pending(ps, RunStart(ps, m, j), j))
    ensures var g := Greedy(Pending(ps, RunStart(ps, m, j), j), m);
            && g != []
            && (RunStart(ps, m, |ps|) == RunStart(ps, m, j) <==> |g| == 1 && Tiny(g[0], m))
    decreases |ps| - j
  {
    var s, s' := RunStart(ps, m, j), RunStart(ps, m, j + 1);
    AbsorbNext(ps, m, j);
    if s' != s {
      CloseRun(ps, m, j);
      RunStartGrows(ps, m, j + 1, |ps|);
    } else if j + 1 < |ps| {
      SingleRun(ps, m, j + 1);
    } else {
      assert ps[j + 1..] == [];
    }
  }

  /** From piece `j` on, every run that begins one begins where the piece before it ends. */
  ghost predicate RunsFit(ps: seq<Piece>, m: MinSegment, j: nat) {
    forall t :: j < t < |ps| && BeginsRun(ps, m, t) ==> Adjacent(ps, t)
  }

  ghost predicate EndsAt(ps: seq<Piece>, to: int)
    requires ps != []
  {
    ps[|ps| - 1].range.endInclusive + 1 == to
  }

  lemma TilesCons(p: Piece, rest: seq<Piece>, to: int)
    ensures Tiles([p] + rest, p.range.start, to) <==> Tiles(rest, p.range.endInclusive + 1, to)
  {
    assert ([p] + rest)[1..] == rest;
  }

  lemma {:induction false} GreedyHead(ps: seq<Piece>, m: MinSegment)
    requires Ordered(ps) && ps != []
    ensures Greedy(ps, m) != [] && Greedy(ps, m)[0].range.start == ps[0].range.start
    decreases |ps|
  {
    if |ps| > 1 && Tiny(ps[0], m) {
      OrderedJoin(ps, 0, ps[1].exit);
      var next := [Joined(ps[0], ps[1], ps[1].exit)] + ps[2..];
      assert ps[..0] + [Joined(ps[0], ps[1], ps[1].exit)] + ps[2..] == next;
      GreedyHead(next, m);
    }
  }

  /** Fixing the tail leaves a closed first piece alone, unless the rest is a single tiny piece. */
  lemma FixTailCons(p: Piece, rest: seq<Piece>, m: MinSegment)
    requires rest != [] && !(|rest| == 1 && Tiny(rest[0], m))
    ensures FixTail([p] + rest, m) == [p] + FixTail(rest, m)
    ensures FixTail(rest, m) != [] && FixTail(rest, m)[0].range.start == rest[0].range.start
  {
  }

  /** The last piece of a pass ends where the input ends. */
  lemma {:induction false} GreedyLast(ps: seq<Piece>, m: MinSegment)
    requires Ordered(ps) && ps != []
    ensures Greedy(ps, m) != []
    ensures Greedy(ps, m)[|Greedy(ps, m)| - 1].range.endInclusive == ps[|ps| - 1].range.endInclusive
    decreases |ps|
  {
    if |ps| > 1 {
      if Tiny(ps[0], m) {
        OrderedJoin(ps, 0, ps[1].exit);
        var next := [Joined(ps[0], ps[1], ps[1].exit)] + ps[2..];
        assert ps[..0] + [Joined(ps[0], ps[1], ps[1].exit)] + ps[2..] == next;
        GreedyLast(next, m);
      } else {
        OrderedTail(ps, 1);
        GreedyLast(ps[1..], m);
      }
    }
  }

  /** The run that ends with piece `j` also takes in a tiny last run. */
  lemma CloseWithTail(ps: seq<Piece>, m: MinSegment, j: nat, p: Piece, rest: seq<Piece>, to: int)
    requires Ordered(ps) && j + 1 < |ps| && RunStart(ps, m, |ps|) == RunStart(ps, m, j + 1) == j + 1
    requires |rest| == 1 && Tiny(rest[0], m) && p.range.start <= rest[0].range.endInclusive
    requires rest[0].range.endInclusive == ps[|ps| - 1].range.endInclusive
    ensures Tiles(FixTail([p] + rest, m), p.range.start, to) <==> EndsAt(ps, to)
    ensures RunsFit(ps, m, j)
  {
    assert FixTail([p] + rest, m) == [Joined(p, rest[0], p.exit)];
    SingleTiles(Joined(p, rest[0], p.exit), to);
    forall t | j < t < |ps|
      ensures !BeginsRun(ps, m, t)
    {
      RunStartGrows(ps, m, j + 1, t);
      RunStartGrows(ps, m, t, |ps|);
    }
  }

  /** The run that ends with piece `j` stands in front of the others. */
  lemma CloseBeforeMore(ps: seq<Piece>, m: MinSegment, j: nat, p: Piece, rest: seq<Piece>, to: int)
    requires Ordered(ps) && j + 1 < |ps| && RunStart(ps, m, j + 1) == j + 1 != RunStart(ps, m, |ps|)
    requires rest != [] && !(|rest| == 1 && Tiny(rest[0], m))
    requires rest[0].range.start == ps[j + 1].range.start && p.range.endInclusive == ps[j].range.endInclusive
    requires Tiles(FixTail(rest, m), ps[j + 1].range.start, to) <==> EndsAt(ps, to) && RunsFit(ps, m, j + 1)
    ensures Tiles(FixTail([p] + rest, m), p.range.start, to) <==> EndsAt(ps, to) && RunsFit(ps, m, j)
  {
    FixTailCons(p, rest, m);
    TilesCons(p, FixTail(rest, m), to);
    assert BeginsRun(ps, m, j + 1);
    assert RunsFit(ps, m, j) <==> Adjacent(ps, j + 1) && RunsFit(ps, m, j + 1);
  }

  lemma PassEnds(ps: seq<Piece>, m: MinSegment, j: nat)
    requires Ordered(ps) && j < |ps|
    ensures Ordered(ps[j..])
    ensures var rest := Greedy(ps[j..], m);
            && rest != [] && rest[0].range.start == ps[j].range.start
            && rest[|rest| - 1].range.endInclusive == ps[|ps| - 1].range.endInclusive
  {
    OrderedTail(ps, j);
    GreedyHead(ps[j..], m);
    GreedyLast(ps[j..], m);
  }

  /** What the pass makes of the pieces behind a closed run. */
  lemma BehindRun(ps: seq<Piece>, m: MinSegment, j: nat)
    requires Ordered(ps) && j < |ps| && RunStart(ps, m, j) == j
    ensures Ordered(ps[j..])
    ensures var rest := Greedy(ps[j..], m);
            && rest != [] && rest[0].range.start == ps[j].range.start
            && rest[|rest| - 1].range.endInclusive == ps[|ps| - 1].range.endInclusive
            && (RunStart(ps, m, |ps|) == j <==> |rest| == 1 && Tiny(rest[0], m))
  {
    SingleRun(ps, m, j);
    assert Pending(ps, j, j) == ps[j..];
    PassEnds(ps, m, j);
  }

  /** The case of `PassTiles` in which the run from `s` ends with piece `j` and more pieces follow. */
  lemma CloseTiles(ps: seq<Piece>, m: MinSegment, s: nat, j: nat, rest: seq<Piece>, to: int)
    requires Ordered(ps) && s <= j && j + 1 < |ps| && RunStart(ps, m, j + 1) == j + 1
    requires Ordered(Pending(ps, s, j)) && Greedy(Pending(ps, s, j), m) == [Spanned(ps, s, j + 1)] + rest
    requires rest != [] && rest[0].range.start == ps[j + 1].range.start
    requires rest[|rest| - 1].range.endInclusive == ps[|ps| - 1].range.endInclusive
    requires RunStart(ps, m, |ps|) == j + 1 <==> |rest| == 1 && Tiny(rest[0], m)
    requires Tiles(FixTail(rest, m), ps[j + 1].range.start, to) <==> EndsAt(ps, to) && RunsFit(ps, m, j + 1)
    ensures Tiles(Merged(Pending(ps, s, j), m), ps[s].range.start, to) <==> EndsAt(ps, to) && RunsFit(ps, m, j)
  {
    var p := Spanned(ps, s, j + 1);
    if |rest| == 1 && Tiny(rest[0], m) {
      CloseWithTail(ps, m, j, p, rest, to);
    } else {
      CloseBeforeMore(ps, m, j, p, rest, to);
    }
  }

  /** With the run from `s` open at piece `j`, what is left to process tiles exactly when the ends and the runs fit. */
  ghost predicate TilesFrom(ps: seq<Piece>, m: MinSegment, s: nat, j: nat, to: int)
    requires Ordered(ps) && s <= j < |ps|
  {
    && Ordered(Pending(ps, s, j))
    && (Tiles(Merged(Pending(ps, s, j), m), ps[s].range.start, to) <==> EndsAt(ps, to) && RunsFit(ps, m, j))
  }

  lemma NothingPending(ps: seq<Piece>, m: MinSegment, j: nat)
    requires Ordered(ps) && j < |ps| && Ordered(ps[j..])
    ensures Ordered(Pending(ps, j, j)) && Merged(Pending(ps, j, j), m) == FixTail(Greedy(ps[j..], m), m)
  {
  }

  /** What the pass makes of the pieces from `j` on, when no run is open there. */
  lemma RestTiles(ps: seq<Piece>, m: MinSegment, j: nat, to: int) returns (rest: seq<Piece>)
    requires Ordered(ps) && j < |ps| && RunStart(ps, m, j) == j && TilesFrom(ps, m, j, j, to)
    ensures Ordered(ps[j..]) && rest == Greedy(ps[j..], m)
    ensures rest != [] && rest[0].range.start == ps[j].range.start
    ensures rest[|rest| - 1].range.endInclusive == ps[|ps| - 1].range.endInclusive
    ensures RunStart(ps, m, |ps|) == j <==> |rest| == 1 && Tiny(rest[0], m)
    ensures Tiles(FixTail(rest, m), ps[j].range.start, to) <==> EndsAt(ps, to) && RunsFit(ps, m, j)
  {
    BehindRun(ps, m, j);
    rest := Greedy(ps[j..], m);
    NothingPending(ps, m, j);
  }

  lemma RunCloses(ps: seq<Piece>, m: MinSegment, s: nat, j: nat, to: int)
    requires Ordered(ps) && j + 1 < |ps| && s == RunStart(ps, m, j) != RunStart(ps, m, j + 1) == j + 1
    requires TilesFrom(ps, m, j + 1, j + 1, to)
    ensures TilesFrom(ps, m, s, j, to)
  {
    CloseRun(ps, m, j);
    var rest := RestTiles(ps, m, j + 1, to);
    CloseTiles(ps, m, s, j, rest, to);
  }

  lemma RunGoesOn(ps: seq<Piece>, m: MinSegment, s: nat, j: nat, to: int)
    requires Ordered(ps) && j + 1 < |ps| && s == RunStart(ps, m, j) == RunStart(ps, m, j + 1)
    requires TilesFrom(ps, m, s, j + 1, to)
    ensures TilesFrom(ps, m, s, j, to)
  {
    AbsorbNext(ps, m, j);
    assert RunsFit(ps, m, j) <==> RunsFit(ps, m, j + 1);
  }

  lemma RunsOut(ps: seq<Piece>, m: MinSegment, s: nat, j: nat, to: int)
    requires Ordered(ps) && j + 1 == |ps| && s == RunStart(ps, m, j)
    ensures TilesFrom(ps, m, s, j, to)
  {
    AbsorbNext(ps, m, j);
    assert ps[j + 1..] == [];
    SingleTiles(Spanned(ps, s, j + 1), to);
  }

  lemma {:induction false} PassTiles(ps: seq<Piece>, m: MinSegment, j: nat, to: int)
    requires Ordered(ps) && j < |ps|
    ensures TilesFrom(ps, m, RunStart(ps, m, j), j, to)
    decreases |ps| - j
  {
    var s := RunStart(ps, m, j);
    if j + 1 == |ps| {
      RunsOut(ps, m, s, j, to);
    } else {
      PassTiles(ps, m, j + 1, to);
      if RunStart(ps, m, j + 1) == s {
        RunGoesOn(ps, m, s, j, to);
      } else {
        RunCloses(ps, m, s, j, to);
      }
    }
  }

  /**
    The merged pieces tile the file exactly when the pieces start at its beginning, end at its end, and every
    piece that begins a run begins right after the piece before it.
  */
  lemma MergedTilesIff(ps: seq<Piece>, m: MinSegment, to: int)
    requires Ordered(ps) && ps != []
    ensures Tiles(Merged(ps, m), 0, to) <==> ps[0].range.start == 0 && EndsAt(ps, to) && RunsFit(ps, m, 0)
  {
    PassTiles(ps, m, 0, to);
    assert Pending(ps, 0, 0) == ps;
    GreedyHead(ps, m);
    assert Merged(ps, m) != [] && Merged(ps, m)[0].range.start == ps[0].range.start;
  }
}
