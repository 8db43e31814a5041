/** Merging undersized pieces into a neighbour. */
module PlanMerge {
  import opened Common
  import opened PlanRanges

  type MinSegment = n: int | 0 < n < TWO64 witness 1

  function Tiny(p: Piece, m: MinSegment): bool {
    Len(p.range) < m
  }

  /** The stretch from the first piece to the end of the second, fetched through `exit`. */
  function Joined(a: Piece, b: Piece, exit: ExitId): Piece
    requires a.range.start <= b.range.endInclusive
  {
    Piece(Range(a.range.start, b.range.endInclusive), exit)
  }

  lemma OrderedTail(ps: seq<Piece>, k: nat)
    requires Ordered(ps) && k <= |ps|
    ensures Ordered(ps[k..]) && Ordered(ps[..k])
  {
  }

  lemma OrderedJoin(ps: seq<Piece>, pos: nat, exit: ExitId)
    requires Ordered(ps) && pos + 1 < |ps|
    ensures ps[pos].range.start <= ps[pos + 1].range.endInclusive
    ensures Ordered(ps[..pos] + [Joined(ps[pos], ps[pos + 1], exit)] + ps[pos + 2..])
  {
  }

  /** One pass from left to right: a tiny piece is absorbed by the piece after it. */
  function Greedy(ps: seq<Piece>, m: MinSegment): (r: seq<Piece>)
    requires Ordered(ps)
    ensures (r == []) == (ps == [])
    decreases |ps|
  {
    if |ps| <= 1 then ps
    else if Tiny(ps[0], m) then
      OrderedJoin(ps, 0, ps[1].exit);
      assert ps[..0] + [Joined(ps[0], ps[1], ps[1].exit)] + ps[2..] == [Joined(ps[0], ps[1], ps[1].exit)] + ps[2..];
      Greedy([Joined(ps[0], ps[1], ps[1].exit)] + ps[2..], m)
    else
      [ps[0]] + Greedy(ps[1..], m)
  }

  /** A tiny piece left at the very end is absorbed by the piece before it. */
  function FixTail(ps: seq<Piece>, m: MinSegment): seq<Piece> {
    var n := |ps|;
    if n >= 2 && Tiny(ps[n - 1], m) && ps[n - 2].range.start <= ps[n - 1].range.endInclusive then
      ps[..n - 2] + [Joined(ps[n - 2], ps[n - 1], ps[n - 2].exit)]
    else ps
  }

  /** What merging produces: one left-to-right pass, then the tail. */
  function Merged(ps: seq<Piece>, m: MinSegment): seq<Piece>
    requires Ordered(ps)
  {
    FixTail(Greedy(ps, m), m)
  }

  // ----- the loop refines the single pass

  function FirstTiny(ps: seq<Piece>, m: MinSegment): (pos: Option<nat>)
    ensures pos.None? <==> forall i :: 0 <= i < |ps| ==> !Tiny(ps[i], m)
    ensures pos.Some? ==> pos.value < |ps| && Tiny(ps[pos.value], m)
    ensures pos.Some? ==> forall i :: 0 <= i < pos.value ==> !Tiny(ps[i], m)
  {
    if ps == [] then None
    else if Tiny(ps[0], m) then Some(0)
    else
      match FirstTiny(ps[1..], m)
      case None => None
      case Some(i) => Some(i + 1)
  }

  lemma GreedyCons(ps: seq<Piece>, m: MinSegment)
    requires Ordered(ps) && |ps| > 1 && !Tiny(ps[0], m)
    ensures Ordered(ps[1..]) && Greedy(ps, m) == [ps[0]] + Greedy(ps[1..], m)
  {
  }

  lemma CutAfterFirst(ps: seq<Piece>, k: nat)
    requires 0 < k <= |ps|
    ensures ps[1..][k - 1..] == ps[k..] && [ps[0]] + ps[1..][..k - 1] == ps[..k]
  {
  }

  lemma Regroup(a: seq<Piece>, b: seq<Piece>, c: seq<Piece>)
    ensures a + (b + c) == (a + b) + c
  {
  }

  /** Pieces that are large enough pass through unchanged. */
  lemma {:induction false} GreedyPrefix(ps: seq<Piece>, k: nat, m: MinSegment)
    requires Ordered(ps) && k < |ps|
    requires forall i :: 0 <= i < k ==> !Tiny(ps[i], m)
    ensures Ordered(ps[k..])
    ensures Greedy(ps, m) == ps[..k] + Greedy(ps[k..], m)
  {
    OrderedTail(ps, k);
    if k == 0 {
      assert ps[0..] == ps;
    } else {
      GreedyCons(ps, m);
      GreedyPrefix(ps[1..], k - 1, m);
      CutAfterFirst(ps, k);
      Regroup([ps[0]], ps[1..][..k - 1], Greedy(ps[k..], m));
    }
  }

  /** Absorbing the first tiny piece to the right is a step of the single pass. */
  lemma StepRight(ps: seq<Piece>, pos: nat, m: MinSegment)
    requires Ordered(ps) && pos + 1 < |ps| && Tiny(ps[pos], m)
    requires forall i :: 0 <= i < pos ==> !Tiny(ps[i], m)
    ensures ps[pos].range.start <= ps[pos + 1].range.endInclusive
    ensures var next := ps[..pos] + [Joined(ps[pos], ps[pos + 1], ps[pos + 1].exit)] + ps[pos + 2..];
            Ordered(next) && Greedy(next, m) == Greedy(ps, m)
  {
    OrderedJoin(ps, pos, ps[pos + 1].exit);
    var joined := Joined(ps[pos], ps[pos + 1], ps[pos + 1].exit);
    var next := ps[..pos] + [joined] + ps[pos + 2..];
    GreedyPrefix(ps, pos, m);
    GreedyPrefix(next, pos, m);
    assert next[..pos] == ps[..pos];
    assert next[pos..] == [joined] + ps[pos..][2..];
    assert ps[pos..][0] == ps[pos] && ps[pos..][1] == ps[pos + 1];
  }

  lemma NoTinyGreedy(ps: seq<Piece>, m: MinSegment)
    requires Ordered(ps)
    requires forall i :: 0 <= i < |ps| - 1 ==> !Tiny(ps[i], m)
    ensures Greedy(ps, m) == ps
  {
    if ps != [] {
      GreedyPrefix(ps, |ps| - 1, m);
      assert ps[|ps| - 1..] == [ps[|ps| - 1]];
      assert ps[..|ps| - 1] + [ps[|ps| - 1]] == ps;
    }
  }

  /** Absorbing a tiny last piece to the left finishes the job. */
  lemma StepLeft(ps: seq<Piece>, m: MinSegment)
    requires Ordered(ps) && |ps| >= 2 && Tiny(ps[|ps| - 1], m)
    requires forall i :: 0 <= i < |ps| - 1 ==> !Tiny(ps[i], m)
    ensures ps[|ps| - 2].range.start <= ps[|ps| - 1].range.endInclusive
    ensures var next := ps[..|ps| - 2] + [Joined(ps[|ps| - 2], ps[|ps| - 1], ps[|ps| - 2].exit)];
            Ordered(next) && Merged(next, m) == next == Merged(ps, m)
  {
    var n := |ps|;
    OrderedJoin(ps, n - 2, ps[n - 2].exit);
    var joined := Joined(ps[n - 2], ps[n - 1], ps[n - 2].exit);
    var next := ps[..n - 2] + [joined];
    assert ps[..n - 2] + [joined] + ps[n..] == next;
    NoTinyGreedy(ps, m);
    assert !Tiny(joined, m);
    NoTinyGreedy(next, m);
  }

  lemma {:induction false} GreedyMinimum(ps: seq<Piece>, m: MinSegment)
    requires Ordered(ps)
    ensures forall i :: 0 <= i < |Greedy(ps, m)| - 1 ==> !Tiny(Greedy(ps, m)[i], m)
    decreases |ps|
  {
    if |ps| > 1 {
      if Tiny(ps[0], m) {
        OrderedJoin(ps, 0, ps[1].exit);
        var next := [Joined(ps[0], ps[1], ps[1].exit)] + ps[2..];
        assert ps[..0] + [Joined(ps[0], ps[1], ps[1].exit)] + ps[2..] == next;
        GreedyMinimum(next, m);
      } else {
        OrderedTail(ps, 1);
        GreedyMinimum(ps[1..], m);
      }
    }
  }

  lemma {:induction false} GreedyOrdered(ps: seq<Piece>, m: MinSegment)
    requires Ordered(ps)
    ensures Ordered(Greedy(ps, m))
    ensures forall i :: 0 <= i < |Greedy(ps, m)| ==>
              && ps != [] && ps[0].range.start <= Greedy(ps, m)[i].range.start
              && ps[0].range.endInclusive <= Greedy(ps, m)[i].range.endInclusive
    decreases |ps|
  {
    if |ps| > 1 {
      if Tiny(ps[0], m) {
        OrderedJoin(ps, 0, ps[1].exit);
        var next := [Joined(ps[0], ps[1], ps[1].exit)] + ps[2..];
        assert ps[..0] + [Joined(ps[0], ps[1], ps[1].exit)] + ps[2..] == next;
        GreedyOrdered(next, m);
      } else {
        OrderedTail(ps, 1);
        GreedyOrdered(ps[1..], m);
      }
    }
  }

  lemma GreedyTail(g: seq<Piece>, m: MinSegment)
    requires Ordered(g)
    requires forall i :: 0 <= i < |g| - 1 ==> !Tiny(g[i], m)
    ensures |FixTail(g, m)| > 1 ==> forall i :: 0 <= i < |FixTail(g, m)| ==> !Tiny(FixTail(g, m)[i], m)
  {
    var n := |g|;
    if n >= 2 && Tiny(g[n - 1], m) {
      assert Len(Joined(g[n - 2], g[n - 1], g[n - 2].exit).range) >= Len(g[n - 2].range);
    }
  }

  /** Nothing is left to merge. */
  predicate Settled(ps: seq<Piece>, m: MinSegment) {
    |ps| == 1 || forall i :: 0 <= i < |ps| ==> !Tiny(ps[i], m)
  }

  /** The first tiny piece cannot join its neighbour, because the joined range would be empty. */
  predicate Stuck(ps: seq<Piece>, m: MinSegment) {
    var pos := FirstTiny(ps, m);
    && |ps| > 1 && pos.Some?
    && if pos.value + 1 < |ps| then ps[pos.value + 1].range.endInclusive < ps[pos.value].range.start
       else ps[pos.value].range.endInclusive < ps[pos.value - 1].range.start
  }

  lemma SettledStays(ps: seq<Piece>, m: MinSegment)
    requires Ordered(ps) && Settled(ps, m)
    ensures Merged(ps, m) == ps
  {
    NoTinyGreedy(ps, m);
  }

  lemma MergedSettled(ps: seq<Piece>, m: MinSegment)
    requires Ordered(ps)
    ensures Settled(Merged(ps, m), m)
  {
    GreedyMinimum(ps, m);
    GreedyOrdered(ps, m);
    GreedyTail(Greedy(ps, m), m);
  }

  /** One pass of the loop: the first tiny piece joins its neighbour, unless the joined range would be empty. */
  method JoinFirstTiny(assignments: seq<Piece>, pos: nat, m: MinSegment) returns (next: Option<seq<Piece>>)
    requires |assignments| > 1 && FirstTiny(assignments, m) == Some(pos)
    ensures next.None? ==> Stuck(assignments, m)
    ensures next.Some? ==> |next.value| < |assignments|
    ensures Ordered(assignments) ==>
              next.Some? && Ordered(next.value) && Merged(next.value, m) == Merged(assignments, m)
  {
    if pos + 1 < |assignments| {
      var after := assignments[pos + 1];
      if Ordered(assignments) {
        StepRight(assignments, pos, m);
      }
      var range := TryNew(assignments[pos].range.start, after.range.endInclusive);
      if range.None? {
        return None;
      }
      next := Some(assignments[..pos] + [Piece(range.value, after.exit)] + assignments[pos + 2..]);
    } else {
      var before := assignments[pos - 1];
      if Ordered(assignments) {
        StepLeft(assignments, m);
      }
      var range := TryNew(before.range.start, assignments[pos].range.endInclusive);
      if range.None? {
        return None;
      }
      next := Some(assignments[..pos - 1] + [Piece(range.value, before.exit)]);
    }
  }

  /** The quadratic loop of the planner; it stops early only when a merged range would be empty. */
  method MergeTinySegments(input: seq<Piece>, m: MinSegment) returns (assignments: seq<Piece>)
    ensures Settled(assignments, m) || Stuck(assignments, m)
    ensures Ordered(input) ==> assignments == Merged(input, m) && Settled(assignments, m)
  {
    assignments := input;
    var pos := FirstTiny(assignments, m);
    while pos.Some? && |assignments| > 1
      invariant pos == FirstTiny(assignments, m)
      invariant Ordered(input) ==> Ordered(assignments) && Merged(assignments, m) == Merged(input, m)
      decreases |assignments|
    {
      var next := JoinFirstTiny(assignments, pos.value, m);
      if next.None? {
        return;
      }
      assignments := next.value;
      pos := FirstTiny(assignments, m);
    }
    if Ordered(input) {
      SettledStays(assignments, m);
    }
  }

  // ----- what merging keeps

  lemma JoinTiles(ps: seq<Piece>, from: int, to: int)
    requires Tiles(ps, from, to) && |ps| > 1
    ensures ps[0].range.start <= ps[1].range.endInclusive
    ensures Tiles([Joined(ps[0], ps[1], ps[1].exit)] + ps[2..], from, to)
    ensures Len(Joined(ps[0], ps[1], ps[1].exit).range) == Len(ps[0].range) + Len(ps[1].range)
  {
    var next := [Joined(ps[0], ps[1], ps[1].exit)] + ps[2..];
    assert next[1..] == ps[2..] && ps[1..][1..] == ps[2..];
  }

  /** The single pass keeps the tiling, leaves only the last piece tiny, and adds less than `m` to a piece. */
  lemma {:induction false} GreedyShape(ps: seq<Piece>, m: MinSegment, from: int, to: int, longest: int)
    requires Tiles(ps, from, to) && Ordered(ps)
    requires forall i :: 1 <= i < |ps| ==> Len(ps[i].range) <= longest
    requires ps != [] ==> Len(ps[0].range) <= longest + m - 1
    ensures var r := Greedy(ps, m);
            && Tiles(r, from, to)
            && (forall i :: 0 <= i < |r| - 1 ==> !Tiny(r[i], m))
            && (forall i :: 0 <= i < |r| ==> Len(r[i].range) <= longest + m - 1)
    decreases |ps|
  {
    if |ps| <= 1 {
    } else if Tiny(ps[0], m) {
      OrderedJoin(ps, 0, ps[1].exit);
      var next := [Joined(ps[0], ps[1], ps[1].exit)] + ps[2..];
      assert ps[..0] + [Joined(ps[0], ps[1], ps[1].exit)] + ps[2..] == next;
      JoinTiles(ps, from, to);
      GreedyShape(next, m, from, to, longest);
    } else {
      OrderedTail(ps, 1);
      GreedyShape(ps[1..], m, ps[0].range.endInclusive + 1, to, longest);
    }
  }

  lemma {:induction false} TilesSplit(ps: seq<Piece>, k: nat, from: int, to: int)
    requires Tiles(ps, from, to) && k <= |ps|
    ensures var mid := if k == |ps| then to else ps[k].range.start;
            Tiles(ps[..k], from, mid) && Tiles(ps[k..], mid, to)
  {
    if k == 0 {
      assert ps[0..] == ps;
    } else {
      TilesSplit(ps[1..], k - 1, ps[0].range.endInclusive + 1, to);
      assert ps[1..][..k - 1] == ps[..k][1..];
      assert ps[1..][k - 1..] == ps[k..];
    }
  }

  lemma {:induction false} CountBound(ps: seq<Piece>, m: MinSegment, from: int, to: int)
    requires Tiles(ps, from, to)
    requires forall i :: 0 <= i < |ps| ==> !Tiny(ps[i], m)
    ensures |ps| * m <= to - from
  {
    if ps != [] {
      CountBound(ps[1..], m, ps[0].range.endInclusive + 1, to);
    }
  }

  lemma SingleTiles(p: Piece, to: int)
    ensures Tiles([p], p.range.start, to) <==> p.range.endInclusive + 1 == to
  {
    assert [p][1..] == [];
  }

  lemma LastTwo(ps: seq<Piece>, a: Piece, b: Piece, to: int)
    requires ps == [a, b] && Tiles(ps, a.range.start, to)
    ensures b.range.endInclusive + 1 == to && b.range.start == a.range.endInclusive + 1
  {
    assert ps[1..] == [b] && [b][1..] == [];
    assert Tiles([b], a.range.endInclusive + 1, to);
    assert Tiles([], b.range.endInclusive + 1, to);
  }

  lemma TailJoined(front: seq<Piece>, a: Piece, b: Piece, from: int, to: int)
    requires Tiles(front + [a, b], from, to)
    ensures a.range.start <= b.range.endInclusive
    ensures Tiles(front + [Joined(a, b, a.exit)], from, to)
    ensures Len(Joined(a, b, a.exit).range) == Len(a.range) + Len(b.range)
  {
    var g := front + [a, b];
    TilesSplit(g, |front|, from, to);
    assert g[..|front|] == front && g[|front|..] == [a, b];
    LastTwo([a, b], a, b, to);
    SingleTiles(Joined(a, b, a.exit), to);
    TilesAppend(front, [Joined(a, b, a.exit)], from, a.range.start, to);
  }

  lemma FixTailShape(g: seq<Piece>, m: MinSegment, from: int, to: int, longest: int)
    requires Tiles(g, from, to)
    requires forall i :: 0 <= i < |g| - 1 ==> !Tiny(g[i], m)
    requires forall i :: 0 <= i < |g| ==> Len(g[i].range) <= longest
    ensures Tiles(FixTail(g, m), from, to)
    ensures |FixTail(g, m)| != 1 ==> forall i :: 0 <= i < |FixTail(g, m)| ==> !Tiny(FixTail(g, m)[i], m)
    ensures forall i :: 0 <= i < |FixTail(g, m)| ==> Len(FixTail(g, m)[i].range) <= longest + m - 1
  {
    var n := |g|;
    if n >= 2 && Tiny(g[n - 1], m) {
      assert g == g[..n - 2] + [g[n - 2], g[n - 1]];
      TailJoined(g[..n - 2], g[n - 2], g[n - 1], from, to);
    }
  }

  /**
    Merging keeps start, end and contiguity, leaves every piece at the minimum size unless only one
    remains, hence bounds their number, and lengthens no piece by more than twice the minimum less one.
  */
  lemma MergedShape(ps: seq<Piece>, m: MinSegment, from: int, to: int, longest: int)
    requires Tiles(ps, from, to) && Ordered(ps)
    requires forall i :: 0 <= i < |ps| ==> Len(ps[i].range) <= longest
    ensures Tiles(Merged(ps, m), from, to)
    ensures |Merged(ps, m)| != 1 ==> forall i :: 0 <= i < |Merged(ps, m)| ==> !Tiny(Merged(ps, m)[i], m)
    ensures |Merged(ps, m)| <= 1 || |Merged(ps, m)| * m <= to - from
    ensures forall i :: 0 <= i < |Merged(ps, m)| ==> Len(Merged(ps, m)[i].range) <= longest + 2 * (m - 1)
  {
    GreedyShape(ps, m, from, to, longest);
    FixTailShape(Greedy(ps, m), m, from, to, longest + m - 1);
    if |Merged(ps, m)| != 1 {
      CountBound(Merged(ps, m), m, from, to);
    }
  }

  /** Two pieces: a tiny first one goes with the second, or else a tiny second one with the first. */
  lemma MergedPair(a: Piece, b: Piece, m: MinSegment)
    requires Ordered([a, b])
    ensures a.range.start <= b.range.endInclusive
    ensures var both := Range(a.range.start, b.range.endInclusive);
            Merged([a, b], m) == if Len(a.range) < m then [Piece(both, b.exit)]
                                 else if Len(b.range) < m then [Piece(both, a.exit)] else [a, b]
  {
    var ps := [a, b];
    OrderedJoin(ps, 0, b.exit);
    if Tiny(a, m) {
      assert [Joined(a, b, b.exit)] + ps[2..] == [Joined(a, b, b.exit)];
      assert Greedy(ps, m) == [Joined(a, b, b.exit)];
    } else {
      NoTinyGreedy(ps, m);
      assert ps[..0] + [Joined(a, b, a.exit)] == [Joined(a, b, a.exit)];
    }
  }

  /** Input piece `p` gave its exit to `r`, within which it lies. */
  ghost predicate GaveExit(p: Piece, r: Piece) {
    p.exit == r.exit && r.range.start <= p.range.start && p.range.endInclusive <= r.range.endInclusive
  }

  ghost predicate EndsWith(ps: seq<Piece>, r: Piece) {
    exists i :: 0 <= i < |ps| && GaveExit(ps[i], r) && ps[i].range.endInclusive == r.range.endInclusive
  }

  lemma EndsAfterJoin(ps: seq<Piece>, r: Piece)
    requires |ps| > 1 && ps[0].range.start <= ps[1].range.start
    requires EndsWith([Joined(ps[0], ps[1], ps[1].exit)] + ps[2..], r)
    ensures EndsWith(ps, r)
  {
    var next := [Joined(ps[0], ps[1], ps[1].exit)] + ps[2..];
    var i :| 0 <= i < |next| && GaveExit(next[i], r) && next[i].range.endInclusive == r.range.endInclusive;
    assert GaveExit(ps[i + 1], r);
  }

  lemma EndsInTail(ps: seq<Piece>, r: Piece)
    requires ps != [] && EndsWith(ps[1..], r)
    ensures EndsWith(ps, r)
  {
    var i :| 0 <= i < |ps| - 1 && GaveExit(ps[1..][i], r) && ps[1..][i].range.endInclusive == r.range.endInclusive;
    assert GaveExit(ps[i + 1], r);
  }

  /** In the single pass each piece goes through the exit of the piece it ends with. */
  lemma {:induction false} GreedyExits(ps: seq<Piece>, m: MinSegment, k: nat)
    requires Ordered(ps) && k < |Greedy(ps, m)|
    ensures EndsWith(ps, Greedy(ps, m)[k])
    decreases |ps|
  {
    var r := Greedy(ps, m)[k];
    if |ps| > 1 && Tiny(ps[0], m) {
      OrderedJoin(ps, 0, ps[1].exit);
      var next := [Joined(ps[0], ps[1], ps[1].exit)] + ps[2..];
      assert ps[..0] + [Joined(ps[0], ps[1], ps[1].exit)] + ps[2..] == next;
      GreedyExits(next, m, k);
      EndsAfterJoin(ps, r);
    } else if k > 0 {
      GreedyCons(ps, m);
      GreedyExits(ps[1..], m, k - 1);
      EndsInTail(ps, r);
    } else {
      assert GaveExit(ps[0], r);
    }
  }

  /** A leading `[0,0]` in front of a file's pieces is absorbed, whatever exit it names. */
  lemma SpuriousAbsorbed(p: Piece, ps: seq<Piece>, m: MinSegment, to: int)
    requires p.range == Range(0, 0) && m >= 2
    requires ps != [] && Ordered([p] + ps) && Ordered(ps) && ps[0].range.start == 0
    ensures Merged([p] + ps, m) == Merged(ps, m)
  {
    var all := [p] + ps;
    assert all[2..] == ps[1..];
    assert Joined(p, ps[0], ps[0].exit) == ps[0];
    assert [ps[0]] + ps[1..] == ps;
  }
}
