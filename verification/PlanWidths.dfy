/** When the planner's 128-bit products fit: not for all inputs. */
module PlanWidths {
  import opened Common
  import opened Sequences
  import opened PlanMerge
  import opened PlanSplit
  import opened PlanExits
  import opened FetchPlans
  import opened FetchPlanShares

  lemma {:induction false} WeightBound(used: seq<Exit>, i: nat)
    requires i <= |used|
    ensures PrefixWeight(used, i) <= i * (TWO32 - 1)
  {
    if i > 0 {
      WeightBound(used, i - 1);
    }
  }

  lemma Regroup(parts: nat, n: nat, m: MinSegment)
    ensures n * parts <= parts * (n * m)
  {
    assert parts * (n * m) == n * parts * m;
    ProductMonotone(1, m, n * parts);
  }

  lemma PartsTimesExits(n: nat, size: FileSize, partsPerExit: Parts, m: MinSegment)
    requires n > 0 && !Crowded(n, size, m)
    ensures n <= size && n * EffectiveParts(n, size, partsPerExit, m) <= size
  {
    CapacityStep(n, size, m);
    QuotientBounds(size, m);
    var parts := EffectiveParts(n, size, partsPerExit, m);
    if parts > 1 {
      PartsFit(n, size, partsPerExit, m);
      Regroup(parts, n, m);
    }
  }

  lemma UnitsFit(n: nat, total: nat, parts: nat)
    requires total <= n * (TWO32 - 1) && n * parts < TWO64
    ensures total * parts < TWO128
  {
    ProductMonotone(total, n * (TWO32 - 1), parts);
    assert n * (TWO32 - 1) * parts == n * parts * (TWO32 - 1);
  }

  /** The sum of all units, the units of one exit and the bound for the exits always fit. */
  lemma SumsFit(exits: seq<Exit>, size: FileSize, partsPerExit: Parts, m: MinSegment, i: nat)
    requires exits != [] && i < |UsedExits(exits, size, m)|
    ensures var used := UsedExits(exits, size, m);
            var parts := EffectiveParts(|used|, size, partsPerExit, m);
            && TotalWeight(used) * parts < TWO128
            && used[i].weight * parts < TWO128
            && |used| * m < TWO128
  {
    var used := UsedExits(exits, size, m);
    var n, parts := |used|, EffectiveParts(|used|, size, partsPerExit, m);
    UsedNotCrowded(exits, size, m);
    PartsTimesExits(n, size, partsPerExit, m);
    WeightBound(used, n);
    UnitsFit(n, TotalWeight(used), parts);
    ProductAtMost(used[i].weight, parts, TWO32, TWO64);
    ProductAtMost(n, m, TWO64 - 1, TWO64);
  }

  /** The product that a share is computed from does not fit; the last exit's is not computed. */
  ghost predicate Overflows(exits: seq<Exit>, size: FileSize, partsPerExit: Parts, m: MinSegment) {
    && exits != []
    && var used := UsedExits(exits, size, m);
       exists i :: 0 <= i < |used| - 1
                && size * (used[i].weight * EffectiveParts(|used|, size, partsPerExit, m)) >= TWO128
  }

  /** Up to 2^32 + 1 parts per exit every product fits. */
  lemma NoOverflow(exits: seq<Exit>, size: FileSize, partsPerExit: Parts, m: MinSegment)
    requires partsPerExit <= TWO32 + 1
    ensures !Overflows(exits, size, partsPerExit, m)
  {
    if exits != [] {
      var used := UsedExits(exits, size, m);
      var parts := EffectiveParts(|used|, size, partsPerExit, m);
      forall i | 0 <= i < |used| - 1
        ensures size * (used[i].weight * parts) < TWO128
      {
        ProductAtMost(used[i].weight, parts, TWO32 - 1, TWO32 + 1);
        ProductAtMost(size, used[i].weight * parts, TWO64 - 1, TWO64 - 1);
      }
    }
  }

  /** From 2^63 parts on no file is large enough to give them to two exits. */
  lemma TooManyParts(exits: seq<Exit>, size: FileSize, partsPerExit: Parts, m: MinSegment)
    requires partsPerExit >= TWO64 / 2
    ensures !Overflows(exits, size, partsPerExit, m)
  {
    if Overflows(exits, size, partsPerExit, m) {
      var n := |UsedExits(exits, size, m)|;
      UsedNotCrowded(exits, size, m);
      PartsTimesExits(n, size, partsPerExit, m);
      var parts := EffectiveParts(n, size, partsPerExit, m);
      ProductMonotone(2, n, parts);
      assert parts == 1;
      NoOverflow(exits, size, 1, m);
    }
  }

  lemma TwoExits(exits: seq<Exit>, size: FileSize)
    requires |exits| == 2 && exits[0].id < exits[1].id && size >= 2
    ensures UsedExits(exits, size, 1) == exits
  {
    assert Remaining(exits, size, 1) == exits;
    SortOfSorted(LowerId(), exits);
  }

  /** Two exits of the greatest weight and the largest file are enough for all numbers of parts in between. */
  lemma ManyPartsOverflow(exits: seq<Exit>, partsPerExit: Parts)
    requires exits == [Exit(1, TWO32 - 1), Exit(2, TWO32 - 1)]
    requires TWO32 + 2 <= partsPerExit < TWO64 / 2
    ensures Overflows(exits, TWO64 - 1, partsPerExit, 1)
  {
    TwoExits(exits, TWO64 - 1);
    ProductMonotone(TWO32 + 2, partsPerExit, TWO32 - 1);
    ProductMonotone((TWO32 - 1) * (TWO32 + 2), (TWO32 - 1) * partsPerExit, TWO64 - 1);
    assert EffectiveParts(2, TWO64 - 1, partsPerExit, 1) == partsPerExit;
    assert exits[0].weight == TWO32 - 1;
  }

  /** Some input makes a product overflow exactly from 2^32 + 2 to 2^63 - 1 parts per exit. */
  lemma OverflowIff(partsPerExit: Parts)
    ensures (exists exits: seq<Exit>, size: FileSize, m: MinSegment :: Overflows(exits, size, partsPerExit, m))
       <==> TWO32 + 2 <= partsPerExit < TWO64 / 2
  {
    if TWO32 + 2 <= partsPerExit < TWO64 / 2 {
      var exits := [Exit(1, TWO32 - 1), Exit(2, TWO32 - 1)];
      ManyPartsOverflow(exits, partsPerExit);
    } else {
      forall exits: seq<Exit>, size: FileSize, m: MinSegment
        ensures !Overflows(exits, size, partsPerExit, m)
      {
        if partsPerExit >= TWO64 / 2 {
          TooManyParts(exits, size, partsPerExit, m);
        } else {
          NoOverflow(exits, size, partsPerExit, m);
        }
      }
    }
  }
}
