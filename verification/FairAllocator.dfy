/** The allocator itself: the multi-round loop and the in-place hand-out of the rounding remainder. */
module FairAllocator {
  import opened Common
  import opened Sequences
  import opened FairLevel
  import opened FairRounds

  function ToU64(value: U128): U64 {
    if value < TWO64 then value else TWO64 - 1
  }

  function Total(shares: seq<U128>): nat {
    if shares == [] then 0 else shares[0] + Total(shares[1..])
  }

  /** The shares computed by integer division are the offers at level `l`. */
  ghost predicate SharesAt(active: seq<Entry>, shares: seq<U128>, l: real) {
    |shares| == |active| && forall k :: 0 <= k < |active| ==> shares[k] == Share(l, active[k].weight)
  }

  lemma {:induction false} TotalShares(active: seq<Entry>, shares: seq<U128>, l: real)
    requires SharesAt(active, shares, l)
    ensures Total(shares) == Sum(ShareAt(l), active)
  {
    if active != [] {
      TotalShares(active[1..], shares[1..], l);
    }
  }

  // ----- one round, loop by loop

  lemma HoldsAppend(before: seq<Entry>, a: Rates, e: Entry)
    requires a.Keys == Ids(before) && forall f :: f in before ==> a[f.id] == f.demand && f.id != e.id
    ensures a[e.id := e.demand].Keys == Ids(before + [e])
    ensures forall f :: f in before + [e] ==> a[e.id := e.demand][f.id] == f.demand
  {
    assert e in before + [e];
    assert forall f :: f in before + [e] <==> f in before || f == e;
  }

  lemma HoldsPush(fits: Entry -> bool, es: seq<Entry>, k: nat, a: Rates)
    requires k < |es| && DistinctIds(es) && HoldsDemands(fits, es[..k], a)
    ensures HoldsDemands(fits, es[..k + 1], if fits(es[k]) then a[es[k].id := es[k].demand] else a)
  {
    FilterPush(fits, es, k);
    var before := Filter(fits, es[..k]);
    if fits(es[k]) {
      forall f | f in before
        ensures f.id != es[k].id && a[f.id] == f.demand
      {
        assert f in es[..k];
        var i :| 0 <= i < k && es[i] == f;
      }
      HoldsAppend(before, a, es[k]);
    } else {
      assert Filter(fits, es[..k + 1]) == before;
    }
  }

  lemma ShareAtZero(w: Weight)
    ensures Share(0.0, w) == 0
  {
    assert 0.0 * w as real == 0.0;
  }

  lemma ZeroDemandSatisfied(e: Entry)
    ensures Satisfied(0.0)(e) <==> e.demand == 0
    ensures Unsatisfied(0.0)(e) <==> e.demand != 0
  {
    ShareAtZero(e.weight);
  }

  lemma ServedSorted(entries: seq<Entry>, l: real, a: Rates)
    requires Served(entries, l, a)
    ensures Served(Sort(ById(), entries), l, a)
  {
    SortMembers(ById(), entries);
    assert forall e :: e in Sated(Sort(ById(), entries), l) <==> e in Sated(entries, l);
  }

  method SettleZeroDemands(entries: seq<Entry>) returns (result: Rates, active: seq<Entry>)
    requires DistinctIds(entries)
    ensures var es := Sort(ById(), entries); active == Hungry(es, 0.0) && Served(es, 0.0, result)
  {
    result := map[];
    active := [];
    for i := 0 to |entries|
      invariant active == Hungry(entries[..i], 0.0)
      invariant Served(entries[..i], 0.0, result)
    {
      var entry := entries[i];
      ZeroDemandSatisfied(entry);
      FilterPush(Unsatisfied(0.0), entries, i);
      HoldsPush(Satisfied(0.0), entries, i, result);
      if entry.demand == 0 {
        result := result[entry.id := 0];
      } else {
        active := active + [entry];
      }
    }
    assert entries[..|entries|] == entries;
    ByIdPreorder();
    FilterSort(ById(), Unsatisfied(0.0), entries);
    ServedSorted(entries, 0.0, result);
    active := Sort(ById(), active);
  }

  /** `fits` says whose demand is within its share. */
  method FindSatisfied(active: seq<Entry>, shares: seq<U128>, ghost fits: Entry -> bool)
    returns (satisfied: seq<int>)
    requires |shares| == |active|
    requires forall k :: 0 <= k < |active| ==> (fits(active[k]) <==> active[k].demand <= shares[k])
    ensures Picks(active, satisfied, |active|, fits)
  {
    satisfied := [];
    for index := 0 to |active|
      invariant Picks(active, satisfied, index, fits)
    {
      PicksPush(active, satisfied, index, fits);
      if active[index].demand <= shares[index] {
        satisfied := satisfied + [index];
      }
    }
  }

  ghost function IdsUpTo(active: seq<Entry>, n: nat): set<Id>
    requires n <= |active|
  {
    set k | 0 <= k < n :: active[k].id
  }

  method SettleSatisfied(active: seq<Entry>, satisfied: set<int>, settled: Rates, ghost l: real)
    returns (result: Rates, remaining: seq<Entry>)
    requires AscendingIds(active)
    requires forall k :: 0 <= k < |active| ==> (k in satisfied <==> Satisfied(l)(active[k]))
    requires forall k :: 0 <= k < |active| ==> active[k].id !in settled
    ensures remaining == Filter(Unsatisfied(l), active)
    ensures forall id :: id in settled ==> id in result && result[id] == settled[id]
    ensures forall id :: id in result ==> id in settled || id in IdsUpTo(active, |active|)
    ensures forall k :: 0 <= k < |active| ==>
              (active[k].id in result <==> Satisfied(l)(active[k]))
              && (Satisfied(l)(active[k]) ==> result[active[k].id] == active[k].demand)
  {
    result := settled;
    remaining := [];
    for index := 0 to |active|
      invariant remaining == Filter(Unsatisfied(l), active[..index])
      invariant forall id :: id in settled ==> id in result && result[id] == settled[id]
      invariant forall id :: id in result ==> id in settled || id in IdsUpTo(active, index)
      invariant forall k :: index <= k < |active| ==> active[k].id !in result
      invariant forall k :: 0 <= k < index ==>
                  (active[k].id in result <==> Satisfied(l)(active[k]))
                  && (Satisfied(l)(active[k]) ==> result[active[k].id] == active[k].demand)
    {
      FilterPush(Unsatisfied(l), active, index);
      if index in satisfied {
        result := result[active[index].id := active[index].demand];
      } else {
        remaining := remaining + [active[index]];
      }
    }
    assert active[..|active|] == active;
  }

  // ----- the last round

  /** The first `given` of `active` hold one unit more than their shares, the others their shares. */
  ghost predicate Dealt(active: seq<Entry>, shares: seq<int>, given: int, a: Rates)
    requires |shares| == |active|
  {
    forall k :: 0 <= k < |active| ==>
      active[k].id in a && a[active[k].id] == shares[k] + (if k < given then 1 else 0)
  }

  /** `after` adds entries for `active` to `before`, and keeps what was there. */
  ghost predicate Extends(before: Rates, active: seq<Entry>, after: Rates) {
    && after.Keys == before.Keys + IdsUpTo(active, |active|)
    && forall id :: id in before ==> after[id] == before[id]
  }

  method DealFloors(active: seq<Entry>, shares: seq<U128>, settled: Rates) returns (result: Rates)
    requires AscendingIds(active) && |shares| == |active|
    requires forall k :: 0 <= k < |active| ==> active[k].id !in settled && shares[k] < active[k].demand
    ensures Extends(settled, active, result) && Dealt(active, shares, 0, result)
  {
    result := settled;
    for index := 0 to |active|
      invariant result.Keys == settled.Keys + IdsUpTo(active, index)
      invariant forall id :: id in settled ==> result[id] == settled[id]
      invariant forall k :: 0 <= k < index ==> active[k].id in result && result[active[k].id] == shares[k]
    {
      result := result[active[index].id := ToU64(shares[index])];
    }
  }

  /** Spreads the rounding remainder one unit at a time in id order; one pass over `active` is enough. */
  method SpreadRemainder(active: seq<Entry>, shares: seq<U128>, dealt: Rates, lost: U128) returns (result: Rates)
    requires AscendingIds(active) && |shares| == |active| && lost < |active|
    requires forall k :: 0 <= k < |active| ==> shares[k] < active[k].demand
    requires Dealt(active, shares, 0, dealt)
    ensures result.Keys == dealt.Keys && Dealt(active, shares, lost, result)
    ensures forall id :: id in dealt && id !in IdsUpTo(active, |active|) ==> result[id] == dealt[id]
  {
    result := dealt;
    var remainder := lost;
    while remainder > 0
      invariant remainder == lost || remainder == 0
      invariant result.Keys == dealt.Keys && Dealt(active, shares, lost - remainder, result)
      invariant forall id :: id in dealt && id !in IdsUpTo(active, |active|) ==> result[id] == dealt[id]
    {
      var handedOut := 0;
      var index := 0;
      while index < |active|
        invariant 0 <= index <= |active|
        invariant 0 <= remainder <= lost
        invariant handedOut == lost - remainder
        invariant remainder > 0 ==> index == handedOut
        invariant result.Keys == dealt.Keys && Dealt(active, shares, handedOut, result)
        invariant forall id :: id in dealt && id !in IdsUpTo(active, |active|) ==> result[id] == dealt[id]
      {
        if remainder == 0 {
          break;
        }
        var id := active[index].id;
        if id in result {
          if result[id] < active[index].demand {
            result := result[id := result[id] + 1];
            remainder := remainder - 1;
            handedOut := handedOut + 1;
          }
        }
        index := index + 1;
      }
      if handedOut == 0 {
        break;
      }
    }
  }

  method DealShares(active: seq<Entry>, shares: seq<U128>, settled: Rates, left: U64) returns (result: Rates)
    requires AscendingIds(active) && |shares| == |active|
    requires forall k :: 0 <= k < |active| ==> active[k].id !in settled && shares[k] < active[k].demand
    requires 0 <= left - Total(shares) < |active|
    ensures Extends(settled, active, result) && Dealt(active, shares, left - Total(shares), result)
  {
    var dealt := DealFloors(active, shares, settled);
    var distributed: U128 := Total(shares);
    result := SpreadRemainder(active, shares, dealt, left - distributed);
  }

  /** Whoever is still waiting when the loop ends gets nothing. */
  method SettleUnserved(active: seq<Entry>, settled: Rates) returns (result: Rates)
    requires AscendingIds(active)
    requires forall k :: 0 <= k < |active| ==> active[k].id !in settled
    ensures Extends(settled, active, result)
    ensures forall k :: 0 <= k < |active| ==> active[k].id in result && result[active[k].id] == 0
  {
    result := settled;
    for index := 0 to |active|
      invariant result.Keys == settled.Keys + IdsUpTo(active, index)
      invariant forall id :: id in settled ==> result[id] == settled[id]
      invariant forall k :: 0 <= k < index ==> active[k].id in result && result[active[k].id] == 0
    {
      result := result[active[index].id := 0];
    }
  }

  // ----- the whole loop

  lemma IdsSplit(es: seq<Entry>, l: real)
    ensures Ids(es) == Ids(Sated(es, l)) + Ids(Hungry(es, l))
  {
  }

  lemma WaitingNotServed(es: seq<Entry>, l: real, a: Rates)
    requires AscendingIds(es) && Served(es, l, a)
    ensures forall k :: 0 <= k < |Hungry(es, l)| ==> Hungry(es, l)[k].id !in a
    ensures AscendingIds(Hungry(es, l))
  {
    FilterAscending(Unsatisfied(l), es);
    forall e, f | e in Hungry(es, l) && f in Sated(es, l)
      ensures e.id != f.id
    {
      assert e in es && f in es;
    }
  }

  /** After a round everybody satisfied at the new level holds its demand. */
  lemma ServedAfterRound(es: seq<Entry>, l: real, m: real, before: Rates, after: Rates)
    requires 0.0 <= l <= m && Served(es, l, before)
    requires forall id :: id in before ==> id in after && after[id] == before[id]
    requires var active := Hungry(es, l);
             && (forall id :: id in after ==> id in before || id in IdsUpTo(active, |active|))
             && forall k :: 0 <= k < |active| ==>
                  (active[k].id in after <==> Satisfied(m)(active[k]))
                  && (Satisfied(m)(active[k]) ==> after[active[k].id] == active[k].demand)
    ensures Served(es, m, after)
  {
    RoundProgress(es, l, m);
    var active := Hungry(es, l);
    forall e | e in Sated(es, m)
      ensures e.id in after && after[e.id] == e.demand
    {
      if e in Sated(es, l) {
        assert e.id in before;
      }
    }
    forall id | id in after
      ensures id in Ids(Sated(es, m))
    {
      if id in before {
        var e :| e in Sated(es, l) && e.id == id;
        assert e in Sated(es, m);
      } else {
        var k :| 0 <= k < |active| && active[k].id == id;
        assert active[k] in Sated(es, m);
      }
    }
  }

  lemma RoundsAfterDeal(es: seq<Entry>, capacity: nat, l: real, m: real, shares: seq<U128>, before: Rates, after: Rates)
    requires 0.0 <= l <= m && Served(es, l, before)
    requires Hungry(es, m) == Hungry(es, l) && Demand(Sated(es, m)) == Demand(Sated(es, l))
    requires Filter(Satisfied(m), Hungry(es, l)) == []
    requires SharesAt(Hungry(es, l), shares, m)
    requires Extends(before, Hungry(es, l), after)
    requires Dealt(Hungry(es, l), shares, Remainder(es, capacity, m), after)
    ensures Rounds(es, capacity, m, after)
  {
    RoundProgress(es, l, m);
    IdsSplit(es, l);
    var hungry := Hungry(es, m);
    assert IdsUpTo(hungry, |hungry|) == Ids(hungry);
    forall e | e in Sated(es, m)
      ensures after[e.id] == e.demand
    {
      assert e !in Filter(Satisfied(m), Hungry(es, l));
      assert e.id in before;
    }
  }

  lemma EveryoneServed(es: seq<Entry>, capacity: nat, l: real, a: Rates)
    requires Hungry(es, l) == [] && Served(es, l, a) && Demand(Sated(es, l)) <= capacity
    ensures IsWaterfill(es, capacity, a)
  {
    SumSplit(DemandOf(), Satisfied(l), Unsatisfied(l), es);
    IdsSplit(es, l);
    assert forall e :: e in es ==> e in Sated(es, l) || e in Hungry(es, l);
    assert AtLevel(es, capacity, None, a);
  }

  lemma {:induction false} SumZero(es: seq<Entry>)
    ensures Sum((e: Entry) => 0, es) == 0
  {
    if es != [] {
      SumZero(es[1..]);
    }
  }

  /** The zero-fill after the loop is only reached with nothing to distribute in the first place. */
  lemma NothingToDistribute(es: seq<Entry>, a: Rates)
    requires Hungry(es, 0.0) != [] && Demand(Sated(es, 0.0)) == 0
    requires a.Keys == Ids(es)
    requires forall e :: e in Sated(es, 0.0) ==> a[e.id] == e.demand
    requires forall k :: 0 <= k < |Hungry(es, 0.0)| ==> a[Hungry(es, 0.0)[k].id] == 0
    ensures IsWaterfill(es, 0, a)
  {
    var hungry := Hungry(es, 0.0);
    FillSplit(es, 0.0);
    HungryWantsMore(es, 0.0);
    SumSame(ShareAt(0.0), e => 0, hungry);
    SumZero(hungry);
    assert AtLevel(es, 0, Some(0.0), a);
  }

  /** What every round starts from: `active` is who is still hungry at the level reached so far. */
  ghost predicate RoundInvariant(es: seq<Entry>, capacity: nat, l: real, active: seq<Entry>, left: nat) {
    && l >= 0.0 && active == Hungry(es, l)
    && left == capacity - Demand(Sated(es, l))
    && Offered(active, l) <= left as real
    && (left == 0 && active != [] ==> capacity == 0 && l == 0.0)
  }

  /** A round that satisfies somebody raises the level, and shortens the list of the hungry. */
  lemma NextRound(es: seq<Entry>, capacity: nat, l: real, active: seq<Entry>, left: nat)
    requires RoundInvariant(es, capacity, l, active, left) && left > 0 && Weights(active) > 0
    ensures var m := RoundLevel(active, left);
            var taken := Demand(Filter(Satisfied(m), active));
            && l <= m && 0 <= taken <= left
            && RoundInvariant(es, capacity, m, Filter(Unsatisfied(m), active), left - taken)
            && (Filter(Satisfied(m), active) != [] ==> |Filter(Unsatisfied(m), active)| < |active|)
  {
    var m := RoundLevel(active, left);
    RoundLevelOffers(active, left);
    RoundLevelRises(active, left, l);
    RoundProgress(es, l, m);
    RoundBudget(active, left, m);
    FilterLength(Unsatisfied(m), active);
    if Filter(Satisfied(m), active) != [] {
      var e := Filter(Satisfied(m), active)[0];
      assert e in active && !Unsatisfied(m)(e);
    }
  }

  /** A round that satisfies nobody is the last; what rounding loses is less than one unit for each. */
  lemma FinalRound(es: seq<Entry>, capacity: nat, l: real, active: seq<Entry>, left: nat)
    requires RoundInvariant(es, capacity, l, active, left) && left > 0 && Weights(active) > 0
    requires Filter(Satisfied(RoundLevel(active, left)), active) == []
    ensures var m := RoundLevel(active, left);
            && l <= m && IsLevel(es, capacity, m) && capacity < Demand(es)
            && Hungry(es, m) == active && Demand(Sated(es, m)) == Demand(Sated(es, l))
            && Remainder(es, capacity, m) == left - Sum(ShareAt(m), active)
            && 0 <= Remainder(es, capacity, m) < |active|
  {
    var m := RoundLevel(active, left);
    RoundLevelOffers(active, left);
    RoundLevelRises(active, left, l);
    LastRound(es, capacity, l, m, left);
    RemainderBound(es, capacity, m);
  }

  method RoundShares(active: seq<Entry>, left: U64) returns (shares: seq<U128>)
    requires AscendingIds(active) && active != []
    ensures Weights(active) > 0 && SharesAt(active, shares, RoundLevel(active, left))
  {
    AscendingBound(active);
    WeightsBound(active);
    var totalWeight: U128 := Weights(active);
    shares := [];
    for k := 0 to |active|
      invariant |shares| == k
      invariant forall i :: 0 <= i < k ==> shares[i] == Share(RoundLevel(active, left), active[i].weight)
    {
      ProductMonotone(left, TWO64, active[k].weight);
      var product: U128 := left * active[k].weight;
      QuotientBounds(product, totalWeight);
      ShareIsQuotient(left, totalWeight, active[k].weight);
      var share: U128 := product / totalWeight;
      shares := shares + [share];
    }
  }

  lemma NobodyFits(active: seq<Entry>, shares: seq<U128>, l: real)
    requires SharesAt(active, shares, l) && Filter(Satisfied(l), active) == []
    ensures forall k :: 0 <= k < |active| ==> shares[k] < active[k].demand
  {
    forall k | 0 <= k < |active|
      ensures shares[k] < active[k].demand
    {
      assert active[k] !in Filter(Satisfied(l), active);
    }
  }

  lemma ReadyToDeal(es: seq<Entry>, capacity: nat, l: real, active: seq<Entry>, left: U64, shares: seq<U128>,
                    settled: Rates)
    requires AscendingIds(es) && RoundInvariant(es, capacity, l, active, left) && Served(es, l, settled)
    requires left > 0 && Weights(active) > 0 && SharesAt(active, shares, RoundLevel(active, left))
    requires Filter(Satisfied(RoundLevel(active, left)), active) == []
    ensures AscendingIds(active) && 0 <= left - Total(shares) < |active|
    ensures forall k :: 0 <= k < |active| ==> active[k].id !in settled && shares[k] < active[k].demand
  {
    WaitingNotServed(es, l, settled);
    FinalRound(es, capacity, l, active, left);
    TotalShares(active, shares, RoundLevel(active, left));
    NobodyFits(active, shares, RoundLevel(active, left));
  }

  lemma DealtAtLevel(es: seq<Entry>, capacity: nat, l: real, m: real, active: seq<Entry>, left: nat,
                     shares: seq<U128>, settled: Rates, result: Rates)
    requires 0.0 <= l <= m && active == Hungry(es, l) && Served(es, l, settled)
    requires IsLevel(es, capacity, m) && capacity < Demand(es)
    requires Hungry(es, m) == active && Demand(Sated(es, m)) == Demand(Sated(es, l))
    requires Filter(Satisfied(m), active) == [] && SharesAt(active, shares, m)
    requires Remainder(es, capacity, m) == left - Sum(ShareAt(m), active)
    requires Extends(settled, active, result) && Dealt(active, shares, left - Total(shares), result)
    ensures IsWaterfill(es, capacity, result)
  {
    TotalShares(active, shares, m);
    RoundsAfterDeal(es, capacity, l, m, shares, settled, result);
    assert AtLevel(es, capacity, Some(m), result);
  }

  lemma DealtWaterfill(es: seq<Entry>, capacity: nat, l: real, active: seq<Entry>, left: U64, shares: seq<U128>,
                       settled: Rates, result: Rates)
    requires RoundInvariant(es, capacity, l, active, left) && Served(es, l, settled)
    requires left > 0 && Weights(active) > 0 && SharesAt(active, shares, RoundLevel(active, left))
    requires Filter(Satisfied(RoundLevel(active, left)), active) == []
    requires Extends(settled, active, result) && Dealt(active, shares, left - Total(shares), result)
    ensures IsWaterfill(es, capacity, result)
  {
    FinalRound(es, capacity, l, active, left);
    DealtAtLevel(es, capacity, l, RoundLevel(active, left), active, left, shares, settled, result);
  }

  /** The last round: nobody is satisfied, so everybody gets its share and the remainder is spread. */
  method PlayFinalRound(ghost es: seq<Entry>, ghost capacity: nat, ghost l: real,
                        active: seq<Entry>, left: U64, shares: seq<U128>, settled: Rates)
    returns (result: Rates)
    requires AscendingIds(es) && RoundInvariant(es, capacity, l, active, left) && Served(es, l, settled)
    requires left > 0 && Weights(active) > 0
    requires SharesAt(active, shares, RoundLevel(active, left))
    requires Filter(Satisfied(RoundLevel(active, left)), active) == []
    ensures IsWaterfill(es, capacity, result)
  {
    ReadyToDeal(es, capacity, l, active, left, shares, settled);
    result := DealShares(active, shares, settled, left);
    DealtWaterfill(es, capacity, l, active, left, shares, settled, result);
  }

  /** Any other round: the satisfied leave with their demand, and the rest share what is left. */
  method PlayRound(ghost es: seq<Entry>, ghost capacity: nat, ghost l: real,
                   active: seq<Entry>, left: U64, satisfied: seq<int>, settled: Rates)
    returns (result: Rates, remaining: seq<Entry>, rest: U64)
    requires AscendingIds(es) && RoundInvariant(es, capacity, l, active, left) && Served(es, l, settled)
    requires left > 0 && Weights(active) > 0
    requires Picks(active, satisfied, |active|, Satisfied(RoundLevel(active, left))) && satisfied != []
    ensures RoundInvariant(es, capacity, RoundLevel(active, left), remaining, rest)
    ensures Served(es, RoundLevel(active, left), result)
    ensures |remaining| < |active| && RoundLevel(active, left) >= l
  {
    WaitingNotServed(es, l, settled);
    NextRound(es, capacity, l, active, left);
    assert active[..|active|] == active;
    var served: U64 := DemandsAt(active, satisfied);
    result, remaining := SettleSatisfied(active, (set k | k in satisfied), settled, RoundLevel(active, left));
    ServedAfterRound(es, l, RoundLevel(active, left), settled, result);
    rest := SaturatingSub(left, served);
  }

  lemma FinishedWaterfill(es: seq<Entry>, capacity: nat, l: real, active: seq<Entry>, left: nat,
                          settled: Rates, result: Rates)
    requires RoundInvariant(es, capacity, l, active, left) && Served(es, l, settled)
    requires left == 0 || active == []
    requires Extends(settled, active, result)
    requires forall k :: 0 <= k < |active| ==> active[k].id in result && result[active[k].id] == 0
    ensures IsWaterfill(es, capacity, result)
  {
    if active == [] {
      assert result == settled;
      EveryoneServed(es, capacity, l, result);
    } else {
      IdsSplit(es, l);
      assert IdsUpTo(active, |active|) == Ids(active);
      NothingToDistribute(es, result);
    }
  }

  /** After the loop: everybody has been served, or there was nothing to distribute. */
  method Finish(ghost es: seq<Entry>, ghost capacity: nat, ghost l: real,
                active: seq<Entry>, ghost left: nat, settled: Rates)
    returns (result: Rates)
    requires AscendingIds(es) && RoundInvariant(es, capacity, l, active, left) && Served(es, l, settled)
    requires left == 0 || active == []
    ensures IsWaterfill(es, capacity, result)
  {
    WaitingNotServed(es, l, settled);
    result := SettleUnserved(active, settled);
    FinishedWaterfill(es, capacity, l, active, left, settled, result);
  }

  lemma FirstRound(es: seq<Entry>, capacity: nat)
    ensures RoundInvariant(es, capacity, 0.0, Hungry(es, 0.0), capacity)
  {
    var sated := Sated(es, 0.0);
    forall e | e in sated
      ensures e.demand == 0
    {
      ShareAtZero(e.weight);
      assert Satisfied(0.0)(e);
    }
    SumSame(DemandOf(), e => 0, sated);
    SumZero(sated);
    assert Offered(Hungry(es, 0.0), 0.0) == 0.0;
  }

  lemma FitsMeansSatisfied(active: seq<Entry>, shares: seq<U128>, l: real)
    requires SharesAt(active, shares, l)
    ensures forall k :: 0 <= k < |active| ==> (Satisfied(l)(active[k]) <==> active[k].demand <= shares[k])
  {
  }

  lemma NobodyPicked(active: seq<Entry>, satisfied: seq<int>, fits: Entry -> bool)
    requires Picks(active, satisfied, |active|, fits)
    ensures satisfied == [] <==> Filter(fits, active) == []
  {
    assert active[..|active|] == active;
  }

  /** One pass of the loop body; `last` when it is the round that satisfies nobody. */
  method Round(ghost es: seq<Entry>, ghost capacity: nat, ghost l: real,
               active: seq<Entry>, left: U64, settled: Rates)
    returns (result: Rates, remaining: seq<Entry>, rest: U64, last: bool, ghost m: real)
    requires AscendingIds(es) && RoundInvariant(es, capacity, l, active, left) && Served(es, l, settled)
    requires left > 0 && active != []
    ensures last ==> IsWaterfill(es, capacity, result)
    ensures !last ==> RoundInvariant(es, capacity, m, remaining, rest) && Served(es, m, result)
    ensures !last ==> |remaining| < |active| && l <= m
  {
    WaitingNotServed(es, l, settled);
    var shares := RoundShares(active, left);
    m := RoundLevel(active, left);
    FitsMeansSatisfied(active, shares, m);
    var satisfied := FindSatisfied(active, shares, Satisfied(m));
    NobodyPicked(active, satisfied, Satisfied(m));
    if satisfied == [] {
      result := PlayFinalRound(es, capacity, l, active, left, shares, settled);
      remaining, rest, last := [], 0, true;
    } else {
      result, remaining, rest := PlayRound(es, capacity, l, active, left, satisfied, settled);
      last := false;
    }
  }

  method WeightedMaxMin(entries: seq<Entry>, capacity: U64) returns (result: Rates)
    requires DistinctIds(entries)
    ensures IsWaterfill(Sort(ById(), entries), capacity, result)
  {
    ghost var es := Sort(ById(), entries);
    SortedAscending(entries);
    ghost var l := 0.0;
    var active;
    result, active := SettleZeroDemands(entries);
    FirstRound(es, capacity);

    var left: U64 := capacity;
    while left > 0 && active != []
      invariant RoundInvariant(es, capacity, l, active, left) && Served(es, l, result)
      decreases |active|
    {
      var last;
      result, active, left, last, l := Round(es, capacity, l, active, left, result);
      if last {
        return;
      }
    }
    result := Finish(es, capacity, l, active, left, result);
  }
}
