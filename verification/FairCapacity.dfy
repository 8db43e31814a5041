/** What a change of capacity does to the rates. */
module FairCapacity {
  import opened Common
  import opened Sequences
  import opened FairLevel
  import opened FairRounds
  import opened FairTheorems

  // ----- bounds that always hold

  /** More capacity costs nobody more than the one unit of rounding. */
  lemma CapacityMonotone(es: seq<Entry>, c: nat, a: Rates, d: nat, b: Rates, e: Entry)
    requires IsWaterfill(es, c, a) && IsWaterfill(es, d, b) && c <= d && e in es
    ensures e.id in a && e.id in b && b[e.id] + 1 >= a[e.id]
  {
    Conservation(es, c, a);
    Conservation(es, d, b);
    var la := LevelOf(es, c, a);
    var lb := LevelOf(es, d, b);
    if la.Some? && lb.Some? {
      LevelMonotone(es, c, la.value, d, lb.value);
      RateAtLevel(es, c, la.value, a, e);
      RateAtLevel(es, d, lb.value, b, e);
      Offers(la.value, lb.value, e.weight);
    }
  }

  ghost predicate EqualWeights(es: seq<Entry>, w: Weight) {
    forall e :: e in es ==> e.weight == w
  }

  lemma {:induction false} EqualShares(es: seq<Entry>, l: real, m: real, w: Weight)
    requires EqualWeights(es, w) && Share(l, w) == Share(m, w)
    ensures Hungry(es, l) == Hungry(es, m) && Sated(es, l) == Sated(es, m)
    ensures Sum(ShareAt(l), Hungry(es, l)) == Sum(ShareAt(m), Hungry(es, m))
  {
    FilterSame(Unsatisfied(l), Unsatisfied(m), es);
    FilterSame(Satisfied(l), Satisfied(m), es);
    SumSame(ShareAt(l), ShareAt(m), Hungry(es, l));
  }

  /** With equal weights, as leeches have, more capacity never costs anybody anything. */
  lemma EqualWeightsMonotone(es: seq<Entry>, w: Weight, c: nat, a: Rates, d: nat, b: Rates, e: Entry)
    requires EqualWeights(es, w)
    requires IsWaterfill(es, c, a) && IsWaterfill(es, d, b) && c <= d && e in es
    ensures e.id in a && e.id in b && b[e.id] >= a[e.id]
  {
    Conservation(es, c, a);
    Conservation(es, d, b);
    var la := LevelOf(es, c, a);
    var lb := LevelOf(es, d, b);
    if la.Some? && lb.Some? {
      var l, m := la.value, lb.value;
      LevelMonotone(es, c, l, d, m);
      Offers(l, m, w);
      RateAtLevel(es, c, l, a, e);
      RateAtLevel(es, d, m, b, e);
      if Share(l, w) == Share(m, w) {
        EqualShares(es, l, m, w);
        assert Remainder(es, c, l) <= Remainder(es, d, m);
        if Unsatisfied(l)(e) {
          assert e in Hungry(es, l);
          var k :| 0 <= k < |Hungry(es, l)| && Hungry(es, l)[k] == e;
        } else {
          assert e in Sated(es, l) && e in Sated(es, m);
        }
      }
    }
  }

  // ----- exactly who loses

  /** The rate of the `k`-th unsatisfied participant, at any level that uses up the capacity. */
  lemma HungryRate(es: seq<Entry>, c: nat, l: real, a: Rates, k: nat)
    requires IsWaterfill(es, c, a) && IsLevel(es, c, l) && c < Demand(es) && k < |Hungry(es, l)|
    ensures var e := Hungry(es, l)[k];
            e.id in a && a[e.id] == Share(l, e.weight) + if k < Remainder(es, c, l) then 1 else 0
  {
    var level := LevelOf(es, c, a);
    LevelMonotone(es, c, level.value, c, l);
    var e := Hungry(es, l)[k];
    assert e in es && e.id in Ids(es);
  }

  ghost predicate IsNth(es: seq<Entry>, n: int, e: Entry) {
    0 <= n < |es| && es[n] == e
  }

  /**
    Among the unsatisfied, `e` is early enough for a unit of the remainder at level `l`, too late for one at
    level `m`, and its offer rounds down to the same number at both.
  */
  ghost predicate DropsOut(es: seq<Entry>, c: nat, l: real, d: nat, m: real, e: Entry) {
    && Share(l, e.weight) == Share(m, e.weight)
    && exists k, j :: IsNth(Hungry(es, l), k, e) && IsNth(Hungry(es, m), j, e)
                   && k < Remainder(es, c, l) && Remainder(es, d, m) <= j
  }

  /** The participants for which growing the capacity from `c` to `d` is a loss. */
  ghost predicate Loses(es: seq<Entry>, c: nat, d: nat, e: Entry) {
    d < Demand(es) && exists l, m :: IsLevel(es, c, l) && IsLevel(es, d, m) && DropsOut(es, c, l, d, m, e)
  }

  /** Whoever is not hungry at both levels loses nothing. */
  lemma LoserIsHungry(es: seq<Entry>, c: nat, l: real, a: Rates, d: nat, m: real, b: Rates, e: Entry)
    requires AtLevel(es, c, Some(l), a) && AtLevel(es, d, Some(m), b) && l <= m && e in es
    ensures e.id in a && e.id in b
    ensures b[e.id] < a[e.id] ==>
              Unsatisfied(l)(e) && Unsatisfied(m)(e) && Share(l, e.weight) == Share(m, e.weight)
  {
    Offers(l, m, e.weight);
    RateAtLevel(es, c, l, a, e);
    RateAtLevel(es, d, m, b, e);
  }

  lemma HungryPlace(es: seq<Entry>, l: real, e: Entry) returns (k: nat)
    requires e in es && Unsatisfied(l)(e)
    ensures IsNth(Hungry(es, l), k, e)
  {
    assert e in Hungry(es, l);
    k :| 0 <= k < |Hungry(es, l)| && Hungry(es, l)[k] == e;
  }

  lemma LosesAtLevels(es: seq<Entry>, c: nat, l: real, a: Rates, d: nat, m: real, b: Rates, e: Entry)
    requires IsWaterfill(es, c, a) && IsWaterfill(es, d, b)
    requires AtLevel(es, c, Some(l), a) && AtLevel(es, d, Some(m), b) && l <= m && e in es
    ensures e.id in a && e.id in b
    ensures b[e.id] < a[e.id] <==> DropsOut(es, c, l, d, m, e)
  {
    LoserIsHungry(es, c, l, a, d, m, b, e);
    if b[e.id] < a[e.id] {
      var k := HungryPlace(es, l, e);
      var j := HungryPlace(es, m, e);
      HungryRate(es, c, l, a, k);
      HungryRate(es, d, m, b, j);
    }
    if DropsOut(es, c, l, d, m, e) {
      var k, j :| IsNth(Hungry(es, l), k, e) && IsNth(Hungry(es, m), j, e)
               && k < Remainder(es, c, l) && Remainder(es, d, m) <= j;
      HungryRate(es, c, l, a, k);
      HungryRate(es, d, m, b, j);
    }
  }

  /** For all inputs: growing the capacity takes something from `e` exactly when it drops out. */
  lemma LosesIff(es: seq<Entry>, c: nat, a: Rates, d: nat, b: Rates, e: Entry)
    requires IsWaterfill(es, c, a) && IsWaterfill(es, d, b) && c <= d && e in es
    ensures e.id in a && e.id in b
    ensures b[e.id] < a[e.id] <==> Loses(es, c, d, e)
  {
    Conservation(es, c, a);
    if Demand(es) <= d {
      AllServed(es, d, b, e);
    } else {
      var la := LevelOf(es, c, a);
      var lb := LevelOf(es, d, b);
      LevelMonotone(es, c, la.value, d, lb.value);
      LosesAtLevels(es, c, la.value, a, d, lb.value, b, e);
      if Loses(es, c, d, e) {
        var l, m :| IsLevel(es, c, l) && IsLevel(es, d, m) && DropsOut(es, c, l, d, m, e);
        LevelMonotone(es, c, l, c, la.value);
        LevelMonotone(es, d, m, d, lb.value);
      }
    }
  }

  // ----- the same in whole numbers, while no demand binds

  lemma {:induction false} FilterEmpty(p: Entry -> bool, es: seq<Entry>)
    requires forall e :: e in es ==> !p(e)
    ensures Filter(p, es) == []
  {
    if es != [] {
      FilterEmpty(p, es[1..]);
    }
  }

  /** While nobody is satisfied, the offers are the whole fill. */
  lemma AllHungry(es: seq<Entry>, l: real)
    requires forall e :: e in es ==> Unsatisfied(l)(e)
    ensures Hungry(es, l) == es && Demand(Sated(es, l)) == 0
    ensures Fill(es, l) == Offered(es, l)
  {
    FilterLength(Unsatisfied(l), es);
    FilterEmpty(Satisfied(l), es);
    FillSplit(es, l);
  }

  function Quotient(c: nat, q: nat): Entry -> int
    requires q > 0
  {
    (e: Entry) => c * e.weight / q
  }

  /** Everybody demands more than its part of the capacity by weight, rounded down. */
  ghost predicate NoDemandBinds(es: seq<Entry>, c: nat) {
    es != [] && Weights(es) > 0 && forall e :: e in es ==> e.demand > Quotient(c, Weights(es))(e)
  }

  function FloorLoss(es: seq<Entry>, c: nat): int
    requires Weights(es) > 0
  {
    c - Sum(Quotient(c, Weights(es)), es)
  }

  lemma UnboundShares(es: seq<Entry>, c: nat)
    requires NoDemandBinds(es, c)
    ensures forall e :: e in es ==> Share(RoundLevel(es, c), e.weight) == Quotient(c, Weights(es))(e)
  {
    forall e | e in es
      ensures Share(RoundLevel(es, c), e.weight) == Quotient(c, Weights(es))(e)
    {
      ShareIsQuotient(c, Weights(es), e.weight);
    }
  }

  /** Then the level is the capacity over all weights, and what rounding loses is read off the quotients. */
  lemma UnboundLevel(es: seq<Entry>, c: nat)
    requires NoDemandBinds(es, c)
    ensures var l := RoundLevel(es, c);
            && IsLevel(es, c, l) && c < Demand(es) && Hungry(es, l) == es
            && Remainder(es, c, l) == FloorLoss(es, c)
  {
    var l := RoundLevel(es, c);
    UnboundShares(es, c);
    AllHungry(es, l);
    RoundLevelOffers(es, c);
    SumSame(ShareAt(l), Quotient(c, Weights(es)), es);
    HungryWantsMore(es, l);
  }

  lemma QuotientGrows(e: Entry, c: nat, d: nat, q: nat)
    requires c <= d && q > 0
    ensures Quotient(c, q)(e) <= Quotient(d, q)(e)
  {
    ProductMonotone(c, d, e.weight);
    QuotientMonotone(c * e.weight, d * e.weight, q);
  }

  lemma UnboundBelow(es: seq<Entry>, c: nat, d: nat)
    requires c <= d && NoDemandBinds(es, d)
    ensures NoDemandBinds(es, c)
  {
    forall e | e in es
      ensures e.demand > Quotient(c, Weights(es))(e)
    {
      QuotientGrows(e, c, d, Weights(es));
    }
  }

  /** The rate of the `k`-th participant: its part by weight rounded down, and for the first ones one unit more. */
  lemma UnboundRate(es: seq<Entry>, c: nat, a: Rates, k: nat)
    requires NoDemandBinds(es, c) && IsWaterfill(es, c, a) && k < |es|
    ensures es[k].id in a
    ensures a[es[k].id] == Quotient(c, Weights(es))(es[k]) + if k < FloorLoss(es, c) then 1 else 0
  {
    UnboundLevel(es, c);
    UnboundShares(es, c);
    HungryRate(es, c, RoundLevel(es, c), a, k);
  }

  /** While no demand binds, who loses can be read off the quotients. */
  lemma UnboundLosesIff(es: seq<Entry>, c: nat, a: Rates, d: nat, b: Rates, k: nat)
    requires NoDemandBinds(es, d) && c <= d && IsWaterfill(es, c, a) && IsWaterfill(es, d, b) && k < |es|
    ensures es[k].id in a && es[k].id in b
    ensures b[es[k].id] < a[es[k].id]
       <==> && Quotient(c, Weights(es))(es[k]) == Quotient(d, Weights(es))(es[k])
            && FloorLoss(es, d) <= k < FloorLoss(es, c)
  {
    UnboundBelow(es, c, d);
    UnboundRate(es, c, a, k);
    UnboundRate(es, d, b, k);
    QuotientGrows(es[k], c, d, Weights(es));
  }
}
