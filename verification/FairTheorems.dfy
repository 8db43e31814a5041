/** What every weighted max-min allocation satisfies, whatever the demands and weights. */
module FairTheorems {
  import opened Common
  import opened Sequences
  import opened FairLevel

  // ----- rates one by one

  lemma LevelOf(es: seq<Entry>, capacity: nat, a: Rates) returns (level: Option<real>)
    requires IsWaterfill(es, capacity, a)
    ensures AtLevel(es, capacity, level, a)
  {
    level :| AtLevel(es, capacity, level, a);
  }

  /** Below full service, each gets its demand if the offer covers it, and else the offer rounded down or one more. */
  lemma RateAtLevel(es: seq<Entry>, capacity: nat, l: real, a: Rates, e: Entry)
    requires AtLevel(es, capacity, Some(l), a) && e in es
    ensures e.id in a
    ensures if Unsatisfied(l)(e) then Share(l, e.weight) <= a[e.id] <= Share(l, e.weight) + 1 && a[e.id] <= e.demand
            else a[e.id] == e.demand <= Share(l, e.weight)
  {
    assert e.id in Ids(es);
    if Unsatisfied(l)(e) {
      assert e in Hungry(es, l);
      var k :| 0 <= k < |Hungry(es, l)| && Hungry(es, l)[k] == e;
    } else {
      assert e in Sated(es, l);
    }
  }

  // ----- conservation

  lemma {:induction false} RoundedSum(hungry: seq<Entry>, l: real, r: int, a: Rates)
    requires 0 <= r <= |hungry|
    requires forall k :: 0 <= k < |hungry| ==>
               hungry[k].id in a && a[hungry[k].id] == Share(l, hungry[k].weight) + (if k < r then 1 else 0)
    ensures Granted(hungry, a) == Sum(ShareAt(l), hungry) + r
  {
    if hungry != [] {
      assert hungry[0].id in a;
      forall k | 0 <= k < |hungry[1..]|
        ensures var e := hungry[1..][k];
                e.id in a && a[e.id] == Share(l, e.weight) + (if k < Max(r - 1, 0) then 1 else 0)
      {
        assert hungry[1..][k] == hungry[k + 1];
      }
      RoundedSum(hungry[1..], l, Max(r - 1, 0), a);
    }
  }

  /** Exactly min(capacity, total demand) is handed out, and nobody gets more than it asked for. */
  lemma Conservation(es: seq<Entry>, capacity: nat, a: Rates)
    requires IsWaterfill(es, capacity, a)
    ensures Granted(es, a) == Min(capacity, Demand(es))
    ensures forall e :: e in es ==> e.id in a && a[e.id] <= e.demand
  {
    var level := LevelOf(es, capacity, a);
    forall e | e in es
      ensures e.id in a && a[e.id] <= e.demand
    {
      assert e.id in Ids(es);
      if level.Some? {
        RateAtLevel(es, capacity, level.value, a, e);
      }
    }
    match level
    case None =>
      SumSame(RateIn(a), DemandOf(), es);
    case Some(l) =>
      RemainderBound(es, capacity, l);
      SumSplit(RateIn(a), Unsatisfied(l), Satisfied(l), es);
      SumSame(RateIn(a), DemandOf(), Sated(es, l));
      forall e | e in Hungry(es, l)
        ensures e.id in a
      {
        assert e.id in Ids(es);
      }
      RoundedSum(Hungry(es, l), l, Remainder(es, capacity, l), a);
  }

  // ----- determinism

  lemma SameKeysSameRates(es: seq<Entry>, a: Rates, b: Rates)
    requires a.Keys == b.Keys == Ids(es)
    requires forall e :: e in es ==> e.id in a && e.id in b && a[e.id] == b[e.id]
    ensures a == b
  {
    forall id | id in a
      ensures a[id] == b[id]
    {
      assert id in Ids(es);
    }
  }

  /** The reference has one answer: entries and capacity determine every rate. */
  lemma Deterministic(es: seq<Entry>, capacity: nat, a: Rates, b: Rates)
    requires IsWaterfill(es, capacity, a) && IsWaterfill(es, capacity, b)
    ensures a == b
  {
    var la := LevelOf(es, capacity, a);
    var lb := LevelOf(es, capacity, b);
    if la.Some? {
      LevelMonotone(es, capacity, la.value, capacity, lb.value);
      forall e | e in es
        ensures e.id in a && e.id in b && a[e.id] == b[e.id]
      {
        var l := la.value;
        assert e.id in Ids(es);
        if Unsatisfied(l)(e) {
          assert e in Hungry(es, l);
        } else {
          assert e in Sated(es, l);
        }
      }
    } else {
      assert forall e :: e in es ==> e.id in Ids(es);
    }
    SameKeysSameRates(es, a, b);
  }

  // ----- optimality

  ghost predicate Feasible(es: seq<Entry>, capacity: nat, x: Rates) {
    && x.Keys == Ids(es)
    && (forall e :: e in es ==> e.id in x && x[e.id] <= e.demand)
    && Granted(es, x) <= capacity
  }

  /** Per unit of weight, `ai` less one unit is still below `aj` plus one unit. */
  ghost predicate NotAhead(ai: int, wi: int, aj: int, wj: int) {
    (ai - 1) * wj < (aj + 1) * wi
  }

  lemma CrossMultiply(l: real, ai: nat, wi: Weight, aj: nat, wj: Weight)
    requires ai - 1 <= Share(l, wi) && Share(l, wj) <= aj
    ensures NotAhead(ai, wi, aj, wj)
  {
    var x, y := l * wi as real, l * wj as real;
    assert (ai - 1) as real * wj as real <= x * wj as real;
    assert x * wj as real == y * wi as real;
    assert y * wi as real < (aj + 1) as real * wi as real;
    assert (ai - 1) as real * wj as real == ((ai - 1) * wj) as real;
    assert (aj + 1) as real * wi as real == ((aj + 1) * wi) as real;
  }

  lemma AllServed(es: seq<Entry>, capacity: nat, a: Rates, e: Entry)
    requires IsWaterfill(es, capacity, a) && Demand(es) <= capacity && e in es
    ensures e.id in a && a[e.id] == e.demand
  {
    var level := LevelOf(es, capacity, a);
    assert e.id in Ids(es);
  }

  /** Within the same capacity nobody gains unless somebody loses. */
  lemma SomebodyLoses(es: seq<Entry>, capacity: nat, a: Rates, x: Rates, j: Entry) returns (i: Entry)
    requires IsWaterfill(es, capacity, a) && Feasible(es, capacity, x)
    requires j in es && j.id in a && j.id in x && x[j.id] > a[j.id]
    ensures i in es && i.id in a && i.id in x && x[i.id] < a[i.id]
    ensures capacity < Demand(es)
  {
    Conservation(es, capacity, a);
    if Demand(es) <= capacity {
      AllServed(es, capacity, a, j);
    }
    if forall i :: i in es ==> RateIn(a)(i) <= RateIn(x)(i) {
      assert RateIn(a)(j) < RateIn(x)(j);
      SumAtMost(RateIn(a), RateIn(x), es);
      assert false;
    }
    i :| i in es && RateIn(a)(i) > RateIn(x)(i);
  }

  /**
    No rival can do better for one participant, `j`, without taking from another, `i`, who gets no more
    per unit of weight than `j` does, but for the rounding of one unit on each side.
  */
  lemma MaxMinOptimal(es: seq<Entry>, capacity: nat, a: Rates, x: Rates, j: Entry)
    requires IsWaterfill(es, capacity, a) && Feasible(es, capacity, x)
    requires j in es && j.id in a && j.id in x && x[j.id] > a[j.id]
    ensures exists i :: i in es && i.id in a && i.id in x && x[i.id] < a[i.id]
                     && NotAhead(a[i.id], i.weight, a[j.id], j.weight)
  {
    var i := SomebodyLoses(es, capacity, a, x, j);
    var level := LevelOf(es, capacity, a);
    var l := level.value;
    RateAtLevel(es, capacity, l, a, i);
    RateAtLevel(es, capacity, l, a, j);
    CrossMultiply(l, a[i.id], i.weight, a[j.id], j.weight);
  }
}
