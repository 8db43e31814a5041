/** The allocator's rounds: each divides what is left by the weight still waiting, and only ever raises the level. */
module FairRounds {
  import opened Common
  import opened Sequences
  import opened FairLevel

  /** `a` has an entry for each participant `fits` accepts, its demand, and no other entry. */
  ghost predicate HoldsDemands(fits: Entry -> bool, es: seq<Entry>, a: Rates) {
    && a.Keys == Ids(Filter(fits, es))
    && forall e :: e in Filter(fits, es) ==> a[e.id] == e.demand
  }

  /** Everything already settled: those satisfied at level `l` hold their demand, nobody else has an entry. */
  ghost predicate Served(es: seq<Entry>, l: real, a: Rates) {
    HoldsDemands(Satisfied(l), es, a)
  }

  ghost predicate Within(indices: seq<int>, n: nat) {
    forall i :: 0 <= i < |indices| ==> 0 <= indices[i] < n
  }

  function DemandsAt(active: seq<Entry>, indices: seq<int>): int
    requires Within(indices, |active|)
  {
    if indices == [] then 0
    else active[indices[0]].demand + DemandsAt(active, indices[1..])
  }

  lemma {:induction false} DemandsAtPush(active: seq<Entry>, indices: seq<int>, k: nat)
    requires k < |active| && Within(indices, |active|)
    ensures DemandsAt(active, indices + [k]) == DemandsAt(active, indices) + active[k].demand
  {
    if indices == [] {
      assert [] + [k] == [k] && [k][1..] == [];
    } else {
      DemandsAtPush(active, indices[1..], k);
      assert (indices + [k])[1..] == indices[1..] + [k];
    }
  }

  /** `indices` picks out exactly the entries among the first `n` that `fits` accepts. */
  ghost predicate Picks(active: seq<Entry>, indices: seq<int>, n: nat, fits: Entry -> bool)
    requires n <= |active|
  {
    && Within(indices, n)
    && (forall k :: 0 <= k < n ==> (k in indices <==> fits(active[k])))
    && DemandsAt(active, indices) == Demand(Filter(fits, active[..n]))
    && |indices| == |Filter(fits, active[..n])|
  }

  lemma MemberPush(indices: seq<int>, n: int, k: int)
    ensures k in indices + [n] <==> k in indices || k == n
  {
    assert (indices + [n])[|indices|] == n;
  }

  lemma {:induction false} FilterPush(p: Entry -> bool, es: seq<Entry>, k: nat)
    requires k < |es|
    ensures Filter(p, es[..k + 1]) == Filter(p, es[..k]) + if p(es[k]) then [es[k]] else []
  {
    assert es[..k + 1] == es[..k] + [es[k]];
    FilterAppend(p, es[..k], [es[k]]);
    assert [es[k]][1..] == [];
  }

  lemma SumPush(f: Entry -> int, es: seq<Entry>, e: Entry)
    ensures Sum(f, es + [e]) == Sum(f, es) + f(e)
  {
    SumAppend(f, es, [e]);
    assert Sum(f, [e][1..]) == 0;
  }

  lemma PicksPush(active: seq<Entry>, indices: seq<int>, n: nat, fits: Entry -> bool)
    requires n < |active| && Picks(active, indices, n, fits)
    ensures Picks(active, if fits(active[n]) then indices + [n] else indices, n + 1, fits)
  {
    FilterPush(fits, active, n);
    var before := Filter(fits, active[..n]);
    assert Within(indices, |active|);
    if fits(active[n]) {
      DemandsAtPush(active, indices, n);
      SumPush(DemandOf(), before, active[n]);
      forall k | 0 <= k < n + 1
        ensures k in indices + [n] <==> fits(active[k])
      {
        MemberPush(indices, n, k);
      }
    } else {
      assert Filter(fits, active[..n + 1]) == before;
    }
  }

  lemma {:induction false} AscendingBound(es: seq<Entry>)
    requires AscendingIds(es)
    ensures |es| < TWO16
    ensures es != [] ==> es[|es| - 1].id >= |es|
  {
    if es != [] {
      var n := |es| - 1;
      AscendingBound(es[..n]);
      if n > 0 {
        assert es[..n][n - 1].id < es[n].id;
      }
      assert |es| <= es[n].id < TWO16;
    }
  }

  lemma {:induction false} WeightsBound(es: seq<Entry>)
    ensures |es| <= Weights(es) <= |es| * TWO32
  {
    if es != [] {
      WeightsBound(es[1..]);
    }
  }

  lemma {:induction false} FilterAscending(p: Entry -> bool, es: seq<Entry>)
    requires AscendingIds(es)
    ensures AscendingIds(Filter(p, es))
  {
    if es != [] {
      FilterAscending(p, es[1..]);
      forall e | e in Filter(p, es[1..])
        ensures es[0].id < e.id
      {
        assert e in es[1..];
      }
    }
  }

  lemma ByIdPreorder()
    ensures TotalPreorder(ById())
  {
  }

  lemma TwiceInSorted(es: seq<Entry>, r: seq<Entry>, i: nat, j: nat)
    requires multiset(r) == multiset(es)
    requires i < j < |r| && r[i].id == r[j].id
    ensures !DistinctIds(es)
  {
    assert r[i] in multiset(es) && r[j] in multiset(es);
    var m :| 0 <= m < |es| && es[m] == r[i];
    var n :| 0 <= n < |es| && es[n] == r[j];
    if m == n {
      assert r == r[..i] + [r[i]] + r[i + 1..j] + [r[j]] + r[j + 1..];
      assert multiset(r)[r[i]] >= 2;
      assert es == es[..m] + [es[m]] + es[m + 1..];
      assert es[m] in multiset(es[..m]) + multiset(es[m + 1..]);
    }
  }

  lemma SortedAscending(es: seq<Entry>)
    requires DistinctIds(es)
    ensures AscendingIds(Sort(ById(), es))
  {
    ByIdPreorder();
    SortAscends(ById(), es);
    var r := Sort(ById(), es);
    forall i, j | 0 <= i < j < |r|
      ensures r[i].id < r[j].id
    {
      assert ById()(r[i], r[j]);
      if r[i].id == r[j].id {
        TwiceInSorted(es, r, i, j);
      }
    }
  }

  // ----- one round

  /** The level of a round that divides `capacity` among `active`. */
  ghost function RoundLevel(active: seq<Entry>, capacity: nat): real
    requires Weights(active) > 0
  {
    capacity as real / Weights(active) as real
  }

  lemma RoundLevelOffers(active: seq<Entry>, capacity: nat)
    requires Weights(active) > 0
    ensures Offered(active, RoundLevel(active, capacity)) == capacity as real
  {
  }

  /** The level never falls from one round to the next. */
  lemma RoundLevelRises(active: seq<Entry>, capacity: nat, l: real)
    requires Weights(active) > 0 && Offered(active, l) <= capacity as real && l >= 0.0
    ensures l <= RoundLevel(active, capacity)
  {
    var q := Weights(active) as real;
    if l > capacity as real / q {
      assert l * q > (capacity as real / q) * q;
    }
  }

  lemma OfferedAdd(all: seq<Entry>, some: seq<Entry>, others: seq<Entry>, l: real)
    requires Weights(all) == Weights(some) + Weights(others)
    ensures Offered(all, l) == Offered(some, l) + Offered(others, l)
  {
    ProductAdd(l, Weights(some), Weights(others));
  }

  lemma OfferedSplit(active: seq<Entry>, l: real)
    ensures Offered(active, l)
         == Offered(Filter(Satisfied(l), active), l) + Offered(Filter(Unsatisfied(l), active), l)
  {
    SumSplit(WeightOf(), Satisfied(l), Unsatisfied(l), active);
    OfferedAdd(active, Filter(Satisfied(l), active), Filter(Unsatisfied(l), active), l);
  }

  lemma OfferedPositive(active: seq<Entry>, l: real)
    requires active != [] && l > 0.0
    ensures Offered(active, l) > 0.0
  {
    WeightsBound(active);
  }

  lemma {:induction false} DemandNonNegative(es: seq<Entry>)
    ensures Demand(es) >= 0
  {
    if es != [] {
      DemandNonNegative(es[1..]);
    }
  }

  /** The satisfied take no more than their offers, so the level is still affordable for the rest. */
  lemma RoundBudget(active: seq<Entry>, capacity: nat, l: real)
    requires l > 0.0 && Offered(active, l) == capacity as real
    ensures var taken := Demand(Filter(Satisfied(l), active));
            var rest := Filter(Unsatisfied(l), active);
            && 0 <= taken <= capacity
            && Offered(rest, l) <= (capacity - taken) as real
            && (rest != [] ==> taken < capacity)
  {
    var done, rest := Filter(Satisfied(l), active), Filter(Unsatisfied(l), active);
    OfferedSplit(active, l);
    RoundingLoss(done, l);
    SumAtMost(DemandOf(), ShareAt(l), done);
    DemandNonNegative(done);
    if rest != [] {
      OfferedPositive(rest, l);
    } else {
      assert Offered(rest, l) == 0.0;
    }
  }

  /** What a round settles, seen from the whole list of participants. */
  lemma RoundProgress(es: seq<Entry>, l: real, m: real)
    requires 0.0 <= l <= m
    ensures var active := Hungry(es, l);
            && Filter(Unsatisfied(m), active) == Hungry(es, m)
            && Demand(Sated(es, m)) == Demand(Sated(es, l)) + Demand(Filter(Satisfied(m), active))
            && forall e :: e in Sated(es, m) <==> e in Sated(es, l) || (e in active && Satisfied(m)(e))
  {
    var active := Hungry(es, l);
    HungryShrinks(es, l, m);
    SumSplit(DemandOf(), Satisfied(l), Unsatisfied(l), es);
    SumSplit(DemandOf(), Satisfied(m), Unsatisfied(m), es);
    SumSplit(DemandOf(), Satisfied(m), Unsatisfied(m), active);
    forall e: Entry | Satisfied(l)(e)
      ensures Satisfied(m)(e)
    {
      Offers(l, m, e.weight);
    }
  }

  lemma {:induction false} DemandAboveShares(es: seq<Entry>, l: real)
    requires forall e :: e in es ==> Unsatisfied(l)(e)
    ensures Demand(es) >= Sum(ShareAt(l), es) + |es|
  {
    if es != [] {
      assert es[0] in es;
      DemandAboveShares(es[1..], l);
    }
  }

  lemma HungryWantsMore(es: seq<Entry>, l: real)
    requires Hungry(es, l) != [] && l >= 0.0
    ensures Fill(es, l) < Demand(es) as real
  {
    var hungry := Hungry(es, l);
    FillSplit(es, l);
    SumSplit(DemandOf(), Satisfied(l), Unsatisfied(l), es);
    RoundingLoss(hungry, l);
    DemandAboveShares(hungry, l);
  }

  /** A round that satisfies nobody is played at the water level. */
  lemma LastRound(es: seq<Entry>, capacity: nat, l: real, m: real, left: nat)
    requires 0.0 <= l <= m && Hungry(es, l) != []
    requires left == capacity - Demand(Sated(es, l))
    requires Offered(Hungry(es, l), m) == left as real
    requires Filter(Satisfied(m), Hungry(es, l)) == []
    ensures Hungry(es, m) == Hungry(es, l) && Demand(Sated(es, m)) == Demand(Sated(es, l))
    ensures IsLevel(es, capacity, m) && capacity < Demand(es)
  {
    var active := Hungry(es, l);
    RoundProgress(es, l, m);
    forall e | e in active
      ensures Unsatisfied(m)(e)
    {
      assert e !in Filter(Satisfied(m), active);
    }
    FilterLength(Unsatisfied(m), active);
    FillSplit(es, m);
    FillMonotone(es, m, m);
    HungryWantsMore(es, m);
  }
}
