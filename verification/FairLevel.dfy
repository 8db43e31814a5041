/**
  The reference definition of weighted max-min fairness: one real number, the water level `l`.
  A participant of weight `w` is offered `l * w`, and takes no more than it demands. The level is
  right when the offers taken add up to the capacity. Rates are whole numbers: an offer is rounded
  down, and the units lost to rounding go one each to the first unsatisfied participants in id order.
*/
module FairLevel {
  import opened Common
  import opened Sequences

  type Id = n: int | 0 < n < TWO16 witness 1
  type Weight = n: int | 0 < n < TWO32 witness 1

  datatype Entry = Entry(id: Id, demand: U64, weight: Weight)

  type Rates = map<Id, nat>

  function ById(): (Entry, Entry) -> bool {
    (a: Entry, b: Entry) => a.id <= b.id
  }

  ghost predicate DistinctIds(es: seq<Entry>) {
    forall i, j :: 0 <= i < j < |es| ==> es[i].id != es[j].id
  }

  ghost predicate AscendingIds(es: seq<Entry>) {
    forall i, j :: 0 <= i < j < |es| ==> es[i].id < es[j].id
  }

  ghost function Ids(es: seq<Entry>): set<Id> {
    set e | e in es :: e.id
  }

  function DemandOf(): Entry -> int {
    (e: Entry) => e.demand
  }

  function WeightOf(): Entry -> int {
    (e: Entry) => e.weight
  }

  function Demand(es: seq<Entry>): int {
    Sum(DemandOf(), es)
  }

  function Weights(es: seq<Entry>): int {
    Sum(WeightOf(), es)
  }

  /** What participants receive together. */
  function RateIn(a: Rates): Entry -> int {
    (e: Entry) => if e.id in a then a[e.id] else 0
  }

  function Granted(es: seq<Entry>, a: Rates): int {
    Sum(RateIn(a), es)
  }

  /** The whole units in the offer made to weight `w` at level `l`. */
  function Share(l: real, w: Weight): int {
    (l * w as real).Floor
  }

  function ShareAt(l: real): Entry -> int {
    (e: Entry) => Share(l, e.weight)
  }

  function Unsatisfied(l: real): Entry -> bool {
    (e: Entry) => e.demand > Share(l, e.weight)
  }

  function Satisfied(l: real): Entry -> bool {
    (e: Entry) => e.demand <= Share(l, e.weight)
  }

  function Hungry(es: seq<Entry>, l: real): seq<Entry> {
    Filter(Unsatisfied(l), es)
  }

  function Sated(es: seq<Entry>, l: real): seq<Entry> {
    Filter(Satisfied(l), es)
  }

  /** What a participant takes of the offer made at level `l`. */
  ghost function Taken(e: Entry, l: real): real {
    var offer := l * e.weight as real;
    if e.demand as real <= offer then e.demand as real else offer
  }

  /** What the participants take together at level `l`. */
  ghost function Fill(es: seq<Entry>, l: real): real {
    if es == [] then 0.0 else Taken(es[0], l) + Fill(es[1..], l)
  }

  ghost predicate IsLevel(es: seq<Entry>, capacity: nat, l: real) {
    l >= 0.0 && Fill(es, l) == capacity as real
  }

  /** The units that rounding the offers at level `l` leaves over. */
  ghost function Remainder(es: seq<Entry>, capacity: nat, l: real): int {
    capacity - Demand(Sated(es, l)) - Sum(ShareAt(l), Hungry(es, l))
  }

  /** `a` rounds the offers at level `l`; `es` is in id order. */
  ghost predicate Rounds(es: seq<Entry>, capacity: nat, l: real, a: Rates) {
    var hungry := Hungry(es, l);
    && a.Keys == Ids(es)
    && (forall e :: e in Sated(es, l) ==> a[e.id] == e.demand)
    && forall k :: 0 <= k < |hungry| ==>
         a[hungry[k].id] == Share(l, hungry[k].weight) + (if k < Remainder(es, capacity, l) then 1 else 0)
  }

  /** Everybody served in full, or the rounded offers at the level that uses up the capacity. */
  ghost predicate AtLevel(es: seq<Entry>, capacity: nat, level: Option<real>, a: Rates) {
    match level
    case None => Demand(es) <= capacity && a.Keys == Ids(es) && forall e :: e in es ==> a[e.id] == e.demand
    case Some(l) => capacity < Demand(es) && IsLevel(es, capacity, l) && Rounds(es, capacity, l, a)
  }

  /** The reference: `a` is what weighted max-min fairness gives `es` out of `capacity`. */
  ghost predicate IsWaterfill(es: seq<Entry>, capacity: nat, a: Rates) {
    exists level :: AtLevel(es, capacity, level, a)
  }

  // ----- arithmetic of offers

  lemma Offers(l: real, m: real, w: Weight)
    requires 0.0 <= l <= m
    ensures 0.0 <= l * w as real <= m * w as real
    ensures l < m ==> l * w as real < m * w as real
    ensures 0 <= Share(l, w) <= Share(m, w)
  {
  }

  lemma OfferTimes(p: nat, q: nat, w: Weight)
    requires q > 0
    ensures (p as real / q as real) * w as real * q as real == (p * w) as real
  {
    var level := p as real / q as real;
    assert level * q as real == p as real;
    assert level * w as real * q as real == level * q as real * w as real;
  }

  lemma FloorOfQuotient(x: real, p: nat, q: nat, s: int)
    requires q > 0 && x * q as real == p as real && s * q <= p < (s + 1) * q
    ensures x.Floor == s
  {
    assert s as real * q as real == (s * q) as real;
    assert (s + 1) as real * q as real == ((s + 1) * q) as real;
    assert s as real <= x < (s + 1) as real;
  }

  /** A level written as a fraction offers what integer division computes. */
  lemma ShareIsQuotient(p: nat, q: nat, w: Weight)
    requires q > 0
    ensures Share(p as real / q as real, w) == p * w / q
  {
    QuotientBounds(p * w, q);
    OfferTimes(p, q, w);
    FloorOfQuotient((p as real / q as real) * w as real, p * w, q, p * w / q);
  }

  // ----- the fill level

  lemma TakenMonotone(e: Entry, l: real, m: real)
    requires 0.0 <= l <= m
    ensures 0.0 <= Taken(e, l) <= Taken(e, m) <= e.demand as real
    ensures l < m && Taken(e, l) < e.demand as real ==> Taken(e, l) < Taken(e, m)
  {
    Offers(l, m, e.weight);
  }

  lemma {:induction false} FillMonotone(es: seq<Entry>, l: real, m: real)
    requires 0.0 <= l <= m
    ensures Fill(es, l) <= Fill(es, m) <= Demand(es) as real
    ensures l < m && Fill(es, l) < Demand(es) as real ==> Fill(es, l) < Fill(es, m)
  {
    if es != [] {
      FillMonotone(es[1..], l, m);
      TakenMonotone(es[0], l, m);
    }
  }

  lemma ProductAdd(l: real, a: int, b: int)
    ensures l * (a + b) as real == l * a as real + l * b as real
  {
    assert (a + b) as real == a as real + b as real;
  }

  lemma TakenWhich(e: Entry, l: real)
    ensures Taken(e, l) == if Unsatisfied(l)(e) then l * e.weight as real else e.demand as real
  {
  }

  /** The satisfied take their demand and the others the level times their weight. */
  ghost function Offered(es: seq<Entry>, l: real): real {
    l * Weights(es) as real
  }

  ghost function SplitFill(es: seq<Entry>, l: real): real {
    Demand(Sated(es, l)) as real + Offered(Hungry(es, l), l)
  }

  lemma SplitFillStep(es: seq<Entry>, l: real)
    requires es != []
    ensures SplitFill(es, l) == Taken(es[0], l) + SplitFill(es[1..], l)
  {
    var e, rest := es[0], es[1..];
    TakenWhich(e, l);
    if Unsatisfied(l)(e) {
      SumCons(WeightOf(), e, Hungry(rest, l));
      ProductAdd(l, e.weight, Weights(Hungry(rest, l)));
      assert Sated(es, l) == Sated(rest, l);
    } else {
      SumCons(DemandOf(), e, Sated(rest, l));
      assert Hungry(es, l) == Hungry(rest, l);
    }
  }

  lemma {:induction false} FillSplit(es: seq<Entry>, l: real)
    ensures Fill(es, l) == SplitFill(es, l)
  {
    if es == [] {
      assert Weights(Hungry(es, l)) == 0;
    } else {
      FillSplit(es[1..], l);
      SplitFillStep(es, l);
    }
  }

  /** A larger capacity never lowers the level; the level for a capacity below demand is unique. */
  lemma LevelMonotone(es: seq<Entry>, c: nat, l: real, d: nat, m: real)
    requires IsLevel(es, c, l) && IsLevel(es, d, m)
    requires c <= d < Demand(es)
    ensures l <= m
    ensures c == d ==> l == m
  {
    if m < l {
      FillMonotone(es, m, l);
    } else if l < m {
      FillMonotone(es, l, m);
    }
  }

  /** Raising the level only takes participants out of the unsatisfied set. */
  lemma HungryShrinks(es: seq<Entry>, l: real, m: real)
    requires 0.0 <= l <= m
    ensures Hungry(Hungry(es, l), m) == Hungry(es, m)
    ensures forall e :: e in Hungry(es, m) ==> e in Hungry(es, l)
  {
    forall e: Entry | Unsatisfied(m)(e)
      ensures Unsatisfied(l)(e)
    {
      Offers(l, m, e.weight);
    }
    FilterFilter(Unsatisfied(m), Unsatisfied(l), es);
  }

  /** Rounding the offers down loses less than one unit per unsatisfied participant. */
  lemma {:induction false} RoundingLoss(es: seq<Entry>, l: real)
    requires 0.0 <= l
    ensures Sum(ShareAt(l), es) as real <= Offered(es, l) <= (Sum(ShareAt(l), es) + |es|) as real
    ensures es != [] ==> Offered(es, l) < (Sum(ShareAt(l), es) + |es|) as real
  {
    if es != [] {
      RoundingLoss(es[1..], l);
      ProductAdd(l, es[0].weight, Weights(es[1..]));
    }
  }

  /** The remainder is smaller than the number of unsatisfied participants, so one pass hands it out. */
  lemma RemainderBound(es: seq<Entry>, c: nat, l: real)
    requires IsLevel(es, c, l) && c < Demand(es)
    ensures 0 <= Remainder(es, c, l) < |Hungry(es, l)|
  {
    var hungry := Hungry(es, l);
    FillSplit(es, l);
    RoundingLoss(hungry, l);
    SumSplit(DemandOf(), Unsatisfied(l), Satisfied(l), es);
    assert c as real == Demand(Sated(es, l)) as real + Offered(hungry, l);
  }
}
