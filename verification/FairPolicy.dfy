/** What the two-phase allocation promises its participants, over every input. */
module FairPolicy {
  import opened Common
  import opened Sequences
  import opened FairLevel
  import opened FairRounds
  import opened FairTheorems
  import opened FairCapacity
  import opened FairShares

  function DemandFor(id: Id, ds: seq<Request>): U64 {
    if ds == [] then 0
    else if ds[|ds| - 1].participant == id then ds[|ds| - 1].rate
    else DemandFor(id, ds[..|ds| - 1])
  }

  function TotalRate(ds: seq<Request>): nat {
    if ds == [] then 0 else TotalRate(ds[..|ds| - 1]) + ds[|ds| - 1].rate
  }

  /** The two phases' rates side by side. */
  ghost predicate Parts(keys: seq<Id>, classes: Classes, demands: Demands, one: Rates, two: Rates, share: FairShare)
  {
    && InOrder(keys, classes.Keys)
    && one.Keys == Ids(ClassEntries(keys, classes, demands, true))
    && two.Keys == Ids(ClassEntries(keys, classes, demands, false))
    && share.allocations == one + two
    && AscendingIds(ClassEntries(keys, classes, demands, true))
    && AscendingIds(ClassEntries(keys, classes, demands, false))
  }

  lemma Unpack(capacity: nat, ps: seq<Participant>, ds: seq<Request>, share: FairShare)
    returns (keys: seq<Id>, classes: Classes, demands: Demands, one: Rates, left: nat, two: Rates)
    requires IsFairShare(capacity, ps, ds, share)
    ensures ClassesOf(ps, classes) && DemandsOf(ds, demands)
    ensures Parts(keys, classes, demands, one, two, share)
    ensures TwoPhases(capacity, ClassEntries(keys, classes, demands, true),
                      ClassEntries(keys, classes, demands, false), one, left, two, share)
  {
    keys, classes, demands, one, left, two :|
      && ClassesOf(ps, classes) && DemandsOf(ds, demands) && InOrder(keys, classes.Keys)
      && TwoPhases(capacity, ClassEntries(keys, classes, demands, true),
                   ClassEntries(keys, classes, demands, false), one, left, two, share);
    ClassAscending(keys, classes, demands, true);
    ClassAscending(keys, classes, demands, false);
    WaterfillKeys(ClassEntries(keys, classes, demands, true), capacity, one);
    WaterfillKeys(ClassEntries(keys, classes, demands, false), left, two);
  }

  lemma LastIsNew(ds: seq<Request>)
    requires ds != [] && DistinctRequests(ds)
    ensures forall d :: d in ds[..|ds| - 1] ==> d.participant != ds[|ds| - 1].participant
  {
    forall d | d in ds[..|ds| - 1]
      ensures d.participant != ds[|ds| - 1].participant
    {
      var k :| 0 <= k < |ds| - 1 && ds[k] == d;
    }
  }

  lemma DemandsPop(ds: seq<Request>, demands: Demands)
    requires ds != [] && DistinctRequests(ds) && DemandsOf(ds, demands)
    ensures DemandsOf(ds[..|ds| - 1], demands - {ds[|ds| - 1].participant})
  {
    var last := ds[|ds| - 1];
    var before := ds[..|ds| - 1];
    assert ds == before + [last];
    LastIsNew(ds);
    var rest := demands - {last.participant};
    forall id | id in rest
      ensures exists d :: d in before && d.participant == id
    {
      var d :| d in ds && d.participant == id;
      assert d in before;
    }
    forall d | d in before
      ensures d.participant in rest && rest[d.participant] == d.rate
    {
      assert d in ds;
    }
  }

  lemma {:induction false} DemandForMeans(id: Id, ds: seq<Request>, demands: Demands)
    requires DistinctRequests(ds) && DemandsOf(ds, demands)
    ensures DemandFor(id, ds) == if id in demands then demands[id] else 0
  {
    if ds != [] {
      var last := ds[|ds| - 1];
      assert last in ds && ds == ds[..|ds| - 1] + [last];
      if last.participant != id {
        DemandForMeans(id, ds[..|ds| - 1], demands - {last.participant}) by {
          DemandsPop(ds, demands);
        }
      }
    }
  }

  /** Where a participant's own rate is found, and what it asked for. */
  lemma RateOfParticipant(keys: seq<Id>, classes: Classes, demands: Demands,
                          one: Rates, two: Rates, share: FairShare, id: Id)
    requires Parts(keys, classes, demands, one, two, share) && id in keys
    ensures id in share.allocations
    ensures EntryOf(id, classes[id], demands) in ClassEntries(keys, classes, demands, classes[id].Contributing?)
    ensures classes[id].Contributing? ==> id in one && share.allocations[id] == one[id]
    ensures !classes[id].Contributing? ==> id in two && share.allocations[id] == two[id]
  {
    PhasesDisjoint(keys, classes, demands, one, two);
    ClassIds(keys, classes, demands, classes[id].Contributing?);
    ClassMembers(keys, classes, demands, classes[id].Contributing?, EntryOf(id, classes[id], demands));
  }

  // ----- conservation

  /** Sums over the participants, whatever class they are in. */
  function AskedBy(keys: seq<Id>, demands: Demands): nat {
    if keys == [] then 0
    else
      var last := keys[|keys| - 1];
      AskedBy(keys[..|keys| - 1], demands) + (if last in demands then demands[last] else 0)
  }

  lemma {:induction false} AskedByClass(keys: seq<Id>, classes: Classes, demands: Demands)
    requires forall id :: id in keys ==> id in classes
    ensures AskedBy(keys, demands) == Demand(ClassEntries(keys, classes, demands, true))
                                    + Demand(ClassEntries(keys, classes, demands, false))
  {
    if keys != [] {
      var last := keys[|keys| - 1];
      AskedByClass(keys[..|keys| - 1], classes, demands);
      SumPush(DemandOf(), ClassEntries(keys[..|keys| - 1], classes, demands, classes[last].Contributing?),
              EntryOf(last, classes[last], demands));
    }
  }

  lemma {:induction false} AskedWithout(keys: seq<Id>, demands: Demands, id: Id)
    requires forall i, j :: 0 <= i < j < |keys| ==> keys[i] < keys[j]
    requires id in demands
    ensures AskedBy(keys, demands) == AskedBy(keys, demands - {id}) + if id in keys then demands[id] else 0
  {
    if keys != [] {
      var last := keys[|keys| - 1];
      assert keys == keys[..|keys| - 1] + [last];
      AskedWithout(keys[..|keys| - 1], demands, id);
    }
  }

  lemma {:induction false} AskedByNobody(keys: seq<Id>, demands: Demands)
    requires demands.Keys == {}
    ensures AskedBy(keys, demands) == 0
  {
    if keys != [] {
      AskedByNobody(keys[..|keys| - 1], demands);
    }
  }

  lemma {:induction false} AskedIsTotalRate(keys: seq<Id>, ds: seq<Request>, demands: Demands)
    requires forall i, j :: 0 <= i < j < |keys| ==> keys[i] < keys[j]
    requires DistinctRequests(ds) && DemandsOf(ds, demands)
    requires forall d :: d in ds ==> d.participant in keys
    ensures AskedBy(keys, demands) == TotalRate(ds)
  {
    if ds == [] {
      AskedByNobody(keys, demands);
    } else {
      var last := ds[|ds| - 1];
      assert last in ds;
      DemandsPop(ds, demands);
      AskedIsTotalRate(keys, ds[..|ds| - 1], demands - {last.participant});
      AskedWithout(keys, demands, last.participant);
    }
  }

  lemma DemandTotal(ps: seq<Participant>, ds: seq<Request>, keys: seq<Id>, classes: Classes, demands: Demands)
    requires Accepts(ps, ds) && ClassesOf(ps, classes) && DemandsOf(ds, demands) && InOrder(keys, classes.Keys)
    ensures Demand(ClassEntries(keys, classes, demands, true)) + Demand(ClassEntries(keys, classes, demands, false))
         == TotalRate(ds)
  {
    AskedByClass(keys, classes, demands);
    AskedIsTotalRate(keys, ds, demands);
  }

  lemma PhasesConserve(capacity: nat, contributors: seq<Entry>, leeches: seq<Entry>,
                       one: Rates, left: nat, two: Rates, share: FairShare)
    requires TwoPhases(capacity, contributors, leeches, one, left, two, share)
    ensures share.totalAllocated == Min(capacity, Demand(contributors) + Demand(leeches))
    ensures share.totalAllocated + share.unused == capacity
  {
    Conservation(contributors, capacity, one);
    Conservation(leeches, left, two);
    DemandNonNegative(contributors);
    DemandNonNegative(leeches);
  }

  /** All of the capacity or all of the demand is handed out. */
  lemma TotalConserved(capacity: nat, ps: seq<Participant>, ds: seq<Request>, share: FairShare)
    requires Accepts(ps, ds) && IsFairShare(capacity, ps, ds, share)
    ensures share.totalAllocated == Min(capacity, TotalRate(ds))
    ensures share.totalAllocated + share.unused == capacity
  {
    var keys, classes, demands, one, left, two := Unpack(capacity, ps, ds, share);
    var contributors := ClassEntries(keys, classes, demands, true);
    var leeches := ClassEntries(keys, classes, demands, false);
    DemandTotal(ps, ds, keys, classes, demands);
    PhasesConserve(capacity, contributors, leeches, one, left, two, share);
  }

  /** Exactly the participants have an entry, and none is above what its participant asked for. */
  lemma RatesWithinDemands(capacity: nat, ps: seq<Participant>, ds: seq<Request>, share: FairShare)
    requires Accepts(ps, ds) && IsFairShare(capacity, ps, ds, share)
    ensures forall p :: p in ps ==>
              p.id in share.allocations && share.allocations[p.id] <= DemandFor(p.id, ds)
    ensures forall id :: id in share.allocations ==> exists p :: p in ps && p.id == id
  {
    var keys, classes, demands, one, left, two := Unpack(capacity, ps, ds, share);
    Conservation(ClassEntries(keys, classes, demands, true), capacity, one);
    Conservation(ClassEntries(keys, classes, demands, false), left, two);
    forall p | p in ps
      ensures p.id in share.allocations && share.allocations[p.id] <= DemandFor(p.id, ds)
    {
      DemandForMeans(p.id, ds, demands);
      RateOfParticipant(keys, classes, demands, one, two, share, p.id);
    }
    ClassIds(keys, classes, demands, true);
    ClassIds(keys, classes, demands, false);
    assert forall id :: id in share.allocations ==> id in classes;
  }

  // ----- determinism and order

  function IdBelow(): (Entry, Entry) -> bool {
    (a: Entry, b: Entry) => a.id < b.id
  }

  lemma SameContributors(k1: seq<Id>, c1: Classes, d1: Demands, ps: seq<Participant>, ds: seq<Request>,
                         k2: seq<Id>, c2: Classes, d2: Demands, qs: seq<Participant>, es: seq<Request>)
    requires ClassesOf(ps, c1) && DemandsOf(ds, d1) && InOrder(k1, c1.Keys) && Accepts(ps, ds)
    requires ClassesOf(qs, c2) && DemandsOf(es, d2) && InOrder(k2, c2.Keys) && Accepts(qs, es)
    requires forall q: Participant :: q.participation.Contributing? ==> (q in ps <==> q in qs)
    requires forall q :: q in ps && q.participation.Contributing? ==> DemandFor(q.id, ds) == DemandFor(q.id, es)
    ensures forall e :: e in ClassEntries(k1, c1, d1, true) ==> e in ClassEntries(k2, c2, d2, true)
  {
    forall e | e in ClassEntries(k1, c1, d1, true)
      ensures e in ClassEntries(k2, c2, d2, true)
    {
      ClassMembers(k1, c1, d1, true, e);
      ClassMembers(k2, c2, d2, true, e);
      var p :| p in ps && p.id == e.id;
      assert p in qs;
      DemandForMeans(p.id, ds, d1);
      DemandForMeans(p.id, es, d2);
    }
  }

  /** Contributors' rates do not depend on which leeches exist or on what they ask for. */
  lemma LeechesDoNotMatter(capacity: nat, ps: seq<Participant>, ds: seq<Request>, share: FairShare,
                           qs: seq<Participant>, es: seq<Request>, other: FairShare, p: Participant)
    requires IsFairShare(capacity, ps, ds, share) && IsFairShare(capacity, qs, es, other)
    requires Accepts(ps, ds) && Accepts(qs, es)
    requires forall q: Participant :: q.participation.Contributing? ==> (q in ps <==> q in qs)
    requires forall q :: q in ps && q.participation.Contributing? ==> DemandFor(q.id, ds) == DemandFor(q.id, es)
    requires p in ps && p.participation.Contributing?
    ensures p.id in share.allocations && p.id in other.allocations
    ensures share.allocations[p.id] == other.allocations[p.id]
  {
    var k1, c1, d1, one1, left1, two1 := Unpack(capacity, ps, ds, share);
    var k2, c2, d2, one2, left2, two2 := Unpack(capacity, qs, es, other);
    var a, b := ClassEntries(k1, c1, d1, true), ClassEntries(k2, c2, d2, true);
    SameContributors(k1, c1, d1, ps, ds, k2, c2, d2, qs, es);
    SameContributors(k2, c2, d2, qs, es, k1, c1, d1, ps, ds);
    AscendingUnique(IdBelow(), a, b);
    Deterministic(a, capacity, one1, one2);
    RateOfParticipant(k1, c1, d1, one1, two1, share, p.id);
    RateOfParticipant(k2, c2, d2, one2, two2, other, p.id);
  }

  lemma SameMembers<T>(a: seq<T>, b: seq<T>)
    requires multiset(a) == multiset(b)
    ensures forall x :: x in a <==> x in b
  {
    forall x
      ensures x in a <==> x in b
    {
      assert x in a <==> x in multiset(a);
      assert x in b <==> x in multiset(b);
    }
  }

  lemma TwiceIsTwo<T>(s: seq<T>, i: nat, j: nat)
    requires i < j < |s| && s[i] == s[j]
    ensures multiset(s)[s[i]] >= 2
  {
    assert s == s[..i] + [s[i]] + s[i + 1..j] + [s[j]] + s[j + 1..];
  }

  lemma OnceIsOne<T>(s: seq<T>, i: nat)
    requires i < |s| && forall j :: 0 <= j < |s| && j != i ==> s[j] != s[i]
    ensures multiset(s)[s[i]] == 1
  {
    assert s == s[..i] + [s[i]] + s[i + 1..];
    assert s[i] !in multiset(s[..i]) && s[i] !in multiset(s[i + 1..]);
  }

  lemma DistinctPermuted(ps: seq<Participant>, qs: seq<Participant>)
    requires multiset(ps) == multiset(qs)
    ensures DistinctParticipants(ps) ==> DistinctParticipants(qs)
  {
    SameMembers(ps, qs);
    forall i, j | DistinctParticipants(ps) && 0 <= i < j < |qs|
      ensures qs[i].id != qs[j].id
    {
      if qs[i].id == qs[j].id {
        assert qs[i] in ps && qs[j] in ps;
        TwiceIsTwo(qs, i, j);
        var m :| 0 <= m < |ps| && ps[m] == qs[i];
        OnceIsOne(ps, m);
      }
    }
  }

  lemma RequestsPermuted(ds: seq<Request>, es: seq<Request>)
    requires multiset(ds) == multiset(es)
    ensures DistinctRequests(ds) ==> DistinctRequests(es)
  {
    SameMembers(ds, es);
    forall i, j | DistinctRequests(ds) && 0 <= i < j < |es|
      ensures es[i].participant != es[j].participant
    {
      if es[i].participant == es[j].participant {
        assert es[i] in ds && es[j] in ds;
        TwiceIsTwo(es, i, j);
        var m :| 0 <= m < |ds| && ds[m] == es[i];
        OnceIsOne(ds, m);
      }
    }
  }

  /** Which participants there are decides whether the inputs are accepted, not their order. */
  lemma AcceptanceIgnoresOrder(ps: seq<Participant>, ds: seq<Request>, qs: seq<Participant>, es: seq<Request>)
    requires multiset(ps) == multiset(qs) && multiset(ds) == multiset(es)
    ensures Accepts(ps, ds) <==> Accepts(qs, es)
  {
    SameMembers(ps, qs);
    SameMembers(ds, es);
    DistinctPermuted(ps, qs);
    DistinctPermuted(qs, ps);
    RequestsPermuted(ds, es);
    RequestsPermuted(es, ds);
  }

  lemma SamePhases(capacity: nat, contributors: seq<Entry>, leeches: seq<Entry>,
                   one: Rates, left: nat, two: Rates, share: FairShare,
                   one': Rates, left': nat, two': Rates, other: FairShare)
    requires TwoPhases(capacity, contributors, leeches, one, left, two, share)
    requires TwoPhases(capacity, contributors, leeches, one', left', two', other)
    ensures share == other
  {
    Deterministic(contributors, capacity, one, one');
    assert left == left';
    Deterministic(leeches, left, two, two');
  }

  lemma SameClasses(ps: seq<Participant>, c1: Classes, qs: seq<Participant>, c2: Classes)
    requires ClassesOf(ps, c1) && ClassesOf(qs, c2) && forall p :: p in ps <==> p in qs
    ensures c1 == c2
  {
  }

  lemma SameDemands(ds: seq<Request>, d1: Demands, es: seq<Request>, d2: Demands)
    requires DemandsOf(ds, d1) && DemandsOf(es, d2) && forall d :: d in ds <==> d in es
    ensures d1 == d2
  {
  }

  lemma SameKeys(a: seq<Id>, b: seq<Id>)
    requires forall i, j :: 0 <= i < j < |a| ==> a[i] < a[j]
    requires forall i, j :: 0 <= i < j < |b| ==> b[i] < b[j]
    requires forall id :: id in a <==> id in b
    ensures a == b
  {
    AscendingUnique((x: Id, y: Id) => x < y, a, b);
  }

  lemma SameInputs(ps: seq<Participant>, ds: seq<Request>, k1: seq<Id>, c1: Classes, d1: Demands,
                   qs: seq<Participant>, es: seq<Request>, k2: seq<Id>, c2: Classes, d2: Demands)
    requires ClassesOf(ps, c1) && DemandsOf(ds, d1) && InOrder(k1, c1.Keys)
    requires ClassesOf(qs, c2) && DemandsOf(es, d2) && InOrder(k2, c2.Keys)
    requires forall p :: p in ps <==> p in qs
    requires forall d :: d in ds <==> d in es
    ensures k1 == k2 && c1 == c2 && d1 == d2
  {
    SameClasses(ps, c1, qs, c2);
    SameDemands(ds, d1, es, d2);
    SameKeys(k1, k2);
  }

  /** The whole result depends only on which participants and requests there are, not on their order. */
  lemma SharesIgnoreOrder(capacity: nat, ps: seq<Participant>, ds: seq<Request>, share: FairShare,
                          qs: seq<Participant>, es: seq<Request>, other: FairShare)
    requires multiset(ps) == multiset(qs) && multiset(ds) == multiset(es)
    requires IsFairShare(capacity, ps, ds, share) && IsFairShare(capacity, qs, es, other)
    ensures share == other
  {
    var k1, c1, d1, one1, left1, two1 := Unpack(capacity, ps, ds, share);
    var k2, c2, d2, one2, left2, two2 := Unpack(capacity, qs, es, other);
    SameMembers(ps, qs);
    SameMembers(ds, es);
    SameInputs(ps, ds, k1, c1, d1, qs, es, k2, c2, d2);
    SamePhases(capacity, ClassEntries(k1, c1, d1, true), ClassEntries(k1, c1, d1, false),
               one1, left1, two1, share, one2, left2, two2, other);
  }

  // ----- priority

  lemma {:induction false} RateBelowGranted(es: seq<Entry>, a: Rates, e: Entry)
    requires e in es
    ensures RateIn(a)(e) <= Granted(es, a)
  {
    if e == es[0] {
      GrantedNonNegative(es[1..], a);
    } else {
      RateBelowGranted(es[1..], a, e);
    }
  }

  lemma SomethingLeft(es: seq<Entry>, left: nat, a: Rates, e: Entry)
    requires IsWaterfill(es, left, a) && e in es && e.id in a && a[e.id] > 0
    ensures left > 0
  {
    Conservation(es, left, a);
    DemandNonNegative(es);
    RateBelowGranted(es, a, e);
  }

  lemma LeftoverMeansServed(es: seq<Entry>, capacity: nat, a: Rates, left: nat, e: Entry)
    requires IsWaterfill(es, capacity, a) && Granted(es, a) + left == capacity && left > 0 && e in es
    ensures e.id in a && a[e.id] == e.demand
  {
    Conservation(es, capacity, a);
    AllServed(es, capacity, a, e);
  }

  /** A leech gets something only when every contributor has all it asked for. */
  lemma LeechOnlyWhenContributorsServed(capacity: nat, ps: seq<Participant>, ds: seq<Request>, share: FairShare,
                                        leech: Participant, p: Participant)
    requires Accepts(ps, ds) && IsFairShare(capacity, ps, ds, share)
    requires leech in ps && leech.participation.Leeching? && p in ps && p.participation.Contributing?
    requires leech.id in share.allocations && share.allocations[leech.id] > 0
    ensures p.id in share.allocations && share.allocations[p.id] == DemandFor(p.id, ds)
  {
    var keys, classes, demands, one, left, two := Unpack(capacity, ps, ds, share);
    RateOfParticipant(keys, classes, demands, one, two, share, p.id);
    RateOfParticipant(keys, classes, demands, one, two, share, leech.id);
    DemandForMeans(p.id, ds, demands);
    SomethingLeft(ClassEntries(keys, classes, demands, false), left, two,
                  EntryOf(leech.id, classes[leech.id], demands));
    LeftoverMeansServed(ClassEntries(keys, classes, demands, true), capacity, one, left,
                        EntryOf(p.id, classes[p.id], demands));
  }

  // ----- capacity

  lemma LeftoverGrows(es: seq<Entry>, c: nat, a: Rates, left: nat, d: nat, b: Rates, more: nat)
    requires IsWaterfill(es, c, a) && IsWaterfill(es, d, b) && c <= d
    requires Granted(es, a) + left == c && Granted(es, b) + more == d
    ensures left <= more
  {
    Conservation(es, c, a);
    Conservation(es, d, b);
  }

  lemma LeechWeights(keys: seq<Id>, classes: Classes, demands: Demands)
    requires forall id :: id in keys ==> id in classes
    ensures EqualWeights(ClassEntries(keys, classes, demands, false), 1)
  {
    forall e | e in ClassEntries(keys, classes, demands, false)
      ensures e.weight == 1
    {
      ClassMembers(keys, classes, demands, false, e);
    }
  }

  /** More capacity never costs a leech anything, and a contributor at most one unit. */
  lemma MoreCapacity(c: nat, d: nat, ps: seq<Participant>, ds: seq<Request>,
                     share: FairShare, more: FairShare, p: Participant)
    requires Accepts(ps, ds) && c <= d && p in ps
    requires IsFairShare(c, ps, ds, share) && IsFairShare(d, ps, ds, more)
    ensures p.id in share.allocations && p.id in more.allocations
    ensures more.allocations[p.id] + 1 >= share.allocations[p.id]
    ensures p.participation.Leeching? ==> more.allocations[p.id] >= share.allocations[p.id]
  {
    var k1, c1, d1, one1, left1, two1 := Unpack(c, ps, ds, share);
    var k2, c2, d2, one2, left2, two2 := Unpack(d, ps, ds, more);
    SameInputs(ps, ds, k1, c1, d1, ps, ds, k2, c2, d2);
    RateOfParticipant(k1, c1, d1, one1, two1, share, p.id);
    RateOfParticipant(k2, c2, d2, one2, two2, more, p.id);
    var e := EntryOf(p.id, c1[p.id], d1);
    if p.participation.Contributing? {
      CapacityMonotone(ClassEntries(k1, c1, d1, true), c, one1, d, one2, e);
    } else {
      LeftoverGrows(ClassEntries(k1, c1, d1, true), c, one1, left1, d, one2, left2);
      LeechWeights(k1, c1, d1);
      EqualWeightsMonotone(ClassEntries(k1, c1, d1, false), 1, left1, two1, left2, two2, e);
    }
  }

  /** The contributors that a growth of the capacity from `c` to `d` costs a unit, read off the inputs. */
  ghost predicate LosesUnit(c: nat, d: nat, ps: seq<Participant>, ds: seq<Request>, p: Participant) {
    p.participation.Contributing?
    && exists keys: seq<Id>, classes: Classes, demands: Demands ::
         && ClassesOf(ps, classes) && DemandsOf(ds, demands) && InOrder(keys, classes.Keys)
         && Loses(ClassEntries(keys, classes, demands, true), c, d, EntryOf(p.id, p.participation, demands))
  }

  /** For all inputs: a participant loses exactly when it is one of those, and nobody else ever does. */
  lemma LosesUnitIff(c: nat, d: nat, ps: seq<Participant>, ds: seq<Request>,
                     share: FairShare, more: FairShare, p: Participant)
    requires Accepts(ps, ds) && c <= d && p in ps
    requires IsFairShare(c, ps, ds, share) && IsFairShare(d, ps, ds, more)
    ensures p.id in share.allocations && p.id in more.allocations
    ensures more.allocations[p.id] < share.allocations[p.id] <==> LosesUnit(c, d, ps, ds, p)
  {
    MoreCapacity(c, d, ps, ds, share, more, p);
    if p.participation.Contributing? {
      var k1, c1, d1, one1, left1, two1 := Unpack(c, ps, ds, share);
      var k2, c2, d2, one2, left2, two2 := Unpack(d, ps, ds, more);
      SameInputs(ps, ds, k1, c1, d1, ps, ds, k2, c2, d2);
      RateOfParticipant(k1, c1, d1, one1, two1, share, p.id);
      RateOfParticipant(k2, c2, d2, one2, two2, more, p.id);
      LosesIff(ClassEntries(k1, c1, d1, true), c, one1, d, one2, EntryOf(p.id, c1[p.id], d1));
      if LosesUnit(c, d, ps, ds, p) {
        var keys: seq<Id>, classes: Classes, demands: Demands :|
          && ClassesOf(ps, classes) && DemandsOf(ds, demands) && InOrder(keys, classes.Keys)
          && Loses(ClassEntries(keys, classes, demands, true), c, d, EntryOf(p.id, p.participation, demands));
        SameInputs(ps, ds, k1, c1, d1, ps, ds, keys, classes, demands);
      }
    }
  }

  /** Four contributors with weights 1, 1, 3 and 3, each of which asks for nine units. */
  ghost predicate AreFour(ps: seq<Participant>, ds: seq<Request>) {
    && |ps| == |ds| == 4
    && (forall i :: 0 <= i < 4 ==> ps[i] == Participant(i + 1, Contributing(if i < 2 then 1 else 3)))
    && forall i :: 0 <= i < 4 ==> ds[i] == Request(i + 1, 9)
  }

  ghost predicate AreFourEntries(es: seq<Entry>) {
    |es| == 4 && forall i :: 0 <= i < 4 ==> es[i] == Entry(i + 1, 9, if i < 2 then 1 else 3)
  }

  lemma FourEntry(ps: seq<Participant>, ds: seq<Request>, classes: Classes, demands: Demands, i: int)
    requires AreFour(ps, ds) && ClassesOf(ps, classes) && DemandsOf(ds, demands)
    ensures 0 <= i < 4 ==>
              && i + 1 in classes && classes[i + 1].Contributing?
              && EntryOf(i + 1, classes[i + 1], demands) == Entry(i + 1, 9, if i < 2 then 1 else 3)
  {
    if 0 <= i < 4 {
      assert ps[i] in ps && ds[i] in ds;
    }
  }

  lemma FourEntries(ps: seq<Participant>, ds: seq<Request>, keys: seq<Id>, classes: Classes, demands: Demands)
    requires AreFour(ps, ds) && ClassesOf(ps, classes) && DemandsOf(ds, demands) && InOrder(keys, classes.Keys)
    ensures AreFourEntries(ClassEntries(keys, classes, demands, true))
  {
    var es := ClassEntries(keys, classes, demands, true);
    var four := seq(4, i requires 0 <= i < 4 => Entry(i + 1, 9, if i < 2 then 1 else 3));
    forall e
      ensures e in es <==> e in four
    {
      ClassMembers(keys, classes, demands, true, e);
      FourEntry(ps, ds, classes, demands, e.id - 1);
      if e in es {
        var p :| p in ps && p.id == e.id;
        var i :| 0 <= i < 4 && ps[i] == p;
        assert four[i] == e;
      }
    }
    ClassAscending(keys, classes, demands, true);
    AscendingUnique(IdBelow(), es, four);
  }

  lemma FourSum(f: Entry -> int, es: seq<Entry>)
    requires |es| == 4
    ensures Sum(f, es) == f(es[0]) + f(es[1]) + f(es[2]) + f(es[3])
  {
    assert es[1..][1..] == es[2..] && es[2..][1..] == es[3..] && es[3..][1..] == [];
    assert Sum(f, es[3..]) == f(es[3]);
    assert Sum(f, es[2..]) == f(es[2]) + f(es[3]);
    assert Sum(f, es[1..]) == f(es[1]) + f(es[2]) + f(es[3]);
  }

  /** What the second of four such entries gets out of two and out of three units. */
  lemma SecondEntry(es: seq<Entry>, capacity: nat, a: Rates)
    requires AreFourEntries(es) && 2 <= capacity <= 3 && IsWaterfill(es, capacity, a)
    ensures 2 in a && a[2] == if capacity == 2 then 1 else 0
  {
    FourSum(WeightOf(), es);
    FourSum(Quotient(capacity, 8), es);
    assert NoDemandBinds(es, capacity);
    UnboundRate(es, capacity, a, 1);
  }

  lemma SecondOfFour(ps: seq<Participant>, ds: seq<Request>, capacity: nat, share: FairShare)
    requires AreFour(ps, ds) && 2 <= capacity <= 3 && IsFairShare(capacity, ps, ds, share)
    ensures 2 in share.allocations && share.allocations[2] == if capacity == 2 then 1 else 0
  {
    var keys, classes, demands, one, left, two := Unpack(capacity, ps, ds, share);
    FourEntries(ps, ds, keys, classes, demands);
    SecondEntry(ClassEntries(keys, classes, demands, true), capacity, one);
    FourEntry(ps, ds, classes, demands, 1);
    RateOfParticipant(keys, classes, demands, one, two, share, 2);
  }

  lemma FourAccepted(ps: seq<Participant>, ds: seq<Request>)
    requires AreFour(ps, ds)
    ensures Accepts(ps, ds)
  {
    forall d | d in ds
      ensures exists p :: p in ps && p.id == d.participant
    {
      var i :| 0 <= i < 4 && ds[i] == d;
      assert ps[i] in ps && ps[i].id == d.participant;
    }
  }

  /** More capacity can be a loss: the four are accepted, and going from 2 units to 3 takes id 2 from 1 to 0. */
  lemma StrictMonotonicityFails(ps: seq<Participant>, ds: seq<Request>, share: FairShare, more: FairShare)
    requires AreFour(ps, ds) && IsFairShare(2, ps, ds, share) && IsFairShare(3, ps, ds, more)
    ensures Accepts(ps, ds)
    ensures 2 in share.allocations && 2 in more.allocations
    ensures share.allocations[2] == 1 && more.allocations[2] == 0
  {
    SecondOfFour(ps, ds, 2, share);
    SecondOfFour(ps, ds, 3, more);
    FourAccepted(ps, ds);
  }

  // ----- optimality

  function Listed(ps: seq<Participant>, x: Demands): (r: seq<Request>)
    requires forall p :: p in ps ==> p.id in x
    ensures |r| == |ps| && forall i :: 0 <= i < |ps| ==> r[i] == Request(ps[i].id, x[ps[i].id])
  {
    seq(|ps|, i requires 0 <= i < |ps| => Request(ps[i].id, x[ps[i].id]))
  }

  /** `x` gives nobody more than it asked for, and hands out no more than the capacity. */
  ghost predicate Rival(capacity: nat, ps: seq<Participant>, ds: seq<Request>, x: Demands) {
    && (forall id :: id in x <==> exists p :: p in ps && p.id == id)
    && (forall p :: p in ps ==> p.id in x && x[p.id] <= DemandFor(p.id, ds))
    && TotalRate(Listed(ps, x)) <= capacity
  }

  lemma {:induction false} AskedIsValue(keys: seq<Id>, x: Demands)
    requires forall id :: id in keys ==> id in x
    ensures AskedBy(keys, x) == ValueAt(keys, x)
  {
    if keys != [] {
      AskedIsValue(keys[..|keys| - 1], x);
    }
  }

  lemma RivalTotal(capacity: nat, ps: seq<Participant>, ds: seq<Request>, x: Demands, keys: seq<Id>, classes: Classes)
    requires Accepts(ps, ds) && Rival(capacity, ps, ds, x)
    requires ClassesOf(ps, classes) && InOrder(keys, classes.Keys)
    ensures (forall id :: id in keys <==> id in x) && ValueAt(keys, x) <= capacity
  {
    var listed := Listed(ps, x);
    forall d | d in listed
      ensures d.participant in keys && d.participant in x && x[d.participant] == d.rate
    {
      var i :| 0 <= i < |listed| && listed[i] == d;
      assert ps[i] in ps;
    }
    forall id | id in x
      ensures exists d :: d in listed && d.participant == id
    {
      var p :| p in ps && p.id == id;
      var i :| 0 <= i < |ps| && ps[i] == p;
      assert listed[i] in listed;
    }
    AskedIsTotalRate(keys, listed, x);
    AskedIsValue(keys, x);
  }

  function WeightIn(p: Participant): Weight {
    if p.participation.Contributing? then p.participation.weight else 1
  }

  /** `i` loses in `x`, and was not ahead of `j` per unit of weight, but for one unit of rounding on each side. */
  ghost predicate LosesFairly(i: Participant, j: Participant, a: Rates, x: Rates)
  {
    && i.id in a && i.id in x && j.id in a
    && x[i.id] < a[i.id]
    && NotAhead(a[i.id], WeightIn(i), a[j.id], WeightIn(j))
  }

  lemma SomeEntryBelow(es: seq<Entry>, a: Rates, x: Rates) returns (f: Option<Entry>)
    ensures f.None? ==> Granted(es, a) <= Granted(es, x)
    ensures f.Some? ==> f.value in es && RateIn(x)(f.value) < RateIn(a)(f.value)
  {
    if forall e :: e in es ==> RateIn(a)(e) <= RateIn(x)(e) {
      SumAtMost(RateIn(a), RateIn(x), es);
      f := None;
    } else {
      var e :| e in es && RateIn(a)(e) > RateIn(x)(e);
      f := Some(e);
    }
  }

  lemma FairLoser(es: seq<Entry>, capacity: nat, a: Rates, x: Rates, j: Entry) returns (i: Entry)
    requires IsWaterfill(es, capacity, a) && Feasible(es, capacity, x)
    requires j in es && j.id in a && j.id in x && x[j.id] > a[j.id]
    ensures i in es && i.id in a && i.id in x && x[i.id] < a[i.id]
    ensures NotAhead(a[i.id], i.weight, a[j.id], j.weight)
  {
    MaxMinOptimal(es, capacity, a, x, j);
    i :| i in es && i.id in a && i.id in x && x[i.id] < a[i.id]
      && NotAhead(a[i.id], i.weight, a[j.id], j.weight);
  }

  /** The participant behind an entry. */
  lemma LoserIn(ps: seq<Participant>, keys: seq<Id>, classes: Classes, demands: Demands,
                one: Rates, two: Rates, share: FairShare, f: Entry, contributing: bool)
    returns (i: Participant)
    requires ClassesOf(ps, classes) && Parts(keys, classes, demands, one, two, share)
    requires f in ClassEntries(keys, classes, demands, contributing)
    ensures i in ps && i.id == f.id && i.participation.Contributing? == contributing && WeightIn(i) == f.weight
    ensures i.id in keys && i.id in share.allocations
    ensures contributing ==> i.id in one && share.allocations[i.id] == one[i.id]
    ensures !contributing ==> i.id in two && share.allocations[i.id] == two[i.id]
  {
    ClassMembers(keys, classes, demands, contributing, f);
    RateOfParticipant(keys, classes, demands, one, two, share, f.id);
    i :| i in ps && i.id == f.id;
  }

  lemma Restrict(es: seq<Entry>, left: nat, keys: seq<Id>, classes: Classes, demands: Demands, x: Rates,
                 contributing: bool)
    returns (y: Rates)
    requires InOrder(keys, classes.Keys) && es == ClassEntries(keys, classes, demands, contributing)
    requires forall id :: id in keys ==> id in x && x[id] <= if id in demands then demands[id] else 0
    requires Granted(es, x) <= left
    ensures Feasible(es, left, y)
    ensures forall id :: id in y ==> id in x && y[id] == x[id]
  {
    y := map id | id in Ids(es) && id in x :: x[id];
    forall e | e in es
      ensures e.id in y && y[e.id] <= e.demand
    {
      ClassMembers(keys, classes, demands, contributing, e);
      assert e.id in Ids(es);
    }
    assert y.Keys == Ids(es);
    SumSame(RateIn(y), RateIn(x), es);
  }

  /** Inside one class, a gain in `x` for `j` is a fair loss for some `i`. */
  lemma LoserOfClass(capacity: nat, ps: seq<Participant>, keys: seq<Id>, classes: Classes, demands: Demands,
                     one: Rates, two: Rates, share: FairShare, phase: Rates, x: Rates, j: Participant,
                     contributing: bool)
    returns (i: Participant)
    requires ClassesOf(ps, classes) && Parts(keys, classes, demands, one, two, share)
    requires phase == if contributing then one else two
    requires IsWaterfill(ClassEntries(keys, classes, demands, contributing), capacity, phase)
    requires Granted(ClassEntries(keys, classes, demands, contributing), x) <= capacity
    requires forall id :: id in keys ==> id in x && x[id] <= if id in demands then demands[id] else 0
    requires j in ps && j.participation.Contributing? == contributing
    requires j.id in share.allocations && j.id in x && x[j.id] > share.allocations[j.id]
    ensures i in ps && i.participation.Contributing? == contributing && LosesFairly(i, j, share.allocations, x)
  {
    RateOfParticipant(keys, classes, demands, one, two, share, j.id);
    var es := ClassEntries(keys, classes, demands, contributing);
    var e := EntryOf(j.id, classes[j.id], demands);
    assert e in es && e.id == j.id && e.weight == WeightIn(j);
    var y := Restrict(es, capacity, keys, classes, demands, x, contributing);
    assert j.id in Ids(es);
    var f := FairLoser(es, capacity, phase, y, e);
    i := LoserIn(ps, keys, classes, demands, one, two, share, f, contributing);
  }

  /**
    No rival betters a contributor except at the fair expense of another contributor, or a leech
    except at the fair expense of another leech or by taking from a contributor.
  */
  lemma NoBetterRival(capacity: nat, ps: seq<Participant>, ds: seq<Request>, share: FairShare, x: Demands,
                      j: Participant)
    requires Accepts(ps, ds) && IsFairShare(capacity, ps, ds, share) && j in ps
    requires Rival(capacity, ps, ds, x)
    requires j.id in share.allocations && j.id in x && x[j.id] > share.allocations[j.id]
    ensures || (exists i :: i in ps && i.participation.Contributing? == j.participation.Contributing?
                         && LosesFairly(i, j, share.allocations, x))
            || (j.participation.Leeching?
                && exists i :: i in ps && i.participation.Contributing? && i.id in share.allocations && i.id in x
                            && x[i.id] < share.allocations[i.id])
  {
    var keys, classes, demands, one, left, two := Unpack(capacity, ps, ds, share);
    RivalTotal(capacity, ps, ds, x, keys, classes);
    forall id | id in keys
      ensures x[id] <= if id in demands then demands[id] else 0
    {
      DemandForMeans(id, ds, demands);
    }
    var contributors := ClassEntries(keys, classes, demands, true);
    var leeches := ClassEntries(keys, classes, demands, false);
    ValuesByClass(keys, classes, demands, x);
    GrantedNonNegative(contributors, x);
    GrantedNonNegative(leeches, x);
    if j.participation.Contributing? {
      var i := LoserOfClass(capacity, ps, keys, classes, demands, one, two, share, one, x, j, true);
    } else {
      var f := SomeEntryBelow(contributors, one, x);
      if f.Some? {
        var i := LoserIn(ps, keys, classes, demands, one, two, share, f.value, true);
      } else {
        var i := LoserOfClass(left, ps, keys, classes, demands, one, two, share, two, x, j, false);
      }
    }
  }
}
