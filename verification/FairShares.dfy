/** The public entry point: input checks, the two priority phases and the totals. */
module FairShares {
  import opened Common
  import opened Sequences
  import opened FairLevel
  import opened FairRounds
  import opened FairTheorems
  import opened FairAllocator

  type Capacity = n: int | 0 < n < TWO64 witness 1

  datatype Participation = Contributing(weight: Weight) | Leeching

  datatype Participant = Participant(id: Id, participation: Participation)

  datatype Request = Request(participant: Id, rate: U64)

  datatype FairShare = FairShare(allocations: Rates, totalAllocated: U64, unused: U64)

  datatype FairnessError =
    | UnknownParticipant(id: Id)
    | DuplicateDemand(id: Id)
    | DuplicateParticipant(id: Id)
    | ConflictingParticipation(id: Id)

  type Classes = map<Id, Participation>
  type Demands = map<Id, U64>

  // ----- what the inputs say

  ghost predicate DistinctParticipants(ps: seq<Participant>) {
    forall i, j :: 0 <= i < j < |ps| ==> ps[i].id != ps[j].id
  }

  ghost predicate DistinctRequests(ds: seq<Request>) {
    forall i, j :: 0 <= i < j < |ds| ==> ds[i].participant != ds[j].participant
  }

  ghost predicate KnownRequests(ps: seq<Participant>, ds: seq<Request>) {
    forall d :: d in ds ==> exists p :: p in ps && p.id == d.participant
  }

  ghost predicate Accepts(ps: seq<Participant>, ds: seq<Request>) {
    DistinctParticipants(ps) && KnownRequests(ps, ds) && DistinctRequests(ds)
  }

  /** The error reported for inputs that are not accepted: the first offender of the first failing check. */
  ghost predicate Refused(ps: seq<Participant>, ds: seq<Request>, error: FairnessError) {
    if !DistinctParticipants(ps) then
      exists i, j :: 0 <= i < j < |ps| && DistinctParticipants(ps[..j]) && ps[i].id == ps[j].id
                  && error == (if ps[i].participation == ps[j].participation then DuplicateParticipant(ps[j].id)
                               else ConflictingParticipation(ps[j].id))
    else if !KnownRequests(ps, ds) then
      exists j :: 0 <= j < |ds| && KnownRequests(ps, ds[..j]) && !KnownRequests(ps, [ds[j]])
               && error == UnknownParticipant(ds[j].participant)
    else
      exists i, j :: 0 <= i < j < |ds| && DistinctRequests(ds[..j]) && ds[i].participant == ds[j].participant
                  && error == DuplicateDemand(ds[j].participant)
  }

  ghost predicate ClassesOf(ps: seq<Participant>, classes: Classes) {
    && (forall id :: id in classes <==> exists p :: p in ps && p.id == id)
    && forall p :: p in ps ==> p.id in classes && classes[p.id] == p.participation
  }

  ghost predicate DemandsOf(ds: seq<Request>, demands: Demands) {
    && (forall id :: id in demands <==> exists d :: d in ds && d.participant == id)
    && forall d :: d in ds ==> d.participant in demands && demands[d.participant] == d.rate
  }

  ghost predicate InOrder(keys: seq<Id>, ids: set<Id>) {
    && (forall i, j :: 0 <= i < j < |keys| ==> keys[i] < keys[j])
    && forall id :: id in keys <==> id in ids
  }

  function EntryOf(id: Id, participation: Participation, demands: Demands): Entry {
    Entry(id,
          if id in demands then demands[id] else 0,
          if participation.Contributing? then participation.weight else 1)
  }

  /** The entries of one class, in key order. */
  function ClassEntries(keys: seq<Id>, classes: Classes, demands: Demands, contributing: bool): seq<Entry>
    requires forall id :: id in keys ==> id in classes
  {
    if keys == [] then []
    else
      var last := keys[|keys| - 1];
      var before := ClassEntries(keys[..|keys| - 1], classes, demands, contributing);
      if classes[last].Contributing? == contributing then before + [EntryOf(last, classes[last], demands)]
      else before
  }

  lemma {:induction false} ClassMembers(keys: seq<Id>, classes: Classes, demands: Demands, contributing: bool, e: Entry)
    requires forall id :: id in keys ==> id in classes
    ensures e in ClassEntries(keys, classes, demands, contributing) <==>
              e.id in keys && classes[e.id].Contributing? == contributing
              && e == EntryOf(e.id, classes[e.id], demands)
  {
    if keys != [] {
      var last := keys[|keys| - 1];
      assert keys == keys[..|keys| - 1] + [last];
      ClassMembers(keys[..|keys| - 1], classes, demands, contributing, e);
    }
  }

  lemma ClassIds(keys: seq<Id>, classes: Classes, demands: Demands, contributing: bool)
    requires forall id :: id in keys ==> id in classes
    ensures Ids(ClassEntries(keys, classes, demands, contributing))
         == (set id | id in keys && classes[id].Contributing? == contributing)
  {
    var es := ClassEntries(keys, classes, demands, contributing);
    forall e | e in es
      ensures e.id in keys && classes[e.id].Contributing? == contributing
    {
      ClassMembers(keys, classes, demands, contributing, e);
    }
    forall id | id in keys && classes[id].Contributing? == contributing
      ensures id in Ids(es)
    {
      ClassMembers(keys, classes, demands, contributing, EntryOf(id, classes[id], demands));
      assert EntryOf(id, classes[id], demands).id == id;
    }
  }

  /** Contributors first over everything, leeches over what is `left`; the totals add up. */
  ghost predicate TwoPhases(capacity: nat, contributors: seq<Entry>, leeches: seq<Entry>,
                            one: Rates, left: nat, two: Rates, share: FairShare)
  {
    && IsWaterfill(contributors, capacity, one)
    && Granted(contributors, one) + left == capacity
    && IsWaterfill(leeches, left, two)
    && share.allocations == one + two
    && share.totalAllocated == Granted(contributors, one) + Granted(leeches, two)
    && share.totalAllocated + share.unused == capacity
  }

  ghost predicate IsFairShare(capacity: nat, ps: seq<Participant>, ds: seq<Request>, share: FairShare) {
    exists keys: seq<Id>, classes: Classes, demands: Demands, one: Rates, left: nat, two: Rates ::
      && ClassesOf(ps, classes) && DemandsOf(ds, demands) && InOrder(keys, classes.Keys)
      && TwoPhases(capacity, ClassEntries(keys, classes, demands, true),
                   ClassEntries(keys, classes, demands, false), one, left, two, share)
  }

  // ----- lemmas about classes

  lemma {:induction false} ClassAscending(keys: seq<Id>, classes: Classes, demands: Demands, contributing: bool)
    requires forall id :: id in keys ==> id in classes
    requires forall i, j :: 0 <= i < j < |keys| ==> keys[i] < keys[j]
    ensures AscendingIds(ClassEntries(keys, classes, demands, contributing))
  {
    if keys != [] {
      var before := ClassEntries(keys[..|keys| - 1], classes, demands, contributing);
      ClassAscending(keys[..|keys| - 1], classes, demands, contributing);
      forall i | 0 <= i < |before|
        ensures before[i].id < keys[|keys| - 1]
      {
        ClassMembers(keys[..|keys| - 1], classes, demands, contributing, before[i]);
      }
    }
  }

  function ValueAt(keys: seq<Id>, a: Rates): nat
    requires forall id :: id in keys ==> id in a
  {
    if keys == [] then 0 else ValueAt(keys[..|keys| - 1], a) + a[keys[|keys| - 1]]
  }

  /** Summing all rates in id order is summing them class by class. */
  lemma {:induction false} ValuesByClass(keys: seq<Id>, classes: Classes, demands: Demands, a: Rates)
    requires forall id :: id in keys ==> id in classes && id in a
    ensures ValueAt(keys, a) == Granted(ClassEntries(keys, classes, demands, true), a)
                              + Granted(ClassEntries(keys, classes, demands, false), a)
  {
    if keys != [] {
      var last := keys[|keys| - 1];
      ValuesByClass(keys[..|keys| - 1], classes, demands, a);
      var contributing := classes[last].Contributing?;
      SumPush(RateIn(a), ClassEntries(keys[..|keys| - 1], classes, demands, contributing),
              EntryOf(last, classes[last], demands));
    }
  }

  lemma AddingOthers(es: seq<Entry>, a: Rates, others: Rates)
    requires a.Keys == Ids(es) && a.Keys !! others.Keys
    ensures Granted(es, a + others) == Granted(es, a)
  {
    forall e | e in es
      ensures RateIn(a + others)(e) == RateIn(a)(e)
    {
      assert e.id in Ids(es);
    }
    SumSame(RateIn(a + others), RateIn(a), es);
  }

  /** The two phases write to different ids. */
  lemma PhasesDisjoint(keys: seq<Id>, classes: Classes, demands: Demands, one: Rates, two: Rates)
    requires forall id :: id in keys ==> id in classes
    requires one.Keys == Ids(ClassEntries(keys, classes, demands, true))
    requires two.Keys == Ids(ClassEntries(keys, classes, demands, false))
    ensures one.Keys !! two.Keys
    ensures forall id :: id in keys ==> id in one + two
    ensures Granted(ClassEntries(keys, classes, demands, true), one + two)
         == Granted(ClassEntries(keys, classes, demands, true), one)
    ensures Granted(ClassEntries(keys, classes, demands, false), one + two)
         == Granted(ClassEntries(keys, classes, demands, false), two)
  {
    ClassIds(keys, classes, demands, true);
    ClassIds(keys, classes, demands, false);
    AddingOthers(ClassEntries(keys, classes, demands, true), one, two);
    AddingOthers(ClassEntries(keys, classes, demands, false), two, one);
    assert one + two == two + one;
  }

  // ----- the method

  lemma ClassesPush(ps: seq<Participant>, classes: Classes, p: Participant)
    requires DistinctParticipants(ps) && ClassesOf(ps, classes) && p.id !in classes
    ensures DistinctParticipants(ps + [p]) && ClassesOf(ps + [p], classes[p.id := p.participation])
  {
    forall i | 0 <= i < |ps|
      ensures ps[i].id != p.id
    {
      assert ps[i] in ps;
    }
    assert p in ps + [p];
    assert forall q :: q in ps + [p] <==> q in ps || q == p;
  }

  lemma RepeatRefused(ps: seq<Participant>, ds: seq<Request>, i: nat, j: nat)
    requires i < j < |ps| && DistinctParticipants(ps[..j]) && ps[i].id == ps[j].id
    ensures !DistinctParticipants(ps)
    ensures Refused(ps, ds, if ps[i].participation == ps[j].participation then DuplicateParticipant(ps[j].id)
                            else ConflictingParticipation(ps[j].id))
  {
  }

  method ClassifyParticipants(ps: seq<Participant>, ghost ds: seq<Request>)
    returns (r: Result<Classes, FairnessError>)
    ensures DistinctParticipants(ps) ==> r.Ok? && ClassesOf(ps, r.value)
    ensures !DistinctParticipants(ps) ==> r.Err? && Refused(ps, ds, r.error)
  {
    var classes: Classes := map[];
    for i := 0 to |ps|
      invariant DistinctParticipants(ps[..i])
      invariant ClassesOf(ps[..i], classes)
    {
      var p := ps[i];
      if p.id in classes {
        var previous := classes[p.id];
        ghost var q :| q in ps[..i] && q.id == p.id;
        ghost var k :| 0 <= k < i && ps[..i][k] == q;
        RepeatRefused(ps, ds, k, i);
        if previous == p.participation {
          return Err(DuplicateParticipant(p.id));
        }
        return Err(ConflictingParticipation(p.id));
      }
      ClassesPush(ps[..i], classes, p);
      assert ps[..i + 1] == ps[..i] + [p];
      classes := classes[p.id := p.participation];
    }
    assert ps[..|ps|] == ps;
    r := Ok(classes);
  }

  /** Two contributors of one class, but with different weights, are conflicting, not duplicate. */
  lemma DifferentWeightsConflict(id: Id, w: Weight, v: Weight, ds: seq<Request>, error: FairnessError)
    requires w != v
    ensures var ps := [Participant(id, Contributing(w)), Participant(id, Contributing(v))];
            !Accepts(ps, ds) && (Refused(ps, ds, error) <==> error == ConflictingParticipation(id))
  {
    var ps := [Participant(id, Contributing(w)), Participant(id, Contributing(v))];
    RepeatRefused(ps, ds, 0, 1);
  }

  method CheckRequests(ps: seq<Participant>, classes: Classes, ds: seq<Request>) returns (r: Option<FairnessError>)
    requires DistinctParticipants(ps) && ClassesOf(ps, classes)
    ensures r.None? <==> KnownRequests(ps, ds)
    ensures r.Some? ==> Refused(ps, ds, r.value)
  {
    for i := 0 to |ds|
      invariant KnownRequests(ps, ds[..i])
    {
      assert ds[..i + 1] == ds[..i] + [ds[i]];
      if ds[i].participant !in classes {
        assert ds[i] in [ds[i]] && ds[i] in ds;
        return Some(UnknownParticipant(ds[i].participant));
      }
    }
    assert ds[..|ds|] == ds;
    r := None;
  }

  lemma DemandsPush(ds: seq<Request>, demands: Demands, d: Request)
    requires DistinctRequests(ds) && DemandsOf(ds, demands) && d.participant !in demands
    ensures DistinctRequests(ds + [d]) && DemandsOf(ds + [d], demands[d.participant := d.rate])
  {
    forall i | 0 <= i < |ds|
      ensures ds[i].participant != d.participant
    {
      assert ds[i] in ds;
    }
    assert d in ds + [d];
    assert forall e :: e in ds + [d] <==> e in ds || e == d;
  }

  method CollectDemands(ps: seq<Participant>, ds: seq<Request>) returns (r: Result<Demands, FairnessError>)
    requires DistinctParticipants(ps) && KnownRequests(ps, ds)
    ensures DistinctRequests(ds) ==> r.Ok? && DemandsOf(ds, r.value)
    ensures !DistinctRequests(ds) ==> r.Err? && Refused(ps, ds, r.error)
  {
    var demands: Demands := map[];
    for i := 0 to |ds|
      invariant DistinctRequests(ds[..i])
      invariant DemandsOf(ds[..i], demands)
    {
      var d := ds[i];
      assert ds[..i + 1] == ds[..i] + [d];
      if d.participant in demands {
        ghost var q :| q in ds[..i] && q.participant == d.participant;
        ghost var k :| 0 <= k < i && ds[k] == q;
        return Err(DuplicateDemand(d.participant));
      }
      DemandsPush(ds[..i], demands, d);
      demands := demands[d.participant := d.rate];
    }
    assert ds[..|ds|] == ds;
    r := Ok(demands);
  }

  /** Puts a key in its place among ascending ones. */
  function Place(keys: seq<Id>, id: Id): (r: seq<Id>)
    ensures forall k :: k in r <==> k in keys || k == id
  {
    if keys == [] || id < keys[0] then [id] + keys
    else
      assert keys == [keys[0]] + keys[1..];
      [keys[0]] + Place(keys[1..], id)
  }

  lemma {:induction false} PlaceAscends(keys: seq<Id>, id: Id)
    requires (forall i, j :: 0 <= i < j < |keys| ==> keys[i] < keys[j]) && id !in keys
    ensures forall i, j :: 0 <= i < j < |Place(keys, id)| ==> Place(keys, id)[i] < Place(keys, id)[j]
  {
    if keys != [] && id > keys[0] {
      PlaceAscends(keys[1..], id);
      var after := Place(keys[1..], id);
      forall j | 0 <= j < |after|
        ensures keys[0] < after[j]
      {
        assert after[j] in after;
      }
    }
  }

  /** The keys of an ordered map, in the order it iterates over them. */
  method KeysInOrder(ids: set<Id>) returns (keys: seq<Id>)
    ensures InOrder(keys, ids)
  {
    keys := [];
    var rest := ids;
    while rest != {}
      invariant rest <= ids
      invariant forall i, j :: 0 <= i < j < |keys| ==> keys[i] < keys[j]
      invariant forall id :: id in keys <==> id in ids && id !in rest
      decreases rest
    {
      var id :| id in rest;
      PlaceAscends(keys, id);
      keys := Place(keys, id);
      rest := rest - {id};
    }
  }

  lemma {:induction false} GrantedNonNegative(es: seq<Entry>, a: Rates)
    ensures Granted(es, a) >= 0
  {
    if es != [] {
      GrantedNonNegative(es[1..], a);
    }
  }

  lemma WaterfillKeys(es: seq<Entry>, capacity: nat, a: Rates)
    requires IsWaterfill(es, capacity, a)
    ensures a.Keys == Ids(es)
  {
  }

  method ServePhase(entries: seq<Entry>, capacity: U64) returns (rates: Rates)
    requires AscendingIds(entries)
    ensures IsWaterfill(entries, capacity, rates)
    ensures rates.Keys == Ids(entries) && 0 <= Granted(entries, rates) <= capacity
  {
    SortOfSorted(ById(), entries);
    rates := WeightedMaxMin(entries, capacity);
    Conservation(entries, capacity, rates);
    GrantedNonNegative(entries, rates);
    WaterfillKeys(entries, capacity, rates);
  }

  /** Phase one over the full capacity, phase two over the leftover, and the totals of both. */
  method ServePhases(capacity: Capacity, keys: seq<Id>, ghost classes: Classes, ghost demands: Demands,
                     contributors: seq<Entry>, leeches: seq<Entry>)
    returns (share: FairShare)
    requires InOrder(keys, classes.Keys)
    requires contributors == ClassEntries(keys, classes, demands, true)
    requires leeches == ClassEntries(keys, classes, demands, false)
    ensures exists one, left: nat, two :: TwoPhases(capacity, contributors, leeches, one, left, two, share)
  {
    ClassAscending(keys, classes, demands, true);
    ClassAscending(keys, classes, demands, false);
    var phaseOne := ServePhase(contributors, capacity);
    var served := ToU64(Granted(contributors, phaseOne));
    var leftover := SaturatingSub(capacity, served);
    var phaseTwo := ServePhase(leeches, leftover);

    var allocations := phaseOne + phaseTwo;
    PhasesDisjoint(keys, classes, demands, phaseOne, phaseTwo);
    ValuesByClass(keys, classes, demands, allocations);
    var total := ToU64(ValueAt(keys, allocations));
    share := FairShare(allocations, total, SaturatingSub(capacity, total));
    assert TwoPhases(capacity, contributors, leeches, phaseOne, leftover, phaseTwo, share);
  }

  method Allocate(capacity: Capacity, participants: seq<Participant>, demands: seq<Request>)
    returns (r: Result<FairShare, FairnessError>)
    ensures Accepts(participants, demands) ==> r.Ok? && IsFairShare(capacity, participants, demands, r.value)
    ensures !Accepts(participants, demands) ==> r.Err? && Refused(participants, demands, r.error)
  {
    var classified := ClassifyParticipants(participants, demands);
    if classified.Err? {
      return Err(classified.error);
    }
    var participationOf := classified.value;
    var unknown := CheckRequests(participants, participationOf, demands);
    if unknown.Some? {
      return Err(unknown.value);
    }
    var collected := CollectDemands(participants, demands);
    if collected.Err? {
      return Err(collected.error);
    }
    var demandOf := collected.value;

    var keys := KeysInOrder(participationOf.Keys);
    var contributors, leeches := [], [];
    for i := 0 to |keys|
      invariant contributors == ClassEntries(keys[..i], participationOf, demandOf, true)
      invariant leeches == ClassEntries(keys[..i], participationOf, demandOf, false)
    {
      assert keys[..i + 1][..i] == keys[..i];
      var id := keys[i];
      var entry := EntryOf(id, participationOf[id], demandOf);
      match participationOf[id] {
        case Contributing(_) => contributors := contributors + [entry];
        case Leeching => leeches := leeches + [entry];
      }
    }
    assert keys[..|keys|] == keys;
    var share := ServePhases(capacity, keys, participationOf, demandOf, contributors, leeches);
    r := Ok(share);
  }
}
