/** Choosing the exit of the next attempt from the shared record of failures. */
module ExitSelection {
  import opened Common
  import opened PlanRanges

  type Failures = map<ExitId, nat>

  ghost predicate AscendingExits(ids: seq<ExitId>) {
    forall i, j :: 0 <= i < j < |ids| ==> ids[i] < ids[j]
  }

  /** Never failed before failed, then the older failure, then the lower id. */
  predicate Preferred(failed: Failures, a: ExitId, b: ExitId) {
    if a in failed && b in failed then failed[a] < failed[b] || (failed[a] == failed[b] && a < b)
    else if a !in failed && b !in failed then a < b
    else a !in failed
  }

  ghost predicate IsBest(ids: seq<ExitId>, failed: Failures, avoid: ExitId, r: ExitId) {
    && r in ids && r != avoid
    && forall id :: id in ids && id != avoid && id != r ==> Preferred(failed, r, id)
  }

  /** The exit a retry goes to: the best other one, or the same one when there is no other. */
  ghost predicate Picks(ids: seq<ExitId>, failed: Failures, avoid: ExitId, r: ExitId) {
    if exists id :: id in ids && id != avoid then IsBest(ids, failed, avoid, r) else r == avoid
  }

  lemma PickIsUnique(ids: seq<ExitId>, failed: Failures, avoid: ExitId, r: ExitId, q: ExitId)
    requires Picks(ids, failed, avoid, r) && Picks(ids, failed, avoid, q)
    ensures r == q
  {
  }

  /** The exit just used is not used again while there is another. */
  lemma PickAvoids(ids: seq<ExitId>, failed: Failures, avoid: ExitId, r: ExitId)
    requires Picks(ids, failed, avoid, r)
    ensures r == avoid ==> forall id :: id in ids ==> id == avoid
    ensures avoid in ids ==> r in ids
  {
  }

  /** An exit that never failed is preferred over every one that did. */
  lemma PickUntried(ids: seq<ExitId>, failed: Failures, avoid: ExitId, r: ExitId, untried: ExitId)
    requires Picks(ids, failed, avoid, r)
    requires untried in ids && untried !in failed && untried != avoid
    ensures r in ids && r !in failed
  {
  }

  /**
    The pick in plain words. If it has failed before, so has every other exit, and none of them longer ago, nor at the
    same time with a lower id; if it has not, every other exit that has not has a higher id.
  */
  ghost predicate LongestAgo(ids: seq<ExitId>, failed: Failures, avoid: ExitId, r: ExitId) {
    && (r in failed ==>
          forall id :: id in ids && id != avoid && id != r ==>
            id in failed && (failed[r] < failed[id] || (failed[r] == failed[id] && r < id)))
    && (r !in failed ==> forall id :: id in ids && id != avoid && id !in failed ==> r <= id)
  }

  lemma PickMeans(ids: seq<ExitId>, failed: Failures, avoid: ExitId, r: ExitId)
    requires Picks(ids, failed, avoid, r)
    ensures (forall id :: id in ids ==> id == avoid) ==> r == avoid
    ensures (exists id :: id in ids && id != avoid) ==> r in ids && r != avoid && LongestAgo(ids, failed, avoid, r)
  {
    if exists id :: id in ids && id != avoid {
      forall id | id in ids && id != avoid && id != r
        ensures Preferred(failed, r, id)
      {
      }
    }
  }

  class ExitSelector {
    const ids: seq<ExitId>
    var lastFailed: Failures

    constructor (ids: seq<ExitId>)
      requires AscendingExits(ids)
      ensures this.ids == ids && lastFailed == map[]
    {
      this.ids := ids;
      lastFailed := map[];
    }

    method MarkFailed(id: ExitId, now: nat)
      modifies this
      ensures lastFailed == old(lastFailed)[id := now]
    {
      lastFailed := lastFailed[id := now];
    }

    method PickRetry(avoid: ExitId) returns (r: ExitId)
      requires AscendingExits(ids)
      ensures Picks(ids, lastFailed, avoid, r)
      ensures (forall id :: id in ids ==> id == avoid) ==> r == avoid
      ensures (exists id :: id in ids && id != avoid) ==>
                r in ids && r != avoid && LongestAgo(ids, lastFailed, avoid, r)
    {
      var best: Option<ExitId> := None;
      for i := 0 to |ids|
        invariant best.None? ==> forall k :: 0 <= k < i ==> ids[k] == avoid
        invariant best.Some? ==> best.value in ids[..i] && best.value != avoid
        invariant best.Some? ==> forall k :: 0 <= k < i && ids[k] != avoid && ids[k] != best.value ==>
                                   Preferred(lastFailed, best.value, ids[k])
      {
        var id := ids[i];
        assert ids[..i + 1] == ids[..i] + [id];
        if id != avoid {
          match best {
            case None => best := Some(id);
            case Some(current) =>
              var prefer :=
                if current !in lastFailed then false
                else if id !in lastFailed then true
                else lastFailed[id] < lastFailed[current];
              if prefer {
                best := Some(id);
              }
          }
        }
      }
      assert ids[..|ids|] == ids;
      r := if best.Some? then best.value else avoid;
      PickMeans(ids, lastFailed, avoid, r);
    }
  }
}
