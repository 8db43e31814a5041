/** Dropping the weakest exits until every remaining one can hold a minimum segment. */
module PlanExits {
  import opened Common
  import opened Sequences
  import opened PlanMerge
  import opened PlanSplit

  /** Higher weight first; among equals the lower id. */
  function Stronger(): (Exit, Exit) -> bool {
    (a: Exit, b: Exit) => a.weight > b.weight || (a.weight == b.weight && a.id <= b.id)
  }

  function LowerId(): (Exit, Exit) -> bool {
    (a: Exit, b: Exit) => a.id <= b.id
  }

  lemma OrdersAreTotal()
    ensures TotalPreorder(Stronger()) && TotalPreorder(LowerId())
  {
  }

  /** The first of the weakest exits. */
  function Weakest(exits: seq<Exit>): (pos: nat)
    requires exits != []
    ensures pos < |exits|
    ensures forall i :: 0 <= i < |exits| ==> Stronger()(exits[i], exits[pos])
  {
    if |exits| == 1 then 0
    else
      var rest := Weakest(exits[1..]) + 1;
      assert exits[rest] == exits[1..][rest - 1];
      assert forall i :: 1 <= i < |exits| ==> exits[i] == exits[1..][i - 1];
      if Stronger()(exits[rest], exits[0]) then 0 else rest
  }

  function Without<T>(s: seq<T>, pos: nat): seq<T>
    requires pos < |s|
  {
    s[..pos] + s[pos + 1..]
  }

  function Crowded(n: nat, size: FileSize, m: MinSegment): bool {
    n > 1 && size < n * m
  }

  /** The vector the removal loop leaves behind. */
  function Remaining(exits: seq<Exit>, size: FileSize, m: MinSegment): seq<Exit>
    decreases |exits|
  {
    if Crowded(|exits|, size, m) then Remaining(Without(exits, Weakest(exits)), size, m) else exits
  }

  /** Of `exits`, none that is left out is heavier than one that is kept, nor of the same weight and a lower id. */
  ghost predicate KeepsStrongest(exits: seq<Exit>, kept: seq<Exit>) {
    && multiset(kept) <= multiset(exits)
    && forall x, y :: multiset(exits)[x] > multiset(kept)[x] && y in kept ==>
         x.weight < y.weight || (x.weight == y.weight && x.id >= y.id)
  }

  /** As many as can have a minimum segment each, but at least one and at most all. */
  ghost predicate KeepsAsMany(kept: nat, all: nat, size: FileSize, m: MinSegment) {
    && 1 <= kept <= all
    && (kept == 1 || kept * m <= size)
    && (kept == all || size < (kept + 1) * m)
  }

  /** How many exits a file of this size can feed. */
  function Capacity(n: nat, size: FileSize, m: MinSegment): nat {
    QuotientBounds(size, m);
    Max(1, Min(n, size / m))
  }

  lemma CapacityStep(n: nat, size: FileSize, m: MinSegment)
    requires n > 0
    ensures Crowded(n, size, m) <==> n > 1 && n > size / m
    ensures !Crowded(n, size, m) ==> Capacity(n, size, m) == n
    ensures Crowded(n, size, m) ==> Capacity(n - 1, size, m) == Capacity(n, size, m) <= n - 1
  {
    QuotientBounds(size, m);
    var q := size / m;
    if size < n * m {
      CancelStrict(q, n, m);
    } else {
      CancelStrict(n, q + 1, m);
    }
  }

  lemma WithoutMultiset<T>(s: seq<T>, pos: nat)
    requires pos < |s|
    ensures multiset(Without(s, pos)) == multiset(s) - multiset{s[pos]}
  {
    assert s == s[..pos] + [s[pos]] + s[pos + 1..];
  }

  lemma RankAscends(exits: seq<Exit>)
    ensures Ascends(Stronger(), Sort(Stronger(), exits))
  {
    OrdersAreTotal();
    SortAscends(Stronger(), exits);
  }

  /** The weakest exit is last in the ranking. */
  lemma WeakestIsLast(exits: seq<Exit>)
    requires exits != []
    ensures Sort(Stronger(), exits)[|exits| - 1] == exits[Weakest(exits)]
    ensures Ascends(Stronger(), Sort(Stronger(), exits))
  {
    RankAscends(exits);
    var ranked := Sort(Stronger(), exits);
    var n := |exits| - 1;
    var weakest := exits[Weakest(exits)];
    SortMembers(Stronger(), exits);
    assert weakest in exits && ranked[n] in ranked;
    var i :| 0 <= i <= n && ranked[i] == weakest;
    assert i == n || Stronger()(ranked[i], ranked[n]);
    var j :| 0 <= j < |exits| && exits[j] == ranked[n];
    assert Stronger()(exits[j], weakest);
  }

  lemma TopAscends(ranked: seq<Exit>, n: nat)
    requires Ascends(Stronger(), ranked) && n + 1 == |ranked|
    ensures Ascends(Stronger(), ranked[..n])
    ensures multiset(ranked[..n]) == multiset(ranked) - multiset{ranked[n]}
  {
    WithoutMultiset(ranked, n);
    assert Without(ranked, n) == ranked[..n];
  }

  lemma HeadIsBest(a: seq<Exit>, x: Exit)
    requires Ascends(Stronger(), a) && x in multiset(a)
    ensures a != [] && Stronger()(a[0], x)
  {
    var i :| 0 <= i < |a| && a[i] == x;
    if i > 0 {
      assert Stronger()(a[0], a[i]);
    }
  }

  lemma TailMultiset(a: seq<Exit>)
    requires a != []
    ensures multiset(a[1..]) == multiset(a) - multiset{a[0]}
  {
    assert a == [a[0]] + a[1..];
  }

  lemma {:induction false} SortedUnique(a: seq<Exit>, b: seq<Exit>)
    requires Ascends(Stronger(), a) && Ascends(Stronger(), b) && multiset(a) == multiset(b)
    ensures a == b
  {
    if a == [] {
      assert |multiset(b)| == 0;
    } else {
      assert a[0] in multiset(a);
      HeadIsBest(b, a[0]);
      assert b[0] in multiset(b);
      HeadIsBest(a, b[0]);
      TailMultiset(a);
      TailMultiset(b);
      assert a[0] == b[0];
      SortedUnique(a[1..], b[1..]);
      assert a == [a[0]] + a[1..] && b == [b[0]] + b[1..];
    }
  }

  lemma RankIs(exits: seq<Exit>, ranked: seq<Exit>)
    requires Ascends(Stronger(), ranked) && multiset(ranked) == multiset(exits)
    ensures Sort(Stronger(), exits) == ranked
  {
    RankAscends(exits);
    SortedUnique(Sort(Stronger(), exits), ranked);
  }

  /** Removing the weakest exit removes the end of the ranking. */
  lemma RankWithoutWeakest(exits: seq<Exit>)
    requires exits != []
    ensures Sort(Stronger(), Without(exits, Weakest(exits))) == Sort(Stronger(), exits)[..|exits| - 1]
  {
    WeakestIsLast(exits);
    WithoutMultiset(exits, Weakest(exits));
    TopAscends(Sort(Stronger(), exits), |exits| - 1);
    RankIs(Without(exits, Weakest(exits)), Sort(Stronger(), exits)[..|exits| - 1]);
  }

  lemma PrefixOfPrefix(s: seq<Exit>, n: nat, k: nat)
    requires k <= n <= |s|
    ensures s[..n][..k] == s[..k]
    ensures k == |s| ==> s[..k] == s
  {
  }

  /** The loop keeps exactly max(1, min(n, size / m)) exits, and they are the top of the ranking. */
  lemma {:induction false} RemainingIsTop(exits: seq<Exit>, size: FileSize, m: MinSegment)
    requires exits != []
    ensures |Remaining(exits, size, m)| == Capacity(|exits|, size, m)
    ensures multiset(Remaining(exits, size, m))
         == multiset(Sort(Stronger(), exits)[..Capacity(|exits|, size, m)])
    decreases |exits|
  {
    CapacityStep(|exits|, size, m);
    var ranked, k := Sort(Stronger(), exits), Capacity(|exits|, size, m);
    if Crowded(|exits|, size, m) {
      RemainingIsTop(Without(exits, Weakest(exits)), size, m);
      RankWithoutWeakest(exits);
      PrefixOfPrefix(ranked, |exits| - 1, k);
    } else {
      PrefixOfPrefix(ranked, k, k);
    }
  }

  lemma CapacityMeans(n: nat, size: FileSize, m: MinSegment)
    requires n > 0
    ensures KeepsAsMany(Capacity(n, size, m), n, size, m)
  {
    QuotientBounds(size, m);
    var q, k := size / m, Capacity(n, size, m);
    if k <= q {
      ProductMonotone(k, q, m);
    }
    if k < n {
      ProductMonotone(q + 1, k + 1, m);
    }
  }

  lemma KeepsStrongestRespects(exits: seq<Exit>, a: seq<Exit>, b: seq<Exit>)
    requires KeepsStrongest(exits, a) && multiset(a) == multiset(b)
    ensures KeepsStrongest(exits, b)
  {
    forall y | y in b
      ensures y in a
    {
      assert y in multiset(b);
    }
  }

  lemma LeftOut(exits: seq<Exit>, ranked: seq<Exit>, k: nat, x: Exit) returns (i: nat)
    requires k <= |ranked| && multiset(ranked) == multiset(exits)
    requires multiset(exits)[x] > multiset(ranked[..k])[x]
    ensures k <= i < |ranked| && ranked[i] == x
  {
    assert ranked == ranked[..k] + ranked[k..];
    assert x in multiset(ranked[k..]);
    var j :| 0 <= j < |ranked[k..]| && ranked[k..][j] == x;
    i := k + j;
  }

  lemma PrefixMembers(ranked: seq<Exit>, k: nat)
    requires k <= |ranked|
    ensures multiset(ranked[..k]) <= multiset(ranked)
  {
    assert ranked == ranked[..k] + ranked[k..];
  }

  lemma TopIsStrongest(exits: seq<Exit>, ranked: seq<Exit>, k: nat)
    requires k <= |ranked| && multiset(ranked) == multiset(exits) && Ascends(Stronger(), ranked)
    ensures KeepsStrongest(exits, ranked[..k])
  {
    PrefixMembers(ranked, k);
    forall x, y | multiset(exits)[x] > multiset(ranked[..k])[x] && y in ranked[..k]
      ensures x.weight < y.weight || (x.weight == y.weight && x.id >= y.id)
    {
      var i := LeftOut(exits, ranked, k, x);
      var j :| 0 <= j < k && ranked[j] == y;
      assert Stronger()(ranked[j], ranked[i]);
    }
  }

  /** The removal loop keeps the heaviest exits, and among equals those with the lowest ids; and as many as it can. */
  lemma RemainingAreStrongest(exits: seq<Exit>, size: FileSize, m: MinSegment)
    requires exits != []
    ensures KeepsStrongest(exits, Remaining(exits, size, m))
    ensures KeepsAsMany(|Remaining(exits, size, m)|, |exits|, size, m)
  {
    var k := Capacity(|exits|, size, m);
    RemainingIsTop(exits, size, m);
    CapacityMeans(|exits|, size, m);
    RankAscends(exits);
    TopIsStrongest(exits, Sort(Stronger(), exits), k);
    KeepsStrongestRespects(exits, Sort(Stronger(), exits)[..k], Remaining(exits, size, m));
  }

  method DropWeakest(input: seq<Exit>, size: FileSize, m: MinSegment) returns (exits: seq<Exit>)
    ensures exits == Remaining(input, size, m)
    ensures input != [] ==> KeepsStrongest(input, exits) && KeepsAsMany(|exits|, |input|, size, m)
  {
    if input != [] {
      RemainingAreStrongest(input, size, m);
    }
    exits := input;
    while |exits| > 1 && size < |exits| * m
      invariant Remaining(exits, size, m) == Remaining(input, size, m)
    {
      var weakest := Weakest(exits);
      exits := exits[..weakest] + exits[weakest + 1..];
    }
  }

  // ----- the loop refines sort-and-take

  // ----- which exits are kept, in plain numbers
}
