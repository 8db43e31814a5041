/** The ledger over whole runs, told from the history of what was asked and charged. */
module QuotaRuns {
  import opened Common
  import opened Quota

  predicate Touches(op: Op, source: Source) {
    op.source == source && !op.Dropped?
  }

  /** The operation that opened the source's current window. */
  function Opener(ops: seq<Op>, source: Source, window: nat): (k: Option<nat>)
    ensures k.Some? ==> k.value < |ops| && Touches(ops[k.value], source)
  {
    if ops == [] then None
    else
      var n := |ops| - 1;
      var before := Opener(ops[..n], source, window);
      if !Touches(ops[n], source) then before
      else if before.Some? && Since(ops[n].now, ops[before.value].now) < window then before
      else Some(n)
  }

  function BytesOf(op: Op, source: Source): nat {
    if op.Charged? && op.source == source then op.bytes else 0
  }

  /** What was charged to the source from operation `from` on. */
  function ChargedFrom(ops: seq<Op>, source: Source, from: nat): nat {
    if |ops| <= from then 0
    else ChargedFrom(ops[..|ops| - 1], source, from) + BytesOf(ops[|ops| - 1], source)
  }

  /** What was charged in the source's current window. */
  function WindowBytes(ops: seq<Op>, source: Source, window: nat): nat {
    match Opener(ops, source, window)
    case None => 0
    case Some(k) => ChargedFrom(ops, source, k)
  }

  // ----- the counter

  lemma ChargedFromEnd(ops: seq<Op>, source: Source)
    requires ops != []
    ensures ChargedFrom(ops, source, |ops| - 1) == BytesOf(ops[|ops| - 1], source)
  {
    assert ChargedFrom(ops[..|ops| - 1], source, |ops| - 1) == 0;
  }

  /** The counter is the capped sum of the bytes charged since the current window was opened. */
  lemma {:induction false} LedgerRefinesHistory(ops: seq<Op>, policy: QuotaPolicy, source: Source)
    ensures source in Ledger(ops, policy) <==> Opener(ops, source, policy.window).Some?
    ensures source in Ledger(ops, policy) ==>
              Ledger(ops, policy)[source]
                == ClientWindow(ops[Opener(ops, source, policy.window).value].now,
                                Min(TWO64 - 1, WindowBytes(ops, source, policy.window)))
  {
    if ops != [] {
      LedgerRefinesHistory(ops[..|ops| - 1], policy, source);
      ChargedFromEnd(ops, source);
    }
  }

  /** The operations of one source. */
  function Only(ops: seq<Op>, source: Source): seq<Op> {
    if ops == [] then []
    else Only(ops[..|ops| - 1], source) + if ops[|ops| - 1].source == source then [ops[|ops| - 1]] else []
  }

  /** Sources never affect each other. */
  lemma {:induction false} SourcesAreIndependent(ops: seq<Op>, policy: QuotaPolicy, source: Source)
    ensures source in Ledger(ops, policy) <==> source in Ledger(Only(ops, source), policy)
    ensures source in Ledger(ops, policy) ==> Ledger(ops, policy)[source] == Ledger(Only(ops, source), policy)[source]
  {
    if ops != [] {
      var n := |ops| - 1;
      SourcesAreIndependent(ops[..n], policy, source);
      if ops[n].source == source {
        var all := Only(ops, source);
        assert all[..|all| - 1] == Only(ops[..n], source) && all[|all| - 1] == ops[n];
      } else {
        assert Only(ops, source) == Only(ops[..n], source);
      }
    }
  }

  /** A connection is let in exactly when its source has charged less than the quota in its current window. */
  lemma AdmittedIff(ops: seq<Op>, policy: QuotaPolicy, source: Source, now: nat, later: nat)
    ensures var all := ops + [Checked(source, now, later)];
            source in Ledger(all, policy)
    ensures var all := ops + [Checked(source, now, later)];
            (Decision(Ledger(all, policy)[source], policy, later) == Allowed)
              == (WindowBytes(all, source, policy.window) < policy.maxBytes)
  {
    var all := ops + [Checked(source, now, later)];
    LedgerRefinesHistory(all, policy, source);
    assert all[..|all| - 1] == ops;
  }

  // ----- the retry hint

  function ApplyAll(clients: Clients, policy: QuotaPolicy, ops: seq<Op>): Clients {
    if ops == [] then clients else Apply(ApplyAll(clients, policy, ops[..|ops| - 1]), policy, ops[|ops| - 1])
  }

  lemma {:induction false} UnchargedWindow(clients: Clients, mid: seq<Op>, policy: QuotaPolicy, source: Source)
    returns (after: Clients)
    requires source in clients
    requires forall op :: op in mid ==> !(op.Charged? && op.source == source)
    ensures after == ApplyAll(clients, policy, mid) && source in after
    ensures after[source] == clients[source] || after[source].used == 0
  {
    if mid == [] {
      after := clients;
    } else {
      var n := |mid| - 1;
      assert mid[n] in mid;
      var before := UnchargedWindow(clients, mid[..n], policy, source);
      after := Apply(before, policy, mid[n]);
    }
  }

  lemma HintArithmetic(remaining: nat)
    ensures var hint := Max(1, remaining / SECOND);
            && remaining < hint * SECOND + SECOND
            && (remaining <= hint * SECOND <==> remaining < SECOND || remaining % SECOND == 0)
  {
    assert remaining == remaining / SECOND * SECOND + remaining % SECOND;
  }

  /** Coming back exactly when the hint says is early enough if and only if the hint did not have to be rounded down. */
  lemma HintSufficesIff(w: ClientWindow, policy: QuotaPolicy, later: nat, source: Source)
    requires w.started <= later && w.used >= policy.maxBytes
    ensures var back := later + RetryAfter(w, policy, later) * SECOND;
            var remaining := Since(policy.window, later - w.started);
            (Decision(Rolled(map[source := w], source, policy, back), policy, back) == Allowed)
              == (remaining < SECOND || remaining % SECOND == 0)
  {
    HintArithmetic(Since(policy.window, later - w.started));
  }

  /** The history of one source: let in, charged one byte, and back three times, at once, as told, and as told again. */
  function Returning(source: Source): seq<Op> {
    [Checked(source, 0, 0), Charged(source, 0, 1), Checked(source, 0, 0),
     Checked(source, 2 * SECOND, 2 * SECOND), Checked(source, 3 * SECOND, 3 * SECOND)]
  }

  lemma LedgerStep(ops: seq<Op>, policy: QuotaPolicy, k: nat)
    requires k < |ops|
    ensures Ledger(ops[..k + 1], policy) == Apply(Ledger(ops[..k], policy), policy, ops[k])
  {
    assert ops[..k + 1][..k] == ops[..k];
  }

  /** A quota of one byte in two and a half seconds: the first hint, two seconds, sends the source back too early. */
  lemma HintTooEarly(policy: QuotaPolicy, source: Source, ops: seq<Op>)
    requires policy == Policy(1, 5 * SECOND / 2) && ops == Returning(source)
    ensures forall k :: 1 <= k <= 5 ==> source in Ledger(ops[..k], policy)
    ensures Decision(Ledger(ops[..1], policy)[source], policy, 0) == Allowed
    ensures Decision(Ledger(ops[..3], policy)[source], policy, 0) == QuotaExhausted(2)
    ensures Decision(Ledger(ops[..4], policy)[source], policy, 2 * SECOND) == QuotaExhausted(1)
    ensures Decision(Ledger(ops[..5], policy)[source], policy, 3 * SECOND) == Allowed
  {
    assert Ledger(ops[..0], policy) == map[];
    LedgerStep(ops, policy, 0);
    LedgerStep(ops, policy, 1);
    LedgerStep(ops, policy, 2);
    LedgerStep(ops, policy, 3);
    assert Ledger(ops[..4], policy)[source] == ClientWindow(0, 1);
    LedgerStep(ops, policy, 4);
  }

  /**
    A refused source that waits as told and, if refused again, waits as told once more, is let in, provided
    nothing was charged to it meanwhile; what other sources do and what it asks in between does not matter.
  */
  lemma SecondHintSuffices(before: Clients, policy: QuotaPolicy, source: Source,
                           now1: nat, later1: nat, mid1: seq<Op>, now2: nat, later2: nat, mid2: seq<Op>, now3: nat,
                           c1: Clients, c2: Clients, c3: Clients)
    requires c1 == Apply(before, policy, Checked(source, now1, later1))
    requires c2 == Apply(ApplyAll(c1, policy, mid1), policy, Checked(source, now2, later2))
    requires c3 == Apply(ApplyAll(c2, policy, mid2), policy, Checked(source, now3, now3))
    requires forall op :: op in mid1 + mid2 ==> !(op.Charged? && op.source == source)
    requires source in before ==> before[source].started <= now1
    requires now1 <= later1 && now2 <= later2
    requires Decision(c1[source], policy, later1).QuotaExhausted?
    requires now2 >= later1 + Decision(c1[source], policy, later1).retryAfterSecs * SECOND
    requires Decision(c2[source], policy, later2).QuotaExhausted? ==>
               now3 >= later2 + Decision(c2[source], policy, later2).retryAfterSecs * SECOND
    ensures Decision(c2[source], policy, later2) == Allowed || Decision(c3[source], policy, now3) == Allowed
  {
    assert forall op :: op in mid1 ==> op in mid1 + mid2;
    assert forall op :: op in mid2 ==> op in mid1 + mid2;
    if Decision(c2[source], policy, later2).QuotaExhausted? {
      var a1 := UnchargedWindow(c1, mid1, policy, source);
      var w := c1[source];
      assert a1[source] == w && c2[source] == w;
      HintArithmetic(Since(policy.window, later1 - w.started));
      var a2 := UnchargedWindow(c2, mid2, policy, source);
      assert now3 >= later2 + SECOND;
    }
  }

  // ----- quota over whole runs

  function EndOf(op: Op): nat {
    if op.Checked? then op.later else op.now
  }

  /** The clock never runs backwards. */
  ghost predicate Monotone(ops: seq<Op>) {
    && (forall i :: 0 <= i < |ops| ==> ops[i].now <= EndOf(ops[i]))
    && forall i, j :: 0 <= i < j < |ops| ==> EndOf(ops[i]) <= ops[j].now
  }

  /** Connections of the source that were let in and not yet charged or dropped. */
  function Open(ops: seq<Op>, policy: QuotaPolicy, source: Source): int {
    if ops == [] then 0
    else
      var n := |ops| - 1;
      var before := Open(ops[..n], policy, source);
      if ops[n].source != source then before
      else if !ops[n].Checked? then before - 1
      else
        var w := Rolled(Ledger(ops[..n], policy), source, policy, ops[n].now);
        if Decision(w, policy, ops[n].later) == Allowed then before + 1 else before
  }

  /** At most `c` connections of the source are open at any time, and each carries at most `b` bytes. */
  ghost predicate Limited(ops: seq<Op>, policy: QuotaPolicy, source: Source, c: nat, b: nat) {
    && (forall k :: 0 <= k <= |ops| ==> 0 <= Open(ops[..k], policy, source) <= c)
    && forall i :: 0 <= i < |ops| ==> BytesOf(ops[i], source) <= b
  }

  lemma LimitedPrefix(ops: seq<Op>, policy: QuotaPolicy, source: Source, c: nat, b: nat, k: nat)
    requires Limited(ops, policy, source, c, b) && k <= |ops|
    ensures Limited(ops[..k], policy, source, c, b)
  {
    forall j | 0 <= j <= k
      ensures 0 <= Open(ops[..k][..j], policy, source) <= c
    {
      assert ops[..k][..j] == ops[..j];
    }
  }

  function WindowLimit(policy: QuotaPolicy, c: nat, b: nat): nat {
    policy.maxBytes - 1 + c * b
  }

  lemma ProductStep(c: int, b: nat)
    ensures (c + 1) * b == c * b + b && (c - 1) * b == c * b - b
  {
  }

  /** Bytes charged in the window and bytes still to come never exceed the limit together. */
  lemma {:induction false} WindowPotential(ops: seq<Op>, policy: QuotaPolicy, source: Source, c: nat, b: nat)
    requires Limited(ops, policy, source, c, b)
    ensures WindowBytes(ops, source, policy.window) + Open(ops, policy, source) * b <= WindowLimit(policy, c, b)
  {
    if ops == [] {
    } else {
      var n := |ops| - 1;
      LimitedPrefix(ops, policy, source, c, b, n);
      WindowPotential(ops[..n], policy, source, c, b);
      assert ops[..|ops|] == ops;
      var open, now := Open(ops[..n], policy, source), Open(ops, policy, source);
      assert 0 <= open <= c && 0 <= now <= c by {
        assert ops[..n + 1] == ops;
      }
      ProductStep(open, b);
      ProductMonotone(open, c, b);
      ProductMonotone(now, c, b);
      ChargedFromEnd(ops, source);
      if Touches(ops[n], source) && ops[n].Checked? {
        AdmittedIff(ops[..n], policy, source, ops[n].now, ops[n].later);
        assert ops[..n] + [ops[n]] == ops;
      }
    }
  }

  /** Every window ends with at most the quota, less one, plus what the open connections could carry. */
  lemma WindowNeverAbove(ops: seq<Op>, policy: QuotaPolicy, source: Source, c: nat, b: nat)
    requires Limited(ops, policy, source, c, b)
    ensures WindowBytes(ops, source, policy.window) <= WindowLimit(policy, c, b)
  {
    WindowPotential(ops, policy, source, c, b);
    assert ops[..|ops|] == ops;
    ProductMonotone(0, Open(ops, policy, source), b);
  }

  /** The operation that opened a window came at least one window after the one that opened the previous one. */
  lemma {:induction false} WindowsApart(ops: seq<Op>, source: Source, window: nat)
    requires Opener(ops, source, window).Some?
    ensures var k := Opener(ops, source, window).value;
            var previous := Opener(ops[..k], source, window);
            previous.Some? ==> Since(ops[k].now, ops[previous.value].now) >= window
  {
    var n, k := |ops| - 1, Opener(ops, source, window).value;
    if k < n {
      WindowsApart(ops[..n], source, window);
      assert ops[..n][..k] == ops[..k];
    }
  }

  lemma {:induction false} ChargedSplit(ops: seq<Op>, source: Source, i: nat, k: nat)
    requires i <= k <= |ops|
    ensures ChargedFrom(ops, source, i) == ChargedFrom(ops[..k], source, i) + ChargedFrom(ops, source, k)
  {
    if k == |ops| {
      assert ops[..k] == ops;
    } else {
      var n := |ops| - 1;
      ChargedSplit(ops[..n], source, i, k);
      assert ops[..n][..k] == ops[..k];
    }
  }

  lemma {:induction false} NeverTouched(ops: seq<Op>, source: Source, window: nat, i: nat)
    requires Opener(ops, source, window).None?
    ensures ChargedFrom(ops, source, i) == 0
  {
    if |ops| > i {
      NeverTouched(ops[..|ops| - 1], source, window, i);
    }
  }

  /** Charged since `i`, when the current window was open at `i` already. */
  lemma WithinOneWindow(ops: seq<Op>, policy: QuotaPolicy, source: Source, c: nat, b: nat, i: nat)
    requires Limited(ops, policy, source, c, b) && i <= |ops|
    requires Opener(ops, source, policy.window).Some? ==> Opener(ops, source, policy.window).value <= i
    ensures ChargedFrom(ops, source, i) <= WindowLimit(policy, c, b)
  {
    WindowNeverAbove(ops, policy, source, c, b);
    match Opener(ops, source, policy.window)
    case None => NeverTouched(ops, source, policy.window, i);
    case Some(k) => ChargedSplit(ops, source, k, i);
  }

  /** After a source was active, its next window opens strictly later. */
  lemma {:induction false} OpensLater(ops: seq<Op>, source: Source, window: nat, i: nat)
    requires Monotone(ops) && i < |ops| && Touches(ops[i], source) && window > 0
    ensures Opener(ops, source, window).Some?
    ensures var k := Opener(ops, source, window).value;
            if k <= i then Since(ops[i].now, ops[k].now) < window else ops[k].now > ops[i].now
  {
    var n := |ops| - 1;
    if i < n {
      OpensLater(ops[..n], source, window, i);
    }
  }

  /** Operations of other sources, and connections dropped, charge nothing. */
  lemma {:induction false} ChargedSkip(ops: seq<Op>, source: Source, i: nat)
    requires i < |ops| && !Touches(ops[i], source)
    ensures ChargedFrom(ops, source, i) == ChargedFrom(ops, source, i + 1)
  {
    var n := |ops| - 1;
    if i < n {
      ChargedSkip(ops[..n], source, i);
    }
  }

  lemma IntervalFromTouch(ops: seq<Op>, policy: QuotaPolicy, source: Source, c: nat, b: nat, i: nat)
    requires Monotone(ops) && Limited(ops, policy, source, c, b)
    requires i < |ops| && Touches(ops[i], source) && ops[|ops| - 1].now - ops[i].now <= policy.window
    ensures ChargedFrom(ops, source, i) <= 2 * WindowLimit(policy, c, b)
  {
    var opener := Opener(ops, source, policy.window);
    if opener.None? || opener.value <= i {
      WithinOneWindow(ops, policy, source, c, b, i);
    } else {
      var k := opener.value;
      LimitedPrefix(ops, policy, source, c, b, k);
      WindowsApart(ops, source, policy.window);
      ChargedSplit(ops, source, i, k);
      WindowNeverAbove(ops, policy, source, c, b);
      var previous := Opener(ops[..k], source, policy.window);
      if previous.Some? {
        assert ops[k].now <= ops[|ops| - 1].now;
        assert ops[previous.value].now <= ops[k].now;
        OpensLater(ops[..k], source, policy.window, i);
        assert previous.value <= i;
      }
      WithinOneWindow(ops[..k], policy, source, c, b, i);
    }
  }

  /** Any stretch of at most one window sees at most twice what one window can hold. */
  lemma {:induction false} AnyIntervalAtMostTwice(ops: seq<Op>, policy: QuotaPolicy, source: Source,
                                                  c: nat, b: nat, i: nat)
    requires Monotone(ops) && Limited(ops, policy, source, c, b)
    requires i < |ops| && ops[|ops| - 1].now - ops[i].now <= policy.window
    ensures ChargedFrom(ops, source, i) <= 2 * WindowLimit(policy, c, b)
    decreases |ops| - i
  {
    if !Touches(ops[i], source) {
      ChargedSkip(ops, source, i);
      if i + 1 < |ops| {
        assert ops[i].now <= ops[i + 1].now;
        AnyIntervalAtMostTwice(ops, policy, source, c, b, i + 1);
      }
    } else {
      IntervalFromTouch(ops, policy, source, c, b, i);
    }
  }
}
