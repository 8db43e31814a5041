/** The per-neighbour quota ledger: fixed windows, checked when a connection starts, charged when it ends. */
module Quota {
  import opened Common

  /** An address, as the number it is. */
  type Source = nat

  /** Instants and durations count nanoseconds. */
  const SECOND: nat := 1_000_000_000

  datatype PolicyFields = Policy(maxBytes: U64, window: nat)

  type QuotaPolicy = p: PolicyFields | p.maxBytes > 0 && p.window > 0 witness Policy(1, 1)

  datatype ClientWindow = ClientWindow(started: nat, used: U64)

  type Clients = map<Source, ClientWindow>

  datatype AdmitDecision = Allowed | QuotaExhausted(retryAfterSecs: nat)

  /** Time elapsed, zero when the clock reads earlier. */
  function Since(now: nat, started: nat): nat {
    if now >= started then now - started else 0
  }

  /** The window of `source` at `now`: a new one when there is none or the old one has run out. */
  function Rolled(clients: Clients, source: Source, policy: QuotaPolicy, now: nat): ClientWindow {
    if source in clients && Since(now, clients[source].started) < policy.window then clients[source]
    else ClientWindow(now, 0)
  }

  function SaturatingAdd(a: U64, b: U64): U64 {
    Min(a + b, TWO64 - 1)
  }

  function RetryAfter(w: ClientWindow, policy: QuotaPolicy, later: nat): nat {
    Max(1, Since(policy.window, Since(later, w.started)) / SECOND)
  }

  function Decision(w: ClientWindow, policy: QuotaPolicy, later: nat): AdmitDecision {
    if w.used >= policy.maxBytes then QuotaExhausted(RetryAfter(w, policy, later)) else Allowed
  }

  /** The hint is at least one second; beyond that it is what is left of the window, rounded down. */
  lemma HintMeans(w: ClientWindow, policy: QuotaPolicy, later: nat)
    requires w.started <= later
    ensures var hint := RetryAfter(w, policy, later);
            && hint >= 1
            && (hint == 1 || later + hint * SECOND <= w.started + policy.window)
            && w.started + policy.window < later + (hint + 1) * SECOND
  {
    var remaining := Since(policy.window, later - w.started);
    assert remaining == remaining / SECOND * SECOND + remaining % SECOND;
  }

  /**
    What happens to a ledger under one policy: a connection is checked at `now` (with a second look at the clock,
    `later`, for the hint), a finished one is charged, or an admitted one ends before any traffic is charged.
  */
  datatype Op =
    | Checked(source: Source, now: nat, later: nat)
    | Charged(source: Source, now: nat, bytes: U64)
    | Dropped(source: Source, now: nat)

  function Apply(clients: Clients, policy: QuotaPolicy, op: Op): Clients {
    match op
    case Checked(source, now, _) => clients[source := Rolled(clients, source, policy, now)]
    case Charged(source, now, bytes) =>
      var w := Rolled(clients, source, policy, now);
      clients[source := ClientWindow(w.started, SaturatingAdd(w.used, bytes))]
    case Dropped(_, _) => clients
  }

  function Ledger(ops: seq<Op>, policy: QuotaPolicy): Clients {
    if ops == [] then map[] else Apply(Ledger(ops[..|ops| - 1], policy), policy, ops[|ops| - 1])
  }

  class QuotaLedger {
    var clients: Clients

    constructor ()
      ensures clients == map[]
    {
      clients := map[];
    }

    /** The client's window, rolled over when its time has run out. */
    method RollWindow(source: Source, policy: QuotaPolicy, now: nat) returns (w: ClientWindow)
      modifies this
      ensures w == Rolled(old(clients), source, policy, now)
      ensures clients == old(clients)[source := w]
    {
      if source !in clients {
        clients := clients[source := ClientWindow(now, 0)];
      }
      if Since(now, clients[source].started) >= policy.window {
        clients := clients[source := ClientWindow(now, 0)];
      }
      w := clients[source];
    }

    method Admit(source: Source, quota: Option<QuotaPolicy>, now: nat, later: nat) returns (decision: AdmitDecision)
      modifies this
      ensures quota.None? ==> decision == Allowed && clients == old(clients)
      ensures quota.Some? ==> clients == Apply(old(clients), quota.value, Checked(source, now, later))
      ensures quota.Some? ==> decision == Decision(clients[source], quota.value, later)
      ensures quota.Some? ==> (decision == Allowed <==> clients[source].used < quota.value.maxBytes)
      ensures quota.Some? && decision.QuotaExhausted? && clients[source].started <= later ==>
                var hint, end := decision.retryAfterSecs, clients[source].started + quota.value.window;
                && hint >= 1 && (hint == 1 || later + hint * SECOND <= end) && end < later + (hint + 1) * SECOND
    {
      if quota.None? {
        return Allowed;
      }
      var policy := quota.value;
      var window := RollWindow(source, policy, now);
      if window.used >= policy.maxBytes {
        var elapsed := Since(later, window.started);
        var remaining := if policy.window >= elapsed then policy.window - elapsed else 0;
        decision := QuotaExhausted(Max(remaining / SECOND, 1));
        if window.started <= later {
          HintMeans(window, policy, later);
        }
      } else {
        decision := Allowed;
      }
    }

    method Record(source: Source, bytes: U64, quota: Option<QuotaPolicy>, now: nat)
      modifies this
      ensures quota.None? ==> clients == old(clients)
      ensures quota.Some? ==> clients == Apply(old(clients), quota.value, Charged(source, now, bytes))
    {
      if quota.None? {
        return;
      }
      var window := RollWindow(source, quota.value, now);
      clients := clients[source := window.(used := SaturatingAdd(window.used, bytes))];
    }

    method UsedBytes(source: Source) returns (used: U64)
      ensures used == if source in clients then clients[source].used else 0
    {
      if source in clients {
        used := clients[source].used;
      } else {
        used := 0;
      }
    }
  }
}
