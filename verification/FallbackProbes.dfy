/**
  When exactly a claim of packages/orchestrator/src/redirectFallbackCache.ts (41-77) is granted, by the calls
  before it.
*/
module FallbackProbes {
  import opened FallbackCache

  /** Position m holds the last outcome of the host before k. */
  ghost predicate LastOutcome(log: seq<Event>, m: nat, k: nat, host: string) {
    m < k <= |log| && log[m].host == host && !log[m].Claimed? && Undecided(log, m, k, host)
  }

  /** A probe granted since the last outcome of the host. */
  ghost predicate ProbeOut(log: seq<Event>, m: nat, k: nat, host: string, ttl: int) {
    m < k <= |log| && log[m].host == host && Granted(log, m, ttl) && Undecided(log, m, k, host)
  }

  /** The host is probed by somebody, or must wait for the time after the last outcome, or is free. */
  ghost predicate StateMeans(log: seq<Event>, k: nat, host: string, ttl: int, state: Known)
    requires k <= |log|
  {
    match state
    case Probing => exists m: nat :: ProbeOut(log, m, k, host, ttl)
    case Waiting(until) =>
      && (forall m: nat :: !ProbeOut(log, m, k, host, ttl))
      && exists m: nat :: LastOutcome(log, m, k, host) && log[m].Required? && until == log[m].at + ttl
    case Unknown =>
      && (forall m: nat :: !ProbeOut(log, m, k, host, ttl))
      && forall m: nat | LastOutcome(log, m, k, host) :: log[m].Captured?
  }

  /** An event of another host changes nothing, a claim adds a probe if it is granted, an outcome ends them all. */
  lemma Later(log: seq<Event>, k: nat, n: nat, host: string, ttl: int, m: nat)
    requires n == k + 1 <= |log|
    ensures log[k].host == host && !log[k].Claimed? ==>
      !ProbeOut(log, m, n, host, ttl) && (LastOutcome(log, m, n, host) <==> m == k)
    ensures !(log[k].host == host && !log[k].Claimed?) ==>
      && (LastOutcome(log, m, n, host) <==> LastOutcome(log, m, k, host))
      && (ProbeOut(log, m, n, host, ttl) <==>
          ProbeOut(log, m, k, host, ttl) || (m == k && log[k].host == host && Granted(log, k, ttl)))
  {
    if m < k {
      assert Undecided(log, m, n, host) <==>
        Undecided(log, m, k, host) && (log[k].host == host ==> log[k].Claimed?);
    }
    hide StateOf;
  }

  lemma {:induction false} StateIs(log: seq<Event>, n: nat, host: string, ttl: int)
    requires n <= |log|
    ensures StateMeans(log, n, host, ttl, StateOf(log[..n], host, ttl))
  {
    if n > 0 {
      var k: nat := n - 1;
      StateIs(log, k, host, ttl);
      assert log[..n][..k] == log[..k];
      forall m: nat
        ensures log[k].host == host && !log[k].Claimed? ==>
          !ProbeOut(log, m, n, host, ttl) && (LastOutcome(log, m, n, host) <==> m == k)
        ensures !(log[k].host == host && !log[k].Claimed?) ==>
          && (LastOutcome(log, m, n, host) <==> LastOutcome(log, m, k, host))
          && (ProbeOut(log, m, n, host, ttl) <==>
              ProbeOut(log, m, k, host, ttl) || (m == k && log[k].host == host && Granted(log, k, ttl)))
      {
        Later(log, k, n, host, ttl, m);
      }
      StateStep(log, k, n, host, ttl);
    }
  }

  lemma StateStep(log: seq<Event>, k: nat, n: nat, host: string, ttl: int)
    requires n == k + 1 <= |log| && log[..n][..k] == log[..k]
    requires StateMeans(log, k, host, ttl, StateOf(log[..k], host, ttl))
    requires log[k].host == host && !log[k].Claimed? ==>
      forall m: nat :: !ProbeOut(log, m, n, host, ttl) && (LastOutcome(log, m, n, host) <==> m == k)
    requires !(log[k].host == host && !log[k].Claimed?) ==> forall m: nat ::
      && (LastOutcome(log, m, n, host) <==> LastOutcome(log, m, k, host))
      && (ProbeOut(log, m, n, host, ttl) <==>
          ProbeOut(log, m, k, host, ttl) || (m == k && log[k].host == host && Granted(log, k, ttl)))
    ensures StateMeans(log, n, host, ttl, StateOf(log[..n], host, ttl))
  {
    var before := StateOf(log[..k], host, ttl);
    assert log[..n][n - 1] == log[k];
    assert StateOf(log[..n], host, ttl) == if log[k].host == host then Advance(before, log[k], ttl) else before;
    assert log[k].host == host && log[k].Claimed? ==> (Granted(log, k, ttl) <==> Grants(before, log[k].at));
    hide StateOf, Granted, LastOutcome, ProbeOut;
    if log[k].host == host && !log[k].Claimed? {
      assert LastOutcome(log, k, n, host);
    } else if log[k].host == host && Granted(log, k, ttl) {
      assert ProbeOut(log, k, n, host, ttl);
    }
  }

  /**
    A claim is granted if and only if no granted probe of the host is without outcome, and the time to live is
    over since its last outcome, if that one asked for the browser.
  */
  lemma GrantedExactly(log: seq<Event>, i: nat, ttl: int)
    requires i < |log| && log[i].Claimed?
    ensures Granted(log, i, ttl) <==>
      && (forall m: nat :: !ProbeOut(log, m, i, log[i].host, ttl))
      && forall m: nat | LastOutcome(log, m, i, log[i].host) && log[m].Required? :: log[m].at + ttl <= log[i].at
  {
    var host := log[i].host;
    StateIs(log, i, host, ttl);
    forall m: nat, n: nat | LastOutcome(log, m, i, host) && LastOutcome(log, n, i, host) ensures m == n { }
    hide LastOutcome, ProbeOut, StateOf;
  }
}
