/** The rekey trigger of the outbound loop as a step system: the claim in the session
    manager, the `rekeying` flag, and the one future the loop can poll. The inbound
    loop may install a peer's rekey, and so release the claim, at any time. */
module Rekey {
  import opened Words
  import opened Sessions

  datatype Loop = Loop(
    claim: Claim,
    rekeying: bool,
    inFlight: nat,            // initiator rekeys started and not yet completed
    clock: int,
    claims: seq<int>)         // when each claim was won

  datatype Event =
    | Tick(counter: u64, now: int)
    | Complete
    | PeerInstall

  function Start(now: int): Loop {
    Loop(Claim(false, now - 2 * MIN_REKEY_INTERVAL), false, 0, now, [])
  }

  predicate Enabled(l: Loop, event: Event) {
    match event
    case Tick(_, now) => now >= l.clock
    case Complete => l.inFlight > 0
    case PeerInstall => true
  }

  /** `Complete` covers both outcomes: success installs, failure aborts, and either
      releases the claim before the flag is cleared. */
  function Apply(threshold: u64, l: Loop, event: Event): Loop
    requires Enabled(l, event)
  {
    match event
    case Tick(counter, now) =>
      var (claim, won) := l.claim.Try(counter, threshold, now);
      var t := l.(claim := claim, clock := now, claims := if won then l.claims + [now] else l.claims);
      if won && !l.rekeying then t.(rekeying := true, inFlight := l.inFlight + 1) else t
    case Complete => l.(claim := l.claim.Release(), rekeying := false, inFlight := l.inFlight - 1)
    case PeerInstall => l.(claim := l.claim.Release())
  }

  predicate IsRun(threshold: u64, start: int, run: seq<Loop>, events: seq<Event>) {
    && |run| == |events| + 1 && run[0] == Start(start)
    && forall i | 0 <= i < |events| :: Enabled(run[i], events[i]) && run[i + 1] == Apply(threshold, run[i], events[i])
  }

  predicate Inv(l: Loop) {
    && l.inFlight == (if l.rekeying then 1 else 0)
    && (l.claim.taken ==> l.rekeying)
    && (l.claims != [] ==> l.claims[|l.claims| - 1] == l.claim.lastAttempt)
    && (forall i | 0 <= i < |l.claims| - 1 :: l.claims[i] + MIN_REKEY_INTERVAL <= l.claims[i + 1])
  }

  /** At most one initiator rekey is in flight, a claim is never held without one (so
      none is lost), and claims are at least five seconds apart: also when the peer's
      rekey releases the claim while ours is still running. */
  lemma {:induction false} OneRekeyAtATime(threshold: u64, start: int, run: seq<Loop>, events: seq<Event>)
    requires IsRun(threshold, start, run, events)
    ensures Inv(run[|events|])
    ensures run[|events|].inFlight <= 1
  {
    if events != [] {
      var n := |events| - 1;
      OneRekeyAtATime(threshold, start, run[..n + 1], events[..n]);
      assert Enabled(run[n], events[n]) && run[n + 1] == Apply(threshold, run[n], events[n]);
    }
  }

  lemma {:induction false} ClaimsApart(l: Loop, i: nat, j: nat)
    requires Inv(l) && i < j < |l.claims|
    ensures l.claims[i] + (j - i) * MIN_REKEY_INTERVAL <= l.claims[j]
  {
    if i + 1 < j { ClaimsApart(l, i, j - 1); }
    assert l.claims[j - 1] + MIN_REKEY_INTERVAL <= l.claims[j - 1 + 1];
  }

  // ── When a claim is won ──

  /** The tick at step n won the claim. */
  predicate WonAt(run: seq<Loop>, events: seq<Event>, n: nat)
    requires |run| == |events| + 1 && n < |events|
  {
    events[n].Tick? && run[n + 1].claims == run[n].claims + [events[n].now]
  }

  /** After n steps somebody holds the claim: a tick won it, and no rekey, ours or the
      peer's, has come to an end since. */
  predicate HeldAfter(run: seq<Loop>, events: seq<Event>, n: nat)
    requires |run| == |events| + 1 && n <= |events|
  {
    exists i :: 0 <= i < n && WonAt(run, events, i) && OnlyTicks(events, i + 1, n)
  }

  predicate OnlyTicks(events: seq<Event>, m: nat, n: nat) {
    n <= |events| && forall k | m <= k < n :: events[k].Tick?
  }

  predicate DueAt(threshold: u64, start: int, run: seq<Loop>, events: seq<Event>, n: nat)
    requires |run| == |events| + 1 && n < |events|
  {
    && events[n].Tick? && events[n].counter >= threshold
    && !HeldAfter(run, events, n)
    && (run[n].claims != [] ==> events[n].now - run[n].claims[|run[n].claims| - 1] >= 5000)
  }

  predicate Follows(threshold: u64, start: int, run: seq<Loop>, events: seq<Event>, n: nat) {
    && |run| == |events| + 1 && n <= |events|
    && (run[n].claim.taken <==> HeldAfter(run, events, n))
    && run[n].claim.lastAttempt == (if run[n].claims == [] then start - 10000 else run[n].claims[|run[n].claims| - 1])
    && run[n].clock >= start
    && Inv(run[n])
  }

  lemma HeldStep(run: seq<Loop>, events: seq<Event>, n: nat)
    requires |run| == |events| + 1 && n < |events|
    ensures HeldAfter(run, events, n + 1) <==> WonAt(run, events, n) || (events[n].Tick? && HeldAfter(run, events, n))
  {
    assert OnlyTicks(events, n + 1, n + 1);
    if events[n].Tick? && HeldAfter(run, events, n) {
      var i :| 0 <= i < n && WonAt(run, events, i) && OnlyTicks(events, i + 1, n);
      assert OnlyTicks(events, i + 1, n + 1);
    }
    if HeldAfter(run, events, n + 1) && !WonAt(run, events, n) {
      var i :| 0 <= i < n + 1 && WonAt(run, events, i) && OnlyTicks(events, i + 1, n + 1);
      assert OnlyTicks(events, i + 1, n);
    }
  }

  lemma {:induction false} StateFollows(threshold: u64, start: int, run: seq<Loop>, events: seq<Event>, n: nat)
    requires IsRun(threshold, start, run, events) && n <= |events|
    ensures Follows(threshold, start, run, events, n)
  {
    if n > 0 {
      StateFollows(threshold, start, run, events, n - 1);
      assert Enabled(run[n - 1], events[n - 1]) && run[n] == Apply(threshold, run[n - 1], events[n - 1]);
      HeldStep(run, events, n - 1);
      assert run[n - 1].claims != run[n - 1].claims + [0];
    }
  }

  /** In every run a tick wins the claim exactly when the counter has reached the threshold,
      nobody holds the claim, and the last win is five seconds back; otherwise no claim is
      added. A win starts a rekey exactly when none is in flight. */
  lemma WinsIffDue(threshold: u64, start: int, run: seq<Loop>, events: seq<Event>, n: nat)
    requires IsRun(threshold, start, run, events) && n < |events|
    ensures WonAt(run, events, n) <==> DueAt(threshold, start, run, events, n)
    ensures !WonAt(run, events, n) ==> run[n + 1].claims == run[n].claims
    ensures run[n + 1].inFlight == run[n].inFlight + 1 <==> WonAt(run, events, n) && run[n].inFlight == 0
  {
    StateFollows(threshold, start, run, events, n);
    assert Enabled(run[n], events[n]) && run[n + 1] == Apply(threshold, run[n], events[n]);
    if events[n].Tick? { assert |run[n].claims + [events[n].now]| != |run[n].claims|; }
  }

  /** Every entry of the list of claims was won by a tick at or past the threshold. */
  lemma {:induction false} ClaimsWereDue(threshold: u64, start: int, run: seq<Loop>, events: seq<Event>, n: nat, k: nat) returns (i: nat)
    requires IsRun(threshold, start, run, events) && n <= |events| && k < |run[n].claims|
    ensures i < n && WonAt(run, events, i) && events[i].now == run[n].claims[k] && events[i].counter >= threshold
  {
    WinsIffDue(threshold, start, run, events, n - 1);
    if k < |run[n - 1].claims| {
      i := ClaimsWereDue(threshold, start, run, events, n - 1, k);
    } else {
      i := n - 1;
    }
  }
}
