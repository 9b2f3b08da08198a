/** What the sender is given and what becomes of it, told by the steps of a whole run. */
module Submissions {
  import opened Words
  import opened Bytes
  import opened Results
  import opened Aead
  import opened Obf
  import opened Sessions
  import opened Senders

  ghost predicate IsSending(cfg: Config, run: seq<Sender>, steps: seq<Step>)
    requires cfg.Valid()
  {
    && |run| == |steps| + 1 && run[0] == INITIAL
    && forall n | 0 <= n < |steps| :: Enabled(run[n], steps[n]) && run[n + 1] == Apply(cfg, run[n], steps[n])
  }

  lemma Front(cfg: Config, run: seq<Sender>, steps: seq<Step>)
    requires cfg.Valid() && IsSending(cfg, run, steps) && steps != []
    ensures var n := |steps| - 1;
            && IsSending(cfg, run[..n + 1], steps[..n]) && run[..n + 1][n] == run[n]
            && Enabled(run[n], steps[n]) && run[n + 1] == Apply(cfg, run[n], steps[n])
  {}

  predicate Touches(step: Step, thread: nat) {
    (step.Pin? || step.Add?) && step.thread == thread
  }

  /** Thread `thread` does nothing in steps i .. n. */
  ghost predicate Quiet(steps: seq<Step>, thread: nat, i: nat, n: nat)
    requires n <= |steps|
  {
    forall k | i <= k < n :: !Touches(steps[k], thread)
  }

  /** Step i is the last of `thread` before n, and a pin. */
  ghost predicate PinnedBy(steps: seq<Step>, thread: nat, i: nat, n: nat)
    requires n <= |steps|
  {
    i < n && steps[i].Pin? && steps[i].thread == thread && Quiet(steps, thread, i + 1, n)
  }

  ghost predicate NoSwitch(steps: seq<Step>, i: nat, n: nat)
    requires n <= |steps|
  {
    forall k | i <= k < n :: !steps[k].Switch?
  }

  /** The current session is the one last switched to, or the first. */
  lemma {:induction false} CurrentIsLastSwitch(cfg: Config, run: seq<Sender>, steps: seq<Step>, n: nat)
    requires cfg.Valid() && IsSending(cfg, run, steps) && n <= |steps|
    ensures NoSwitch(steps, 0, n) ==> run[n].current == 0
    ensures forall k | 0 <= k < n && steps[k].Switch? && NoSwitch(steps, k + 1, n) :: run[n].current == steps[k].session
  {
    if n > 0 {
      CurrentIsLastSwitch(cfg, run, steps, n - 1);
      assert run[n - 1 + 1] == Apply(cfg, run[n - 1], steps[n - 1]);
      assert NoSwitch(steps, 0, n) ==> NoSwitch(steps, 0, n - 1);
      forall k | 0 <= k < n && steps[k].Switch? && NoSwitch(steps, k + 1, n) ensures run[n].current == steps[k].session {
        assert k < n - 1 ==> NoSwitch(steps, k + 1, n - 1);
      }
    }
  }

  lemma QuietKeepsPin(cfg: Config, s: Sender, step: Step, thread: nat)
    requires cfg.Valid() && Enabled(s, step) && !Touches(step, thread)
    ensures var t := Apply(cfg, s, step);
            && (thread in t.pinned <==> thread in s.pinned)
            && (thread in s.pinned ==> t.pinned[thread] == s.pinned[thread])
  {}

  /** A thread holds the session that was current at its last pin, and the packets it pinned. */
  lemma {:induction false} PinIsHeld(cfg: Config, run: seq<Sender>, steps: seq<Step>, thread: nat, i: nat, n: nat)
    requires cfg.Valid() && IsSending(cfg, run, steps) && n <= |steps| && PinnedBy(steps, thread, i, n)
    ensures thread in run[n].pinned && run[n].pinned[thread] == (run[i].current, steps[i].packets)
  {
    assert run[n - 1 + 1] == Apply(cfg, run[n - 1], steps[n - 1]);
    if i < n - 1 {
      assert PinnedBy(steps, thread, i, n - 1);
      PinIsHeld(cfg, run, steps, thread, i, n - 1);
      QuietKeepsPin(cfg, run[n - 1], steps[n - 1], thread);
    }
  }

  /** A thread with something to add has pinned it. */
  lemma {:induction false} HeldWasPinned(cfg: Config, run: seq<Sender>, steps: seq<Step>, thread: nat, n: nat) returns (i: nat)
    requires cfg.Valid() && IsSending(cfg, run, steps) && n <= |steps| && thread in run[n].pinned
    ensures PinnedBy(steps, thread, i, n)
  {
    assert n > 0;
    assert run[n - 1 + 1] == Apply(cfg, run[n - 1], steps[n - 1]);
    if steps[n - 1].Pin? && steps[n - 1].thread == thread {
      i := n - 1;
    } else {
      if !Touches(steps[n - 1], thread) { QuietKeepsPin(cfg, run[n - 1], steps[n - 1], thread); }
      i := HeldWasPinned(cfg, run, steps, thread, n - 1);
    }
  }

  // ── Batches ──

  /** Step j is an add that the session pinned by its thread grants. */
  ghost predicate GrantedAt(cfg: Config, run: seq<Sender>, steps: seq<Step>, j: nat)
    requires cfg.Valid() && IsSending(cfg, run, steps) && j < |steps|
  {
    && steps[j].Add?
    && assert Enabled(run[j], steps[j]); var (session, packets) := run[j].pinned[steps[j].thread];
    Reserve(run[j].counters[session], |packets|, cfg.rekeyAt).1.Ok?
  }

  /** The granted adds among the first n steps, in order. */
  ghost function Grants(cfg: Config, run: seq<Sender>, steps: seq<Step>, n: nat): seq<nat>
    requires cfg.Valid() && IsSending(cfg, run, steps) && n <= |steps|
  {
    if n == 0 then []
    else Grants(cfg, run, steps, n - 1) + if GrantedAt(cfg, run, steps, n - 1) then [n - 1] else []
  }

  /** The batch is what the thread of add j pinned at step i, on the session current then,
      from the counter that session had reached at step j. */
  ghost predicate SubmittedAt(run: seq<Sender>, steps: seq<Step>, b: Batch, i: nat, j: nat)
    requires |run| == |steps| + 1
  {
    && i < j < |steps| && steps[j].Add? && PinnedBy(steps, steps[j].thread, i, j)
    && b.session == run[i].current && b.packets == steps[i].packets
    && b.session in run[j].counters && b.first == run[j].counters[b.session]
  }

  ghost predicate Submitted(run: seq<Sender>, steps: seq<Step>, b: Batch, j: nat)
    requires |run| == |steps| + 1
  {
    exists i :: SubmittedAt(run, steps, b, i, j)
  }

  ghost predicate BatchesMatch(run: seq<Sender>, steps: seq<Step>, batches: seq<Batch>, grants: seq<nat>)
    requires |run| == |steps| + 1
  {
    |batches| == |grants| && forall b | 0 <= b < |batches| :: Submitted(run, steps, batches[b], grants[b])
  }

  lemma AddSubmits(cfg: Config, run: seq<Sender>, steps: seq<Step>, j: nat)
    requires cfg.Valid() && IsSending(cfg, run, steps) && j < |steps| && steps[j].Add?
    ensures if GrantedAt(cfg, run, steps, j)
            then |run[j + 1].batches| == |run[j].batches| + 1 && run[j].batches <= run[j + 1].batches
                 && Submitted(run, steps, run[j + 1].batches[|run[j].batches|], j)
            else run[j + 1].batches == run[j].batches
  {
    assert Enabled(run[j], steps[j]) && run[j + 1] == Apply(cfg, run[j], steps[j]);
    var i := HeldWasPinned(cfg, run, steps, steps[j].thread, j);
    PinIsHeld(cfg, run, steps, steps[j].thread, i, j);
    if GrantedAt(cfg, run, steps, j) {
      assert SubmittedAt(run, steps, run[j + 1].batches[|run[j].batches|], i, j);
    }
  }

  lemma OtherStepsKeepBatches(cfg: Config, s: Sender, step: Step)
    requires cfg.Valid() && Enabled(s, step) && !step.Add?
    ensures SameRanges(s.batches, Apply(cfg, s, step).batches)
  {}

  lemma SameRangesMatch(run: seq<Sender>, steps: seq<Step>, batches: seq<Batch>, more: seq<Batch>, grants: seq<nat>)
    requires |run| == |steps| + 1 && BatchesMatch(run, steps, batches, grants) && SameRanges(batches, more)
    ensures BatchesMatch(run, steps, more, grants)
  {
    forall b | 0 <= b < |more| ensures Submitted(run, steps, more[b], grants[b]) {
      assert Submitted(run, steps, batches[b], grants[b]);
      var i :| SubmittedAt(run, steps, batches[b], i, grants[b]);
      assert SubmittedAt(run, steps, more[b], i, grants[b]);
    }
  }

  /** The batches are the granted adds in order, each with the packets its thread pinned,
      on the session current at the pin: a switch between pin and add changes nothing. */
  lemma {:induction false} BatchesAreSubmissions(cfg: Config, run: seq<Sender>, steps: seq<Step>, n: nat)
    requires cfg.Valid() && IsSending(cfg, run, steps) && n <= |steps|
    ensures BatchesMatch(run, steps, run[n].batches, Grants(cfg, run, steps, n))
  {
    if n > 0 {
      BatchesAreSubmissions(cfg, run, steps, n - 1);
      assert Enabled(run[n - 1], steps[n - 1]) && run[n - 1 + 1] == Apply(cfg, run[n - 1], steps[n - 1]);
      if steps[n - 1].Add? {
        AddSubmits(cfg, run, steps, n - 1);
      } else {
        OtherStepsKeepBatches(cfg, run[n - 1], steps[n - 1]);
        SameRangesMatch(run, steps, run[n - 1].batches, run[n].batches, Grants(cfg, run, steps, n - 1));
      }
    }
  }

  // ── Seals ──

  /** The entry answers the seal step: its batch, its index, its ciphertext. */
  predicate Answers(e: Seal, step: Step) {
    step.SealOne? && e.batch == step.batch && e.index == step.index && e.ct == step.ct
  }

  function SealSteps(steps: seq<Step>): seq<Step> {
    if steps == [] then []
    else SealSteps(steps[..|steps| - 1]) + if steps[|steps| - 1].SealOne? then [steps[|steps| - 1]] else []
  }

  ghost predicate LogMatches(log: seq<Seal>, seals: seq<Step>) {
    |log| == |seals| && forall k | 0 <= k < |log| :: Answers(log[k], seals[k])
  }

  /** The log holds one entry a seal step, in their order. */
  lemma {:induction false} LogIsSealSteps(cfg: Config, run: seq<Sender>, steps: seq<Step>)
    requires cfg.Valid() && IsSending(cfg, run, steps)
    ensures LogMatches(run[|steps|].log, SealSteps(steps))
  {
    if steps != [] {
      var n := |steps| - 1;
      Front(cfg, run, steps);
      LogIsSealSteps(cfg, run[..n + 1], steps[..n]);
    }
  }

  lemma {:induction false} RunInv(cfg: Config, run: seq<Sender>, steps: seq<Step>)
    requires cfg.Valid() && IsSending(cfg, run, steps) && NoWrap(run[|steps|])
    ensures Inv(cfg, run[|steps|])
  {
    if steps != [] {
      var n := |steps| - 1;
      Front(cfg, run, steps);
      StepKeepsNoWrap(cfg, run[n], steps[n]);
      RunInv(cfg, run[..n + 1], steps[..n]);
      StepKeepsInv(cfg, run[n], steps[n]);
    }
  }

  /** Entry k carries packet `index` of the packets pinned at step i, under the counter
      `index` past the first its add took, in the nonce, header and framing of the session
      that was current at step i. */
  ghost predicate Carries(cfg: Config, run: seq<Sender>, steps: seq<Step>, e: Seal, i: nat, j: nat)
    requires cfg.Valid() && |run| == |steps| + 1
  {
    && i < j < |steps| && steps[j].Add? && PinnedBy(steps, steps[j].thread, i, j)
    && e.session == run[i].current && e.session in run[j].counters
    && e.index < |steps[i].packets| && e.packet == steps[i].packets[e.index]
    && e.counter == run[j].counters[e.session] + e.index
    && var keys := cfg.keys(run[i].current);
    && e.nonce == Nonce(keys.algo, keys.txSalt, e.counter)
    && e.aad == Header(keys.id, e.counter)
    && Parsed(e.framed) == Ok((e.packet.frameType, e.packet.payload))
  }

  ghost predicate IsCarried(cfg: Config, run: seq<Sender>, steps: seq<Step>, e: Seal, j: nat)
    requires cfg.Valid() && |run| == |steps| + 1
  {
    exists i :: Carries(cfg, run, steps, e, i, j)
  }

  /** Every seal carries a packet that its thread pinned, under a counter reserved on the
      session current at the pin and with that session's keys, whenever the seal comes. */
  lemma SealsCarrySubmissions(cfg: Config, run: seq<Sender>, steps: seq<Step>, k: nat)
    requires cfg.Valid() && IsSending(cfg, run, steps) && NoWrap(run[|steps|]) && k < |run[|steps|].log|
    ensures var e, grants := run[|steps|].log[k], Grants(cfg, run, steps, |steps|);
            e.batch < |grants| && IsCarried(cfg, run, steps, e, grants[e.batch])
  {
    RunInv(cfg, run, steps);
    BatchesAreSubmissions(cfg, run, steps, |steps|);
    var s, grants := run[|steps|], Grants(cfg, run, steps, |steps|);
    var e := s.log[k];
    assert SealOk(cfg, s.batches, e);
    var b, j := s.batches[e.batch], grants[e.batch];
    assert Submitted(run, steps, b, j);
    var i :| SubmittedAt(run, steps, b, i, j);
    assert Carries(cfg, run, steps, e, i, j);
  }
}
