/** The sending side as a step system: any number of threads pin the current session,
    reserve counters on it with one atomic add, and seal later, in any order, while
    rekeys switch the current session at any time. Sessions are numbered. */
module Senders {
  import opened Words
  import opened Bytes
  import opened Results
  import opened Aead
  import opened Obf
  import opened Sessions

  /** What both ends fix for the run: the rekey limit and each session's sending keys. */
  datatype Config = Config(mac: Mac, rekeyAt: u64, keys: nat -> SessionKeys) {
    ghost predicate Valid() {
      forall s: nat :: WellSalted(keys(s))
    }
  }

  datatype Packet = Packet(frameType: FrameType, payload: bytes)

  /** Counters first .. first + |packets| of one session, one per packet. */
  datatype Batch = Batch(session: nat, first: u64, packets: seq<Packet>, done: set<nat>)

  /** One use of the AEAD: session key, nonce, associated data, plaintext, ciphertext.
      `batch` and `index` say which reserved counter it was for. */
  datatype Seal = Seal(
    session: nat, nonce: bytes, aad: bytes, framed: bytes, ct: bytes,
    batch: nat, index: nat, counter: u64, packet: Packet)

  datatype Sender = Sender(
    current: nat,
    counters: map<nat, u64>,
    issued: map<nat, nat>,                    // the sum of all adds, without wrap-around
    refused: set<nat>,                        // sessions that have refused a reservation
    pinned: map<nat, (nat, seq<Packet>)>,     // threads between the pin and the add
    batches: seq<Batch>,
    log: seq<Seal>)

  const INITIAL := Sender(0, map[0 := 0], map[0 := 0], {}, map[], [], [])

  datatype Step =
    | Pin(thread: nat, packets: seq<Packet>)
    | Add(thread: nat)
    | SealOne(batch: nat, index: nat, pad: bytes, ct: bytes)
    | Switch(session: nat)

  ghost predicate Enabled(s: Sender, step: Step) {
    match step
    case Pin(thread, packets) =>
      thread !in s.pinned && |packets| < TWO64 && s.current in s.counters && s.current in s.issued
    case Add(thread) =>
      thread in s.pinned && s.pinned[thread].0 in s.counters && s.pinned[thread].0 in s.issued
      && |s.pinned[thread].1| < TWO64
    case SealOne(batch, index, pad, ct) =>
      && batch < |s.batches| && index < |s.batches[batch].packets| && index !in s.batches[batch].done
      && s.batches[batch].first + index < TWO64
      && |s.batches[batch].packets[index].payload| < 0x1_0000
    case Switch(session) =>
      session !in s.counters && session !in s.issued
  }

  ghost function Apply(cfg: Config, s: Sender, step: Step): Sender
    requires cfg.Valid() && Enabled(s, step)
  {
    match step
    case Pin(thread, packets) => s.(pinned := s.pinned[thread := (s.current, packets)])
    case Add(thread) =>
      var (session, packets) := s.pinned[thread];
      var (next, first) := Reserve(s.counters[session], |packets|, cfg.rekeyAt);
      var t := s.(counters := s.counters[session := next],
                  issued := s.issued[session := s.issued[session] + |packets|],
                  pinned := s.pinned - {thread});
      if first.Err? then t.(refused := s.refused + {session})
      else t.(batches := s.batches + [Batch(session, first.value, packets, {})])
    case SealOne(batch, index, pad, ct) =>
      var b := s.batches[batch];
      var keys := cfg.keys(b.session);
      var counter := b.first + index;
      var packet := b.packets[index];
      s.(batches := s.batches[batch := b.(done := b.done + {index})],
         log := s.log + [Seal(b.session, Nonce(keys.algo, keys.txSalt, counter), Header(keys.id, counter),
                              Inner(packet.frameType.AsU8(), packet.payload, pad), ct,
                              batch, index, counter, packet)])
    case Switch(session) =>
      s.(current := session, counters := s.counters[session := 0], issued := s.issued[session := 0])
  }

  /** Fewer than 2^64 counters were ever asked of any session. */
  ghost predicate NoWrap(s: Sender) {
    forall k | k in s.issued :: s.issued[k] < TWO64
  }

  // ── Invariants ──

  ghost predicate CountersOk(current: nat, counters: map<nat, u64>, issued: map<nat, nat>, pinned: map<nat, (nat, seq<Packet>)>) {
    && counters.Keys == issued.Keys
    && current in counters
    && (forall k | k in issued :: counters[k] == issued[k])
    && (forall t | t in pinned :: pinned[t].0 in counters && |pinned[t].1| < TWO64)
  }

  ghost predicate BatchOk(rekeyAt: u64, issued: map<nat, nat>, b: Batch) {
    && b.session in issued
    && b.first + |b.packets| <= issued[b.session]
    && (b.packets != [] ==> b.first + |b.packets| <= rekeyAt)
  }

  ghost predicate BatchesOk(rekeyAt: u64, issued: map<nat, nat>, batches: seq<Batch>) {
    forall i | 0 <= i < |batches| :: BatchOk(rekeyAt, issued, batches[i])
  }

  /** Ranges of one session follow each other in the order they were reserved. */
  ghost predicate Ordered(batches: seq<Batch>) {
    forall i, j | 0 <= i < j < |batches| && batches[i].session == batches[j].session ::
      batches[i].first + |batches[i].packets| <= batches[j].first
  }

  ghost predicate SealOk(cfg: Config, batches: seq<Batch>, e: Seal)
    requires cfg.Valid()
  {
    && e.batch < |batches|
    && var b := batches[e.batch];
    && e.index < |b.packets| && e.index in b.done
    && e.session == b.session && e.counter == b.first + e.index && e.packet == b.packets[e.index]
    && |e.packet.payload| < 0x1_0000
    && var keys := cfg.keys(e.session);
    && e.nonce == Nonce(keys.algo, keys.txSalt, e.counter)
    && e.aad == Header(keys.id, e.counter)
    && Parsed(e.framed) == Ok((e.packet.frameType, e.packet.payload))
  }

  ghost predicate LogOk(cfg: Config, batches: seq<Batch>, log: seq<Seal>)
    requires cfg.Valid()
  {
    && (forall k | 0 <= k < |log| :: SealOk(cfg, batches, log[k]))
    && (forall k, l | 0 <= k < l < |log| :: (log[k].batch, log[k].index) != (log[l].batch, log[l].index))
  }

  ghost predicate RefusedOk(rekeyAt: u64, issued: map<nat, nat>, refused: set<nat>) {
    forall k | k in refused :: k in issued && issued[k] >= rekeyAt
  }

  ghost predicate Inv(cfg: Config, s: Sender)
    requires cfg.Valid()
  {
    && CountersOk(s.current, s.counters, s.issued, s.pinned)
    && BatchesOk(cfg.rekeyAt, s.issued, s.batches)
    && Ordered(s.batches)
    && LogOk(cfg, s.batches, s.log)
    && RefusedOk(cfg.rekeyAt, s.issued, s.refused)
  }

  lemma PackedParses(packet: Packet, pad: bytes)
    requires |packet.payload| < 0x1_0000
    ensures Parsed(Inner(packet.frameType.AsU8(), packet.payload, pad)) == Ok((packet.frameType, packet.payload))
  {
    UnpackPacked(packet.frameType.AsU8(), packet.payload, pad);
  }

  // ── A reservation ──

  lemma CountersAfterAdd(s: Sender, thread: nat, next: u64)
    requires CountersOk(s.current, s.counters, s.issued, s.pinned) && thread in s.pinned
    requires s.pinned[thread].0 in s.issued && next == s.issued[s.pinned[thread].0] + |s.pinned[thread].1|
    ensures var (session, packets) := s.pinned[thread];
            CountersOk(s.current, s.counters[session := next], s.issued[session := next], s.pinned - {thread})
  {}

  lemma BatchesAfterAdd(rekeyAt: u64, issued: map<nat, nat>, batches: seq<Batch>, session: nat, next: nat)
    requires BatchesOk(rekeyAt, issued, batches) && session in issued && issued[session] <= next
    ensures BatchesOk(rekeyAt, issued[session := next], batches)
  {
    forall i | 0 <= i < |batches| ensures BatchOk(rekeyAt, issued[session := next], batches[i]) {
      assert BatchOk(rekeyAt, issued, batches[i]);
    }
  }

  lemma OrderedAfterAdd(rekeyAt: u64, issued: map<nat, nat>, batches: seq<Batch>, b: Batch)
    requires BatchesOk(rekeyAt, issued, batches) && Ordered(batches)
    requires b.session in issued && b.first == issued[b.session]
    ensures Ordered(batches + [b])
  {
    forall i | 0 <= i < |batches| && batches[i].session == b.session
      ensures batches[i].first + |batches[i].packets| <= b.first
    {
      assert BatchOk(rekeyAt, issued, batches[i]);
    }
  }

  /** What the log says of a batch depends on the batch and not on those after it. */
  lemma LogAfterAdd(cfg: Config, batches: seq<Batch>, log: seq<Seal>, b: Batch)
    requires cfg.Valid() && LogOk(cfg, batches, log)
    ensures LogOk(cfg, batches + [b], log)
  {
    forall k | 0 <= k < |log| ensures SealOk(cfg, batches + [b], log[k]) {
      assert SealOk(cfg, batches, log[k]);
    }
  }

  lemma RefusedAfterAdd(rekeyAt: u64, issued: map<nat, nat>, refused: set<nat>, session: nat, next: nat)
    requires RefusedOk(rekeyAt, issued, refused) && session in issued && issued[session] <= next
    ensures RefusedOk(rekeyAt, issued[session := next], refused)
    ensures next >= rekeyAt ==> RefusedOk(rekeyAt, issued[session := next], refused + {session})
  {}

  /** Without wrap-around a reservation adds, and is granted or refused by its last counter. */
  lemma ReserveWithoutWrap(counter: u64, n: u64, rekeyAt: u64)
    requires counter + n < TWO64
    ensures var (next, first) := Reserve(counter, n, rekeyAt);
            && next == counter + n
            && (first.Ok? ==> first.value == counter && (n > 0 ==> next <= rekeyAt))
            && (first.Err? ==> n > 0 ==> next >= rekeyAt)
            && (first.Err? ==> n == 0 ==> counter >= rekeyAt)
  {}

  lemma AddKeepsInv(cfg: Config, s: Sender, thread: nat)
    requires cfg.Valid() && Inv(cfg, s) && Enabled(s, Add(thread)) && NoWrap(Apply(cfg, s, Add(thread)))
    ensures Inv(cfg, Apply(cfg, s, Add(thread)))
  {
    var t := Apply(cfg, s, Add(thread));
    var (session, packets) := s.pinned[thread];
    var next := s.issued[session] + |packets|;
    assert t.issued[session] == next < TWO64;
    ReserveWithoutWrap(s.counters[session], |packets|, cfg.rekeyAt);
    CountersAfterAdd(s, thread, next);
    BatchesAfterAdd(cfg.rekeyAt, s.issued, s.batches, session, next);
    RefusedAfterAdd(cfg.rekeyAt, s.issued, s.refused, session, next);
    if t.batches != s.batches {
      var b := Batch(session, s.counters[session], packets, {});
      OrderedAfterAdd(cfg.rekeyAt, s.issued, s.batches, b);
      LogAfterAdd(cfg, s.batches, s.log, b);
      assert BatchOk(cfg.rekeyAt, t.issued, b);
    }
  }

  // ── A seal ──

  ghost predicate SameRanges(batches: seq<Batch>, more: seq<Batch>) {
    && |batches| == |more|
    && forall i | 0 <= i < |batches| ::
         more[i].session == batches[i].session && more[i].first == batches[i].first && more[i].packets == batches[i].packets
         && batches[i].done <= more[i].done
  }

  lemma RangesAfterSeal(rekeyAt: u64, issued: map<nat, nat>, batches: seq<Batch>, more: seq<Batch>)
    requires BatchesOk(rekeyAt, issued, batches) && Ordered(batches) && SameRanges(batches, more)
    ensures BatchesOk(rekeyAt, issued, more) && Ordered(more)
  {
    forall i | 0 <= i < |more| ensures BatchOk(rekeyAt, issued, more[i]) {
      assert BatchOk(rekeyAt, issued, batches[i]);
    }
  }

  lemma LogAfterSeal(cfg: Config, batches: seq<Batch>, more: seq<Batch>, log: seq<Seal>, e: Seal)
    requires cfg.Valid() && LogOk(cfg, batches, log) && SameRanges(batches, more)
    requires SealOk(cfg, more, e) && e.batch < |batches| && e.index !in batches[e.batch].done
    ensures LogOk(cfg, more, log + [e])
  {
    forall k | 0 <= k < |log| ensures SealOk(cfg, more, log[k]) && (log[k].batch, log[k].index) != (e.batch, e.index) {
      assert SealOk(cfg, batches, log[k]);
    }
  }

  lemma SealKeepsInv(cfg: Config, s: Sender, step: Step)
    requires cfg.Valid() && Inv(cfg, s) && Enabled(s, step) && step.SealOne?
    ensures Inv(cfg, Apply(cfg, s, step))
  {
    var t := Apply(cfg, s, step);
    var b := s.batches[step.batch];
    RangesAfterSeal(cfg.rekeyAt, s.issued, s.batches, t.batches);
    PackedParses(b.packets[step.index], step.pad);
    var e := t.log[|s.log|];
    assert SealOk(cfg, t.batches, e);
    LogAfterSeal(cfg, s.batches, t.batches, s.log, e);
  }

  lemma SwitchKeepsInv(cfg: Config, s: Sender, session: nat)
    requires cfg.Valid() && Inv(cfg, s) && Enabled(s, Switch(session))
    ensures Inv(cfg, Apply(cfg, s, Switch(session)))
  {
    var t := Apply(cfg, s, Switch(session));
    forall i | 0 <= i < |s.batches| ensures BatchOk(cfg.rekeyAt, t.issued, s.batches[i]) {
      assert BatchOk(cfg.rekeyAt, s.issued, s.batches[i]);
    }
  }

  lemma StepKeepsInv(cfg: Config, s: Sender, step: Step)
    requires cfg.Valid() && Inv(cfg, s) && Enabled(s, step) && NoWrap(Apply(cfg, s, step))
    ensures Inv(cfg, Apply(cfg, s, step))
  {
    match step
    case Pin(_, _) =>
    case Add(thread) => AddKeepsInv(cfg, s, thread);
    case SealOne(_, _, _, _) => SealKeepsInv(cfg, s, step);
    case Switch(session) => SwitchKeepsInv(cfg, s, session);
  }

  lemma StepKeepsNoWrap(cfg: Config, s: Sender, step: Step)
    requires cfg.Valid() && Enabled(s, step) && NoWrap(Apply(cfg, s, step))
    ensures NoWrap(s)
  {
    var t := Apply(cfg, s, step);
    forall k | k in s.issued ensures s.issued[k] < TWO64 {
      assert t.issued[k] < TWO64;
    }
  }

  // ── What the invariant gives ──

  /** No session key is ever used twice with the same nonce: not by two threads, not
      by two seals of one batch, not across a rekey. */
  lemma NoNonceTwice(cfg: Config, s: Sender, k: nat, l: nat)
    requires cfg.Valid() && Inv(cfg, s) && k < l < |s.log| && s.log[k].session == s.log[l].session
    ensures s.log[k].counter != s.log[l].counter && s.log[k].nonce != s.log[l].nonce
  {
    var e, f := s.log[k], s.log[l];
    assert SealOk(cfg, s.batches, e) && SealOk(cfg, s.batches, f);
    if e.nonce == f.nonce {
      NonceInjective(cfg.keys(e.session).algo, cfg.keys(e.session).txSalt, e.counter, f.counter);
    }
  }

  /** Every seal lies under the rekey limit, on the session its batch was reserved on. */
  lemma SealsUnderLimit(cfg: Config, s: Sender, k: nat)
    requires cfg.Valid() && Inv(cfg, s) && k < |s.log|
    ensures s.log[k].counter < cfg.rekeyAt
    ensures s.log[k].batch < |s.batches| && s.log[k].session == s.batches[s.log[k].batch].session
  {
    assert SealOk(cfg, s.batches, s.log[k]);
    assert BatchOk(cfg.rekeyAt, s.issued, s.batches[s.log[k].batch]);
  }

  /** A session that has refused once refuses every later reservation, of any size. */
  lemma RefusalIsFinal(cfg: Config, s: Sender, session: nat, n: u64)
    requires cfg.Valid() && Inv(cfg, s) && session in s.refused
    ensures session in s.counters && Reserve(s.counters[session], n, cfg.rekeyAt).1 == Err(RekeyRequired)
  {}
}
