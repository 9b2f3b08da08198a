/** When a worker delivers: over every interleaving with other workers, installations,
    retirements and the sender. */
module Deliveries {
  import opened Words
  import opened Bytes
  import opened Results
  import opened ReplayWindows
  import opened Obf
  import opened Sessions
  import opened Senders
  import opened Receivers
  import opened DataPlane

  // ── Traces ──

  /** A run with the events that made it. */
  datatype Trace = Trace(run: seq<System>, events: seq<DataPlane.Event>) {

    ghost predicate Valid(cfg: Config)
      requires cfg.Valid()
    {
      && |run| == |events| + 1 && run[0] == System(INITIAL, LISTENING)
      && (forall n {:trigger Happens(cfg, n)} | 0 <= n < |events| :: Happens(cfg, n))
      && NoWrap(Last(run).sender)
    }

    ghost predicate Happens(cfg: Config, n: nat)
      requires cfg.Valid()
    {
      n < |events| && n + 1 < |run| && Occurs(cfg, run[n], events[n], run[n + 1])
    }

    function At(n: nat): Receiver
      requires n < |run|
    {
      run[n].receiver
    }

    function Log(n: nat): seq<Seal>
      requires n < |run|
    {
      run[n].sender.log
    }
  }

  lemma OccursIsNext(cfg: Config, s: System, e: DataPlane.Event, t: System)
    requires cfg.Valid() && Occurs(cfg, s, e, t)
    ensures Next(cfg, s, t)
  {}

  lemma PrefixIsRun(cfg: Config, t: Trace, n: nat)
    requires cfg.Valid() && t.Valid(cfg) && n < |t.run|
    ensures DataPlane.IsRun(cfg, t.run[..n + 1]) && Last(t.run[..n + 1]) == t.run[n]
  {
    var run := t.run[..n + 1];
    forall i | 0 <= i < |run| - 1 ensures Next(cfg, run[i], run[i + 1]) {
      assert t.Happens(cfg, i);
      OccursIsNext(cfg, t.run[i], t.events[i], t.run[i + 1]);
    }
  }

  lemma {:induction false} NoWrapBefore(cfg: Config, t: Trace, n: nat)
    requires cfg.Valid() && t.Valid(cfg) && n < |t.run|
    ensures NoWrap(t.run[n].sender)
    decreases |t.run| - n
  {
    if n + 1 < |t.run| {
      NoWrapBefore(cfg, t, n + 1);
      assert t.Happens(cfg, n);
      OccursIsNext(cfg, t.run[n], t.events[n], t.run[n + 1]);
      NextKeepsInv(cfg, t.run[n], t.run[n + 1]);
    }
  }

  lemma TraceInv(cfg: Config, t: Trace, n: nat)
    requires cfg.Valid() && t.Valid(cfg) && n < |t.run|
    ensures SysInv(cfg, t.run[n])
  {
    PrefixIsRun(cfg, t, n);
    NoWrapBefore(cfg, t, n);
    RunKeepsInv(cfg, t.run[..n + 1]);
  }

  // ── What only grows ──

  lemma LogGrowsOnce(cfg: Config, s: System, e: DataPlane.Event, t: System)
    requires cfg.Valid() && Occurs(cfg, s, e, t)
    ensures s.sender.log <= t.sender.log
  {
    if e.Sends? { LogGrows(cfg, s.sender, e.step); }
  }

  lemma {:induction false} LogOnlyGrows(cfg: Config, t: Trace, m: nat, n: nat)
    requires cfg.Valid() && t.Valid(cfg) && m <= n < |t.run|
    ensures t.Log(m) <= t.Log(n)
  {
    if m < n {
      LogOnlyGrows(cfg, t, m, n - 1);
      assert t.Happens(cfg, n - 1);
      LogGrowsOnce(cfg, t.run[n - 1], t.events[n - 1], t.run[n]);
    }
  }

  lemma CommitGrowsHistory(cfg: Config, log: seq<Seal>, r: Receiver, worker: nat, session: nat)
    requires cfg.Valid() && Possible(cfg, log, r, Commit(worker)) && session in r.history
    ensures var t := Do(cfg, log, r, Commit(worker)); session in t.history && r.history[session] <= t.history[session]
  {}

  lemma OtherMovesKeepHistory(cfg: Config, log: seq<Seal>, r: Receiver, move: Move, session: nat)
    requires cfg.Valid() && Possible(cfg, log, r, move) && session in r.history && !move.Commit?
    ensures var t := Do(cfg, log, r, move); session in t.history && t.history[session] == r.history[session]
  {}

  lemma HistoryGrowsOnce(cfg: Config, log: seq<Seal>, r: Receiver, move: Move, session: nat)
    requires cfg.Valid() && Possible(cfg, log, r, move) && session in r.history
    ensures var t := Do(cfg, log, r, move); session in t.history && r.history[session] <= t.history[session]
  {
    if move.Commit? { CommitGrowsHistory(cfg, log, r, move.worker, session); } else { OtherMovesKeepHistory(cfg, log, r, move, session); }
  }

  lemma {:induction false} HistoryOnlyGrows(cfg: Config, t: Trace, m: nat, n: nat, session: nat)
    requires cfg.Valid() && t.Valid(cfg) && m <= n < |t.run| && session in t.At(m).history
    ensures session in t.At(n).history && t.At(m).history[session] <= t.At(n).history[session]
  {
    if m < n {
      HistoryOnlyGrows(cfg, t, m, n - 1, session);
      assert t.Happens(cfg, n - 1);
      match t.events[n - 1]
      case Sends(_) =>
      case Receives(move) => HistoryGrowsOnce(cfg, t.Log(n - 1), t.At(n - 1), move, session);
    }
  }

  // ── Acceptance, told by the history ──

  ghost predicate AcceptedAt(t: Trace, n: nat, session: nat, counter: u64)
    requires n < |t.run|
  {
    session in t.At(n).windows && t.At(n).windows[session].Accepts(counter)
  }

  /** A counter accepted at one time is accepted at a later one exactly when nobody committed
      it, or one 2048 or more above it, in between. */
  lemma StillAcceptedIff(cfg: Config, t: Trace, m: nat, n: nat, session: nat, counter: u64)
    requires cfg.Valid() && t.Valid(cfg) && m <= n < |t.run| && session in t.At(m).history
    ensures session in t.At(n).history && t.At(m).history[session] <= t.At(n).history[session]
    ensures AcceptedAt(t, n, session, counter)
       <==> AcceptedAt(t, m, session, counter)
            && Untouched(t.At(n).history[session][|t.At(m).history[session]|..], counter)
  {
    HistoryOnlyGrows(cfg, t, m, n, session);
    var before, after := t.At(m).history[session], t.At(n).history[session];
    AcceptedIffUntouched(cfg, t, m, session, counter);
    AcceptedIffUntouched(cfg, t, n, session, counter);
    UntouchedAppend(before, after[|before|..], counter);
    assert after == before + after[|before|..];
  }

  lemma AcceptedIffUntouched(cfg: Config, t: Trace, n: nat, session: nat, counter: u64)
    requires cfg.Valid() && t.Valid(cfg) && n < |t.run| && session in t.At(n).history
    ensures AcceptedAt(t, n, session, counter) <==> Untouched(t.At(n).history[session], counter)
  {
    TraceInv(cfg, t, n);
    AcceptsIffUntouched(t.At(n).history[session], counter);
  }

  // ── One worker's own steps ──

  predicate Own(e: DataPlane.Event, w: nat) {
    match e
    case Sends(_) => false
    case Receives(move) =>
      match move
      case Take(x, _) => x == w
      case Check(x) => x == w
      case OpenHit(x, _) => x == w
      case OpenMiss(x) => x == w
      case Commit(x) => x == w
      case TakeSecond(x) => x == w
      case _ => false
  }

  /** Worker w does nothing from event m up to event n. */
  predicate Quiet(t: Trace, w: nat, m: nat, n: nat) {
    n <= |t.events| && forall x | m <= x < n :: !Own(t.events[x], w)
  }

  ghost predicate SameWorker(r: Receiver, s: Receiver, w: nat) {
    (w in r.workers <==> w in s.workers) && (w in r.workers ==> r.workers[w] == s.workers[w])
  }

  lemma OthersLeaveWorker(cfg: Config, s: System, e: DataPlane.Event, t: System, w: nat)
    requires cfg.Valid() && Occurs(cfg, s, e, t) && !Own(e, w)
    ensures SameWorker(s.receiver, t.receiver, w)
  {
    if e.Receives? { OtherMoveLeavesWorker(cfg, s.sender.log, s.receiver, e.move, w); }
  }

  lemma OtherMoveLeavesWorker(cfg: Config, log: seq<Seal>, r: Receiver, move: Move, w: nat)
    requires cfg.Valid() && Possible(cfg, log, r, move) && !Own(Receives(move), w)
    ensures SameWorker(r, Do(cfg, log, r, move), w)
  {}

  lemma EventLeavesWorker(cfg: Config, t: Trace, m: nat, w: nat)
    requires cfg.Valid() && t.Valid(cfg) && m < |t.events| && !Own(t.events[m], w)
    ensures SameWorker(t.At(m), t.At(m + 1), w)
  {
    assert t.Happens(cfg, m);
    OthersLeaveWorker(cfg, t.run[m], t.events[m], t.run[m + 1], w);
  }

  lemma {:induction false} QuietLeavesWorker(cfg: Config, t: Trace, w: nat, m: nat, n: nat)
    requires cfg.Valid() && t.Valid(cfg) && m <= n < |t.run| && Quiet(t, w, m, n)
    ensures SameWorker(t.At(m), t.At(n), w)
  {
    if m < n {
      QuietLeavesWorker(cfg, t, w, m, n - 1);
      EventLeavesWorker(cfg, t, n - 1, w);
    }
  }

  // ── A life: from the taking of a datagram to its delivery or its drop ──

  ghost predicate Life(t: Trace, w: nat, dg: bytes, a: nat, b: nat) {
    && a < b < |t.events| && |t.run| == |t.events| + 1
    && t.events[a] == Receives(Take(w, dg))
    && (forall n | a < n <= b :: w in t.At(n).workers)
    && w !in t.At(b + 1).workers
  }

  /** The datagram that was sent for an entry of the log. */
  ghost predicate Carries(cfg: Config, e: Seal, dg: bytes)
    requires cfg.Valid()
  {
    var keys := cfg.keys(e.session);
    && Unmasked(cfg.mac, keys.txObf, dg).Some?
    && Unmasked(cfg.mac, keys.txObf, dg).value.sessionId == keys.id
    && Unmasked(cfg.mac, keys.txObf, dg).value.counter == e.counter
    && |dg| >= HP_HEADER_LEN && CtSlice(dg) == e.ct
  }

  /** It is the datagram the sender's masking makes of the entry. */
  lemma WireCarries(cfg: Config, e: Seal)
    requires cfg.Valid() && |e.ct| >= SAMPLE_LEN
    ensures var keys := cfg.keys(e.session);
            Carries(cfg, e, Wire(cfg.mac, keys.txObf, keys.id, e.counter, e.ct))
  {
    UnmaskWire(cfg.mac, cfg.keys(e.session).txObf, cfg.keys(e.session).id, e.counter, e.ct);
  }

  /** At event n the worker reads this session from the manager. */
  ghost predicate Reads(t: Trace, w: nat, n: nat, session: nat)
    requires n < |t.events| && n < |t.run|
  {
    match t.events[n]
    case Sends(_) => false
    case Receives(move) =>
      match move
      case Take(x, _) => x == w && t.At(n).installs != [] && t.At(n).Current() == session
      case TakeSecond(x) => x == w && t.At(n).previous == Some(session)
      case _ => false
  }

  predicate IsOpen(e: DataPlane.Event, w: nat) {
    e.Receives? && ((e.move.OpenHit? && e.move.worker == w) || e.move == OpenMiss(w))
  }

  ghost predicate HasRead(t: Trace, w: nat, session: nat, n: nat, m: nat) {
    n < m <= |t.events| && m < |t.run| && Reads(t, w, n, session) && Quiet(t, w, n + 1, m)
  }

  ghost predicate HasChecked(t: Trace, w: nat, session: nat, counter: u64, n: nat, i: nat, m: nat) {
    && i < m <= |t.events| && m < |t.run|
    && HasRead(t, w, session, n, i) && t.events[i] == Receives(Check(w)) && AcceptedAt(t, i, session, counter)
    && Quiet(t, w, i + 1, m)
  }

  ghost predicate HasOpened(t: Trace, w: nat, session: nat, counter: u64, n: nat, i: nat, j: nat, m: nat) {
    && j < m <= |t.events| && m < |t.run|
    && HasChecked(t, w, session, counter, n, i, j) && IsOpen(t.events[j], w)
    && Quiet(t, w, j + 1, m)
  }

  /** The worker read the session at n, and its window accepted the counter both at the
      check i and at the commit k, the worker's next steps but for the opening j. */
  ghost predicate Accepting(t: Trace, w: nat, session: nat, counter: u64, n: nat, i: nat, j: nat, k: nat) {
    && k < |t.events| && HasOpened(t, w, session, counter, n, i, j, k)
    && t.events[k] == Receives(Commit(w)) && AcceptedAt(t, k, session, counter)
  }

  /** The worker's last step delivers the type and payload of a log entry. */
  ghost predicate Delivers(t: Trace, w: nat, b: nat, e: Seal) {
    && b < |t.events| && |t.run| == |t.events| + 1
    && t.events[b] == Receives(Commit(w))
    && IsTrying(t.At(b), w)
    && t.At(b + 1).delivered
       == t.At(b).delivered + [Delivery(e.session, e.counter, e.packet.frameType, e.packet.payload, t.At(b).workers[w].read)]
  }

  // ── Backwards: how a worker got where it is ──

  ghost predicate KnownRead(t: Trace, w: nat, session: nat, a: nat, m: nat) {
    exists n :: a <= n && HasRead(t, w, session, n, m)
  }

  ghost predicate KnownChecked(t: Trace, w: nat, session: nat, counter: u64, a: nat, m: nat) {
    exists n, i :: a <= n && HasChecked(t, w, session, counter, n, i, m)
  }

  ghost predicate KnownOpened(t: Trace, w: nat, session: nat, counter: u64, a: nat, m: nat) {
    exists n, i, j :: a <= n && HasOpened(t, w, session, counter, n, i, j, m)
  }

  ghost predicate Known(t: Trace, w: nat, dg: bytes, a: nat, m: nat)
    requires m < |t.run| && w in t.At(m).workers
  {
    match t.At(m).workers[w]
    case BetweenTrials(x) => x == dg
    case Trying(x, session, _, _, phase) =>
      x == dg &&
      match phase
      case Unread => KnownRead(t, w, session, a, m)
      case Checked(counter) => KnownChecked(t, w, session, counter, a, m)
      case Opened(counter, _) => KnownOpened(t, w, session, counter, a, m)
  }

  predicate NotOwn(t: Trace, w: nat, m: nat) {
    m < |t.events| && m + 1 < |t.run| && !Own(t.events[m], w)
  }

  lemma ReadStays(t: Trace, w: nat, session: nat, a: nat, m: nat)
    requires NotOwn(t, w, m) && KnownRead(t, w, session, a, m)
    ensures KnownRead(t, w, session, a, m + 1)
  {
    var n :| a <= n && HasRead(t, w, session, n, m);
    assert HasRead(t, w, session, n, m + 1);
  }

  lemma CheckStays(t: Trace, w: nat, session: nat, counter: u64, a: nat, m: nat)
    requires NotOwn(t, w, m) && KnownChecked(t, w, session, counter, a, m)
    ensures KnownChecked(t, w, session, counter, a, m + 1)
  {
    var n, i :| a <= n && HasChecked(t, w, session, counter, n, i, m);
    assert HasChecked(t, w, session, counter, n, i, m + 1);
  }

  lemma OpeningStays(t: Trace, w: nat, session: nat, counter: u64, a: nat, m: nat)
    requires NotOwn(t, w, m) && KnownOpened(t, w, session, counter, a, m)
    ensures KnownOpened(t, w, session, counter, a, m + 1)
  {
    var n, i, j :| a <= n && HasOpened(t, w, session, counter, n, i, j, m);
    assert HasOpened(t, w, session, counter, n, i, j, m + 1);
  }

  lemma QuietStep(t: Trace, w: nat, dg: bytes, a: nat, m: nat)
    requires NotOwn(t, w, m) && SameWorker(t.At(m), t.At(m + 1), w)
    requires w in t.At(m).workers && Known(t, w, dg, a, m)
    ensures Known(t, w, dg, a, m + 1)
  {
    match t.At(m).workers[w]
    case BetweenTrials(_) =>
    case Trying(_, session, _, _, phase) =>
      match phase
      case Unread => ReadStays(t, w, session, a, m);
      case Checked(counter) => CheckStays(t, w, session, counter, a, m);
      case Opened(counter, _) => OpeningStays(t, w, session, counter, a, m);
  }

  lemma CheckStep(cfg: Config, t: Trace, w: nat, dg: bytes, a: nat, m: nat)
    requires cfg.Valid() && a <= m && t.Happens(cfg, m) && t.events[m] == Receives(Check(w))
    requires w in t.At(m).workers && Known(t, w, dg, a, m) && w in t.At(m + 1).workers
    ensures Known(t, w, dg, a, m + 1)
  {
    var r := t.At(m);
    if CheckOutcome(cfg, r, w).Some? {
      var session := r.workers[w].session;
      var n :| a <= n && HasRead(t, w, session, n, m);
      assert HasChecked(t, w, session, CheckOutcome(cfg, r, w).value, n, m, m + 1);
    }
  }

  lemma OpenStep(cfg: Config, t: Trace, w: nat, dg: bytes, a: nat, m: nat)
    requires cfg.Valid() && a <= m && t.Happens(cfg, m) && IsOpen(t.events[m], w)
    requires w in t.At(m).workers && Known(t, w, dg, a, m) && w in t.At(m + 1).workers
    ensures Known(t, w, dg, a, m + 1)
  {
    var r := t.At(m);
    var session, counter := r.workers[w].session, r.workers[w].phase.counter;
    var n, i :| a <= n && HasChecked(t, w, session, counter, n, i, m);
    assert HasOpened(t, w, session, counter, n, i, m, m + 1);
  }

  lemma LastStep(cfg: Config, t: Trace, w: nat, dg: bytes, a: nat, m: nat)
    requires cfg.Valid() && a <= m && t.Happens(cfg, m)
    requires t.events[m] == Receives(Commit(w)) || t.events[m] == Receives(TakeSecond(w))
    requires w in t.At(m).workers && Known(t, w, dg, a, m) && w in t.At(m + 1).workers
    ensures Known(t, w, dg, a, m + 1)
  {
    if t.events[m].move.TakeSecond? {
      assert HasRead(t, w, t.At(m).previous.value, m, m + 1);
    }
  }

  lemma NoSecondTake(cfg: Config, t: Trace, w: nat, m: nat)
    requires cfg.Valid() && t.Happens(cfg, m) && w in t.At(m).workers
    ensures !(t.events[m].Receives? && t.events[m].move.Take? && t.events[m].move.worker == w)
  {}

  lemma OneStep(cfg: Config, t: Trace, w: nat, dg: bytes, a: nat, m: nat)
    requires cfg.Valid() && t.Valid(cfg) && a <= m < |t.events|
    requires w in t.At(m).workers && Known(t, w, dg, a, m) && w in t.At(m + 1).workers
    ensures Known(t, w, dg, a, m + 1)
  {
    assert t.Happens(cfg, m);
    if !Own(t.events[m], w) {
      OthersLeaveWorker(cfg, t.run[m], t.events[m], t.run[m + 1], w);
      QuietStep(t, w, dg, a, m);
    } else {
      match t.events[m].move
      case Check(_) => CheckStep(cfg, t, w, dg, a, m);
      case OpenHit(_, _) => OpenStep(cfg, t, w, dg, a, m);
      case OpenMiss(_) => OpenStep(cfg, t, w, dg, a, m);
      case Commit(_) => LastStep(cfg, t, w, dg, a, m);
      case TakeSecond(_) => LastStep(cfg, t, w, dg, a, m);
      case Take(_, _) => NoSecondTake(cfg, t, w, m);
    }
  }

  lemma TakeIsKnown(cfg: Config, t: Trace, w: nat, dg: bytes, a: nat)
    requires cfg.Valid() && t.Happens(cfg, a) && t.events[a] == Receives(Take(w, dg)) && |t.run| == |t.events| + 1
    ensures w in t.At(a + 1).workers && Known(t, w, dg, a, a + 1)
  {
    assert HasRead(t, w, t.At(a).Current(), a, a + 1);
  }

  lemma {:induction false} WorkerIsKnown(cfg: Config, t: Trace, w: nat, dg: bytes, a: nat, b: nat, m: nat)
    requires cfg.Valid() && t.Valid(cfg) && Life(t, w, dg, a, b) && a < m <= b
    ensures w in t.At(m).workers && Known(t, w, dg, a, m)
  {
    if m == a + 1 {
      assert t.Happens(cfg, a);
      TakeIsKnown(cfg, t, w, dg, a);
    } else {
      WorkerIsKnown(cfg, t, w, dg, a, b, m - 1);
      OneStep(cfg, t, w, dg, a, m - 1);
    }
  }

  // ── Forwards: an accepting trial delivers ──

  ghost predicate WorkerAt(r: Receiver, w: nat, dg: bytes, session: nat, phase: Receivers.Phase) {
    && w in r.workers && r.workers[w].Trying?
    && r.workers[w].datagram == dg && r.workers[w].session == session && r.workers[w].phase == phase
  }

  ghost predicate IsAt(t: Trace, w: nat, m: nat, dg: bytes, session: nat, phase: Receivers.Phase) {
    m < |t.run| && WorkerAt(t.At(m), w, dg, session, phase)
  }

  lemma ReadStarts(cfg: Config, t: Trace, w: nat, dg: bytes, session: nat, n: nat)
    requires cfg.Valid() && t.Happens(cfg, n) && Reads(t, w, n, session)
    requires t.events[n].move.Take? ==> t.events[n].move.datagram == dg
    requires t.events[n].move.TakeSecond? ==> w in t.At(n).workers && t.At(n).workers[w] == BetweenTrials(dg)
    ensures IsAt(t, w, n + 1, dg, session, Unread)
  {}

  lemma CheckPasses(cfg: Config, t: Trace, w: nat, dg: bytes, x: Seal, i: nat)
    requires cfg.Valid() && t.Happens(cfg, i) && t.events[i] == Receives(Check(w)) && Carries(cfg, x, dg)
    requires IsAt(t, w, i, dg, x.session, Unread) && AcceptedAt(t, i, x.session, x.counter)
    ensures IsAt(t, w, i + 1, dg, x.session, Checked(x.counter))
  {
    assert CheckOutcome(cfg, t.At(i), w) == Some(x.counter);
  }

  /** The entry opens, and no other entry can. */
  lemma EntryOpens(cfg: Config, s: System, e: nat, dg: bytes)
    requires cfg.Valid() && SysInv(cfg, s) && e < |s.sender.log| && Carries(cfg, s.sender.log[e], dg)
    ensures var x := s.sender.log[e];
            && OpensAs(cfg, s.sender.log, e, x.session, x.counter, CtSlice(dg))
            && forall k: nat | OpensAs(cfg, s.sender.log, k, x.session, x.counter, CtSlice(dg)) :: k == e
  {
    var log := s.sender.log;
    var x := log[e];
    assert SealOk(cfg, s.sender.batches, x);
    forall k: nat | OpensAs(cfg, log, k, x.session, x.counter, CtSlice(dg)) ensures k == e {
      if k < e { NoNonceTwice(cfg, s.sender, k, e); }
      if e < k { NoNonceTwice(cfg, s.sender, e, k); }
    }
  }

  /** A checked worker can only hit the entry, and cannot miss. */
  lemma OnlyTheEntryOpens(cfg: Config, s: System, w: nat, dg: bytes, e: nat)
    requires cfg.Valid() && SysInv(cfg, s) && e < |s.sender.log| && Carries(cfg, s.sender.log[e], dg)
    requires WorkerAt(s.receiver, w, dg, s.sender.log[e].session, Checked(s.sender.log[e].counter))
    ensures !Possible(cfg, s.sender.log, s.receiver, OpenMiss(w))
    ensures forall k: nat | Possible(cfg, s.sender.log, s.receiver, OpenHit(w, k)) :: k == e
  {
    EntryOpens(cfg, s, e, dg);
  }

  lemma HitOpens(cfg: Config, log: seq<Seal>, r: Receiver, w: nat, dg: bytes, e: nat)
    requires cfg.Valid() && Possible(cfg, log, r, OpenHit(w, e)) && e < |log|
    requires WorkerAt(r, w, dg, log[e].session, Checked(log[e].counter))
    ensures WorkerAt(Do(cfg, log, r, OpenHit(w, e)), w, dg, log[e].session, Opened(log[e].counter, log[e].framed))
  {}

  lemma OpenHits(cfg: Config, t: Trace, w: nat, dg: bytes, e: nat, j: nat)
    requires cfg.Valid() && t.Happens(cfg, j) && IsOpen(t.events[j], w) && SysInv(cfg, t.run[j])
    requires e < |t.Log(j)| && Carries(cfg, t.Log(j)[e], dg)
    requires IsAt(t, w, j, dg, t.Log(j)[e].session, Checked(t.Log(j)[e].counter))
    ensures IsAt(t, w, j + 1, dg, t.Log(j)[e].session, Opened(t.Log(j)[e].counter, t.Log(j)[e].framed))
  {
    OnlyTheEntryOpens(cfg, t.run[j], w, dg, e);
    HitOpens(cfg, t.Log(j), t.At(j), w, dg, e);
  }

  lemma CommitDelivers(cfg: Config, t: Trace, w: nat, dg: bytes, x: Seal, k: nat)
    requires cfg.Valid() && t.Happens(cfg, k) && t.events[k] == Receives(Commit(w)) && |t.run| == |t.events| + 1
    requires Parsed(x.framed) == Ok((x.packet.frameType, x.packet.payload))
    requires IsAt(t, w, k, dg, x.session, Opened(x.counter, x.framed)) && AcceptedAt(t, k, x.session, x.counter)
    ensures Delivers(t, w, k, x) && w !in t.At(k + 1).workers
  {}

  lemma EntryStays(cfg: Config, t: Trace, a: nat, m: nat, e: nat)
    requires cfg.Valid() && t.Valid(cfg) && a <= m < |t.run| && e < |t.Log(a)|
    ensures e < |t.Log(m)| && t.Log(m)[e] == t.Log(a)[e]
    ensures Parsed(t.Log(a)[e].framed) == Ok((t.Log(a)[e].packet.frameType, t.Log(a)[e].packet.payload))
  {
    LogOnlyGrows(cfg, t, a, m);
    TraceInv(cfg, t, a);
    SenderLogIsSound(cfg, t.run[a].sender);
  }

  lemma StaysAt(cfg: Config, t: Trace, w: nat, m: nat, n: nat, dg: bytes, session: nat, phase: Receivers.Phase)
    requires cfg.Valid() && t.Valid(cfg) && m <= n < |t.run| && Quiet(t, w, m, n) && IsAt(t, w, m, dg, session, phase)
    ensures IsAt(t, w, n, dg, session, phase)
  {
    QuietLeavesWorker(cfg, t, w, m, n);
  }

  lemma LifeReads(cfg: Config, t: Trace, w: nat, dg: bytes, a: nat, b: nat, session: nat, n: nat)
    requires cfg.Valid() && t.Valid(cfg) && Life(t, w, dg, a, b) && a <= n <= b && Reads(t, w, n, session)
    ensures IsAt(t, w, n + 1, dg, session, Unread)
  {
    assert t.Happens(cfg, n);
    if n > a {
      NoSecondTake(cfg, t, w, n);
      WorkerIsKnown(cfg, t, w, dg, a, b, n);
      SecondFromBetween(cfg, t, w, n);
    }
    ReadStarts(cfg, t, w, dg, session, n);
  }

  lemma SecondFromBetween(cfg: Config, t: Trace, w: nat, n: nat)
    requires cfg.Valid() && t.Happens(cfg, n) && t.events[n] == Receives(TakeSecond(w))
    ensures w in t.At(n).workers && t.At(n).workers[w].BetweenTrials?
  {}

  lemma AfterCheck(cfg: Config, t: Trace, w: nat, dg: bytes, x: Seal, m: nat, i: nat)
    requires cfg.Valid() && t.Valid(cfg) && m <= i < |t.events| && Quiet(t, w, m, i) && Carries(cfg, x, dg)
    requires IsAt(t, w, m, dg, x.session, Unread)
    requires t.events[i] == Receives(Check(w)) && AcceptedAt(t, i, x.session, x.counter)
    ensures IsAt(t, w, i + 1, dg, x.session, Checked(x.counter))
  {
    StaysAt(cfg, t, w, m, i, dg, x.session, Unread);
    assert t.Happens(cfg, i);
    CheckPasses(cfg, t, w, dg, x, i);
  }

  lemma AfterOpen(cfg: Config, t: Trace, w: nat, dg: bytes, a: nat, e: nat, m: nat, j: nat)
    requires cfg.Valid() && t.Valid(cfg) && a <= m <= j < |t.events| && Quiet(t, w, m, j)
    requires e < |t.Log(a)| && Carries(cfg, t.Log(a)[e], dg)
    requires IsAt(t, w, m, dg, t.Log(a)[e].session, Checked(t.Log(a)[e].counter)) && IsOpen(t.events[j], w)
    ensures IsAt(t, w, j + 1, dg, t.Log(a)[e].session, Opened(t.Log(a)[e].counter, t.Log(a)[e].framed))
  {
    var x := t.Log(a)[e];
    StaysAt(cfg, t, w, m, j, dg, x.session, Checked(x.counter));
    EntryStays(cfg, t, a, j, e);
    TraceInv(cfg, t, j);
    assert t.Happens(cfg, j);
    OpenHits(cfg, t, w, dg, e, j);
  }

  lemma AfterCommit(cfg: Config, t: Trace, w: nat, dg: bytes, a: nat, e: nat, m: nat, k: nat)
    requires cfg.Valid() && t.Valid(cfg) && a <= m <= k < |t.events| && Quiet(t, w, m, k) && e < |t.Log(a)|
    requires IsAt(t, w, m, dg, t.Log(a)[e].session, Opened(t.Log(a)[e].counter, t.Log(a)[e].framed))
    requires t.events[k] == Receives(Commit(w)) && AcceptedAt(t, k, t.Log(a)[e].session, t.Log(a)[e].counter)
    ensures Delivers(t, w, k, t.Log(a)[e]) && w !in t.At(k + 1).workers
  {
    var x := t.Log(a)[e];
    StaysAt(cfg, t, w, m, k, dg, x.session, Opened(x.counter, x.framed));
    EntryStays(cfg, t, a, k, e);
    assert t.Happens(cfg, k);
    CommitDelivers(cfg, t, w, dg, x, k);
  }

  lemma AcceptingEnds(cfg: Config, t: Trace, w: nat, dg: bytes, a: nat, e: nat, m: nat, i: nat, j: nat, k: nat)
    requires cfg.Valid() && t.Valid(cfg) && a <= m <= i < j < k < |t.events|
    requires e < |t.Log(a)| && Carries(cfg, t.Log(a)[e], dg) && IsAt(t, w, m, dg, t.Log(a)[e].session, Unread)
    requires Quiet(t, w, m, i) && Quiet(t, w, i + 1, j) && Quiet(t, w, j + 1, k)
    requires t.events[i] == Receives(Check(w)) && IsOpen(t.events[j], w) && t.events[k] == Receives(Commit(w))
    requires AcceptedAt(t, i, t.Log(a)[e].session, t.Log(a)[e].counter) && AcceptedAt(t, k, t.Log(a)[e].session, t.Log(a)[e].counter)
    ensures Delivers(t, w, k, t.Log(a)[e]) && w !in t.At(k + 1).workers
  {
    AfterCheck(cfg, t, w, dg, t.Log(a)[e], m, i);
    AfterOpen(cfg, t, w, dg, a, e, i + 1, j);
    AfterCommit(cfg, t, w, dg, a, e, j + 1, k);
  }

  lemma AcceptingDelivers(cfg: Config, t: Trace, w: nat, dg: bytes, a: nat, b: nat, e: nat, n: nat, i: nat, j: nat, k: nat)
    requires cfg.Valid() && t.Valid(cfg) && Life(t, w, dg, a, b) && e < |t.Log(a)| && Carries(cfg, t.Log(a)[e], dg)
    requires a <= n && k <= b && Accepting(t, w, t.Log(a)[e].session, t.Log(a)[e].counter, n, i, j, k)
    ensures Delivers(t, w, b, t.Log(a)[e])
  {
    LifeReads(cfg, t, w, dg, a, b, t.Log(a)[e].session, n);
    AcceptingEnds(cfg, t, w, dg, a, e, n + 1, i, j, k);
  }

  lemma DeliveryWasCommitted(cfg: Config, t: Trace, w: nat, b: nat, x: Seal)
    requires cfg.Valid() && t.Happens(cfg, b) && Delivers(t, w, b, x)
    ensures var wk := t.At(b).workers[w];
            wk.phase.Opened? && wk.session == x.session && wk.phase.at == x.counter && AcceptedAt(t, b, x.session, x.counter)
  {
    var r, s := t.At(b), t.At(b + 1);
    var read := r.workers[w].read;
    assert s.delivered[|r.delivered|] == Delivery(x.session, x.counter, x.packet.frameType, x.packet.payload, read);
  }

  lemma DeliveryHadATrial(cfg: Config, t: Trace, w: nat, dg: bytes, a: nat, b: nat, x: Seal)
    requires cfg.Valid() && t.Valid(cfg) && Life(t, w, dg, a, b) && Delivers(t, w, b, x)
    ensures SomeTrialAccepts(t, w, x.session, x.counter, a, b)
  {
    assert t.Happens(cfg, b);
    DeliveryWasCommitted(cfg, t, w, b, x);
    WorkerIsKnown(cfg, t, w, dg, a, b, b);
    var n, i, j :| a <= n && HasOpened(t, w, x.session, x.counter, n, i, j, b);
    assert Accepting(t, w, x.session, x.counter, n, i, j, b);
  }

  // ── Main results ──

  ghost predicate SomeTrialAccepts(t: Trace, w: nat, session: nat, counter: u64, a: nat, b: nat) {
    exists n: nat, i: nat, j: nat, k: nat :: a <= n && k <= b && Accepting(t, w, session, counter, n, i, j, k)
  }

  /** Whatever else runs at the same time: a worker that takes the datagram of a log entry
      delivers the entry exactly when one of the sessions it reads is the entry's, and that
      session's window accepts the counter both at its check and at its commit. */
  lemma DeliveredIff(cfg: Config, t: Trace, w: nat, dg: bytes, a: nat, b: nat, e: nat)
    requires cfg.Valid() && t.Valid(cfg) && Life(t, w, dg, a, b)
    requires e < |t.Log(a)| && Carries(cfg, t.Log(a)[e], dg)
    ensures Delivers(t, w, b, t.Log(a)[e]) <==> SomeTrialAccepts(t, w, t.Log(a)[e].session, t.Log(a)[e].counter, a, b)
  {
    var x := t.Log(a)[e];
    if Delivers(t, w, b, x) {
      DeliveryHadATrial(cfg, t, w, dg, a, b, x);
    }
    if SomeTrialAccepts(t, w, x.session, x.counter, a, b) {
      var n: nat, i: nat, j: nat, k: nat :| a <= n && k <= b && Accepting(t, w, x.session, x.counter, n, i, j, k);
      AcceptingDelivers(cfg, t, w, dg, a, b, e, n, i, j, k);
    }
  }

  /** Acceptance told by the history: a trial whose check accepted is accepted at its commit
      too exactly when nobody committed the counter, or one 2048 or more above it, in
      between. */
  lemma AcceptingIffUndisturbed(cfg: Config, t: Trace, w: nat, session: nat, counter: u64, n: nat, i: nat, j: nat, k: nat)
    requires cfg.Valid() && t.Valid(cfg) && k < |t.events| && HasOpened(t, w, session, counter, n, i, j, k)
    requires t.events[k] == Receives(Commit(w))
    ensures session in t.At(i).history && session in t.At(k).history && t.At(i).history[session] <= t.At(k).history[session]
    ensures Accepting(t, w, session, counter, n, i, j, k)
       <==> Untouched(t.At(k).history[session][|t.At(i).history[session]|..], counter)
  {
    TraceInv(cfg, t, i);
    StillAcceptedIff(cfg, t, i, k, session, counter);
  }

  // ── The same, told by the history alone ──

  /** The worker is trying x's session, as far as it has come. */
  ghost predicate OnSession(r: Receiver, w: nat, dg: bytes, x: Seal) {
    && w in r.workers && r.workers[w].Trying? && r.workers[w].datagram == dg && r.workers[w].session == x.session
    && (r.workers[w].phase == Unread || r.workers[w].phase == Checked(x.counter)
        || r.workers[w].phase == Opened(x.counter, x.framed))
  }

  lemma CheckGoesOn(cfg: Config, t: Trace, w: nat, dg: bytes, x: Seal, m: nat)
    requires cfg.Valid() && t.Happens(cfg, m) && t.events[m] == Receives(Check(w)) && Carries(cfg, x, dg)
    requires OnSession(t.At(m), w, dg, x) && AcceptedAt(t, m, x.session, x.counter)
    ensures OnSession(t.At(m + 1), w, dg, x)
  {
    CheckPasses(cfg, t, w, dg, x, m);
  }

  lemma OpenGoesOn(cfg: Config, t: Trace, w: nat, dg: bytes, e: nat, m: nat)
    requires cfg.Valid() && t.Happens(cfg, m) && IsOpen(t.events[m], w) && SysInv(cfg, t.run[m])
    requires e < |t.Log(m)| && Carries(cfg, t.Log(m)[e], dg) && OnSession(t.At(m), w, dg, t.Log(m)[e])
    ensures OnSession(t.At(m + 1), w, dg, t.Log(m)[e])
  {
    OpensChecked(cfg, t.Log(m), t.At(m), w, t.events[m].move);
    assert IsAt(t, w, m, dg, t.Log(m)[e].session, Checked(t.Log(m)[e].counter));
    OpenHits(cfg, t, w, dg, e, m);
  }

  lemma OpensChecked(cfg: Config, log: seq<Seal>, r: Receiver, w: nat, move: Move)
    requires cfg.Valid() && Possible(cfg, log, r, move) && IsOpen(Receives(move), w)
    ensures IsChecked(r, w)
  {}

  lemma CommitEnds(cfg: Config, t: Trace, w: nat, dg: bytes, x: Seal, m: nat)
    requires cfg.Valid() && t.Happens(cfg, m) && t.events[m] == Receives(Commit(w)) && |t.run| == |t.events| + 1
    requires Parsed(x.framed) == Ok((x.packet.frameType, x.packet.payload))
    requires OnSession(t.At(m), w, dg, x) && AcceptedAt(t, m, x.session, x.counter)
    ensures Delivers(t, w, m, x) && w !in t.At(m + 1).workers
  {
    CommitDelivers(cfg, t, w, dg, x, m);
  }

  lemma OthersGoOn(cfg: Config, t: Trace, w: nat, dg: bytes, x: Seal, m: nat)
    requires cfg.Valid() && t.Happens(cfg, m) && !Own(t.events[m], w) && OnSession(t.At(m), w, dg, x)
    ensures OnSession(t.At(m + 1), w, dg, x)
  {
    OthersLeaveWorker(cfg, t.run[m], t.events[m], t.run[m + 1], w);
  }

  lemma GoesOn(cfg: Config, t: Trace, w: nat, dg: bytes, a: nat, e: nat, m: nat)
    requires cfg.Valid() && t.Valid(cfg) && a <= m < |t.events| && e < |t.Log(a)| && Carries(cfg, t.Log(a)[e], dg)
    requires OnSession(t.At(m), w, dg, t.Log(a)[e]) && AcceptedAt(t, m, t.Log(a)[e].session, t.Log(a)[e].counter)
    ensures if w in t.At(m + 1).workers then OnSession(t.At(m + 1), w, dg, t.Log(a)[e])
            else Delivers(t, w, m, t.Log(a)[e])
  {
    var x := t.Log(a)[e];
    EntryStays(cfg, t, a, m, e);
    TraceInv(cfg, t, m);
    assert t.Happens(cfg, m);
    if !Own(t.events[m], w) {
      OthersGoOn(cfg, t, w, dg, x, m);
    } else {
      match t.events[m].move
      case Check(_) => CheckGoesOn(cfg, t, w, dg, x, m);
      case OpenHit(_, _) => OpenGoesOn(cfg, t, w, dg, e, m);
      case OpenMiss(_) => OpenGoesOn(cfg, t, w, dg, e, m);
      case Commit(_) => CommitEnds(cfg, t, w, dg, x, m);
      case TakeSecond(_) => SecondFromBetween(cfg, t, w, m);
      case Take(_, _) => NoSecondTake(cfg, t, w, m);
    }
  }

  lemma UntouchedBefore(cfg: Config, t: Trace, m: nat, b: nat, session: nat, counter: u64)
    requires cfg.Valid() && t.Valid(cfg) && m <= b < |t.run| && session in t.At(m).history
    requires UntouchedAt(t, b, session, counter)
    ensures AcceptedAt(t, m, session, counter)
  {
    HistoryOnlyGrows(cfg, t, m, b, session);
    AcceptedIffUntouched(cfg, t, m, session, counter);
    var early, late := t.At(m).history[session], t.At(b).history[session];
    assert late == early + late[|early|..];
    UntouchedAppend(early, late[|early|..], counter);
  }

  /** By now nobody has committed the counter, or one 2048 or more above it. */
  ghost predicate UntouchedAt(t: Trace, n: nat, session: nat, counter: u64)
    requires n < |t.run|
  {
    session in t.At(n).history && Untouched(t.At(n).history[session], counter)
  }

  lemma ReadIsInstalled(cfg: Config, t: Trace, w: nat, n: nat, session: nat)
    requires cfg.Valid() && t.Valid(cfg) && n < |t.events| && Reads(t, w, n, session)
    ensures session in t.At(n).history
  {
    TraceInv(cfg, t, n);
  }

  lemma {:induction false} StaysOnSession(cfg: Config, t: Trace, w: nat, dg: bytes, a: nat, b: nat, e: nat, n: nat, m: nat)
    requires cfg.Valid() && t.Valid(cfg) && Life(t, w, dg, a, b) && a <= n < m <= b
    requires e < |t.Log(a)| && Carries(cfg, t.Log(a)[e], dg) && Reads(t, w, n, t.Log(a)[e].session)
    requires UntouchedAt(t, b, t.Log(a)[e].session, t.Log(a)[e].counter)
    ensures OnSession(t.At(m), w, dg, t.Log(a)[e])
  {
    var x := t.Log(a)[e];
    if m == n + 1 {
      LifeReads(cfg, t, w, dg, a, b, x.session, n);
    } else {
      StaysOnSession(cfg, t, w, dg, a, b, e, n, m - 1);
      ReadIsInstalled(cfg, t, w, n, x.session);
      HistoryOnlyGrows(cfg, t, n, m - 1, x.session);
      UntouchedBefore(cfg, t, m - 1, b, x.session, x.counter);
      GoesOn(cfg, t, w, dg, a, e, m - 1);
    }
  }

  ghost predicate ReadsSome(t: Trace, w: nat, session: nat, a: nat, b: nat)
    requires b < |t.events| && |t.run| == |t.events| + 1
  {
    exists n :: a <= n <= b && Reads(t, w, n, session)
  }

  lemma ReadAndUntouchedDelivers(cfg: Config, t: Trace, w: nat, dg: bytes, a: nat, b: nat, e: nat)
    requires cfg.Valid() && t.Valid(cfg) && Life(t, w, dg, a, b)
    requires e < |t.Log(a)| && Carries(cfg, t.Log(a)[e], dg)
    requires ReadsSome(t, w, t.Log(a)[e].session, a, b) && UntouchedAt(t, b, t.Log(a)[e].session, t.Log(a)[e].counter)
    ensures Delivers(t, w, b, t.Log(a)[e])
  {
    var x := t.Log(a)[e];
    var n :| a <= n <= b && Reads(t, w, n, x.session);
    ReadIsInstalled(cfg, t, w, n, x.session);
    if n == b {
      LifeReads(cfg, t, w, dg, a, b, x.session, n);
    } else {
      StaysOnSession(cfg, t, w, dg, a, b, e, n, b);
      HistoryOnlyGrows(cfg, t, n, b, x.session);
      UntouchedBefore(cfg, t, b, b, x.session, x.counter);
      GoesOn(cfg, t, w, dg, a, e, b);
    }
  }

  lemma DeliveryWasUntouched(cfg: Config, t: Trace, w: nat, dg: bytes, a: nat, b: nat, x: Seal)
    requires cfg.Valid() && t.Valid(cfg) && Life(t, w, dg, a, b) && Delivers(t, w, b, x)
    ensures ReadsSome(t, w, x.session, a, b) && UntouchedAt(t, b, x.session, x.counter)
  {
    DeliveryHadATrial(cfg, t, w, dg, a, b, x);
    var n: nat, i: nat, j: nat, k: nat :| a <= n && k <= b && Accepting(t, w, x.session, x.counter, n, i, j, k);
    assert Reads(t, w, n, x.session);
    ReadIsInstalled(cfg, t, w, n, x.session);
    HistoryOnlyGrows(cfg, t, n, b, x.session);
    assert t.Happens(cfg, b);
    DeliveryWasCommitted(cfg, t, w, b, x);
    AcceptedIffUntouched(cfg, t, b, x.session, x.counter);
  }

  /** Over every interleaving, installations included: a worker delivers the entry of the
      datagram it took exactly when it reads the entry's session, and by its last step nobody
      else has committed the counter or one 2048 or more above it. */
  lemma DeliveredIffReadAndUntouched(cfg: Config, t: Trace, w: nat, dg: bytes, a: nat, b: nat, e: nat)
    requires cfg.Valid() && t.Valid(cfg) && Life(t, w, dg, a, b)
    requires e < |t.Log(a)| && Carries(cfg, t.Log(a)[e], dg)
    ensures var x := t.Log(a)[e];
            Delivers(t, w, b, x) <==> ReadsSome(t, w, x.session, a, b) && UntouchedAt(t, b, x.session, x.counter)
  {
    var x := t.Log(a)[e];
    if Delivers(t, w, b, x) { DeliveryWasUntouched(cfg, t, w, dg, a, b, x); }
    if ReadsSome(t, w, x.session, a, b) && UntouchedAt(t, b, x.session, x.counter) {
      ReadAndUntouchedDelivers(cfg, t, w, dg, a, b, e);
    }
  }

  // ── With no installation or retirement in between ──

  predicate ManagerMove(e: DataPlane.Event) {
    e.Receives? && (e.move.BeginInstall? || e.move.FinishInstall? || e.move.Retire?)
  }

  predicate ManagerRests(t: Trace, a: nat, b: nat) {
    b <= |t.events| && forall x | a <= x < b :: !ManagerMove(t.events[x])
  }

  lemma SlotsStayOnce(cfg: Config, t: Trace, m: nat)
    requires cfg.Valid() && t.Happens(cfg, m) && !ManagerMove(t.events[m])
    ensures t.At(m + 1).installs == t.At(m).installs && t.At(m + 1).previous == t.At(m).previous
  {
    if t.events[m].Receives? { OtherMovesKeepSlots(cfg, t.Log(m), t.At(m), t.events[m].move); }
  }

  lemma {:induction false} SlotsStay(cfg: Config, t: Trace, a: nat, m: nat)
    requires cfg.Valid() && t.Valid(cfg) && a <= m < |t.run| && ManagerRests(t, a, m)
    ensures t.At(m).installs == t.At(a).installs && t.At(m).previous == t.At(a).previous
  {
    if a < m {
      SlotsStay(cfg, t, a, m - 1);
      assert t.Happens(cfg, m - 1);
      SlotsStayOnce(cfg, t, m - 1);
    }
  }

  /** No entry of another session has the ciphertext of x. */
  ghost predicate OwnCiphertext(log: seq<Seal>, x: Seal) {
    forall k | 0 <= k < |log| && log[k].ct == x.ct :: log[k].session == x.session
  }

  /** The worker is trying the session it read first, where nothing opens, or is done with it. */
  ghost predicate OnFirst(r: Receiver, w: nat, dg: bytes, first: nat) {
    w in r.workers &&
    match r.workers[w]
    case BetweenTrials(d) => d == dg
    case Trying(d, session, second, _, phase) => d == dg && session == first && !second && !phase.Opened?
  }

  lemma FirstGoesOn(cfg: Config, log: seq<Seal>, r: Receiver, w: nat, dg: bytes, x: Seal, first: nat, move: Move)
    requires cfg.Valid() && Possible(cfg, log, r, move) && Own(Receives(move), w)
    requires !move.TakeSecond? && |dg| >= HP_HEADER_LEN && CtSlice(dg) == x.ct
    requires OnFirst(r, w, dg, first) && OwnCiphertext(log, x) && first != x.session
    ensures OnFirst(Do(cfg, log, r, move), w, dg, first)
  {}

  lemma FirstStep(cfg: Config, t: Trace, w: nat, dg: bytes, x: Seal, first: nat, m: nat)
    requires cfg.Valid() && t.Valid(cfg) && m < |t.events| && t.events[m] != Receives(TakeSecond(w))
    requires |dg| >= HP_HEADER_LEN && CtSlice(dg) == x.ct && OwnCiphertext(t.Log(m), x) && first != x.session
    requires OnFirst(t.At(m), w, dg, first)
    ensures OnFirst(t.At(m + 1), w, dg, first)
  {
    if Own(t.events[m], w) {
      assert t.Happens(cfg, m);
      FirstGoesOn(cfg, t.Log(m), t.At(m), w, dg, x, first, t.events[m].move);
    } else {
      EventLeavesWorker(cfg, t, m, w);
    }
  }

  lemma {:induction false} StaysOnFirst(cfg: Config, t: Trace, w: nat, dg: bytes, a: nat, b: nat, e: nat, m: nat)
    requires cfg.Valid() && t.Valid(cfg) && Life(t, w, dg, a, b) && a < m <= b + 1
    requires e < |t.Log(a)| && Carries(cfg, t.Log(a)[e], dg) && OwnCiphertext(t.Log(b), t.Log(a)[e])
    requires t.At(a).installs != [] && t.At(a).Current() != t.Log(a)[e].session
    requires forall x | a <= x < m :: t.events[x] != Receives(TakeSecond(w))
    ensures OnFirst(t.At(m), w, dg, t.At(a).Current())
  {
    if m == a + 1 {
      assert t.Happens(cfg, a);
      ReadStarts(cfg, t, w, dg, t.At(a).Current(), a);
    } else {
      StaysOnFirst(cfg, t, w, dg, a, b, e, m - 1);
      LogOnlyGrows(cfg, t, m - 1, b);
      assert OwnCiphertext(t.Log(m - 1), t.Log(a)[e]);
      FirstStep(cfg, t, w, dg, t.Log(a)[e], t.At(a).Current(), m - 1);
    }
  }

  /** The situation of a worker that takes the datagram of a log entry while the entry's
      session is current or previous, and nothing is installed or retired until it is done. */
  ghost predicate Present(cfg: Config, t: Trace, w: nat, dg: bytes, a: nat, b: nat, e: nat)
    requires cfg.Valid()
  {
    && t.Valid(cfg) && Life(t, w, dg, a, b) && ManagerRests(t, a, b)
    && e < |t.Log(a)| && Carries(cfg, t.Log(a)[e], dg) && OwnCiphertext(t.Log(b), t.Log(a)[e])
    && t.At(a).installs != []
    && (t.At(a).Current() == t.Log(a)[e].session || t.At(a).previous == Some(t.Log(a)[e].session))
  }

  lemma PresentIsRead(cfg: Config, t: Trace, w: nat, dg: bytes, a: nat, b: nat, e: nat)
    requires cfg.Valid() && Present(cfg, t, w, dg, a, b, e)
    ensures ReadsSome(t, w, t.Log(a)[e].session, a, b)
  {
    var session := t.Log(a)[e].session;
    if t.At(a).Current() == session {
      assert Reads(t, w, a, session);
    } else if x :| a <= x <= b && t.events[x] == Receives(TakeSecond(w)) {
      SlotsStay(cfg, t, a, x);
      assert Reads(t, w, x, session);
    } else {
      StaysOnFirst(cfg, t, w, dg, a, b, e, b + 1);
    }
  }

  /** Fresh traffic of the current or the previous session is delivered, whatever other
      workers do, exactly when by the end nobody else has committed its counter or one
      2048 or more above it. */
  lemma PresentSessionDelivers(cfg: Config, t: Trace, w: nat, dg: bytes, a: nat, b: nat, e: nat)
    requires cfg.Valid() && Present(cfg, t, w, dg, a, b, e)
    ensures t.Log(a)[e].session in t.At(b).history
    ensures Delivers(t, w, b, t.Log(a)[e])
       <==> Untouched(t.At(b).history[t.Log(a)[e].session], t.Log(a)[e].counter)
  {
    var session := t.Log(a)[e].session;
    PresentIsRead(cfg, t, w, dg, a, b, e);
    var n :| a <= n <= b && Reads(t, w, n, session);
    ReadIsInstalled(cfg, t, w, n, session);
    HistoryOnlyGrows(cfg, t, n, b, session);
    DeliveredIffReadAndUntouched(cfg, t, w, dg, a, b, e);
  }

  // ── After a retirement ──

  /** No installation writes `previous` between events m and n. */
  predicate NoneFinishes(t: Trace, m: nat, n: nat) {
    n <= |t.events| && forall x | m <= x < n :: !(t.events[x].Receives? && t.events[x].move.FinishInstall?)
  }

  lemma EmptyStaysOnce(cfg: Config, t: Trace, m: nat)
    requires cfg.Valid() && t.Valid(cfg) && m < |t.events| && NoneFinishes(t, m, m + 1)
    requires t.At(m).previous == None || t.events[m] == Receives(Retire)
    ensures t.At(m + 1).previous == None
  {
    assert t.Happens(cfg, m);
    if t.events[m].Receives? && !ManagerMove(t.events[m]) { OtherMovesKeepSlots(cfg, t.Log(m), t.At(m), t.events[m].move); }
  }

  lemma {:induction false} EmptyAfterRetire(cfg: Config, t: Trace, m: nat, n: nat)
    requires cfg.Valid() && t.Valid(cfg) && m < n < |t.run| && t.events[m] == Receives(Retire) && NoneFinishes(t, m, n)
    ensures t.At(n).previous == None
  {
    if m + 1 < n { EmptyAfterRetire(cfg, t, m, n - 1); }
    EmptyStaysOnce(cfg, t, n - 1);
  }

  /** After a retirement, until an installation is finished, no worker reads a previous
      session: what it reads is current when it reads it. */
  lemma RetiredIsNotRead(cfg: Config, t: Trace, w: nat, m: nat, n: nat, session: nat)
    requires cfg.Valid() && t.Valid(cfg) && m < n < |t.events| && t.events[m] == Receives(Retire) && NoneFinishes(t, m, n)
    requires Reads(t, w, n, session)
    ensures t.events[n].move.Take? && t.At(n).Current() == session
  {
    EmptyAfterRetire(cfg, t, m, n);
  }

  // ── And with one: the old session is read twice ──

  ghost predicate Leads(cfg: Config, log: seq<Seal>, r: Receiver, move: Move, s: Receiver)
    requires cfg.Valid()
  {
    Possible(cfg, log, r, move) && Do(cfg, log, r, move) == s
  }

  /** The receiver after an installation of session 1, with one worker. */
  function Installed1(workers: map<nat, Worker>): Receiver {
    Receiver([0, 1], Some(0), 1, map[], map[0 := EMPTY, 1 := EMPTY], map[0 := [], 1 := []], workers, [])
  }

  function Tries0(dg: bytes, second: bool, read: Read): map<nat, Worker> {
    map[0 := Trying(dg, 0, second, read, Unread)]
  }

  /** A worker that reads the current session before an installation and `previous` after it
      tries the old session twice. The datagram is of the session that is current by then,
      whose window is still empty; and it is dropped. */
  lemma InstallationLosesFreshTraffic(cfg: Config, log: seq<Seal>, e: nat, dg: bytes)
    requires cfg.Valid() && e < |log| && log[e].session == 1 && Carries(cfg, log[e], dg)
    requires Unmasked(cfg.mac, cfg.keys(0).txObf, dg).None?
             || Unmasked(cfg.mac, cfg.keys(0).txObf, dg).value.sessionId != cfg.keys(0).id
    ensures var taken := LISTENING.(workers := Tries0(dg, false, Read(1, false)));
            var begun := Installed1(taken.workers).(previous := None, previousBy := 0, halfway := map[5 := 1]);
            && Leads(cfg, log, LISTENING, Take(0, dg), taken)
            && Leads(cfg, log, taken, BeginInstall(5, 1), begun)
            && Leads(cfg, log, begun, FinishInstall(5), Installed1(taken.workers))
            && Leads(cfg, log, Installed1(taken.workers), Receivers.Check(0), Installed1(map[0 := BetweenTrials(dg)]))
    ensures var second := Installed1(Tries0(dg, true, Read(2, false)));
            && Leads(cfg, log, Installed1(map[0 := BetweenTrials(dg)]), TakeSecond(0), second)
            && Leads(cfg, log, second, Receivers.Check(0), Installed1(map[]))
    ensures Installed1(map[]).Current() == 1 && Installed1(map[]).windows[1].Accepts(log[e].counter)
  {
    InstallsWhileTaken(cfg, log, dg);
    SecondTrialDrops(cfg, log, dg);
  }

  lemma InstallsWhileTaken(cfg: Config, log: seq<Seal>, dg: bytes)
    requires cfg.Valid()
    requires Unmasked(cfg.mac, cfg.keys(0).txObf, dg).None?
             || Unmasked(cfg.mac, cfg.keys(0).txObf, dg).value.sessionId != cfg.keys(0).id
    ensures var taken := LISTENING.(workers := Tries0(dg, false, Read(1, false)));
            var begun := Installed1(taken.workers).(previous := None, previousBy := 0, halfway := map[5 := 1]);
            && Leads(cfg, log, LISTENING, Take(0, dg), taken)
            && Leads(cfg, log, taken, BeginInstall(5, 1), begun)
            && Leads(cfg, log, begun, FinishInstall(5), Installed1(taken.workers))
            && Leads(cfg, log, Installed1(taken.workers), Receivers.Check(0), Installed1(map[0 := BetweenTrials(dg)]))
  {}

  lemma SecondTrialDrops(cfg: Config, log: seq<Seal>, dg: bytes)
    requires cfg.Valid()
    requires Unmasked(cfg.mac, cfg.keys(0).txObf, dg).None?
             || Unmasked(cfg.mac, cfg.keys(0).txObf, dg).value.sessionId != cfg.keys(0).id
    ensures var second := Installed1(Tries0(dg, true, Read(2, false)));
            && Leads(cfg, log, Installed1(map[0 := BetweenTrials(dg)]), TakeSecond(0), second)
            && Leads(cfg, log, second, Receivers.Check(0), Installed1(map[]))
  {}

  // ── A session two back ──

  /** Session 1 installed, session 2 current, `previous` not yet written: still session 0. */
  function Halfway2(windows: map<nat, Window>, history: map<nat, seq<u64>>, workers: map<nat, Worker>, delivered: seq<Delivery>): Receiver {
    Receiver([0, 1, 2], Some(0), 1, map[5 := 2], windows, history, workers, delivered)
  }

  const THREE_EMPTY: map<nat, Window> := map[0 := EMPTY, 1 := EMPTY, 2 := EMPTY]
  const THREE_NEW: map<nat, seq<u64>> := map[0 := [], 1 := [], 2 := []]

  /** Installations one at a time, and yet a session two back delivers: the worker reads
      `previous` between the two writes of the installation. */
  lemma OlderSessionDelivers(cfg: Config, log: seq<Seal>, e: nat, dg: bytes)
    requires cfg.Valid() && e < |log| && log[e].session == 0 && Carries(cfg, log[e], dg)
    requires OpensAs(cfg, log, e, 0, log[e].counter, CtSlice(dg))
    requires Parsed(log[e].framed) == Ok((log[e].packet.frameType, log[e].packet.payload))
    requires Unmasked(cfg.mac, cfg.keys(2).txObf, dg).None?
             || Unmasked(cfg.mac, cfg.keys(2).txObf, dg).value.sessionId != cfg.keys(2).id
    ensures var one := Installed1(map[]);
            && Leads(cfg, log, LISTENING, BeginInstall(5, 1), one.(previous := None, previousBy := 0, halfway := map[5 := 1]))
            && Leads(cfg, log, one.(previous := None, previousBy := 0, halfway := map[5 := 1]), FinishInstall(5), one)
            && Leads(cfg, log, one, BeginInstall(5, 2), Halfway2(THREE_EMPTY, THREE_NEW, map[], []))
    ensures var first := map[0 := Trying(dg, 2, false, Read(3, true), Unread)];
            && Leads(cfg, log, Halfway2(THREE_EMPTY, THREE_NEW, map[], []), Take(0, dg), Halfway2(THREE_EMPTY, THREE_NEW, first, []))
            && Leads(cfg, log, Halfway2(THREE_EMPTY, THREE_NEW, first, []), Receivers.Check(0),
                     Halfway2(THREE_EMPTY, THREE_NEW, map[0 := BetweenTrials(dg)], []))
            && Leads(cfg, log, Halfway2(THREE_EMPTY, THREE_NEW, map[0 := BetweenTrials(dg)], []), TakeSecond(0), InSecond(dg, Unread))
    ensures && Leads(cfg, log, InSecond(dg, Unread), Receivers.Check(0), InSecond(dg, Checked(log[e].counter)))
            && Leads(cfg, log, InSecond(dg, Checked(log[e].counter)), OpenHit(0, e), InSecond(dg, Opened(log[e].counter, log[e].framed)))
            && Leads(cfg, log, InSecond(dg, Opened(log[e].counter, log[e].framed)), Commit(0), AfterOlder(log[e]))
    ensures AgeOk(AfterOlder(log[e]).installs, 0, AfterOlder(log[e]).delivered[0].read)
            && AfterOlder(log[e]).installs[3 - 3] == AfterOlder(log[e]).delivered[0].session
  {
    TwoInstalls(cfg, log);
    ReadsOlder(cfg, log, dg);
    OlderChecks(cfg, log, log[e], dg);
    OlderOpens(cfg, log, e, dg);
    OlderCommits(cfg, log, log[e], dg);
  }

  function InSecond(dg: bytes, phase: Receivers.Phase): Receiver {
    Halfway2(THREE_EMPTY, THREE_NEW, map[0 := Trying(dg, 0, true, Read(3, true), phase)], [])
  }

  function AfterOlder(x: Seal): Receiver {
    Halfway2(THREE_EMPTY[0 := EMPTY.Commit(x.counter)], THREE_NEW[0 := [x.counter]], map[],
             [Delivery(0, x.counter, x.packet.frameType, x.packet.payload, Read(3, true))])
  }

  lemma TwoInstalls(cfg: Config, log: seq<Seal>)
    requires cfg.Valid()
    ensures var one := Installed1(map[]);
            && Leads(cfg, log, LISTENING, BeginInstall(5, 1), one.(previous := None, previousBy := 0, halfway := map[5 := 1]))
            && Leads(cfg, log, one.(previous := None, previousBy := 0, halfway := map[5 := 1]), FinishInstall(5), one)
            && Leads(cfg, log, one, BeginInstall(5, 2), Halfway2(THREE_EMPTY, THREE_NEW, map[], []))
  {}

  lemma ReadsOlder(cfg: Config, log: seq<Seal>, dg: bytes)
    requires cfg.Valid()
    requires Unmasked(cfg.mac, cfg.keys(2).txObf, dg).None?
             || Unmasked(cfg.mac, cfg.keys(2).txObf, dg).value.sessionId != cfg.keys(2).id
    ensures var first := map[0 := Trying(dg, 2, false, Read(3, true), Unread)];
            && Leads(cfg, log, Halfway2(THREE_EMPTY, THREE_NEW, map[], []), Take(0, dg), Halfway2(THREE_EMPTY, THREE_NEW, first, []))
            && Leads(cfg, log, Halfway2(THREE_EMPTY, THREE_NEW, first, []), Receivers.Check(0),
                     Halfway2(THREE_EMPTY, THREE_NEW, map[0 := BetweenTrials(dg)], []))
            && Leads(cfg, log, Halfway2(THREE_EMPTY, THREE_NEW, map[0 := BetweenTrials(dg)], []), TakeSecond(0), InSecond(dg, Unread))
  {
    assert Halfway2(THREE_EMPTY, THREE_NEW, map[], []).Now() == Read(3, true) by {
      assert 5 in Halfway2(THREE_EMPTY, THREE_NEW, map[], []).halfway;
    }
  }

  lemma OlderChecks(cfg: Config, log: seq<Seal>, x: Seal, dg: bytes)
    requires cfg.Valid() && x.session == 0 && Carries(cfg, x, dg)
    ensures Leads(cfg, log, InSecond(dg, Unread), Receivers.Check(0), InSecond(dg, Checked(x.counter)))
  {
    assert CheckOutcome(cfg, InSecond(dg, Unread), 0) == Some(x.counter);
  }

  lemma OlderOpens(cfg: Config, log: seq<Seal>, e: nat, dg: bytes)
    requires cfg.Valid() && e < |log| && log[e].session == 0 && |dg| >= HP_HEADER_LEN
    requires OpensAs(cfg, log, e, 0, log[e].counter, CtSlice(dg))
    ensures Leads(cfg, log, InSecond(dg, Checked(log[e].counter)), OpenHit(0, e), InSecond(dg, Opened(log[e].counter, log[e].framed)))
  {}

  lemma OlderCommits(cfg: Config, log: seq<Seal>, x: Seal, dg: bytes)
    requires cfg.Valid() && x.session == 0 && Parsed(x.framed) == Ok((x.packet.frameType, x.packet.payload))
    ensures Leads(cfg, log, InSecond(dg, Opened(x.counter, x.framed)), Commit(0), AfterOlder(x))
  {
    var r := InSecond(dg, Opened(x.counter, x.framed));
    assert r.workers - {0} == map[];
    assert [] + [x.counter] == [x.counter];
  }
}
