/** Sender, network and receiver together, over whole runs. */
module DataPlane {
  import opened Words
  import opened Bytes
  import opened Results
  import opened ReplayWindows
  import opened Sessions
  import opened Senders
  import opened Receivers

  datatype System = System(sender: Sender, receiver: Receiver)

  datatype Event = Sends(step: Senders.Step) | Receives(move: Move)

  ghost predicate Occurs(cfg: Config, s: System, event: Event, t: System)
    requires cfg.Valid()
  {
    match event
    case Sends(step) =>
      Enabled(s.sender, step) && t == System(Apply(cfg, s.sender, step), s.receiver)
    case Receives(move) =>
      Possible(cfg, s.sender.log, s.receiver, move) && t == System(s.sender, Do(cfg, s.sender.log, s.receiver, move))
  }

  ghost predicate Next(cfg: Config, s: System, t: System)
    requires cfg.Valid()
  {
    exists event :: Occurs(cfg, s, event, t)
  }

  ghost predicate IsRun(cfg: Config, run: seq<System>)
    requires cfg.Valid()
  {
    && run != [] && run[0] == System(INITIAL, LISTENING)
    && forall i | 0 <= i < |run| - 1 :: Next(cfg, run[i], run[i + 1])
  }

  function Last(run: seq<System>): System
    requires run != []
  {
    run[|run| - 1]
  }

  ghost predicate SysInv(cfg: Config, s: System)
    requires cfg.Valid()
  {
    Inv(cfg, s.sender) && RInv(s.sender.log, s.receiver)
  }

  lemma SenderLogIsSound(cfg: Config, s: Sender)
    requires cfg.Valid() && Inv(cfg, s)
    ensures LogSound(cfg, s.log)
  {
    forall k | 0 <= k < |s.log|
      ensures var keys := cfg.keys(s.log[k].session);
              && s.log[k].nonce == Nonce(keys.algo, keys.txSalt, s.log[k].counter)
              && Parsed(s.log[k].framed) == Ok((s.log[k].packet.frameType, s.log[k].packet.payload))
    {
      assert SealOk(cfg, s.batches, s.log[k]);
    }
  }

  lemma LogGrows(cfg: Config, s: Sender, step: Senders.Step)
    requires cfg.Valid() && Enabled(s, step)
    ensures s.log <= Apply(cfg, s, step).log
  {}

  lemma NextKeepsInv(cfg: Config, s: System, t: System)
    requires cfg.Valid() && Next(cfg, s, t) && NoWrap(t.sender)
    ensures NoWrap(s.sender)
    ensures SysInv(cfg, s) ==> SysInv(cfg, t)
  {
    var event :| Occurs(cfg, s, event, t);
    match event
    case Sends(step) =>
      StepKeepsNoWrap(cfg, s.sender, step);
      if SysInv(cfg, s) {
        StepKeepsInv(cfg, s.sender, step);
        LogGrows(cfg, s.sender, step);
        LongerLogKeepsRInv(s.sender.log, t.sender.log[|s.sender.log|..], s.receiver);
        assert s.sender.log + t.sender.log[|s.sender.log|..] == t.sender.log;
      }
    case Receives(move) =>
      if SysInv(cfg, s) {
        SenderLogIsSound(cfg, s.sender);
        MoveKeepsRInv(cfg, s.sender.log, s.receiver, move);
      }
  }

  /** Every state of every run in which no session is asked for 2^64 counters. */
  lemma {:induction false} RunKeepsInv(cfg: Config, run: seq<System>)
    requires cfg.Valid() && IsRun(cfg, run) && NoWrap(Last(run).sender)
    ensures SysInv(cfg, Last(run))
  {
    if |run| > 1 {
      var before := run[..|run| - 1];
      assert Next(cfg, run[|run| - 2], run[|run| - 2 + 1]);
      NextKeepsInv(cfg, Last(before), Last(run));
      RunKeepsInv(cfg, before);
    }
  }

  // ── Main results ──

  /** Every delivery is the type and payload of one seal of the peer, and no seal is
      delivered twice: whatever the network does, however the workers interleave. */
  lemma DeliveredAtMostOnce(cfg: Config, run: seq<System>)
    requires cfg.Valid() && IsRun(cfg, run) && NoWrap(Last(run).sender)
    ensures var log, delivered := Last(run).sender.log, Last(run).receiver.delivered;
            && (forall i | 0 <= i < |delivered| :: CameFrom(log, delivered[i]))
            && (forall i, j, k | 0 <= i < j < |delivered| && Came(log, delivered[i], k) :: !Came(log, delivered[j], k))
            && (forall i, k, l | 0 <= i < |delivered| && Came(log, delivered[i], k) && Came(log, delivered[i], l) :: k == l)
  {
    RunKeepsInv(cfg, run);
    var s, log := Last(run), Last(run).sender.log;
    var delivered := s.receiver.delivered;
    forall i, k, l | 0 <= i < |delivered| && Came(log, delivered[i], k) && Came(log, delivered[i], l)
      ensures k == l
    {
      if k < l { NoNonceTwice(cfg, s.sender, k, l); }
      if l < k { NoNonceTwice(cfg, s.sender, l, k); }
    }
  }

  /** No session key meets the same nonce twice, every counter lies under the limit, and
      every batch is sealed under the session it was reserved on. */
  lemma CountersNeverReused(cfg: Config, run: seq<System>)
    requires cfg.Valid() && IsRun(cfg, run) && NoWrap(Last(run).sender)
    ensures var s := Last(run).sender;
            && (forall k, l | 0 <= k < l < |s.log| && s.log[k].session == s.log[l].session ::
                  s.log[k].counter != s.log[l].counter && s.log[k].nonce != s.log[l].nonce)
            && (forall k | 0 <= k < |s.log| ::
                  s.log[k].counter < cfg.rekeyAt && s.log[k].batch < |s.batches|
                  && s.log[k].session == s.batches[s.log[k].batch].session)
            && (forall i, j | 0 <= i < j < |s.batches| && s.batches[i].session == s.batches[j].session ::
                  s.batches[i].first + |s.batches[i].packets| <= s.batches[j].first)
  {
    RunKeepsInv(cfg, run);
    var s := Last(run).sender;
    forall k, l | 0 <= k < l < |s.log| && s.log[k].session == s.log[l].session
      ensures s.log[k].counter != s.log[l].counter && s.log[k].nonce != s.log[l].nonce
    {
      NoNonceTwice(cfg, s, k, l);
    }
    forall k | 0 <= k < |s.log|
      ensures s.log[k].counter < cfg.rekeyAt && s.log[k].batch < |s.batches|
      ensures s.log[k].session == s.batches[s.log[k].batch].session
    {
      SealsUnderLimit(cfg, s, k);
    }
  }

  /** In any run, once a session has refused a reservation it refuses all of them. */
  lemma RefusedForGood(cfg: Config, run: seq<System>, session: nat, n: u64)
    requires cfg.Valid() && IsRun(cfg, run) && NoWrap(Last(run).sender)
    requires session in Last(run).sender.refused
    ensures session in Last(run).sender.counters
    ensures Reserve(Last(run).sender.counters[session], n, cfg.rekeyAt).1 == Err(RekeyRequired)
  {
    RunKeepsInv(cfg, run);
    RefusalIsFinal(cfg, Last(run).sender, session, n);
  }

  /** Between two states of a run a window changes only by the commit of a counter that
      the peer sealed for that session and that was never committed before. */
  lemma OnlyOpenedDatagramsMoveWindows(cfg: Config, run: seq<System>, i: nat, session: nat)
    requires cfg.Valid() && IsRun(cfg, run) && i < |run| - 1 && NoWrap(run[i].sender)
    requires session in run[i].receiver.windows && session in run[i + 1].receiver.windows
    requires run[i + 1].receiver.windows[session] != run[i].receiver.windows[session]
    ensures CommitsSealedCounter(run[i], run[i + 1], session)
  {
    assert Next(cfg, run[i], run[i + 1]);
    assert Last(run[..i + 1]) == run[i];
    RunKeepsInv(cfg, run[..i + 1]);
    StepTouchesWindow(cfg, run[i], run[i + 1], session);
  }

  lemma StepTouchesWindow(cfg: Config, s: System, t: System, session: nat)
    requires cfg.Valid() && Next(cfg, s, t) && SysInv(cfg, s)
    requires session in s.receiver.windows && session in t.receiver.windows
    requires t.receiver.windows[session] != s.receiver.windows[session]
    ensures CommitsSealedCounter(s, t, session)
  {
    var event :| Occurs(cfg, s, event, t);
    OnlySealedCountersTouchWindows(cfg, s.sender.log, s.receiver, event.move, session);
    CommittedEntry(s, t, event.move.worker, session);
  }

  lemma CommittedEntry(s: System, t: System, worker: nat, session: nat)
    requires CommitsSealed(s.sender.log, s.receiver, t.receiver, worker, session)
    ensures CommitsSealedCounter(s, t, session)
  {
    var log, r := s.sender.log, s.receiver;
    var c, f := r.workers[worker].phase.at, r.workers[worker].phase.framed;
    var k :| 0 <= k < |log| && log[k].session == session && log[k].counter == c && log[k].framed == f;
    assert CommitsEntry(s, t, session, k);
  }

  ghost predicate CommitsSealedCounter(s: System, t: System, session: nat) {
    exists k: nat :: CommitsEntry(s, t, session, k)
  }

  ghost predicate CommitsEntry(s: System, t: System, session: nat, k: nat) {
    && k < |s.sender.log| && s.sender.log[k].session == session
    && session in s.receiver.history && session in t.receiver.history
    && s.sender.log[k].counter !in s.receiver.history[session]
    && t.receiver.history[session] == s.receiver.history[session] + [s.sender.log[k].counter]
  }

  // ── Which sessions can deliver ──

  predicate IsReplaced(installs: seq<nat>, previous: Option<nat>) {
    previous == None || (|installs| >= 2 && previous == Some(installs[|installs| - 2]))
  }

  ghost predicate PreviousRight(r: Receiver) {
    IsReplaced(r.installs, r.previous)
  }

  /** The open installations are all of the current session; with none open, `previous`
      is empty or what `current` replaced. */
  ghost predicate OnlyCurrentOpen(r: Receiver) {
    SlotsSettle(r.installs, r.previous, r.halfway)
  }

  ghost predicate SlotsSettle(installs: seq<nat>, previous: Option<nat>, halfway: map<nat, nat>) {
    if halfway == map[] then IsReplaced(installs, previous)
    else forall k | k in halfway :: halfway[k] == |installs| - 1
  }

  /** From here on no further installation begins; anything else may happen. */
  ghost predicate Continues(cfg: Config, run: seq<System>)
    requires cfg.Valid()
  {
    run != [] && forall i | 0 <= i < |run| - 1 :: Onward(cfg, run[i], run[i + 1])
  }

  ghost predicate Onward(cfg: Config, s: System, t: System)
    requires cfg.Valid()
  {
    Next(cfg, s, t) && t.receiver.installs == s.receiver.installs
  }

  /** Whenever the open installations are done, in whatever order, `previous` is right. */
  ghost predicate Settles(cfg: Config, s: System)
    requires cfg.Valid()
  {
    forall run | Continues(cfg, run) && run[0] == s && Last(run).receiver.halfway == map[] :: PreviousRight(Last(run).receiver)
  }

  ghost predicate Installed(r: Receiver) {
    InstallsOk(r.installs, r.previous, r.previousBy, r.halfway, r.windows.Keys)
  }

  lemma NextKeepsInstalled(cfg: Config, s: System, t: System)
    requires cfg.Valid() && Installed(s.receiver) && Next(cfg, s, t)
    ensures Installed(t.receiver)
  {
    var event :| Occurs(cfg, s, event, t);
    match event
    case Sends(_) =>
    case Receives(move) => MoveKeepsInstalled(cfg, s.sender.log, s.receiver, move);
  }

  lemma BeginKeepsInstalled(cfg: Config, log: seq<Seal>, r: Receiver, installer: nat, session: nat)
    requires cfg.Valid() && Installed(r) && Possible(cfg, log, r, BeginInstall(installer, session))
    ensures Installed(Do(cfg, log, r, BeginInstall(installer, session)))
  {
    assert r.windows[session := EMPTY].Keys == r.windows.Keys + {session};
  }

  lemma FinishKeepsInstalled(cfg: Config, log: seq<Seal>, r: Receiver, installer: nat)
    requires cfg.Valid() && Installed(r) && Possible(cfg, log, r, FinishInstall(installer))
    ensures Installed(Do(cfg, log, r, FinishInstall(installer)))
  {}

  lemma OtherMovesKeepInstalled(cfg: Config, log: seq<Seal>, r: Receiver, move: Move)
    requires cfg.Valid() && Possible(cfg, log, r, move)
    requires !move.BeginInstall? && !move.FinishInstall? && !move.Retire?
    ensures Do(cfg, log, r, move).windows.Keys == r.windows.Keys && Do(cfg, log, r, move).previousBy == r.previousBy
  {}

  lemma MoveKeepsInstalled(cfg: Config, log: seq<Seal>, r: Receiver, move: Move)
    requires cfg.Valid() && Installed(r) && Possible(cfg, log, r, move)
    ensures Installed(Do(cfg, log, r, move))
  {
    match move
    case BeginInstall(installer, session) => BeginKeepsInstalled(cfg, log, r, installer, session);
    case FinishInstall(installer) => FinishKeepsInstalled(cfg, log, r, installer);
    case Retire =>
    case _ =>
      OtherMovesKeepInstalled(cfg, log, r, move);
      OtherMovesKeepSlots(cfg, log, r, move);
  }

  lemma {:induction false} RunKeepsInstalled(cfg: Config, run: seq<System>)
    requires cfg.Valid() && IsRun(cfg, run)
    ensures Installed(Last(run).receiver)
  {
    if |run| > 1 {
      var n := |run| - 2;
      assert Next(cfg, run[n], run[n + 1]);
      RunKeepsInstalled(cfg, run[..n + 1]);
      NextKeepsInstalled(cfg, run[n], run[n + 1]);
    }
  }

  lemma OtherMovesKeepSlots(cfg: Config, log: seq<Seal>, r: Receiver, move: Move)
    requires cfg.Valid() && Possible(cfg, log, r, move)
    requires !move.BeginInstall? && !move.FinishInstall? && !move.Retire?
    ensures var t := Do(cfg, log, r, move);
            t.installs == r.installs && t.previous == r.previous && t.halfway == r.halfway
  {}

  lemma MoveKeepsOnlyCurrentOpen(cfg: Config, log: seq<Seal>, r: Receiver, move: Move)
    requires cfg.Valid() && Possible(cfg, log, r, move) && OnlyCurrentOpen(r)
    requires Do(cfg, log, r, move).installs == r.installs
    ensures OnlyCurrentOpen(Do(cfg, log, r, move))
  {
    if !move.BeginInstall? && !move.FinishInstall? && !move.Retire? {
      OtherMovesKeepSlots(cfg, log, r, move);
    }
  }

  lemma NextKeepsOnlyCurrentOpen(cfg: Config, s: System, t: System)
    requires cfg.Valid() && OnlyCurrentOpen(s.receiver) && Onward(cfg, s, t)
    ensures OnlyCurrentOpen(t.receiver)
  {
    var event :| Occurs(cfg, s, event, t);
    if event.Receives? { MoveKeepsOnlyCurrentOpen(cfg, s.sender.log, s.receiver, event.move); }
  }

  lemma {:induction false} OnlyCurrentOpenSettles(cfg: Config, run: seq<System>)
    requires cfg.Valid() && Continues(cfg, run) && OnlyCurrentOpen(run[0].receiver)
    ensures OnlyCurrentOpen(Last(run).receiver)
  {
    if |run| > 1 {
      var n := |run| - 2;
      OnlyCurrentOpenSettles(cfg, run[..n + 1]);
      assert Onward(cfg, run[n], run[n + 1]);
      NextKeepsOnlyCurrentOpen(cfg, run[n], run[n + 1]);
    }
  }

  /** One open installation can always be the last to finish. */
  lemma {:induction false} FinishLast(cfg: Config, s: System, k: nat) returns (run: seq<System>)
    requires cfg.Valid() && Installed(s.receiver) && k in s.receiver.halfway
    ensures Continues(cfg, run) && run[0] == s && Last(run).receiver.halfway == map[]
    ensures Last(run).receiver.installs == s.receiver.installs
    ensures Last(run).receiver.previous == Some(s.receiver.installs[s.receiver.halfway[k] - 1])
    decreases |s.receiver.halfway|
  {
    var l := if l :| l in s.receiver.halfway && l != k then l else k;
    var t := FinishOne(cfg, s, l);
    if l == k {
      run := [s, t];
    } else {
      assert |t.receiver.halfway.Keys| < |s.receiver.halfway.Keys|;
      var rest := FinishLast(cfg, t, k);
      run := [s] + rest;
      ContinuesFrom(cfg, s, rest);
    }
  }

  lemma FinishOne(cfg: Config, s: System, l: nat) returns (t: System)
    requires cfg.Valid() && Installed(s.receiver) && l in s.receiver.halfway
    ensures Onward(cfg, s, t) && Installed(t.receiver)
    ensures t.receiver.halfway == s.receiver.halfway - {l} && t.receiver.halfway.Keys == s.receiver.halfway.Keys - {l}
    ensures t.receiver.previous == Some(s.receiver.installs[s.receiver.halfway[l] - 1])
  {
    t := System(s.sender, Do(cfg, s.sender.log, s.receiver, FinishInstall(l)));
    FinishKeepsInstalled(cfg, s.sender.log, s.receiver, l);
    assert Occurs(cfg, s, Receives(FinishInstall(l)), t);
  }

  lemma ContinuesFrom(cfg: Config, s: System, rest: seq<System>)
    requires cfg.Valid() && Continues(cfg, rest) && Onward(cfg, s, rest[0])
    ensures Continues(cfg, [s] + rest)
  {
    var run := [s] + rest;
    forall i | 0 <= i < |run| - 1 ensures Onward(cfg, run[i], run[i + 1]) {
      if i > 0 { assert run[i] == rest[i - 1] && run[i + 1] == rest[i - 1 + 1]; }
    }
  }

  /** In every reachable state: however the open installations finish, `previous` ends up
      empty or what `current` replaced, exactly when all that are open are of the current
      session, or none is and `previous` is right already. */
  lemma PreviousIsReplacedIff(cfg: Config, run: seq<System>)
    requires cfg.Valid() && IsRun(cfg, run)
    ensures Settles(cfg, Last(run)) <==> OnlyCurrentOpen(Last(run).receiver)
  {
    RunKeepsInstalled(cfg, run);
    var s := Last(run);
    var r := s.receiver;
    if OnlyCurrentOpen(r) {
      forall more | Continues(cfg, more) && more[0] == s && Last(more).receiver.halfway == map[] ensures PreviousRight(Last(more).receiver) {
        OnlyCurrentOpenSettles(cfg, more);
      }
    } else if r.halfway == map[] {
      assert Continues(cfg, [s]) && Last([s]) == s;
    } else {
      var k :| k in r.halfway && r.halfway[k] != |r.installs| - 1;
      var more := FinishLast(cfg, s, k);
      assert !PreviousRight(Last(more).receiver);
    }
  }

  /** What a caller can check before installing: the state after the first write settles
      exactly when no other installation was between its two writes. */
  lemma InstallIsSafeIff(cfg: Config, run: seq<System>, installer: nat, session: nat)
    requires cfg.Valid() && IsRun(cfg, run)
    requires Possible(cfg, Last(run).sender.log, Last(run).receiver, BeginInstall(installer, session))
    ensures var s := Last(run);
            Settles(cfg, System(s.sender, Do(cfg, s.sender.log, s.receiver, BeginInstall(installer, session))))
            <==> s.receiver.halfway == map[]
  {
    var s := Last(run);
    var t := System(s.sender, Do(cfg, s.sender.log, s.receiver, BeginInstall(installer, session)));
    RunKeepsInstalled(cfg, run);
    assert Occurs(cfg, s, Receives(BeginInstall(installer, session)), t);
    RunGoesOn(cfg, run, t);
    PreviousIsReplacedIff(cfg, run + [t]);
    assert installer in t.receiver.halfway;
    if s.receiver.halfway != map[] {
      var k :| k in s.receiver.halfway;
      assert t.receiver.halfway[k] == s.receiver.halfway[k] < |s.receiver.installs|;
    }
  }

  lemma RunGoesOn(cfg: Config, run: seq<System>, t: System)
    requires cfg.Valid() && IsRun(cfg, run) && Next(cfg, Last(run), t)
    ensures IsRun(cfg, run + [t])
  {
    var more := run + [t];
    forall i | 0 <= i < |more| - 1 ensures Next(cfg, more[i], more[i + 1]) {
      if i < |run| - 1 { assert more[i] == run[i] && more[i + 1] == run[i + 1]; }
    }
  }

  /** Two installations whose writes interleave leave an older session as `previous`. */
  lemma OverlapMisplacesPrevious(cfg: Config, log: seq<Seal>)
    requires cfg.Valid()
    ensures var a := BeginInstall(0, 1);
            var b := BeginInstall(1, 2);
            Possible(cfg, log, LISTENING, a) &&
            var r1 := Do(cfg, log, LISTENING, a);
            Possible(cfg, log, r1, b) &&
            var r2 := Do(cfg, log, r1, b);
            Possible(cfg, log, r2, FinishInstall(1)) &&
            var r3 := Do(cfg, log, r2, FinishInstall(1));
            Possible(cfg, log, r3, FinishInstall(0)) &&
            var r4 := Do(cfg, log, r3, FinishInstall(0));
            r4.halfway == map[] && r4.installs == [0, 1, 2] && r4.previous == Some(0)
  {}

  /** No installation begins while another is between its two writes. */
  ghost predicate OneAtATime(run: seq<System>) {
    forall i | 0 <= i < |run| - 1 && run[i].receiver.halfway != map[] ::
      run[i + 1].receiver.installs == run[i].receiver.installs
  }

  /** Installations that do not overlap leave `previous` empty or exactly one behind. */
  ghost predicate SlotsSerial(installs: seq<nat>, previous: Option<nat>, previousBy: nat, halfway: map<nat, nat>) {
    && installs != []
    && (forall k | k in halfway :: halfway[k] == |installs| - 1 && |installs| >= 2)
    && (forall k, l | k in halfway && l in halfway :: k == l)
    && (previous.Some? ==>
          previousBy == |installs| - (if halfway == map[] then 1 else 2)
          && 0 < previousBy < |installs| && previous.value == installs[previousBy - 1])
  }

  ghost predicate WorkersRecent(installs: seq<nat>, workers: map<nat, Worker>) {
    forall w | w in workers && workers[w].Trying? :: AgeOk(installs, workers[w].session, workers[w].read)
  }

  ghost predicate DeliveredRecent(installs: seq<nat>, delivered: seq<Delivery>) {
    forall i | 0 <= i < |delivered| :: AgeOk(installs, delivered[i].session, delivered[i].read)
  }

  ghost predicate SerialOk(r: Receiver) {
    && SlotsSerial(r.installs, r.previous, r.previousBy, r.halfway)
    && WorkersRecent(r.installs, r.workers)
    && DeliveredRecent(r.installs, r.delivered)
  }

  /** The session was current when read, or the one before it; one further back only
      when it was read between the two writes of an installation. */
  ghost predicate AgeOk(installs: seq<nat>, session: nat, read: Read) {
    && 0 < read.installs <= |installs|
    && (|| session == installs[read.installs - 1]
        || (read.installs >= 2 && session == installs[read.installs - 2])
        || (read.halfway && read.installs >= 3 && session == installs[read.installs - 3]))
  }

  lemma BeginKeepsSerial(cfg: Config, log: seq<Seal>, r: Receiver, installer: nat, session: nat)
    requires cfg.Valid() && SerialOk(r) && Possible(cfg, log, r, BeginInstall(installer, session))
    requires r.halfway == map[]
    ensures SerialOk(Do(cfg, log, r, BeginInstall(installer, session)))
  {
    var t := Do(cfg, log, r, BeginInstall(installer, session));
    forall w | w in r.workers && r.workers[w].Trying? ensures AgeOk(t.installs, r.workers[w].session, r.workers[w].read) {
      assert AgeOk(r.installs, r.workers[w].session, r.workers[w].read);
    }
    forall i | 0 <= i < |r.delivered| ensures AgeOk(t.installs, r.delivered[i].session, r.delivered[i].read) {
      assert AgeOk(r.installs, r.delivered[i].session, r.delivered[i].read);
    }
  }

  lemma FinishKeepsSerial(cfg: Config, log: seq<Seal>, r: Receiver, installer: nat)
    requires cfg.Valid() && SerialOk(r) && Possible(cfg, log, r, FinishInstall(installer))
    ensures SerialOk(Do(cfg, log, r, FinishInstall(installer)))
  {
    assert r.halfway - {installer} == map[];
  }

  lemma TakeKeepsSerial(cfg: Config, log: seq<Seal>, r: Receiver, worker: nat, datagram: bytes)
    requires cfg.Valid() && SerialOk(r) && Possible(cfg, log, r, Take(worker, datagram))
    ensures SerialOk(Do(cfg, log, r, Take(worker, datagram)))
  {}

  lemma TakeSecondKeepsSerial(cfg: Config, log: seq<Seal>, r: Receiver, worker: nat)
    requires cfg.Valid() && SerialOk(r) && Possible(cfg, log, r, TakeSecond(worker))
    ensures SerialOk(Do(cfg, log, r, TakeSecond(worker)))
  {}

  lemma CommitKeepsSerial(cfg: Config, log: seq<Seal>, r: Receiver, worker: nat)
    requires cfg.Valid() && SerialOk(r) && Possible(cfg, log, r, Commit(worker))
    ensures SerialOk(Do(cfg, log, r, Commit(worker)))
  {
    assert AgeOk(r.installs, r.workers[worker].session, r.workers[worker].read);
  }

  /** A check or an opening leaves a worker its session and its reading. */
  lemma TrialKeepsSerial(cfg: Config, log: seq<Seal>, r: Receiver, move: Move)
    requires cfg.Valid() && SerialOk(r) && Possible(cfg, log, r, move)
    requires move.Check? || move.OpenHit? || move.OpenMiss?
    ensures SerialOk(Do(cfg, log, r, move))
  {
    assert AgeOk(r.installs, r.workers[move.worker].session, r.workers[move.worker].read);
  }

  lemma MoveKeepsSerial(cfg: Config, log: seq<Seal>, r: Receiver, move: Move)
    requires cfg.Valid() && SerialOk(r) && Possible(cfg, log, r, move)
    requires move.BeginInstall? ==> r.halfway == map[]
    ensures SerialOk(Do(cfg, log, r, move))
  {
    match move
    case BeginInstall(installer, session) => BeginKeepsSerial(cfg, log, r, installer, session);
    case FinishInstall(installer) => FinishKeepsSerial(cfg, log, r, installer);
    case Retire =>
    case Take(worker, datagram) => TakeKeepsSerial(cfg, log, r, worker, datagram);
    case TakeSecond(worker) => TakeSecondKeepsSerial(cfg, log, r, worker);
    case Commit(worker) => CommitKeepsSerial(cfg, log, r, worker);
    case _ => TrialKeepsSerial(cfg, log, r, move);
  }

  lemma BeginMakesCurrent(cfg: Config, log: seq<Seal>, r: Receiver, move: Move)
    requires cfg.Valid() && Possible(cfg, log, r, move) && move.BeginInstall?
    ensures Do(cfg, log, r, move).installs != r.installs
  {}

  lemma NextKeepsSerial(cfg: Config, s: System, t: System)
    requires cfg.Valid() && Next(cfg, s, t) && SerialOk(s.receiver)
    requires s.receiver.halfway != map[] ==> t.receiver.installs == s.receiver.installs
    ensures SerialOk(t.receiver)
  {
    var event :| Occurs(cfg, s, event, t);
    if event.Receives? {
      if event.move.BeginInstall? { BeginMakesCurrent(cfg, s.sender.log, s.receiver, event.move); }
      MoveKeepsSerial(cfg, s.sender.log, s.receiver, event.move);
    }
  }

  lemma {:induction false} SerialRun(cfg: Config, run: seq<System>)
    requires cfg.Valid() && IsRun(cfg, run) && OneAtATime(run)
    ensures SerialOk(Last(run).receiver)
  {
    if |run| > 1 {
      var n := |run| - 2;
      assert Next(cfg, run[n], run[n + 1]);
      SerialRun(cfg, run[..n + 1]);
      assert run[n].receiver.halfway != map[] ==> run[n + 1].receiver.installs == run[n].receiver.installs;
      NextKeepsSerial(cfg, run[n], run[n + 1]);
    }
  }

  /** With installations one at a time: whenever none is halfway, `previous` is empty or
      the session `current` replaced; and nothing is ever delivered from a session older
      than that, except one reached between the two writes of an installation. */
  lemma OnlyCurrentAndPreviousDeliver(cfg: Config, run: seq<System>)
    requires cfg.Valid() && IsRun(cfg, run) && OneAtATime(run)
    ensures var r := Last(run).receiver;
            && (r.halfway == map[] && r.previous.Some? ==>
                  |r.installs| >= 2 && r.previous.value == r.installs[|r.installs| - 2])
            && DeliveredRecent(r.installs, r.delivered)
  {
    SerialRun(cfg, run);
  }
}
