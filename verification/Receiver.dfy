/** The receiving side as a step system. Any number of workers open datagrams at the
    same time; each check, open and re-check-plus-commit is a step of its own, so is
    each of the two reads of the manager, and so is each of the two writes of an
    installation. The network hands a worker any bytes it likes. */
module Receivers {
  import opened Words
  import opened Bytes
  import opened Results
  import opened ReplayWindows
  import opened Obf
  import opened Sessions
  import opened Senders

  datatype Phase = Unread | Checked(counter: u64) | Opened(at: u64, framed: bytes)

  /** When a worker read its session: after how many installations, and whether one
      of them still had its second write to do. */
  datatype Read = Read(installs: nat, halfway: bool)

  datatype Worker =
    | Trying(datagram: bytes, session: nat, second: bool, read: Read, phase: Phase)
    | BetweenTrials(waiting: bytes)

  datatype Delivery = Delivery(session: nat, counter: u64, frameType: FrameType, payload: bytes, read: Read)

  datatype Receiver = Receiver(
    installs: seq<nat>,                 // the sessions in the order they became current
    previous: Option<nat>,
    previousBy: nat,                    // position of the installation that wrote `previous`
    halfway: map<nat, nat>,             // installers between their two writes -> position
    windows: map<nat, Window>,
    history: map<nat, seq<u64>>,        // every commit, in order
    workers: map<nat, Worker>,
    delivered: seq<Delivery>)
  {
    function Current(): nat
      requires installs != []
    {
      installs[|installs| - 1]
    }

    function Now(): Read {
      Read(|installs|, halfway != map[])
    }
  }

  const LISTENING := Receiver([0], None, 0, map[], map[0 := EMPTY], map[0 := []], map[], [])

  datatype Move =
    | BeginInstall(installer: nat, session: nat)
    | FinishInstall(installer: nat)
    | Retire
    | Take(worker: nat, datagram: bytes)
    | Check(worker: nat)
    | OpenHit(worker: nat, entry: nat)
    | OpenMiss(worker: nat)
    | Commit(worker: nat)
    | TakeSecond(worker: nat)

  /** The ideal AEAD: a ciphertext opens under a key, nonce and associated data exactly
      when it is in the log of what was sealed under them. */
  ghost predicate OpensAs(cfg: Config, log: seq<Seal>, entry: nat, session: nat, counter: u64, ct: bytes)
    requires cfg.Valid()
  {
    var keys := cfg.keys(session);
    && entry < |log| && log[entry].session == session
    && log[entry].nonce == Nonce(keys.algo, keys.txSalt, counter)
    && log[entry].aad == Header(keys.id, counter)
    && log[entry].ct == ct
  }

  ghost predicate IsTrying(r: Receiver, worker: nat) {
    worker in r.workers && r.workers[worker].Trying? && r.workers[worker].session in r.windows
    && r.workers[worker].session in r.history
  }

  ghost predicate IsChecked(r: Receiver, worker: nat) {
    IsTrying(r, worker) && r.workers[worker].phase.Checked? && |r.workers[worker].datagram| >= HP_HEADER_LEN
  }

  ghost predicate Possible(cfg: Config, log: seq<Seal>, r: Receiver, move: Move)
    requires cfg.Valid()
  {
    match move
    case BeginInstall(installer, session) =>
      installer !in r.halfway && session !in r.windows && session !in r.history && session !in r.installs
    case FinishInstall(installer) =>
      installer in r.halfway && 0 < r.halfway[installer] < |r.installs|
    case Retire => true
    case Take(worker, datagram) => worker !in r.workers && r.installs != []
    case Check(worker) => IsTrying(r, worker) && r.workers[worker].phase.Unread?
    case OpenHit(worker, entry) =>
      IsChecked(r, worker)
      && OpensAs(cfg, log, entry, r.workers[worker].session, r.workers[worker].phase.counter, CtSlice(r.workers[worker].datagram))
    case OpenMiss(worker) =>
      IsChecked(r, worker)
      && forall entry: nat ::
           !OpensAs(cfg, log, entry, r.workers[worker].session, r.workers[worker].phase.counter, CtSlice(r.workers[worker].datagram))
    case Commit(worker) => IsTrying(r, worker) && r.workers[worker].phase.Opened?
    case TakeSecond(worker) => worker in r.workers && r.workers[worker].BetweenTrials?
  }

  /** "Not for this session": on to the second trial, or drop the datagram. */
  ghost function Missed(r: Receiver, worker: nat): Receiver
    requires worker in r.workers && r.workers[worker].Trying?
  {
    var w := r.workers[worker];
    if w.second then r.(workers := r.workers - {worker})
    else r.(workers := r.workers[worker := BetweenTrials(w.datagram)])
  }

  /** Unmask, compare the session id, and ask the window. */
  ghost function CheckOutcome(cfg: Config, r: Receiver, worker: nat): Option<u64>
    requires cfg.Valid() && IsTrying(r, worker)
  {
    var w := r.workers[worker];
    match Unmasked(cfg.mac, cfg.keys(w.session).txObf, w.datagram)
    case None => None
    case Some(rec) =>
      if rec.sessionId != cfg.keys(w.session).id then None
      else if !r.windows[w.session].Accepts(rec.counter) then None
      else Some(rec.counter)
  }

  /** The commit after an accepted re-check; a frame that parses is delivered. */
  ghost function Committed(r: Receiver, worker: nat): Receiver
    requires IsTrying(r, worker) && r.workers[worker].phase.Opened?
  {
    var w := r.workers[worker];
    var counter := w.phase.at;
    var t := r.(windows := r.windows[w.session := r.windows[w.session].Commit(counter)],
                history := r.history[w.session := r.history[w.session] + [counter]],
                workers := r.workers - {worker});
    match Parsed(w.phase.framed)
    case Err(_) => t
    case Ok(frame) => t.(delivered := r.delivered + [Delivery(w.session, counter, frame.0, frame.1, w.read)])
  }

  ghost function Do(cfg: Config, log: seq<Seal>, r: Receiver, move: Move): Receiver
    requires cfg.Valid() && Possible(cfg, log, r, move)
  {
    match move
    case BeginInstall(installer, session) =>
      r.(installs := r.installs + [session], halfway := r.halfway[installer := |r.installs|],
         windows := r.windows[session := EMPTY], history := r.history[session := []])
    case FinishInstall(installer) =>
      var at := r.halfway[installer];
      r.(previous := Some(r.installs[at - 1]), previousBy := at, halfway := r.halfway - {installer})
    case Retire => r.(previous := None)
    case Take(worker, datagram) =>
      r.(workers := r.workers[worker := Trying(datagram, r.Current(), false, r.Now(), Unread)])
    case Check(worker) =>
      (match CheckOutcome(cfg, r, worker)
       case None => Missed(r, worker)
       case Some(counter) => r.(workers := r.workers[worker := r.workers[worker].(phase := Checked(counter))]))
    case OpenHit(worker, entry) =>
      var w := r.workers[worker];
      r.(workers := r.workers[worker := w.(phase := Opened(w.phase.counter, log[entry].framed))])
    case OpenMiss(worker) => Missed(r, worker)
    case Commit(worker) =>
      var w := r.workers[worker];
      if r.windows[w.session].Accepts(w.phase.at) then Committed(r, worker) else Missed(r, worker)
    case TakeSecond(worker) =>
      if r.previous.None? then r.(workers := r.workers - {worker})
      else r.(workers := r.workers[worker := Trying(r.workers[worker].waiting, r.previous.value, true, r.Now(), Unread)])
  }

  // ── Invariants ──

  /** The windows hold exactly what the commits say. */
  ghost predicate WindowsOk(windows: map<nat, Window>, history: map<nat, seq<u64>>) {
    && windows.Keys == history.Keys
    && (forall s | s in windows :: windows[s] == After(history[s]))
  }

  ghost predicate InstallsOk(installs: seq<nat>, previous: Option<nat>, previousBy: nat, halfway: map<nat, nat>, sessions: set<nat>) {
    && installs != []
    && (forall i, j | 0 <= i < j < |installs| :: installs[i] != installs[j])
    && (forall i | 0 <= i < |installs| :: installs[i] in sessions)
    && (forall k | k in halfway :: 0 < halfway[k] < |installs|)
    && (previous.Some? ==> 0 < previousBy < |installs| && previous.value == installs[previousBy - 1])
  }

  /** Some entry of the log was sealed for this session and counter and says `framed`. */
  ghost predicate Sealed(log: seq<Seal>, session: nat, counter: u64, framed: bytes) {
    exists k :: 0 <= k < |log| && log[k].session == session && log[k].counter == counter && log[k].framed == framed
  }

  ghost predicate WorkerOk(log: seq<Seal>, sessions: set<nat>, w: Worker) {
    match w
    case BetweenTrials(_) => true
    case Trying(datagram, session, _, _, phase) =>
      && session in sessions
      && (!phase.Unread? ==> |datagram| >= HP_HEADER_LEN)
      && (phase.Opened? ==> Sealed(log, session, phase.at, phase.framed))
  }

  ghost predicate WorkersOk(log: seq<Seal>, sessions: set<nat>, workers: map<nat, Worker>) {
    forall w | w in workers :: WorkerOk(log, sessions, workers[w])
  }

  ghost predicate Came(log: seq<Seal>, d: Delivery, k: nat) {
    && k < |log| && log[k].session == d.session && log[k].counter == d.counter
    && log[k].packet == Packet(d.frameType, d.payload)
  }

  ghost predicate CameFrom(log: seq<Seal>, d: Delivery) {
    exists k :: Came(log, d, k)
  }

  ghost predicate DeliveredOk(log: seq<Seal>, history: map<nat, seq<u64>>, delivered: seq<Delivery>) {
    && (forall i | 0 <= i < |delivered| ::
          delivered[i].session in history && delivered[i].counter in history[delivered[i].session])
    && (forall i | 0 <= i < |delivered| :: CameFrom(log, delivered[i]))
    && (forall i, j | 0 <= i < j < |delivered| ::
          (delivered[i].session, delivered[i].counter) != (delivered[j].session, delivered[j].counter))
  }

  ghost predicate RInv(log: seq<Seal>, r: Receiver) {
    && WindowsOk(r.windows, r.history)
    && InstallsOk(r.installs, r.previous, r.previousBy, r.halfway, r.windows.Keys)
    && WorkersOk(log, r.windows.Keys, r.workers)
    && DeliveredOk(log, r.history, r.delivered)
  }

  /** What the log of a sound sender guarantees about every entry. */
  ghost predicate LogSound(cfg: Config, log: seq<Seal>)
    requires cfg.Valid()
  {
    forall k | 0 <= k < |log| ::
      var keys := cfg.keys(log[k].session);
      && log[k].nonce == Nonce(keys.algo, keys.txSalt, log[k].counter)
      && Parsed(log[k].framed) == Ok((log[k].packet.frameType, log[k].packet.payload))
  }

  lemma OpenHitKeepsRInv(cfg: Config, log: seq<Seal>, r: Receiver, worker: nat, entry: nat)
    requires cfg.Valid() && LogSound(cfg, log) && RInv(log, r) && Possible(cfg, log, r, OpenHit(worker, entry))
    ensures RInv(log, Do(cfg, log, r, OpenHit(worker, entry)))
  {
    var w := r.workers[worker];
    var keys := cfg.keys(w.session);
    NonceInjective(keys.algo, keys.txSalt, log[entry].counter, w.phase.counter);
    assert Sealed(log, w.session, w.phase.counter, log[entry].framed);
  }

  lemma MissKeepsRInv(log: seq<Seal>, r: Receiver, worker: nat)
    requires RInv(log, r) && IsTrying(r, worker)
    ensures RInv(log, Missed(r, worker))
  {}

  /** A commit of a counter that was never committed, with the delivery it makes, if any. */
  lemma NewCommit(log: seq<Seal>, history: map<nat, seq<u64>>, delivered: seq<Delivery>, session: nat, counter: u64)
    requires DeliveredOk(log, history, delivered) && session in history
    ensures DeliveredOk(log, history[session := history[session] + [counter]], delivered)
  {}

  lemma NewDelivery(log: seq<Seal>, history: map<nat, seq<u64>>, delivered: seq<Delivery>, d: Delivery)
    requires DeliveredOk(log, history, delivered) && CameFrom(log, d)
    requires d.session in history && d.counter !in history[d.session]
    ensures DeliveredOk(log, history[d.session := history[d.session] + [d.counter]], delivered + [d])
  {
    NewCommit(log, history, delivered, d.session, d.counter);
    forall i | 0 <= i < |delivered| ensures (delivered[i].session, delivered[i].counter) != (d.session, d.counter) {
      assert delivered[i].session in history && delivered[i].counter in history[delivered[i].session];
    }
  }

  lemma CommitKeepsDeliveries(cfg: Config, log: seq<Seal>, r: Receiver, worker: nat)
    requires cfg.Valid() && LogSound(cfg, log)
    requires RInv(log, r) && IsTrying(r, worker) && r.workers[worker].phase.Opened?
    requires r.windows[r.workers[worker].session].Accepts(r.workers[worker].phase.at)
    ensures DeliveredOk(log, Committed(r, worker).history, Committed(r, worker).delivered)
  {
    var w := r.workers[worker];
    assert WorkerOk(log, r.windows.Keys, w);
    if w.phase.at in r.history[w.session] { NeverTwice(r.history[w.session], w.phase.at); }
    var k :| 0 <= k < |log| && log[k].session == w.session && log[k].counter == w.phase.at && log[k].framed == w.phase.framed;
    var d := Delivery(w.session, w.phase.at, log[k].packet.frameType, log[k].packet.payload, w.read);
    assert Came(log, d, k);
    NewDelivery(log, r.history, r.delivered, d);
  }

  lemma CommitKeepsRInv(cfg: Config, log: seq<Seal>, r: Receiver, worker: nat)
    requires cfg.Valid() && LogSound(cfg, log)
    requires RInv(log, r) && IsTrying(r, worker) && r.workers[worker].phase.Opened?
    requires r.windows[r.workers[worker].session].Accepts(r.workers[worker].phase.at)
    ensures RInv(log, Committed(r, worker))
  {
    CommitKeepsDeliveries(cfg, log, r, worker);
    AfterAppend(r.history[r.workers[worker].session], r.workers[worker].phase.at);
    assert Committed(r, worker).windows.Keys == r.windows.Keys;
  }

  lemma BeginInstallKeepsRInv(cfg: Config, log: seq<Seal>, r: Receiver, installer: nat, session: nat)
    requires cfg.Valid() && RInv(log, r) && Possible(cfg, log, r, BeginInstall(installer, session))
    ensures RInv(log, Do(cfg, log, r, BeginInstall(installer, session)))
  {
    forall w | w in r.workers ensures WorkerOk(log, r.windows.Keys + {session}, r.workers[w]) {
      assert WorkerOk(log, r.windows.Keys, r.workers[w]);
    }
    assert r.windows[session := EMPTY].Keys == r.windows.Keys + {session};
  }

  lemma FinishInstallKeepsRInv(cfg: Config, log: seq<Seal>, r: Receiver, installer: nat)
    requires cfg.Valid() && RInv(log, r) && Possible(cfg, log, r, FinishInstall(installer))
    ensures RInv(log, Do(cfg, log, r, FinishInstall(installer)))
  {}

  lemma TakeKeepsRInv(cfg: Config, log: seq<Seal>, r: Receiver, worker: nat, datagram: bytes)
    requires cfg.Valid() && RInv(log, r) && Possible(cfg, log, r, Take(worker, datagram))
    ensures RInv(log, Do(cfg, log, r, Take(worker, datagram)))
  {
    WorkerSet(log, r.windows.Keys, r.workers, worker, Trying(datagram, r.Current(), false, r.Now(), Unread));
  }

  lemma WorkerSet(log: seq<Seal>, sessions: set<nat>, workers: map<nat, Worker>, worker: nat, w: Worker)
    requires WorkersOk(log, sessions, workers) && WorkerOk(log, sessions, w)
    ensures WorkersOk(log, sessions, workers[worker := w])
  {}

  lemma CheckKeepsRInv(cfg: Config, log: seq<Seal>, r: Receiver, worker: nat)
    requires cfg.Valid() && RInv(log, r) && Possible(cfg, log, r, Check(worker))
    ensures RInv(log, Do(cfg, log, r, Check(worker)))
  {
    match CheckOutcome(cfg, r, worker)
    case None => MissKeepsRInv(log, r, worker);
    case Some(counter) =>
      assert WorkerOk(log, r.windows.Keys, r.workers[worker]);
      WorkerSet(log, r.windows.Keys, r.workers, worker, r.workers[worker].(phase := Checked(counter)));
  }

  lemma CommitMoveKeepsRInv(cfg: Config, log: seq<Seal>, r: Receiver, worker: nat)
    requires cfg.Valid() && LogSound(cfg, log) && RInv(log, r) && Possible(cfg, log, r, Commit(worker))
    ensures RInv(log, Do(cfg, log, r, Commit(worker)))
  {
    if r.windows[r.workers[worker].session].Accepts(r.workers[worker].phase.at) {
      CommitKeepsRInv(cfg, log, r, worker);
    } else {
      MissKeepsRInv(log, r, worker);
    }
  }

  lemma TakeSecondKeepsRInv(cfg: Config, log: seq<Seal>, r: Receiver, worker: nat)
    requires cfg.Valid() && RInv(log, r) && Possible(cfg, log, r, TakeSecond(worker))
    ensures RInv(log, Do(cfg, log, r, TakeSecond(worker)))
  {
    if r.previous.Some? {
      WorkerSet(log, r.windows.Keys, r.workers, worker, Trying(r.workers[worker].waiting, r.previous.value, true, r.Now(), Unread));
    }
  }

  lemma MoveKeepsRInv(cfg: Config, log: seq<Seal>, r: Receiver, move: Move)
    requires cfg.Valid() && LogSound(cfg, log) && RInv(log, r) && Possible(cfg, log, r, move)
    ensures RInv(log, Do(cfg, log, r, move))
  {
    match move
    case BeginInstall(installer, session) => BeginInstallKeepsRInv(cfg, log, r, installer, session);
    case FinishInstall(installer) => FinishInstallKeepsRInv(cfg, log, r, installer);
    case Retire =>
    case Take(worker, datagram) => TakeKeepsRInv(cfg, log, r, worker, datagram);
    case Check(worker) => CheckKeepsRInv(cfg, log, r, worker);
    case OpenHit(worker, entry) => OpenHitKeepsRInv(cfg, log, r, worker, entry);
    case OpenMiss(worker) => MissKeepsRInv(log, r, worker);
    case Commit(worker) => CommitMoveKeepsRInv(cfg, log, r, worker);
    case TakeSecond(worker) => TakeSecondKeepsRInv(cfg, log, r, worker);
  }

  lemma LongerLogKeepsRInv(log: seq<Seal>, more: seq<Seal>, r: Receiver)
    requires RInv(log, r)
    ensures RInv(log + more, r)
  {
    var longer := log + more;
    forall w | w in r.workers ensures WorkerOk(longer, r.windows.Keys, r.workers[w]) {
      assert WorkerOk(log, r.windows.Keys, r.workers[w]);
      if r.workers[w].Trying? && r.workers[w].phase.Opened? {
        var s, c, f := r.workers[w].session, r.workers[w].phase.at, r.workers[w].phase.framed;
        var k :| 0 <= k < |log| && log[k].session == s && log[k].counter == c && log[k].framed == f;
        assert longer[k] == log[k];
      }
    }
    forall i | 0 <= i < |r.delivered| ensures CameFrom(longer, r.delivered[i]) {
      var k :| Came(log, r.delivered[i], k);
      assert Came(longer, r.delivered[i], k);
    }
  }

  // ── Single moves ──

  /** A commit of worker w to this session, of a counter that was sealed for it and is new. */
  ghost predicate CommitsSealed(log: seq<Seal>, r: Receiver, t: Receiver, worker: nat, session: nat) {
    && worker in r.workers && r.workers[worker].Trying? && r.workers[worker].phase.Opened?
    && r.workers[worker].session == session && session in r.history && session in t.history
    && var c := r.workers[worker].phase.at;
       && Sealed(log, session, c, r.workers[worker].phase.framed)
       && c !in r.history[session]
       && t.history[session] == r.history[session] + [c]
  }

  lemma OtherMovesKeepWindows(cfg: Config, log: seq<Seal>, r: Receiver, move: Move, session: nat)
    requires cfg.Valid() && Possible(cfg, log, r, move) && session in r.windows && !move.Commit?
    ensures session in Do(cfg, log, r, move).windows && Do(cfg, log, r, move).windows[session] == r.windows[session]
  {}

  lemma CommitTouchesItsWindow(cfg: Config, log: seq<Seal>, r: Receiver, worker: nat, session: nat)
    requires cfg.Valid() && RInv(log, r) && Possible(cfg, log, r, Commit(worker)) && session in r.windows
    requires Do(cfg, log, r, Commit(worker)).windows[session] != r.windows[session]
    ensures CommitsSealed(log, r, Do(cfg, log, r, Commit(worker)), worker, session)
  {
    var w := r.workers[worker];
    assert WorkerOk(log, r.windows.Keys, w);
    if w.phase.at in r.history[w.session] && w.session == session { NeverTwice(r.history[w.session], w.phase.at); }
  }

  /** Replay state changes only when a worker commits a counter that was sealed for that
      very session: a datagram that does not open leaves every window as it was. */
  lemma OnlySealedCountersTouchWindows(cfg: Config, log: seq<Seal>, r: Receiver, move: Move, session: nat)
    requires cfg.Valid() && RInv(log, r) && Possible(cfg, log, r, move) && session in r.windows
    requires session in Do(cfg, log, r, move).windows && Do(cfg, log, r, move).windows[session] != r.windows[session]
    ensures move.Commit? && CommitsSealed(log, r, Do(cfg, log, r, move), move.worker, session)
  {
    if move.Commit? {
      CommitTouchesItsWindow(cfg, log, r, move.worker, session);
    } else {
      OtherMovesKeepWindows(cfg, log, r, move, session);
    }
  }
}
