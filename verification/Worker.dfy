/** The step system and the session object tell one story: a worker whose steps nobody
    interrupts does what `try_open_obf` computes. */
module Workers {
  import opened Words
  import opened Bytes
  import opened Results
  import opened Aead
  import opened Obf
  import opened Sessions
  import opened Senders
  import opened Receivers

  /** The receiver's cipher opens exactly what the sender's log says was sealed. */
  ghost predicate Faithful(cfg: Config, log: seq<Seal>, cipher: Cipher, session: nat, keys: SessionKeys)
    requires cfg.Valid() && WellSalted(keys)
  {
    && Mirrors(cfg.keys(session), keys)
    && forall counter: u64, ct: bytes :: OpensByLog(cfg, log, cipher, session, keys, counter, ct)
  }

  ghost predicate OpensByLog(cfg: Config, log: seq<Seal>, cipher: Cipher, session: nat, keys: SessionKeys, counter: u64, ct: bytes)
    requires cfg.Valid() && WellSalted(keys)
  {
    match Opens(cipher, keys, counter, ct)
    case None => forall entry: nat :: !OpensAs(cfg, log, entry, session, counter, ct)
    case Some(framed) => exists entry: nat :: OpensAs(cfg, log, entry, session, counter, ct) && log[entry].framed == framed
  }

  ghost predicate PossibleAll(cfg: Config, log: seq<Seal>, r: Receiver, moves: seq<Move>)
    requires cfg.Valid()
    decreases |moves|
  {
    moves == [] || (Possible(cfg, log, r, moves[0]) && PossibleAll(cfg, log, Do(cfg, log, r, moves[0]), moves[1..]))
  }

  ghost function DoAll(cfg: Config, log: seq<Seal>, r: Receiver, moves: seq<Move>): Receiver
    requires cfg.Valid() && PossibleAll(cfg, log, r, moves)
    decreases |moves|
  {
    if moves == [] then r else DoAll(cfg, log, Do(cfg, log, r, moves[0]), moves[1..])
  }

  /** What the worker's trial comes to, told by the function that specifies the method. */
  ghost function Concluded(cfg: Config, cipher: Cipher, keys: SessionKeys, r: Receiver, worker: nat): Receiver
    requires cfg.Valid() && WellSalted(keys) && IsTrying(r, worker)
  {
    var w := r.workers[worker];
    var (window, result) := TryOpen(cipher, cfg.mac, keys, r.windows[w.session], w.datagram);
    if result == Ok(None) then Missed(r, worker)
    else
      var counter := match Unmasked(cfg.mac, keys.rxObf, w.datagram) case Some(rec) => rec.counter case None => 0;
      var t := r.(windows := r.windows[w.session := window],
                  history := r.history[w.session := r.history[w.session] + [counter]],
                  workers := r.workers - {worker});
      match result
      case Ok(Some(frame)) => t.(delivered := r.delivered + [Delivery(w.session, counter, frame.0, frame.1, w.read)])
      case _ => t
  }

  lemma OneMove(cfg: Config, log: seq<Seal>, r: Receiver, a: Move)
    requires cfg.Valid() && Possible(cfg, log, r, a)
    ensures PossibleAll(cfg, log, r, [a]) && DoAll(cfg, log, r, [a]) == Do(cfg, log, r, a)
  {
    assert [a][1..] == [];
  }

  lemma AndThen(cfg: Config, log: seq<Seal>, r: Receiver, a: Move, rest: seq<Move>)
    requires cfg.Valid() && Possible(cfg, log, r, a) && PossibleAll(cfg, log, Do(cfg, log, r, a), rest)
    ensures PossibleAll(cfg, log, r, [a] + rest)
    ensures DoAll(cfg, log, r, [a] + rest) == DoAll(cfg, log, Do(cfg, log, r, a), rest)
  {
    assert ([a] + rest)[1..] == rest;
  }

  /** Where a checked worker ends up, by what the AEAD says. */
  ghost function AfterCheck(r: Receiver, worker: nat, found: Option<bytes>): Receiver
    requires IsChecked(r, worker)
  {
    var w := r.workers[worker];
    match found
    case None => Missed(r, worker)
    case Some(framed) =>
      Committed(r.(workers := r.workers[worker := w.(phase := Opened(w.phase.counter, framed))]), worker)
  }

  /** From the check on: the ciphertext opens and is committed, or it misses. */
  lemma OpenAndCommit(cfg: Config, log: seq<Seal>, cipher: Cipher, keys: SessionKeys, r: Receiver, worker: nat)
    returns (moves: seq<Move>)
    requires cfg.Valid() && WellSalted(keys) && IsChecked(r, worker)
    requires var w := r.workers[worker];
             && OpensByLog(cfg, log, cipher, w.session, keys, w.phase.counter, CtSlice(w.datagram))
             && r.windows[w.session].Accepts(w.phase.counter)
    ensures PossibleAll(cfg, log, r, moves)
    ensures var w := r.workers[worker];
            DoAll(cfg, log, r, moves) == AfterCheck(r, worker, Opens(cipher, keys, w.phase.counter, CtSlice(w.datagram)))
  {
    var w := r.workers[worker];
    var found := Opens(cipher, keys, w.phase.counter, CtSlice(w.datagram));
    if found == None {
      OneMove(cfg, log, r, OpenMiss(worker));
      moves := [OpenMiss(worker)];
    } else {
      var entry: nat :| OpensAs(cfg, log, entry, w.session, w.phase.counter, CtSlice(w.datagram))
                        && log[entry].framed == found.value;
      var s := Do(cfg, log, r, OpenHit(worker, entry));
      OneMove(cfg, log, s, Commit(worker));
      AndThen(cfg, log, r, OpenHit(worker, entry), [Commit(worker)]);
      moves := [OpenHit(worker, entry)] + [Commit(worker)];
    }
  }

  /** An uninterrupted trial of one session: the same window, the same answer, and nothing
      else in the receiver moved. */
  lemma UninterruptedTrial(cfg: Config, log: seq<Seal>, cipher: Cipher, keys: SessionKeys, r: Receiver, worker: nat)
    returns (moves: seq<Move>)
    requires cfg.Valid() && WellSalted(keys) && IsTrying(r, worker) && r.workers[worker].phase.Unread?
    requires Faithful(cfg, log, cipher, r.workers[worker].session, keys)
    ensures PossibleAll(cfg, log, r, moves)
    ensures DoAll(cfg, log, r, moves) == Concluded(cfg, cipher, keys, r, worker)
  {
    var w := r.workers[worker];
    var s := Do(cfg, log, r, Check(worker));
    if CheckOutcome(cfg, r, worker) == None {
      OneMove(cfg, log, r, Check(worker));
      moves := [Check(worker)];
    } else {
      var counter := CheckOutcome(cfg, r, worker).value;
      assert OpensByLog(cfg, log, cipher, w.session, keys, counter, CtSlice(w.datagram));
      var rest := OpenAndCommit(cfg, log, cipher, keys, s, worker);
      AndThen(cfg, log, r, Check(worker), rest);
      moves := [Check(worker)] + rest;
      SameEnd(cfg, cipher, keys, r, worker, counter);
    }
  }

  lemma SameEnd(cfg: Config, cipher: Cipher, keys: SessionKeys, r: Receiver, worker: nat, counter: u64)
    requires cfg.Valid() && WellSalted(keys) && IsTrying(r, worker) && r.workers[worker].phase.Unread?
    requires Mirrors(cfg.keys(r.workers[worker].session), keys)
    requires CheckOutcome(cfg, r, worker) == Some(counter)
    ensures var w := r.workers[worker];
            var s := r.(workers := r.workers[worker := w.(phase := Checked(counter))]);
            && IsChecked(s, worker)
            && AfterCheck(s, worker, Opens(cipher, keys, counter, CtSlice(w.datagram)))
               == Concluded(cfg, cipher, keys, r, worker)
  {
    var w := r.workers[worker];
    var s := r.(workers := r.workers[worker := w.(phase := Checked(counter))]);
    match Opens(cipher, keys, counter, CtSlice(w.datagram))
    case None =>
      assert s.workers - {worker} == r.workers - {worker};
    case Some(framed) =>
      assert s.workers[worker := w.(phase := Opened(counter, framed))] - {worker} == r.workers - {worker};
  }
}
