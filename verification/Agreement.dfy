/** Any number of handshakes between any parties over a network that delivers whatever
    bytes it likes. Nothing is assumed of the signatures of parties that are not honest. */
module Agreement {
  import opened Words
  import opened Bytes
  import opened Aead
  import opened Sessions
  import opened Codec
  import opened Transcripts
  import opened Handshakes

  datatype Progress<T> = Waiting | Established(how: T) | Failed

  datatype World = World(
    initiators: map<nat, (Initiator, Progress<Outcome>)>,
    responders: map<nat, (Responder, Progress<()>)>,
    signed: set<Signature>,
    used: set<bytes>)           // X25519 public keys of honest runs

  const NOTHING_YET := World(map[], map[], {}, {})

  datatype Event =
    | Start(id: nat, own: Party, peer: Party, x: Secret, k: Secret, preferred: AeadAlgo, sig: bytes, mac: bytes)
    | Answer(id: nat, own: Party, peer: Party, preferred: AeadAlgo, raw: bytes, choices: Choices)
    | Finish(id: nat, raw: bytes, mine: Message, pad: nat -> byte)
    | Confirmation(id: nat, raw: bytes)

  /** The signature a delivered message carries is not a forgery of `signer`'s. */
  ghost predicate UnforgedIn(p: Primitives, honest: set<Party>, w: World, signer: Party, raw: bytes) {
    Decoded(raw).Ok? ==> Unforged(p, honest, w.signed, signer, Decoded(raw).value.sig)
  }

  ghost predicate Enabled(p: Primitives, honest: set<Party>, w: World, event: Event) {
    match event
    case Start(id, own, _, x, _, _, _, mac) =>
      id !in w.initiators && own in honest && p.xPub(x) !in w.used && |mac| == MAC_LEN
    case Answer(id, own, _, _, _, choices) =>
      id !in w.responders && own in honest && p.xPub(choices.x) !in w.used
      && |choices.kemNoise| == MLKEM_PK_LEN - MLKEM_CT_LEN
    case Finish(id, raw, mine, _) =>
      id in w.initiators && w.initiators[id].1.Waiting? && w.initiators[id].0.init.Sized()
      && mine.Sized() && mine.msgType == Confirm
      && UnforgedIn(p, honest, w, w.initiators[id].0.peer, raw)
    case Confirmation(id, raw) =>
      id in w.responders && w.responders[id].1.Waiting? && UnforgedIn(p, honest, w, w.responders[id].0.peer, raw)
  }

  function Started(p: Primitives, w: World, id: nat, i: Initiator): World {
    w.(initiators := w.initiators[id := (i, Waiting)], used := w.used + {p.xPub(i.x)})
  }

  function Answered(p: Primitives, w: World, id: nat, r: Responder): World {
    w.(responders := w.responders[id := (r, Waiting)],
       signed := w.signed + {Signature(r.own, RoleBound(ResponderProof, r.hash))},
       used := w.used + {p.xPub(r.x)})
  }

  function Finished(w: World, id: nat, o: Outcome): World
    requires id in w.initiators
  {
    var i := w.initiators[id].0;
    w.(initiators := w.initiators[id := (i, Established(o))],
       signed := w.signed + {Signature(i.own, RoleBound(InitiatorProof, o.hash))})
  }

  /** A run that fails signs nothing that leaves the process. */
  ghost function Apply(p: Primitives, honest: set<Party>, w: World, event: Event): World
    requires p.Ideal() && Enabled(p, honest, w, event)
  {
    match event
    case Start(id, own, peer, x, k, preferred, sig, mac) =>
      Started(p, w, id, Initiator(own, peer, x, k, NewInit(p, x, k, preferred, sig, mac)))
    case Answer(id, own, peer, preferred, raw, choices) =>
      (match Respond(p, own, peer, preferred, raw, choices)
       case Err(_) => w
       case Ok((responder, _)) => Answered(p, w, id, responder))
    case Finish(id, raw, mine, pad) =>
      (match Finalize(p, w.initiators[id].0, raw, mine, pad)
       case Err(_) => w.(initiators := w.initiators[id := (w.initiators[id].0, Failed)])
       case Ok((outcome, _)) => Finished(w, id, outcome))
    case Confirmation(id, raw) =>
      var r := w.responders[id].0;
      w.(responders := w.responders[id := (r, if Confirms(p, r, raw) then Established(()) else Failed)])
  }

  ghost predicate Next(p: Primitives, honest: set<Party>, w: World, t: World)
    requires p.Ideal()
  {
    exists event :: Enabled(p, honest, w, event) && t == Apply(p, honest, w, event)
  }

  ghost predicate IsRun(p: Primitives, honest: set<Party>, run: seq<World>)
    requires p.Ideal()
  {
    && run != [] && run[0] == NOTHING_YET
    && forall i | 0 <= i < |run| - 1 :: Next(p, honest, run[i], run[i + 1])
  }

  // ── Invariant ──

  type Initiators = map<nat, (Initiator, Progress<Outcome>)>
  type Responders = map<nat, (Responder, Progress<()>)>

  ghost predicate RespondedWith(answers: Responders, own: Party, hash: Digest, id: nat) {
    id in answers && answers[id].0.own == own && answers[id].0.hash == hash
  }

  ghost predicate FinalizedWith(starts: Initiators, own: Party, hash: Digest, id: nat) {
    id in starts && starts[id].0.own == own && starts[id].1.Established? && starts[id].1.how.hash == hash
  }

  /** Every signature comes from a run of its signer in that role. */
  ghost predicate SignatureOk(starts: Initiators, answers: Responders, s: Signature) {
    && s.digest.RoleBound?
    && (s.digest.role == ResponderProof ==> exists id :: RespondedWith(answers, s.signer, s.digest.hash, id))
    && (s.digest.role == InitiatorProof ==> exists id :: FinalizedWith(starts, s.signer, s.digest.hash, id))
  }

  /** What is known of a run by itself, kept apart from the bookkeeping of the world. */
  datatype Facts = Facts(ofInitiator: (Initiator, Progress<Outcome>) -> bool, ofResponder: Responder -> bool)

  ghost function RunFacts(p: Primitives): Facts {
    Facts((i: Initiator, progress: Progress<Outcome>) =>
            InitiatorOk(p, i) && (progress.Established? ==> OutcomeOk(p, i, progress.how)),
          (r: Responder) => ResponderOk(p, r))
  }

  ghost predicate InitiatorEntryOk(p: Primitives, f: Facts, honest: set<Party>, entry: (Initiator, Progress<Outcome>),
                                   signed: set<Signature>, used: set<bytes>)
  {
    var (i, progress) := entry;
    && f.ofInitiator(i, progress) && i.own in honest && p.xPub(i.x) in used
    && (progress.Established? && i.peer in honest ==>
          Signature(i.peer, RoleBound(ResponderProof, progress.how.hash)) in signed)
  }

  ghost predicate ResponderEntryOk(p: Primitives, f: Facts, honest: set<Party>, entry: (Responder, Progress<()>),
                                   signed: set<Signature>, used: set<bytes>)
  {
    var (r, progress) := entry;
    && f.ofResponder(r) && r.own in honest && p.xPub(r.x) in used
    && (progress.Established? && r.peer in honest ==> Signature(r.peer, RoleBound(InitiatorProof, r.hash)) in signed)
  }

  ghost predicate SignaturesOk(starts: Initiators, answers: Responders, signed: set<Signature>) {
    forall s | s in signed :: SignatureOk(starts, answers, s)
  }

  ghost predicate InitiatorsOk(p: Primitives, f: Facts, honest: set<Party>, starts: Initiators,
                               signed: set<Signature>, used: set<bytes>) {
    forall id | id in starts :: InitiatorEntryOk(p, f, honest, starts[id], signed, used)
  }

  ghost predicate RespondersOk(p: Primitives, f: Facts, honest: set<Party>, answers: Responders,
                               signed: set<Signature>, used: set<bytes>) {
    forall id | id in answers :: ResponderEntryOk(p, f, honest, answers[id], signed, used)
  }

  /** No two honest runs of one role share an ephemeral X25519 key. */
  ghost predicate InitiatorKeysFresh(p: Primitives, starts: Initiators) {
    forall a, b | a in starts && b in starts && a != b :: p.xPub(starts[a].0.x) != p.xPub(starts[b].0.x)
  }

  ghost predicate ResponderKeysFresh(p: Primitives, answers: Responders) {
    forall a, b | a in answers && b in answers && a != b :: p.xPub(answers[a].0.x) != p.xPub(answers[b].0.x)
  }

  ghost predicate Inv(p: Primitives, f: Facts, honest: set<Party>, w: World) {
    && SignaturesOk(w.initiators, w.responders, w.signed)
    && InitiatorsOk(p, f, honest, w.initiators, w.signed, w.used)
    && RespondersOk(p, f, honest, w.responders, w.signed, w.used)
    && InitiatorKeysFresh(p, w.initiators) && ResponderKeysFresh(p, w.responders)
  }

  // ── One entry changes, the rest stays ──

  /** An entry keeps its run, and its outcome once it is established. */
  ghost predicate Progressed(starts: Initiators, id: nat, entry: (Initiator, Progress<Outcome>)) {
    id in starts ==> starts[id].0 == entry.0 && (starts[id].1.Established? ==> starts[id].1 == entry.1)
  }

  lemma InitiatorKeepsSignatures(starts: Initiators, answers: Responders, signed: set<Signature>, id: nat, entry: (Initiator, Progress<Outcome>))
    requires SignaturesOk(starts, answers, signed) && Progressed(starts, id, entry)
    ensures SignaturesOk(starts[id := entry], answers, signed)
  {
    forall s | s in signed ensures SignatureOk(starts[id := entry], answers, s) {
      assert SignatureOk(starts, answers, s);
      if s.digest.role == InitiatorProof {
        var k :| FinalizedWith(starts, s.signer, s.digest.hash, k);
        assert FinalizedWith(starts[id := entry], s.signer, s.digest.hash, k);
      }
    }
  }

  lemma ResponderKeepsSignatures(starts: Initiators, answers: Responders, signed: set<Signature>, id: nat, entry: (Responder, Progress<()>))
    requires SignaturesOk(starts, answers, signed) && (id in answers ==> answers[id].0 == entry.0)
    ensures SignaturesOk(starts, answers[id := entry], signed)
  {
    forall s | s in signed ensures SignatureOk(starts, answers[id := entry], s) {
      assert SignatureOk(starts, answers, s);
      if s.digest.role == ResponderProof {
        var k :| RespondedWith(answers, s.signer, s.digest.hash, k);
        assert RespondedWith(answers[id := entry], s.signer, s.digest.hash, k);
      }
    }
  }

  lemma InitiatorSet(p: Primitives, f: Facts, honest: set<Party>, starts: Initiators, signed: set<Signature>, used: set<bytes>,
                     id: nat, entry: (Initiator, Progress<Outcome>), more: set<Signature>, also: set<bytes>)
    requires InitiatorsOk(p, f, honest, starts, signed, used) && signed <= more && used <= also
    requires InitiatorEntryOk(p, f, honest, entry, more, also)
    ensures InitiatorsOk(p, f, honest, starts[id := entry], more, also)
  {
    var next := starts[id := entry];
    forall k | k in next ensures InitiatorEntryOk(p, f, honest, next[k], more, also) {
      if k != id { assert InitiatorEntryOk(p, f, honest, starts[k], signed, used); }
    }
  }

  lemma InitiatorsStay(p: Primitives, f: Facts, honest: set<Party>, starts: Initiators, signed: set<Signature>, used: set<bytes>,
                       more: set<Signature>, also: set<bytes>)
    requires InitiatorsOk(p, f, honest, starts, signed, used) && signed <= more && used <= also
    ensures InitiatorsOk(p, f, honest, starts, more, also)
  {
    forall k | k in starts ensures InitiatorEntryOk(p, f, honest, starts[k], more, also) {
      assert InitiatorEntryOk(p, f, honest, starts[k], signed, used);
    }
  }

  lemma ResponderSet(p: Primitives, f: Facts, honest: set<Party>, answers: Responders, signed: set<Signature>, used: set<bytes>,
                     id: nat, entry: (Responder, Progress<()>), more: set<Signature>, also: set<bytes>)
    requires RespondersOk(p, f, honest, answers, signed, used) && signed <= more && used <= also
    requires ResponderEntryOk(p, f, honest, entry, more, also)
    ensures RespondersOk(p, f, honest, answers[id := entry], more, also)
  {
    var next := answers[id := entry];
    forall k | k in next ensures ResponderEntryOk(p, f, honest, next[k], more, also) {
      if k != id { assert ResponderEntryOk(p, f, honest, answers[k], signed, used); }
    }
  }

  lemma RespondersStay(p: Primitives, f: Facts, honest: set<Party>, answers: Responders, signed: set<Signature>, used: set<bytes>,
                       more: set<Signature>, also: set<bytes>)
    requires RespondersOk(p, f, honest, answers, signed, used) && signed <= more && used <= also
    ensures RespondersOk(p, f, honest, answers, more, also)
  {
    forall k | k in answers ensures ResponderEntryOk(p, f, honest, answers[k], more, also) {
      assert ResponderEntryOk(p, f, honest, answers[k], signed, used);
    }
  }

  lemma NewInitiatorKey(p: Primitives, starts: Initiators, id: nat, entry: (Initiator, Progress<Outcome>))
    requires InitiatorKeysFresh(p, starts)
    requires if id in starts then starts[id].0 == entry.0 else forall k | k in starts :: p.xPub(starts[k].0.x) != p.xPub(entry.0.x)
    ensures InitiatorKeysFresh(p, starts[id := entry])
  {}

  lemma NewResponderKey(p: Primitives, answers: Responders, id: nat, entry: (Responder, Progress<()>))
    requires ResponderKeysFresh(p, answers)
    requires if id in answers then answers[id].0 == entry.0 else forall k | k in answers :: p.xPub(answers[k].0.x) != p.xPub(entry.0.x)
    ensures ResponderKeysFresh(p, answers[id := entry])
  {}

  lemma InitiatorKeyIsNew(p: Primitives, f: Facts, honest: set<Party>, starts: Initiators, signed: set<Signature>, used: set<bytes>, key: bytes)
    requires InitiatorsOk(p, f, honest, starts, signed, used) && key !in used
    ensures forall k | k in starts :: p.xPub(starts[k].0.x) != key
  {
    forall k | k in starts ensures p.xPub(starts[k].0.x) != key {
      assert InitiatorEntryOk(p, f, honest, starts[k], signed, used);
    }
  }

  lemma ResponderKeyIsNew(p: Primitives, f: Facts, honest: set<Party>, answers: Responders, signed: set<Signature>, used: set<bytes>, key: bytes)
    requires RespondersOk(p, f, honest, answers, signed, used) && key !in used
    ensures forall k | k in answers :: p.xPub(answers[k].0.x) != key
  {
    forall k | k in answers ensures p.xPub(answers[k].0.x) != key {
      assert ResponderEntryOk(p, f, honest, answers[k], signed, used);
    }
  }

  // ── Every event keeps the invariant ──

  lemma StartedKeepsInv(p: Primitives, f: Facts, honest: set<Party>, w: World, id: nat, i: Initiator)
    requires Inv(p, f, honest, w) && id !in w.initiators && f.ofInitiator(i, Waiting)
    requires i.own in honest && p.xPub(i.x) !in w.used
    ensures Inv(p, f, honest, Started(p, w, id, i))
  {
    var used := w.used + {p.xPub(i.x)};
    InitiatorKeepsSignatures(w.initiators, w.responders, w.signed, id, (i, Waiting));
    InitiatorSet(p, f, honest, w.initiators, w.signed, w.used, id, (i, Waiting), w.signed, used);
    RespondersStay(p, f, honest, w.responders, w.signed, w.used, w.signed, used);
    InitiatorKeyIsNew(p, f, honest, w.initiators, w.signed, w.used, p.xPub(i.x));
    NewInitiatorKey(p, w.initiators, id, (i, Waiting));
  }

  lemma AnsweredKeepsInv(p: Primitives, f: Facts, honest: set<Party>, w: World, id: nat, r: Responder)
    requires Inv(p, f, honest, w) && id !in w.responders && f.ofResponder(r)
    requires r.own in honest && p.xPub(r.x) !in w.used
    ensures Inv(p, f, honest, Answered(p, w, id, r))
  {
    var t := Answered(p, w, id, r);
    ResponderKeepsSignatures(w.initiators, w.responders, w.signed, id, (r, Waiting));
    assert RespondedWith(t.responders, r.own, r.hash, id);
    ResponderSet(p, f, honest, w.responders, w.signed, w.used, id, (r, Waiting), t.signed, t.used);
    InitiatorsStay(p, f, honest, w.initiators, w.signed, w.used, t.signed, t.used);
    ResponderKeyIsNew(p, f, honest, w.responders, w.signed, w.used, p.xPub(r.x));
    NewResponderKey(p, w.responders, id, (r, Waiting));
  }

  lemma FinishedKeepsInv(p: Primitives, f: Facts, honest: set<Party>, w: World, id: nat, o: Outcome)
    requires Inv(p, f, honest, w) && id in w.initiators && w.initiators[id].1.Waiting?
    requires f.ofInitiator(w.initiators[id].0, Established(o))
    requires w.initiators[id].0.peer in honest ==> Signature(w.initiators[id].0.peer, RoleBound(ResponderProof, o.hash)) in w.signed
    ensures Inv(p, f, honest, Finished(w, id, o))
  {
    var t, i := Finished(w, id, o), w.initiators[id].0;
    assert InitiatorEntryOk(p, f, honest, w.initiators[id], w.signed, w.used);
    InitiatorKeepsSignatures(w.initiators, w.responders, w.signed, id, (i, Established(o)));
    assert FinalizedWith(t.initiators, i.own, o.hash, id);
    InitiatorSet(p, f, honest, w.initiators, w.signed, w.used, id, (i, Established(o)), t.signed, t.used);
    RespondersStay(p, f, honest, w.responders, w.signed, w.used, t.signed, t.used);
    NewInitiatorKey(p, w.initiators, id, (i, Established(o)));
  }

  lemma FailedKeepsInv(p: Primitives, f: Facts, honest: set<Party>, w: World, id: nat)
    requires Inv(p, f, honest, w) && id in w.initiators && w.initiators[id].1.Waiting?
    requires f.ofInitiator(w.initiators[id].0, Failed)
    ensures Inv(p, f, honest, w.(initiators := w.initiators[id := (w.initiators[id].0, Failed)]))
  {
    var i := w.initiators[id].0;
    assert InitiatorEntryOk(p, f, honest, w.initiators[id], w.signed, w.used);
    InitiatorKeepsSignatures(w.initiators, w.responders, w.signed, id, (i, Failed));
    InitiatorSet(p, f, honest, w.initiators, w.signed, w.used, id, (i, Failed), w.signed, w.used);
    NewInitiatorKey(p, w.initiators, id, (i, Failed));
  }

  lemma ConfirmedKeepsInv(p: Primitives, f: Facts, honest: set<Party>, w: World, id: nat, progress: Progress<()>)
    requires Inv(p, f, honest, w) && id in w.responders
    requires progress.Established? && w.responders[id].0.peer in honest ==>
               Signature(w.responders[id].0.peer, RoleBound(InitiatorProof, w.responders[id].0.hash)) in w.signed
    ensures Inv(p, f, honest, w.(responders := w.responders[id := (w.responders[id].0, progress)]))
  {
    var entry := (w.responders[id].0, progress);
    assert ResponderEntryOk(p, f, honest, w.responders[id], w.signed, w.used);
    ResponderKeepsSignatures(w.initiators, w.responders, w.signed, id, entry);
    ResponderSet(p, f, honest, w.responders, w.signed, w.used, id, entry, w.signed, w.used);
    NewResponderKey(p, w.responders, id, entry);
  }

  lemma NextKeepsInv(p: Primitives, honest: set<Party>, w: World, t: World)
    requires p.Ideal() && Inv(p, RunFacts(p), honest, w) && Next(p, honest, w, t)
    ensures Inv(p, RunFacts(p), honest, t)
  {
    var e :| Enabled(p, honest, w, e) && t == Apply(p, honest, w, e);
    match e
    case Start(id, own, peer, x, k, preferred, sig, mac) =>
      StartKeepsInv(p, honest, w, id, Initiator(own, peer, x, k, NewInit(p, x, k, preferred, sig, mac)));
    case Answer(id, own, peer, preferred, raw, choices) =>
      AnswerKeepsInv(p, honest, w, id, own, peer, preferred, raw, choices);
    case Finish(id, raw, mine, pad) => FinishKeepsInv(p, honest, w, id, raw, mine, pad);
    case Confirmation(id, raw) => ConfirmationKeepsInv(p, honest, w, id, raw);
  }

  lemma StartKeepsInv(p: Primitives, honest: set<Party>, w: World, id: nat, i: Initiator)
    requires Inv(p, RunFacts(p), honest, w) && id !in w.initiators && InitiatorOk(p, i)
    requires i.own in honest && p.xPub(i.x) !in w.used
    ensures Inv(p, RunFacts(p), honest, Started(p, w, id, i))
  {
    StartedKeepsInv(p, RunFacts(p), honest, w, id, i);
  }

  lemma ConfirmationKeepsInv(p: Primitives, honest: set<Party>, w: World, id: nat, raw: bytes)
    requires p.Ideal() && Inv(p, RunFacts(p), honest, w) && Enabled(p, honest, w, Confirmation(id, raw))
    ensures Inv(p, RunFacts(p), honest, Apply(p, honest, w, Confirmation(id, raw)))
  {
    var r := w.responders[id].0;
    ConfirmedKeepsInv(p, RunFacts(p), honest, w, id, if Confirms(p, r, raw) then Established(()) else Failed);
  }

  lemma AnswerKeepsInv(p: Primitives, honest: set<Party>, w: World, id: nat, own: Party, peer: Party,
                       preferred: AeadAlgo, raw: bytes, choices: Choices)
    requires p.Ideal() && Inv(p, RunFacts(p), honest, w)
    requires Enabled(p, honest, w, Answer(id, own, peer, preferred, raw, choices))
    ensures Inv(p, RunFacts(p), honest, Apply(p, honest, w, Answer(id, own, peer, preferred, raw, choices)))
  {
    if Respond(p, own, peer, preferred, raw, choices).Ok? {
      RespondOk(p, own, peer, preferred, raw, choices);
      AnsweredKeepsInv(p, RunFacts(p), honest, w, id, Respond(p, own, peer, preferred, raw, choices).value.0);
    }
  }

  lemma FinishKeepsInv(p: Primitives, honest: set<Party>, w: World, id: nat, raw: bytes, mine: Message, pad: nat -> byte)
    requires p.Ideal() && Inv(p, RunFacts(p), honest, w) && Enabled(p, honest, w, Finish(id, raw, mine, pad))
    ensures Inv(p, RunFacts(p), honest, Apply(p, honest, w, Finish(id, raw, mine, pad)))
  {
    assert InitiatorEntryOk(p, RunFacts(p), honest, w.initiators[id], w.signed, w.used);
    var i := w.initiators[id].0;
    if Finalize(p, i, raw, mine, pad).Ok? {
      FinalizeOk(p, i, raw, mine, pad);
      FinishedKeepsInv(p, RunFacts(p), honest, w, id, Finalize(p, i, raw, mine, pad).value.0);
    } else {
      FailedKeepsInv(p, RunFacts(p), honest, w, id);
    }
  }

  lemma {:induction false} RunKeepsInv(p: Primitives, honest: set<Party>, run: seq<World>)
    requires p.Ideal() && IsRun(p, honest, run)
    ensures Inv(p, RunFacts(p), honest, run[|run| - 1])
  {
    if |run| > 1 {
      var n := |run| - 2;
      RunKeepsInv(p, honest, run[..n + 1]);
      assert Next(p, honest, run[n], run[n + 1]);
      NextKeepsInv(p, honest, run[n], run[n + 1]);
    }
  }

  // ── Agreement ──

  /** Both ends absorbed the same Init and Response, name each other as peer, and hold one
      session: same id and cipher, each side sending with what the other receives with. */
  ghost predicate Agree(i: Initiator, o: Outcome, r: Responder) {
    && i.own == r.peer && i.peer == r.own && o.hash == r.hash
    && i.init.Sized() && r.init.Sized() && SameBound(i.init, r.init)
    && o.resp.Sized() && r.resp.Sized() && SameBound(o.resp, r.resp)
    && Mirrors(o.keys, r.keys)
  }

  lemma OneResponderPerTranscript(p: Primitives, honest: set<Party>, w: World, i: Initiator, o: Outcome, k: nat, l: nat)
    requires Inv(p, RunFacts(p), honest, w) && k in w.responders && l in w.responders
    requires Agree(i, o, w.responders[k].0) && Agree(i, o, w.responders[l].0)
    ensures k == l
  {
    assert ResponderEntryOk(p, RunFacts(p), honest, w.responders[k], w.signed, w.used) && ResponderEntryOk(p, RunFacts(p), honest, w.responders[l], w.signed, w.used);
    assert p.xPub(w.responders[k].0.x) == o.resp.x25519 == p.xPub(w.responders[l].0.x);
  }

  lemma OneInitiatorPerTranscript(p: Primitives, honest: set<Party>, w: World, r: Responder, k: nat, l: nat)
    requires Inv(p, RunFacts(p), honest, w) && k in w.initiators && l in w.initiators
    requires w.initiators[k].1.Established? && Agree(w.initiators[k].0, w.initiators[k].1.how, r)
    requires w.initiators[l].1.Established? && Agree(w.initiators[l].0, w.initiators[l].1.how, r)
    ensures k == l
  {
    assert InitiatorEntryOk(p, RunFacts(p), honest, w.initiators[k], w.signed, w.used) && InitiatorEntryOk(p, RunFacts(p), honest, w.initiators[l], w.signed, w.used);
    assert p.xPub(w.initiators[k].0.x) == r.init.x25519 == p.xPub(w.initiators[l].0.x);
  }

  ghost predicate AgreeingResponder(w: World, i: Initiator, o: Outcome, k: nat) {
    k in w.responders && Agree(i, o, w.responders[k].0)
  }

  ghost predicate AgreeingInitiator(w: World, r: Responder, k: nat) {
    k in w.initiators && w.initiators[k].1.Established? && Agree(w.initiators[k].0, w.initiators[k].1.how, r)
  }

  /** If an initiator establishes with an honest peer, exactly one run of that peer agrees. */
  lemma FinalizeAgrees(p: Primitives, honest: set<Party>, run: seq<World>, id: nat)
    requires p.Ideal() && IsRun(p, honest, run)
    requires var w := run[|run| - 1];
             id in w.initiators && w.initiators[id].1.Established? && w.initiators[id].0.peer in honest
    ensures var w := run[|run| - 1];
            var (i, o) := (w.initiators[id].0, w.initiators[id].1.how);
            exists k :: AgreeingResponder(w, i, o, k) && forall l | AgreeingResponder(w, i, o, l) :: l == k
  {
    RunKeepsInv(p, honest, run);
    var w := run[|run| - 1];
    assert InitiatorEntryOk(p, RunFacts(p), honest, w.initiators[id], w.signed, w.used);
    var (i, o) := (w.initiators[id].0, w.initiators[id].1.how);
    assert SignatureOk(w.initiators, w.responders, Signature(i.peer, RoleBound(ResponderProof, o.hash)));
    var k :| RespondedWith(w.responders, i.peer, o.hash, k);
    assert ResponderEntryOk(p, RunFacts(p), honest, w.responders[k], w.signed, w.used);
    SameTranscriptSameSession(p, i, o, w.responders[k].0);
    assert AgreeingResponder(w, i, o, k);
    forall l | AgreeingResponder(w, i, o, l) ensures l == k {
      OneResponderPerTranscript(p, honest, w, i, o, k, l);
    }
  }

  /** If a responder establishes with an honest peer, exactly one run of that peer has
      finalized the same transcript, and the two agree. */
  lemma ConfirmAgrees(p: Primitives, honest: set<Party>, run: seq<World>, id: nat)
    requires p.Ideal() && IsRun(p, honest, run)
    requires var w := run[|run| - 1];
             id in w.responders && w.responders[id].1.Established? && w.responders[id].0.peer in honest
    ensures var w := run[|run| - 1];
            var r := w.responders[id].0;
            exists k :: AgreeingInitiator(w, r, k) && forall l | AgreeingInitiator(w, r, l) :: l == k
  {
    RunKeepsInv(p, honest, run);
    var w := run[|run| - 1];
    var k := InitiatorBehind(p, honest, w, id);
    var r := w.responders[id].0;
    forall l | AgreeingInitiator(w, r, l) ensures l == k {
      OneInitiatorPerTranscript(p, honest, w, r, k, l);
    }
  }

  lemma InitiatorBehind(p: Primitives, honest: set<Party>, w: World, id: nat) returns (k: nat)
    requires p.Ideal() && Inv(p, RunFacts(p), honest, w)
    requires id in w.responders && w.responders[id].1.Established? && w.responders[id].0.peer in honest
    ensures AgreeingInitiator(w, w.responders[id].0, k)
  {
    assert ResponderEntryOk(p, RunFacts(p), honest, w.responders[id], w.signed, w.used);
    var r := w.responders[id].0;
    assert SignatureOk(w.initiators, w.responders, Signature(r.peer, RoleBound(InitiatorProof, r.hash)));
    k :| FinalizedWith(w.initiators, r.peer, r.hash, k);
    assert InitiatorEntryOk(p, RunFacts(p), honest, w.initiators[k], w.signed, w.used);
    assert ResponderOk(p, r);
    OtherEndAgrees(p, w.initiators[k].0, w.initiators[k].1.how, r);
  }

  lemma OtherEndAgrees(p: Primitives, i: Initiator, o: Outcome, r: Responder)
    requires p.Ideal() && InitiatorOk(p, i) && OutcomeOk(p, i, o) && ResponderOk(p, r)
    requires i.own == r.peer && o.hash == r.hash
    ensures Agree(i, o, r)
  {
    ConfirmedPeerIsResponder(i, o, r);
    SameTranscriptSameSession(p, i, o, r);
  }

  /** The initiator's own identity and the binding fix whom it was talking to. */
  lemma ConfirmedPeerIsResponder(i: Initiator, o: Outcome, r: Responder)
    requires i.init.Sized() && o.resp.Sized() && r.init.Sized() && r.resp.Sized()
    requires i.own == r.peer
    requires TranscriptOf(i.own, i.peer, i.init, o.resp) == TranscriptOf(r.own, r.peer, r.init, r.resp)
    ensures i.peer == r.own
  {
    var a := [Binding(i.own, i.peer), TranscriptBytes(i.init), TranscriptBytes(o.resp)];
    var b := [Binding(r.own, r.peer), TranscriptBytes(r.init), TranscriptBytes(r.resp)];
    UniquelyDecodable(a, b);
    assert a[0] == b[0];
    BindingNamesBoth(i.own, i.peer, r.own, r.peer);
  }
}
