/** A handshake nobody disturbs: every message arrives as it was sent. */
module HonestRuns {
  import opened Words
  import opened Bytes
  import opened Results
  import opened Aead
  import opened Codec
  import opened Transcripts
  import opened Handshakes
  import opened Agreement

  /** The random choices of both sides, and what fills the padding of the three messages. */
  datatype Setup = Setup(i: Initiator, preferred: AeadAlgo, c: Choices, mine: Message, pad0: nat -> byte, pad2: nat -> byte) {

    /** What the constructors of the three messages give. */
    ghost predicate Valid(p: Primitives) {
      && p.Ideal() && InitiatorOk(p, i) && i.init.version == PROTO_VERSION
      && |c.kemNoise| == MLKEM_PK_LEN - MLKEM_CT_LEN
      && mine.Sized() && mine.msgType == Confirm && mine.version == PROTO_VERSION
    }
  }

  /** The Response before it is signed, and the transcript hash both sides sign. */
  function Unsigned(p: Primitives, s: Setup): Message {
    NewResponse(p.xPub(s.c.x), p.encaps(s.c.r, s.i.init.kem).1, ChosenAlgo(s.preferred, s.i.init.aeadAlgo), s.c.kemNoise)
  }

  function HashOf(p: Primitives, s: Setup): Digest
    requires s.i.init.Sized() && Unsigned(p, s).Sized()
  {
    TranscriptOf(s.i.peer, s.i.own, s.i.init, Unsigned(p, s))
  }

  lemma UnsignedSized(p: Primitives, s: Setup)
    requires s.Valid(p)
    ensures Unsigned(p, s).Sized() && Unsigned(p, s).MlkemCt() == p.encaps(s.c.r, s.i.init.kem).1
  {}

  // ── The three messages ──

  function Wire0(s: Setup): Result<bytes> {
    Encoded(s.i.init, s.pad0)
  }

  function Answered1(p: Primitives, s: Setup): Result<(Responder, bytes)>
    requires s.Valid(p)
  {
    var wire :- Wire0(s);
    Respond(p, s.i.peer, s.i.own, s.preferred, wire, s.c)
  }

  function Finished2(p: Primitives, s: Setup): Result<(Outcome, bytes)>
    requires s.Valid(p)
  {
    var answer :- Answered1(p, s);
    Finalize(p, s.i, answer.1, s.mine, s.pad2)
  }

  /** Both sides establish. */
  predicate Establishes(p: Primitives, s: Setup)
    requires s.Valid(p)
  {
    Finished2(p, s).Ok? && Confirms(p, Answered1(p, s).value.0, Finished2(p, s).value.1)
  }

  // ── What it takes ──

  predicate InitFits(s: Setup) {
    |s.i.init.sig| <= MAX_SIG_LEN
  }

  predicate ResponderCan(p: Primitives, s: Setup) {
    p.validPk(s.i.init.kem) && !AllZero(p.dh(s.c.x, s.i.init.x25519)) && |s.c.sig| <= MAX_SIG_LEN
  }

  predicate InitiatorCan(p: Primitives, s: Setup)
    requires s.i.init.Sized() && Unsigned(p, s).Sized()
  {
    && p.validCt(p.encaps(s.c.r, s.i.init.kem).1)
    && p.verify(s.i.peer, RoleBound(ResponderProof, HashOf(p, s)), s.c.sig)
    && |s.mine.sig| <= MAX_SIG_LEN
  }

  predicate ConfirmVerifies(p: Primitives, s: Setup)
    requires s.i.init.Sized() && Unsigned(p, s).Sized()
  {
    p.verify(s.i.own, RoleBound(InitiatorProof, HashOf(p, s)), s.mine.sig)
  }

  lemma AnswersIff(p: Primitives, s: Setup)
    requires s.Valid(p)
    ensures Unsigned(p, s).Sized()
    ensures Answered1(p, s).Ok? <==> InitFits(s) && ResponderCan(p, s)
    ensures Answered1(p, s).Ok? ==>
              var (r, wire) := Answered1(p, s).value;
              && r.own == s.i.peer && r.peer == s.i.own && r.init == s.i.init && r.hash == HashOf(p, s)
              && r.resp == Unsigned(p, s).(sig := s.c.sig, mac := r.resp.mac) && r.x == s.c.x && r.r == s.c.r
              && r.resp.mac == p.confirmTag(p.combine(p.dh(s.c.x, s.i.init.x25519), p.encaps(s.c.r, s.i.init.kem).0), r.hash)
              && Decoded(wire) == Ok(r.resp)
              && ResponderOk(p, r)
  {
    UnsignedSized(p, s);
    EncodeThenDecode(s.i.init, s.pad0);
    if InitFits(s) {
      var wire := Wire0(s).value;
      var shared := p.combine(p.dh(s.c.x, s.i.init.x25519), p.encaps(s.c.r, s.i.init.kem).0);
      var resp := Unsigned(p, s).(sig := s.c.sig, mac := p.confirmTag(shared, HashOf(p, s)));
      EncodeThenDecode(resp, s.c.pad);
      if Answered1(p, s).Ok? { RespondOk(p, s.i.peer, s.i.own, s.preferred, wire, s.c); }
    }
  }

  /** Both sides compute one secret and one transcript hash. */
  lemma SameSecret(p: Primitives, s: Setup)
    requires s.Valid(p)
    ensures p.dh(s.i.x, p.xPub(s.c.x)) == p.dh(s.c.x, s.i.init.x25519)
    ensures p.decaps(s.i.k, p.encaps(s.c.r, s.i.init.kem).1) == p.encaps(s.c.r, s.i.init.kem).0
  {}

  lemma SameHash(p: Primitives, s: Setup, resp: Message)
    requires s.Valid(p) && Unsigned(p, s).Sized() && resp.Sized()
    requires resp == Unsigned(p, s).(sig := resp.sig, mac := resp.mac)
    ensures TranscriptOf(s.i.own, s.i.peer, s.i.init, resp) == HashOf(p, s)
  {
    BindingIsSymmetric(s.i.own, s.i.peer);
    TranscriptBytesBind(resp, Unsigned(p, s));
  }

  lemma FinalizesIff(p: Primitives, s: Setup)
    requires s.Valid(p) && Answered1(p, s).Ok?
    ensures Unsigned(p, s).Sized()
    ensures Finished2(p, s).Ok? <==> InitiatorCan(p, s)
    ensures Finished2(p, s).Ok? ==>
              var (o, wire) := Finished2(p, s).value;
              && o.hash == HashOf(p, s) && OutcomeOk(p, s.i, o)
              && Decoded(wire).Ok? && Decoded(wire).value.msgType == Confirm && Decoded(wire).value.sig == s.mine.sig
  {
    AnswersIff(p, s);
    var (r, raw) := Answered1(p, s).value;
    SameSecret(p, s);
    SameHash(p, s, r.resp);
    FinalizeOnBytes(p, s, r, raw);
  }

  lemma FinalizeOnBytes(p: Primitives, s: Setup, r: Responder, raw: bytes)
    requires s.Valid(p) && Unsigned(p, s).Sized() && Decoded(raw) == Ok(r.resp) && r.resp.Sized()
    requires r.resp == Unsigned(p, s).(sig := s.c.sig, mac := r.resp.mac)
    requires r.resp.mac == p.confirmTag(p.combine(p.dh(s.c.x, s.i.init.x25519), p.encaps(s.c.r, s.i.init.kem).0), HashOf(p, s))
    requires p.dh(s.i.x, p.xPub(s.c.x)) == p.dh(s.c.x, s.i.init.x25519) && !AllZero(p.dh(s.c.x, s.i.init.x25519))
    requires p.decaps(s.i.k, p.encaps(s.c.r, s.i.init.kem).1) == p.encaps(s.c.r, s.i.init.kem).0
    requires TranscriptOf(s.i.own, s.i.peer, s.i.init, r.resp) == HashOf(p, s)
    ensures Finalize(p, s.i, raw, s.mine, s.pad2).Ok? <==> InitiatorCan(p, s)
    ensures Finalize(p, s.i, raw, s.mine, s.pad2).Ok? ==>
              var (o, wire) := Finalize(p, s.i, raw, s.mine, s.pad2).value;
              && o.hash == HashOf(p, s) && OutcomeOk(p, s.i, o)
              && Decoded(wire).Ok? && Decoded(wire).value.msgType == Confirm && Decoded(wire).value.sig == s.mine.sig
  {
    UnsignedSized(p, s);
    var shared := p.combine(p.dh(s.c.x, s.i.init.x25519), p.encaps(s.c.r, s.i.init.kem).0);
    EncodeThenDecode(s.mine.(mac := p.confirmTag(shared, HashOf(p, s))), s.pad2);
    if Finalize(p, s.i, raw, s.mine, s.pad2).Ok? { FinalizeOk(p, s.i, raw, s.mine, s.pad2); }
  }

  /** Undisturbed, both sides establish exactly when the messages fit, the KEM key and
      ciphertext are valid, the Diffie-Hellman result is not zero and both signatures
      verify; and then they agree. */
  lemma UndisturbedEstablishesIff(p: Primitives, s: Setup)
    requires s.Valid(p)
    ensures Unsigned(p, s).Sized()
    ensures Establishes(p, s) <==> InitFits(s) && ResponderCan(p, s) && InitiatorCan(p, s) && ConfirmVerifies(p, s)
    ensures Establishes(p, s) ==> Agree(s.i, Finished2(p, s).value.0, Answered1(p, s).value.0)
  {
    AnswersIff(p, s);
    if Answered1(p, s).Ok? {
      FinalizesIff(p, s);
      if Finished2(p, s).Ok? {
        OtherEndAgrees(p, s.i, Finished2(p, s).value.0, Answered1(p, s).value.0);
      }
    }
  }

  // ── As a run among others ──

  /** The signature verifies for nothing but what it was made for. */
  ghost predicate SignsOnly(p: Primitives, signer: Party, sig: bytes, digest: Digest) {
    forall d :: p.verify(signer, d, sig) ==> d == digest
  }

  /** What the initiator's Start event is given. */
  datatype StartInput = StartInput(preferred: AeadAlgo, sig: bytes, mac: bytes)

  /** Two honest parties, with what the two sides need and signatures that are no forgeries. */
  ghost predicate Runs(p: Primitives, honest: set<Party>, s: Setup, start: StartInput) {
    && s.Valid(p) && Unsigned(p, s).Sized()
    && InitFits(s) && ResponderCan(p, s) && InitiatorCan(p, s) && ConfirmVerifies(p, s)
    && s.i.own in honest && s.i.peer in honest && p.xPub(s.i.x) != p.xPub(s.c.x)
    && |start.mac| == MAC_LEN && s.i.init == NewInit(p, s.i.x, s.i.k, start.preferred, start.sig, start.mac)
    && SignsOnly(p, s.i.peer, s.c.sig, RoleBound(ResponderProof, HashOf(p, s)))
    && SignsOnly(p, s.i.own, s.mine.sig, RoleBound(InitiatorProof, HashOf(p, s)))
  }

  function World1(p: Primitives, s: Setup): World {
    Started(p, NOTHING_YET, 0, s.i)
  }

  function World2(p: Primitives, s: Setup, r: Responder): World {
    Answered(p, World1(p, s), 0, r)
  }

  function World3(p: Primitives, s: Setup, r: Responder, o: Outcome): World {
    Finished(World2(p, s, r), 0, o)
  }

  function World4(p: Primitives, s: Setup, r: Responder, o: Outcome): World {
    World3(p, s, r, o).(responders := World3(p, s, r, o).responders[0 := (r, Established(()))])
  }

  lemma Starts(p: Primitives, honest: set<Party>, s: Setup, start: StartInput)
    requires Runs(p, honest, s, start)
    ensures Next(p, honest, NOTHING_YET, World1(p, s))
  {
    var e := Start(0, s.i.own, s.i.peer, s.i.x, s.i.k, start.preferred, start.sig, start.mac);
    assert Enabled(p, honest, NOTHING_YET, e) && World1(p, s) == Apply(p, honest, NOTHING_YET, e);
  }

  lemma Answers(p: Primitives, honest: set<Party>, s: Setup, start: StartInput)
    requires Runs(p, honest, s, start)
    ensures Answered1(p, s).Ok? && Next(p, honest, World1(p, s), World2(p, s, Answered1(p, s).value.0))
  {
    AnswersIff(p, s);
    var e := Answer(0, s.i.peer, s.i.own, s.preferred, Wire0(s).value, s.c);
    assert Enabled(p, honest, World1(p, s), e);
    assert World2(p, s, Answered1(p, s).value.0) == Apply(p, honest, World1(p, s), e);
  }

  lemma Finishes(p: Primitives, honest: set<Party>, s: Setup, start: StartInput)
    requires Runs(p, honest, s, start) && Answered1(p, s).Ok?
    ensures Finished2(p, s).Ok?
    ensures var r, o := Answered1(p, s).value.0, Finished2(p, s).value.0;
            Next(p, honest, World2(p, s, r), World3(p, s, r, o))
  {
    AnswersIff(p, s);
    FinalizesIff(p, s);
    var (r, raw) := Answered1(p, s).value;
    var w := World2(p, s, r);
    var e := Finish(0, raw, s.mine, s.pad2);
    assert Signature(s.i.peer, RoleBound(ResponderProof, HashOf(p, s))) in w.signed;
    assert UnforgedIn(p, honest, w, s.i.peer, raw);
    assert Enabled(p, honest, w, e) && World3(p, s, r, Finished2(p, s).value.0) == Apply(p, honest, w, e);
  }

  lemma ConfirmsLast(p: Primitives, honest: set<Party>, s: Setup, start: StartInput)
    requires Runs(p, honest, s, start) && Answered1(p, s).Ok? && Finished2(p, s).Ok?
    ensures var r, o := Answered1(p, s).value.0, Finished2(p, s).value.0;
            Next(p, honest, World3(p, s, r, o), World4(p, s, r, o))
  {
    AnswersIff(p, s);
    FinalizesIff(p, s);
    var r := Answered1(p, s).value.0;
    var (o, raw) := Finished2(p, s).value;
    var w := World3(p, s, r, o);
    var e := Confirmation(0, raw);
    assert Signature(s.i.own, RoleBound(InitiatorProof, HashOf(p, s))) in w.signed;
    assert UnforgedIn(p, honest, w, s.i.own, raw);
    assert Enabled(p, honest, w, e) && World4(p, s, r, o) == Apply(p, honest, w, e);
  }

  /** The undisturbed handshake of two honest parties is a run of the world in which both
      ends establish: what the agreement theorems start from does occur. */
  lemma BothSidesEstablish(p: Primitives, honest: set<Party>, s: Setup, start: StartInput) returns (run: seq<World>)
    requires Runs(p, honest, s, start)
    ensures IsRun(p, honest, run)
    ensures var w := run[|run| - 1];
            && 0 in w.initiators && w.initiators[0].1.Established? && w.initiators[0].0.peer in honest
            && 0 in w.responders && w.responders[0].1.Established? && w.responders[0].0.peer in honest
  {
    Starts(p, honest, s, start);
    Answers(p, honest, s, start);
    Finishes(p, honest, s, start);
    ConfirmsLast(p, honest, s, start);
    AnswersIff(p, s);
    var r, o := Answered1(p, s).value.0, Finished2(p, s).value.0;
    run := [NOTHING_YET];
    run := OneMore(p, honest, run, World1(p, s));
    run := OneMore(p, honest, run, World2(p, s, r));
    run := OneMore(p, honest, run, World3(p, s, r, o));
    run := OneMore(p, honest, run, World4(p, s, r, o));
  }

  lemma OneMore(p: Primitives, honest: set<Party>, run: seq<World>, w: World) returns (more: seq<World>)
    requires p.Ideal() && IsRun(p, honest, run) && Next(p, honest, run[|run| - 1], w)
    ensures IsRun(p, honest, more) && more[|more| - 1] == w
  {
    more := run + [w];
    forall i | 0 <= i < |more| - 1 ensures Next(p, honest, more[i], more[i + 1]) {
      if i < |run| - 1 { assert more[i] == run[i] && more[i + 1] == run[i + 1]; }
    }
  }
}
