/** The three-message handshake, on wire bytes. The cryptographic primitives are ideal:
    hashes are injective terms, and no one else's signature verifies under an honest key
    (a hypothesis on runs; any other freedom of the signature bytes is left open). */
module Handshakes {
  import opened Words
  import opened Bytes
  import opened Results
  import opened Aead
  import opened Sessions
  import opened Codec
  import opened Transcripts

  type Secret = nat

  /** A party is its pinned Ed25519 public key. */
  type Party = b: bytes | |b| == 32 witness seq(32, _ => 0)

  datatype Primitives = Primitives(
    xPub: Secret -> bytes,                    // X25519
    dh: (Secret, bytes) -> bytes,
    kemPub: Secret -> bytes,                  // ML-KEM-768
    validPk: bytes -> bool,
    validCt: bytes -> bool,
    encaps: (Secret, bytes) -> (bytes, bytes),
    decaps: (Secret, bytes) -> bytes,
    combine: (bytes, bytes) -> bytes,         // derive_shared
    sessionId: bytes -> u32,
    confirmTag: (bytes, Digest) -> bytes,     // HMAC under mac_key_from(shared)
    verify: (Party, Digest, bytes) -> bool,   // the authenticator, whatever bytes it accepts
    kdf: Kdf)
  {
    ghost predicate Ideal() {
      && (forall x :: |xPub(x)| == X25519_PUB_LEN && |kemPub(x)| == MLKEM_PK_LEN)
      && (forall x, y :: dh(x, xPub(y)) == dh(y, xPub(x)))
      && (forall k, r :: decaps(k, encaps(r, kemPub(k)).1) == encaps(r, kemPub(k)).0)
      && (forall r, pk :: |encaps(r, pk).1| == MLKEM_CT_LEN)
      && (forall s, d :: |confirmTag(s, d)| == MAC_LEN)
    }
  }

  predicate AllZero(s: bytes) {
    forall i | 0 <= i < |s| :: s[i] == 0
  }

  // ── Signatures ──

  /** Who signed what. Which bytes came out is not recorded: a scheme may accept others for
      the same signer and digest, as the hybrid one does with bytes appended. */
  datatype Signature = Signature(signer: Party, digest: Digest)

  /** A presented signature that verifies under an honest key is for something that party signed. */
  ghost predicate Unforged(p: Primitives, honest: set<Party>, signed: set<Signature>, signer: Party, sig: bytes) {
    signer in honest ==> forall digest :: p.verify(signer, digest, sig) ==> Signature(signer, digest) in signed
  }

  function TranscriptOf(own: Party, peer: Party, init: Message, resp: Message): Digest
    requires init.Sized() && resp.Sized()
  {
    TranscriptHash(Stream([Binding(own, peer), TranscriptBytes(init), TranscriptBytes(resp)]))
  }

  /** What either side feeds its transcript, in order, and the hash it signs. */
  method HashTranscript(own: Party, peer: Party, init: Message, resp: Message) returns (h: Digest)
    requires init.Sized() && resp.Sized()
    ensures h == TranscriptOf(own, peer, init, resp)
  {
    var transcript := new Transcript();
    transcript.Absorb(Binding(own, peer));
    transcript.Absorb(TranscriptBytes(init));
    transcript.Absorb(TranscriptBytes(resp));
    assert transcript.items == [Binding(own, peer), TranscriptBytes(init), TranscriptBytes(resp)];
    h := transcript.Hash();
  }

  // ── The messages ──

  function NewInit(p: Primitives, x: Secret, k: Secret, preferred: AeadAlgo, sig: bytes, mac: bytes): Message {
    Message(PROTO_VERSION, Init, preferred.AsU8(), p.xPub(x), p.kemPub(k), sig, mac, seq(COOKIE_LEN, _ => 0))
  }

  function NewResponse(xPub: bytes, ct: bytes, chosen: AeadAlgo, noise: bytes): Message {
    Message(PROTO_VERSION, Response, chosen.AsU8(), xPub, ct + noise, [], seq(MAC_LEN, _ => 0), seq(COOKIE_LEN, _ => 0))
  }

  datatype Initiator = Initiator(own: Party, peer: Party, x: Secret, k: Secret, init: Message)

  datatype Responder = Responder(
    own: Party, peer: Party, x: Secret, r: Secret,
    init: Message, resp: Message, hash: Digest, keys: SessionKeys)

  datatype Outcome = Outcome(resp: Message, hash: Digest, keys: SessionKeys)

  /** The responder's random choices for one run. */
  datatype Choices = Choices(x: Secret, r: Secret, kemNoise: bytes, sig: bytes, pad: nat -> byte)

  function ChosenAlgo(preferred: AeadAlgo, wireId: byte): AeadAlgo {
    match FromU8(wireId)
    case Ok(peer) => Negotiate(preferred, peer)
    case Err(_) => Negotiate(preferred, ChaCha20Poly1305)
  }

  /** AEGIS exactly when the responder prefers it and the Init asks for it. */
  lemma ChosenIff(preferred: AeadAlgo, wireId: byte)
    ensures ChosenAlgo(preferred, wireId) == Aegis256X2 <==> preferred == Aegis256X2 && wireId == 2
  {}

  /** `respond`: process an Init, build and sign the Response. */
  function Respond(p: Primitives, own: Party, peer: Party, preferred: AeadAlgo, raw: bytes, c: Choices): Result<(Responder, bytes)>
    requires p.Ideal() && |c.kemNoise| == MLKEM_PK_LEN - MLKEM_CT_LEN
  {
    var init :- Decoded(raw);
    DecodeThenEncode(raw, c.pad);
    if init.msgType != Init || !p.validPk(init.MlkemPub()) then Err(HandshakeError("respond"))
    else
      var chosen := ChosenAlgo(preferred, init.aeadAlgo);
      var (kemSs, ct) := p.encaps(c.r, init.MlkemPub());
      var xSs := p.dh(c.x, init.x25519);
      if AllZero(xSs) then Err(HandshakeError("respond"))
      else
        var shared := p.combine(xSs, kemSs);
        var unsigned := NewResponse(p.xPub(c.x), ct, chosen, c.kemNoise);
        var hash := TranscriptOf(own, peer, init, unsigned);
        var resp := unsigned.(sig := c.sig, mac := p.confirmTag(shared, hash));
        var wire :- Encoded(resp, c.pad);
        var keys := DeriveSession(p.kdf, p.sessionId(shared), shared, false, chosen);
        Ok((Responder(own, peer, c.x, c.r, init, resp, hash, keys), wire))
  }

  /** `finalize`: check the Response and its signature, sign the Confirm. */
  function Finalize(p: Primitives, i: Initiator, raw: bytes, mine: Message, pad: nat -> byte): Result<(Outcome, bytes)>
    requires p.Ideal() && i.init.Sized() && mine.Sized() && mine.msgType == Confirm
  {
    var resp :- Decoded(raw);
    DecodeThenEncode(raw, pad);
    if resp.msgType != Response || !p.validCt(resp.MlkemCt()) then Err(HandshakeError("finalize"))
    else
      var kemSs := p.decaps(i.k, resp.MlkemCt());
      var xSs := p.dh(i.x, resp.x25519);
      if AllZero(xSs) then Err(HandshakeError("finalize"))
      else
        var shared := p.combine(xSs, kemSs);
        var hash := TranscriptOf(i.own, i.peer, i.init, resp);
        if !p.verify(i.peer, RoleBound(ResponderProof, hash), resp.sig) then Err(HandshakeError("finalize"))
        else if resp.mac != p.confirmTag(shared, hash) then Err(HandshakeError("finalize"))
        else
          var wire :- Encoded(mine.(mac := p.confirmTag(shared, hash)), pad);
          var chosen :- FromU8(resp.aeadAlgo);
          Ok((Outcome(resp, hash, DeriveSession(p.kdf, p.sessionId(shared), shared, true, chosen)), wire))
  }

  /** `confirm`: check the initiator's signature over the stored transcript hash. */
  predicate Confirms(p: Primitives, r: Responder, raw: bytes) {
    && Decoded(raw).Ok? && Decoded(raw).value.msgType == Confirm
    && p.verify(r.peer, RoleBound(InitiatorProof, r.hash), Decoded(raw).value.sig)
  }

  // ── When the steps succeed, on any bytes ──

  /** `respond` answers exactly an Init with a valid KEM key and a Diffie-Hellman result that
      is not zero, as long as its own signature fits. */
  lemma RespondIff(p: Primitives, own: Party, peer: Party, preferred: AeadAlgo, raw: bytes, c: Choices)
    requires p.Ideal() && |c.kemNoise| == MLKEM_PK_LEN - MLKEM_CT_LEN
    ensures Respond(p, own, peer, preferred, raw, c).Ok?
       <==> && Decoded(raw).Ok? && Decoded(raw).value.msgType == Init && p.validPk(Decoded(raw).value.kem)
            && (exists k :: 0 <= k < |p.dh(c.x, Decoded(raw).value.x25519)| && p.dh(c.x, Decoded(raw).value.x25519)[k] != 0)
            && |c.sig| <= MAX_SIG_LEN
  {
    if Decoded(raw).Ok? {
      DecodeThenEncode(raw, c.pad);
      var init := Decoded(raw).value;
      var shared := p.combine(p.dh(c.x, init.x25519), p.encaps(c.r, init.kem).0);
      var unsigned := NewResponse(p.xPub(c.x), p.encaps(c.r, init.kem).1, ChosenAlgo(preferred, init.aeadAlgo), c.kemNoise);
      EncodeThenDecode(unsigned.(sig := c.sig, mac := p.confirmTag(shared, TranscriptOf(own, peer, init, unsigned))), c.pad);
    }
  }

  /** The secret and the transcript hash an initiator computes from a Response. */
  function SecretFrom(p: Primitives, i: Initiator, resp: Message): bytes
    requires resp.Sized()
  {
    p.combine(p.dh(i.x, resp.x25519), p.decaps(i.k, resp.kem[..1088]))
  }

  /** `finalize` establishes exactly on a Response with a valid KEM ciphertext, a Diffie-Hellman
      result that is not zero, a responder proof that verifies, the confirmation tag of the
      very secret and transcript, and a known cipher; any other tag is refused. */
  lemma FinalizeIff(p: Primitives, i: Initiator, raw: bytes, mine: Message, pad: nat -> byte)
    requires p.Ideal() && i.init.Sized() && mine.Sized() && mine.msgType == Confirm && mine.version == PROTO_VERSION
    ensures Decoded(raw).Ok? ==> Decoded(raw).value.Sized()
    ensures Finalize(p, i, raw, mine, pad).Ok?
       <==> && Decoded(raw).Ok? && Decoded(raw).value.msgType == Response && p.validCt(Decoded(raw).value.kem[..1088])
            && (exists k :: 0 <= k < |p.dh(i.x, Decoded(raw).value.x25519)| && p.dh(i.x, Decoded(raw).value.x25519)[k] != 0)
            && var resp := Decoded(raw).value;
               var hash := TranscriptOf(i.own, i.peer, i.init, resp);
               && p.verify(i.peer, RoleBound(ResponderProof, hash), resp.sig)
               && resp.mac == p.confirmTag(SecretFrom(p, i, resp), hash)
               && (resp.aeadAlgo == 1 || resp.aeadAlgo == 2)
               && |mine.sig| <= MAX_SIG_LEN
    ensures Finalize(p, i, raw, mine, pad).Ok? ==>
            var (o, wire) := Finalize(p, i, raw, mine, pad).value;
            Decoded(wire) == Ok(mine.(mac := p.confirmTag(SecretFrom(p, i, o.resp), o.hash)))
  {
    if Decoded(raw).Ok? {
      DecodeThenEncode(raw, pad);
      var resp := Decoded(raw).value;
      var hash := TranscriptOf(i.own, i.peer, i.init, resp);
      EncodeThenDecode(mine.(mac := p.confirmTag(SecretFrom(p, i, resp), hash)), pad);
    }
  }

  /** `confirm` accepts exactly a Confirm whose signature verifies as the peer's initiator
      proof over the transcript that was answered. */
  lemma ConfirmsIff(p: Primitives, r: Responder, raw: bytes)
    ensures Confirms(p, r, raw)
       <==> && Decoded(raw).Ok? && Decoded(raw).value.msgType == Confirm
            && p.verify(r.peer, RoleBound(InitiatorProof, r.hash), Decoded(raw).value.sig)
  {}

  // ── What the two ends of one transcript share ──

  ghost predicate InitiatorOk(p: Primitives, i: Initiator) {
    && i.init.Sized() && i.init.msgType == Init
    && i.init.x25519 == p.xPub(i.x) && i.init.kem == p.kemPub(i.k)
  }

  ghost predicate ResponderOk(p: Primitives, r: Responder) {
    && r.init.Sized() && r.init.msgType == Init && r.resp.Sized() && r.resp.msgType == Response
    && r.hash == TranscriptOf(r.own, r.peer, r.init, r.resp)
    && r.resp.x25519 == p.xPub(r.x)
    && r.resp.MlkemCt() == p.encaps(r.r, r.init.MlkemPub()).1
    && exists algo: AeadAlgo ::
         && r.resp.aeadAlgo == algo.AsU8()
         && var shared := p.combine(p.dh(r.x, r.init.x25519), p.encaps(r.r, r.init.MlkemPub()).0);
            r.keys == DeriveSession(p.kdf, p.sessionId(shared), shared, false, algo)
  }

  ghost predicate OutcomeOk(p: Primitives, i: Initiator, o: Outcome)
    requires i.init.Sized()
  {
    && o.resp.Sized() && o.resp.msgType == Response
    && o.hash == TranscriptOf(i.own, i.peer, i.init, o.resp)
    && exists algo: AeadAlgo ::
         && FromU8(o.resp.aeadAlgo) == Ok(algo)
         && var shared := p.combine(p.dh(i.x, o.resp.x25519), p.decaps(i.k, o.resp.MlkemCt()));
            o.keys == DeriveSession(p.kdf, p.sessionId(shared), shared, true, algo)
  }

  lemma RespondOk(p: Primitives, own: Party, peer: Party, preferred: AeadAlgo, raw: bytes, c: Choices)
    requires p.Ideal() && |c.kemNoise| == MLKEM_PK_LEN - MLKEM_CT_LEN
    requires Respond(p, own, peer, preferred, raw, c).Ok?
    ensures ResponderOk(p, Respond(p, own, peer, preferred, raw, c).value.0)
  {
    var r := Respond(p, own, peer, preferred, raw, c).value.0;
    DecodeThenEncode(raw, c.pad);
    assert r.resp.MlkemCt() == p.encaps(c.r, r.init.MlkemPub()).1;
    assert r.resp.aeadAlgo == ChosenAlgo(preferred, r.init.aeadAlgo).AsU8();
  }

  lemma FinalizeOk(p: Primitives, i: Initiator, raw: bytes, mine: Message, pad: nat -> byte)
    requires p.Ideal() && InitiatorOk(p, i) && mine.Sized() && mine.msgType == Confirm
    requires Finalize(p, i, raw, mine, pad).Ok?
    ensures OutcomeOk(p, i, Finalize(p, i, raw, mine, pad).value.0)
    ensures var o := Finalize(p, i, raw, mine, pad).value.0;
            p.verify(i.peer, RoleBound(ResponderProof, o.hash), o.resp.sig) && Decoded(raw) == Ok(o.resp)
  {
    DecodeThenEncode(raw, pad);
  }

  /** Equal transcript hashes mean the same two parties, the same Init and the same
      Response in every bound field, and hence the same session with mirrored keys. */
  lemma SameTranscriptSameSession(p: Primitives, i: Initiator, o: Outcome, r: Responder)
    requires p.Ideal() && InitiatorOk(p, i) && OutcomeOk(p, i, o) && ResponderOk(p, r)
    requires i.peer == r.own && o.hash == r.hash
    ensures r.peer == i.own
    ensures SameBound(i.init, r.init) && SameBound(o.resp, r.resp)
    ensures Mirrors(o.keys, r.keys)
  {
    var a := [Binding(i.own, i.peer), TranscriptBytes(i.init), TranscriptBytes(o.resp)];
    var b := [Binding(r.own, r.peer), TranscriptBytes(r.init), TranscriptBytes(r.resp)];
    UniquelyDecodable(a, b);
    assert a[0] == b[0] && a[1] == b[1] && a[2] == b[2];
    BindingNamesBoth(i.own, i.peer, r.own, r.peer);
    TranscriptBytesBind(i.init, r.init);
    TranscriptBytesBind(o.resp, r.resp);
    assert p.dh(i.x, p.xPub(r.x)) == p.dh(r.x, p.xPub(i.x));
    assert p.decaps(i.k, p.encaps(r.r, p.kemPub(i.k)).1) == p.encaps(r.r, p.kemPub(i.k)).0;
  }
}
