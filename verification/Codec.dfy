/** Handshake messages on the wire: 8192 bytes, whatever the message. */
module Codec {
  import opened Words
  import opened Bytes
  import opened Results

  const HANDSHAKE_MSG_LEN := 8192
  const PROTO_VERSION: byte := 7
  const X25519_PUB_LEN := 32
  const MLKEM_PK_LEN := 1184
  const MLKEM_CT_LEN := 1088
  const MAC_LEN := 32
  const COOKIE_LEN := 16

  // Offsets of the fields before the signature.
  const KEM_AT := 35
  const SIG_LEN_AT := 1219
  const SIG_AT := 1221

  datatype HandshakeType = Init | Response | Confirm | CookieChallenge {
    function AsU8(): byte {
      match this
      case Init => 0x01
      case Response => 0x02
      case Confirm => 0x03
      case CookieChallenge => 0x04
    }
  }

  function TypeFromU8(v: byte): Result<HandshakeType> {
    if v == 0x01 then Ok(Init)
    else if v == 0x02 then Ok(Response)
    else if v == 0x03 then Ok(Confirm)
    else if v == 0x04 then Ok(CookieChallenge)
    else Err(HandshakeError("decode"))
  }

  lemma TypeIff(v: byte, t: HandshakeType)
    ensures TypeFromU8(v) == Ok(t) <==> t.AsU8() == v
    ensures TypeFromU8(v).Ok? <==> 1 <= v <= 4
  {}

  datatype Message = Message(
    version: byte, msgType: HandshakeType, aeadAlgo: byte, x25519: bytes, kem: bytes,
    sig: bytes, mac: bytes, cookie: bytes)
  {
    /** The lengths of the fixed-size arrays. */
    predicate Sized() {
      |x25519| == X25519_PUB_LEN && |kem| == MLKEM_PK_LEN && |mac| == MAC_LEN && |cookie| == COOKIE_LEN
    }

    function MlkemPub(): bytes
      requires Sized()
    {
      kem
    }

    function MlkemCt(): bytes
      requires Sized()
    {
      kem[..MLKEM_CT_LEN]
    }
  }

  // ── What the bytes are ──

  /** Everything before the padding. */
  function Body(m: Message): bytes {
    [m.version, m.msgType.AsU8(), m.aeadAlgo] + m.x25519 + m.kem + LE(|m.sig|, 2) + m.sig + m.mac + m.cookie
  }

  function Encoded(m: Message, noise: nat -> byte): Result<bytes> {
    var body := Body(m);
    if |body| > HANDSHAKE_MSG_LEN then Err(HandshakeError("encode"))
    else Ok(body + seq<byte>(HANDSHAKE_MSG_LEN - |body|, noise))
  }

  function Decoded(raw: bytes): Result<Message> {
    if |raw| != HANDSHAKE_MSG_LEN || raw[0] != PROTO_VERSION then Err(HandshakeError("decode"))
    else
      var msgType :- TypeFromU8(raw[1]);
      var sigLen := ReadU16(raw[SIG_LEN_AT..SIG_AT]);
      var macAt := SIG_AT + sigLen;
      if HANDSHAKE_MSG_LEN < macAt + MAC_LEN + COOKIE_LEN then Err(HandshakeError("decode"))
      else
        Ok(Message(raw[0], msgType, raw[2], raw[3..KEM_AT], raw[KEM_AT..SIG_LEN_AT],
                   raw[SIG_AT..macAt], raw[macAt..macAt + MAC_LEN], raw[macAt + MAC_LEN..macAt + MAC_LEN + COOKIE_LEN]))
  }

  // ── The codec as written: a growing buffer, and a cursor eaten from the front ──

  method Encode(m: Message, noise: nat -> byte) returns (r: Result<bytes>)
    requires m.Sized()
    ensures r == Encoded(m, noise)
  {
    var buf := [m.version];
    buf := buf + [m.msgType.AsU8()];
    buf := buf + [m.aeadAlgo];
    buf := buf + m.x25519;
    buf := buf + m.kem;
    buf := buf + LE(|m.sig|, 2);
    buf := buf + m.sig;
    buf := buf + m.mac;
    buf := buf + m.cookie;
    assert buf == Body(m);
    var used := |buf|;
    if used > HANDSHAKE_MSG_LEN {
      return Err(HandshakeError("encode"));
    }
    var pad := seq<byte>(HANDSHAKE_MSG_LEN - used, noise);
    return Ok(buf + pad);
  }

  method Take(raw: bytes, n: nat) returns (front: bytes, rest: bytes)
    requires n <= |raw|
    ensures front == raw[..n] && rest == raw[n..]
  {
    front, rest := raw[..n], raw[n..];
  }

  method Decode(wire: bytes) returns (r: Result<Message>)
    ensures r == Decoded(wire)
  {
    if |wire| != HANDSHAKE_MSG_LEN {
      return Err(HandshakeError("decode"));
    }
    var head, raw := Take(wire, 3);
    if head[0] != PROTO_VERSION {
      return Err(HandshakeError("decode"));
    }
    var msgType :- TypeFromU8(head[1]);
    var x25519, kem, lenBytes, sig, mac, cookie;
    x25519, raw := Take(raw, X25519_PUB_LEN);
    assert raw == wire[KEM_AT..];
    kem, raw := Take(raw, MLKEM_PK_LEN);
    assert raw == wire[SIG_LEN_AT..];
    lenBytes, raw := Take(raw, 2);
    assert raw == wire[SIG_AT..] && lenBytes == wire[SIG_LEN_AT..SIG_AT];
    var sigLen := ReadU16(lenBytes);
    if |raw| < sigLen + MAC_LEN + COOKIE_LEN {
      return Err(HandshakeError("decode"));
    }
    ghost var macAt := SIG_AT + sigLen;
    sig, raw := Take(raw, sigLen);
    assert raw == wire[macAt..] && sig == wire[SIG_AT..macAt];
    mac, raw := Take(raw, MAC_LEN);
    assert raw == wire[macAt + MAC_LEN..];
    cookie, raw := Take(raw, COOKIE_LEN);
    assert mac == wire[macAt..macAt + MAC_LEN];
    assert cookie == wire[macAt + MAC_LEN..macAt + MAC_LEN + COOKIE_LEN];
    assert x25519 == wire[3..KEM_AT] && kem == wire[KEM_AT..SIG_LEN_AT];
    return Ok(Message(head[0], msgType, head[2], x25519, kem, sig, mac, cookie));
  }

  // ── Round trips ──

  /** The longest signature that fits; far below 65536, so the length field never truncates. */
  const MAX_SIG_LEN := 6923

  /** A message is refused exactly when its signature does not fit; otherwise it takes
      8192 bytes and decodes to itself, whatever noise fills the padding. */
  lemma EncodeThenDecode(m: Message, noise: nat -> byte)
    requires m.Sized() && m.version == PROTO_VERSION
    ensures Encoded(m, noise).Ok? <==> |m.sig| <= MAX_SIG_LEN
    ensures Encoded(m, noise).Ok? ==>
            |Encoded(m, noise).value| == HANDSHAKE_MSG_LEN && Decoded(Encoded(m, noise).value) == Ok(m)
  {
    if |m.sig| <= MAX_SIG_LEN {
      DecodeBody(m, Encoded(m, noise).value);
    }
  }

  lemma DecodeBody(m: Message, raw: bytes)
    requires m.Sized() && m.version == PROTO_VERSION && |m.sig| <= MAX_SIG_LEN
    requires |raw| == HANDSHAKE_MSG_LEN && Body(m) <= raw
    ensures Decoded(raw) == Ok(m)
  {
    BodyHead(m, raw);
    BodyTail(m, raw);
    LE16(|m.sig|);
    ReadU16IsLE(raw[SIG_LEN_AT..SIG_AT]);
    assert TypeFromU8(raw[1]) == Ok(m.msgType);
  }

  lemma BodyHead(m: Message, raw: bytes)
    requires m.Sized() && Body(m) <= raw
    ensures raw[0] == m.version && raw[1] == m.msgType.AsU8() && raw[2] == m.aeadAlgo
    ensures raw[3..KEM_AT] == m.x25519 && raw[KEM_AT..SIG_LEN_AT] == m.kem
    ensures raw[SIG_LEN_AT..SIG_AT] == LE(|m.sig|, 2)
  {}

  lemma BodyTail(m: Message, raw: bytes)
    requires m.Sized() && Body(m) <= raw
    ensures var macAt := SIG_AT + |m.sig|;
            && raw[SIG_AT..macAt] == m.sig
            && raw[macAt..macAt + MAC_LEN] == m.mac
            && raw[macAt + MAC_LEN..macAt + MAC_LEN + COOKIE_LEN] == m.cookie
  {}

  /** Whatever decodes is a sized message, and encoding it again gives back the same
      bytes up to the padding. */
  lemma DecodeThenEncode(raw: bytes, noise: nat -> byte)
    requires Decoded(raw).Ok?
    ensures var m := Decoded(raw).value;
            && m.Sized() && m.version == PROTO_VERSION
            && Body(m) <= raw && Encoded(m, noise).Ok? && Body(m) <= Encoded(m, noise).value
  {
    var m := Decoded(raw).value;
    var macAt := SIG_AT + |m.sig|;
    ReadU16IsLE(raw[SIG_LEN_AT..SIG_AT]);
    assert raw[..3] == [m.version, m.msgType.AsU8(), m.aeadAlgo];
    assert raw[..SIG_AT] == raw[..3] + raw[3..KEM_AT] + raw[KEM_AT..SIG_LEN_AT] + raw[SIG_LEN_AT..SIG_AT];
    assert raw[..macAt + MAC_LEN + COOKIE_LEN]
        == raw[..SIG_AT] + raw[SIG_AT..macAt] + raw[macAt..macAt + MAC_LEN] + raw[macAt + MAC_LEN..macAt + MAC_LEN + COOKIE_LEN];
    assert Body(m) == raw[..macAt + MAC_LEN + COOKIE_LEN];
  }

  // ── What a message contributes to the transcript ──

  function TranscriptBytes(m: Message): bytes
    requires m.Sized()
  {
    [m.version] + [m.msgType.AsU8()] + m.x25519 +
    match m.msgType
    case Init => [m.aeadAlgo] + m.MlkemPub()
    case Response => [m.aeadAlgo] + m.MlkemCt()
    case _ => []
  }

  /** The fields the transcript binds. Signature, MAC and cookie are not among them. */
  predicate SameBound(a: Message, b: Message)
    requires a.Sized() && b.Sized()
  {
    && a.version == b.version && a.msgType == b.msgType && a.x25519 == b.x25519
    && (a.msgType == Init ==> a.aeadAlgo == b.aeadAlgo && a.MlkemPub() == b.MlkemPub())
    && (a.msgType == Response ==> a.aeadAlgo == b.aeadAlgo && a.MlkemCt() == b.MlkemCt())
  }

  lemma TranscriptBytesBind(a: Message, b: Message)
    requires a.Sized() && b.Sized()
    ensures TranscriptBytes(a) == TranscriptBytes(b) <==> SameBound(a, b)
  {
    var s, t := TranscriptBytes(a), TranscriptBytes(b);
    if s == t {
      assert s[0] == a.version && t[0] == b.version;
      assert s[1] == a.msgType.AsU8() && t[1] == b.msgType.AsU8();
      assert s[2..34] == a.x25519 && t[2..34] == b.x25519;
      if a.msgType == Init || a.msgType == Response {
        assert s[34] == a.aeadAlgo && t[34] == b.aeadAlgo;
        assert s[35..] == if a.msgType == Init then a.MlkemPub() else a.MlkemCt();
        assert t[35..] == if b.msgType == Init then b.MlkemPub() else b.MlkemCt();
      }
    }
  }

  /** An Init decoded from the wire, given the peer's cookie and encoded again, decodes at
      the responder to a message with the same transcript bytes as the one first sent. */
  lemma CookieLeavesTranscript(init: Message, cookie: bytes, noise: nat -> byte, again: nat -> byte)
    requires init.Sized() && init.version == PROTO_VERSION && |cookie| == COOKIE_LEN
    requires Encoded(init, noise).Ok?
    ensures var m := Decoded(Encoded(init, noise).value);
            && m.Ok?
            && var wire := Encoded(m.value.(cookie := cookie), again);
            && wire.Ok?
            && Decoded(wire.value) == Ok(init.(cookie := cookie))
            && TranscriptBytes(init.(cookie := cookie)) == TranscriptBytes(init)
  {
    EncodeThenDecode(init, noise);
    EncodeThenDecode(init.(cookie := cookie), again);
  }
}
