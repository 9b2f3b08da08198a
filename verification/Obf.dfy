/** Obfuscation of the data path: header masking keyed on a ciphertext sample, and
    the inner framing that carries the real frame type, the length and the padding. */
module Obf {
  import opened Words
  import opened Bytes
  import opened Results
  import opened Aead

  const SAMPLE_LEN := 16
  const HP_HEADER_LEN := 13
  const MTU_WIRE := 1280
  const SAFE_TUN_MTU := 1232
  const WIRE_TYPE_DATA: byte := 0x01
  const INNER_HEADER_LEN := 3
  const BUCKETS: seq<nat> := [64, 128, 256, 512, 1024]

  datatype FrameType = Data | Handshake | KeepAlive | Close | Padding | Profile {
    function AsU8(): byte {
      match this
      case Data => 0x01
      case Handshake => 0x02
      case KeepAlive => 0x03
      case Close => 0x04
      case Padding => 0x05
      case Profile => 0x06
    }
  }

  function FrameTypeFromU8(v: byte): Result<FrameType> {
    if v == 0x01 then Ok(Data)
    else if v == 0x02 then Ok(Handshake)
    else if v == 0x03 then Ok(KeepAlive)
    else if v == 0x04 then Ok(Close)
    else if v == 0x05 then Ok(Padding)
    else if v == 0x06 then Ok(Profile)
    else Err(UnknownFrameType(v))
  }

  /** The types that are read back are those that are written, and no others. */
  lemma FrameTypeIff(v: byte, t: FrameType)
    ensures FrameTypeFromU8(v) == Ok(t) <==> t.AsU8() == v
    ensures FrameTypeFromU8(v).Err? <==> v == 0 || v > 6
    ensures FrameTypeFromU8(v).Err? ==> FrameTypeFromU8(v) == Err(UnknownFrameType(v))
  {}

  datatype PadPolicy = Off | Bucketed | Full

  function MaxFramed(tagLen: nat): nat {
    var afterHeader := if MTU_WIRE < HP_HEADER_LEN then 0 else MTU_WIRE - HP_HEADER_LEN;
    if afterHeader < tagLen then 0 else afterHeader - tagLen
  }

  // ── Header masking ──

  datatype Recovered = Recovered(wireType: byte, sessionId: u32, counter: u64)

  function HeaderMask(mac: Mac, key: bytes, sample: bytes): (m: bytes)
    ensures |m| == HP_HEADER_LEN
  {
    mac(key, sample)[..HP_HEADER_LEN]
  }

  function SampleOf(ct: bytes): bytes
    requires |ct| >= SAMPLE_LEN
  {
    ct[|ct| - SAMPLE_LEN..]
  }

  function CtSlice(datagram: bytes): bytes
    requires |datagram| >= HP_HEADER_LEN
  {
    datagram[HP_HEADER_LEN..]
  }

  function Header(sessionId: u32, counter: u64): (h: bytes)
    ensures |h| == HP_HEADER_LEN
  {
    [WIRE_TYPE_DATA] + LE(sessionId, 4) + LE(counter, 8)
  }

  /** The datagram for a sealed packet: masked header, then ciphertext. */
  function Wire(mac: Mac, key: bytes, sessionId: u32, counter: u64, ct: bytes): bytes
    requires |ct| >= SAMPLE_LEN
  {
    Masked(Header(sessionId, counter), HeaderMask(mac, key, SampleOf(ct))) + ct
  }

  function ParseHeader(h: bytes): Recovered
    requires |h| == HP_HEADER_LEN
  {
    Recovered(h[0], ReadU32(h[1..5]), ReadU64(h[5..13]))
  }

  function Unmasked(mac: Mac, key: bytes, datagram: bytes): Option<Recovered> {
    if |datagram| < HP_HEADER_LEN + SAMPLE_LEN then None
    else Some(ParseHeader(Masked(datagram[..HP_HEADER_LEN], HeaderMask(mac, key, SampleOf(datagram)))))
  }

  /** Masking is undone by the receiver, who samples the same ciphertext tail. */
  lemma UnmaskWire(mac: Mac, key: bytes, sessionId: u32, counter: u64, ct: bytes)
    requires |ct| >= SAMPLE_LEN
    ensures var w := Wire(mac, key, sessionId, counter, ct);
            && |w| == HP_HEADER_LEN + |ct|
            && CtSlice(w) == ct
            && Unmasked(mac, key, w) == Some(Recovered(WIRE_TYPE_DATA, sessionId, counter))
  {
    var h := Header(sessionId, counter);
    var w := Wire(mac, key, sessionId, counter, ct);
    assert SampleOf(w) == SampleOf(ct);
    assert w[..HP_HEADER_LEN] == Masked(h, HeaderMask(mac, key, SampleOf(ct)));
    MaskedTwice(h, HeaderMask(mac, key, SampleOf(ct)));
    assert h[1..5] == LE(sessionId, 4) && h[5..13] == LE(counter, 8);
    LE32(sessionId);
    LE64(counter);
  }

  /** On the wire, byte k of the first 13 is the header's (type 1, session id, counter, both
      little-endian) XORed with byte k of the MAC of the datagram's last 16 bytes. */
  lemma WireBytes(mac: Mac, key: bytes, sessionId: u32, counter: u64, ct: bytes, k: nat)
    requires |ct| >= SAMPLE_LEN && k < 13
    ensures var w := Wire(mac, key, sessionId, counter, ct);
            && |w| == 13 + |ct|
            && w[k] == XorByte(([0x01] + LE(sessionId, 4) + LE(counter, 8))[k], mac(key, w[|w| - 16..])[k])
  {
    var w := Wire(mac, key, sessionId, counter, ct);
    assert w[|w| - 16..] == SampleOf(ct);
  }

  method SealWire(mac: Mac, key: bytes, sessionId: u32, counter: u64, ct: bytes) returns (out: bytes)
    requires |ct| >= SAMPLE_LEN
    ensures out == Wire(mac, key, sessionId, counter, ct)
  {
    var h := new byte[HP_HEADER_LEN];
    var fields := [WIRE_TYPE_DATA] + LE(sessionId, 4) + LE(counter, 8);
    forall i | 0 <= i < HP_HEADER_LEN { h[i] := fields[i]; }
    var mask := HeaderMask(mac, key, SampleOf(ct));
    for i := 0 to HP_HEADER_LEN
      invariant forall k | 0 <= k < i :: h[k] == XorByte(fields[k], mask[k])
      invariant forall k | i <= k < HP_HEADER_LEN :: h[k] == fields[k]
    {
      h[i] := XorByte(h[i], mask[i]);
    }
    assert h[..] == Masked(fields, mask);
    out := h[..] + ct;
  }

  method Unmask(mac: Mac, key: bytes, datagram: bytes) returns (r: Option<Recovered>)
    ensures r == Unmasked(mac, key, datagram)
  {
    if |datagram| < HP_HEADER_LEN + SAMPLE_LEN {
      return None;
    }
    var mask := HeaderMask(mac, key, SampleOf(datagram));
    var h := new byte[HP_HEADER_LEN];
    for i := 0 to HP_HEADER_LEN
      invariant forall k | 0 <= k < i :: h[k] == XorByte(datagram[k], mask[k])
    {
      h[i] := XorByte(datagram[i], mask[i]);
    }
    assert h[..] == Masked(datagram[..HP_HEADER_LEN], mask);
    r := Some(ParseHeader(h[..]));
  }

  /** A datagram is read exactly when it has 29 bytes or more, and as what its first 13 bytes
      are the masking of; the type byte is read and left to others. */
  lemma UnmaskedIff(mac: Mac, key: bytes, datagram: bytes, wireType: byte, sessionId: u32, counter: u64)
    ensures Unmasked(mac, key, datagram) == Some(Recovered(wireType, sessionId, counter))
       <==> |datagram| >= 29
            && datagram[..13] == Masked([wireType] + LE(sessionId, 4) + LE(counter, 8), mac(key, datagram[|datagram| - 16..])[..13])
  {
    if |datagram| >= 29 {
      var mask := mac(key, datagram[|datagram| - 16..])[..13];
      var fields := [wireType] + LE(sessionId, 4) + LE(counter, 8);
      var plain := Masked(datagram[..13], mask);
      MaskedTwice(datagram[..13], mask);
      MaskedTwice(fields, mask);
      ParseHeaderIff(plain, wireType, sessionId, counter);
    }
  }

  lemma ParseHeaderIff(h: bytes, wireType: byte, sessionId: u32, counter: u64)
    requires |h| == 13
    ensures ParseHeader(h) == Recovered(wireType, sessionId, counter) <==> h == [wireType] + LE(sessionId, 4) + LE(counter, 8)
  {
    if h == [wireType] + LE(sessionId, 4) + LE(counter, 8) {
      assert h[1..5] == LE(sessionId, 4) && h[5..13] == LE(counter, 8);
      LE32(sessionId);
      LE64(counter);
    }
    if ParseHeader(h) == Recovered(wireType, sessionId, counter) {
      LEOfFromLE(h[1..5]);
      LEOfFromLE(h[5..13]);
      assert h == [h[0]] + h[1..5] + h[5..13];
    }
  }

  // ── Inner framing ──

  function FirstBucket(buckets: seq<nat>, base: nat, maxFramed: nat): nat {
    if buckets == [] then base
    else if buckets[0] >= base && buckets[0] <= maxFramed then buckets[0]
    else FirstBucket(buckets[1..], base, maxFramed)
  }

  function PadTarget(base: nat, policy: PadPolicy, maxFramed: nat): nat {
    match policy
    case Off => base
    case Full => if base <= maxFramed then maxFramed else base
    case Bucketed => FirstBucket(BUCKETS, base, maxFramed)
  }

  lemma {:induction false} BucketRange(buckets: seq<nat>, base: nat, maxFramed: nat)
    ensures FirstBucket(buckets, base, maxFramed) == base
         || base <= FirstBucket(buckets, base, maxFramed) <= maxFramed
  {
    if buckets != [] { BucketRange(buckets[1..], base, maxFramed); }
  }

  lemma PadTargetRange(base: nat, policy: PadPolicy, maxFramed: nat)
    ensures base <= PadTarget(base, policy, maxFramed)
    ensures PadTarget(base, policy, maxFramed) <= if base <= maxFramed then maxFramed else base
  {
    BucketRange(BUCKETS, base, maxFramed);
  }

  predicate Fits(b: nat, base: nat, maxFramed: nat) {
    base <= b <= maxFramed
  }

  lemma {:induction false} LeastBucket(buckets: seq<nat>, base: nat, maxFramed: nat)
    requires forall i, j | 0 <= i < j < |buckets| :: buckets[i] < buckets[j]
    ensures var t := FirstBucket(buckets, base, maxFramed);
            if exists b :: b in buckets && Fits(b, base, maxFramed)
            then t in buckets && Fits(t, base, maxFramed) && forall b | b in buckets && Fits(b, base, maxFramed) :: t <= b
            else t == base
  {
    if buckets != [] {
      LeastBucket(buckets[1..], base, maxFramed);
      assert forall b | b in buckets :: b == buckets[0] || b in buckets[1..];
    }
  }

  predicate IsClass(b: nat) {
    b == 64 || b == 128 || b == 256 || b == 512 || b == 1024
  }

  /** Off pads nothing. Bucketed pads to the least of the five classes that holds the frame
      and fits, if there is one. */
  lemma BucketIsLeast(base: nat, maxFramed: nat)
    ensures PadTarget(base, Off, maxFramed) == base
    ensures var t := PadTarget(base, Bucketed, maxFramed);
            if exists b :: IsClass(b) && Fits(b, base, maxFramed)
            then IsClass(t) && Fits(t, base, maxFramed) && forall b | IsClass(b) && Fits(b, base, maxFramed) :: t <= b
            else t == base
  {
    LeastBucket(BUCKETS, base, maxFramed);
    assert BUCKETS[0] == 64 && BUCKETS[1] == 128 && BUCKETS[2] == 256 && BUCKETS[3] == 512 && BUCKETS[4] == 1024;
    assert forall b: nat :: b in BUCKETS <==> IsClass(b);
  }

  function Inner(innerType: byte, plaintext: bytes, pad: bytes): (framed: bytes)
    ensures |framed| == INNER_HEADER_LEN + |plaintext| + |pad|
  {
    [innerType] + LE(|plaintext|, 2) + plaintext + pad
  }

  function PadLen(plainLen: nat, policy: PadPolicy, maxFramed: nat): nat {
    PadTargetRange(INNER_HEADER_LEN + plainLen, policy, maxFramed);
    PadTarget(INNER_HEADER_LEN + plainLen, policy, maxFramed) - (INNER_HEADER_LEN + plainLen)
  }

  /** `noise` stands for the random generator that fills the padding. */
  function Packed(innerType: byte, plaintext: bytes, policy: PadPolicy, maxFramed: nat, noise: nat -> byte): bytes {
    Inner(innerType, plaintext, seq<byte>(PadLen(|plaintext|, policy, maxFramed), noise))
  }

  method PackInner(innerType: byte, plaintext: bytes, policy: PadPolicy, maxFramed: nat, noise: nat -> byte)
    returns (framed: bytes)
    ensures framed == Packed(innerType, plaintext, policy, maxFramed, noise)
  {
    var base := INNER_HEADER_LEN + |plaintext|;
    var target := PadTarget(base, policy, maxFramed);
    PadTargetRange(base, policy, maxFramed);
    framed := [innerType];
    framed := framed + LE(|plaintext|, 2);
    framed := framed + plaintext;
    if target > base {
      var pad := seq<byte>(target - base, noise);
      framed := framed + pad;
    }
  }

  function UnpackInner(framed: bytes): Result<(byte, bytes)> {
    if |framed| < INNER_HEADER_LEN then Err(PacketTooShort(|framed|, INNER_HEADER_LEN))
    else
      var end := INNER_HEADER_LEN + ReadU16(framed[1..3]);
      if end > |framed| then Err(DecryptionFailed)
      else Ok((framed[0], framed[INNER_HEADER_LEN..end]))
  }

  /** The framing gives back type and payload whatever the padding is, exactly as
      long as the payload length survives the cast to 16 bits. */
  lemma UnpackPacked(innerType: byte, plaintext: bytes, pad: bytes)
    ensures UnpackInner(Inner(innerType, plaintext, pad)) == Ok((innerType, plaintext))
       <==> |plaintext| < 0x1_0000
  {
    var framed := Inner(innerType, plaintext, pad);
    assert framed[1..3] == LE(|plaintext|, 2);
    ReadU16IsLE(framed[1..3]);
    LE16(|plaintext|);
    if |plaintext| < 0x1_0000 {
      assert framed[INNER_HEADER_LEN..INNER_HEADER_LEN + |plaintext|] == plaintext;
    }
  }

  /** What unpacks is exactly what was framed, with whatever padding behind it. */
  lemma UnpackIff(framed: bytes, innerType: byte, payload: bytes)
    ensures UnpackInner(framed) == Ok((innerType, payload))
       <==> |payload| < 0x1_0000 && Inner(innerType, payload, []) <= framed
    ensures |framed| < 3 <==> UnpackInner(framed) == Err(PacketTooShort(|framed|, 3))
    ensures UnpackInner(framed).Err? && |framed| >= 3 ==> UnpackInner(framed) == Err(DecryptionFailed)
  {
    if |payload| < 0x1_0000 && Inner(innerType, payload, []) <= framed {
      var pad := framed[3 + |payload|..];
      assert Inner(innerType, payload, pad) == Inner(innerType, payload, []) + pad == framed;
      UnpackPacked(innerType, payload, pad);
    }
    if UnpackInner(framed) == Ok((innerType, payload)) {
      ReadU16IsLE(framed[1..3]);
      assert framed[..3 + |payload|] == [framed[0]] + framed[1..3] + framed[3..3 + |payload|] == Inner(innerType, payload, []);
    }
  }

  // ── Size on the wire ──

  /** The length of the datagram for a payload of `n` bytes. */
  function WireLen(n: nat, algo: AeadAlgo, policy: PadPolicy): nat {
    HP_HEADER_LEN + PadTarget(INNER_HEADER_LEN + n, policy, MaxFramed(algo.TagLen())) + algo.TagLen()
  }

  /** Padding never pushes a datagram over the MTU: it fits exactly when the
      unpadded one does; full padding fills it to the MTU, or adds nothing. */
  lemma WireLenBound(n: nat, algo: AeadAlgo, policy: PadPolicy)
    ensures WireLen(n, algo, policy) <= MTU_WIRE <==> n + INNER_HEADER_LEN + HP_HEADER_LEN + algo.TagLen() <= MTU_WIRE
    ensures policy == Full ==>
            (WireLen(n, algo, policy) == MTU_WIRE <==> n + INNER_HEADER_LEN + HP_HEADER_LEN + algo.TagLen() <= MTU_WIRE)
  {
    PadTargetRange(INNER_HEADER_LEN + n, policy, MaxFramed(algo.TagLen()));
  }

  /** 1232, the largest tunnel MTU the configuration accepts, is the largest payload
      that fits the MTU under both ciphers, whatever the padding policy. */
  lemma SafeTunMtuIsTight(n: nat)
    ensures (forall algo: AeadAlgo, policy: PadPolicy :: WireLen(n, algo, policy) <= MTU_WIRE) <==> n <= SAFE_TUN_MTU
  {
    forall algo: AeadAlgo, policy: PadPolicy
      ensures WireLen(n, algo, policy) <= MTU_WIRE <==> n + INNER_HEADER_LEN + HP_HEADER_LEN + algo.TagLen() <= MTU_WIRE
    {
      WireLenBound(n, algo, policy);
    }
    if n > SAFE_TUN_MTU { assert WireLen(n, Aegis256X2, Off) > MTU_WIRE; }
  }
}
