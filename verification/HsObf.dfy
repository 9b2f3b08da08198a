/** Obfuscation of the handshake: seal the whole message under a static key, cut the
    result at random sizes, mask the fragment headers. */
module HsObf {
  import opened Words
  import opened Bytes
  import opened Results
  import opened Aead
  import opened Reassembly
  import Obf

  const HS_NONCE_LEN := 12
  const HS_TAG_LEN := 16
  const HS_FRAG_HEADER_LEN := 8
  const MIN_CHUNK := 512
  const MAX_CHUNK := 1024

  /** The static key from pre-shared material: the given secret, or the two public keys. */
  function DeriveKey(kdf: (string, bytes, string) -> bytes, own: bytes, peer: bytes, psk: Option<bytes>): bytes {
    var ikm := match psk case Some(p) => p case None => Binding(own, peer);
    kdf("Chameleon-PQ-v1-hs-obf", ikm, "handshake obfuscation key")
  }

  lemma DeriveKeyIsSymmetric(kdf: (string, bytes, string) -> bytes, own: bytes, peer: bytes, psk: Option<bytes>)
    requires |own| == |peer|
    ensures DeriveKey(kdf, own, peer, psk) == DeriveKey(kdf, peer, own, psk)
  {
    BindingIsSymmetric(own, peer);
  }

  /** The derivation tells its inputs apart. */
  ghost predicate SeparatesInputs(kdf: (string, bytes, string) -> bytes) {
    forall salt, info, a, b | a != b :: kdf(salt, a, info) != kdf(salt, b, info)
  }

  /** A pre-shared secret decides the key alone, whoever the parties are; without one the
      two identities decide it, and which of them is one's own does not matter. */
  lemma DeriveKeyIff(kdf: (string, bytes, string) -> bytes, a: bytes, b: bytes, c: bytes, d: bytes, p: bytes, q: bytes)
    requires SeparatesInputs(kdf) && |a| == |b| == |c| == |d|
    ensures DeriveKey(kdf, a, b, Some(p)) == DeriveKey(kdf, c, d, Some(q)) <==> p == q
    ensures DeriveKey(kdf, a, b, None) == DeriveKey(kdf, c, d, None) <==> (a == c && b == d) || (a == d && b == c)
    ensures DeriveKey(kdf, a, b, Some(p)) == kdf("Chameleon-PQ-v1-hs-obf", p, "handshake obfuscation key")
  {
    BindingIsSymmetric(a, b);
    if Binding(a, b) == Binding(c, d) { BindingNamesBoth(a, b, c, d); }
  }

  // ── Cutting ──

  /** How a blob may be cut: pieces of 512 to 1024 bytes while more than 1024 are left,
      and the rest as the last piece. */
  predicate IsCut(blob: bytes, chunks: seq<bytes>) {
    var n := |chunks|;
    && n > 0
    && Concat(chunks) == blob
    && (forall i | 0 <= i < n - 1 :: MIN_CHUNK <= |chunks[i]| <= MAX_CHUNK)
    && |chunks[n - 1]| <= MAX_CHUNK
    && (n > 1 ==> |chunks[n - 2]| + |chunks[n - 1]| > MAX_CHUNK)
  }

  method VariableChunks(blob: bytes) returns (out: seq<bytes>)
    ensures IsCut(blob, out)
  {
    out := [];
    var off := 0;
    while |blob| - off > MAX_CHUNK
      invariant 0 <= off <= |blob|
      invariant Concat(out) == blob[..off]
      invariant forall i | 0 <= i < |out| :: MIN_CHUNK <= |out[i]| <= MAX_CHUNK
      invariant out != [] ==> |out[|out| - 1]| + (|blob| - off) > MAX_CHUNK
    {
      var take: nat :| MIN_CHUNK <= take <= MAX_CHUNK;
      ConcatOne(out, blob[off..off + take]);
      assert blob[..off] + blob[off..off + take] == blob[..off + take];
      out := out + [blob[off..off + take]];
      off := off + take;
    }
    ConcatOne(out, blob[off..]);
    assert blob[..off] + blob[off..] == blob;
    out := out + [blob[off..]];
  }

  function Ceil(x: int, n: nat): int
    requires n > 0
  {
    (x + n - 1) / n
  }

  lemma OneMoreTimes(n: nat, k: nat)
    ensures k * (n + 1) == k * n + k
  {}

  lemma {:induction false} ConcatSize(chunks: seq<bytes>, low: nat, high: nat)
    requires forall i | 0 <= i < |chunks| :: low <= |chunks[i]| <= high
    ensures low * |chunks| <= |Concat(chunks)| <= high * |chunks|
  {
    if chunks != [] {
      var rest := chunks[1..];
      ConcatSize(rest, low, high);
      OneMoreTimes(|rest|, low);
      OneMoreTimes(|rest|, high);
    }
  }

  /** How many pieces there can be: one up to 1024 bytes; for L bytes beyond that, at least
      ceil(L/1024) and at most ceil((L-1024)/512) + 1. */
  lemma CutCount(blob: bytes, chunks: seq<bytes>)
    requires IsCut(blob, chunks)
    ensures |blob| <= MAX_CHUNK <==> |chunks| == 1
    ensures |blob| > MAX_CHUNK ==>
            Ceil(|blob|, MAX_CHUNK) <= |chunks| <= Ceil(|blob| - MAX_CHUNK, MIN_CHUNK) + 1
  {
    var n := |chunks|;
    if n == 1 {
      assert chunks == [] + [chunks[0]];
      ConcatOne([], chunks[0]);
    } else {
      var front, tail := chunks[..n - 2], chunks[n - 2..];
      assert chunks == front + tail && tail == [] + [chunks[n - 2]] + [chunks[n - 1]];
      ConcatAppend(front, tail);
      ConcatOne([] + [chunks[n - 2]], chunks[n - 1]);
      ConcatOne([], chunks[n - 2]);
      ConcatSize(front, MIN_CHUNK, MAX_CHUNK);
    }
  }

  /** A full handshake message is always cut into 9 to 16 pieces. */
  lemma HandshakeCut(blob: bytes, chunks: seq<bytes>)
    requires IsCut(blob, chunks) && |blob| == 8192 + HS_NONCE_LEN + HS_TAG_LEN
    ensures 9 <= |chunks| <= 16
  {
    CutCount(blob, chunks);
  }

  /** The cut into the most pieces: 512 bytes each time. */
  function FinestCut(blob: bytes): seq<bytes> {
    if |blob| <= MAX_CHUNK then [blob] else [blob[..MIN_CHUNK]] + FinestCut(blob[MIN_CHUNK..])
  }

  lemma {:induction false} FinestCutIsCut(blob: bytes)
    ensures IsCut(blob, FinestCut(blob))
    ensures |blob| <= MIN_CHUNK * (|FinestCut(blob)| - 1) + MAX_CHUNK
    decreases |blob|
  {
    if |blob| <= MAX_CHUNK {
      ConcatOne([], blob);
      assert [] + [blob] == [blob];
    } else {
      var rest := FinestCut(blob[MIN_CHUNK..]);
      FinestCutIsCut(blob[MIN_CHUNK..]);
      assert Concat(FinestCut(blob)) == blob[..MIN_CHUNK] + Concat(rest) == blob;
      if |rest| == 1 { assert Concat(rest) == rest[0] + Concat(rest[1..]); }
    }
  }

  /** No cut of a blob makes more fragments than the reassembler takes exactly when the blob
      has at most 33 280 bytes: a message of 33 252, four times what a handshake needs. */
  lemma WithinCapIff(blob: bytes)
    ensures (forall chunks | IsCut(blob, chunks) :: |chunks| <= MAX_FRAGMENTS)
       <==> |blob| <= 33_252 + HS_NONCE_LEN + HS_TAG_LEN
  {
    if |blob| <= 33_252 + HS_NONCE_LEN + HS_TAG_LEN {
      forall chunks | IsCut(blob, chunks) ensures |chunks| <= MAX_FRAGMENTS {
        CutCount(blob, chunks);
      }
    } else {
      FinestCutIsCut(blob);
    }
  }

  // ── Fragments on the wire ──

  function FragMask(mac: Mac, key: bytes, msgId: u32): (m: bytes)
    ensures |m| == 4
  {
    mac(key, LE(msgId, 4))[..4]
  }

  /** Index and count are cast to 16 bits. */
  function FragmentWire(mac: Mac, key: bytes, msgId: u32, index: nat, total: nat, chunk: bytes): bytes {
    LE(msgId, 4) + Masked(LE(index, 2) + LE(total, 2), FragMask(mac, key, msgId)) + chunk
  }

  function UnmaskFragment(mac: Mac, key: bytes, raw: bytes): Option<(u32, u16, u16, bytes)> {
    if |raw| < HS_FRAG_HEADER_LEN then None
    else
      var msgId := ReadU32(raw[0..4]);
      var plain := Masked(raw[4..8], FragMask(mac, key, msgId));
      var index, total := ReadU16(plain[0..2]), ReadU16(plain[2..4]);
      if total == 0 || total > MAX_FRAGMENTS || index >= total then None
      else Some((msgId, index, total, raw[HS_FRAG_HEADER_LEN..]))
  }

  /** On the wire: the id in the clear, then index and count XORed with the first four bytes
      of the MAC of the id, then the chunk. */
  lemma FragmentBytes(mac: Mac, key: bytes, msgId: u32, index: nat, total: nat, chunk: bytes, k: nat)
    requires k < 8 + |chunk|
    ensures var w := FragmentWire(mac, key, msgId, index, total, chunk);
            && |w| == 8 + |chunk|
            && w[k] == if k < 4 then LE(msgId, 4)[k]
                       else if k < 8 then XorByte((LE(index, 2) + LE(total, 2))[k - 4], mac(key, LE(msgId, 4))[k - 4])
                       else chunk[k - 8]
  {}

  /** What a receiver reads in a fragment. */
  predicate Reads(mac: Mac, key: bytes, raw: bytes, msgId: u32, index: u16, total: u16, chunk: bytes) {
    && |raw| >= HS_FRAG_HEADER_LEN && ReadU32(raw[0..4]) == msgId && raw[HS_FRAG_HEADER_LEN..] == chunk
    && var plain := Masked(raw[4..8], FragMask(mac, key, msgId));
       ReadU16(plain[0..2]) == index && ReadU16(plain[2..4]) == total
  }

  lemma FragmentSlices(mac: Mac, key: bytes, msgId: u32, index: nat, total: nat, chunk: bytes)
    ensures var raw := FragmentWire(mac, key, msgId, index, total, chunk);
            && |raw| == HS_FRAG_HEADER_LEN + |chunk| && raw[0..4] == LE(msgId, 4) && raw[HS_FRAG_HEADER_LEN..] == chunk
            && raw[4..8] == Masked(LE(index, 2) + LE(total, 2), FragMask(mac, key, msgId))
  {}

  lemma ReadPairOf(plain: bytes, index: u16, total: u16)
    requires plain == LE(index, 2) + LE(total, 2)
    ensures |plain| == 4 && ReadU16(plain[0..2]) == index && ReadU16(plain[2..4]) == total
  {
    ReadPair(index, total);
  }

  lemma FragmentReads(mac: Mac, key: bytes, msgId: u32, index: u16, total: u16, chunk: bytes)
    ensures Reads(mac, key, FragmentWire(mac, key, msgId, index, total, chunk), msgId, index, total, chunk)
  {
    var it, mask := LE(index, 2) + LE(total, 2), FragMask(mac, key, msgId);
    FragmentSlices(mac, key, msgId, index, total, chunk);
    LE32(msgId);
    MaskedTwice(it, mask);
    ReadPairOf(Masked(Masked(it, mask), mask), index, total);
  }

  lemma UnmaskReads(mac: Mac, key: bytes, raw: bytes, msgId: u32, index: u16, total: u16, chunk: bytes)
    requires Reads(mac, key, raw, msgId, index, total, chunk) && index < total <= MAX_FRAGMENTS
    ensures UnmaskFragment(mac, key, raw) == Some((msgId, index, total, chunk))
  {}

  lemma UnmaskFragmentWire(mac: Mac, key: bytes, msgId: u32, index: u16, total: u16, chunk: bytes)
    requires index < total <= MAX_FRAGMENTS
    ensures UnmaskFragment(mac, key, FragmentWire(mac, key, msgId, index, total, chunk)) == Some((msgId, index, total, chunk))
  {
    FragmentReads(mac, key, msgId, index, total, chunk);
    UnmaskReads(mac, key, FragmentWire(mac, key, msgId, index, total, chunk), msgId, index, total, chunk);
  }

  /** What unmasks is exactly a fragment wire with its index below a count of 1 to 64. */
  lemma UnmaskFragmentIff(mac: Mac, key: bytes, raw: bytes, msgId: u32, index: u16, total: u16, chunk: bytes)
    ensures UnmaskFragment(mac, key, raw) == Some((msgId, index, total, chunk))
       <==> raw == FragmentWire(mac, key, msgId, index, total, chunk) && index < total <= 64
  {
    if raw == FragmentWire(mac, key, msgId, index, total, chunk) && index < total <= 64 {
      UnmaskFragmentWire(mac, key, msgId, index, total, chunk);
    }
    if UnmaskFragment(mac, key, raw) == Some((msgId, index, total, chunk)) {
      FragmentRebuilds(mac, key, raw, msgId, index, total);
    }
  }

  lemma PairRebuilds(plain: bytes)
    requires |plain| == 4
    ensures plain == LE(ReadU16(plain[0..2]), 2) + LE(ReadU16(plain[2..4]), 2)
  {
    ReadU16IsLE(plain[0..2]);
    ReadU16IsLE(plain[2..4]);
    assert plain == plain[0..2] + plain[2..4];
  }

  lemma FragmentRebuilds(mac: Mac, key: bytes, raw: bytes, msgId: u32, index: u16, total: u16)
    requires Reads(mac, key, raw, msgId, index, total, if |raw| >= 8 then raw[8..] else [])
    ensures raw == FragmentWire(mac, key, msgId, index, total, raw[8..])
  {
    var mask := FragMask(mac, key, msgId);
    var plain := Masked(raw[4..8], mask);
    LEOfFromLE(raw[0..4]);
    PairRebuilds(plain);
    MaskedTwice(raw[4..8], mask);
    assert raw == raw[0..4] + raw[4..8] + raw[8..];
  }

  // ── Sealing ──

  function Blob(cipher: Cipher, key: bytes, nonce: bytes, msg: bytes): bytes {
    nonce + cipher.seal(ChaCha20Poly1305, key, nonce, [], msg)
  }

  function Open(cipher: Cipher, key: bytes, blob: bytes): Option<bytes> {
    if |blob| < HS_NONCE_LEN + HS_TAG_LEN then None
    else cipher.open(ChaCha20Poly1305, key, blob[..HS_NONCE_LEN], [], blob[HS_NONCE_LEN..])
  }

  lemma OpenBlob(cipher: Cipher, key: bytes, nonce: bytes, msg: bytes)
    requires cipher.Correct() && |nonce| == HS_NONCE_LEN
    ensures |Blob(cipher, key, nonce, msg)| == HS_NONCE_LEN + |msg| + HS_TAG_LEN
    ensures Open(cipher, key, Blob(cipher, key, nonce, msg)) == Some(msg)
  {
    var ct := cipher.seal(ChaCha20Poly1305, key, nonce, [], msg);
    assert |ct| == |msg| + ChaCha20Poly1305.TagLen();
    assert Blob(cipher, key, nonce, msg)[..HS_NONCE_LEN] == nonce;
    assert Blob(cipher, key, nonce, msg)[HS_NONCE_LEN..] == ct;
  }

  /** The datagrams of one message. */
  function Wires(mac: Mac, key: bytes, msgId: u32, chunks: seq<bytes>): (w: seq<bytes>)
    ensures |w| == |chunks|
    ensures forall i | 0 <= i < |chunks| :: w[i] == FragmentWire(mac, key, msgId, i, |chunks|, chunks[i])
  {
    seq(|chunks|, i requires 0 <= i < |chunks| => FragmentWire(mac, key, msgId, i, |chunks|, chunks[i]))
  }

  /** `nonce` and `msgId` are the random choices; the cut sizes are chosen inside. */
  method SealAndFragment(cipher: Cipher, mac: Mac, key: bytes, nonce: bytes, msgId: u32, msg: bytes) returns (out: seq<bytes>)
    requires cipher.Correct() && |nonce| == HS_NONCE_LEN
    ensures exists chunks :: IsCut(Blob(cipher, key, nonce, msg), chunks) && out == Wires(mac, key, msgId, chunks)
    ensures |msg| <= 33_252 ==> |out| <= MAX_FRAGMENTS
  {
    OpenBlob(cipher, key, nonce, msg);
    var blob := nonce + cipher.seal(ChaCha20Poly1305, key, nonce, [], msg);
    var mask := FragMask(mac, key, msgId);
    var pieces := VariableChunks(blob);
    if |msg| <= 33_252 { CutCount(blob, pieces); }
    var total := |pieces|;
    out := [];
    for i := 0 to |pieces|
      invariant |out| == i
      invariant forall k | 0 <= k < i :: out[k] == FragmentWire(mac, key, msgId, k, |pieces|, pieces[k])
    {
      var it := LE(i, 2) + LE(total, 2);
      var hdr: bytes := LE(msgId, 4);
      for k := 0 to 4
        invariant |hdr| == 4 + k && hdr[..4] == LE(msgId, 4)
        invariant forall j | 0 <= j < k :: hdr[4 + j] == XorByte(it[j], mask[j])
      {
        hdr := hdr + [XorByte(it[k], mask[k])];
      }
      assert hdr == LE(msgId, 4) + Masked(it, mask);
      out := out + [hdr + pieces[i]];
    }
    assert out == Wires(mac, key, msgId, pieces);
  }

  // ── The whole pipeline, with an obfuscation key or in the clear ──

  /** The cleartext path carries fragments in handshake frames: type, session 0, sequence 0. */
  function HandshakeFrame(payload: bytes): bytes {
    [Obf.FrameType.Handshake.AsU8()] + LE(0, 4) + LE(0, 8) + payload
  }

  /** The fragment in a handshake frame; anything else has none. */
  function FrameEvent(raw: bytes, now: int): Option<Event> {
    if |raw| < Obf.HP_HEADER_LEN + FRAG_HEADER_LEN || Obf.FrameTypeFromU8(raw[0]) != Ok(Obf.FrameType.Handshake) then None
    else Some(ClearEvent(raw[Obf.HP_HEADER_LEN..], now))
  }

  /** A frame that gives a fragment is a handshake frame with that fragment's bytes behind its
      thirteen header bytes; no other frame gives one. */
  lemma FrameEventIff(raw: bytes, now: int, msgId: u32, index: u16, total: u16, chunk: bytes)
    ensures FrameEvent(raw, now) == Some(Fragment(msgId, index, total, chunk, now))
       <==> |raw| >= 21 && raw[0] == 2 && raw[13..] == ClearWire(msgId, index, total, chunk)
  {
    Obf.FrameTypeIff(if raw == [] then 0 else raw[0], Obf.FrameType.Handshake);
    if |raw| >= 21 {
      ClearWireIff(raw[13..], now, msgId, index, total, chunk);
    }
  }

  datatype Arrival = Datagram(raw: bytes, now: int) | PruneTick(at: int, maxAge: int)

  /** Noise that does not unmask, or is no handshake frame, reaches no table. */
  function EventOf(mac: Mac, key: Option<bytes>, a: Arrival): Option<Event> {
    match a
    case PruneTick(at, maxAge) => Some(Prune(at, maxAge))
    case Datagram(raw, now) =>
      if key == None then FrameEvent(raw, now)
      else
        match UnmaskFragment(mac, key.value, raw)
        case None => None
        case Some((msgId, index, total, chunk)) => Some(Fragment(msgId, index, total, chunk, now))
  }

  function Opened(cipher: Cipher, key: Option<bytes>, blob: bytes): Option<bytes> {
    match key
    case None => Some(blob)
    case Some(k) => Open(cipher, k, blob)
  }

  function OpenResult(cipher: Cipher, key: Option<bytes>, r: Result<Option<bytes>>): Option<bytes> {
    match r
    case Ok(Some(blob)) => Opened(cipher, key, blob)
    case _ => None
  }

  /** The table takes an event, and a completed blob is opened. */
  function Handled(cipher: Cipher, key: Option<bytes>, table: Table, e: Event): (Table, Option<bytes>) {
    (Step(table, e).0, OpenResult(cipher, key, Step(table, e).1))
  }

  /** `push_handshake`: errors and blobs that do not open are noise. (On the cleartext path
      it returns errors, which its callers in a running tunnel log and drop.) */
  function PushHandshake(cipher: Cipher, mac: Mac, key: Option<bytes>, table: Table, a: Arrival): (Table, Option<bytes>) {
    match EventOf(mac, key, a)
    case None => (table, None)
    case Some(e) => Handled(cipher, key, table, e)
  }

  function Received(cipher: Cipher, mac: Mac, key: Option<bytes>, table: Table, arrivals: seq<Arrival>): seq<Option<bytes>>
    decreases |arrivals|
  {
    if arrivals == [] then []
    else
      var (after, r) := PushHandshake(cipher, mac, key, table, arrivals[0]);
      [r] + Received(cipher, mac, key, after, arrivals[1..])
  }

  /** The events that reach the table. */
  function EventsOf(mac: Mac, key: Option<bytes>, arrivals: seq<Arrival>): seq<Event> {
    if arrivals == [] then []
    else
      (match EventOf(mac, key, arrivals[0]) case None => [] case Some(e) => [e])
      + EventsOf(mac, key, arrivals[1..])
  }

  /** The message exactly when its last missing fragment arrives, and nothing before. */
  predicate Delivers(mac: Mac, key: Option<bytes>, m: Split, msg: bytes, got: set<u16>, arrivals: seq<Arrival>, out: seq<Option<bytes>>)
    requires |arrivals| == |out|
    decreases |arrivals|
  {
    arrivals == [] ||
    match EventOf(mac, key, arrivals[0])
    case None => out[0] == None && Delivers(mac, key, m, msg, got, arrivals[1..], out[1..])
    case Some(e) =>
      && (m.Owns(e) ==> out[0] == if Expected(m, got, e).Some? then Some(msg) else None)
      && Delivers(mac, key, m, msg, Got(m, got, e), arrivals[1..], out[1..])
  }

  /** The chunks of a message as it is sent: any cut of the sealed blob, or the message
      itself in pieces of 1024. */
  predicate Sends(cipher: Cipher, key: Option<bytes>, nonce: bytes, msg: bytes, chunks: seq<bytes>) {
    && |chunks| <= MAX_FRAGMENTS
    && match key
       case Some(k) => |nonce| == HS_NONCE_LEN && IsCut(Blob(cipher, k, nonce, msg), chunks)
       case None => 0 < |msg| && chunks == Chunked(msg, FRAG_PAYLOAD)
  }

  lemma SentOpens(cipher: Cipher, key: Option<bytes>, nonce: bytes, msg: bytes, m: Split)
    requires cipher.Correct() && Sends(cipher, key, nonce, msg, m.chunks)
    ensures m.Valid() && Opened(cipher, key, Concat(m.chunks)) == Some(msg)
  {
    match key
    case Some(k) => OpenBlob(cipher, k, nonce, msg);
    case None => ChunkedBack(msg, FRAG_PAYLOAD);
  }

  /** Seal, cut anywhere, mask (or frame in the clear); deliver in any order, with
      duplicates, noise and other messages between; read back, reassemble, open: the
      message comes back. */
  lemma {:induction false} PipelineUndoesItself(
    cipher: Cipher, mac: Mac, key: Option<bytes>, nonce: bytes, msg: bytes, m: Split, table: Table, got: set<u16>, arrivals: seq<Arrival>)
    requires cipher.Correct() && Sends(cipher, key, nonce, msg, m.chunks)
    requires Tracks(m, table, got) && Fair(m, table, got, EventsOf(mac, key, arrivals))
    ensures |Received(cipher, mac, key, table, arrivals)| == |arrivals|
    ensures Delivers(mac, key, m, msg, got, arrivals, Received(cipher, mac, key, table, arrivals))
    decreases |arrivals|
  {
    if arrivals != [] {
      var events := EventsOf(mac, key, arrivals);
      match EventOf(mac, key, arrivals[0])
      case None =>
        assert events == EventsOf(mac, key, arrivals[1..]);
        PipelineUndoesItself(cipher, mac, key, nonce, msg, m, table, got, arrivals[1..]);
      case Some(e) =>
        assert events[0] == e && events[1..] == EventsOf(mac, key, arrivals[1..]);
        SentOpens(cipher, key, nonce, msg, m);
        OneEvent(cipher, key, msg, m, table, got, e);
        PipelineUndoesItself(cipher, mac, key, nonce, msg, m, Step(table, e).0, Got(m, got, e), arrivals[1..]);
    }
  }

  lemma OneEvent(cipher: Cipher, key: Option<bytes>, msg: bytes, m: Split, table: Table, got: set<u16>, e: Event)
    requires m.Valid() && Opened(cipher, key, Concat(m.chunks)) == Some(msg)
    requires Tracks(m, table, got) && Fair(m, table, got, [e])
    ensures var (after, r) := Handled(cipher, key, table, e);
            && after == Step(table, e).0 && Tracks(m, after, Got(m, got, e))
            && (m.Owns(e) ==> r == if Expected(m, got, e).Some? then Some(msg) else None)
  {
    FairStep(m, table, got, e);
  }

  /** The datagrams of one message, either way. */
  function Datagrams(mac: Mac, key: Option<bytes>, m: Split): (w: seq<bytes>)
    ensures |w| == |m.chunks|
  {
    match key
    case Some(k) => Wires(mac, k, m.id, m.chunks)
    case None =>
      seq(|m.chunks|, i requires 0 <= i < |m.chunks| => HandshakeFrame(ClearWire(m.id, i, |m.chunks|, m.chunks[i])))
  }

  /** The datagrams that were sent are the message's own fragments. */
  lemma SentDatagramsAreOwn(mac: Mac, key: Option<bytes>, m: Split, i: nat, now: int)
    requires i < |m.chunks| <= MAX_FRAGMENTS
    ensures var e := EventOf(mac, key, Datagram(Datagrams(mac, key, m)[i], now));
            e.Some? && m.Owns(e.value) && e.value.index == i
  {
    match key
    case Some(k) => UnmaskFragmentWire(mac, k, m.id, i, |m.chunks|, m.chunks[i]);
    case None =>
      var fragment := ClearWire(m.id, i, |m.chunks|, m.chunks[i]);
      ClearWireReads(m.id, i, |m.chunks|, m.chunks[i], now);
      assert HandshakeFrame(fragment)[Obf.HP_HEADER_LEN..] == fragment;
  }
}
