/** The data path end to end: what one side seals, the other side's manager opens,
    in any arrival order the window allows. */
module DataPath {
  import opened Words
  import opened Bytes
  import opened Results
  import opened Aead
  import opened ReplayWindows
  import opened Obf
  import opened Sessions

  /** Both ends derive mirrored keys from one shared secret. */
  lemma DerivedKeysMirror(kdf: Kdf, id: u32, shared: bytes, algo: AeadAlgo)
    ensures Mirrors(DeriveSession(kdf, id, shared, true, algo), DeriveSession(kdf, id, shared, false, algo))
  {}

  lemma DatagramLen(cipher: Cipher, mac: Mac, keys: SessionKeys, counter: u64,
                    frameType: FrameType, payload: bytes, policy: PadPolicy, noise: nat -> byte)
    requires WellSalted(keys) && cipher.Correct()
    ensures |Datagram(cipher, mac, keys, counter, frameType, payload, policy, noise)|
         == WireLen(|payload|, keys.algo, policy)
  {
    var framed := Packed(frameType.AsU8(), payload, policy, MaxFramed(keys.algo.TagLen()), noise);
    SealedLen(cipher, keys, counter, framed);
    UnmaskWire(mac, keys.txObf, keys.id, counter, Sealed(cipher, keys, counter, framed));
  }

  lemma FrameTypeRoundTrip(t: FrameType)
    ensures FrameTypeFromU8(t.AsU8()) == Ok(t)
  {}

  /** A datagram of the peer opens to the type and payload that went in, whatever the
      cipher, the padding policy and the padding bytes; a second copy does not. */
  lemma PeerDatagramOpens(cipher: Cipher, mac: Mac, s: SessionKeys, r: SessionKeys, window: Window, counter: u64,
                          frameType: FrameType, payload: bytes, policy: PadPolicy, noise: nat -> byte)
    requires WellSalted(s) && WellSalted(r) && cipher.Correct() && Mirrors(s, r)
    requires |payload| < 0x1_0000
    ensures TryOpen(cipher, mac, r, window, Datagram(cipher, mac, s, counter, frameType, payload, policy, noise))
         == if window.Accepts(counter) then (window.Commit(counter), Ok(Some((frameType, payload))))
            else (window, Ok(None))
  {
    var framed := Packed(frameType.AsU8(), payload, policy, MaxFramed(s.algo.TagLen()), noise);
    SealedLen(cipher, s, counter, framed);
    var ct := Sealed(cipher, s, counter, framed);
    UnmaskWire(mac, s.txObf, s.id, counter, ct);
    assert Opens(cipher, r, counter, ct) == Some(framed);
    UnpackPacked(frameType.AsU8(), payload, seq<byte>(PadLen(|payload|, policy, MaxFramed(s.algo.TagLen())), noise));
    FrameTypeRoundTrip(frameType);
  }

  // ── Trial decryption, whatever the datagram ──

  /** The datagram opens under these keys: masked for them, under an acceptable counter. */
  predicate IsOpening(cipher: Cipher, mac: Mac, keys: SessionKeys, window: Window, datagram: bytes, counter: u64, framed: bytes)
    requires WellSalted(keys)
  {
    && Unmasked(mac, keys.rxObf, datagram).Some?
    && Unmasked(mac, keys.rxObf, datagram).value.sessionId == keys.id
    && Unmasked(mac, keys.rxObf, datagram).value.counter == counter
    && window.Accepts(counter)
    && Opens(cipher, keys, counter, CtSlice(datagram)) == Some(framed)
  }

  ghost predicate IsForeign(cipher: Cipher, mac: Mac, keys: SessionKeys, window: Window, datagram: bytes)
    requires WellSalted(keys)
  {
    forall counter: u64, framed: bytes :: !IsOpening(cipher, mac, keys, window, datagram, counter, framed)
  }

  function WindowOf(prev: Option<(SessionKeys, Window)>): Option<Window> {
    match prev case None => None case Some((_, w)) => Some(w)
  }

  lemma TryDecides(cipher: Cipher, mac: Mac, keys: SessionKeys, window: Window, datagram: bytes)
    requires WellSalted(keys)
    ensures forall counter: u64, framed: bytes | IsOpening(cipher, mac, keys, window, datagram, counter, framed) ::
              TryOpen(cipher, mac, keys, window, datagram)
              == (window.Commit(counter), match Parsed(framed) case Err(e) => Err(e) case Ok(frame) => Ok(Some(frame)))
    ensures IsForeign(cipher, mac, keys, window, datagram) ==>
              TryOpen(cipher, mac, keys, window, datagram) == (window, Ok(None))
  {
    if IsForeign(cipher, mac, keys, window, datagram) && Unmasked(mac, keys.rxObf, datagram).Some? {
      var c := Unmasked(mac, keys.rxObf, datagram).value.counter;
      var found := Opens(cipher, keys, c, CtSlice(datagram));
      if found.Some? { assert !IsOpening(cipher, mac, keys, window, datagram, c, found.value); }
    }
  }

  /** With a previous session or without one: what opens under the current keys is committed
      there, and its frame or its framing error is the answer; failing that the same under
      the previous keys; and anything else is an error that moves no window. */
  lemma TrialDecides(cipher: Cipher, mac: Mac, cur: SessionKeys, window: Window, prev: Option<(SessionKeys, Window)>, datagram: bytes)
    requires WellSalted(cur) && (prev.Some? ==> WellSalted(prev.value.0))
    ensures forall counter: u64, framed: bytes | IsOpening(cipher, mac, cur, window, datagram, counter, framed) ::
              TrialOpen(cipher, mac, cur, window, prev, datagram) == (window.Commit(counter), WindowOf(prev), Parsed(framed))
    ensures IsForeign(cipher, mac, cur, window, datagram) && prev.Some? ==>
              forall counter: u64, framed: bytes | IsOpening(cipher, mac, prev.value.0, prev.value.1, datagram, counter, framed) ::
                TrialOpen(cipher, mac, cur, window, prev, datagram) == (window, Some(prev.value.1.Commit(counter)), Parsed(framed))
    ensures IsForeign(cipher, mac, cur, window, datagram)
            && (prev.Some? ==> IsForeign(cipher, mac, prev.value.0, prev.value.1, datagram)) ==>
              TrialOpen(cipher, mac, cur, window, prev, datagram) == (window, WindowOf(prev), Err(DecryptionFailed))
  {
    TryDecides(cipher, mac, cur, window, datagram);
    if prev.Some? { TryDecides(cipher, mac, prev.value.0, prev.value.1, datagram); }
  }

  // ── Runs of arrivals through the manager ──

  datatype Packet = Packet(
    onCurrent: bool, counter: u64, frameType: FrameType, payload: bytes, policy: PadPolicy, noise: nat -> byte)

  /** Two ends: the sender's and receiver's current keys, and the previous ones for when
      there is a previous session. */
  datatype Link = Link(cipher: Cipher, mac: Mac, txCur: SessionKeys, txPrev: SessionKeys, rxCur: SessionKeys, rxPrev: SessionKeys) {

    ghost predicate Valid() {
      && cipher.Correct()
      && WellSalted(txCur) && WellSalted(txPrev) && WellSalted(rxCur) && WellSalted(rxPrev)
      && Mirrors(txCur, rxCur) && Mirrors(txPrev, rxPrev)
    }

    function Send(p: Packet): bytes
      requires WellSalted(txCur) && WellSalted(txPrev) && cipher.Correct()
    {
      Datagram(cipher, mac, if p.onCurrent then txCur else txPrev, p.counter, p.frameType, p.payload, p.policy, p.noise)
    }

    /** The AEAD does not open under the current keys what was sealed under the previous ones. */
    ghost predicate Separates(p: Packet)
      requires Valid()
    {
      !p.onCurrent ==>
        match Unmasked(mac, rxCur.rxObf, Send(p))
        case None => true
        case Some(rec) => rec.sessionId != rxCur.id || Opens(cipher, rxCur, rec.counter, CtSlice(Send(p))).None?
    }

    function Slot(prev: Option<Window>): Option<(SessionKeys, Window)> {
      match prev case None => None case Some(w) => Some((rxPrev, w))
    }
  }

  function AfterOpt(prev: Option<seq<u64>>): Option<Window> {
    match prev case None => None case Some(history) => Some(After(history))
  }

  /** Each packet arrives for the first time and less than 2048 below the newest of its
      session; the previous session's only while there is one. */
  predicate Timely(cur: seq<u64>, prev: Option<seq<u64>>, packets: seq<Packet>)
    decreases |packets|
  {
    packets == [] ||
    var p := packets[0];
    if p.onCurrent then Untouched(cur, p.counter) && Timely(cur + [p.counter], prev, packets[1..])
    else prev.Some? && Untouched(prev.value, p.counter) && Timely(cur, Some(prev.value + [p.counter]), packets[1..])
  }

  function Receive(link: Link, cur: Window, prev: Option<Window>, packets: seq<Packet>): seq<Result<(FrameType, bytes)>>
    requires WellSalted(link.txCur) && WellSalted(link.txPrev) && WellSalted(link.rxCur) && WellSalted(link.rxPrev)
    requires link.cipher.Correct()
    decreases |packets|
  {
    if packets == [] then []
    else
      var (c, v, r) := TrialOpen(link.cipher, link.mac, link.rxCur, cur, link.Slot(prev), link.Send(packets[0]));
      [r] + Receive(link, c, v, packets[1..])
  }

  /** One timely packet through the manager: delivered, and committed in its own window only. */
  lemma OneArrival(link: Link, cur: seq<u64>, prev: Option<seq<u64>>, p: Packet)
    requires link.Valid() && link.Separates(p) && |p.payload| < 0x1_0000
    requires if p.onCurrent then Untouched(cur, p.counter) else prev.Some? && Untouched(prev.value, p.counter)
    ensures TrialOpen(link.cipher, link.mac, link.rxCur, After(cur), link.Slot(AfterOpt(prev)), link.Send(p))
         == (if p.onCurrent then After(cur + [p.counter]) else After(cur),
             if p.onCurrent then AfterOpt(prev) else Some(After(prev.value + [p.counter])),
             Ok((p.frameType, p.payload)))
  {
    if p.onCurrent {
      AcceptsIffUntouched(cur, p.counter);
      PeerDatagramOpens(link.cipher, link.mac, link.txCur, link.rxCur, After(cur), p.counter, p.frameType, p.payload, p.policy, p.noise);
      AfterAppend(cur, p.counter);
    } else {
      AcceptsIffUntouched(prev.value, p.counter);
      PeerDatagramOpens(link.cipher, link.mac, link.txPrev, link.rxPrev, After(prev.value), p.counter, p.frameType, p.payload, p.policy, p.noise);
      AfterAppend(prev.value, p.counter);
      assert TryOpen(link.cipher, link.mac, link.rxCur, After(cur), link.Send(p)) == (After(cur), Ok(None));
    }
  }

  function Contents(packets: seq<Packet>): (r: seq<Result<(FrameType, bytes)>>)
    ensures |r| == |packets|
    ensures forall i | 0 <= i < |packets| :: r[i] == Ok((packets[i].frameType, packets[i].payload))
  {
    if packets == [] then [] else [Ok((packets[0].frameType, packets[0].payload))] + Contents(packets[1..])
  }

  /** Whatever was committed before, and with a previous session or without: every timely
      packet is delivered with its own type and payload, in arrival order. */
  lemma {:induction false} TimelyTrafficIsDelivered(link: Link, cur: seq<u64>, prev: Option<seq<u64>>, packets: seq<Packet>)
    requires link.Valid() && Timely(cur, prev, packets)
    requires forall p | p in packets :: link.Separates(p) && |p.payload| < 0x1_0000
    ensures Receive(link, After(cur), AfterOpt(prev), packets) == Contents(packets)
    decreases |packets|
  {
    if packets != [] {
      var p := packets[0];
      OneArrival(link, cur, prev, p);
      if p.onCurrent {
        TimelyTrafficIsDelivered(link, cur + [p.counter], prev, packets[1..]);
      } else {
        TimelyTrafficIsDelivered(link, cur, Some(prev.value + [p.counter]), packets[1..]);
      }
    }
  }
}
