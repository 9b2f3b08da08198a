/** Sessions: key derivation, counter reservation, the data path, and the manager
    that holds the current and the previous session. */
module Sessions {
  import opened Words
  import opened Bytes
  import opened Results
  import opened Aead
  import opened ReplayWindows
  import opened Obf

  // ── Keys ──

  /** HKDF-SHA256: salt, input key material, info label. */
  type Kdf = (string, bytes, string) -> bytes

  datatype SessionKeys = SessionKeys(
    id: u32, algo: AeadAlgo,
    txKey: bytes, rxKey: bytes, txSalt: bytes, rxSalt: bytes, txObf: bytes, rxObf: bytes)

  const DIRECTIONAL_SALT := "Chameleon-PQ-v1-directional"
  const SALT_A: bytes := [0x01, 0, 0, 0]
  const SALT_B: bytes := [0x02, 0, 0, 0]

  function DeriveSession(kdf: Kdf, id: u32, shared: bytes, isInitiator: bool, algo: AeadAlgo): SessionKeys {
    var keyA := kdf(DIRECTIONAL_SALT, shared, "key-A->B");
    var keyB := kdf(DIRECTIONAL_SALT, shared, "key-B->A");
    var obfA := kdf(DIRECTIONAL_SALT, shared, "obf-A->B");
    var obfB := kdf(DIRECTIONAL_SALT, shared, "obf-B->A");
    if isInitiator then SessionKeys(id, algo, keyA, keyB, SALT_A, SALT_B, obfA, obfB)
    else SessionKeys(id, algo, keyB, keyA, SALT_B, SALT_A, obfB, obfA)
  }

  /** Each side sends with what the other receives with. */
  ghost predicate Mirrors(a: SessionKeys, b: SessionKeys) {
    && a.id == b.id && a.algo == b.algo
    && a.txKey == b.rxKey && a.rxKey == b.txKey
    && a.txSalt == b.rxSalt && a.rxSalt == b.txSalt
    && a.txObf == b.rxObf && a.rxObf == b.txObf
  }

  predicate WellSalted(k: SessionKeys) {
    |k.txSalt| == 4 && |k.rxSalt| == 4
  }

  // ── Nonces and associated data ──

  function Nonce(algo: AeadAlgo, salt: bytes, counter: u64): (n: bytes)
    requires |salt| == 4
    ensures |n| == algo.NonceLen()
  {
    salt + LE(counter, 8) + seq<byte>(algo.NonceLen() - 12, _ => 0)
  }

  lemma NonceInjective(algo: AeadAlgo, salt: bytes, c: u64, d: u64)
    requires |salt| == 4 && Nonce(algo, salt, c) == Nonce(algo, salt, d)
    ensures c == d
  {
    assert Nonce(algo, salt, c)[4..12] == LE(c, 8);
    assert Nonce(algo, salt, d)[4..12] == LE(d, 8);
    LE64(c);
    LE64(d);
  }

  // ── Counter reservation ──

  function SaturatingAdd(a: u64, b: u64): u64 {
    if a + b < TWO64 then a + b else TWO64 - 1
  }

  /** `fetch_add` followed by the test of the last counter in the range: the new
      counter value, and the first reserved counter or a refusal. */
  function Reserve(counter: u64, n: u64, rekeyAt: u64): (u64, Result<u64>) {
    var next := (counter + n) % TWO64;
    var last := SaturatingAdd(counter, if n == 0 then 0 else n - 1);
    if last >= rekeyAt then (next, Err(RekeyRequired)) else (next, Ok(counter))
  }

  /** The counter moves on even when a reservation is refused. After a refusal the
      next one is granted exactly when the addition wrapped round and landed low
      enough; without wrap-around a refusal is final. */
  lemma RefusalIsFinalUnlessWrapped(counter: u64, n: u64, m: u64, rekeyAt: u64)
    requires Reserve(counter, n, rekeyAt).1.Err?
    ensures Reserve(Reserve(counter, n, rekeyAt).0, m, rekeyAt).1.Ok?
       <==> counter + n >= TWO64 && counter + n - TWO64 + (if m == 0 then 0 else m - 1) < rekeyAt
  {}

  /** Wrap-around can hand out a counter a second time: three reservations in a row, the
      first and the third granted from counter 0. */
  lemma WrapReissues()
    ensures var rekeyAt := 0x1_0000_0000_0000;
            var (after1, r1) := Reserve(0, 5, rekeyAt);
            var (after2, r2) := Reserve(after1, TWO64 - 5, rekeyAt);
            var (after3, r3) := Reserve(after2, 5, rekeyAt);
            r1 == Ok(0) && r2 == Err(RekeyRequired) && r3 == Ok(0)
  {}

  // ── Sealing and opening, as functions ──

  function Sealed(cipher: Cipher, keys: SessionKeys, counter: u64, plaintext: bytes): bytes
    requires WellSalted(keys)
  {
    cipher.seal(keys.algo, keys.txKey, Nonce(keys.algo, keys.txSalt, counter), Header(keys.id, counter), plaintext)
  }

  function Opens(cipher: Cipher, keys: SessionKeys, counter: u64, ct: bytes): Option<bytes>
    requires WellSalted(keys)
  {
    cipher.open(keys.algo, keys.rxKey, Nonce(keys.algo, keys.rxSalt, counter), Header(keys.id, counter), ct)
  }

  /** check, open, re-check and commit without interference. */
  function Decrypted(cipher: Cipher, keys: SessionKeys, window: Window, counter: u64, ct: bytes): (Window, Result<bytes>)
    requires WellSalted(keys)
  {
    if !window.Accepts(counter) then (window, Err(DecryptionFailed))
    else
      match Opens(cipher, keys, counter, ct)
      case None => (window, Err(DecryptionFailed))
      case Some(plain) => (window.Commit(counter), Ok(plain))
  }

  function Parsed(framed: bytes): Result<(FrameType, bytes)> {
    match UnpackInner(framed)
    case Err(e) => Err(e)
    case Ok((t, payload)) =>
      match FrameTypeFromU8(t)
      case Err(e) => Err(e)
      case Ok(frameType) => Ok((frameType, payload))
  }

  /** Trial decryption under one session: `Ok(None)` means "not for this session". */
  function TryOpen(cipher: Cipher, mac: Mac, keys: SessionKeys, window: Window, datagram: bytes)
    : (Window, Result<Option<(FrameType, bytes)>>)
    requires WellSalted(keys)
  {
    match Unmasked(mac, keys.rxObf, datagram)
    case None => (window, Ok(None))
    case Some(rec) =>
      if rec.sessionId != keys.id then (window, Ok(None))
      else
        match Decrypted(cipher, keys, window, rec.counter, CtSlice(datagram))
        case (w, Err(_)) => (w, Ok(None))
        case (w, Ok(framed)) =>
          match Parsed(framed)
          case Err(e) => (w, Err(e))
          case Ok(frame) => (w, Ok(Some(frame)))
  }

  /** Trial decryption under the current session and then the previous one. */
  function TrialOpen(cipher: Cipher, mac: Mac, cur: SessionKeys, curWindow: Window,
                     prev: Option<(SessionKeys, Window)>, datagram: bytes)
    : (Window, Option<Window>, Result<(FrameType, bytes)>)
    requires WellSalted(cur) && (prev.Some? ==> WellSalted(prev.value.0))
  {
    var (w, r) := TryOpen(cipher, mac, cur, curWindow, datagram);
    var kept := if prev.Some? then Some(prev.value.1) else None;
    match r
    case Err(e) => (w, kept, Err(e))
    case Ok(Some(frame)) => (w, kept, Ok(frame))
    case Ok(None) =>
      if prev.None? then (w, None, Err(DecryptionFailed))
      else
        match TryOpen(cipher, mac, prev.value.0, prev.value.1, datagram)
        case (v, Err(e)) => (w, Some(v), Err(e))
        case (v, Ok(Some(frame))) => (w, Some(v), Ok(frame))
        case (v, Ok(None)) => (w, Some(v), Err(DecryptionFailed))
  }

  /** The datagram sent for a payload under a reserved counter. */
  function Datagram(cipher: Cipher, mac: Mac, keys: SessionKeys, counter: u64,
                    frameType: FrameType, payload: bytes, policy: PadPolicy, noise: nat -> byte): bytes
    requires WellSalted(keys)
    requires cipher.Correct()
  {
    var framed := Packed(frameType.AsU8(), payload, policy, MaxFramed(keys.algo.TagLen()), noise);
    SealedLen(cipher, keys, counter, framed);
    Wire(mac, keys.txObf, keys.id, counter, Sealed(cipher, keys, counter, framed))
  }

  lemma SealedLen(cipher: Cipher, keys: SessionKeys, counter: u64, framed: bytes)
    requires WellSalted(keys) && cipher.Correct()
    ensures |Sealed(cipher, keys, counter, framed)| == |framed| + keys.algo.TagLen()
  {}

  // ── The session object ──

  class Session {
    const cipher: Cipher
    const mac: Mac
    const keys: SessionKeys
    const rekeyAt: u64
    const replay: ReplayWindow
    var txCounter: u64

    ghost function Repr(): set<object>
      reads this
    {
      {this, replay, replay.bitmap}
    }

    ghost predicate Valid()
      reads Repr()
    {
      replay.Valid() && WellSalted(keys) && cipher.Correct()
    }

    ghost function Window(): Window
      requires Valid()
      reads Repr()
    {
      replay.Model()
    }

    constructor FromHandshake(cipher: Cipher, mac: Mac, kdf: Kdf, id: u32, shared: bytes, isInitiator: bool, algo: AeadAlgo)
      requires cipher.Correct()
      ensures Valid() && fresh(Repr())
      ensures keys == DeriveSession(kdf, id, shared, isInitiator, algo)
      ensures this.cipher == cipher && this.mac == mac
      ensures txCounter == 0 && rekeyAt == 0x1_0000_0000_0000 && Window() == EMPTY
    {
      this.cipher, this.mac := cipher, mac;
      keys := DeriveSession(kdf, id, shared, isInitiator, algo);
      rekeyAt := 0x1_0000_0000_0000;
      txCounter := 0;
      replay := new ReplayWindow();
    }

    method ReserveCounters(n: u64) returns (r: Result<u64>)
      requires Valid()
      modifies this
      ensures Valid() && Window() == old(Window())
      ensures (txCounter, r) == Reserve(old(txCounter), n, rekeyAt)
    {
      var first := txCounter;
      txCounter := (txCounter + n) % TWO64;
      if SaturatingAdd(first, if n == 0 then 0 else n - 1) >= rekeyAt {
        return Err(RekeyRequired);
      }
      return Ok(first);
    }

    method SealObfWithCounter(counter: u64, frameType: FrameType, payload: bytes, policy: PadPolicy, noise: nat -> byte)
      returns (wire: bytes)
      requires Valid()
      ensures wire == Datagram(cipher, mac, keys, counter, frameType, payload, policy, noise)
    {
      var framed := PackInner(frameType.AsU8(), payload, policy, MaxFramed(keys.algo.TagLen()), noise);
      var ct := Sealed(cipher, keys, counter, framed);
      SealedLen(cipher, keys, counter, framed);
      wire := SealWire(mac, keys.txObf, keys.id, counter, ct);
    }

    method SealObf(frameType: FrameType, payload: bytes, policy: PadPolicy, noise: nat -> byte)
      returns (r: Result<bytes>)
      requires Valid()
      modifies this
      ensures Valid() && Window() == old(Window())
      ensures txCounter == Reserve(old(txCounter), 1, rekeyAt).0
      ensures r == match Reserve(old(txCounter), 1, rekeyAt).1
                   case Err(e) => Err(e)
                   case Ok(c) => Ok(Datagram(cipher, mac, keys, c, frameType, payload, policy, noise))
    {
      var counter :- ReserveCounters(1);
      var wire := SealObfWithCounter(counter, frameType, payload, policy, noise);
      return Ok(wire);
    }

    method Decrypt(counter: u64, ct: bytes) returns (r: Result<bytes>)
      requires Valid()
      modifies replay, replay.bitmap
      ensures Valid()
      ensures (Window(), r) == Decrypted(cipher, keys, old(Window()), counter, ct)
    {
      if !replay.Check(counter) {
        return Err(DecryptionFailed);
      }
      var plain := Opens(cipher, keys, counter, ct);
      if plain.None? {
        return Err(DecryptionFailed);
      }
      if !replay.Check(counter) {
        return Err(DecryptionFailed);
      }
      replay.Commit(counter);
      return Ok(plain.value);
    }

    method TryOpenObf(datagram: bytes) returns (r: Result<Option<(FrameType, bytes)>>)
      requires Valid()
      modifies replay, replay.bitmap
      ensures Valid()
      ensures (Window(), r) == TryOpen(cipher, mac, keys, old(Window()), datagram)
    {
      var rec := Unmask(mac, keys.rxObf, datagram);
      if rec.None? || rec.value.sessionId != keys.id {
        return Ok(None);
      }
      var framed := Decrypt(rec.value.counter, CtSlice(datagram));
      if framed.Err? {
        return Ok(None);
      }
      var inner :- UnpackInner(framed.value);
      var frameType :- FrameTypeFromU8(inner.0);
      return Ok(Some((frameType, inner.1)));
    }
  }

  // ── The rekey claim ──

  /** Milliseconds. */
  const MIN_REKEY_INTERVAL := 5000

  datatype Claim = Claim(taken: bool, lastAttempt: int) {

    /** `needs_rekey`: takes the claim when the counter has passed the threshold, the
        last attempt is long enough ago, and nobody holds the claim. */
    function Try(counter: u64, threshold: u64, now: int): (Claim, bool) {
      if counter < threshold || now - lastAttempt < MIN_REKEY_INTERVAL || taken then (this, false)
      else (Claim(true, now), true)
    }

    function Release(): Claim {
      this.(taken := false)
    }
  }

  class SessionManager {
    const cipher: Cipher
    const mac: Mac
    var current: Session
    var previous: Session?
    const rekeyThreshold: u64
    var rekeyInProgress: bool
    var lastRekeyAttempt: int

    ghost function Repr(): set<object>
      reads this, current, previous
    {
      {this} + current.Repr() + if previous == null then {} else previous.Repr()
    }

    ghost predicate Valid()
      reads this, current, previous, Repr()
    {
      && this !in current.Repr() && current.Valid() && Shares(current)
      && (previous != null ==>
            this !in previous.Repr() && previous.Valid() && Shares(previous)
            && previous.Repr() !! current.Repr())
    }

    /** One process, one set of primitives. */
    ghost predicate Shares(session: Session) {
      session.cipher == cipher && session.mac == mac
    }

    ghost function Claimed(): Claim
      reads this
    {
      Claim(rekeyInProgress, lastRekeyAttempt)
    }

    ghost function Previous(): Option<(SessionKeys, Window)>
      requires Valid()
      reads this, current, previous, Repr()
    {
      if previous == null then None else Some((previous.keys, previous.Window()))
    }

    constructor (initial: Session, now: int)
      requires initial.Valid()
      ensures Valid() && current == initial && previous == null
      ensures rekeyThreshold == initial.rekeyAt / 4 * 3
      ensures Claimed() == Claim(false, now - 2 * MIN_REKEY_INTERVAL)
    {
      cipher, mac := initial.cipher, initial.mac;
      current, previous := initial, null;
      rekeyThreshold := initial.rekeyAt / 4 * 3;
      rekeyInProgress := false;
      lastRekeyAttempt := now - 2 * MIN_REKEY_INTERVAL;
    }

    /** The session is pinned: the caller seals under the session returned here. */
    method ReserveOnCurrent(n: u64) returns (sess: Session, r: Result<u64>)
      requires Valid()
      modifies current
      ensures Valid() && sess == current == old(current) && previous == old(previous)
      ensures (sess.txCounter, r) == Reserve(old(current.txCounter), n, sess.rekeyAt)
    {
      sess := current;
      r := sess.ReserveCounters(n);
    }

    method DecryptObf(datagram: bytes) returns (r: Result<(FrameType, bytes)>)
      requires Valid()
      modifies Repr() - {this}
      ensures Valid() && current == old(current) && previous == old(previous)
      ensures var (w, v, out) :=
                TrialOpen(cipher, mac, current.keys, old(current.Window()), old(Previous()), datagram);
              && current.Window() == w && r == out
              && (previous != null ==> v == Some(previous.Window()))
    {
      var res := current.TryOpenObf(datagram);
      if res.Err? {
        return Err(res.error);
      }
      if res.value.Some? {
        return Ok(res.value.value);
      }
      if previous != null {
        res := previous.TryOpenObf(datagram);
        if res.Err? {
          return Err(res.error);
        }
        if res.value.Some? {
          return Ok(res.value.value);
        }
      }
      return Err(DecryptionFailed);
    }

    method NeedsRekey(now: int) returns (won: bool)
      requires Valid()
      modifies this
      ensures Valid() && current == old(current) && previous == old(previous)
      ensures (Claimed(), won) == old(Claimed()).Try(current.txCounter, rekeyThreshold, now)
      ensures won <==> current.txCounter >= rekeyThreshold && now - old(lastRekeyAttempt) >= 5000 && !old(rekeyInProgress)
      ensures if won then rekeyInProgress && lastRekeyAttempt == now
              else rekeyInProgress == old(rekeyInProgress) && lastRekeyAttempt == old(lastRekeyAttempt)
    {
      if current.txCounter < rekeyThreshold {
        return false;
      }
      if now - lastRekeyAttempt < MIN_REKEY_INTERVAL {
        return false;
      }
      won := !rekeyInProgress;
      rekeyInProgress := true;
      if won {
        lastRekeyAttempt := now;
      }
    }

    method AbortRekey()
      requires Valid()
      modifies this
      ensures Valid() && current == old(current) && previous == old(previous)
      ensures Claimed() == old(Claimed()).Release()
    {
      rekeyInProgress := false;
    }

    method InstallNewSession(newSession: Session)
      requires Valid() && newSession.Valid() && Shares(newSession) && newSession.Repr() !! Repr()
      modifies this
      ensures Valid() && current == newSession && previous == old(current)
      ensures newSession.Window() == old(newSession.Window())
      ensures previous.Window() == old(current.Window())
      ensures Claimed() == old(Claimed()).Release()
    {
      var replaced := current;
      current := newSession;
      previous := replaced;
      rekeyInProgress := false;
    }

    method RetirePrevious()
      requires Valid()
      modifies this
      ensures Valid() && current == old(current) && previous == null
      ensures Claimed() == old(Claimed()) && current.Window() == old(current.Window())
    {
      previous := null;
    }
  }
}
