/** The two drivers of a mid-session rekey, over the session manager, with handshake
    obfuscation or without: nothing is installed but what the handshake established, and a
    failed rekey leaves the sessions alone. */
module RekeyDrivers {
  import opened Words
  import opened Bytes
  import opened Results
  import opened Aead
  import opened Sessions
  import opened ReplayWindows
  import opened Codec
  import opened Handshakes
  import opened Reassembly
  import opened HsObf

  const MAX_REKEY_RETRIES: nat := 4

  /** One attempt: whether the Init could be sent, what the inbound loop forwards before the
      timeout, and whether its channel closes after that. */
  datatype Attempt = Attempt(initSent: bool, arrivals: seq<Arrival>, closed: bool)

  /** The first message a reassembler completes. */
  function FirstMessage(cipher: Cipher, mac: Mac, key: Option<bytes>, table: Table, arrivals: seq<Arrival>): Option<bytes>
    decreases |arrivals|
  {
    if arrivals == [] then None
    else
      var (after, got) := PushHandshake(cipher, mac, key, table, arrivals[0]);
      if got != None then got else FirstMessage(cipher, mac, key, after, arrivals[1..])
  }

  /** The message the driver acts on: every attempt starts on an empty reassembler, a closed
      channel or a failed send ends the search, a timeout does not. */
  function Answer(cipher: Cipher, mac: Mac, key: Option<bytes>, attempts: seq<Attempt>): Option<bytes>
    decreases |attempts|
  {
    if attempts == [] || !attempts[0].initSent then None
    else
      var got := FirstMessage(cipher, mac, key, map[], attempts[0].arrivals);
      if got != None then got
      else if attempts[0].closed then None
      else Answer(cipher, mac, key, attempts[1..])
  }

  method Await(cipher: Cipher, mac: Mac, key: Option<bytes>, arrivals: seq<Arrival>) returns (got: Option<bytes>)
    ensures got == FirstMessage(cipher, mac, key, map[], arrivals)
  {
    var table: Table := map[];
    assert arrivals[0..] == arrivals;
    for i := 0 to |arrivals|
      invariant FirstMessage(cipher, mac, key, table, arrivals[i..]) == FirstMessage(cipher, mac, key, map[], arrivals)
    {
      assert arrivals[i..][0] == arrivals[i] && arrivals[i..][1..] == arrivals[i + 1..];
      var (after, message) := PushHandshake(cipher, mac, key, table, arrivals[i]);
      if message != None {
        return message;
      }
      table := after;
    }
    got := None;
  }

  lemma AnswersLater(cipher: Cipher, mac: Mac, key: Option<bytes>, attempts: seq<Attempt>, n: nat, w: bytes)
    requires n + 1 < |attempts| && Fruitless(cipher, mac, key, attempts[0])
    ensures Answers(cipher, mac, key, attempts, n + 1, w) <==> Answers(cipher, mac, key, attempts[1..], n, w)
  {
    var rest := attempts[1..];
    if Answers(cipher, mac, key, rest, n, w) {
      forall k | 0 <= k < n + 1 ensures Fruitless(cipher, mac, key, attempts[k]) {
        if k > 0 { assert attempts[k] == rest[k - 1]; }
      }
    }
    if Answers(cipher, mac, key, attempts, n + 1, w) {
      forall k | 0 <= k < n ensures Fruitless(cipher, mac, key, rest[k]) {
        assert rest[k] == attempts[k + 1];
      }
    }
  }

  ghost predicate SomeAnswers(cipher: Cipher, mac: Mac, key: Option<bytes>, attempts: seq<Attempt>, w: bytes) {
    exists n :: 0 <= n < |attempts| && Answers(cipher, mac, key, attempts, n, w)
  }

  lemma SomeAnswersLater(cipher: Cipher, mac: Mac, key: Option<bytes>, attempts: seq<Attempt>, w: bytes)
    requires attempts != [] && Fruitless(cipher, mac, key, attempts[0])
    ensures SomeAnswers(cipher, mac, key, attempts, w) <==> SomeAnswers(cipher, mac, key, attempts[1..], w)
  {
    var rest := attempts[1..];
    if SomeAnswers(cipher, mac, key, rest, w) {
      var n :| 0 <= n < |rest| && Answers(cipher, mac, key, rest, n, w);
      AnswersLater(cipher, mac, key, attempts, n, w);
    }
    if SomeAnswers(cipher, mac, key, attempts, w) {
      var n :| 0 <= n < |attempts| && Answers(cipher, mac, key, attempts, n, w);
      AnswersLater(cipher, mac, key, attempts, n - 1, w);
    }
  }

  lemma SomeAnswersNow(cipher: Cipher, mac: Mac, key: Option<bytes>, attempts: seq<Attempt>, w: bytes)
    requires attempts != [] && !Fruitless(cipher, mac, key, attempts[0])
    ensures SomeAnswers(cipher, mac, key, attempts, w)
       <==> attempts[0].initSent && FirstMessage(cipher, mac, key, map[], attempts[0].arrivals) == Some(w)
  {
    if attempts[0].initSent && FirstMessage(cipher, mac, key, map[], attempts[0].arrivals) == Some(w) {
      assert Answers(cipher, mac, key, attempts, 0, w);
    }
    if SomeAnswers(cipher, mac, key, attempts, w) {
      var n :| 0 <= n < |attempts| && Answers(cipher, mac, key, attempts, n, w);
      assert n == 0;
    }
  }

  /** Which message a run acts on, said without the loop: it completed in some attempt, all
      attempts before were sent, stayed open and completed nothing. */
  lemma {:induction false} AnswerIff(cipher: Cipher, mac: Mac, key: Option<bytes>, attempts: seq<Attempt>, w: bytes)
    ensures Answer(cipher, mac, key, attempts) == Some(w) <==>
            exists n :: 0 <= n < |attempts| && Answers(cipher, mac, key, attempts, n, w)
    decreases |attempts|
  {
    if attempts != [] {
      assert SomeAnswers(cipher, mac, key, attempts, w) <==> exists n :: 0 <= n < |attempts| && Answers(cipher, mac, key, attempts, n, w);
      if Fruitless(cipher, mac, key, attempts[0]) {
        AnswerIff(cipher, mac, key, attempts[1..], w);
        SomeAnswersLater(cipher, mac, key, attempts, w);
      } else {
        SomeAnswersNow(cipher, mac, key, attempts, w);
      }
    }
  }

  predicate Fruitless(cipher: Cipher, mac: Mac, key: Option<bytes>, a: Attempt) {
    a.initSent && !a.closed && FirstMessage(cipher, mac, key, map[], a.arrivals) == None
  }

  predicate Answers(cipher: Cipher, mac: Mac, key: Option<bytes>, attempts: seq<Attempt>, n: nat, w: bytes)
    requires n < |attempts|
  {
    && attempts[n].initSent && FirstMessage(cipher, mac, key, map[], attempts[n].arrivals) == Some(w)
    && forall k | 0 <= k < n :: Fruitless(cipher, mac, key, attempts[k])
  }

  // ── The search finds what the reassembler delivers ──

  /** The first message of an attempt is the first that the reassembler, fed all that
      arrives, gives out. */
  lemma {:induction false} FirstMessageIff(cipher: Cipher, mac: Mac, key: Option<bytes>, table: Table, arrivals: seq<Arrival>, w: bytes)
    ensures |Received(cipher, mac, key, table, arrivals)| == |arrivals|
    ensures FirstMessage(cipher, mac, key, table, arrivals) == Some(w)
       <==> exists n :: IsFirst(Received(cipher, mac, key, table, arrivals), n, w)
    decreases |arrivals|
  {
    if arrivals != [] {
      var (after, got) := PushHandshake(cipher, mac, key, table, arrivals[0]);
      var rest := Received(cipher, mac, key, after, arrivals[1..]);
      FirstMessageIff(cipher, mac, key, after, arrivals[1..], w);
      FirstLater(got, rest, w);
      if got != None { FirstNow(got, rest, w); }
    }
  }

  predicate IsFirst(out: seq<Option<bytes>>, n: int, w: bytes) {
    0 <= n < |out| && out[n] == Some(w) && forall k | 0 <= k < n :: out[k] == None
  }

  lemma FirstLater(got: Option<bytes>, rest: seq<Option<bytes>>, w: bytes)
    ensures got == None ==> ((exists n :: IsFirst([got] + rest, n, w)) <==> (exists n :: IsFirst(rest, n, w)))
  {
    var out := [got] + rest;
    if got == None {
      if n :| IsFirst(out, n, w) {
        forall k | 0 <= k < n - 1 ensures rest[k] == None { assert out[k + 1] == None; }
        assert rest[n - 1] == out[n];
        assert IsFirst(rest, n - 1, w);
      }
      if n :| IsFirst(rest, n, w) {
        forall k | 0 <= k < n + 1 ensures out[k] == None { if k > 0 { assert out[k] == rest[k - 1]; } }
        assert IsFirst(out, n + 1, w);
      }
    }
  }

  lemma FirstNow(got: Option<bytes>, rest: seq<Option<bytes>>, w: bytes)
    requires got != None
    ensures (exists n :: IsFirst([got] + rest, n, w)) <==> got == Some(w)
  {
    var out := [got] + rest;
    assert out[0] != None;
    if got == Some(w) { assert IsFirst(out, 0, w); }
  }

  /** Some arrival is fragment i of the message. */
  ghost predicate Arrives(mac: Mac, key: Option<bytes>, m: Split, arrivals: seq<Arrival>, i: nat) {
    exists k :: 0 <= k < |arrivals| && IsFragment(mac, key, m, arrivals[k], i)
  }

  predicate IsFragment(mac: Mac, key: Option<bytes>, m: Split, a: Arrival, i: nat) {
    EventOf(mac, key, a).Some? && m.Owns(EventOf(mac, key, a).value) && EventOf(mac, key, a).value.index == i
  }

  /** No arrival that is not the message's own gives out another message. */
  predicate OthersQuiet(mac: Mac, key: Option<bytes>, m: Split, arrivals: seq<Arrival>, out: seq<Option<bytes>>) {
    |out| == |arrivals| &&
    forall k | 0 <= k < |arrivals| :: (EventOf(mac, key, arrivals[k]).Some? && m.Owns(EventOf(mac, key, arrivals[k]).value)) || out[k] == None
  }

  lemma QuietRest(mac: Mac, key: Option<bytes>, m: Split, arrivals: seq<Arrival>, first: Option<bytes>, rest: seq<Option<bytes>>)
    requires arrivals != [] && OthersQuiet(mac, key, m, arrivals, [first] + rest)
    ensures OthersQuiet(mac, key, m, arrivals[1..], rest)
  {
    forall k | 0 <= k < |arrivals| - 1
      ensures (EventOf(mac, key, arrivals[1..][k]).Some? && m.Owns(EventOf(mac, key, arrivals[1..][k]).value)) || rest[k] == None
    {
      assert arrivals[1..][k] == arrivals[k + 1] && ([first] + rest)[k + 1] == rest[k];
    }
  }

  lemma ArrivesInRest(mac: Mac, key: Option<bytes>, m: Split, arrivals: seq<Arrival>, i: nat)
    requires Arrives(mac, key, m, arrivals, i) && !IsFragment(mac, key, m, arrivals[0], i)
    ensures Arrives(mac, key, m, arrivals[1..], i)
  {
    var k :| 0 <= k < |arrivals| && IsFragment(mac, key, m, arrivals[k], i);
    assert arrivals[1..][k - 1] == arrivals[k];
  }

  /** A message that is not complete lacks a fragment. */
  lemma SomeMissing(m: Split, table: Table, got: set<u16>) returns (i: u16)
    requires m.Valid() && Tracks(m, table, got)
    ensures i < |m.chunks| && i !in got
  {
    if forall j: u16 | j < |m.chunks| :: j in got {
      AllIndices(got, |m.chunks|);
      assert false;
    }
    i :| i < |m.chunks| && i !in got;
  }

  lemma {:induction false} AllIndices(keys: set<u16>, n: nat)
    requires n <= 64 && forall j: u16 | j < n :: j in keys
    ensures |keys| >= n
  {
    if n > 0 {
      AllIndices(keys - {n - 1}, n - 1);
    }
  }

  /** The fragments still missing all arrive, in any order, and nobody else's message
      completes: the first message is this one. */
  lemma {:induction false} FairArrivalsAnswer(cipher: Cipher, mac: Mac, key: Option<bytes>, msg: bytes, m: Split,
                                              table: Table, got: set<u16>, arrivals: seq<Arrival>)
    requires m.Valid() && Opened(cipher, key, Concat(m.chunks)) == Some(msg)
    requires Tracks(m, table, got) && Fair(m, table, got, EventsOf(mac, key, arrivals))
    requires forall i: u16 | i < |m.chunks| && i !in got :: Arrives(mac, key, m, arrivals, i)
    requires OthersQuiet(mac, key, m, arrivals, Received(cipher, mac, key, table, arrivals))
    ensures FirstMessage(cipher, mac, key, table, arrivals) == Some(msg)
    decreases |arrivals|
  {
    var missing := SomeMissing(m, table, got);
    assert Arrives(mac, key, m, arrivals, missing);
    var events, rest := EventsOf(mac, key, arrivals), arrivals[1..];
    var (after, r) := PushHandshake(cipher, mac, key, table, arrivals[0]);
    QuietRest(mac, key, m, arrivals, r, Received(cipher, mac, key, after, rest));
    match EventOf(mac, key, arrivals[0])
    case None =>
      assert events == EventsOf(mac, key, rest);
      forall i: u16 | i < |m.chunks| && i !in got ensures Arrives(mac, key, m, rest, i) { ArrivesInRest(mac, key, m, arrivals, i); }
      FairArrivalsAnswer(cipher, mac, key, msg, m, table, got, rest);
    case Some(e) =>
      assert events[0] == e && events[1..] == EventsOf(mac, key, rest);
      OneEvent(cipher, key, msg, m, table, got, e);
      if !(m.Owns(e) && Expected(m, got, e).Some?) {
        forall i: u16 | i < |m.chunks| && i !in Got(m, got, e) ensures Arrives(mac, key, m, rest, i) {
          ArrivesInRest(mac, key, m, arrivals, i);
        }
        FairArrivalsAnswer(cipher, mac, key, msg, m, after, Got(m, got, e), rest);
      }
  }

  /** Every datagram of the message is among the arrivals. */
  predicate AllDelivered(mac: Mac, key: Option<bytes>, m: Split, arrivals: seq<Arrival>) {
    forall i | 0 <= i < |m.chunks| :: IsDelivered(arrivals, Datagrams(mac, key, m)[i])
  }

  predicate IsDelivered(arrivals: seq<Arrival>, datagram: bytes) {
    exists k :: 0 <= k < |arrivals| && arrivals[k].Datagram? && arrivals[k].raw == datagram
  }

  lemma {:induction false} FirstMessageStays(cipher: Cipher, mac: Mac, key: Option<bytes>, table: Table,
                                             arrivals: seq<Arrival>, more: seq<Arrival>)
    requires FirstMessage(cipher, mac, key, table, arrivals) != None
    ensures FirstMessage(cipher, mac, key, table, arrivals + more) == FirstMessage(cipher, mac, key, table, arrivals)
    decreases |arrivals|
  {
    assert (arrivals + more)[0] == arrivals[0] && (arrivals + more)[1..] == arrivals[1..] + more;
    var (after, got) := PushHandshake(cipher, mac, key, table, arrivals[0]);
    if got == None { FirstMessageStays(cipher, mac, key, after, arrivals[1..], more); }
  }

  /** End to end: attempts before this one came to nothing; in this one all datagrams of the
      peer's message are among the first arrivals, in any order, with duplicates and noise,
      within what the reassembler holds and before anyone else's message completes. Then the
      driver acts on exactly the message the peer sent, whatever arrives after. */
  lemma FairAttemptIsAnswered(cipher: Cipher, mac: Mac, key: Option<bytes>, nonce: bytes, msg: bytes, m: Split,
                              attempts: seq<Attempt>, n: nat, upTo: nat)
    requires cipher.Correct() && Sends(cipher, key, nonce, msg, m.chunks)
    requires n < |attempts| && attempts[n].initSent && forall k | 0 <= k < n :: Fruitless(cipher, mac, key, attempts[k])
    requires upTo <= |attempts[n].arrivals| && AllDelivered(mac, key, m, attempts[n].arrivals[..upTo])
    requires Fair(m, map[], {}, EventsOf(mac, key, attempts[n].arrivals[..upTo]))
    requires OthersQuiet(mac, key, m, attempts[n].arrivals[..upTo], Received(cipher, mac, key, map[], attempts[n].arrivals[..upTo]))
    ensures Answer(cipher, mac, key, attempts) == Some(msg)
  {
    var first, more := attempts[n].arrivals[..upTo], attempts[n].arrivals[upTo..];
    SentOpens(cipher, key, nonce, msg, m);
    forall i: u16 | i < |m.chunks| ensures Arrives(mac, key, m, first, i) {
      var datagram := Datagrams(mac, key, m)[i];
      assert IsDelivered(first, datagram);
      var k :| 0 <= k < |first| && first[k].Datagram? && first[k].raw == datagram;
      SentDatagramsAreOwn(mac, key, m, i, first[k].now);
      assert IsFragment(mac, key, m, first[k], i);
    }
    FairArrivalsAnswer(cipher, mac, key, msg, m, map[], {}, first);
    FirstMessageStays(cipher, mac, key, map[], first, more);
    assert first + more == attempts[n].arrivals;
    AnswerIff(cipher, mac, key, attempts, msg);
    assert Answers(cipher, mac, key, attempts, n, msg);
  }

  /** What a session is made of, once a handshake has established. */
  datatype Material = Material(id: u32, shared: bytes, algo: AeadAlgo) {
    function Keys(kdf: Kdf, isInitiator: bool): SessionKeys {
      DeriveSession(kdf, id, shared, isInitiator, algo)
    }
  }

  /** The secret and cipher behind an established `finalize`. */
  method FinalizeMaterial(p: Primitives, i: Initiator, raw: bytes, mine: Message, pad: nat -> byte)
    returns (r: Result<Material>)
    requires p.Ideal() && i.init.Sized() && mine.Sized() && mine.msgType == Confirm
    ensures r.Ok? <==> Finalize(p, i, raw, mine, pad).Ok?
    ensures r.Ok? ==> r.value.Keys(p.kdf, true) == Finalize(p, i, raw, mine, pad).value.0.keys
  {
    var done :- Finalize(p, i, raw, mine, pad);
    DecodeThenEncode(raw, pad);
    var resp := done.0.resp;
    var shared := p.combine(p.dh(i.x, resp.x25519), p.decaps(i.k, resp.MlkemCt()));
    return Ok(Material(p.sessionId(shared), shared, FromU8(resp.aeadAlgo).value));
  }

  /** Builds the session and makes it current. */
  method Adopt(manager: SessionManager, kdf: Kdf, m: Material, isInitiator: bool)
    requires manager.Valid() && manager.cipher.Correct()
    modifies manager
    ensures manager.Valid() && fresh(manager.current) && manager.previous == old(manager.current)
    ensures manager.current.keys == m.Keys(kdf, isInitiator)
    ensures manager.current.txCounter == 0 && manager.current.Window() == EMPTY
    ensures manager.Claimed() == old(manager.Claimed()).Release()
  {
    var session := new Session.FromHandshake(manager.cipher, manager.mac, kdf, m.id, m.shared, isInitiator, m.algo);
    manager.InstallNewSession(session);
  }

  /** Sends the Init and waits, up to four times. */
  method Search(cipher: Cipher, mac: Mac, key: Option<bytes>, attempts: seq<Attempt>) returns (r: Result<bytes>)
    requires |attempts| == MAX_REKEY_RETRIES
    ensures match Answer(cipher, mac, key, attempts) case Some(w) => r == Ok(w) case None => r.Err?
  {
    var lastErr := HandshakeError("no attempts made");
    assert attempts[0..] == attempts;
    for attempt := 0 to MAX_REKEY_RETRIES
      invariant Answer(cipher, mac, key, attempts) == Answer(cipher, mac, key, attempts[attempt..])
    {
      var a := attempts[attempt];
      assert attempts[attempt..][0] == a && attempts[attempt..][1..] == attempts[attempt + 1..];
      if !a.initSent {
        return Err(HandshakeError("send"));
      }
      var wire := Await(cipher, mac, key, a.arrivals);
      if wire != None {
        return Ok(wire.value);
      }
      if a.closed {
        return Err(HandshakeError("channel closed"));
      }
      lastErr := HandshakeError("timed out");
    }
    return Err(lastErr);
  }

  /** Installs exactly when `finalize` establishes on the message found and the Confirm goes
      out. Otherwise both sessions and the claim are as before. */
  method RekeyAsInitiator(manager: SessionManager, p: Primitives, i: Initiator,
                          mine: Message, pad: nat -> byte, key: Option<bytes>, attempts: seq<Attempt>, confirmSent: bool)
    returns (r: Result<()>)
    requires manager.Valid() && manager.cipher.Correct() && |attempts| == MAX_REKEY_RETRIES
    requires p.Ideal() && i.init.Sized() && mine.Sized() && mine.msgType == Confirm
    modifies manager
    ensures manager.Valid()
    ensures var w := Answer(manager.cipher, manager.mac, key, attempts);
            && (r.Ok? <==> w.Some? && Finalize(p, i, w.value, mine, pad).Ok? && confirmSent)
            && (r.Ok? ==> manager.current.keys == Finalize(p, i, w.value, mine, pad).value.0.keys)
    ensures r.Ok? ==>
              && fresh(manager.current) && manager.previous == old(manager.current)
              && manager.current.txCounter == 0 && manager.current.Window() == EMPTY
              && manager.Claimed() == old(manager.Claimed()).Release()
    ensures r.Err? ==>
              && manager.current == old(manager.current) && manager.previous == old(manager.previous)
              && manager.Claimed() == old(manager.Claimed())
  {
    var wire :- Search(manager.cipher, manager.mac, key, attempts);
    var material :- FinalizeMaterial(p, i, wire, mine, pad);
    if !confirmSent {
      return Err(HandshakeError("send"));
    }
    Adopt(manager, p.kdf, material, true);
    return Ok(());
  }

  /** The responder installs exactly when the Confirm verifies, and installs the session of
      the very Init and Response that it answered. */
  method RekeyResponderConfirm(manager: SessionManager, p: Primitives, r: Responder, raw: bytes)
    returns (out: Result<()>)
    requires manager.Valid() && manager.cipher.Correct() && p.Ideal() && ResponderOk(p, r)
    modifies manager
    ensures manager.Valid()
    ensures out.Ok? <==> Confirms(p, r, raw)
    ensures out.Ok? ==>
              && fresh(manager.current) && manager.previous == old(manager.current)
              && manager.current.keys == r.keys && manager.current.Window() == EMPTY
              && manager.Claimed() == old(manager.Claimed()).Release()
    ensures out.Err? ==>
              && manager.current == old(manager.current) && manager.previous == old(manager.previous)
              && manager.Claimed() == old(manager.Claimed())
  {
    if !Confirms(p, r, raw) {
      return Err(HandshakeError("confirm"));
    }
    var material := AnsweredMaterial(p, r);
    Adopt(manager, p.kdf, material, false);
    return Ok(());
  }

  /** The secret and cipher behind the Response that was sent. */
  method AnsweredMaterial(p: Primitives, r: Responder) returns (m: Material)
    requires ResponderOk(p, r)
    ensures m.Keys(p.kdf, false) == r.keys
  {
    var shared := p.combine(p.dh(r.x, r.init.x25519), p.encaps(r.r, r.init.MlkemPub()).0);
    var algo := FromU8(r.resp.aeadAlgo);
    m := Material(p.sessionId(shared), shared, algo.value);
  }
}
