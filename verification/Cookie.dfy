/** Return routability: the responder spends no expensive work on a source that has not
    echoed a cookie sent to it, and keeps no state to know that. */
module Cookies {
  import opened Words
  import opened Bytes
  import opened Results
  import opened Aead
  import opened Codec

  const COOKIE_WINDOW_SECS: u64 := 120

  // ── The cookie ──

  datatype Address =
    | V4(ip: bytes, port: u16)
    | V6(ip: bytes, port: u16)
  {
    predicate Valid() {
      |ip| == if V4? then 4 else 16
    }
  }

  /** The address a datagram came from. */
  type Source = a: Address | a.Valid() witness V4([0, 0, 0, 0], 0)

  /** What the cookie's MAC covers. */
  function CookieInput(src: Address, bucket: u64): bytes {
    src.ip + LE(src.port, 2) + LE(bucket, 8)
  }

  /** The bytes name the address, the port and the time window. */
  lemma CookieInputBinds(a: Source, i: u64, b: Source, j: u64)
    ensures CookieInput(a, i) == CookieInput(b, j) <==> a == b && i == j
  {
    if CookieInput(a, i) == CookieInput(b, j) {
      CookieInputParts(a, i);
      CookieInputParts(b, j);
      assert |a.ip| == |b.ip|;
    }
  }

  lemma CookieInputParts(a: Source, i: u64)
    ensures var s, n := CookieInput(a, i), |a.ip|;
            && |s| == n + 10 && s[..n] == a.ip
            && FromLE(s[n..n + 2]) == a.port && FromLE(s[n + 2..]) == i
  {
    var s, n := CookieInput(a, i), |a.ip|;
    assert s[n..n + 2] == LE(a.port, 2) && s[n + 2..] == LE(i, 8);
    LE16(a.port);
    LE64(i);
  }

  function Bucket(secs: u64): u64 {
    secs / COOKIE_WINDOW_SECS
  }

  /** `wrapping_sub(1)`. */
  function Previous(bucket: u64): u64 {
    (bucket + TWO64 - 1) % TWO64
  }

  function ComputeCookie(mac: Mac, secret: bytes, src: Address, bucket: u64): (c: bytes)
    ensures |c| == COOKIE_LEN
  {
    mac(secret, CookieInput(src, bucket))[..COOKIE_LEN]
  }

  function Issue(mac: Mac, secret: bytes, src: Address, now: u64): bytes {
    ComputeCookie(mac, secret, src, Bucket(now))
  }

  predicate Accepts(mac: Mac, secret: bytes, src: Address, cookie: bytes, now: u64) {
    || cookie == ComputeCookie(mac, secret, src, Bucket(now))
    || cookie == ComputeCookie(mac, secret, src, Previous(Bucket(now)))
  }

  /** Folds the differences of all bytes; no difference is equality. */
  method SameCookie(cookie: bytes, expected: bytes) returns (same: bool)
    requires |cookie| == |expected| == COOKIE_LEN
    ensures same <==> cookie == expected
  {
    var diff: byte := 0;
    for i := 0 to COOKIE_LEN
      invariant diff == 0 <==> cookie[..i] == expected[..i]
    {
      XorZero(cookie[i], expected[i]);
      OrZero(diff, XorByte(cookie[i], expected[i]));
      assert cookie[..i + 1] == cookie[..i] + [cookie[i]];
      assert expected[..i + 1] == expected[..i] + [expected[i]];
      diff := OrByte(diff, XorByte(cookie[i], expected[i]));
    }
    assert cookie[..COOKIE_LEN] == cookie && expected[..COOKIE_LEN] == expected;
    same := diff == 0;
  }

  method Valid(mac: Mac, secret: bytes, src: Address, cookie: bytes, now: u64) returns (ok: bool)
    requires |cookie| == COOKIE_LEN
    ensures ok <==> Accepts(mac, secret, src, cookie, now)
  {
    var b := Bucket(now);
    ok := SameCookie(cookie, ComputeCookie(mac, secret, src, b));
    if !ok {
      ok := SameCookie(cookie, ComputeCookie(mac, secret, src, Previous(b)));
    }
  }

  /** The cookies of one source in different windows differ. */
  ghost predicate Distinct(mac: Mac, secret: bytes, src: Address) {
    forall i: u64, j: u64 | i != j :: ComputeCookie(mac, secret, src, i) != ComputeCookie(mac, secret, src, j)
  }

  lemma BucketBounds(t: u64, now: u64)
    ensures (Bucket(now) == Bucket(t) || Previous(Bucket(now)) == Bucket(t))
       <==> Bucket(t) * COOKIE_WINDOW_SECS <= now < (Bucket(t) + 2) * COOKIE_WINDOW_SECS
  {
    var b, n := Bucket(t), Bucket(now);
    assert n * 120 <= now < n * 120 + 120;
    assert n < TWO64 - 1 && b < TWO64 - 1;
    if n > 0 {
      assert Previous(n) == n - 1;
    } else {
      assert Previous(n) == TWO64 - 1;
    }
  }

  /** A cookie is good in the window it was issued in and the next, and at no other time. */
  lemma CookieLifetime(mac: Mac, secret: bytes, src: Address, t: u64, now: u64)
    requires Distinct(mac, secret, src)
    ensures Accepts(mac, secret, src, Issue(mac, secret, src, t), now)
       <==> Bucket(t) * COOKIE_WINDOW_SECS <= now < (Bucket(t) + 2) * COOKIE_WINDOW_SECS
  {
    BucketBounds(t, now);
  }

  /** So it is good for at least 120 seconds and dead after 240; the first half needs no
      assumption on the MAC. */
  lemma GoodFor120DeadAt240(mac: Mac, secret: bytes, src: Address, t: u64, now: u64)
    ensures t <= now <= t + 120 ==> Accepts(mac, secret, src, Issue(mac, secret, src, t), now)
    ensures Distinct(mac, secret, src) && now >= t + 240 ==> !Accepts(mac, secret, src, Issue(mac, secret, src, t), now)
  {
    BucketBounds(t, now);
    if Distinct(mac, secret, src) { CookieLifetime(mac, secret, src, t, now); }
  }

  // ── The responder ──

  /** `respond` and `confirm` say whether the expensive steps succeed. */
  datatype Env = Env(mac: Mac, secret: bytes, respond: Message -> bool, confirm: (Message, bytes) -> bool)

  datatype Phase =
    | Listening
    | Confirming(init: Message, peer: Source)
    | Returned(init: Message, peer: Source)

  /** A complete message from a source, or the end of the wait for a Confirm. */
  datatype Event =
    | Arrived(src: Source, now: u64, wire: bytes)
    | TimedOut

  datatype Action = Nothing | Challenged(cookie: bytes) | RanRespond | RanConfirm

  function React(env: Env, phase: Phase, e: Event): (Phase, Action) {
    match phase
    case Listening =>
      if e.TimedOut? then (phase, Nothing)
      else
        var init := Decoded(e.wire);
        if init.Err? || init.value.msgType != Init then (phase, Nothing)
        else if !Accepts(env.mac, env.secret, e.src, init.value.cookie, e.now) then
          (phase, Challenged(Issue(env.mac, env.secret, e.src, e.now)))
        else if env.respond(init.value) then (Confirming(init.value, e.src), RanRespond)
        else (phase, RanRespond)
    case Confirming(init, peer) =>
      if e.TimedOut? then (Listening, Nothing)
      else if e.src != peer then (phase, Nothing)
      else if env.confirm(init, e.wire) then (Returned(init, peer), RanConfirm)
      else (Listening, RanConfirm)
    case Returned(_, _) => (phase, Nothing)
  }

  function PhaseAfter(env: Env, events: seq<Event>): Phase {
    if events == [] then Listening
    else React(env, PhaseAfter(env, events[..|events| - 1]), events[|events| - 1]).0
  }

  function ActionAt(env: Env, events: seq<Event>, i: nat): Action
    requires i < |events|
  {
    React(env, PhaseAfter(env, events[..i]), events[i]).1
  }

  /** At event j the responder computed the MAC of `input` and sent it out as a cookie. */
  ghost predicate Revealed(env: Env, events: seq<Event>, j: nat, input: bytes)
    requires j < |events|
  {
    && events[j].Arrived? && ActionAt(env, events, j).Challenged?
    && CookieInput(events[j].src, Bucket(events[j].now)) == input
  }

  /** The MAC inputs the responder compares a message with. */
  predicate Compared(e: Event, input: bytes) {
    e.Arrived? && (input == CookieInput(e.src, Bucket(e.now)) || input == CookieInput(e.src, Previous(Bucket(e.now))))
  }

  /** Unforgeability of the MAC: a value that passes as the MAC of an input is presented only
      after some challenge, to anyone, revealed the MAC of that very input. */
  ghost predicate UnforgedAt(env: Env, events: seq<Event>, i: nat)
    requires i < |events|
  {
    forall input | Compared(events[i], input) && Passes(env, events[i], input) ::
      exists j :: 0 <= j < i && Revealed(env, events, j, input)
  }

  predicate Passes(env: Env, e: Event, input: bytes) {
    e.Arrived? && Decoded(e.wire).Ok? && Decoded(e.wire).value.cookie == env.mac(env.secret, input)[..COOKIE_LEN]
  }

  ghost predicate Unforged(env: Env, events: seq<Event>) {
    forall i | 0 <= i < |events| :: UnforgedAt(env, events, i)
  }

  /** Expensive work at event i is done for a source that was itself sent a cookie in the
      same window or the one before: the MAC's input names them. */
  lemma RespondsOnlyToRoutable(env: Env, events: seq<Event>, i: nat) returns (j: nat)
    requires i < |events| && ActionAt(env, events, i) == RanRespond && UnforgedAt(env, events, i)
    ensures j < i && events[j].Arrived? && events[i].Arrived? && events[j].src == events[i].src
    ensures ActionAt(env, events, j).Challenged?
    ensures Bucket(events[j].now) * COOKIE_WINDOW_SECS <= events[i].now < (Bucket(events[j].now) + 2) * COOKIE_WINDOW_SECS
  {
    var e := events[i];
    var cookie := Decoded(e.wire).value.cookie;
    var b := if cookie == ComputeCookie(env.mac, env.secret, e.src, Bucket(e.now)) then Bucket(e.now) else Previous(Bucket(e.now));
    var input := CookieInput(e.src, b);
    assert Compared(e, input) && Passes(env, e, input);
    j :| 0 <= j < i && Revealed(env, events, j, input);
    CookieInputBinds(events[j].src, Bucket(events[j].now), e.src, b);
    BucketBounds(events[j].now, e.now);
  }

  /** Who the responder is in a half-open handshake with got there through `respond`. */
  lemma {:induction false} HalfOpenCameFrom(env: Env, events: seq<Event>) returns (i: nat)
    requires PhaseAfter(env, events) != Listening
    ensures i < |events| && ActionAt(env, events, i) == RanRespond
    ensures events[i].Arrived? && events[i].src == PhaseAfter(env, events).peer
    ensures Decoded(events[i].wire) == Ok(PhaseAfter(env, events).init)
  {
    var n := |events| - 1;
    var front := events[..n];
    if PhaseAfter(env, front) == Listening {
      i := n;
    } else {
      i := HalfOpenCameFrom(env, front);
      assert events[..i] == front[..i];
    }
  }

  lemma {:induction false} ReturnCameFrom(env: Env, events: seq<Event>) returns (k: nat)
    requires PhaseAfter(env, events).Returned?
    ensures k < |events| && PhaseAfter(env, events[..k]) == Confirming(PhaseAfter(env, events).init, PhaseAfter(env, events).peer)
    ensures events[k].Arrived? && events[k].src == PhaseAfter(env, events).peer
    ensures env.confirm(PhaseAfter(env, events).init, events[k].wire)
  {
    var n := |events| - 1;
    var front := events[..n];
    if PhaseAfter(env, front).Returned? {
      k := ReturnCameFrom(env, front);
      assert events[..k] == front[..k];
    } else {
      k := n;
    }
  }

  /** The peer the responder returns was sent a cookie, then sent an Init carrying it while
      it was good, then sent the Confirm of that very Init. */
  lemma ReturnedPeerIsRoutable(env: Env, events: seq<Event>) returns (j: nat, i: nat, k: nat)
    requires Unforged(env, events) && PhaseAfter(env, events).Returned?
    ensures var p := PhaseAfter(env, events);
            && j < i < k < |events|
            && (forall n | n in {i, j, k} :: events[n].Arrived? && events[n].src == p.peer)
            && ActionAt(env, events, j).Challenged?
            && ActionAt(env, events, i) == RanRespond && Decoded(events[i].wire) == Ok(p.init)
            && Accepts(env.mac, env.secret, p.peer, p.init.cookie, events[i].now)
            && env.confirm(p.init, events[k].wire)
  {
    k := ReturnCameFrom(env, events);
    i := HalfOpenCameFrom(env, events[..k]);
    assert events[..k][..i] == events[..i];
    j := RespondsOnlyToRoutable(env, events, i);
  }

  // ── When the responder returns ──

  /** An Init from this source with a good cookie, on which `respond` succeeds. */
  predicate IsGoodInit(env: Env, e: Event, init: Message, peer: Source) {
    && e.Arrived? && e.src == peer && Decoded(e.wire) == Ok(init) && init.msgType == Init
    && Accepts(env.mac, env.secret, peer, init.cookie, e.now) && env.respond(init)
  }

  predicate IsGoodConfirm(env: Env, e: Event, init: Message, peer: Source) {
    e.Arrived? && e.src == peer && env.confirm(init, e.wire)
  }

  /** Between i and k nothing but messages of other sources. */
  predicate OnlyOthers(events: seq<Event>, i: nat, k: nat, peer: Source) {
    k <= |events| && forall j | i <= j < k :: events[j].Arrived? && events[j].src != peer
  }

  /** From event i on the responder waits for the Confirm of this Init. */
  ghost predicate HalfOpenFrom(env: Env, events: seq<Event>, i: nat, init: Message, peer: Source) {
    && i < |events| && PhaseAfter(env, events[..i]) == Listening
    && IsGoodInit(env, events[i], init, peer) && OnlyOthers(events, i + 1, |events|, peer)
  }

  ghost predicate HalfOpen(env: Env, events: seq<Event>, init: Message, peer: Source) {
    exists i: nat :: HalfOpenFrom(env, events, i, init, peer)
  }

  lemma FromLater(env: Env, front: seq<Event>, e: Event, i: nat, init: Message, peer: Source)
    requires i < |front|
    ensures HalfOpenFrom(env, front + [e], i, init, peer)
       <==> HalfOpenFrom(env, front, i, init, peer) && e.Arrived? && e.src != peer
  {
    var events := front + [e];
    assert events[..i] == front[..i] && events[i] == front[i];
    if OnlyOthers(events, i + 1, |events|, peer) {
      assert events[|front|] == e;
      forall j | i + 1 <= j < |front| ensures front[j].Arrived? && front[j].src != peer { assert events[j] == front[j]; }
    }
  }

  lemma FromNow(env: Env, front: seq<Event>, e: Event, init: Message, peer: Source)
    ensures HalfOpenFrom(env, front + [e], |front|, init, peer)
       <==> PhaseAfter(env, front) == Listening && IsGoodInit(env, e, init, peer)
  {
    assert (front + [e])[..|front|] == front;
  }

  lemma HalfOpenStep(env: Env, front: seq<Event>, e: Event, init: Message, peer: Source)
    ensures HalfOpen(env, front + [e], init, peer)
       <==> (PhaseAfter(env, front) == Listening && IsGoodInit(env, e, init, peer))
            || (HalfOpen(env, front, init, peer) && e.Arrived? && e.src != peer)
  {
    FromNow(env, front, e, init, peer);
    if HalfOpen(env, front + [e], init, peer) {
      var i: nat :| HalfOpenFrom(env, front + [e], i, init, peer);
      if i < |front| { FromLater(env, front, e, i, init, peer); }
    }
    if HalfOpen(env, front, init, peer) {
      var i: nat :| HalfOpenFrom(env, front, i, init, peer);
      FromLater(env, front, e, i, init, peer);
    }
  }

  /** Which reactions lead to a half-open handshake, and which return. */
  lemma ReactsInto(env: Env, phase: Phase, e: Event, init: Message, peer: Source)
    ensures React(env, phase, e).0 == Confirming(init, peer)
       <==> (phase == Listening && IsGoodInit(env, e, init, peer)) || (phase == Confirming(init, peer) && e.Arrived? && e.src != peer)
    ensures React(env, phase, e).0 == Returned(init, peer)
       <==> phase == Returned(init, peer) || (phase == Confirming(init, peer) && IsGoodConfirm(env, e, init, peer))
  {}

  lemma PhaseStep(env: Env, front: seq<Event>, e: Event, init: Message, peer: Source)
    ensures PhaseAfter(env, front + [e]) == Confirming(init, peer)
       <==> (PhaseAfter(env, front) == Listening && IsGoodInit(env, e, init, peer))
            || (PhaseAfter(env, front) == Confirming(init, peer) && e.Arrived? && e.src != peer)
    ensures PhaseAfter(env, front + [e]) == Returned(init, peer)
       <==> PhaseAfter(env, front) == Returned(init, peer)
            || (PhaseAfter(env, front) == Confirming(init, peer) && IsGoodConfirm(env, e, init, peer))
  {
    assert (front + [e])[..|front|] == front;
    ReactsInto(env, PhaseAfter(env, front), e, init, peer);
  }

  lemma {:induction false} HalfOpenIff(env: Env, events: seq<Event>, init: Message, peer: Source)
    ensures PhaseAfter(env, events) == Confirming(init, peer) <==> HalfOpen(env, events, init, peer)
  {
    if events != [] {
      var front, e := events[..|events| - 1], events[|events| - 1];
      assert events == front + [e];
      HalfOpenIff(env, front, init, peer);
      HalfOpenStep(env, front, e, init, peer);
      PhaseStep(env, front, e, init, peer);
    }
  }

  ghost predicate CompletesAt(env: Env, events: seq<Event>, k: nat, init: Message, peer: Source) {
    k < |events| && IsGoodConfirm(env, events[k], init, peer) && HalfOpen(env, events[..k], init, peer)
  }

  ghost predicate Completes(env: Env, events: seq<Event>, init: Message, peer: Source) {
    exists k: nat :: CompletesAt(env, events, k, init, peer)
  }

  lemma CompletesStep(env: Env, front: seq<Event>, e: Event, init: Message, peer: Source)
    ensures Completes(env, front + [e], init, peer)
       <==> Completes(env, front, init, peer) || (HalfOpen(env, front, init, peer) && IsGoodConfirm(env, e, init, peer))
  {
    var events := front + [e];
    assert events[..|front|] == front;
    if Completes(env, front, init, peer) {
      var k: nat :| CompletesAt(env, front, k, init, peer);
      assert events[..k] == front[..k];
      assert CompletesAt(env, events, k, init, peer);
    }
    if HalfOpen(env, front, init, peer) && IsGoodConfirm(env, e, init, peer) { assert CompletesAt(env, events, |front|, init, peer); }
    if Completes(env, events, init, peer) {
      var k: nat :| CompletesAt(env, events, k, init, peer);
      if k < |front| {
        assert events[..k] == front[..k];
        assert CompletesAt(env, front, k, init, peer);
      }
    }
  }

  /** The responder returns a peer exactly when, while it listened, an Init with a good
      cookie came from that peer and was answered, then nothing but messages of others and
      no timeout, and then a good Confirm of that Init from the same peer. */
  lemma {:induction false} ReturnsIff(env: Env, events: seq<Event>, init: Message, peer: Source)
    ensures PhaseAfter(env, events) == Returned(init, peer) <==> Completes(env, events, init, peer)
  {
    if events != [] {
      var front, e := events[..|events| - 1], events[|events| - 1];
      assert events == front + [e];
      ReturnsIff(env, front, init, peer);
      HalfOpenIff(env, front, init, peer);
      CompletesStep(env, front, e, init, peer);
      PhaseStep(env, front, e, init, peer);
    }
  }

  /** While it listens: an Init without a good cookie is answered with the cookie of its own
      source and time and nothing else, and anything that is no Init not at all. */
  lemma ListeningAnswers(env: Env, e: Event)
    ensures var (after, action) := React(env, Listening, e);
            var isInit := e.Arrived? && Decoded(e.wire).Ok? && Decoded(e.wire).value.msgType == Init;
            && (action == RanRespond <==> isInit && Accepts(env.mac, env.secret, e.src, Decoded(e.wire).value.cookie, e.now))
            && (action.Challenged? <==> isInit && action != RanRespond)
            && (action.Challenged? ==> after == Listening && action.cookie == Issue(env.mac, env.secret, e.src, e.now))
            && (action == Nothing ==> after == Listening && !isInit)
            && action != RanConfirm
  {}

  // ── The initiator ──

  function ChallengeMessage(cookie: bytes, x25519: bytes, kem: bytes, mac: bytes): Message {
    Message(PROTO_VERSION, CookieChallenge, 0, x25519, kem, [], mac, cookie)
  }

  datatype Reaction = Resend(wire: bytes) | Ignored | GotResponse(wire: bytes)

  /** What the initiator makes of a message from its peer. */
  function InitiatorReacts(initWire: bytes, got: bytes, noise: nat -> byte): Result<Reaction> {
    if |got| == HANDSHAKE_MSG_LEN && got[1] == CookieChallenge.AsU8() then
      match Decoded(got)
      case Err(_) => Ok(Ignored)
      case Ok(challenge) =>
        var m :- Decoded(initWire);
        var wire :- Encoded(m.(cookie := challenge.cookie), noise);
        Ok(Resend(wire))
    else Ok(GotResponse(got))
  }

  /** What is no challenge by length and type byte is taken for the Response, whole. */
  lemma TakesResponseIff(initWire: bytes, got: bytes, w: bytes, noise: nat -> byte)
    ensures InitiatorReacts(initWire, got, noise) == Ok(GotResponse(w))
       <==> w == got && !(|got| == 8192 && got[1] == 4)
  {}

  /** One round of challenge and echo: the Init a listening responder challenged at t comes
      back accepted if it arrives within 120 seconds, and is the same handshake: same
      transcript, same everything but the cookie. */
  lemma EchoIsAnswered(env: Env, src: Source, init: Message, t: u64, now: u64,
                       challenge: Message, n0: nat -> byte, n1: nat -> byte, n2: nat -> byte)
    requires init.Sized() && init.version == PROTO_VERSION && init.msgType == Init && |init.sig| <= MAX_SIG_LEN
    requires challenge.Sized()
    requires challenge == ChallengeMessage(Issue(env.mac, env.secret, src, t), challenge.x25519, challenge.kem, challenge.mac)
    requires t <= now <= t + 120
    ensures Encoded(init, n0).Ok? && Encoded(challenge, n1).Ok?
    ensures var r := InitiatorReacts(Encoded(init, n0).value, Encoded(challenge, n1).value, n2);
            && r.Ok? && r.value.Resend?
            && var echoed := init.(cookie := challenge.cookie);
            && Decoded(r.value.wire) == Ok(echoed)
            && TranscriptBytes(echoed) == TranscriptBytes(init)
            && React(env, Listening, Arrived(src, now, r.value.wire)).1 == RanRespond
    ensures var first := React(env, Listening, Arrived(src, t, Encoded(init, n0).value));
            first.1 == RanRespond || first == (Listening, Challenged(challenge.cookie))
  {
    EncodeThenDecode(init, n0);
    EncodeThenDecode(challenge, n1);
    var got := Encoded(challenge, n1).value;
    assert got[1] == CookieChallenge.AsU8() by { BodyHead(challenge, got); }
    CookieLeavesTranscript(init, challenge.cookie, n0, n2);
    GoodFor120DeadAt240(env.mac, env.secret, src, t, now);
  }
}
