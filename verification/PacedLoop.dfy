/** The paced half of the outbound loop: a bounded queue of packets, the rekey fragments that
    ride along, and the slot that goes out at each tick. */
module PacedLoops {
  import opened Bytes
  import opened Results
  import opened Pacers
  import opened Aead
  import opened Obf

  const MAX_QUEUE: nat := 4096

  /** What a slot puts on the wire. */
  datatype Item =
    | Fragment(datagram: bytes)
    | Sealed(packet: bytes)
    | CoverPacket

  /** A packet from the tunnel device, and whether the queue had room for it. */
  datatype Arrival = Arrival(packet: bytes, kept: bool)

  /** A packet taken off the queue, and whether it could be sealed. */
  datatype Departure = Departure(packet: bytes, ok: bool)

  // ── Readings of the logs ──

  function Kept(arrivals: seq<Arrival>): seq<bytes> {
    if arrivals == [] then []
    else Kept(arrivals[..|arrivals| - 1]) + if arrivals[|arrivals| - 1].kept then [arrivals[|arrivals| - 1].packet] else []
  }

  function Dropped(arrivals: seq<Arrival>): nat {
    if arrivals == [] then 0
    else Dropped(arrivals[..|arrivals| - 1]) + if arrivals[|arrivals| - 1].kept then 0 else 1
  }

  function Gone(departures: seq<Departure>): seq<bytes> {
    seq(|departures|, i requires 0 <= i < |departures| => departures[i].packet)
  }

  function Sent(departures: seq<Departure>): seq<bytes> {
    if departures == [] then []
    else Sent(departures[..|departures| - 1])
         + if departures[|departures| - 1].ok then [departures[|departures| - 1].packet] else []
  }

  function Failed(departures: seq<Departure>): nat {
    if departures == [] then 0
    else Failed(departures[..|departures| - 1]) + if departures[|departures| - 1].ok then 0 else 1
  }

  function SealedIn(slot: seq<Item>): seq<bytes> {
    if slot == [] then []
    else SealedIn(slot[..|slot| - 1]) + if slot[|slot| - 1].Sealed? then [slot[|slot| - 1].packet] else []
  }

  function FragmentsIn(slot: seq<Item>): seq<bytes> {
    if slot == [] then []
    else FragmentsIn(slot[..|slot| - 1]) + if slot[|slot| - 1].Fragment? then [slot[|slot| - 1].datagram] else []
  }

  function CoversIn(slot: seq<Item>): nat {
    if slot == [] then 0 else CoversIn(slot[..|slot| - 1]) + if slot[|slot| - 1] == CoverPacket then 1 else 0
  }

  /** The first `room` packets of a batch are kept, the rest dropped. */
  function Marked(batch: seq<bytes>, room: int): seq<Arrival> {
    if batch == [] then []
    else Marked(batch[..|batch| - 1], room) + [Arrival(batch[|batch| - 1], |batch| <= room)]
  }

  lemma KeptOne(arrivals: seq<Arrival>, a: Arrival)
    ensures Kept(arrivals + [a]) == Kept(arrivals) + (if a.kept then [a.packet] else [])
    ensures Dropped(arrivals + [a]) == Dropped(arrivals) + (if a.kept then 0 else 1)
  {
    assert (arrivals + [a])[..|arrivals|] == arrivals;
  }

  lemma SentOne(departures: seq<Departure>, d: Departure)
    ensures Sent(departures + [d]) == Sent(departures) + (if d.ok then [d.packet] else [])
    ensures Failed(departures + [d]) == Failed(departures) + (if d.ok then 0 else 1)
    ensures Gone(departures + [d]) == Gone(departures) + [d.packet]
  {
    assert (departures + [d])[..|departures|] == departures;
  }

  lemma SlotOne(slot: seq<Item>, item: Item)
    ensures SealedIn(slot + [item]) == SealedIn(slot) + (if item.Sealed? then [item.packet] else [])
    ensures FragmentsIn(slot + [item]) == FragmentsIn(slot) + (if item.Fragment? then [item.datagram] else [])
    ensures CoversIn(slot + [item]) == CoversIn(slot) + (if item == CoverPacket then 1 else 0)
  {
    assert (slot + [item])[..|slot|] == slot;
  }

  /** Every datagram of a slot is a fragment, a packet or cover. */
  lemma {:induction false} SlotAdds(slot: seq<Item>)
    ensures |slot| == |FragmentsIn(slot)| + |SealedIn(slot)| + CoversIn(slot)
  {
    if slot != [] { SlotAdds(slot[..|slot| - 1]); }
  }

  // ── Conservation ──

  /** What the loop keeps in every reachable state. */
  ghost predicate Books(arrivals: seq<Arrival>, departures: seq<Departure>, pending: seq<bytes>) {
    && |pending| <= MAX_QUEUE
    && Kept(arrivals) == Gone(departures) + pending
  }

  lemma BooksAfterArrival(arrivals: seq<Arrival>, departures: seq<Departure>, pending: seq<bytes>, packet: bytes)
    requires Books(arrivals, departures, pending)
    ensures var room := |pending| < MAX_QUEUE;
            Books(arrivals + [Arrival(packet, room)], departures, pending + if room then [packet] else [])
  {
    KeptOne(arrivals, Arrival(packet, |pending| < MAX_QUEUE));
    Assoc(Gone(departures), pending, [packet]);
  }

  lemma BooksAfterDeparture(arrivals: seq<Arrival>, departures: seq<Departure>, pending: seq<bytes>, ok: bool)
    requires Books(arrivals, departures, pending) && pending != []
    ensures Books(arrivals, departures + [Departure(pending[0], ok)], pending[1..])
  {
    SentOne(departures, Departure(pending[0], ok));
    Assoc(Gone(departures), [pending[0]], pending[1..]);
    assert pending == [pending[0]] + pending[1..];
  }

  lemma {:induction false} KeptAndDropped(arrivals: seq<Arrival>)
    ensures |Kept(arrivals)| + Dropped(arrivals) == |arrivals|
  {
    if arrivals != [] { KeptAndDropped(arrivals[..|arrivals| - 1]); }
  }

  lemma {:induction false} SentAndFailed(departures: seq<Departure>)
    ensures |Sent(departures)| + Failed(departures) == |departures|
    ensures Failed(departures) == 0 ==> Sent(departures) == Gone(departures)
  {
    if departures != [] {
      var front := departures[..|departures| - 1];
      SentAndFailed(front);
      assert departures == front + [departures[|departures| - 1]];
      SentOne(front, departures[|departures| - 1]);
    }
  }

  /** Every arrived packet is sent, failed to seal, still queued, or was tail-dropped; and
      with no failure the packets sent are, in order, a prefix of those kept. */
  lemma NothingIsLost(arrivals: seq<Arrival>, departures: seq<Departure>, pending: seq<bytes>)
    requires Books(arrivals, departures, pending)
    ensures |arrivals| == |Sent(departures)| + Failed(departures) + |pending| + Dropped(arrivals)
    ensures Failed(departures) == 0 ==> Kept(arrivals) == Sent(departures) + pending
  {
    KeptAndDropped(arrivals);
    SentAndFailed(departures);
  }

  // ── One slot ──

  /** The queues while a slot is filled: what they held, were given, and gave up. */
  datatype Progress = Progress(slot: seq<Item>, gone: seq<Departure>, pending: seq<bytes>,
                               pushed: seq<bytes>, rekeys: seq<bytes>)

  /** A slot so far: its datagrams account for its rounds, packets left in arrival order,
      fragments in queue order, and nothing displaced a queued packet. */
  ghost predicate Fair(start: Progress, p: Progress, rounds: nat, sealing: bool) {
    && |p.slot| <= rounds && (sealing ==> |p.slot| == rounds)
    && SealedIn(p.slot) == Sent(p.gone)
    && start.pending == Gone(p.gone) + p.pending
    && start.rekeys + p.pushed == FragmentsIn(p.slot) + p.rekeys
    && (p.pending != [] ==> |FragmentsIn(p.slot)| + |p.gone| == rounds)
  }

  function WithItem(slot: seq<Item>, item: Option<Item>): seq<Item> {
    match item case None => slot case Some(i) => slot + [i]
  }

  /** What a round does: a fragment goes first, then a packet, then cover or silence. */
  predicate Turn(p: Progress, q: Progress, incoming: seq<bytes>, ok: bool, idle: bool, item: Option<Item>) {
    && q.slot == WithItem(p.slot, item)
    && q.pushed == p.pushed + incoming
    && var rekeys := p.rekeys + incoming;
       if rekeys != [] then
         !idle && item == Some(Fragment(rekeys[0])) && q == p.(slot := q.slot, pushed := q.pushed, rekeys := rekeys[1..])
       else if p.pending != [] then
         && !idle && item == (if ok then Some(Sealed(p.pending[0])) else None)
         && q == p.(slot := q.slot, pushed := q.pushed, gone := p.gone + [Departure(p.pending[0], ok)], pending := p.pending[1..])
       else
         && item == (if ok && !idle then Some(CoverPacket) else None)
         && q == p.(slot := q.slot, pushed := q.pushed)
  }

  /** Every cover packet of the slot was granted by the pacer, and it was told of every
      packet taken off the queue. */
  ghost predicate Paid(shape: Shape, h0: seq<Slot>, p: Progress, h1: seq<Slot>, q: Progress) {
    && Reals(h1) - Reals(h0) == |q.gone| - |p.gone|
    && Covers(shape, h1) - Covers(shape, h0) >= CoversIn(q.slot) - CoversIn(p.slot)
  }

  function AfterFragment(p: Progress, incoming: seq<bytes>): Progress
    requires p.rekeys + incoming != []
  {
    var rekeys := p.rekeys + incoming;
    p.(slot := p.slot + [Fragment(rekeys[0])], pushed := p.pushed + incoming, rekeys := rekeys[1..])
  }

  lemma FragmentTurn(p: Progress, incoming: seq<bytes>, ok: bool)
    requires p.rekeys + incoming != []
    ensures var q := AfterFragment(p, incoming);
            && Turn(p, q, incoming, ok, false, Some(Fragment((p.rekeys + incoming)[0])))
            && CoversIn(q.slot) == CoversIn(p.slot) && q.gone == p.gone
  {
    SlotOne(p.slot, Fragment((p.rekeys + incoming)[0]));
  }

  function AfterPacket(p: Progress, incoming: seq<bytes>, ok: bool): Progress
    requires p.pending != []
  {
    p.(slot := WithItem(p.slot, if ok then Some(Sealed(p.pending[0])) else None), pushed := p.pushed + incoming,
       gone := p.gone + [Departure(p.pending[0], ok)], pending := p.pending[1..])
  }

  lemma PacketTurn(p: Progress, incoming: seq<bytes>, ok: bool)
    requires p.rekeys + incoming == [] && p.pending != []
    ensures var q := AfterPacket(p, incoming, ok);
            && Turn(p, q, incoming, ok, false, if ok then Some(Sealed(p.pending[0])) else None)
            && CoversIn(q.slot) == CoversIn(p.slot) && |q.gone| == |p.gone| + 1
  {
    SlotOne(p.slot, Sealed(p.pending[0]));
  }

  function AfterCover(p: Progress, incoming: seq<bytes>, sent: bool): Progress {
    p.(slot := WithItem(p.slot, if sent then Some(CoverPacket) else None), pushed := p.pushed + incoming)
  }

  lemma CoverTurn(p: Progress, incoming: seq<bytes>, ok: bool, idle: bool)
    requires p.rekeys + incoming == [] && p.pending == []
    ensures var q := AfterCover(p, incoming, ok && !idle);
            && Turn(p, q, incoming, ok, idle, if ok && !idle then Some(CoverPacket) else None)
            && CoversIn(q.slot) <= CoversIn(p.slot) + (if idle then 0 else 1) && q.gone == p.gone
  {
    SlotOne(p.slot, CoverPacket);
  }

  /** A slot so far, fair and paid for. */
  ghost predicate Underway(shape: Shape, h0: seq<Slot>, start: Progress, h: seq<Slot>, p: Progress, rounds: nat, sealing: bool) {
    Fair(start, p, rounds, sealing) && Paid(shape, h0, start, h, p)
  }

  lemma NothingYet(shape: Shape, h: seq<Slot>, pending: seq<bytes>, rekeys: seq<bytes>, sealing: bool)
    ensures var start := Progress([], [], pending, [], rekeys); Underway(shape, h, start, h, start, 0, sealing)
  {}

  lemma SlotWithinRounds(shape: Shape, h0: seq<Slot>, start: Progress, h: seq<Slot>, p: Progress, rounds: nat, sealing: bool)
    requires Underway(shape, h0, start, h, p, rounds, sealing)
    ensures |p.slot| <= rounds
  {}

  /** All that was pushed to the fragment queue in the first n rounds. */
  function Given(incoming: seq<seq<bytes>>, n: nat): seq<bytes>
    requires n <= |incoming|
  {
    if n == 0 then [] else Given(incoming, n - 1) + incoming[n - 1]
  }

  lemma TurnIsFair(start: Progress, p: Progress, q: Progress, rounds: nat,
                   incoming: seq<bytes>, ok: bool, idle: bool, item: Option<Item>, sealing: bool)
    requires Fair(start, p, rounds, sealing) && Turn(p, q, incoming, ok, idle, item) && (sealing ==> ok)
    ensures Fair(start, q, if idle then rounds else rounds + 1, sealing)
  {
    var rekeys := p.rekeys + incoming;
    Assoc(start.rekeys, p.pushed, incoming);
    Assoc(FragmentsIn(p.slot), p.rekeys, incoming);
    if item != None { SlotOne(p.slot, item.value); }
    if rekeys != [] {
      Assoc(FragmentsIn(p.slot), [rekeys[0]], rekeys[1..]);
      assert rekeys == [rekeys[0]] + rekeys[1..];
    } else if p.pending != [] {
      SentOne(p.gone, Departure(p.pending[0], ok));
      Assoc(Gone(p.gone), [p.pending[0]], p.pending[1..]);
      assert p.pending == [p.pending[0]] + p.pending[1..];
    }
  }

  lemma NextStaged(start: seq<bytes>, before: seq<Arrival>, batch: seq<bytes>, i: nat, room: nat)
    requires i < |batch| && room == MAX_QUEUE - |start|
    ensures var pending := start + batch[..if i < room then i else room];
            && (|pending| < MAX_QUEUE <==> i < room)
            && pending + (if i < room then [batch[i]] else []) == start + batch[..if i + 1 < room then i + 1 else room]
    ensures (before + Marked(batch[..i], room)) + [Arrival(batch[i], i < room)] == before + Marked(batch[..i + 1], room)
  {
    assert batch[..i + 1][..i] == batch[..i];
    if i < room { assert batch[..i + 1] == batch[..i] + [batch[i]]; }
  }

  // ── Size ──

  /** The length of a slot's datagram: everything but a rekey fragment is padded in full. */
  function ItemLen(item: Item, algo: AeadAlgo): nat {
    match item
    case Fragment(datagram) => |datagram|
    case Sealed(packet) => WireLen(|packet|, algo, Full)
    case CoverPacket => WireLen(0, algo, Full)
  }

  /** Real and cover datagrams cannot be told apart by size: all of them fill the MTU,
      exactly when no packet is larger than the tunnel's own safe MTU allows. */
  lemma SlotIsUniform(slot: seq<Item>, algo: AeadAlgo)
    ensures (forall i | 0 <= i < |slot| && !slot[i].Fragment? :: ItemLen(slot[i], algo) == MTU_WIRE)
       <==> (forall i | 0 <= i < |slot| && slot[i].Sealed? ::
               |slot[i].packet| + INNER_HEADER_LEN + HP_HEADER_LEN + algo.TagLen() <= MTU_WIRE)
  {
    WireLenBound(0, algo, Full);
    forall i | 0 <= i < |slot| && slot[i].Sealed?
      ensures ItemLen(slot[i], algo) == MTU_WIRE
         <==> |slot[i].packet| + INNER_HEADER_LEN + HP_HEADER_LEN + algo.TagLen() <= MTU_WIRE
    {
      WireLenBound(|slot[i].packet|, algo, Full);
    }
  }

  // ── The loop ──

  class PacedLoop {
    var pacer: Pacer
    var burst: nat
    var pending: seq<bytes>
    var rekeys: seq<bytes>
    ghost var arrivals: seq<Arrival>
    ghost var departures: seq<Departure>

    ghost predicate Valid() reads this, pacer {
      pacer.Valid() && Books(arrivals, departures, pending)
    }

    constructor (shape: Shape, burst: nat)
      ensures Valid() && pacer.shape == shape && this.burst == burst
      ensures pending == [] && rekeys == [] && arrivals == [] && departures == []
    {
      pacer := new Pacer(shape.mode, shape.cooldown, shape.budget);
      this.burst := burst;
      pending, rekeys, arrivals, departures := [], [], [], [];
    }

    /** One packet from the tunnel device: queued, or dropped when the queue is full. */
    method Admit(packet: bytes)
      requires Valid()
      modifies this`pending, this`arrivals
      ensures Valid()
      ensures pending == old(pending) + (if |old(pending)| < MAX_QUEUE then [packet] else [])
      ensures arrivals == old(arrivals) + [Arrival(packet, |old(pending)| < MAX_QUEUE)]
    {
      BooksAfterArrival(arrivals, departures, pending, packet);
      arrivals := arrivals + [Arrival(packet, |pending| < MAX_QUEUE)];
      if |pending| < MAX_QUEUE {
        pending := pending + [packet];
      }
    }

    /** Stages a batch from the tunnel device: the queue takes what it has room for and
        the tail is dropped. */
    method Stage(batch: seq<bytes>)
      requires Valid()
      modifies this`pending, this`arrivals
      ensures Valid()
      ensures var room := MAX_QUEUE - |old(pending)|;
              && pending == old(pending) + batch[..if |batch| < room then |batch| else room]
              && arrivals == old(arrivals) + Marked(batch, room)
    {
      ghost var room := MAX_QUEUE - |pending|;
      for i := 0 to |batch|
        invariant Valid()
        invariant pending == old(pending) + batch[..if i < room then i else room]
        invariant arrivals == old(arrivals) + Marked(batch[..i], room)
      {
        NextStaged(old(pending), old(arrivals), batch, i, room);
        Admit(batch[i]);
      }
      assert batch[..|batch|] == batch;
    }

    /** The loop's queues are as `p` tells, `base` having left before this slot. */
    ghost predicate At(p: Progress, base: seq<Departure>) reads this {
      pending == p.pending && rekeys == p.rekeys && departures == base + p.gone
    }

    /** The next packet leaves the queue, sealed or lost. */
    method PopPacket(ok: bool) returns (packet: bytes)
      requires Valid() && pending != []
      modifies this`pending, this`departures
      ensures Valid() && packet == old(pending)[0] && pending == old(pending)[1..]
      ensures departures == old(departures) + [Departure(packet, ok)]
    {
      packet := pending[0];
      BooksAfterDeparture(arrivals, departures, pending, ok);
      departures, pending := departures + [Departure(packet, ok)], pending[1..];
    }

    /** A queued fragment takes the round. */
    method SendFragment(ok: bool, incoming: seq<bytes>, ghost p: Progress, ghost base: seq<Departure>)
      returns (item: Item, ghost q: Progress)
      requires Valid() && At(p, base) && rekeys + incoming != []
      modifies this`rekeys
      ensures Valid() && At(q, base) && Turn(p, q, incoming, ok, false, Some(item))
      ensures CoversIn(q.slot) == CoversIn(p.slot) && q.gone == p.gone
    {
      FragmentTurn(p, incoming, ok);
      q := AfterFragment(p, incoming);
      rekeys := rekeys + incoming;
      item, rekeys := Fragment(rekeys[0]), rekeys[1..];
    }

    /** With no fragment queued the pacer decides. */
    method AskPacer(ok: bool, now: int, incoming: seq<bytes>, ghost p: Progress, ghost base: seq<Departure>)
      returns (item: Option<Item>, idle: bool, ghost q: Progress)
      requires Valid() && At(p, base) && rekeys + incoming == []
      modifies this`pending, this`departures, pacer
      ensures Valid() && At(q, base) && Turn(p, q, incoming, ok, idle, item)
      ensures pacer.shape == old(pacer.shape) && Paid(pacer.shape, old(pacer.history), p, pacer.history, q)
      ensures idle ==> pacer.shape.mode == Adaptive && !Owed(pacer.shape, old(pacer.history), now)
    {
      var emit := pacer.NextEmit(pending != [], now);
      match emit {
        case Real =>
          PacketTurn(p, incoming, ok);
          q := AfterPacket(p, incoming, ok);
          var packet := PopPacket(ok);
          item, idle := if ok then Some(Sealed(packet)) else None, false;
        case Cover =>
          CoverTurn(p, incoming, ok, false);
          q := AfterCover(p, incoming, ok);
          item, idle := if ok then Some(CoverPacket) else None, false;
        case Idle =>
          CoverTurn(p, incoming, ok, true);
          q := AfterCover(p, incoming, false);
          item, idle := None, true;
      }
    }

    /** One round of a slot, after other senders pushed `incoming` to the fragment queue. */
    method Round(ok: bool, now: int, incoming: seq<bytes>, ghost p: Progress, ghost base: seq<Departure>)
      returns (item: Option<Item>, idle: bool, ghost q: Progress)
      requires Valid() && At(p, base)
      modifies this, pacer
      ensures Valid() && At(q, base)
      ensures pacer == old(pacer) && burst == old(burst) && arrivals == old(arrivals)
      ensures Turn(p, q, incoming, ok, idle, item)
      ensures Paid(pacer.shape, old(pacer.history), p, pacer.history, q)
      ensures idle ==> pacer.shape.mode == Adaptive && !Owed(pacer.shape, old(pacer.history), now)
    {
      if rekeys + incoming != [] {
        var fragment;
        fragment, q := SendFragment(ok, incoming, p, base);
        item, idle := Some(fragment), false;
      } else {
        item, idle, q := AskPacer(ok, now, incoming, p, base);
      }
    }

    /** Round k of a slot that began at `start`. */
    method FairRound(seals: seq<bool>, clock: seq<int>, incoming: seq<seq<bytes>>, k: nat, slot: seq<Item>,
                     ghost start: Progress, ghost h0: seq<Slot>, ghost p: Progress, ghost base: seq<Departure>)
      returns (filled: seq<Item>, idle: bool, ghost q: Progress)
      requires k < |seals| == |clock| == |incoming| && slot == p.slot && p.pushed == Given(incoming, k)
      requires Valid() && At(p, base) && Underway(pacer.shape, h0, start, pacer.history, p, k, false !in seals)
      modifies this, pacer
      ensures Valid() && At(q, base) && filled == q.slot && q.pushed == Given(incoming, k + 1)
      ensures pacer == old(pacer) && burst == old(burst) && arrivals == old(arrivals)
      ensures Underway(pacer.shape, h0, start, pacer.history, q, if idle then k else k + 1, false !in seals)
      ensures idle ==> pacer.shape.mode == Adaptive && pending == [] && rekeys == []
    {
      var item;
      item, idle, q := Round(seals[k], clock[k], incoming[k], p, base);
      TurnIsFair(start, p, q, k, incoming[k], seals[k], idle, item, false !in seals);
      filled := WithItem(slot, item);
    }

    /** One tick: `seals[k]`, `clock[k]` and `incoming[k]` are what the engine, the clock and
        the other senders of fragments do in round k. */
    method Tick(seals: seq<bool>, clock: seq<int>, incoming: seq<seq<bytes>>)
      returns (slot: seq<Item>, rounds: nat, ghost end: Progress)
      requires Valid() && |seals| == |clock| == |incoming| == burst
      modifies this, pacer
      ensures Valid() && At(end, old(departures)) && end.slot == slot
      ensures pacer == old(pacer) && burst == old(burst) && arrivals == old(arrivals)
      // at most `burst` datagrams, and at a constant rate with seals succeeding exactly that many
      ensures |slot| <= rounds <= burst
      ensures pacer.shape.mode == Cbr ==> rounds == burst
      // packets leave in arrival order, fragments in queue order, neither cover nor silence
      // displaces a queued packet, and cover stays within the pacer's budget
      ensures Underway(pacer.shape, old(pacer.history), Progress([], [], old(pending), [], old(rekeys)),
                       pacer.history, end, rounds, false !in seals)
      ensures end.pushed == Given(incoming, if rounds == burst then rounds else rounds + 1)
      ensures rounds < burst ==> pending == [] && rekeys == []
    {
      slot, rounds, end := [], 0, Progress([], [], pending, [], rekeys);
      ghost var start := end;
      NothingYet(pacer.shape, pacer.history, pending, rekeys, false !in seals);
      var idle := false;
      while rounds < burst && !idle
        invariant Valid() && At(end, old(departures)) && end.slot == slot
        invariant pacer == old(pacer) && burst == old(burst) && arrivals == old(arrivals)
        invariant rounds <= burst && Underway(pacer.shape, old(pacer.history), start, pacer.history, end, rounds, false !in seals)
        invariant idle ==> rounds < burst && pacer.shape.mode == Adaptive && pending == [] && rekeys == []
        invariant end.pushed == Given(incoming, if idle then rounds + 1 else rounds)
        decreases burst - rounds, !idle
      {
        slot, idle, end := FairRound(seals, clock, incoming, rounds, slot, start, old(pacer.history), end, old(departures));
        if !idle {
          rounds := rounds + 1;
        }
      }
      SlotWithinRounds(pacer.shape, old(pacer.history), start, pacer.history, end, rounds, false !in seals);
    }

    /** Pacing goes off: what is queued is handed over whole, sealed or lost as one batch. */
    method Flush(ok: bool) returns (batch: seq<bytes>)
      requires Valid()
      modifies this
      ensures Valid() && pacer == old(pacer) && burst == old(burst)
      ensures rekeys == old(rekeys) && arrivals == old(arrivals)
      ensures pending == [] && batch == old(pending)
      ensures departures == old(departures) + seq(|batch|, i requires 0 <= i < |batch| => Departure(batch[i], ok))
    {
      batch := pending;
      departures := departures + seq(|batch|, i requires 0 <= i < |batch| => Departure(batch[i], ok));
      pending := [];
    }

    /** A live profile switch: a fresh pacer and burst, and the queue as it was. */
    method Reshape(shape: Shape, burst: nat)
      requires Valid()
      modifies this
      ensures Valid() && fresh(pacer) && pacer.shape == shape && pacer.history == []
      ensures this.burst == if burst == 0 then 1 else burst
      ensures pending == old(pending) && rekeys == old(rekeys)
      ensures arrivals == old(arrivals) && departures == old(departures)
    {
      this.burst := if burst == 0 then 1 else burst;
      pacer := new Pacer(shape.mode, shape.cooldown, shape.budget);
    }
  }
}
