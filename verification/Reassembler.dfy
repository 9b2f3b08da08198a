/** Reassembly of fragmented handshake messages, with a cap on unfinished messages. */
module Reassembly {
  import opened Words
  import opened Bytes
  import opened Results

  const MAX_PENDING_MSGS := 64
  const MAX_FRAGMENTS := 64
  const FRAG_PAYLOAD := 1024
  const FRAG_HEADER_LEN := 8

  datatype PartialMsg = PartialMsg(total: u16, chunks: map<u16, bytes>, firstSeen: int)

  type Table = map<u32, PartialMsg>

  const REFUSED: Error := HandshakeError("reassemble")
  const MISSING: Error := HandshakeError("missing fragment")

  // ── One push, as a function of the table ──

  /** The chunks 0 .. n in order, or nothing if one is missing. */
  function Joined(chunks: map<u16, bytes>, n: u16): Option<bytes> {
    if n == 0 then Some([])
    else
      match Joined(chunks, n - 1)
      case None => None
      case Some(front) => if n - 1 in chunks then Some(front + chunks[n - 1]) else None
  }

  predicate BadHeader(index: u16, total: u16, payload: bytes) {
    total == 0 || total > MAX_FRAGMENTS || index >= total || |payload| > FRAG_PAYLOAD
  }

  function Entry(table: Table, msgId: u32, total: u16, now: int): PartialMsg {
    if msgId in table then table[msgId] else PartialMsg(total, map[], now)
  }

  function Filled(entry: PartialMsg, index: u16, payload: bytes): PartialMsg {
    entry.(chunks := entry.chunks[index := payload])
  }

  function Pushed(table: Table, msgId: u32, index: u16, total: u16, payload: bytes, now: int): (Table, Result<Option<bytes>>) {
    if BadHeader(index, total, payload) then (table, Err(REFUSED))
    else if msgId !in table && |table| >= MAX_PENDING_MSGS then (table, Ok(None))
    else
      var entry := Entry(table, msgId, total, now);
      if entry.total != total then (table, Err(REFUSED))
      else
        var filled := Filled(entry, index, payload);
        if |filled.chunks| != total then (table[msgId := filled], Ok(None))
        else
          match Joined(filled.chunks, total)
          case None => (table[msgId := filled], Err(MISSING))
          case Some(message) => (table - {msgId}, Ok(Some(message)))
  }

  function Pruned(table: Table, now: int, maxAge: int): Table {
    map id | id in table && now - table[id].firstSeen < maxAge :: table[id]
  }

  // ── What every reachable table looks like ──

  predicate PartialOk(m: PartialMsg) {
    && 0 < |m.chunks| < m.total <= MAX_FRAGMENTS
    && (forall i | i in m.chunks :: i < m.total && |m.chunks[i]| <= FRAG_PAYLOAD)
  }

  predicate TableOk(table: Table) {
    && |table| <= MAX_PENDING_MSGS
    && (forall id | id in table :: PartialOk(table[id]))
  }

  /** n distinct indices below n are all of them. */
  lemma {:induction false} FullOfIndices(keys: set<u16>, n: nat)
    requires forall i | i in keys :: i < n
    ensures |keys| <= n
    ensures |keys| == n ==> forall i: u16 | i < n :: i in keys
  {
    if n > 0 {
      var rest := keys - {n - 1};
      FullOfIndices(rest, n - 1);
      if n - 1 in keys { assert |rest| == |keys| - 1; } else { assert rest == keys; }
    }
  }

  lemma {:induction false} JoinedIfAll(chunks: map<u16, bytes>, n: u16)
    requires forall i: u16 | i < n :: i in chunks
    ensures Joined(chunks, n).Some?
  {
    if n > 0 { JoinedIfAll(chunks, n - 1); }
  }

  /** Every push keeps the bounds, and the "missing fragment" error cannot happen:
      a push is refused only for a bad header, size or total, and then changes nothing. */
  lemma PushKeepsBounds(table: Table, msgId: u32, index: u16, total: u16, payload: bytes, now: int)
    requires TableOk(table)
    ensures var (after, r) := Pushed(table, msgId, index, total, payload, now);
            && TableOk(after)
            && (r.Err? <==> BadHeader(index, total, payload) || (msgId in table && table[msgId].total != total))
            && (r.Err? ==> after == table && r.error == REFUSED)
  {
    if !BadHeader(index, total, payload) && (msgId in table || |table| < MAX_PENDING_MSGS) {
      var entry := Entry(table, msgId, total, now);
      if entry.total == total {
        FillKeepsBounds(entry, index, payload);
        TableSize(table, msgId, Filled(entry, index, payload));
      }
    }
  }

  /** A slot of the table that takes one more chunk is still unfinished, or all there. */
  lemma FillKeepsBounds(entry: PartialMsg, index: u16, payload: bytes)
    requires entry.chunks == map[] || PartialOk(entry)
    requires index < entry.total <= MAX_FRAGMENTS && |payload| <= FRAG_PAYLOAD
    ensures var filled := Filled(entry, index, payload);
            if |filled.chunks| == entry.total then Joined(filled.chunks, entry.total).Some? else PartialOk(filled)
  {
    var filled := Filled(entry, index, payload);
    assert filled.chunks.Keys == entry.chunks.Keys + {index};
    assert index in filled.chunks;
    FullOfIndices(filled.chunks.Keys, entry.total);
    if |filled.chunks| == entry.total { JoinedIfAll(filled.chunks, entry.total); }
  }

  lemma TableSize(table: Table, msgId: u32, entry: PartialMsg)
    ensures |table[msgId := entry]| == if msgId in table then |table| else |table| + 1
    ensures |table - {msgId}| <= |table|
  {
    assert table[msgId := entry].Keys == table.Keys + {msgId};
    SubsetSize((table - {msgId}).Keys, table.Keys);
  }

  lemma SubsetSize<T>(a: set<T>, b: set<T>)
    requires a <= b
    ensures |a| <= |b|
  {
    assert b == a + (b - a);
  }

  lemma PruneKeepsBounds(table: Table, now: int, maxAge: int)
    requires TableOk(table)
    ensures TableOk(Pruned(table, now, maxAge))
  {
    SubsetSize(Pruned(table, now, maxAge).Keys, table.Keys);
  }

  // ── The object ──

  class Reassembler {
    var partials: Table

    predicate Valid()
      reads this
    {
      TableOk(partials)
    }

    constructor ()
      ensures Valid() && partials == map[]
    {
      partials := map[];
    }

    method PushParts(msgId: u32, index: u16, total: u16, payload: bytes, now: int) returns (r: Result<Option<bytes>>)
      requires Valid()
      modifies this
      ensures Valid() && (partials, r) == Pushed(old(partials), msgId, index, total, payload, now)
    {
      StepKeepsBounds(partials, Fragment(msgId, index, total, payload, now));
      r := Insert(msgId, index, total, payload, now);
    }

    method Insert(msgId: u32, index: u16, total: u16, payload: bytes, now: int) returns (r: Result<Option<bytes>>)
      modifies this
      ensures (partials, r) == Pushed(old(partials), msgId, index, total, payload, now)
    {
      ghost var before := partials;
      if total == 0 || total > MAX_FRAGMENTS || index >= total {
        return Err(REFUSED);
      }
      if |payload| > FRAG_PAYLOAD {
        return Err(REFUSED);
      }
      if msgId !in partials && |partials| >= MAX_PENDING_MSGS {
        return Ok(None);
      }
      var entry := if msgId in partials then partials[msgId] else PartialMsg(total, map[], now);
      if entry.total != total {
        return Err(REFUSED);
      }
      var chunks := entry.chunks[index := payload];
      partials := partials[msgId := entry.(chunks := chunks)];
      if |chunks| == total {
        var out := Join(chunks, total);
        if out.None? {
          return Err(MISSING);
        }
        partials := partials - {msgId};
        assert partials == before - {msgId};
        return Ok(out);
      }
      return Ok(None);
    }

    static method Join(chunks: map<u16, bytes>, total: u16) returns (r: Option<bytes>)
      ensures r == Joined(chunks, total)
    {
      var out: bytes := [];
      for i := 0 to total
        invariant Joined(chunks, i) == Some(out)
      {
        if i !in chunks {
          NothingAfterMissing(chunks, i + 1, total);
          return None;
        }
        out := out + chunks[i];
      }
      return Some(out);
    }

    method PruneOld(now: int, maxAge: int)
      requires Valid()
      modifies this
      ensures Valid() && partials == Pruned(old(partials), now, maxAge)
    {
      PruneKeepsBounds(partials, now, maxAge);
      partials := map id | id in partials && now - partials[id].firstSeen < maxAge :: partials[id];
    }

    /** The cleartext path: eight header bytes, then the chunk. */
    method Push(raw: bytes, now: int) returns (r: Result<Option<bytes>>)
      requires Valid()
      modifies this
      ensures Valid() && (partials, r) == PushedRaw(old(partials), raw, now)
    {
      if |raw| < FRAG_HEADER_LEN {
        return Err(PacketTooShort(|raw|, FRAG_HEADER_LEN));
      }
      r := PushParts(ReadU32(raw[0..4]), ReadU16(raw[4..6]), ReadU16(raw[6..8]), raw[FRAG_HEADER_LEN..], now);
    }
  }

  lemma {:induction false} NothingAfterMissing(chunks: map<u16, bytes>, m: u16, n: u16)
    requires m <= n && Joined(chunks, m) == None
    ensures Joined(chunks, n) == None
  {
    if m < n { NothingAfterMissing(chunks, m, n - 1); }
  }

  function ClearEvent(raw: bytes, now: int): Event
    requires |raw| >= FRAG_HEADER_LEN
  {
    Fragment(ReadU32(raw[0..4]), ReadU16(raw[4..6]), ReadU16(raw[6..8]), raw[FRAG_HEADER_LEN..], now)
  }

  function PushedRaw(table: Table, raw: bytes, now: int): (Table, Result<Option<bytes>>) {
    if |raw| < FRAG_HEADER_LEN then (table, Err(PacketTooShort(|raw|, FRAG_HEADER_LEN)))
    else Step(table, ClearEvent(raw, now))
  }

  // ── Runs: one message among others ──

  datatype Event =
    | Fragment(msgId: u32, index: u16, total: u16, payload: bytes, now: int)
    | Prune(at: int, maxAge: int)

  function Step(table: Table, e: Event): (Table, Result<Option<bytes>>) {
    match e
    case Fragment(msgId, index, total, payload, now) => Pushed(table, msgId, index, total, payload, now)
    case Prune(at, maxAge) => (Pruned(table, at, maxAge), Ok(None))
  }

  /** The message: its id and its chunks, in order. */
  datatype Split = Split(id: u32, chunks: seq<bytes>) {
    predicate Valid() {
      0 < |chunks| <= MAX_FRAGMENTS && forall i | 0 <= i < |chunks| :: |chunks[i]| <= FRAG_PAYLOAD
    }

    predicate Owns(e: Event) {
      e.Fragment? && e.msgId == id && e.total == |chunks| && e.index < |chunks| && e.payload == chunks[e.index]
    }
  }

  /** What is required of a run: fragments with the message's id are its own, the table has
      room when its first one arrives, and no prune removes it while it is unfinished.
      `got` are the indices of the message received since it was last complete. */
  predicate Fair(m: Split, table: Table, got: set<u16>, events: seq<Event>)
    decreases |events|
  {
    events == [] ||
    var e := events[0];
    var after := Step(table, e).0;
    && (e.Fragment? && e.msgId == m.id ==> m.Owns(e) && (got == {} ==> |table| < MAX_PENDING_MSGS))
    && (e.Prune? && got != {} ==> m.id in after)
    && Fair(m, after, Got(m, got, e), events[1..])
  }

  function Got(m: Split, got: set<u16>, e: Event): set<u16> {
    if !m.Owns(e) then got
    else if |got + {e.index}| == |m.chunks| then {}
    else got + {e.index}
  }

  function Outputs(table: Table, events: seq<Event>): seq<Result<Option<bytes>>>
    decreases |events|
  {
    if events == [] then [] else [Step(table, events[0]).1] + Outputs(Step(table, events[0]).0, events[1..])
  }

  function TableAfter(table: Table, events: seq<Event>): Table
    decreases |events|
  {
    if events == [] then table else TableAfter(Step(table, events[0]).0, events[1..])
  }

  lemma StepKeepsBounds(table: Table, e: Event)
    requires TableOk(table)
    ensures TableOk(Step(table, e).0)
    ensures Step(table, e).1.Err? ==> Step(table, e).1.error == REFUSED
  {
    match e
    case Fragment(msgId, index, total, payload, now) => PushKeepsBounds(table, msgId, index, total, payload, now);
    case Prune(at, maxAge) => PruneKeepsBounds(table, at, maxAge);
  }

  lemma {:induction false} RunKeepsBounds(table: Table, events: seq<Event>)
    requires TableOk(table)
    ensures TableOk(TableAfter(table, events)) && |Outputs(table, events)| == |events|
    ensures forall i | 0 <= i < |events| && Outputs(table, events)[i].Err? :: Outputs(table, events)[i].error == REFUSED
    decreases |events|
  {
    if events != [] {
      StepKeepsBounds(table, events[0]);
      RunKeepsBounds(Step(table, events[0]).0, events[1..]);
    }
  }

  /** In every reachable state there are at most 64 unfinished messages, each within its
      bounds, and whatever fragments and prunes came, none reported a missing fragment. */
  lemma ReachableTables(events: seq<Event>)
    ensures TableOk(TableAfter(map[], events)) && |Outputs(map[], events)| == |events|
    ensures forall i | 0 <= i < |events| :: Outputs(map[], events)[i] != Err(MISSING)
  {
    RunKeepsBounds(map[], events);
  }

  /** What the run should report for the message's own fragments: nothing until the last
      missing index arrives, then the whole message. */
  function Expected(m: Split, got: set<u16>, e: Event): Option<bytes>
    requires m.Owns(e)
  {
    if |got + {e.index}| == |m.chunks| then Some(Concat(m.chunks)) else None
  }

  predicate AsExpected(m: Split, got: set<u16>, events: seq<Event>, outputs: seq<Result<Option<bytes>>>)
    requires |events| == |outputs|
    decreases |events|
  {
    events == [] ||
    ((m.Owns(events[0]) ==> outputs[0] == Ok(Expected(m, got, events[0])))
     && AsExpected(m, Got(m, got, events[0]), events[1..], outputs[1..]))
  }

  /** The table holds of the message exactly what has been received. */
  predicate Tracks(m: Split, table: Table, got: set<u16>) {
    && (forall i | i in got :: i < |m.chunks|)
    && (got == {} ==> m.id !in table)
    && (got != {} ==>
          && m.id in table && table[m.id].total == |m.chunks| && |got| < |m.chunks|
          && table[m.id].chunks == map i | i in got :: m.chunks[i])
  }

  lemma {:induction false} JoinedIsConcat(m: Split, chunks: map<u16, bytes>, n: u16)
    requires m.Valid() && n <= |m.chunks|
    requires forall i: u16 | i < n :: i in chunks && chunks[i] == m.chunks[i]
    ensures Joined(chunks, n) == Some(Concat(m.chunks[..n]))
  {
    if n > 0 {
      JoinedIsConcat(m, chunks, n - 1);
      assert m.chunks[..n] == m.chunks[..n - 1] + [m.chunks[n - 1]];
      ConcatOne(m.chunks[..n - 1], m.chunks[n - 1]);
    }
  }

  /** One own fragment: tracked, or completing the message and leaving no trace. */
  lemma OwnFragment(m: Split, table: Table, got: set<u16>, e: Event)
    requires m.Valid() && Tracks(m, table, got) && m.Owns(e)
    requires got == {} ==> |table| < MAX_PENDING_MSGS
    ensures Step(table, e).1 == Ok(Expected(m, got, e))
    ensures Tracks(m, Step(table, e).0, Got(m, got, e))
  {
    var entry := Entry(table, m.id, e.total, e.now);
    var filled, now := Filled(entry, e.index, e.payload), got + {e.index};
    assert entry.chunks == map i | i in got :: m.chunks[i];
    ChunksOfMore(m, got, e.index);
    FullOfIndices(now, |m.chunks|);
    if |now| == |m.chunks| {
      JoinedIsConcat(m, filled.chunks, e.total);
      assert m.chunks[..e.total] == m.chunks;
    }
  }

  lemma ChunksOfMore(m: Split, got: set<u16>, index: u16)
    requires index < |m.chunks| && forall i | i in got :: i < |m.chunks|
    ensures var chunks := (map i | i in got :: m.chunks[i])[index := m.chunks[index]];
            && chunks == (map i | i in got + {index} :: m.chunks[i])
            && |chunks| == |got + {index}|
  {
    var chunks := (map i | i in got :: m.chunks[i])[index := m.chunks[index]];
    assert chunks.Keys == got + {index};
  }

  lemma ForeignEvent(m: Split, table: Table, got: set<u16>, e: Event)
    requires Tracks(m, table, got) && Fair(m, table, got, [e]) && !m.Owns(e)
    ensures Tracks(m, Step(table, e).0, got)
  {}

  lemma FairStep(m: Split, table: Table, got: set<u16>, e: Event)
    requires m.Valid() && Tracks(m, table, got) && Fair(m, table, got, [e])
    ensures Tracks(m, Step(table, e).0, Got(m, got, e))
    ensures m.Owns(e) ==> Step(table, e).1 == Ok(Expected(m, got, e))
  {
    if m.Owns(e) { OwnFragment(m, table, got, e); } else { ForeignEvent(m, table, got, e); }
  }

  /** Any arrival order, any duplicates, any traffic of other messages between: whenever
      the last missing fragment arrives the message comes out whole, and never before. */
  lemma {:induction false} ReassemblesInAnyOrder(m: Split, table: Table, got: set<u16>, events: seq<Event>)
    requires m.Valid() && Tracks(m, table, got) && Fair(m, table, got, events)
    ensures |Outputs(table, events)| == |events|
    ensures AsExpected(m, got, events, Outputs(table, events))
    decreases |events|
  {
    if events != [] {
      var e := events[0];
      FairStep(m, table, got, e);
      ReassemblesInAnyOrder(m, Step(table, e).0, Got(m, got, e), events[1..]);
    }
  }

  /** A copy of a fragment that arrives after the message was completed starts it anew. */
  lemma ReplayedFragmentReopens(m: Split, table: Table, e: Event)
    requires m.Valid() && |m.chunks| > 1 && m.id !in table && |table| < MAX_PENDING_MSGS && m.Owns(e)
    ensures Step(table, e) == (table[m.id := PartialMsg(e.total, map[e.index := e.payload], e.now)], Ok(None))
  {
    assert |map[e.index := e.payload]| == 1;
  }

  // ── Age ──

  /** When the unfinished message of this id was opened: by its first fragment since it was
      last absent. */
  function OpenedAt(events: seq<Event>, id: u32): Option<int> {
    if events == [] then None
    else
      var front, e := events[..|events| - 1], events[|events| - 1];
      if id !in TableAfter(map[], events) then None
      else if id in TableAfter(map[], front) then OpenedAt(front, id)
      else match e case Fragment(_, _, _, _, now) => Some(now) case Prune(_, _) => None
  }

  lemma {:induction false} TableAfterOne(table: Table, events: seq<Event>, e: Event)
    ensures TableAfter(table, events + [e]) == Step(TableAfter(table, events), e).0
    decreases |events|
  {
    if events == [] {
      assert [] + [e] == [e] && [e][1..] == [];
    } else {
      assert (events + [e])[0] == events[0] && (events + [e])[1..] == events[1..] + [e];
      TableAfterOne(Step(table, events[0]).0, events[1..], e);
    }
  }

  /** A step leaves the opening time of what stays, and stamps what it opens with its own. */
  lemma StepKeepsAge(table: Table, e: Event, id: u32)
    requires id in Step(table, e).0
    ensures id in table ==> Step(table, e).0[id].firstSeen == table[id].firstSeen
    ensures id !in table ==> e.Fragment? && Step(table, e).0[id].firstSeen == e.now
  {}

  lemma {:induction false} AgeIsOpening(events: seq<Event>, id: u32)
    requires id in TableAfter(map[], events)
    ensures OpenedAt(events, id) == Some(TableAfter(map[], events)[id].firstSeen)
  {
    if events != [] {
      var front, e := events[..|events| - 1], events[|events| - 1];
      assert events == front + [e];
      TableAfterOne(map[], front, e);
      StepKeepsAge(TableAfter(map[], front), e, id);
      if id in TableAfter(map[], front) { AgeIsOpening(front, id); }
    }
  }

  /** After any events, a prune keeps a message exactly when its first fragment is younger
      than the age; later fragments do not keep it alive. What it keeps it leaves as it was. */
  lemma PruneKeepsIffYoung(events: seq<Event>, at: int, maxAge: int, id: u32)
    ensures var table, after := TableAfter(map[], events), TableAfter(map[], events + [Prune(at, maxAge)]);
            && (id in after <==> id in table && OpenedAt(events, id).Some? && at - OpenedAt(events, id).value < maxAge)
            && (id in after ==> after[id] == table[id])
  {
    TableAfterOne(map[], events, Prune(at, maxAge));
    if id in TableAfter(map[], events) { AgeIsOpening(events, id); }
  }

  /** A fragment of one message leaves every other as it was, and a new message that finds
      the table full is ignored. */
  lemma PushLeavesOthers(table: Table, msgId: u32, index: u16, total: u16, payload: bytes, now: int, other: u32)
    requires other != msgId
    ensures var after := Pushed(table, msgId, index, total, payload, now).0;
            (other in after <==> other in table) && (other in table ==> after[other] == table[other])
    ensures msgId !in table && |table| >= MAX_PENDING_MSGS && !BadHeader(index, total, payload) ==>
              Pushed(table, msgId, index, total, payload, now) == (table, Ok(None))
  {}

  // ── The cleartext path ──

  /** Index and count are cast to 16 bits. */
  function ClearWire(msgId: u32, index: nat, total: nat, chunk: bytes): bytes {
    LE(msgId, 4) + (LE(index, 2) + LE(total, 2)) + chunk
  }

  lemma ClearWireReads(msgId: u32, index: u16, total: u16, chunk: bytes, now: int)
    ensures |ClearWire(msgId, index, total, chunk)| >= FRAG_HEADER_LEN
    ensures ClearEvent(ClearWire(msgId, index, total, chunk), now) == Fragment(msgId, index, total, chunk, now)
  {
    var raw, pair := ClearWire(msgId, index, total, chunk), LE(index, 2) + LE(total, 2);
    assert raw[0..4] == LE(msgId, 4) && raw[FRAG_HEADER_LEN..] == chunk;
    assert raw[4..6] == pair[0..2] && raw[6..8] == pair[2..4];
    LE32(msgId);
    ReadPair(index, total);
  }

  lemma ClearWireIff(raw: bytes, now: int, msgId: u32, index: u16, total: u16, chunk: bytes)
    requires |raw| >= FRAG_HEADER_LEN
    ensures ClearEvent(raw, now) == Fragment(msgId, index, total, chunk, now) <==> raw == ClearWire(msgId, index, total, chunk)
  {
    if raw == ClearWire(msgId, index, total, chunk) { ClearWireReads(msgId, index, total, chunk, now); }
    if ClearEvent(raw, now) == Fragment(msgId, index, total, chunk, now) {
      LEOfFromLE(raw[0..4]);
      ReadU16IsLE(raw[4..6]);
      ReadU16IsLE(raw[6..8]);
      assert raw == raw[0..4] + (raw[4..6] + raw[6..8]) + raw[8..];
    }
  }

  /** `fragment`: chunks of 1024 bytes behind plain headers. */
  function Fragments(msgId: u32, full: bytes): (w: seq<bytes>)
    ensures |w| == |Chunked(full, FRAG_PAYLOAD)|
  {
    var chunks := Chunked(full, FRAG_PAYLOAD);
    seq(|chunks|, i requires 0 <= i < |chunks| => ClearWire(msgId, i, |chunks|, chunks[i]))
  }

  lemma {:induction false} ChunkedCount(full: bytes, n: nat)
    requires n > 0
    ensures |Chunked(full, FRAG_PAYLOAD)| <= n <==> |full| <= n * FRAG_PAYLOAD
    decreases |full|
  {
    if |full| > FRAG_PAYLOAD {
      if n > 1 { ChunkedCount(full[FRAG_PAYLOAD..], n - 1); } else { ChunkedBack(full[FRAG_PAYLOAD..], FRAG_PAYLOAD); }
    }
  }

  /** A message splits into what the reassembler takes exactly when it has 1 to 65 536 bytes. */
  lemma SplitFits(msgId: u32, full: bytes)
    ensures Split(msgId, Chunked(full, FRAG_PAYLOAD)).Valid() <==> 0 < |full| <= 65_536
    ensures Concat(Chunked(full, FRAG_PAYLOAD)) == full
  {
    ChunkedBack(full, FRAG_PAYLOAD);
    ChunkedCount(full, MAX_FRAGMENTS);
  }

  /** What was sent is read back as the message's own fragments, so that any arrival order
      gives the message back. */
  lemma ClearFragmentIsOwn(msgId: u32, full: bytes, i: nat, table: Table, now: int)
    requires 0 < |full| <= 65_536 && i < |Chunked(full, FRAG_PAYLOAD)|
    ensures |Chunked(full, FRAG_PAYLOAD)| <= MAX_FRAGMENTS
    ensures var m := Split(msgId, Chunked(full, FRAG_PAYLOAD));
            var e := Fragment(msgId, i, |m.chunks|, m.chunks[i], now);
            m.Valid() && m.Owns(e) && PushedRaw(table, Fragments(msgId, full)[i], now) == Step(table, e)
  {
    SplitFits(msgId, full);
    var chunks := Chunked(full, FRAG_PAYLOAD);
    ClearWireReads(msgId, i, |chunks|, chunks[i], now);
  }
}
