/** Batched UDP: runs of equal-sized datagrams, segmented sends, and splitting what was
    received by its stride. */
module Udp {
  import opened Bytes
  import opened Results

  // ── Grouping ──

  datatype Group = Group(datagrams: seq<bytes>, size: nat)

  function Flat(groups: seq<Group>): seq<bytes> {
    if groups == [] then [] else groups[0].datagrams + Flat(groups[1..])
  }

  lemma {:induction false} FlatOne(groups: seq<Group>, last: Group)
    ensures Flat(groups + [last]) == Flat(groups) + last.datagrams
  {
    if groups == [] {
      assert [last][1..] == [];
    } else {
      assert (groups + [last])[1..] == groups[1..] + [last];
      FlatOne(groups[1..], last);
    }
  }

  predicate AllSized(datagrams: seq<bytes>, size: nat) {
    forall i | 0 <= i < |datagrams| :: |datagrams[i]| == size
  }

  /** The datagrams in order, in non-empty runs of one size each, no run extendable. */
  predicate IsGrouping(datagrams: seq<bytes>, groups: seq<Group>) {
    && Flat(groups) == datagrams
    && (forall i | 0 <= i < |groups| :: groups[i].datagrams != [] && AllSized(groups[i].datagrams, groups[i].size))
    && (forall i | 0 <= i < |groups| - 1 :: groups[i].size != groups[i + 1].size)
  }

  method GroupEqualSized(datagrams: seq<bytes>) returns (out: seq<Group>)
    ensures IsGrouping(datagrams, out)
  {
    out := [];
    var i := 0;
    while i < |datagrams|
      invariant 0 <= i <= |datagrams|
      invariant IsGrouping(datagrams[..i], out)
      invariant out != [] && i < |datagrams| ==> |datagrams[i]| != out[|out| - 1].size
    {
      var size := |datagrams[i]|;
      var j := i + 1;
      while j < |datagrams| && |datagrams[j]| == size
        invariant i < j <= |datagrams|
        invariant AllSized(datagrams[i..j], size)
      {
        assert datagrams[i..j + 1] == datagrams[i..j] + [datagrams[j]];
        j := j + 1;
      }
      NextGroup(datagrams[..i], out, Group(datagrams[i..j], size));
      assert datagrams[..i] + datagrams[i..j] == datagrams[..j];
      out := out + [Group(datagrams[i..j], size)];
      i := j;
    }
    assert datagrams[..i] == datagrams;
  }

  lemma NextGroup(done: seq<bytes>, groups: seq<Group>, next: Group)
    requires IsGrouping(done, groups) && next.datagrams != [] && AllSized(next.datagrams, next.size)
    requires groups != [] ==> groups[|groups| - 1].size != next.size
    ensures IsGrouping(done + next.datagrams, groups + [next])
  {
    FlatOne(groups, next);
  }

  // ── Sending ──

  /** One `sendmsg`: the bytes, and the segment size when there is more than one datagram. */
  datatype Transmit = Transmit(contents: bytes, segmentSize: Option<nat>)

  function TransmitOf(part: seq<bytes>, size: nat): Transmit {
    Transmit(Concat(part), if |part| > 1 then Some(size) else None)
  }

  function Transmits(parts: seq<seq<bytes>>, size: nat): seq<Transmit> {
    if parts == [] then [] else [TransmitOf(parts[0], size)] + Transmits(parts[1..], size)
  }

  method Glue(part: seq<bytes>) returns (buf: bytes)
    ensures buf == Concat(part)
  {
    buf := [];
    for k := 0 to |part|
      invariant buf == Concat(part[..k])
    {
      assert part[..k + 1] == part[..k] + [part[k]];
      ConcatOne(part[..k], part[k]);
      buf := buf + part[k];
    }
    assert part[..|part|] == part;
  }

  /** Sends at most `MaxSeg` datagrams per call; `accepts(k)` says whether the socket takes
      the k-th call, and the first refusal ends the method. */
  method BatchSend(datagrams: seq<bytes>, segSize: nat, maxGso: nat, gso: bool, accepts: nat -> bool)
    returns (sent: seq<Transmit>, ok: bool)
    ensures sent <= Transmits(Chunked(datagrams, MaxSeg(maxGso, gso)), segSize)
    ensures forall k: nat | k < |sent| :: accepts(k)
    ensures if ok then sent == Transmits(Chunked(datagrams, MaxSeg(maxGso, gso)), segSize)
            else |sent| < |Transmits(Chunked(datagrams, MaxSeg(maxGso, gso)), segSize)| && !accepts(|sent|)
  {
    var maxSeg := MaxSeg(maxGso, gso);
    sent := [];
    var rest := datagrams;
    ghost var all := Transmits(Chunked(datagrams, maxSeg), segSize);
    while rest != []
      invariant sent + Transmits(Chunked(rest, maxSeg), segSize) == all
      invariant forall k: nat | k < |sent| :: accepts(k)
      decreases |rest|
    {
      var end := if maxSeg < |rest| then maxSeg else |rest|;
      var part := rest[..end];
      var buf := Glue(part);
      TransmitsStep(rest, maxSeg, segSize);
      ghost var transmit := TransmitOf(part, segSize);
      assert transmit == Transmit(buf, if end > 1 then Some(segSize) else None);
      if !accepts(|sent|) {
        return sent, false;
      }
      Assoc(sent, [transmit], Transmits(Chunked(rest[end..], maxSeg), segSize));
      sent := sent + [Transmit(buf, if end > 1 then Some(segSize) else None)];
      rest := rest[end..];
    }
    ok := true;
  }

  lemma TransmitsStep(rest: seq<bytes>, n: nat, size: nat)
    requires n > 0 && rest != []
    ensures var k := if n < |rest| then n else |rest|;
            Transmits(Chunked(rest, n), size) == [TransmitOf(rest[..k], size)] + Transmits(Chunked(rest[k..], n), size)
  {
    if |rest| <= n { assert Chunked(rest, n) == [rest] && rest[..|rest|] == rest && [rest][1..] == []; }
  }

  function MaxSeg(maxGso: nat, gso: bool): (n: nat)
    ensures n > 0
  {
    if gso then (if maxGso == 0 then 1 else maxGso) else 1
  }

  /** How many datagrams ride in one send: one without GSO; with it as many as the limit, at
      least one, and only the last send of a run may carry fewer. */
  lemma SendSizes(datagrams: seq<bytes>, size: nat, maxGso: nat, gso: bool, k: nat)
    requires k < |Chunked(datagrams, MaxSeg(maxGso, gso))|
    ensures |Transmits(Chunked(datagrams, MaxSeg(maxGso, gso)), size)| == |Chunked(datagrams, MaxSeg(maxGso, gso))|
    ensures var parts, limit := Chunked(datagrams, MaxSeg(maxGso, gso)), if gso && maxGso > 0 then maxGso else 1;
            && 0 < |parts[k]| <= limit && (k < |parts| - 1 ==> |parts[k]| == limit) && Concat(parts) == datagrams
            && Transmits(parts, size)[k]
               == Transmit(Concat(parts[k]), if |parts[k]| > 1 then Some(size) else None)
  {
    ChunkedBack(datagrams, MaxSeg(maxGso, gso));
    TransmitAt(Chunked(datagrams, MaxSeg(maxGso, gso)), size, k);
  }

  lemma {:induction false} TransmitAt(parts: seq<seq<bytes>>, size: nat, k: nat)
    requires k < |parts|
    ensures |Transmits(parts, size)| == |parts|
    ensures Transmits(parts, size)[k] == Transmit(Concat(parts[k]), if |parts[k]| > 1 then Some(size) else None)
  {
    if |parts| > 1 {
      TransmitAt(parts[1..], size, if k == 0 then 0 else k - 1);
    }
  }

  // ── Receiving ──

  datatype Meta = Meta(len: nat, stride: nat)

  /** The datagrams of one received message: stride 0 means the whole message. */
  function SplitMessage(buf: bytes, m: Meta): seq<bytes> {
    var len := if m.len < |buf| then m.len else |buf|;
    var stride := if m.stride == 0 then len else m.stride;
    Chunked(buf[..len], if stride == 0 then 1 else stride)
  }

  function IterDatagrams(storage: seq<bytes>, metas: seq<Meta>, count: nat): seq<bytes> {
    if count == 0 || metas == [] || storage == [] then []
    else SplitMessage(storage[0], metas[0]) + IterDatagrams(storage[1..], metas[1..], count - 1)
  }

  /** Datagrams glued into one message: all of the stride's size, the last maybe shorter. */
  predicate Coalesced(parts: seq<bytes>, stride: nat) {
    && stride > 0
    && (forall i | 0 <= i < |parts| - 1 :: |parts[i]| == stride)
    && (parts != [] ==> 0 < |parts[|parts| - 1]| <= stride)
  }

  lemma {:induction false} ChunkedOfCoalesced(parts: seq<bytes>, stride: nat)
    requires Coalesced(parts, stride)
    ensures Chunked(Concat(parts), stride) == parts
  {
    if |parts| == 1 {
      assert Concat(parts) == parts[0] + Concat(parts[1..]) && parts[1..] == [];
      assert Concat(parts) == parts[0];
      assert Chunked(parts[0], stride) == [parts[0]];
    } else if |parts| > 1 {
      ChunkedOfCoalesced(parts[1..], stride);
      ConcatNonEmpty(parts[1..]);
      ChunkedStep(parts[0], Concat(parts[1..]));
      assert [parts[0]] + parts[1..] == parts;
    }
  }

  lemma ConcatNonEmpty(parts: seq<bytes>)
    requires parts != [] && parts[|parts| - 1] != []
    ensures Concat(parts) != []
  {
    if |parts| > 1 {
      ConcatNonEmpty(parts[1..]);
    }
  }

  lemma ChunkedStep(first: bytes, rest: bytes)
    requires first != [] && rest != []
    ensures Chunked(first + rest, |first|) == [first] + Chunked(rest, |first|)
  {
    assert (first + rest)[..|first|] == first && (first + rest)[|first|..] == rest;
  }

  /** Whatever the metadata says: the pieces are the received bytes, cut at the stride or not
      at all, never empty and never past the buffer. */
  lemma SplitCovers(buf: bytes, m: Meta)
    ensures var len := if m.len < |buf| then m.len else |buf|;
            && Concat(SplitMessage(buf, m)) == buf[..len]
            && (m.stride == 0 ==> SplitMessage(buf, m) == if len == 0 then [] else [buf[..len]])
            && (m.stride > 0 ==> SplitMessage(buf, m) == Chunked(buf[..len], m.stride))
            && forall i | 0 <= i < |SplitMessage(buf, m)| :: SplitMessage(buf, m)[i] != []
  {
    var len := if m.len < |buf| then m.len else |buf|;
    var stride := if m.stride == 0 then len else m.stride;
    ChunkedBack(buf[..len], if stride == 0 then 1 else stride);
  }

  /** A received message splits back into what was glued together, wherever the receive
      buffer ends behind it. */
  lemma SplitUndoesGlue(parts: seq<bytes>, stride: nat, rest: bytes)
    requires Coalesced(parts, stride)
    ensures SplitMessage(Concat(parts) + rest, Meta(|Concat(parts)|, stride)) == parts
  {
    ChunkedOfCoalesced(parts, stride);
    assert (Concat(parts) + rest)[..|Concat(parts)|] == Concat(parts);
  }

  /** Any way of coalescing a stream of datagrams into messages gives the stream back, and
      of more messages than were counted the counted ones. */
  lemma {:induction false} ReceiveUndoesCoalescing(messages: seq<(seq<bytes>, nat)>, storage: seq<bytes>, metas: seq<Meta>, count: nat)
    requires |messages| <= |storage| && |messages| <= |metas|
    requires |messages| == Least(count, |metas|, |storage|)
    requires forall i | 0 <= i < |messages| ::
               && Coalesced(messages[i].0, messages[i].1)
               && Concat(messages[i].0) <= storage[i]
               && metas[i] == Meta(|Concat(messages[i].0)|, messages[i].1)
    ensures IterDatagrams(storage, metas, count) == Parts(messages)
  {
    if messages != [] {
      var glued := Concat(messages[0].0);
      assert storage[0] == glued + storage[0][|glued|..];
      SplitUndoesGlue(messages[0].0, messages[0].1, storage[0][|glued|..]);
      ReceiveUndoesCoalescing(messages[1..], storage[1..], metas[1..], count - 1);
    }
  }

  function Least(a: nat, b: nat, c: nat): nat {
    if a <= b && a <= c then a else if b <= c then b else c
  }

  function Parts(messages: seq<(seq<bytes>, nat)>): seq<bytes> {
    if messages == [] then [] else messages[0].0 + Parts(messages[1..])
  }

  // ── End to end ──

  function NonEmpty(datagrams: seq<bytes>): seq<bytes> {
    if datagrams == [] then []
    else (if datagrams[0] == [] then [] else [datagrams[0]]) + NonEmpty(datagrams[1..])
  }

  /** The datagrams a transmit puts on the wire: the contents cut at the segment size, or,
      where there is no size to cut at, the contents as one datagram. */
  function Emitted(t: Transmit): seq<bytes> {
    match t.segmentSize
    case None => [t.contents]
    case Some(size) => if size == 0 then [t.contents] else Chunked(t.contents, size)
  }

  function AllEmitted(ts: seq<Transmit>): seq<bytes> {
    if ts == [] then [] else Emitted(ts[0]) + AllEmitted(ts[1..])
  }

  function SendGroups(groups: seq<Group>, maxSeg: nat): seq<Transmit>
    requires maxSeg > 0
  {
    if groups == [] then []
    else Transmits(Chunked(groups[0].datagrams, maxSeg), groups[0].size) + SendGroups(groups[1..], maxSeg)
  }

  lemma {:induction false} EmptiesVanish(part: seq<bytes>)
    requires AllSized(part, 0)
    ensures Concat(part) == [] && NonEmpty(part) == []
  {
    if part != [] { EmptiesVanish(part[1..]); }
  }

  lemma {:induction false} NonEmptyAppend(a: seq<bytes>, b: seq<bytes>)
    ensures NonEmpty(a + b) == NonEmpty(a) + NonEmpty(b)
  {
    if a == [] {
      assert a + b == b;
    } else {
      assert (a + b)[1..] == a[1..] + b;
      NonEmptyAppend(a[1..], b);
    }
  }

  lemma PartEmitted(part: seq<bytes>, size: nat)
    requires part != [] && AllSized(part, size)
    ensures Emitted(TransmitOf(part, size)) == if size == 0 then [[]] else part
  {
    if size == 0 {
      EmptiesVanish(part);
    } else if |part| == 1 {
      assert part[1..] == [] && Concat(part) == part[0] + [] == part[0];
      assert part == [part[0]];
    } else {
      ChunkedOfCoalesced(part, size);
    }
  }

  lemma {:induction false} AllEmittedAppend(a: seq<Transmit>, b: seq<Transmit>)
    ensures AllEmitted(a + b) == AllEmitted(a) + AllEmitted(b)
  {
    if a == [] {
      assert a + b == b;
    } else {
      assert (a + b)[1..] == a[1..] + b;
      AllEmittedAppend(a[1..], b);
    }
  }

  function RunWire(run: seq<bytes>, size: nat, maxSeg: nat): seq<bytes>
    requires maxSeg > 0
  {
    AllEmitted(Transmits(Chunked(run, maxSeg), size))
  }

  lemma RunWireStep(run: seq<bytes>, size: nat, maxSeg: nat)
    requires maxSeg > 0 && run != [] && AllSized(run, size)
    ensures var k := if maxSeg < |run| then maxSeg else |run|;
            RunWire(run, size, maxSeg) == (if size == 0 then [[]] else run[..k]) + RunWire(run[k..], size, maxSeg)
  {
    var k := if maxSeg < |run| then maxSeg else |run|;
    PartEmitted(run[..k], size);
    TransmitsStep(run, maxSeg, size);
    var rest := Transmits(Chunked(run[k..], maxSeg), size);
    assert ([TransmitOf(run[..k], size)] + rest)[1..] == rest;
  }

  /** A run of real datagrams is emitted as it is. */
  lemma {:induction false} RealRunEmitted(run: seq<bytes>, size: nat, maxSeg: nat)
    requires AllSized(run, size) && size > 0 && maxSeg > 0
    ensures RunWire(run, size, maxSeg) == run
    decreases |run|
  {
    if run != [] {
      var k := if maxSeg < |run| then maxSeg else |run|;
      var tail := run[k..];
      RunWireStep(run, size, maxSeg);
      assert AllSized(tail, size);
      RealRunEmitted(tail, size, maxSeg);
      assert run[..k] + tail == run;
    }
  }

  /** Of a run of empty ones, each send emits one. */
  lemma {:induction false} EmptyRunEmitted(run: seq<bytes>, maxSeg: nat)
    requires AllSized(run, 0) && maxSeg > 0
    ensures AllSized(RunWire(run, 0, maxSeg), 0)
    ensures |RunWire(run, 0, maxSeg)| <= |run|
    ensures |RunWire(run, 0, maxSeg)| == |run| <==> maxSeg == 1 || |run| <= 1
    decreases |run|
  {
    if run != [] {
      var k := if maxSeg < |run| then maxSeg else |run|;
      var tail := run[k..];
      RunWireStep(run, 0, maxSeg);
      assert AllSized(tail, 0);
      EmptyRunEmitted(tail, maxSeg);
    }
  }

  /** A run is on the wire as it is, exactly when no two empty datagrams were glued. */
  lemma RunIsKeptIff(run: seq<bytes>, size: nat, maxSeg: nat)
    requires AllSized(run, size) && maxSeg > 0
    ensures |RunWire(run, size, maxSeg)| <= |run|
    ensures NonEmpty(RunWire(run, size, maxSeg)) == NonEmpty(run)
    ensures RunWire(run, size, maxSeg) == run <==> size > 0 || maxSeg == 1 || |run| <= 1
  {
    if size > 0 {
      RealRunEmitted(run, size, maxSeg);
    } else {
      EmptyRunEmitted(run, maxSeg);
      EmptiesVanish(run);
      EmptiesVanish(RunWire(run, size, maxSeg));
      if |RunWire(run, size, maxSeg)| == |run| {
        assert forall i | 0 <= i < |run| :: RunWire(run, size, maxSeg)[i] == run[i];
      }
    }
  }

  predicate NoTwoEmpties(datagrams: seq<bytes>) {
    forall i | 0 <= i < |datagrams| - 1 :: datagrams[i] != [] || datagrams[i + 1] != []
  }

  lemma NoTwoEmptiesInRun(run: seq<bytes>, size: nat)
    requires AllSized(run, size)
    ensures NoTwoEmpties(run) <==> size > 0 || |run| <= 1
  {
    if size == 0 && |run| > 1 { assert run[0] == [] && run[0 + 1] == []; }
  }

  lemma NoTwoEmptiesSplit(run: seq<bytes>, rest: seq<bytes>)
    requires run != [] && (rest != [] ==> run[|run| - 1] != [] || rest[0] != [])
    ensures NoTwoEmpties(run + rest) <==> NoTwoEmpties(run) && NoTwoEmpties(rest)
  {
    var both, n := run + rest, |run|;
    if NoTwoEmpties(both) {
      forall i | 0 <= i < |rest| - 1 ensures rest[i] != [] || rest[i + 1] != [] {
        assert both[n + i] == rest[i] && both[n + i + 1] == rest[i + 1];
      }
      forall i | 0 <= i < n - 1 ensures run[i] != [] || run[i + 1] != [] {
        assert both[i] == run[i] && both[i + 1] == run[i + 1];
      }
    }
  }

  lemma SameSplit<T>(a: seq<T>, b: seq<T>, c: seq<T>, d: seq<T>)
    requires |a| <= |c| && |b| <= |d|
    ensures a + b == c + d <==> a == c && b == d
  {
    if a + b == c + d {
      assert |a| == |c|;
      assert (a + b)[..|a|] == a && (c + d)[..|c|] == c && (a + b)[|a|..] == b && (c + d)[|c|..] == d;
    }
  }

  lemma GroupsFit(groups: seq<Group>)
    requires IsGrouping(Flat(groups), groups) && |groups| > 1
    ensures IsGrouping(Flat(groups[1..]), groups[1..])
    ensures Flat(groups[1..]) != [] && |Flat(groups[1..])[0]| != groups[0].size
  {
    var rest := groups[1..];
    forall i | 0 <= i < |rest| - 1 ensures rest[i].size != rest[i + 1].size {
      assert groups[i + 1].size != groups[i + 1 + 1].size;
    }
    assert Flat(rest)[0] == rest[0].datagrams[0];
    assert groups[0].size != groups[0 + 1].size;
  }

  /** Grouped and segmented in any way, the wire carries the datagrams in order; it is the
      very list exactly when nothing is glued or no two empty datagrams are adjacent. */
  lemma {:induction false} WireCarriesDatagrams(datagrams: seq<bytes>, groups: seq<Group>, maxSeg: nat)
    requires IsGrouping(datagrams, groups) && maxSeg > 0
    ensures |AllEmitted(SendGroups(groups, maxSeg))| <= |datagrams|
    ensures NonEmpty(AllEmitted(SendGroups(groups, maxSeg))) == NonEmpty(datagrams)
    ensures AllEmitted(SendGroups(groups, maxSeg)) == datagrams <==> maxSeg == 1 || NoTwoEmpties(datagrams)
    decreases |groups|
  {
    if groups != [] {
      var run, size, rest := groups[0].datagrams, groups[0].size, groups[1..];
      if rest != [] { GroupsFit(groups); }
      WireCarriesDatagrams(Flat(rest), rest, maxSeg);
      var tail := AllEmitted(SendGroups(rest, maxSeg));
      AllEmittedAppend(Transmits(Chunked(run, maxSeg), size), SendGroups(rest, maxSeg));
      RunIsKeptIff(run, size, maxSeg);
      NonEmptyAppend(RunWire(run, size, maxSeg), tail);
      NonEmptyAppend(run, Flat(rest));
      NoTwoEmptiesInRun(run, size);
      NoTwoEmptiesSplit(run, Flat(rest));
      SameSplit(RunWire(run, size, maxSeg), tail, run, Flat(rest));
    }
  }

  /** The wire carries the very list under every segment limit exactly when no two empty
      datagrams are adjacent. */
  lemma SameListIff(datagrams: seq<bytes>, groups: seq<Group>)
    requires IsGrouping(datagrams, groups)
    ensures (forall maxSeg | maxSeg > 0 :: AllEmitted(SendGroups(groups, maxSeg)) == datagrams) <==> NoTwoEmpties(datagrams)
  {
    forall maxSeg | maxSeg > 0
      ensures AllEmitted(SendGroups(groups, maxSeg)) == datagrams <==> maxSeg == 1 || NoTwoEmpties(datagrams)
    {
      WireCarriesDatagrams(datagrams, groups, maxSeg);
    }
    assert AllEmitted(SendGroups(groups, 2)) == datagrams <==> NoTwoEmpties(datagrams);
  }

  /** Sends each run in turn; a failed run is logged and the next one goes out all the
      same. `accepts(g, k)` says whether the socket takes the k-th call of run g. */
  method SendRuns(groups: seq<Group>, maxGso: nat, gso: bool, accepts: (nat, nat) -> bool)
    returns (sent: seq<Transmit>, complete: bool)
    ensures complete ==> sent == SendGroups(groups, MaxSeg(maxGso, gso))
    ensures !complete ==> exists g: nat, k: nat :: !accepts(g, k)
  {
    sent, complete := [], true;
    var rest, g := groups, 0;
    while rest != []
      invariant complete ==> sent + SendGroups(rest, MaxSeg(maxGso, gso)) == SendGroups(groups, MaxSeg(maxGso, gso))
      invariant !complete ==> exists g: nat, k: nat :: !accepts(g, k)
      decreases |rest|
    {
      var outcome := (k: nat) => accepts(g, k);
      var run, ok := BatchSend(rest[0].datagrams, rest[0].size, maxGso, gso, outcome);
      assert !ok ==> !accepts(g, |run|);
      SendGroupsStep(sent, rest, MaxSeg(maxGso, gso));
      sent, complete := sent + run, complete && ok;
      rest, g := rest[1..], g + 1;
    }
  }

  lemma SendGroupsStep(sent: seq<Transmit>, groups: seq<Group>, maxSeg: nat)
    requires groups != [] && maxSeg > 0
    ensures sent + SendGroups(groups, maxSeg)
         == (sent + Transmits(Chunked(groups[0].datagrams, maxSeg), groups[0].size)) + SendGroups(groups[1..], maxSeg)
  {}

  /** What every sender here does with a list: group it, then send each run. */
  method SendInRuns(datagrams: seq<bytes>, maxGso: nat, gso: bool, accepts: (nat, nat) -> bool)
    returns (sent: seq<Transmit>, complete: bool)
    ensures complete ==> NonEmpty(AllEmitted(sent)) == NonEmpty(datagrams)
    ensures complete ==> (AllEmitted(sent) == datagrams <==> MaxSeg(maxGso, gso) == 1 || NoTwoEmpties(datagrams))
    ensures !complete ==> exists g: nat, k: nat :: !accepts(g, k)
  {
    var groups := GroupEqualSized(datagrams);
    sent, complete := SendRuns(groups, maxGso, gso, accepts);
    WireCarriesDatagrams(datagrams, groups, MaxSeg(maxGso, gso));
  }

  /** Send and receive undo each other: whatever the segment limit, and however the network
      coalesces what it carries, the receiver walks the list that was sent. */
  lemma SentIsReceived(datagrams: seq<bytes>, groups: seq<Group>, maxSeg: nat,
                       messages: seq<(seq<bytes>, nat)>, storage: seq<bytes>, metas: seq<Meta>)
    requires IsGrouping(datagrams, groups) && maxSeg > 0
    requires forall i | 0 <= i < |datagrams| :: datagrams[i] != []
    requires Parts(messages) == AllEmitted(SendGroups(groups, maxSeg))
    requires |messages| <= |storage| && |messages| <= |metas|
    requires forall i | 0 <= i < |messages| ::
               && Coalesced(messages[i].0, messages[i].1)
               && Concat(messages[i].0) <= storage[i]
               && metas[i] == Meta(|Concat(messages[i].0)|, messages[i].1)
    ensures IterDatagrams(storage, metas, |messages|) == datagrams
  {
    ReceiveUndoesCoalescing(messages, storage, metas, |messages|);
    WireCarriesDatagrams(datagrams, groups, maxSeg);
  }
}
