/** The handshake transcript: a label and length-prefixed items fed to one hash. */
module Transcripts {
  import opened Bytes

  function Ascii(s: string): (b: bytes)
    ensures |b| == |s|
  {
    seq(|s|, i requires 0 <= i < |s| => (s[i] as int) % 0x100)
  }

  const LABEL := Ascii("Chameleon-PQ-v1 transcript")

  /** The length prefix is the length cast to 32 bits. */
  function Item(item: bytes): bytes {
    LE(|item|, 4) + item
  }

  function Items(items: seq<bytes>): bytes {
    if items == [] then [] else Item(items[0]) + Items(items[1..])
  }

  /** Everything the hash is fed after absorbing the items in order. */
  function Stream(items: seq<bytes>): bytes {
    LABEL + Items(items)
  }

  /** Hashes as terms: the hash of a byte stream, and a role label hashed with a
      transcript hash. Distinct inputs have distinct hashes. */
  datatype Role = ResponderProof | InitiatorProof
  datatype Digest = TranscriptHash(fed: bytes) | RoleBound(role: Role, hash: Digest)

  class Transcript {
    var fed: bytes
    ghost var items: seq<bytes>

    ghost predicate Valid()
      reads this
    {
      fed == Stream(items)
    }

    constructor ()
      ensures Valid() && items == []
    {
      fed := LABEL;
      items := [];
      new;
      assert LABEL + [] == LABEL;
    }

    method Absorb(item: bytes)
      requires Valid()
      modifies this
      ensures Valid() && items == old(items) + [item]
    {
      fed := fed + LE(|item|, 4);
      fed := fed + item;
      ItemsAppend(items, item);
      assert LABEL + Items(items) + LE(|item|, 4) + item == LABEL + (Items(items) + Item(item));
      items := items + [item];
    }

    function Hash(): (h: Digest)
      requires Valid()
      reads this
      ensures h == TranscriptHash(Stream(items))
    {
      TranscriptHash(fed)
    }
  }

  lemma {:induction false} ItemsAppend(items: seq<bytes>, item: bytes)
    ensures Items(items + [item]) == Items(items) + Item(item)
  {
    if items == [] {
      assert [item][1..] == [];
    } else {
      assert (items + [item])[1..] == items[1..] + [item];
      ItemsAppend(items[1..], item);
    }
  }

  // ── Unique decoding ──

  predicate Short(items: seq<bytes>) {
    forall i | 0 <= i < |items| :: |items[i]| < 0x1_0000_0000
  }

  /** Equal streams come from equal lists of items, as long as every length fits 32 bits. */
  lemma UniquelyDecodable(a: seq<bytes>, b: seq<bytes>)
    requires Short(a) && Short(b)
    ensures Stream(a) == Stream(b) <==> a == b
  {
    if Stream(a) == Stream(b) {
      assert Stream(a)[|LABEL|..] == Items(a) && Stream(b)[|LABEL|..] == Items(b);
      ItemsDecode(a, b);
    }
  }

  lemma {:induction false} ItemsDecode(a: seq<bytes>, b: seq<bytes>)
    requires Short(a) && Short(b) && Items(a) == Items(b)
    ensures a == b
  {
    if a != [] && b != [] {
      var s := Items(a);
      assert s[..4] == LE(|a[0]|, 4);
      assert s[..4] == LE(|b[0]|, 4);
      LE32(|a[0]|);
      LE32(|b[0]|);
      var n := |a[0]|;
      assert s[4..4 + n] == a[0] && s[4 + n..] == Items(a[1..]);
      assert s[4..4 + n] == b[0] && s[4 + n..] == Items(b[1..]);
      ItemsDecode(a[1..], b[1..]);
    }
  }

  function Zeros(n: nat): bytes {
    seq(n, _ => 0)
  }

  /** Without the bound it fails: one item of 2^32 zero bytes has a length prefix of
      zero, and is fed to the hash like 2^30 + 1 empty items. */
  lemma TruncatedLengthCollides()
    ensures var long, empties := [Zeros(0x1_0000_0000)], seq(0x4000_0001, _ => []);
            long != empties && Stream(long) == Stream(empties)
  {
    var long, empties := [Zeros(0x1_0000_0000)], seq<bytes>(0x4000_0001, _ => []);
    assert |long| != |empties|;
    EmptyItems(0x4000_0001);
    assert LE(0x1_0000_0000, 4) == Zeros(4) by {
      assert LE(0x1_0000_0000, 4) == [0] + LE(0x100_0000, 3);
      assert LE(0x100_0000, 3) == [0] + LE(0x1_0000, 2);
      assert LE(0x1_0000, 2) == [0] + LE(0x100, 1);
      assert LE(0x100, 1) == [0];
    }
    assert long[1..] == [];
    assert Items(long) == Zeros(4) + Zeros(0x1_0000_0000);
    assert Items(long) == Zeros(0x1_0000_0004);
  }

  lemma {:induction false} EmptyItems(n: nat)
    ensures Items(seq(n, _ => [])) == Zeros(4 * n)
  {
    if n > 0 {
      var items := seq<bytes>(n, _ => []);
      assert items[1..] == seq<bytes>(n - 1, _ => []);
      EmptyItems(n - 1);
      assert LE(0, 4) == Zeros(4);
      assert Zeros(4) + Zeros(4 * (n - 1)) == Zeros(4 * n);
    }
  }

  predicate Bounded(items: seq<bytes>, n: nat) {
    forall i | 0 <= i < |items| :: |items[i]| <= n
  }

  /** Lists of items of up to n bytes are told apart by their streams exactly when every
      length up to n survives the cast to 32 bits. */
  lemma DecodableIff(n: nat)
    ensures (forall a, b | Bounded(a, n) && Bounded(b, n) && Stream(a) == Stream(b) :: a == b) <==> n < 0x1_0000_0000
  {
    if n < 0x1_0000_0000 {
      forall a, b | Bounded(a, n) && Bounded(b, n) && Stream(a) == Stream(b) ensures a == b {
        UniquelyDecodable(a, b);
      }
    } else {
      TruncatedLengthCollides();
      var long, empties := [Zeros(0x1_0000_0000)], seq<bytes>(0x4000_0001, _ => []);
      assert Bounded(long, n) && Bounded(empties, n);
    }
  }
}
