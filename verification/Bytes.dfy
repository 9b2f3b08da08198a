/** Byte strings and little-endian numbers. */
module Bytes {
  import opened Words

  type bytes = seq<byte>

  /** `n` in k bytes, least significant first; digits beyond the k-th are lost,
      which is what an `as u16` or `as u32` cast before `to_le_bytes` does. */
  function LE(n: nat, k: nat): (s: bytes)
    ensures |s| == k
  {
    if k == 0 then [] else [n % 0x100] + LE(n / 0x100, k - 1)
  }

  function FromLE(s: bytes): nat {
    if s == [] then 0 else s[0] + 0x100 * FromLE(s[1..])
  }

  function Pow256(k: nat): (p: nat)
    ensures p > 0
  {
    if k == 0 then 1 else 0x100 * Pow256(k - 1)
  }

  lemma {:induction false} FromLEOfLE(n: nat, k: nat)
    requires n < Pow256(k)
    ensures FromLE(LE(n, k)) == n
  {
    if k > 0 {
      FromLEOfLE(n / 0x100, k - 1);
      assert LE(n, k)[1..] == LE(n / 0x100, k - 1);
    }
  }

  lemma SplitDigit(low: byte, high: nat)
    ensures (low + 0x100 * high) % 0x100 == low && (low + 0x100 * high) / 0x100 == high
  {}

  lemma {:induction false} LEOfFromLE(s: bytes)
    ensures FromLE(s) < Pow256(|s|)
    ensures LE(FromLE(s), |s|) == s
  {
    if s != [] {
      var rest := s[1..];
      LEOfFromLE(rest);
      SplitDigit(s[0], FromLE(rest));
      assert s == [s[0]] + rest;
    }
  }

  lemma LE16(n: nat)
    ensures FromLE(LE(n, 2)) == n % 0x1_0000
  {
    assert LE(n, 2) == [n % 0x100, n / 0x100 % 0x100];
    assert LE(n, 2)[1..] == [n / 0x100 % 0x100];
    assert FromLE([n / 0x100 % 0x100]) == n / 0x100 % 0x100;
  }

  lemma LE32(n: u32)
    ensures FromLE(LE(n, 4)) == n
  {
    assert Pow256(2) == 0x1_0000;
    assert Pow256(4) == 0x1_0000_0000;
    FromLEOfLE(n, 4);
  }

  lemma LE64(n: u64)
    ensures FromLE(LE(n, 8)) == n
  {
    assert Pow256(2) == 0x1_0000;
    assert Pow256(4) == 0x1_0000_0000;
    assert Pow256(6) == 0x1_0000_0000_0000;
    assert Pow256(8) == TWO64;
    FromLEOfLE(n, 8);
  }

  function ReadU16(s: bytes): u16
    requires |s| == 2
  {
    var low: int, high: int := s[0], s[1];
    low + 0x100 * high
  }

  lemma ReadU16IsLE(s: bytes)
    requires |s| == 2
    ensures ReadU16(s) == FromLE(s) && LE(ReadU16(s), 2) == s
  {
    LEOfFromLE(s);
    assert s[1..] == [s[1]] && [s[1]][1..] == [];
    assert FromLE([s[1]]) == s[1];
  }

  /** Two 16-bit fields in a row read back as what the cast left of them. */
  lemma ReadPair(a: nat, b: nat)
    ensures var s := LE(a, 2) + LE(b, 2);
            |s| == 4 && ReadU16(s[0..2]) == a % 0x1_0000 && ReadU16(s[2..4]) == b % 0x1_0000
  {
    var s := LE(a, 2) + LE(b, 2);
    assert s[0..2] == LE(a, 2) && s[2..4] == LE(b, 2);
    LE16(a);
    LE16(b);
    ReadU16IsLE(s[0..2]);
    ReadU16IsLE(s[2..4]);
  }

  function ReadU32(s: bytes): u32
    requires |s| == 4
  {
    LEOfFromLE(s);
    assert Pow256(2) == 0x1_0000;
    assert Pow256(4) == 0x1_0000_0000;
    FromLE(s)
  }

  function ReadU64(s: bytes): u64
    requires |s| == 8
  {
    LEOfFromLE(s);
    assert Pow256(2) == 0x1_0000;
    assert Pow256(4) == 0x1_0000_0000;
    assert Pow256(6) == 0x1_0000_0000_0000;
    assert Pow256(8) == TWO64;
    FromLE(s)
  }

  function XorByte(a: byte, b: byte): byte {
    Pow2Of64();
    XorBound(a, b, 8);
    Xor(a, b)
  }

  function OrByte(a: byte, b: byte): byte {
    Pow2Of64();
    OrBound(a, b, 8);
    Or(a, b)
  }

  /** `s` XORed place by place with the front of `mask`. */
  function Masked(s: bytes, mask: bytes): (r: bytes)
    requires |s| <= |mask|
    ensures |r| == |s|
    ensures forall i | 0 <= i < |s| :: r[i] == XorByte(s[i], mask[i])
  {
    seq(|s|, i requires 0 <= i < |s| => XorByte(s[i], mask[i]))
  }

  /** Masking twice with the same mask is the identity. */
  lemma MaskedTwice(s: bytes, mask: bytes)
    requires |s| <= |mask|
    ensures Masked(Masked(s, mask), mask) == s
  {
    forall i | 0 <= i < |s| ensures Masked(Masked(s, mask), mask)[i] == s[i] {
      XorCancels(s[i], mask[i]);
    }
  }

  lemma Assoc<T>(a: seq<T>, b: seq<T>, c: seq<T>)
    ensures (a + b) + c == a + (b + c)
  {}

  /** All parts of a list, one after the other. */
  function Concat<T>(parts: seq<seq<T>>): seq<T> {
    if parts == [] then [] else parts[0] + Concat(parts[1..])
  }

  lemma {:induction false} ConcatAppend<T>(parts: seq<seq<T>>, more: seq<seq<T>>)
    ensures Concat(parts + more) == Concat(parts) + Concat(more)
  {
    if parts == [] {
      assert parts + more == more;
    } else {
      assert (parts + more)[1..] == parts[1..] + more;
      ConcatAppend(parts[1..], more);
    }
  }

  lemma ConcatOne<T>(parts: seq<seq<T>>, last: seq<T>)
    ensures Concat(parts + [last]) == Concat(parts) + last
  {
    ConcatAppend(parts, [last]);
    assert Concat([last]) == last;
  }

  /** `s` in pieces of n, the last one possibly shorter (`chunks(n)`). */
  function Chunked<T>(s: seq<T>, n: nat): seq<seq<T>>
    requires n > 0
    decreases |s|
  {
    if s == [] then []
    else if |s| <= n then [s]
    else [s[..n]] + Chunked(s[n..], n)
  }

  lemma {:induction false} ChunkedBack<T>(s: seq<T>, n: nat)
    requires n > 0
    ensures Concat(Chunked(s, n)) == s
    ensures forall i | 0 <= i < |Chunked(s, n)| :: 0 < |Chunked(s, n)[i]| <= n
    ensures forall i | 0 <= i < |Chunked(s, n)| - 1 :: |Chunked(s, n)[i]| == n
    decreases |s|
  {
    if |s| > n {
      ChunkedBack(s[n..], n);
    } else if s != [] {
      ConcatOne([], s);
      assert [] + [s] == [s];
    }
  }

  // ── Identities ──

  /** Byte-lexicographic order. */
  predicate LexLe(a: bytes, b: bytes)
    decreases |a|
  {
    a == [] || (b != [] && (a[0] < b[0] || (a[0] == b[0] && LexLe(a[1..], b[1..]))))
  }

  /** Two byte strings in an order both sides agree on. */
  function Binding(own: bytes, peer: bytes): bytes {
    if LexLe(own, peer) then own + peer else peer + own
  }

  lemma {:induction false} LexTotal(a: bytes, b: bytes)
    requires |a| == |b|
    ensures LexLe(a, b) || LexLe(b, a)
    ensures LexLe(a, b) && LexLe(b, a) ==> a == b
    decreases |a|
  {
    if a != [] { LexTotal(a[1..], b[1..]); }
  }

  /** The binding names the two identities, not who is on which side. */
  lemma BindingIsSymmetric(a: bytes, b: bytes)
    requires |a| == |b|
    ensures Binding(a, b) == Binding(b, a)
  {
    LexTotal(a, b);
  }

  /** The lesser in byte order comes first. */
  lemma BindingIsSorted(a: bytes, b: bytes, k: nat)
    requires |a| == |b| && k < |a| && a[..k] == b[..k] && a[k] < b[k]
    ensures Binding(a, b) == a + b && Binding(b, a) == a + b
  {
    LesserFirst(a, b, k);
  }

  lemma {:induction false} LesserFirst(a: bytes, b: bytes, k: nat)
    requires |a| == |b| && k < |a| && a[..k] == b[..k] && a[k] < b[k]
    ensures LexLe(a, b) && !LexLe(b, a)
    decreases k
  {
    if k > 0 {
      assert a[0] == a[..k][0] == b[..k][0] == b[0];
      assert a[1..][..k - 1] == a[..k][1..] && b[1..][..k - 1] == b[..k][1..];
      LesserFirst(a[1..], b[1..], k - 1);
    }
  }

  lemma BindingNamesBoth(a: bytes, b: bytes, c: bytes, d: bytes)
    requires |a| == |b| == |c| == |d|
    requires Binding(a, b) == Binding(c, d)
    ensures (a == c && b == d) || (a == d && b == c)
  {
    var n := |a|;
    var s, t := Binding(a, b), Binding(c, d);
    assert s[..n] == (if LexLe(a, b) then a else b) && s[n..] == (if LexLe(a, b) then b else a);
    assert t[..n] == (if LexLe(c, d) then c else d) && t[n..] == (if LexLe(c, d) then d else c);
  }
}
