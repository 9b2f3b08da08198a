/** Machine words as numbers below a power of two. The bit operators are defined
    digit by digit on the binary expansion, and a shift by n places is n shifts by
    one place, so every fact about them is a fact about halving and doubling. */
module Words {

  type byte = x: int | 0 <= x < 0x100
  type u16 = x: int | 0 <= x < 0x1_0000
  type u32 = x: int | 0 <= x < 0x1_0000_0000
  type u64 = x: int | 0 <= x < 0x1_0000_0000_0000_0000

  const TWO64 := 0x1_0000_0000_0000_0000

  /** The u64 operators `<<` and `>>`: bits shifted past an end are lost. */
  function Shl(w: u64, n: nat): u64 {
    if n == 0 then w else (Shl(w, n - 1) * 2) % TWO64
  }

  function Shr(w: nat, n: nat): (r: nat)
    ensures r <= w
  {
    if n == 0 then w else Shr(w, n - 1) / 2
  }

  predicate Bit(w: nat, i: nat) {
    Shr(w, i) % 2 == 1
  }

  function Or(a: nat, b: nat): nat {
    if a == 0 && b == 0 then 0
    else 2 * Or(a / 2, b / 2) + (if a % 2 == 1 || b % 2 == 1 then 1 else 0)
  }

  function Xor(a: nat, b: nat): nat {
    if a == 0 && b == 0 then 0
    else 2 * Xor(a / 2, b / 2) + (if a % 2 != b % 2 then 1 else 0)
  }

  function Pow2(n: nat): (p: nat)
    ensures p > 0
  {
    if n == 0 then 1 else 2 * Pow2(n - 1)
  }

  // ── Bits of shifted, joined and constant words ──

  lemma {:induction false} ShlBit(w: u64, n: nat, i: nat)
    requires i < 64
    ensures Bit(Shl(w, n), i) == (n <= i && Bit(w, i - n))
  {
    if n > 0 {
      ShlOneBit(Shl(w, n - 1), i);
      if i > 0 { ShlBit(w, n - 1, i - 1); }
    }
  }

  lemma ShlOneBit(w: u64, i: nat)
    requires i < 64
    ensures Bit((w * 2) % TWO64, i) == (i > 0 && Bit(w, i - 1))
  {
    if i > 0 {
      ShrShr((w * 2) % TWO64, 1, i - 1);
      HalveWrapped(w);
      if w >= TWO64 / 2 { DropTop(w - TWO64 / 2, i - 1); }
    }
  }

  lemma HalveWrapped(w: u64)
    ensures ((w * 2) % TWO64) / 2 == if w < TWO64 / 2 then w else w - TWO64 / 2
  {}

  lemma DropTop(w: nat, i: nat)
    requires i < 63
    ensures Bit(w + TWO64 / 2, i) == Bit(w, i)
  {
    Pow2Of64();
    ShrPlusPow2(w, 63, i);
  }

  /** The carry of a shift by n: the top n bits of the lower word. */
  lemma CarryBit(w: u64, n: nat, i: nat)
    requires 0 < n < 64
    ensures Bit(Shr(w, 64 - n), i) == (i < n && Bit(w, i + 64 - n))
  {
    ShrShr(w, 64 - n, i);
    if i >= n {
      Pow2Of64();
      ShrShr(w, 64, i - n);
      ShrBound(w, 64, 64);
    }
  }

  lemma HalfBit(w: nat, i: nat)
    requires i > 0
    ensures Bit(w, i) == Bit(w / 2, i - 1)
  {
    ShrShr(w, 1, i - 1);
    assert Shr(w, 1) == Shr(w, 0) / 2 == w / 2;
  }

  lemma OrHalf(a: nat, b: nat)
    ensures Or(a, b) / 2 == Or(a / 2, b / 2)
    ensures Or(a, b) % 2 == 1 <==> a % 2 == 1 || b % 2 == 1
  {}

  lemma {:induction false} OrBit(a: nat, b: nat, i: nat)
    ensures Bit(Or(a, b), i) == (Bit(a, i) || Bit(b, i))
    decreases i
  {
    OrHalf(a, b);
    if i > 0 {
      HalfBit(Or(a, b), i);
      HalfBit(a, i);
      HalfBit(b, i);
      OrBit(a / 2, b / 2, i - 1);
    }
  }

  lemma OneBit(n: nat, i: nat)
    requires n < 64 && i < 64
    ensures Bit(Shl(1, n), i) == (i == n)
  {
    ShlBit(1, n, i);
    if n < i { ShrShr(1, 1, i - n - 1); }
  }

  // ── Bounds: the operators stay within the width of their operands ──

  lemma {:induction false} OrBound(a: nat, b: nat, n: nat)
    requires a < Pow2(n) && b < Pow2(n)
    ensures Or(a, b) < Pow2(n)
  {
    if n > 0 { OrBound(a / 2, b / 2, n - 1); }
  }

  lemma {:induction false} XorBound(a: nat, b: nat, n: nat)
    requires a < Pow2(n) && b < Pow2(n)
    ensures Xor(a, b) < Pow2(n)
  {
    if n > 0 { XorBound(a / 2, b / 2, n - 1); }
  }

  lemma {:induction false} XorCancels(a: nat, b: nat)
    ensures Xor(Xor(a, b), b) == a
    decreases a + b
  {
    if a != 0 || b != 0 {
      XorCancels(a / 2, b / 2);
      assert Xor(a, b) / 2 == Xor(a / 2, b / 2);
    }
  }

  lemma {:induction false} XorZero(a: nat, b: nat)
    ensures Xor(a, b) == 0 <==> a == b
    decreases a + b
  {
    if a != 0 || b != 0 { XorZero(a / 2, b / 2); }
  }

  lemma {:induction false} OrZero(a: nat, b: nat)
    ensures Or(a, b) == 0 <==> a == 0 && b == 0
    decreases a + b
  {
    if a != 0 || b != 0 { OrZero(a / 2, b / 2); }
  }

  // ── Repeated halving ──

  lemma {:induction false} ShrShr(w: nat, m: nat, n: nat)
    ensures Shr(Shr(w, m), n) == Shr(w, m + n)
  {
    if n > 0 { ShrShr(w, m, n - 1); }
  }

  lemma {:induction false} ShrBound(w: nat, k: nat, n: nat)
    requires w < Pow2(k) && n <= k
    ensures Shr(w, n) < Pow2(k - n)
  {
    if n > 0 { ShrBound(w, k, n - 1); }
  }

  lemma {:induction false} ShrPlusPow2(w: nat, k: nat, n: nat)
    requires n <= k
    ensures Shr(w + Pow2(k), n) == Shr(w, n) + Pow2(k - n)
  {
    if n > 0 { ShrPlusPow2(w, k, n - 1); }
  }

  lemma Pow2Of64()
    ensures Pow2(8) == 0x100 && Pow2(63) == TWO64 / 2 && Pow2(64) == TWO64
  {
    Pow2Eight(0); Pow2Eight(8);
    assert Pow2(16) == 0x1_0000;
    Pow2Eight(16); Pow2Eight(24);
    assert Pow2(32) == 0x1_0000_0000;
    Pow2Eight(32); Pow2Eight(40);
    assert Pow2(48) == 0x1_0000_0000_0000;
    Pow2Eight(48); Pow2Eight(56);
    assert Pow2(64) == 2 * Pow2(63);
  }

  lemma Pow2Eight(n: nat)
    ensures Pow2(n + 8) == 0x100 * Pow2(n)
  {
    assert Pow2(n + 2) == 4 * Pow2(n);
    assert Pow2(n + 4) == 4 * Pow2(n + 2);
    assert Pow2(n + 6) == 4 * Pow2(n + 4);
  }
}
