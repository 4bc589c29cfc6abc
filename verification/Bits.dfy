/** Bits of non-negative integers: the shifts, masks and the bitwise "or" that the
    compressor applies to its registers, and what each does to single bits. */
module Bits {

  type byte = b: int | 0 <= b < 256

  /** Bit j of x, counting from the least significant one. */
  predicate BitAt(x: nat, j: nat) {
    if j == 0 then x % 2 == 1 else BitAt(x / 2, j - 1)
  }

  /** x << k: k doublings. */
  function ShiftLeft(x: nat, k: nat): nat
    decreases k
  {
    if k == 0 then x else ShiftLeft(2 * x, k - 1)
  }

  /** x >> k: k halvings. */
  function ShiftRight(x: nat, k: nat): nat {
    if k == 0 then x else ShiftRight(x / 2, k - 1)
  }

  /** x | y */
  function BitOr(x: nat, y: nat): nat {
    if x == 0 && y == 0 then 0
    else 2 * BitOr(x / 2, y / 2) + (if x % 2 == 1 || y % 2 == 1 then 1 else 0)
  }

  /** x ^ y */
  function BitXor(x: nat, y: nat): nat {
    if x == 0 && y == 0 then 0
    else 2 * BitXor(x / 2, y / 2) + (if x % 2 != y % 2 then 1 else 0)
  }

  function Pow2(k: nat): (p: nat)
    ensures p >= 1
  {
    if k == 0 then 1 else 2 * Pow2(k - 1)
  }

  /** x & (2^m - 1): the low m bits of x. */
  function LowBits(x: nat, m: nat): (r: nat)
    ensures r < Pow2(m)
  {
    if m == 0 then 0 else 2 * LowBits(x / 2, m - 1) + x % 2
  }

  const REGISTER_BITS: nat := 16
  const BYTE_BITS: nat := 8

  /** x & 0xFFFF */
  function Mask16(x: nat): nat { LowBits(x, REGISTER_BITS) }

  /** x & 0xFF */
  function Lo(x: nat): byte {
    Pow2At8And16();
    LowBits(x, BYTE_BITS)
  }

  /** (x >> 8) & 0xFF */
  function Hi(x: nat): byte { Lo(ShiftRight(x, BYTE_BITS)) }

  /** The two low bytes of x exchanged. */
  function Swap(x: nat): nat { Mask16(BitOr(Hi(x), ShiftLeft(Lo(x), BYTE_BITS))) }

  // ----- what the operations do to single bits

  lemma {:induction false} ZeroBits(j: nat)
    ensures !BitAt(0, j)
  {
    if j > 0 { ZeroBits(j - 1); }
  }

  lemma {:induction false} ShiftRightBit(x: nat, k: nat, j: nat)
    ensures BitAt(ShiftRight(x, k), j) == BitAt(x, j + k)
  {
    if k > 0 { ShiftRightBit(x / 2, k - 1, j); }
  }

  lemma {:induction false} ShiftLeftBit(x: nat, k: nat, j: nat)
    ensures BitAt(ShiftLeft(x, k), j) == (j >= k && BitAt(x, j - k))
    decreases k
  {
    if k > 0 { ShiftLeftBit(2 * x, k - 1, j); }
  }

  lemma {:induction false} BitOrBit(x: nat, y: nat, j: nat)
    ensures BitAt(BitOr(x, y), j) == (BitAt(x, j) || BitAt(y, j))
  {
    if x == 0 && y == 0 {
      ZeroBits(j);
    } else if j > 0 {
      BitOrBit(x / 2, y / 2, j - 1);
      assert BitOr(x, y) / 2 == BitOr(x / 2, y / 2);
    }
  }

  lemma {:induction false} LowBitsBit(x: nat, m: nat, j: nat)
    ensures BitAt(LowBits(x, m), j) == (j < m && BitAt(x, j))
  {
    if m == 0 {
      ZeroBits(j);
    } else if j > 0 {
      LowBitsBit(x / 2, m - 1, j - 1);
      assert LowBits(x, m) / 2 == LowBits(x / 2, m - 1);
    }
  }

  lemma HiBit(x: nat, j: nat)
    ensures BitAt(Hi(x), j) == (j < 8 && BitAt(x, j + 8))
  {
    LowBitsBit(ShiftRight(x, 8), 8, j);
    ShiftRightBit(x, 8, j);
  }

  lemma LoBit(x: nat, j: nat)
    ensures BitAt(Lo(x), j) == (j < 8 && BitAt(x, j))
  {
    LowBitsBit(x, 8, j);
  }

  lemma SwapBit(x: nat, j: nat)
    ensures BitAt(Swap(x), j) == (if j < 8 then BitAt(x, j + 8) else j < 16 && BitAt(x, j - 8))
  {
    LowBitsBit(BitOr(Hi(x), ShiftLeft(Lo(x), BYTE_BITS)), 16, j);
    BitOrBit(Hi(x), ShiftLeft(Lo(x), BYTE_BITS), j);
    ShiftLeftBit(Lo(x), 8, j);
    HiBit(x, j);
    if j >= 8 { LoBit(x, j - 8); }
  }

  lemma Pow2At8And16()
    ensures Pow2(8) == 256 && Pow2(15) == 0x8000 && Pow2(16) == 0x10000
  {
    assert Pow2(4) == 16;
    assert Pow2(8) == 256;
    assert Pow2(12) == 4096;
    assert Pow2(15) == 0x8000;
  }

  /** A number below 2^m has no bit at position m or above. */
  lemma {:induction false} NoHighBits(x: nat, m: nat, j: nat)
    requires x < Pow2(m) && j >= m
    ensures !BitAt(x, j)
  {
    if m == 0 { ZeroBits(j); } else { NoHighBits(x / 2, m - 1, j - 1); }
  }

  /** A number below 2^m is determined by its low m bits. */
  lemma {:induction false} BitsDetermine(x: nat, y: nat, m: nat)
    requires x < Pow2(m) && y < Pow2(m)
    requires forall j: nat | j < m :: BitAt(x, j) == BitAt(y, j)
    ensures x == y
  {
    if m > 0 {
      assert BitAt(x, 0) == BitAt(y, 0);
      forall j: nat | j < m - 1 ensures BitAt(x / 2, j) == BitAt(y / 2, j) {
        assert BitAt(x, j + 1) == BitAt(y, j + 1);
      }
      BitsDetermine(x / 2, y / 2, m - 1);
    }
  }

  /** Masking a number that already fits changes nothing. */
  lemma {:induction false} LowBitsFit(x: nat, m: nat)
    requires x < Pow2(m)
    ensures LowBits(x, m) == x
  {
    if m > 0 { LowBitsFit(x / 2, m - 1); }
  }

  lemma Mask16Fits(x: nat)
    requires x < 0x10000
    ensures Mask16(x) == x
  {
    Pow2At8And16();
    LowBitsFit(x, 16);
  }

  /** Adding the bit 2^m to a number below it. */
  lemma {:induction false} AddTopBit(x: nat, m: nat, j: nat)
    requires x < Pow2(m)
    ensures BitAt(x + Pow2(m), j) == (j == m || BitAt(x, j))
  {
    if m == 0 {
      if j > 0 { ZeroBits(j - 1); ZeroBits(j); }
    } else if j > 0 {
      AddTopBit(x / 2, m - 1, j - 1);
      assert (x + Pow2(m)) / 2 == x / 2 + Pow2(m - 1);
    }
  }

  lemma {:induction false} ShiftRightBound(x: nat, k: nat, a: nat)
    requires x < Pow2(a + k)
    ensures ShiftRight(x, k) < Pow2(a)
  {
    if k > 0 { ShiftRightBound(x / 2, k - 1, a); }
  }

  /** Numbers that agree from bit m upwards, the second one clear below: the first lies less
      than 2^m above it. */
  lemma {:induction false} SameHighBits(x: nat, y: nat, m: nat)
    requires forall j: nat | j >= m :: BitAt(x, j) == BitAt(y, j)
    requires forall j: nat | j < m :: !BitAt(y, j)
    requires x < Pow2(8) && y < Pow2(8)
    ensures y <= x < y + Pow2(m)
  {
    if m == 0 {
      BitsDetermine(x, y, 8);
    } else {
      assert !BitAt(y, 0);
      forall j: nat | j >= m - 1 ensures BitAt(x / 2, j) == BitAt(y / 2, j) {
        assert BitAt(x, j + 1) == BitAt(y, j + 1);
      }
      forall j: nat | j < m - 1 ensures !BitAt(y / 2, j) {
        assert !BitAt(y, j + 1);
      }
      SameHighBits(x / 2, y / 2, m - 1);
    }
  }

  /** Numbers with the same bits are equal. */
  lemma {:induction false} EqualBits(x: nat, y: nat)
    requires forall j: nat :: BitAt(x, j) == BitAt(y, j)
    ensures x == y
  {
    assert BitAt(x, 0) == BitAt(y, 0);
    if x > 0 || y > 0 {
      forall j: nat ensures BitAt(x / 2, j) == BitAt(y / 2, j) {
        assert BitAt(x, j + 1) == BitAt(y, j + 1);
      }
      EqualBits(x / 2, y / 2);
    }
  }

  /** The two bytes of a 16-bit number, put together again. */
  lemma TwoBytes(c: nat)
    requires c < 0x10000
    ensures BitOr(Lo(c), ShiftLeft(Hi(c), 8)) == c
  {
    Pow2At8And16();
    forall j: nat ensures BitAt(BitOr(Lo(c), ShiftLeft(Hi(c), 8)), j) == BitAt(c, j) {
      BitOrBit(Lo(c), ShiftLeft(Hi(c), 8), j);
      ShiftLeftBit(Hi(c), 8, j);
      LoBit(c, j);
      if j >= 8 { HiBit(c, j - 8); }
      if j >= 16 { NoHighBits(c, 16, j); }
    }
    EqualBits(BitOr(Lo(c), ShiftLeft(Hi(c), 8)), c);
  }

  /** Bit j of the byte at offset k of a number. */
  lemma ByteOfBit(n: nat, k: nat, j: nat)
    ensures BitAt(ShiftLeft(Lo(ShiftRight(n, k)), k), j) == (k <= j < k + 8 && BitAt(n, j))
  {
    ShiftLeftBit(Lo(ShiftRight(n, k)), k, j);
    if j >= k {
      LoBit(ShiftRight(n, k), j - k);
      ShiftRightBit(n, k, j - k);
    }
  }

  lemma Pow2At31()
    ensures Pow2(31) == 0x8000_0000
  {
    Pow2At8And16();
    assert Pow2(20) == 0x10_0000;
    assert Pow2(24) == 0x100_0000;
    assert Pow2(28) == 0x1000_0000;
  }

  /** The four bytes of a number below 2^31, put together again. */
  lemma FourBytes(n: nat)
    requires n < 0x8000_0000
    ensures BitOr(BitOr(BitOr(Lo(n), ShiftLeft(Lo(ShiftRight(n, 8)), 8)),
                        ShiftLeft(Lo(ShiftRight(n, 16)), 16)), ShiftLeft(Lo(ShiftRight(n, 24)), 24)) == n
  {
    var a, b := ShiftLeft(Lo(ShiftRight(n, 8)), 8), ShiftLeft(Lo(ShiftRight(n, 16)), 16);
    var c := ShiftLeft(Lo(ShiftRight(n, 24)), 24);
    var m := BitOr(BitOr(BitOr(Lo(n), a), b), c);
    Pow2At31();
    forall j: nat ensures BitAt(m, j) == BitAt(n, j) {
      BitOrBit(BitOr(BitOr(Lo(n), a), b), c, j);
      BitOrBit(BitOr(Lo(n), a), b, j);
      BitOrBit(Lo(n), a, j);
      LoBit(n, j);
      ByteOfBit(n, 8, j);
      ByteOfBit(n, 16, j);
      ByteOfBit(n, 24, j);
      if j >= 32 { NoHighBits(n, 31, j); }
    }
    EqualBits(m, n);
  }

  lemma {:induction false} BitOrBound(x: nat, y: nat, m: nat)
    requires x < Pow2(m) && y < Pow2(m)
    ensures BitOr(x, y) < Pow2(m)
    decreases m
  {
    if m > 0 && (x > 0 || y > 0) { BitOrBound(x / 2, y / 2, m - 1); }
  }

  lemma {:induction false} ShiftLeftBound(x: nat, k: nat, m: nat)
    requires x < Pow2(m)
    ensures ShiftLeft(x, k) < Pow2(m + k)
    decreases k
  {
    if k > 0 { ShiftLeftBound(2 * x, k - 1, m + 1); }
  }

  lemma {:induction false} Pow2Monotone(a: nat, b: nat)
    requires a <= b
    ensures Pow2(a) <= Pow2(b)
    decreases b - a
  {
    if a < b { Pow2Monotone(a, b - 1); }
  }

  lemma FourBytesBound(a: byte, b: byte, c: byte, d: byte)
    ensures BitOr(BitOr(BitOr(a, ShiftLeft(b, 8)), ShiftLeft(c, 16)), ShiftLeft(d, 24)) < 0x1_0000_0000
  {
    Pow2At8And16();
    Pow2At31();
    ShiftLeftBound(b, 8, 8);
    ShiftLeftBound(c, 16, 8);
    ShiftLeftBound(d, 24, 8);
    Pow2Monotone(8, 32);
    Pow2Monotone(16, 32);
    Pow2Monotone(24, 32);
    assert Pow2(32) == 2 * Pow2(31);
    BitOrBound(a, ShiftLeft(b, 8), 32);
    BitOrBound(BitOr(a, ShiftLeft(b, 8)), ShiftLeft(c, 16), 32);
    BitOrBound(BitOr(BitOr(a, ShiftLeft(b, 8)), ShiftLeft(c, 16)), ShiftLeft(d, 24), 32);
  }

  /** The low bits of a number and the others. */
  lemma {:induction false} LowAndRest(n: nat, k: nat)
    ensures n == LowBits(n, k) + Pow2(k) * ShiftRight(n, k)
  {
    if k > 0 {
      LowAndRest(n / 2, k - 1);
      Twice(Pow2(k - 1), ShiftRight(n / 2, k - 1));
    } else {
      assert 1 * ShiftRight(n, 0) == n;
    }
  }

  lemma Twice(a: nat, b: nat)
    ensures (2 * a) * b == 2 * (a * b)
  {
  }

  lemma Quotient(x: nat, d: nat, q: nat, r: nat)
    requires x == d * q + r && r < d
    ensures x / d == q && x % d == r
  {
    var q', r' := x / d, x % d;
    assert d * (q - q') == r' - r by {
      assert x == d * q' + r';
      assert d * (q - q') == d * q - d * q';
    }
    if q' < q { AtLeast(d, q - q'); }
    if q' > q {
      assert d * (q' - q) == 0 - d * (q - q');
      AtLeast(d, q' - q);
    }
  }

  lemma AtLeast(d: nat, k: nat)
    requires k >= 1
    ensures d * k >= d
  {
    assert d * k == d * (k - 1) + d;
  }

  lemma LowBitsRemain(x: nat, m: nat)
    ensures LowBits(x, m) == x % Pow2(m)
  {
    LowAndRest(x, m);
    Quotient(x, Pow2(m), ShiftRight(x, m), LowBits(x, m));
  }

  lemma {:induction false} OnlyBit(m: nat, j: nat)
    ensures BitAt(Pow2(m), j) == (j == m)
  {
    if m == 0 {
      if j > 0 { ZeroBits(j - 1); }
    } else if j > 0 {
      OnlyBit(m - 1, j - 1);
    }
  }
}
