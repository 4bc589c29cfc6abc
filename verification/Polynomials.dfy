/** Polynomials over two elements, as bit patterns of w bits: multiplication by X modulo a generator,
    bit-serial division, and the 256-entry tables that do eight of its steps at once. */
module Polynomials {
  import opened Bits

  // ----- exclusive or

  lemma {:induction false} BitXorBit(x: nat, y: nat, j: nat)
    ensures BitAt(BitXor(x, y), j) == (BitAt(x, j) != BitAt(y, j))
  {
    if x == 0 && y == 0 {
      ZeroBits(j);
    } else if j > 0 {
      BitXorBit(x / 2, y / 2, j - 1);
      assert BitXor(x, y) / 2 == BitXor(x / 2, y / 2);
    }
  }

  lemma {:induction false} BitXorBound(x: nat, y: nat, m: nat)
    requires x < Pow2(m) && y < Pow2(m)
    ensures BitXor(x, y) < Pow2(m)
    decreases m
  {
    if m > 0 && (x > 0 || y > 0) { BitXorBound(x / 2, y / 2, m - 1); }
  }

  lemma XorCommutes(x: nat, y: nat)
    ensures BitXor(x, y) == BitXor(y, x)
  {
    forall j: nat ensures BitAt(BitXor(x, y), j) == BitAt(BitXor(y, x), j) {
      BitXorBit(x, y, j);
      BitXorBit(y, x, j);
    }
    EqualBits(BitXor(x, y), BitXor(y, x));
  }

  lemma XorAssociates(x: nat, y: nat, z: nat)
    ensures BitXor(BitXor(x, y), z) == BitXor(x, BitXor(y, z))
  {
    var a, b := BitXor(BitXor(x, y), z), BitXor(x, BitXor(y, z));
    forall j: nat ensures BitAt(a, j) == BitAt(b, j) {
      BitXorBit(BitXor(x, y), z, j);
      BitXorBit(x, y, j);
      BitXorBit(x, BitXor(y, z), j);
      BitXorBit(y, z, j);
    }
    EqualBits(a, b);
  }

  lemma XorZero(x: nat)
    ensures BitXor(x, 0) == x && BitXor(0, x) == x
  {
    forall j: nat ensures BitAt(BitXor(x, 0), j) == BitAt(x, j) {
      BitXorBit(x, 0, j);
      ZeroBits(j);
    }
    EqualBits(BitXor(x, 0), x);
    XorCommutes(x, 0);
  }

  lemma {:induction false} ShiftLeftXor(x: nat, y: nat, k: nat)
    ensures ShiftLeft(BitXor(x, y), k) == BitXor(ShiftLeft(x, k), ShiftLeft(y, k))
    decreases k
  {
    if k > 0 {
      assert BitXor(2 * x, 2 * y) == 2 * BitXor(x, y);
      ShiftLeftXor(2 * x, 2 * y, k - 1);
    }
  }

  // ----- multiplication by X

  /** x times X modulo the generator X^w + poly. */
  function Times(x: nat, w: nat, poly: nat): nat
    requires w > 0
  {
    BitXor(LowBits(2 * x, w), if BitAt(x, w - 1) then poly else 0)
  }

  lemma TimesBit(x: nat, w: nat, poly: nat, j: nat)
    requires w > 0
    ensures BitAt(Times(x, w, poly), j) == ((0 < j < w && BitAt(x, j - 1)) != (BitAt(x, w - 1) && BitAt(poly, j)))
  {
    BitXorBit(LowBits(2 * x, w), if BitAt(x, w - 1) then poly else 0, j);
    LowBitsBit(2 * x, w, j);
    ZeroBits(j);
    if j > 0 { assert BitAt(2 * x, j) == BitAt(x, j - 1); }
  }

  lemma XorBits(x: nat, y: nat, top: nat, j: nat)
    ensures BitAt(BitXor(x, y), top) == (BitAt(x, top) != BitAt(y, top))
    ensures j > 0 ==> BitAt(BitXor(x, y), j - 1) == (BitAt(x, j - 1) != BitAt(y, j - 1))
  {
    BitXorBit(x, y, top);
    if j > 0 { BitXorBit(x, y, j - 1); }
  }

  lemma {:induction false} TimesXorBit(x: nat, y: nat, w: nat, poly: nat, j: nat)
    requires w > 0
    ensures BitAt(Times(BitXor(x, y), w, poly), j) == BitAt(BitXor(Times(x, w, poly), Times(y, w, poly)), j)
  {
    TimesBit(BitXor(x, y), w, poly, j);
    BitXorBit(Times(x, w, poly), Times(y, w, poly), j);
    TimesBit(x, w, poly, j);
    TimesBit(y, w, poly, j);
    XorBits(x, y, w - 1, j);
  }

  lemma TimesXor(x: nat, y: nat, w: nat, poly: nat)
    requires w > 0
    ensures Times(BitXor(x, y), w, poly) == BitXor(Times(x, w, poly), Times(y, w, poly))
  {
    var a, b := Times(BitXor(x, y), w, poly), BitXor(Times(x, w, poly), Times(y, w, poly));
    forall j: nat ensures BitAt(a, j) == BitAt(b, j) { TimesXorBit(x, y, w, poly, j); }
    EqualBits(a, b);
  }

  /** Without overflow it is doubling. */
  lemma TimesDoubles(x: nat, w: nat, poly: nat)
    requires w > 0 && x < Pow2(w - 1)
    ensures Times(x, w, poly) == 2 * x
  {
    NoHighBits(x, w - 1, w - 1);
    LowBitsFit(2 * x, w);
    XorZero(2 * x);
  }

  lemma TimesBound(x: nat, w: nat, poly: nat)
    requires w > 0 && poly < Pow2(w)
    ensures Times(x, w, poly) < Pow2(w)
  {
    BitXorBound(LowBits(2 * x, w), if BitAt(x, w - 1) then poly else 0, w);
  }

  /** n times X. */
  function Power(x: nat, n: nat, w: nat, poly: nat): nat
    requires w > 0
    decreases n
  {
    if n == 0 then x else Power(Times(x, w, poly), n - 1, w, poly)
  }

  lemma {:induction false} PowerXor(x: nat, y: nat, n: nat, w: nat, poly: nat)
    requires w > 0
    ensures Power(BitXor(x, y), n, w, poly) == BitXor(Power(x, n, w, poly), Power(y, n, w, poly))
    decreases n
  {
    if n > 0 {
      TimesXor(x, y, w, poly);
      PowerXor(Times(x, w, poly), Times(y, w, poly), n - 1, w, poly);
    }
  }

  lemma {:induction false} PowerPower(x: nat, a: nat, b: nat, w: nat, poly: nat)
    requires w > 0
    ensures Power(x, a + b, w, poly) == Power(Power(x, a, w, poly), b, w, poly)
    decreases a
  {
    if a > 0 { PowerPower(Times(x, w, poly), a - 1, b, w, poly); }
  }

  lemma TimesPower(x: nat, n: nat, w: nat, poly: nat)
    requires w > 0
    ensures Times(Power(x, n, w, poly), w, poly) == Power(x, n + 1, w, poly)
  {
    PowerPower(x, n, 1, w, poly);
    assert Power(Power(x, n, w, poly), 1, w, poly) == Power(Times(Power(x, n, w, poly), w, poly), 0, w, poly);
  }

  lemma {:induction false} PowerShifts(x: nat, n: nat, w: nat, poly: nat)
    requires 0 < w && n <= w && x < Pow2(w - n)
    ensures Power(x, n, w, poly) == ShiftLeft(x, n)
    decreases n
  {
    if n > 0 {
      Pow2Monotone(w - n, w - 1);
      TimesDoubles(x, w, poly);
      PowerShifts(2 * x, n - 1, w, poly);
    }
  }

  lemma {:induction false} PowerBound(x: nat, n: nat, w: nat, poly: nat)
    requires w > 0 && x < Pow2(w) && poly < Pow2(w)
    ensures Power(x, n, w, poly) < Pow2(w)
    decreases n
  {
    if n > 0 {
      TimesBound(x, w, poly);
      PowerBound(Times(x, w, poly), n - 1, w, poly);
    }
  }

  // ----- bit-serial division

  /** The remainder register after the bits, the first bit first, each added at the top. */
  function Serial(start: nat, bits: seq<bool>, w: nat, poly: nat): nat
    requires w > 0
  {
    if bits == [] then start
    else
      var before := Serial(start, bits[..|bits| - 1], w, poly);
      Times(BitXor(before, if bits[|bits| - 1] then Pow2(w - 1) else 0), w, poly)
  }

  /** Up to w bits, as they lie at the top of the register. */
  function AtTop(bits: seq<bool>, w: nat): nat
    requires |bits| <= w
  {
    if bits == [] then 0
    else BitXor(AtTop(bits[..|bits| - 1], w), if bits[|bits| - 1] then Pow2(w - |bits|) else 0)
  }

  lemma {:induction false} ShiftLeftPow2(m: nat, k: nat)
    ensures ShiftLeft(Pow2(m), k) == Pow2(m + k) && ShiftLeft(0, k) == 0
    decreases k
  {
    if k > 0 {
      assert 2 * Pow2(m) == Pow2(m + 1);
      ShiftLeftPow2(m + 1, k - 1);
    }
  }

  /** Up to w bits divided at once: they are added to the register, and X is multiplied in for each. */
  lemma {:induction false} SerialAtOnce(start: nat, bits: seq<bool>, w: nat, poly: nat)
    requires w > 0 && |bits| <= w
    ensures Serial(start, bits, w, poly) == Power(BitXor(start, AtTop(bits, w)), |bits|, w, poly)
  {
    if bits == [] {
      XorZero(start);
    } else {
      var n := |bits| - 1;
      var init, b := bits[..n], if bits[n] then Pow2(w - |bits|) else 0;
      var t := if bits[n] then Pow2(w - 1) else 0;
      SerialAtOnce(start, init, w, poly);
      Pow2Monotone(0, w - n);
      assert b < Pow2(w - n) by { if bits[n] { assert Pow2(w - n) == 2 * Pow2(w - n - 1); } }
      PowerShifts(b, n, w, poly);
      ShiftLeftPow2(w - |bits|, n);
      assert Power(b, n, w, poly) == t;
      var x := BitXor(start, AtTop(init, w));
      PowerXor(x, b, n, w, poly);
      XorAssociates(start, AtTop(init, w), b);
      TimesPower(BitXor(x, b), n, w, poly);
    }
  }

  lemma {:induction false} SerialInTwo(start: nat, a: seq<bool>, b: seq<bool>, w: nat, poly: nat)
    requires w > 0
    ensures Serial(start, a + b, w, poly) == Serial(Serial(start, a, w, poly), b, w, poly)
  {
    if b == [] {
      assert a + b == a;
    } else {
      assert (a + b)[..|a + b| - 1] == a + b[..|b| - 1];
      SerialInTwo(start, a, b[..|b| - 1], w, poly);
    }
  }

  // ----- tables

  /** What eight steps make of a byte at the top of the register. */
  function Entry(x: nat, w: nat, poly: nat): nat
    requires w >= 8
  {
    Power(ShiftLeft(x, w - 8), 8, w, poly)
  }

  lemma {:induction false} ShiftLeftDouble(x: nat, k: nat)
    ensures ShiftLeft(2 * x, k) == 2 * ShiftLeft(x, k)
    decreases k
  {
    if k > 0 { ShiftLeftDouble(2 * x, k - 1); }
  }

  lemma EntryDouble(x: nat, w: nat, poly: nat)
    requires w >= 8 && x < 128
    ensures Entry(2 * x, w, poly) == Times(Entry(x, w, poly), w, poly)
  {
    var y := ShiftLeft(x, w - 8);
    ShiftLeftDouble(x, w - 8);
    Pow2At8And16();
    assert Pow2(7) == 128;
    ShiftLeftBound(x, w - 8, 7);
    TimesDoubles(y, w, poly);
    TimesPower(y, 8, w, poly);
    assert Power(y, 9, w, poly) == Power(Times(y, w, poly), 8, w, poly);
  }

  lemma EntryOfOne(w: nat, poly: nat)
    requires w >= 8
    ensures Entry(1, w, poly) == poly && Entry(0, w, poly) == 0
  {
    var y := ShiftLeft(1, w - 8);
    assert Pow2(0) == 1;
    ShiftLeftPow2(0, w - 8);
    Pow2Below(w - 8, w - 7);
    PowerShifts(y, 7, w, poly);
    ShiftLeftPow2(w - 8, 7);
    TimesPower(y, 7, w, poly);
    TopTimes(w, poly);
    Pow2Below(0, w);
    PowerShifts(0, 8, w, poly);
    ShiftLeftPow2(0, 8);
  }

  lemma {:induction false} Pow2Below(a: nat, b: nat)
    requires a < b
    ensures Pow2(a) < Pow2(b) && Pow2(b - a) > 0
  {
    Pow2Monotone(a + 1, b);
  }

  lemma TopTimes(w: nat, poly: nat)
    requires w > 0
    ensures Times(Pow2(w - 1), w, poly) == poly
  {
    Pow2Bit(w - 1);
    LowBitsOfPow2(w);
    XorZero(poly);
  }

  lemma {:induction false} Pow2Bit(m: nat)
    ensures BitAt(Pow2(m), m)
  {
    if m > 0 { Pow2Bit(m - 1); }
  }

  lemma {:induction false} LowBitsOfPow2(w: nat)
    ensures LowBits(Pow2(w), w) == 0
  {
    if w > 0 { LowBitsOfPow2(w - 1); }
  }

  lemma OddIs(x: nat)
    ensures BitXor(2 * x, 1) == 2 * x + 1
  {
    assert BitXor(2 * x, 1) == 2 * BitXor(x, 0) + 1;
    XorZero(x);
  }

  lemma EntryXor(x: nat, y: nat, w: nat, poly: nat, k: nat, n: nat)
    requires w >= 8 && k == w - 8 && n == 8
    ensures Entry(BitXor(x, y), w, poly) == BitXor(Entry(x, w, poly), Entry(y, w, poly))
  {
    EntryIs(x, w, poly, k, n);
    EntryIs(y, w, poly, k, n);
    EntryIs(BitXor(x, y), w, poly, k, n);
    ShiftLeftXor(x, y, k);
    PowerXor(ShiftLeft(x, k), ShiftLeft(y, k), n, w, poly);
  }

  lemma EntryIs(x: nat, w: nat, poly: nat, k: nat, n: nat)
    requires w >= 8 && k == w - 8 && n == 8
    ensures Entry(x, w, poly) == Power(ShiftLeft(x, k), n, w, poly)
  {
  }

  lemma EntryOdd(x: nat, w: nat, poly: nat)
    requires w >= 8
    ensures Entry(2 * x + 1, w, poly) == BitXor(Entry(2 * x, w, poly), poly)
  {
    OddIs(x);
    EntryXor(2 * x, 1, w, poly, w - 8, 8);
    EntryOfOne(w, poly);
  }

  /** A table whose entries come from one another by multiplication with X. */
  ghost predicate Generated(table: seq<nat>, w: nat, poly: nat) {
    w >= 8 && |table| == 256 && table[0] == 0 && forall x: nat | x < 128 :: PairOk(table, w, poly, x)
  }

  ghost predicate PairOk(table: seq<nat>, w: nat, poly: nat, x: nat)
    requires w > 0 && |table| == 256 && x < 128
  {
    table[2 * x] == Times(table[x], w, poly) && table[2 * x + 1] == BitXor(table[2 * x], poly)
  }

  /** Such a table holds eight steps of the division for every byte. */
  lemma {:induction false} GeneratedEntry(table: seq<nat>, w: nat, poly: nat, x: nat)
    requires Generated(table, w, poly) && x < 256
    ensures table[x] == Entry(x, w, poly)
  {
    if x == 0 {
      EntryOfOne(w, poly);
    } else {
      var h := x / 2;
      GeneratedEntry(table, w, poly, h);
      EntryDouble(h, w, poly);
      EntryOdd(h, w, poly);
      assert PairOk(table, w, poly, h);
      assert x == 2 * h || x == 2 * h + 1;
    }
  }
}
