/** The code of a match position: a prefix code for its upper six bits, then its lower six. */
module Positions {
  import opened Bits
  import opened BitStreams
  import opened PositionTables

  function UpperBits(i: nat): (b: seq<bool>)
    requires i < 64
    ensures 3 <= |b| <= 8
  {
    EncoderTables(i);
    seq(PLen(i), k requires 0 <= k < PLen(i) => ByteBit(PCode(i), k))
  }

  function LowerBits(c: nat): (b: seq<bool>)
    ensures |b| == 6
  {
    seq(6, k requires 0 <= k < 6 => BitAt(c, 5 - k))
  }

  function UpperPart(c: nat): (i: nat)
    requires c < 0x1000
    ensures i < 64
  {
    Pow2Small();
    ShiftRightBound(c, 6, 6);
    ShiftRight(c, 6)
  }

  lemma Pow2Small()
    ensures Pow2(6) == 64 && Pow2(12) == 0x1000 && Pow2(8) == 256 && Pow2(16) == 0x10000
  {
    assert Pow2(3) == 8;
    Pow2At8And16();
    assert Pow2(9) == 512;
  }

  /** The code bits of position c. */
  function PositionBits(c: nat): (b: seq<bool>)
    requires c < 0x1000
    ensures 9 <= |b| <= 14
  {
    UpperBits(UpperPart(c)) + LowerBits(c)
  }

  // ----- the encoder's two code words

  lemma WordClear(i: nat, j: nat)
    requires i < 64 && j < 8 - Len(i)
    ensures !BitAt(Word(i), j)
  {
    var y := if i < 1 then 0 else if i < 4 then i + 1 else if i < 12 then i + 6
             else if i < 24 then i + 24 else if i < 48 then i + 72 else Word(i);
    assert Word(i) == ShiftLeft(y, 8 - Len(i)) by {
      assert ShiftLeft(y, 4) == 16 * y && ShiftLeft(y, 3) == 8 * y && ShiftLeft(y, 2) == 4 * y;
      assert ShiftLeft(0, 5) == 0;
    }
    ShiftLeftBit(y, 8 - Len(i), j);
  }

  lemma UpperIsCode(i: nat)
    requires i < 64
    ensures IsCode(ShiftLeft(PCode(i), 8), UpperBits(i)) && |UpperBits(i)| == PLen(i)
  {
    EncoderTables(i);
    var w := PCode(i);
    assert w < 256;
    ShiftLeftBy8(w);
    forall k: nat | k < 16 ensures RegBit(ShiftLeft(w, 8), k) == (k < PLen(i) && ByteBit(w, k)) {
      ShiftLeftBit(w, 8, 15 - k);
      if PLen(i) <= k < 8 { WordClear(i, 7 - k); }
    }
  }

  lemma ShiftLeftBy8(w: nat)
    ensures ShiftLeft(w, 8) == 256 * w
  {
    assert ShiftLeft(w, 4) == 16 * w && ShiftLeft(16 * w, 4) == 256 * w;
    ShiftLeftTwice(w, 4, 4);
  }

  lemma {:induction false} ShiftLeftTwice(x: nat, a: nat, b: nat)
    ensures ShiftLeft(ShiftLeft(x, a), b) == ShiftLeft(x, a + b)
    decreases a
  {
    if a > 0 { ShiftLeftTwice(2 * x, a - 1, b); }
  }

  lemma LowerIsCode(c: nat)
    ensures IsCode(ShiftLeft(LowBits(c, 6), 10), LowerBits(c))
  {
    var x := LowBits(c, 6);
    Pow2Small();
    assert ShiftLeft(x, 10) == 1024 * x by {
      assert ShiftLeft(x, 5) == 32 * x;
      assert ShiftLeft(32 * x, 5) == 1024 * x;
      ShiftLeftTwice(x, 5, 5);
    }
    forall k: nat | k < 16 ensures RegBit(ShiftLeft(x, 10), k) == (k < 6 && BitAt(c, 5 - k)) {
      ShiftLeftBit(x, 10, 15 - k);
      if k < 6 { LowBitsBit(c, 6, 5 - k); }
    }
  }

  // ----- the decoder's lookup and bit loop

  /** A byte that starts with the code of i is looked up as i. */
  lemma LookUp(b: byte, i: nat)
    requires i < 64
    requires forall k: nat | k < |UpperBits(i)| :: ByteBit(b, k) == UpperBits(i)[k]
    ensures DCode(b) == i && DLen(b) == |UpperBits(i)|
  {
    EncoderTables(i);
    DecoderTables(b);
    Pow2Small();
    var n, w := Len(i), Word(i);
    forall j: nat | j >= 8 - n ensures BitAt(b, j) == BitAt(w, j) {
      if j < 8 {
        assert ByteBit(b, 7 - j) == UpperBits(i)[7 - j];
      } else {
        NoHighBits(b, 8, j);
        NoHighBits(w, 8, j);
      }
    }
    forall j: nat | j < 8 - n ensures !BitAt(w, j) { WordClear(i, j); }
    SameHighBits(b, w, 8 - n);
    assert Pow2(0) == 1 && Pow2(1) == 2 && Pow2(2) == 4 && Pow2(3) == 8 && Pow2(4) == 16 && Pow2(5) == 32;
  }

  /** The low bits of x are the n stream bits from pos on, the last of them lowest. */
  ghost predicate Gathered(x: nat, s: seq<byte>, pos: nat, n: nat) {
    forall j: nat | j < n :: BitAt(x, j) == StreamBit(s, pos + (n - 1 - j))
  }

  lemma GatherStart(b: byte, s: seq<byte>, pos: nat)
    requires forall k: nat | k < 8 :: ByteBit(b, k) == StreamBit(s, pos + k)
    ensures Gathered(b, s, pos, 8)
  {
    forall j: nat | j < 8 ensures BitAt(b, j) == StreamBit(s, pos + (8 - 1 - j)) {
      assert ByteBit(b, 7 - j) == StreamBit(s, pos + (7 - j));
    }
  }

  lemma GatherStep(x: nat, s: seq<byte>, pos: nat, n: nat, bit: nat)
    requires Gathered(x, s, pos, n) && n < 16
    requires bit == if StreamBit(s, pos + n) then 1 else 0
    ensures Gathered(Mask16(BitOr(ShiftLeft(x, 1), bit)), s, pos, n + 1)
  {
    forall j: nat | j < n + 1
      ensures BitAt(Mask16(BitOr(ShiftLeft(x, 1), bit)), j) == StreamBit(s, pos + (n - j))
    {
      LowBitsBit(BitOr(ShiftLeft(x, 1), bit), 16, j);
      BitOrBit(ShiftLeft(x, 1), bit, j);
      ShiftLeftBit(x, 1, j);
      if j > 0 {
        ZeroBits(j - 1);
        assert BitAt(x, j - 1) == StreamBit(s, pos + (n - 1 - (j - 1)));
      }
    }
  }

  lemma ReassembleBit(c: nat, x: nat, s: seq<byte>, pos: nat, j: nat)
    requires c < 0x1000 && BitsAt(s, pos, PositionBits(c))
    requires Gathered(x, s, pos, |PositionBits(c)|)
    ensures BitAt(BitOr(Mask16(ShiftLeft(UpperPart(c), 6)), LowBits(x, 6)), j) == (j < 16 && BitAt(c, j))
  {
    BitOrBit(Mask16(ShiftLeft(UpperPart(c), 6)), LowBits(x, 6), j);
    LowBitsBit(ShiftLeft(UpperPart(c), 6), 16, j);
    ShiftLeftBit(UpperPart(c), 6, j);
    LowBitsBit(x, 6, j);
    if j < 6 {
      var k := |PositionBits(c)| - 1 - j;
      assert PositionBits(c)[k] == LowerBits(c)[5 - j];
      assert StreamBit(s, pos + k) == PositionBits(c)[k];
    } else {
      ShiftRightBit(c, 6, j - 6);
    }
  }

  /** Upper bits from the table, lower bits from the stream: the position is put together again. */
  lemma Reassemble(c: nat, x: nat, s: seq<byte>, pos: nat)
    requires c < 0x1000 && BitsAt(s, pos, PositionBits(c))
    requires Gathered(x, s, pos, |PositionBits(c)|)
    ensures BitOr(Mask16(ShiftLeft(UpperPart(c), 6)), LowBits(x, 6)) == c
  {
    var y := BitOr(Mask16(ShiftLeft(UpperPart(c), 6)), LowBits(x, 6));
    forall j: nat ensures BitAt(y, j) == (j < 16 && BitAt(c, j)) {
      ReassembleBit(c, x, s, pos, j);
    }
    SameBits(y, c);
  }

  /** A number with no bits but the 16 of another is that other. */
  lemma {:induction false} SameBits(x: nat, y: nat)
    requires forall j: nat :: BitAt(x, j) == (j < 16 && BitAt(y, j))
    requires y < 0x10000
    ensures x == y
  {
    Pow2Small();
    forall j: nat ensures BitAt(x, j) == BitAt(y, j) {
      if j >= 16 { NoHighBits(y, 16, j); }
    }
    EqualBits(x, y);
  }
}
