/** The table-driven CRCs of the mail compressor and of SBC, as remainders of a bit-serial division. */
module Crcs {
  import opened Bits
  import opened Binary
  import opened Crc
  import opened Polynomials
  import opened CrcTables

  /** The first n bits of a byte at the top of a register of w bits. */
  lemma {:induction false} AtTopBit(c: byte, n: nat, w: nat, j: nat)
    requires n <= 8 <= w
    ensures BitAt(AtTop(ByteBits(c)[..n], w), j) == (w - n <= j < w && BitAt(c, 8 + j - w))
  {
    var bits := ByteBits(c)[..n];
    if n == 0 {
      ZeroBits(j);
    } else {
      assert bits[..n - 1] == ByteBits(c)[..n - 1];
      AtTopBit(c, n - 1, w, j);
      var b := if bits[n - 1] then Pow2(w - n) else 0;
      BitXorBit(AtTop(bits[..n - 1], w), b, j);
      OnlyBit(w - n, j);
      ZeroBits(j);
    }
  }

  lemma ByteAtTop(c: byte, w: nat)
    requires w >= 8
    ensures AtTop(ByteBits(c), w) == ShiftLeft(c, w - 8)
  {
    Pow2At8And16();
    assert ByteBits(c)[..8] == ByteBits(c);
    forall j: nat ensures BitAt(AtTop(ByteBits(c), w), j) == BitAt(ShiftLeft(c, w - 8), j) {
      AtTopBit(c, 8, w, j);
      ShiftLeftBit(c, w - 8, j);
      if j >= w { NoHighBits(c, 8, 8 + j - w); }
    }
    EqualBits(AtTop(ByteBits(c), w), ShiftLeft(c, w - 8));
  }

  // ----- the compressor's CRC

  /** A 16-bit register multiplied by X^8: its low byte moves up, its high byte is looked up. */
  lemma EightSteps16(table: CrcTable, x: nat)
    requires Generated(table, 16, POLY_16) && x < 0x10000
    ensures Power(x, 8, 16, POLY_16) == BitXor(ShiftLeft(Lo(x), 8), table[Hi(x)])
  {
    var h, l := Hi(x), Lo(x);
    Pow2At8And16();
    GeneratedEntry(table, 16, POLY_16, h);
    PowerShifts(l, 8, 16, POLY_16);
    HighAndLow(x);
    PowerXor(l, ShiftLeft(h, 8), 8, 16, POLY_16);
  }

  lemma HighAndLow(x: nat)
    requires x < 0x10000
    ensures x == BitXor(Lo(x), ShiftLeft(Hi(x), 8))
  {
    Pow2At8And16();
    forall j: nat ensures BitAt(x, j) == BitAt(BitXor(Lo(x), ShiftLeft(Hi(x), 8)), j) {
      BitXorBit(Lo(x), ShiftLeft(Hi(x), 8), j);
      ShiftLeftBit(Hi(x), 8, j);
      LoBit(x, j);
      if j >= 8 { HiBit(x, j - 8); }
      if j >= 16 { NoHighBits(x, 16, j); }
    }
    EqualBits(x, BitXor(Lo(x), ShiftLeft(Hi(x), 8)));
  }

  /** A step of doCRC is eight steps of the division. */
  lemma StepDivides(crc: nat, c: byte)
    requires crc < 0x10000
    ensures Step(CompressorTable(), crc, c) == Power(BitXor(crc, ShiftLeft(c, 8)), 8, 16, POLY_16) < 0x10000
  {
    CompressorTableGenerated();
    StepOf(CompressorTable(), crc, c);
  }

  lemma StepOf(table: CrcTable, crc: nat, c: byte)
    requires Generated(table, 16, POLY_16) && crc < 0x10000
    ensures Step(table, crc, c) == Power(BitXor(crc, ShiftLeft(c, 8)), 8, 16, POLY_16)
    ensures Step(table, crc, c) < 0x10000
  {
    Pow2At8And16();
    var x := BitXor(crc, ShiftLeft(c, 8));
    ShiftLeftBound(c, 8, 8);
    BitXorBound(crc, ShiftLeft(c, 8), 16);
    EightSteps16(table, x);
    StepBytes(crc, c);
    EntryBound(table, Hi(x));
    ShiftLeftBound(Lo(x), 8, 8);
    BitXorBound(ShiftLeft(Lo(x), 8), table[Hi(x)], 16);
    StepMasks(crc, table[Hi(x)]);
  }

  lemma StepMasks(crc: nat, t: nat)
    requires t < 0x10000
    ensures Mask16(BitXor(ShiftLeft(crc, 8), t)) == BitXor(ShiftLeft(Lo(crc), 8), t)
  {
    Pow2At8And16();
    var a, b := Mask16(BitXor(ShiftLeft(crc, 8), t)), BitXor(ShiftLeft(Lo(crc), 8), t);
    forall j: nat ensures BitAt(a, j) == BitAt(b, j) {
      LowBitsBit(BitXor(ShiftLeft(crc, 8), t), 16, j);
      BitXorBit(ShiftLeft(crc, 8), t, j);
      BitXorBit(ShiftLeft(Lo(crc), 8), t, j);
      ShiftLeftBit(crc, 8, j);
      ShiftLeftBit(Lo(crc), 8, j);
      if j >= 8 { LoBit(crc, j - 8); }
      if j >= 16 { NoHighBits(t, 16, j); }
    }
    EqualBits(a, b);
  }

  lemma EntryBound(table: CrcTable, x: nat)
    requires Generated(table, 16, POLY_16) && x < 256
    ensures table[x] < 0x10000
  {
    Pow2At8And16();
    GeneratedEntry(table, 16, POLY_16, x);
    ShiftLeftBound(x, 8, 8);
    PowerBound(ShiftLeft(x, 8), 8, 16, POLY_16);
  }

  lemma StepBytes(crc: nat, c: byte)
    requires crc < 0x10000
    ensures var x := BitXor(crc, ShiftLeft(c, 8));
            Hi(x) == Lo(BitXor(ShiftRight(crc, 8), c)) && Lo(x) == Lo(crc)
  {
    var x, y := BitXor(crc, ShiftLeft(c, 8)), BitXor(ShiftRight(crc, 8), c);
    Pow2At8And16();
    forall j: nat | j < 8 ensures BitAt(Hi(x), j) == BitAt(Lo(y), j) && BitAt(Lo(x), j) == BitAt(Lo(crc), j) {
      HiBit(x, j);
      LoBit(x, j);
      LoBit(y, j);
      LoBit(crc, j);
      BitXorBit(crc, ShiftLeft(c, 8), j + 8);
      BitXorBit(crc, ShiftLeft(c, 8), j);
      ShiftLeftBit(c, 8, j + 8);
      ShiftLeftBit(c, 8, j);
      BitXorBit(ShiftRight(crc, 8), c, j);
      ShiftRightBit(crc, 8, j);
    }
    BitsDetermine(Hi(x), Lo(y), 8);
    BitsDetermine(Lo(x), Lo(crc), 8);
  }

  /** The CRC of the compressed stream is the remainder of the division of its bits. */
  lemma CrcIsRemainder(s: seq<byte>)
    ensures CrcOf(CompressorTable(), s) == Serial(0, BytesBits(s), 16, POLY_16) < 0x10000
  {
    CompressorTableGenerated();
    RemainderOf(CompressorTable(), s);
  }

  lemma {:induction false} RemainderOf(table: CrcTable, s: seq<byte>)
    requires Generated(table, 16, POLY_16)
    ensures CrcOf(table, s) == Serial(0, BytesBits(s), 16, POLY_16) && CrcOf(table, s) < 0x10000
  {
    if s != [] {
      var init, c := s[..|s| - 1], s[|s| - 1];
      RemainderOf(table, init);
      SerialInTwo(0, BytesBits(init), ByteBits(c), 16, POLY_16);
      SerialAtOnce(CrcOf(table, init), ByteBits(c), 16, POLY_16);
      ByteAtTop(c, 16);
      StepOf(table, CrcOf(table, init), c);
    }
  }

  // ----- the CRC with two zero bytes appended

  /** udpCRC16. Of the sum shifted left by eight the low byte is clear, so keeping the second byte is
      keeping 16 bits. */
  function Udp(table: CrcTable, c: byte, sum: nat): nat {
    Mask16(BitXor(BitXor(Mask16(ShiftLeft(sum, 8)), table[Lo(ShiftRight(sum, 8))]), c))
  }

  function Sum(table: CrcTable, s: seq<byte>): nat {
    if s == [] then 0 else Udp(table, s[|s| - 1], Sum(table, s[..|s| - 1]))
  }

  /** WinlinkCrc16.compute */
  function Compute(table: CrcTable, p: seq<byte>): nat { Sum(table, p + [0, 0]) }

  lemma UdpDivides(table: CrcTable, c: byte, sum: nat)
    requires Generated(table, 16, POLY_16) && sum < 0x10000
    ensures Udp(table, c, sum) == BitXor(Power(sum, 8, 16, POLY_16), c) && Udp(table, c, sum) < 0x10000
  {
    Pow2At8And16();
    EightSteps16(table, sum);
    EntryBound(table, Hi(sum));
    StepMasks(sum, 0);
    XorZero(ShiftLeft(sum, 8));
    XorZero(ShiftLeft(Lo(sum), 8));
    ShiftLeftBound(Lo(sum), 8, 8);
    BitXorBound(ShiftLeft(Lo(sum), 8), table[Hi(sum)], 16);
    BitXorBound(Power(sum, 8, 16, POLY_16), c, 16);
    LowBitsFit(BitXor(Power(sum, 8, 16, POLY_16), c), 16);
  }

  /** The CRC of doCRC is sixteen steps ahead of the sum. */
  lemma {:induction false} SumBehind(table: CrcTable, s: seq<byte>)
    requires Generated(table, 16, POLY_16)
    ensures Sum(table, s) < 0x10000 && CrcOf(table, s) == Power(Sum(table, s), 16, 16, POLY_16)
  {
    Pow2At8And16();
    if s == [] {
      PowerShifts(0, 16, 16, POLY_16);
      ShiftLeftPow2(0, 16);
    } else {
      var init, c := s[..|s| - 1], s[|s| - 1];
      SumBehind(table, init);
      UdpDivides(table, c, Sum(table, init));
      PowerBound(Sum(table, init), 16, 16, POLY_16);
      StepOf(table, CrcOf(table, init), c);
      SixteenMore(Sum(table, init), c);
    }
  }

  lemma SixteenMore(x: nat, c: byte)
    ensures Power(BitXor(Power(x, 8, 16, POLY_16), c), 16, 16, POLY_16) ==
            Power(BitXor(Power(x, 16, 16, POLY_16), ShiftLeft(c, 8)), 8, 16, POLY_16)
  {
    Pow2At8And16();
    PowerXor(Power(x, 8, 16, POLY_16), c, 16, 16, POLY_16);
    PowerXor(Power(x, 16, 16, POLY_16), ShiftLeft(c, 8), 8, 16, POLY_16);
    PowerPower(x, 8, 16, 16, POLY_16);
    PowerPower(x, 16, 8, 16, POLY_16);
    PowerPower(c, 8, 8, 16, POLY_16);
    PowerShifts(c, 8, 16, POLY_16);
  }

  lemma SumAfterZero(table: CrcTable, p: seq<byte>, sum: nat)
    requires Generated(table, 16, POLY_16) && sum == Sum(table, p) < 0x10000
    ensures Sum(table, p + [0]) == Power(sum, 8, 16, POLY_16) < 0x10000
  {
    assert (p + [0])[..|p|] == p;
    UdpDivides(table, 0, sum);
    XorZero(Power(sum, 8, 16, POLY_16));
  }

  lemma SameOf(table: CrcTable, p: seq<byte>)
    requires Generated(table, 16, POLY_16)
    ensures Compute(table, p) == CrcOf(table, p)
  {
    SumBehind(table, p);
    var sum := Sum(table, p);
    SumAfterZero(table, p, sum);
    SumAfterZero(table, p + [0], Power(sum, 8, 16, POLY_16));
    assert p + [0] + [0] == p + [0, 0];
    PowerPower(sum, 8, 8, 16, POLY_16);
  }

  /** Both classes, each with its own table, compute the same CRC of every byte string. */
  lemma SameCrc(p: seq<byte>)
    ensures Compute(Crc16Table(), p) == CrcOf(CompressorTable(), p)
  {
    SameTable();
    CompressorTableGenerated();
    SameOf(CompressorTable(), p);
  }

  // ----- SBC's CRC

  /** The bits the CRC of a frame covers: two bytes of the header and the first n bits after it. */
  function Covered(data: seq<byte>, n: nat): seq<bool>
    requires n % 4 == 0 && 8 * |data| >= 32 + n
  {
    Sizes(|data|, n);
    HeaderBits(data) + BytesBits(data[4..4 + n / 8]) + if n % 8 == 4 then ByteBits(data[4 + n / 8])[..4] else []
  }

  lemma ByteStep8(table: seq<nat>, crc: nat, c: byte)
    requires Generated(table, 8, POLY_8) && crc < 256
    ensures BitXor(crc, c) < 256 && table[BitXor(crc, c)] == Serial(crc, ByteBits(c), 8, POLY_8) < 256
  {
    Pow2At8And16();
    BitXorBound(crc, c, 8);
    GeneratedEntry(table, 8, POLY_8, BitXor(crc, c));
    PowerBound(BitXor(crc, c), 8, 8, POLY_8);
    SerialAtOnce(crc, ByteBits(c), 8, POLY_8);
    ByteAtTop(c, 8);
  }

  /** The last half byte. */
  lemma HalfStep8(table: seq<nat>, crc: nat, c: byte)
    requires Generated(table, 8, POLY_8) && crc < 256
    ensures BitXor(ShiftRight(crc, 4), ShiftRight(c, 4)) < 256
    ensures LowBits(BitXor(ShiftLeft(crc, 4), table[BitXor(ShiftRight(crc, 4), ShiftRight(c, 4))]), 8) ==
            Serial(crc, ByteBits(c)[..4], 8, POLY_8)
  {
    var h, l := BitXor(ShiftRight(crc, 4), ShiftRight(c, 4)), LowBits(crc, 4);
    var top := AtTop(ByteBits(c)[..4], 8);
    Pow2At8And16();
    assert Pow2(4) == 16;
    ShiftRightBound(crc, 4, 4);
    ShiftRightBound(c, 4, 4);
    BitXorBound(ShiftRight(crc, 4), ShiftRight(c, 4), 4);
    SerialAtOnce(crc, ByteBits(c)[..4], 8, POLY_8);
    HalvesOf(crc, c);
    PowerXor(ShiftLeft(h, 4), l, 4, 8, POLY_8);
    PowerShifts(l, 4, 8, POLY_8);
    PowerShifts(h, 4, 8, POLY_8);
    PowerPower(h, 4, 4, 8, POLY_8);
    GeneratedEntry(table, 8, POLY_8, h);
    PowerBound(h, 8, 8, POLY_8);
    HalfMasks(crc, table[h]);
    XorCommutes(table[h], ShiftLeft(l, 4));
  }

  lemma HalvesOf(crc: nat, c: byte)
    requires crc < 256
    ensures BitXor(crc, AtTop(ByteBits(c)[..4], 8)) ==
            BitXor(ShiftLeft(BitXor(ShiftRight(crc, 4), ShiftRight(c, 4)), 4), LowBits(crc, 4))
  {
    var h, top := BitXor(ShiftRight(crc, 4), ShiftRight(c, 4)), AtTop(ByteBits(c)[..4], 8);
    var a, b := BitXor(crc, top), BitXor(ShiftLeft(h, 4), LowBits(crc, 4));
    Pow2At8And16();
    forall j: nat ensures BitAt(a, j) == BitAt(b, j) {
      BitXorBit(crc, top, j);
      AtTopBit(c, 4, 8, j);
      BitXorBit(ShiftLeft(h, 4), LowBits(crc, 4), j);
      ShiftLeftBit(h, 4, j);
      LowBitsBit(crc, 4, j);
      if j >= 4 {
        BitXorBit(ShiftRight(crc, 4), ShiftRight(c, 4), j - 4);
        ShiftRightBit(crc, 4, j - 4);
        ShiftRightBit(c, 4, j - 4);
      }
      if j >= 8 { NoHighBits(c, 8, j); }
    }
    EqualBits(a, b);
  }

  lemma HalfMasks(crc: nat, t: nat)
    requires crc < 256 && t < 256
    ensures LowBits(BitXor(ShiftLeft(crc, 4), t), 8) == BitXor(ShiftLeft(LowBits(crc, 4), 4), t)
  {
    Pow2At8And16();
    var a, b := LowBits(BitXor(ShiftLeft(crc, 4), t), 8), BitXor(ShiftLeft(LowBits(crc, 4), 4), t);
    forall j: nat ensures BitAt(a, j) == BitAt(b, j) {
      LowBitsBit(BitXor(ShiftLeft(crc, 4), t), 8, j);
      BitXorBit(ShiftLeft(crc, 4), t, j);
      BitXorBit(ShiftLeft(LowBits(crc, 4), 4), t, j);
      ShiftLeftBit(crc, 4, j);
      ShiftLeftBit(LowBits(crc, 4), 4, j);
      if j >= 4 { LowBitsBit(crc, 4, j - 4); }
      if j >= 8 { NoHighBits(t, 8, j); }
    }
    EqualBits(a, b);
  }

  /** The register after these covered bits. */
  ghost predicate After(crc: nat, bits: seq<bool>) {
    crc < 256 && crc == Serial(0x0F, bits, 8, POLY_8)
  }

  method TakeByte(table: seq<nat>, crc: nat, c: byte, ghost bits: seq<bool>) returns (crc': nat)
    requires Generated(table, 8, POLY_8) && After(crc, bits)
    ensures After(crc', bits + ByteBits(c))
  {
    ByteStep8(table, crc, c);
    SerialInTwo(0x0F, bits, ByteBits(c), 8, POLY_8);
    crc' := table[BitXor(crc, c)];
  }

  method TakeHalf(table: seq<nat>, crc: nat, c: byte, ghost bits: seq<bool>) returns (crc': nat)
    requires Generated(table, 8, POLY_8) && After(crc, bits)
    ensures After(crc', bits + ByteBits(c)[..4])
  {
    HalfStep8(table, crc, c);
    SerialInTwo(0x0F, bits, ByteBits(c)[..4], 8, POLY_8);
    Pow2At8And16();
    crc' := LowBits(BitXor(ShiftLeft(crc, 4), table[BitXor(ShiftRight(crc, 4), ShiftRight(c, 4))]), 8);
  }

  function HeaderBits(data: seq<byte>): seq<bool>
    requires |data| >= 4
  {
    ByteBits(data[1]) + ByteBits(data[2])
  }

  method TakeHeader(table: seq<nat>, data: seq<byte>) returns (crc: nat)
    requires Generated(table, 8, POLY_8) && |data| >= 4
    ensures After(crc, HeaderBits(data))
  {
    crc := TakeByte(table, 0x0F, data[1], []);
    assert [] + ByteBits(data[1]) == ByteBits(data[1]);
    crc := TakeByte(table, crc, data[2], ByteBits(data[1]));
  }

  method TakeBytes(table: seq<nat>, data: seq<byte>, n: nat, crc0: nat, ghost head: seq<bool>) returns (crc: nat)
    requires Generated(table, 8, POLY_8) && 4 + n <= |data| && After(crc0, head)
    ensures After(crc, head + BytesBits(data[4..4 + n]))
  {
    crc := crc0;
    assert head + BytesBits(data[4..4]) == head;
    for i := 4 to 4 + n
      invariant After(crc, head + BytesBits(data[4..i]))
    {
      crc := TakeByte(table, crc, data[i], head + BytesBits(data[4..i]));
      OneMoreByte(data, i, head);
    }
  }

  /** computeCrc over the n covered bits after the header: a remainder, or -1 if the data is short. */
  method ComputeCrc(data: seq<byte>, n: nat) returns (crc: int)
    requires n % 4 == 0
    ensures 8 * |data| < 32 + n ==> crc == -1
    ensures 8 * |data| >= 32 + n ==> 0 <= crc < 256 && crc == Serial(0x0F, Covered(data, n), 8, POLY_8)
  {
    var table := Crc8Table();
    Crc8TableGenerated();
    Sizes(|data|, n);
    if |data| < (32 + n + 7) / 8 { return -1; }
    var whole, half := n / 8, n % 8;
    var c := TakeHeader(table, data);
    c := TakeBytes(table, data, whole, c, HeaderBits(data));
    ghost var bits := HeaderBits(data) + BytesBits(data[4..4 + whole]);
    assert bits + [] == bits;
    if half != 0 { c := TakeHalf(table, c, data[4 + whole], bits); }
    crc := c;
  }

  lemma Sizes(size: nat, n: nat)
    requires n % 4 == 0
    ensures size < (32 + n + 7) / 8 <==> 8 * size < 32 + n
    ensures 8 * size >= 32 + n ==> 4 + n / 8 <= size && (n % 8 != 0 ==> n % 8 == 4 && 4 + n / 8 < size)
  {
    var q := n / 4;
    var k := q / 2;
    if q % 2 == 0 {
      Eighth(n, k, 0);
      Eighth(39 + n, 4 + k, 7);
    } else {
      Eighth(n, k, 4);
      Eighth(39 + n, 5 + k, 3);
    }
  }

  lemma Eighth(n: nat, k: nat, r: nat)
    requires n == 8 * k + r && r < 8
    ensures n / 8 == k && n % 8 == r
  {
  }

  lemma OneMoreByte(data: seq<byte>, i: nat, head: seq<bool>)
    requires 4 <= i < |data|
    ensures head + BytesBits(data[4..i]) + ByteBits(data[i]) == head + BytesBits(data[4..i + 1])
  {
    assert data[4..i + 1][..i - 4] == data[4..i];
  }
}
