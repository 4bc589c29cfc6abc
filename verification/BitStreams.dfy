/** The bit-packing layer: codes are packed most significant bit first into bytes, and
    read back through a 16-bit look-ahead register that is refilled a byte at a time. */
module BitStreams {
  import opened Bits
  import opened Crc

  /** Bit i of a byte, counting from its most significant end. */
  predicate ByteBit(b: byte, i: nat)
    requires i < 8
  {
    BitAt(b, 7 - i)
  }

  /** Bit k of a byte string, most significant bit of the first byte first; false past the end. */
  predicate StreamBit(s: seq<byte>, k: nat) {
    k / 8 < |s| && ByteBit(s[k / 8], k % 8)
  }

  /** The bits of s from position `pos` start with `bits`. */
  ghost predicate BitsAt(s: seq<byte>, pos: nat, bits: seq<bool>) {
    forall i: nat | i < |bits| :: StreamBit(s, pos + i) == bits[i]
  }

  /** Bit i of a 16-bit register, counting from its most significant end. */
  predicate RegBit(reg: nat, i: nat)
    requires i < 16
  {
    BitAt(reg, 15 - i)
  }

  /** The register is clear below its n top bits. */
  ghost predicate ClearBelow(reg: nat, n: nat) {
    forall i: nat | n <= i < 16 :: !RegBit(reg, i)
  }

  /** `written` and the p pending bits at the top of `reg` spell `bits`. */
  ghost predicate Spells(written: seq<byte>, reg: nat, p: nat, bits: seq<bool>) {
    p <= 16 && |bits| == 8 * |written| + p &&
    BitsAt(written, 0, bits[..8 * |written|]) &&
    (forall i: nat | i < p :: RegBit(reg, i) == bits[8 * |written| + i]) &&
    ClearBelow(reg, p)
  }

  /** A left-aligned 16-bit code word for `bits`. */
  ghost predicate IsCode(c: nat, bits: seq<bool>) {
    |bits| <= 16 && c < 0x10000 &&
    (forall i: nat | i < |bits| :: RegBit(c, i) == bits[i]) &&
    ClearBelow(c, |bits|)
  }

  // ----- the packing steps of putcode

  /** ORing a code in below the pending bits: every register bit is the next stream bit. */
  lemma OrInBit(written: seq<byte>, reg: nat, p: nat, bits: seq<bool>, c: nat, code: seq<bool>, i: nat)
    requires Spells(written, reg, p, bits) && p <= 7 && IsCode(c, code) && i < 16
    ensures RegBit(Mask16(BitOr(reg, ShiftRight(c, p))), i) ==
            (i < p + |code| && (bits + code)[8 * |written| + i])
  {
    var j := 15 - i;
    LowBitsBit(BitOr(reg, ShiftRight(c, p)), 16, j);
    BitOrBit(reg, ShiftRight(c, p), j);
    ShiftRightBit(c, p, j);
    if i < p {
      Pow2At8And16();
      NoHighBits(c, 16, j + p);
      assert RegBit(reg, i) == bits[8 * |written| + i];
    } else {
      assert RegBit(c, i - p) == BitAt(c, j + p);
      assert !RegBit(reg, i);
    }
  }

  lemma OrIn(written: seq<byte>, reg: nat, p: nat, bits: seq<bool>, c: nat, code: seq<bool>, reg': nat)
    requires Spells(written, reg, p, bits) && p <= 7 && IsCode(c, code)
    requires reg' == Mask16(BitOr(reg, ShiftRight(c, p)))
    ensures forall i: nat | i < 16 ::
              RegBit(reg', i) == (i < p + |code| && (bits + code)[8 * |written| + i])
  {
    forall i: nat | i < 16
      ensures RegBit(reg', i) == (i < p + |code| && (bits + code)[8 * |written| + i])
    {
      OrInBit(written, reg, p, bits, c, code, i);
    }
  }

  /** Appending a byte whose bits continue the stream. */
  lemma AppendByte(written: seq<byte>, b: byte, bits: seq<bool>)
    requires |bits| >= 8 * |written| + 8
    requires BitsAt(written, 0, bits[..8 * |written|])
    requires forall i: nat | i < 8 :: ByteBit(b, i) == bits[8 * |written| + i]
    ensures BitsAt(written + [b], 0, bits[..8 * |written + [b]|])
  {
    var n := 8 * |written|;
    forall k: nat | k < n + 8
      ensures StreamBit(written + [b], k) == bits[k]
    {
      if k < n {
        assert StreamBit(written, 0 + k) == bits[..n][k];
      } else {
        var i := k - n;
        assert k / 8 == |written| && k % 8 == i;
        assert ByteBit(b, i) == bits[n + i];
      }
    }
  }

  /** Fewer than 8 bits pending after the OR: the register holds all of them. */
  lemma StillPending(written: seq<byte>, reg: nat, p: nat, bits: seq<bool>, c: nat, code: seq<bool>, reg': nat)
    requires Spells(written, reg, p, bits) && p <= 7 && IsCode(c, code)
    requires reg' == Mask16(BitOr(reg, ShiftRight(c, p))) && p + |code| <= 16
    ensures Spells(written, reg', p + |code|, bits + code)
  {
    OrIn(written, reg, p, bits, c, code, reg');
    assert (bits + code)[..8 * |written|] == bits[..8 * |written|];
  }

  /** One byte leaves the register when it holds at least 8 of the pending bits. */
  lemma ByteOut(written: seq<byte>, reg: nat, n: nat, bits: seq<bool>)
    requires Spells(written, reg, n, bits) && n >= 8
    ensures Spells(written + [Hi(reg)], Swap(Lo(reg)), n - 8, bits)
  {
    var w := 8 * |written|;
    forall i: nat | i < 8 ensures ByteBit(Hi(reg), i) == bits[w + i] {
      HiBit(reg, 7 - i);
      assert RegBit(reg, i) == bits[w + i];
    }
    AppendByte(written, Hi(reg), bits);
    forall i: nat | i < 16
      ensures RegBit(Swap(Lo(reg)), i) == (i < 8 && RegBit(reg, i + 8))
    {
      SwapBit(Lo(reg), 15 - i);
      if i < 8 { LoBit(reg, 7 - i); } else { LoBit(reg, 23 - i); }
    }
    forall i: nat | i < n - 8
      ensures RegBit(Swap(Lo(reg)), i) == bits[8 * |written + [Hi(reg)]| + i]
    {
      assert RegBit(reg, i + 8) == bits[w + (i + 8)];
    }
  }

  /** All 16 register bits are stream bits: both bytes of the register can go out. */
  lemma BothBytes(written: seq<byte>, reg: nat, all: seq<bool>)
    requires |all| >= 8 * |written| + 16
    requires BitsAt(written, 0, all[..8 * |written|])
    requires forall i: nat | i < 16 :: RegBit(reg, i) == all[8 * |written| + i]
    ensures BitsAt(written + [Hi(reg), Lo(reg)], 0, all[..8 * |written| + 16])
  {
    var w := 8 * |written|;
    forall i: nat | i < 8 ensures ByteBit(Hi(reg), i) == all[w + i] {
      HiBit(reg, 7 - i);
      assert RegBit(reg, i) == all[w + i];
    }
    AppendByte(written, Hi(reg), all);
    var w1 := written + [Hi(reg)];
    forall i: nat | i < 8 ensures ByteBit(Lo(reg), i) == all[8 * |w1| + i] {
      LoBit(reg, 7 - i);
      assert RegBit(reg, i + 8) == all[w + (i + 8)];
    }
    AppendByte(w1, Lo(reg), all);
    assert w1 + [Lo(reg)] == written + [Hi(reg), Lo(reg)];
  }

  /** Two bytes leave at once; what the OR pushed off the end is put back from the code. */
  lemma TwoBytesOut(written: seq<byte>, reg: nat, p: nat, bits: seq<bool>, c: nat, code: seq<bool>,
                    reg': nat, reg'': nat)
    requires Spells(written, reg, p, bits) && p <= 7 && IsCode(c, code)
    requires reg' == Mask16(BitOr(reg, ShiftRight(c, p))) && p + |code| >= 16
    requires reg'' == Mask16(ShiftLeft(c, 16 - p))
    ensures Spells(written + [Hi(reg'), Lo(reg')], reg'', p + |code| - 16, bits + code)
  {
    var w, all := 8 * |written|, bits + code;
    assert all[..w] == bits[..w];
    forall i: nat | i < 16 ensures RegBit(reg', i) == all[w + i] {
      OrInBit(written, reg, p, bits, c, code, i);
    }
    BothBytes(written, reg', all);
    Leftover(w, p, bits, c, code, reg'');
  }

  lemma Leftover(w: nat, p: nat, bits: seq<bool>, c: nat, code: seq<bool>, reg'': nat)
    requires |bits| == w + p && p <= 7 && IsCode(c, code) && p + |code| >= 16
    requires reg'' == Mask16(ShiftLeft(c, 16 - p))
    ensures forall i: nat | i < p + |code| - 16 :: RegBit(reg'', i) == (bits + code)[w + 16 + i]
    ensures ClearBelow(reg'', p + |code| - 16)
  {
    forall i: nat | i < 16
      ensures RegBit(reg'', i) == (i < p + |code| - 16 && (bits + code)[w + 16 + i])
    {
      var j := 15 - i;
      LowBitsBit(ShiftLeft(c, 16 - p), 16, j);
      ShiftLeftBit(c, 16 - p, j);
      if i < p { assert RegBit(c, i + 16 - p) == BitAt(c, j - (16 - p)); }
    }
  }

  ghost predicate ClearFrom(bits: seq<bool>, n: nat) {
    forall i | n <= i < |bits| :: !bits[i]
  }

  lemma TailClear(bits: seq<bool>, n: nat)
    requires n <= |bits|
    ensures ClearFrom(bits[n..], 0) <==> ClearFrom(bits, n)
  {
    var tail := bits[n..];
    if ClearFrom(tail, 0) {
      forall i | n <= i < |bits| ensures !bits[i] { assert bits[i] == tail[i - n]; }
    }
  }

  /** Bits counted as pending beyond those in the register are read as clear. */
  lemma Lengthened(written: seq<byte>, reg: nat, p: nat, bits: seq<bool>, more: seq<bool>)
    requires Spells(written, reg, p, bits) && p + |more| <= 16
    ensures Spells(written, reg, p + |more|, bits + more) <==> ClearFrom(more, 0)
  {
    var w, all := 8 * |written|, bits + more;
    assert all[..w] == bits[..w];
    forall i: nat | i < |more| ensures RegBit(reg, p + i) == false && all[w + (p + i)] == more[i] {
    }
    if Spells(written, reg, p + |more|, all) {
      forall i: nat | i < |more| ensures !more[i] {
        assert RegBit(reg, p + i) == all[w + (p + i)];
      }
    } else if ClearFrom(more, 0) {
      forall i: nat | i < p + |more| ensures RegBit(reg, i) == all[w + i] {
        if i >= p { assert all[w + (p + (i - p))] == more[i - p]; }
      }
    }
  }

  /** encodeEnd: flushing the register pads the last byte with zero bits. */
  lemma FlushSpells(written: seq<byte>, reg: nat, p: nat, bits: seq<bool>)
    requires Spells(written, reg, p, bits) && p <= 7
    ensures var all := if p > 0 then written + [Hi(reg)] else written;
            BitsAt(all, 0, bits) && 8 * |all| < |bits| + 8
  {
    if p == 0 {
      assert bits[..8 * |written|] == bits;
    } else {
      var w := 8 * |written|;
      var pad := seq(8 - p, _ => false);
      forall i: nat | i < 8 ensures ByteBit(Hi(reg), i) == (bits + pad)[w + i] {
        HiBit(reg, 7 - i);
        assert RegBit(reg, i) == (i < p && bits[w + i]);
      }
      assert (bits + pad)[..w] == bits[..w];
      AppendByte(written, Hi(reg), bits + pad);
      assert (bits + pad)[..8 * |written + [Hi(reg)]|] == bits + pad;
      forall i: nat | i < |bits| ensures StreamBit(written + [Hi(reg)], 0 + i) == bits[i] {
        assert (bits + pad)[i] == bits[i];
      }
    }
  }

  // ----- the writer

  /** The part of the compressor state that holds the bits put so far. */
  datatype Packed = Packed(written: seq<byte>, putBuf: nat, putLen: nat) {
    ghost predicate Spelling(bits: seq<bool>) {
      putLen <= 7 && Spells(written, putBuf, putLen, bits)
    }

    /** putcode */
    function Put(n: nat, c: nat): Packed {
      var reg := Mask16(BitOr(putBuf, ShiftRight(c, putLen % 32)));
      var m := putLen + n;
      if m < 8 then Packed(written, reg, m)
      else if m < 16 then Packed(written + [Hi(reg)], Swap(Lo(reg)), m - 8)
      else Packed(written + [Hi(reg), Lo(reg)], Mask16(ShiftLeft(c, (16 - putLen) % 32)), m - 16)
    }

    /** The shift counts of JavaScript are taken modulo 32; with at most 7 bits pending and a code
        of at most 16 bits that changes none of them. */
    lemma PutShape(n: nat, c: nat)
      requires putLen <= 7 && n <= 16
      ensures var reg := Mask16(BitOr(putBuf, ShiftRight(c, putLen)));
              var m := putLen + n;
              Put(n, c) ==
                if m < 8 then Packed(written, reg, m)
                else if m < 16 then Packed(written + [Hi(reg)], Swap(Lo(reg)), m - 8)
                else Packed(written + [Hi(reg), Lo(reg)], Mask16(ShiftLeft(c, 16 - putLen)), m - 16)
    {
      assert putLen % 32 == putLen && (16 - putLen) % 32 == 16 - putLen;
    }

    static lemma Spelled(written: seq<byte>, reg: nat, p: nat, bits: seq<bool>)
      requires Spells(written, reg, p, bits) && p <= 7
      ensures Packed(written, reg, p).Spelling(bits)
    {
    }

    /** Whichever of its three exits it takes, putcode appends exactly the code word's bits. */
    lemma PutSpells(bits: seq<bool>, c: nat, code: seq<bool>)
      requires Spelling(bits) && IsCode(c, code)
      ensures Put(|code|, c).Spelling(bits + code)
    {
      var reg := Mask16(BitOr(putBuf, ShiftRight(c, putLen)));
      var m := putLen + |code|;
      PutShape(|code|, c);
      if m < 8 {
        StillPending(written, putBuf, putLen, bits, c, code, reg);
        Spelled(written, reg, m, bits + code);
      } else if m < 16 {
        StillPending(written, putBuf, putLen, bits, c, code, reg);
        ByteOut(written, reg, m, bits + code);
        Spelled(written + [Hi(reg)], Swap(Lo(reg)), m - 8, bits + code);
      } else {
        var reg' := Mask16(ShiftLeft(c, 16 - putLen));
        TwoBytesOut(written, putBuf, putLen, bits, c, code, reg, reg');
        Spelled(written + [Hi(reg), Lo(reg)], reg', m - 16, bits + code);
      }
    }

    /** As Spelling, with any number of bits pending. */
    ghost predicate Holds(bits: seq<bool>) {
      Spells(written, putBuf, putLen, bits)
    }

    /** A code of more than 16 bits, of which c has the first 16: what comes out is the code with
        its other bits cleared, so it is right exactly if they are clear. */
    lemma PutTooLong(bits: seq<bool>, c: nat, path: seq<bool>)
      requires Spelling(bits) && 16 <= |path| <= 24 && c < 0x10000
      requires forall i: nat | i < 16 :: RegBit(c, i) == path[i]
      ensures Put(|path|, c).Holds(bits + path) <==> ClearFrom(path, 16)
    {
      var code, more := path[..16], path[16..];
      var q := Put(|path|, c);
      PutFirst16(bits, c, code, |more|);
      Lengthened(q.written, q.putBuf, putLen, bits + code, more);
      TailClear(path, 16);
      assert bits + code + more == bits + path;
    }

    lemma PutFirst16(bits: seq<bool>, c: nat, code: seq<bool>, more: nat)
      requires Spelling(bits) && IsCode(c, code) && |code| == 16 && more <= 8
      ensures var q := Put(16 + more, c); q.putLen == putLen + more && Spells(q.written, q.putBuf, putLen, bits + code)
    {
      var reg := Mask16(BitOr(putBuf, ShiftRight(c, putLen)));
      var reg' := Mask16(ShiftLeft(c, 16 - putLen));
      LongShape(16 + more, c);
      TwoBytesOut(written, putBuf, putLen, bits, c, code, reg, reg');
      assert putLen + |code| - 16 == putLen;
    }

    lemma LongShape(n: nat, c: nat)
      requires putLen <= 7 && 16 <= n
      ensures var reg := Mask16(BitOr(putBuf, ShiftRight(c, putLen)));
              Put(n, c) == Packed(written + [Hi(reg), Lo(reg)], Mask16(ShiftLeft(c, 16 - putLen)), putLen + n - 16)
    {
      assert putLen % 32 == putLen && (16 - putLen) % 32 == 16 - putLen;
    }
  }

  /** outBuf, outPtr, putBuf, putLen, codeSize and CRC of the compressor, with its putc,
      putcode and encodeEnd. `written` is every byte put so far: outBuf has a fixed size, and
      bytes put beyond it are dropped. */
  class BitWriter {
    const table: CrcTable
    const encDec: bool
    const outBuf: array<byte>
    var outPtr: nat
    var putBuf: nat
    var putLen: nat
    var codeSize: nat
    var crc: nat
    ghost var written: seq<byte>

    ghost predicate Valid()
      reads this, outBuf
    {
      outPtr == |written| &&
      (forall i | 0 <= i < outPtr && i < outBuf.Length :: outBuf[i] == written[i]) &&
      (encDec ==> crc == CrcOf(table, written))
    }

    ghost function State(): Packed
      reads this
    {
      Packed(written, putBuf, putLen)
    }

    constructor (table: CrcTable, capacity: nat, encDec: bool)
      ensures Valid() && fresh(outBuf) && outBuf.Length == capacity && this.encDec == encDec && this.table == table
      ensures written == [] && putLen == 0 && putBuf == 0 && codeSize == 0
    {
      this.table, this.encDec := table, encDec;
      outBuf := new byte[capacity](_ => 0);
      outPtr, putBuf, putLen, codeSize, crc := 0, 0, 0, 0, 0;
      written := [];
    }

    method Putc(c: byte)
      requires Valid()
      modifies this`outPtr, this`crc, this`written, outBuf
      ensures Valid() && written == old(written) + [c]
    {
      if outPtr < outBuf.Length { outBuf[outPtr] := c; }
      outPtr := outPtr + 1;
      if encDec { crc := Step(table, crc, c); }
      written := written + [c];
      assert written[..|written| - 1] == old(written);
    }

    method PutCode(n: nat, c: nat)
      requires Valid()
      modifies this`outPtr, this`putBuf, this`putLen, this`codeSize, this`crc, this`written, outBuf
      ensures Valid()
      ensures State() == old(State()).Put(n, c)
      ensures codeSize - old(codeSize) == |written| - |old(written)|
    {
      putBuf := Mask16(BitOr(putBuf, ShiftRight(c, putLen % 32)));
      putLen := putLen + n;
      if putLen >= 8 {
        Putc(Hi(putBuf));
        putLen := putLen - 8;
        if putLen >= 8 {
          Putc(Lo(putBuf));
          codeSize := codeSize + 2;
          putLen := putLen - 8;
          putBuf := Mask16(ShiftLeft(c, (n - putLen) % 32));
        } else {
          putBuf := Swap(Lo(putBuf));
          codeSize := codeSize + 1;
        }
      }
    }

    method EncodeEnd()
      requires Valid()
      modifies this`outPtr, this`codeSize, this`crc, this`written, outBuf
      ensures Valid() && written == old(if putLen > 0 then written + [Hi(putBuf)] else written)
      ensures codeSize - old(codeSize) == |written| - |old(written)|
    {
      if putLen > 0 {
        Putc(Hi(putBuf));
        codeSize := codeSize + 1;
      }
    }
  }

  // ----- the reader

  /** The look-ahead register, its valid bits, and the bytes taken so far, including zeros past
      the end. */
  datatype Look = Look(fetched: nat, reg: nat, len: nat)

  /** The bits of the register are the next bits of the stream; past its end the stream continues
      with zeros. */
  ghost predicate LooksAhead(s: seq<byte>, look: Look) {
    match look case Look(fetched, reg, n) =>
      n <= 16 && n <= 8 * fetched &&
      (forall i: nat | i < n :: RegBit(reg, i) == StreamBit(s, 8 * fetched - n + i)) &&
      ClearBelow(reg, n)
  }

  lemma RefillBit(reg: nat, n: nat, c: byte, i: nat)
    requires n <= 8 && i < 16 && ClearBelow(reg, n)
    ensures RegBit(Mask16(BitOr(reg, ShiftLeft(c, 8 - n))), i) ==
            if i < n then RegBit(reg, i) else i < n + 8 && ByteBit(c, i - n)
  {
    var j := 15 - i;
    LowBitsBit(BitOr(reg, ShiftLeft(c, 8 - n)), 16, j);
    BitOrBit(reg, ShiftLeft(c, 8 - n), j);
    ShiftLeftBit(c, 8 - n, j);
    if i < n {
      Pow2At8And16();
      NoHighBits(c, 8, 7 - i + n);
    } else {
      assert !RegBit(reg, i);
    }
  }

  lemma Refill(s: seq<byte>, fetched: nat, reg: nat, n: nat, c: byte, reg': nat)
    requires LooksAhead(s, Look(fetched, reg, n)) && n <= 8
    requires c == if fetched < |s| then s[fetched] else 0
    requires reg' == Mask16(BitOr(reg, ShiftLeft(c, 8 - n)))
    ensures LooksAhead(s, Look(fetched + 1, reg', n + 8))
  {
    forall i: nat | i < 16
      ensures RegBit(reg', i) == (i < n + 8 && StreamBit(s, 8 * fetched - n + i))
    {
      RefillBit(reg, n, c, i);
      if n <= i < n + 8 {
        var k := 8 * fetched - n + i;
        assert k / 8 == fetched && k % 8 == i - n;
        if fetched >= |s| { ZeroBits(7 - (i - n)); }
      }
    }
  }

  /** Shifting k bits out of the register. */
  lemma Consume(s: seq<byte>, fetched: nat, reg: nat, n: nat, k: nat, reg': nat)
    requires LooksAhead(s, Look(fetched, reg, n)) && k <= n
    requires reg' == Mask16(ShiftLeft(reg, k))
    ensures LooksAhead(s, Look(fetched, reg', n - k))
  {
    forall i: nat | i < 16
      ensures RegBit(reg', i) == (i < n - k && StreamBit(s, 8 * fetched - (n - k) + i))
    {
      LowBitsBit(ShiftLeft(reg, k), 16, 15 - i);
      ShiftLeftBit(reg, k, 15 - i);
      if i + k < 16 { assert RegBit(reg, i + k) == BitAt(reg, 15 - i - k); }
    }
  }

  /** The top register bit, as getBit computes it, is the next stream bit. */
  lemma NextBit(s: seq<byte>, fetched: nat, reg: nat, n: nat)
    requires LooksAhead(s, Look(fetched, reg, n)) && n > 0
    ensures LowBits(ShiftRight(reg, 15), 1) == if StreamBit(s, 8 * fetched - n) then 1 else 0
  {
    ShiftRightBit(reg, 15, 0);
    assert RegBit(reg, 0) == StreamBit(s, 8 * fetched - n + 0);
    assert LowBits(ShiftRight(reg, 15) / 2, 0) == 0;
  }

  /** The high register byte holds the next eight stream bits. */
  lemma NextByte(s: seq<byte>, fetched: nat, reg: nat, n: nat)
    requires LooksAhead(s, Look(fetched, reg, n)) && n >= 8
    ensures forall i: nat | i < 8 :: ByteBit(Hi(reg), i) == StreamBit(s, 8 * fetched - n + i)
  {
    forall i: nat | i < 8 ensures ByteBit(Hi(reg), i) == StreamBit(s, 8 * fetched - n + i) {
      HiBit(reg, 7 - i);
      assert RegBit(reg, i) == StreamBit(s, 8 * fetched - n + i);
    }
  }

  /** inBuf, inPtr, getBuf, getLen and CRC of the decompressor, with its getc, getBit and getByte. */
  class BitReader {
    const table: CrcTable
    const encDec: bool
    const inBuf: seq<byte>
    var inPtr: nat
    var getBuf: nat
    var getLen: nat
    var crc: nat
    ghost var fetched: nat

    ghost predicate Valid()
      reads this
    {
      inPtr == (if fetched < |inBuf| then fetched else |inBuf|) &&
      (!encDec ==> crc == CrcOf(table, inBuf[..inPtr])) &&
      LooksAhead(inBuf, Look(fetched, getBuf, getLen))
    }

    /** The position of the next bit to be returned. */
    ghost function Pos(): nat
      requires Valid()
      reads this
    {
      8 * fetched - getLen
    }

    constructor (table: CrcTable, input: seq<byte>, encDec: bool)
      ensures Valid() && Pos() == 0 && getLen == 0 && inBuf == input && this.encDec == encDec && this.table == table
    {
      this.table, this.encDec := table, encDec;
      inBuf := input;
      inPtr, getBuf, getLen, crc, fetched := 0, 0, 0, 0, 0;
      new;
      forall i: nat | i < 16 ensures !RegBit(0, i) { ZeroBits(15 - i); }
    }

    /** A byte, or zero at the end of the input. */
    method Getc() returns (c: byte)
      requires inPtr == (if fetched < |inBuf| then fetched else |inBuf|)
      requires !encDec ==> crc == CrcOf(table, inBuf[..inPtr])
      modifies this`inPtr, this`crc, this`fetched
      ensures fetched == old(fetched) + 1
      ensures inPtr == (if fetched < |inBuf| then fetched else |inBuf|)
      ensures !encDec ==> crc == CrcOf(table, inBuf[..inPtr])
      ensures c == if old(fetched) < |inBuf| then inBuf[old(fetched)] else 0
    {
      c := 0;
      if inPtr < |inBuf| {
        c := inBuf[inPtr];
        assert inBuf[..inPtr + 1][..inPtr] == inBuf[..inPtr];
        inPtr := inPtr + 1;
        if !encDec { crc := Step(table, crc, c); }
      }
      fetched := fetched + 1;
    }

    /** getc as decode calls it for the size field, before any bits are read. */
    method GetRaw() returns (c: byte)
      requires Valid() && getLen == 0
      modifies this
      ensures Valid() && getLen == 0 && Pos() == old(Pos()) + 8
      ensures c == if old(Pos()) / 8 < |inBuf| then inBuf[old(Pos()) / 8] else 0
    {
      c := Getc();
    }

    /** One round of the refill loop. */
    method FetchByte()
      requires Valid() && getLen <= 8
      modifies this
      ensures Valid() && Pos() == old(Pos()) && getLen == old(getLen) + 8
    {
      ghost var f := fetched;
      var c := Getc();
      var reg := Mask16(BitOr(getBuf, ShiftLeft(c, 8 - getLen)));
      Refill(inBuf, f, getBuf, getLen, c, reg);
      getBuf, getLen := reg, getLen + 8;
    }

    /** The refill loop at the head of getBit and getByte. */
    method Fill()
      requires Valid()
      modifies this
      ensures Valid() && Pos() == old(Pos()) && getLen > 8
    {
      while getLen <= 8
        invariant Valid() && Pos() == old(Pos())
        decreases 16 - getLen
      {
        FetchByte();
      }
    }

    method GetBit() returns (b: nat)
      requires Valid()
      modifies this
      ensures Valid() && Pos() == old(Pos()) + 1 && getLen >= 8
      ensures b == if StreamBit(inBuf, old(Pos())) then 1 else 0
    {
      Fill();
      b := LowBits(ShiftRight(getBuf, 15), 1);
      NextBit(inBuf, fetched, getBuf, getLen);
      Consume(inBuf, fetched, getBuf, getLen, 1, Mask16(ShiftLeft(getBuf, 1)));
      getBuf := Mask16(ShiftLeft(getBuf, 1));
      getLen := getLen - 1;
    }

    method GetByte() returns (b: byte)
      requires Valid()
      modifies this
      ensures Valid() && Pos() == old(Pos()) + 8
      ensures forall i: nat | i < 8 :: ByteBit(b, i) == StreamBit(inBuf, old(Pos()) + i)
    {
      Fill();
      b := Hi(getBuf);
      NextByte(inBuf, fetched, getBuf, getLen);
      Consume(inBuf, fetched, getBuf, getLen, 8, Mask16(ShiftLeft(getBuf, 8)));
      getBuf := Mask16(ShiftLeft(getBuf, 8));
      getLen := getLen - 8;
    }
  }
}
