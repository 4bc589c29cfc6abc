/** SBC's bit stream: numbers of given widths written to and read from a byte buffer through a 32-bit
    accumulator, the most significant bit first. */
module SbcBitStream {
  import opened Bits
  import opened Binary

  /** JavaScript takes the distance of a shift modulo 32. */
  const WORD_BITS := 32

  /** The widths for which no bit leaves the accumulator while fewer than 8 are pending. */
  const MAX_WIDTH := 24

  function Word(x: nat): nat { x % 0x1_0000_0000 }

  lemma WordDigits(x: nat, n: nat)
    requires n <= WORD_BITS
    ensures Digits(Word(x), n) == Digits(x, n)
  {
    Pow2At31();
    WordDigitsOf(x, n, WORD_BITS);
  }

  lemma WordDigitsOf(x: nat, n: nat, m: nat)
    requires n <= m && Pow2(m) == 0x1_0000_0000
    ensures Digits(Word(x), n) == Digits(x, n)
  {
    LowBitsRemain(x, m);
    DigitsMasked(x, m, n);
  }

  class Writer {
    const data: array<byte>
    const maxBytes: nat
    var bytePosition: nat
    var accumulator: nat
    var bitsInAccumulator: nat
    var error: bool

    ghost predicate Valid()
      reads this
    {
      bytePosition <= maxBytes <= data.Length && (!error ==> bitsInAccumulator <= 7)
    }

    /** What has been written, including what is pending. */
    ghost function Written(): (bits: seq<bool>)
      requires bytePosition <= data.Length
      reads this, data
    {
      BytesBits(data[..bytePosition]) + Digits(accumulator, bitsInAccumulator)
    }

    constructor (data: array<byte>, size: nat)
      requires size <= data.Length
      ensures this.data == data && maxBytes == size && Valid() && !error && Written() == []
      ensures accumulator == bitsInAccumulator == bytePosition == 0
    {
      this.data, maxBytes := data, size;
      bytePosition, accumulator, bitsInAccumulator, error := 0, 0, 0, false;
    }

    function BitPosition(): (n: nat)
      requires bytePosition <= data.Length
      reads this, data
      ensures n == |Written()|
    {
      8 * bytePosition + bitsInAccumulator
    }

    /** One full byte leaves the accumulator. */
    method PutByte()
      requires bitsInAccumulator >= 8 && bytePosition < maxBytes <= data.Length
      modifies this`bytePosition, this`accumulator, this`bitsInAccumulator, data
      ensures bytePosition == old(bytePosition) + 1 && bitsInAccumulator == old(bitsInAccumulator) - 8
      ensures Written() == old(Written()) && data[bytePosition..] == old(data[..])[bytePosition..]
    {
      ghost var before, acc, b := data[..bytePosition], accumulator, bitsInAccumulator;
      bitsInAccumulator := bitsInAccumulator - 8;
      var out := Lo(ShiftRight(accumulator, bitsInAccumulator));
      data[bytePosition] := out;
      bytePosition := bytePosition + 1;
      accumulator := LowBits(accumulator, bitsInAccumulator);
      DigitsSplit(acc, b, 8);
      assert data[..bytePosition] == before + [out];
      assert (before + [out])[..|before|] == before;
      assert BytesBits(before) + (Digits(out, 8) + Digits(accumulator, b - 8)) ==
             BytesBits(before) + Digits(out, 8) + Digits(accumulator, b - 8);
    }

    /** The bits of a value are shifted into the accumulator, 24 at most or, to reserve the frame
        header, 32 zeros into an empty one. */
    method PutIn(value: nat, numBits: nat)
      requires Valid() && !error && numBits <= WORD_BITS
      requires numBits <= MAX_WIDTH || (value == 0 && accumulator == 0 && bitsInAccumulator == 0)
      modifies this`accumulator, this`bitsInAccumulator
      ensures Written() == old(Written()) + Digits(value, numBits)
    {
      ghost var bytes, acc, b := BytesBits(data[..bytePosition]), accumulator, bitsInAccumulator;
      accumulator := Entered(accumulator, value, numBits);
      bitsInAccumulator := bitsInAccumulator + numBits;
      ShiftedIn(acc, b, value, numBits);
      assert bytes + (Digits(acc, b) + Digits(value, numBits)) == (bytes + Digits(acc, b)) + Digits(value, numBits);
    }

    /** putBits: the bits are written if there is room for all full bytes, and an error is reported if
        there is not. */
    method PutBits(value: nat, numBits: nat)
      requires Valid() && !error && numBits <= WORD_BITS
      requires numBits <= MAX_WIDTH || (value == 0 && accumulator == 0 && bitsInAccumulator == 0)
      modifies this`bytePosition, this`accumulator, this`bitsInAccumulator, this`error, data
      ensures Valid() && bytePosition >= old(bytePosition)
      ensures error <==> (|old(Written())| + numBits) / 8 > maxBytes
      ensures !error ==> Written() == old(Written()) + Digits(value, numBits)
      ensures data[bytePosition..] == old(data[..])[bytePosition..]
    {
      if numBits == 0 {
        assert Written() + Digits(value, 0) == Written();
        return;
      }
      ghost var goal := Written() + Digits(value, numBits);
      PutIn(value, numBits);
      while bitsInAccumulator >= 8
        invariant old(bytePosition) <= bytePosition <= maxBytes <= data.Length && !error && Written() == goal
        invariant data[bytePosition..] == old(data[..])[bytePosition..]
        decreases bitsInAccumulator
      {
        if bytePosition >= maxBytes {
          error := true;
          return;
        }
        PutByte();
      }
    }

    /** The last byte, filled up with zeros. */
    method PutLast()
      requires 0 < bitsInAccumulator <= 7 && bytePosition < maxBytes <= data.Length
      modifies this`bytePosition, this`accumulator, this`bitsInAccumulator, data
      ensures bytePosition == old(bytePosition) + 1 && bitsInAccumulator == 0
      ensures Written() == old(Written()) + Digits(0, 8 - old(bitsInAccumulator))
      ensures data[bytePosition..] == old(data[..])[bytePosition..]
    {
      ghost var bytes, acc, b := data[..bytePosition], accumulator, bitsInAccumulator;
      var out := Lo(ShiftLeft(accumulator, 8 - bitsInAccumulator));
      data[bytePosition] := out;
      bytePosition := bytePosition + 1;
      bitsInAccumulator, accumulator := 0, 0;
      assert data[..bytePosition] == bytes + [out];
      assert (bytes + [out])[..|bytes|] == bytes;
      PaddedByte(acc, b);
      assert BytesBits(data[..bytePosition]) == BytesBits(bytes) + (Digits(acc, b) + Digits(0, 8 - b));
      assert Digits(0, 0) == [];
    }

    /** flush: zeros up to the next byte boundary. */
    method Flush()
      requires Valid() && !error
      modifies this`bytePosition, this`accumulator, this`bitsInAccumulator, this`error, data
      ensures Valid() && bytePosition >= old(bytePosition)
      ensures error <==> |old(Written())| > 8 * maxBytes
      ensures !error ==> bitsInAccumulator == 0 && Written() == BytesBits(data[..bytePosition])
      ensures !error ==> Written() == old(Written()) + Digits(0, (8 - |old(Written())| % 8) % 8)
      ensures data[bytePosition..] == old(data[..])[bytePosition..]
    {
      ghost var before := Written();
      assert |before| % 8 == bitsInAccumulator;
      if bitsInAccumulator > 0 {
        if bytePosition >= maxBytes {
          error := true;
          return;
        }
        PutLast();
      } else {
        assert before + Digits(0, 0) == before;
      }
      assert BytesBits(data[..bytePosition]) + Digits(accumulator, 0) == BytesBits(data[..bytePosition]);
    }
  }

  /** The accumulator with the bits of a value shifted in. */
  function Entered(acc: nat, value: nat, n: nat): nat {
    Word(BitOr(ShiftLeft(acc, n % WORD_BITS), LowBits(value, n % WORD_BITS)))
  }

  lemma ShiftedIn(acc: nat, b: nat, value: nat, n: nat)
    requires b <= 7 && (n <= MAX_WIDTH || (n <= WORD_BITS && value == 0 && acc == 0 && b == 0))
    ensures Digits(Entered(acc, value, n), b + n) == Digits(acc, b) + Digits(value, n)
  {
    if n <= MAX_WIDTH { NarrowIn(acc, b, value, n, n % WORD_BITS); } else { WideIn(acc, b, value, n, n % WORD_BITS); }
  }

  lemma NarrowIn(acc: nat, b: nat, value: nat, n: nat, shift: nat)
    requires b <= 7 && n <= MAX_WIDTH && shift == n
    ensures Digits(Word(BitOr(ShiftLeft(acc, shift), LowBits(value, shift))), b + n) == Digits(acc, b) + Digits(value, n)
  {
    DigitsShiftedIn(acc, b, value, n);
    WordDigits(BitOr(ShiftLeft(acc, n), LowBits(value, n)), b + n);
  }

  lemma WideIn(acc: nat, b: nat, value: nat, n: nat, shift: nat)
    requires n <= WORD_BITS && value == 0 && acc == 0 && b == 0
    ensures Digits(Word(BitOr(ShiftLeft(acc, shift), LowBits(value, shift))), b + n) == Digits(acc, b) + Digits(value, n)
  {
    NothingIn(shift, n);
    assert b + n == n && Digits(acc, b) == [];
  }

  lemma NothingIn(shift: nat, n: nat)
    requires n <= WORD_BITS
    ensures Digits(Word(BitOr(ShiftLeft(0, shift), LowBits(0, shift))), n) == Digits(0, n)
  {
    var x := BitOr(ShiftLeft(0, shift), LowBits(0, shift));
    WordDigits(x, n);
    forall i | 0 <= i < n ensures Digits(x, n)[i] == Digits(0, n)[i] {
      var j := n - 1 - i;
      BitOrBit(ShiftLeft(0, shift), LowBits(0, shift), j);
      ShiftLeftBit(0, shift, j);
      LowBitsBit(0, shift, j);
      ZeroBits(j);
      if j >= shift { ZeroBits(j - shift); }
    }
  }

  lemma PaddedByte(acc: nat, b: nat)
    requires b <= 8
    ensures ByteBits(Lo(ShiftLeft(acc, 8 - b))) == Digits(acc, b) + Digits(0, 8 - b)
  {
    var out := Lo(ShiftLeft(acc, 8 - b));
    forall i | 0 <= i < 8 ensures Digits(out, 8)[i] == (Digits(acc, b) + Digits(0, 8 - b))[i] {
      LoBit(ShiftLeft(acc, 8 - b), 7 - i);
      ShiftLeftBit(acc, 8 - b, 7 - i);
      if i >= b { ZeroBits(7 - i); }
    }
  }

  class Reader {
    const data: seq<byte>
    const maxBytes: nat
    var bytePosition: nat
    var accumulator: nat
    var bitsInAccumulator: nat
    var error: bool

    ghost predicate Valid()
      reads this
    {
      bytePosition <= maxBytes <= |data| && bitsInAccumulator <= 7
    }

    /** The bits that have not been read. */
    ghost function Rest(): (bits: seq<bool>)
      requires bytePosition <= maxBytes <= |data|
      reads this
    {
      Digits(accumulator, bitsInAccumulator) + BytesBits(data[bytePosition..maxBytes])
    }

    /** No read has failed, and these are the bits that have not been read. */
    ghost predicate Holds(bits: seq<bool>)
      reads this
    {
      Valid() && !error && Rest() == bits
    }

    constructor (data: seq<byte>, size: nat)
      requires size <= |data|
      ensures this.data == data && maxBytes == size && Holds(BytesBits(data[..size]))
    {
      this.data, maxBytes := data, size;
      bytePosition, accumulator, bitsInAccumulator, error := 0, 0, 0, false;
      new;
      assert Digits(0, 0) + BytesBits(data[0..size]) == BytesBits(data[..size]);
    }

    function BitPosition(): (n: int)
      requires bytePosition <= maxBytes <= |data|
      reads this
      ensures n == 8 * maxBytes - |Rest()|
    {
      8 * bytePosition - bitsInAccumulator
    }

    /** One more byte enters the accumulator. */
    method Refill()
      requires bytePosition < maxBytes <= |data| && bitsInAccumulator < 32
      requires bitsInAccumulator <= MAX_WIDTH
      modifies this`bytePosition, this`accumulator, this`bitsInAccumulator
      ensures bytePosition == old(bytePosition) + 1 && bitsInAccumulator == old(bitsInAccumulator) + 8
      ensures Rest() == old(Rest())
    {
      ghost var acc, b, s, pos := accumulator, bitsInAccumulator, data[bytePosition..maxBytes], bytePosition;
      var c := data[bytePosition];
      accumulator := Word(BitOr(ShiftLeft(accumulator, 8), c));
      bytePosition := bytePosition + 1;
      bitsInAccumulator := bitsInAccumulator + 8;
      Pow2At8And16();
      LowBitsFit(c, 8);
      DigitsShiftedIn(acc, b, c, 8);
      WordDigits(BitOr(ShiftLeft(acc, 8), c), b + 8);
      assert s == [c] + data[bytePosition..maxBytes];
      BytesBitsConcat([c], data[bytePosition..maxBytes]);
      OneByte(c);
      var tail := BytesBits(data[bytePosition..maxBytes]);
      assert Digits(acc, b) + (Digits(c, 8) + tail) == (Digits(acc, b) + Digits(c, 8)) + tail;
    }

    /** getBits: the next bits as a number, or an error if there are not so many. Of 32 bits, which are
        read to skip the frame header, the value is not used. */
    method GetBits(numBits: nat) returns (value: nat)
      requires Valid() && numBits <= WORD_BITS && (numBits <= MAX_WIDTH || bitsInAccumulator == 0)
      modifies this`bytePosition, this`accumulator, this`bitsInAccumulator, this`error
      ensures Valid()
      ensures |old(Rest())| < numBits ==> error && |Rest()| == 0
      ensures |old(Rest())| >= numBits ==> error == old(error) && Rest() == old(Rest())[numBits..]
      ensures |old(Rest())| >= numBits && numBits <= MAX_WIDTH ==> 
        value < Pow2(numBits) && Digits(value, numBits) == old(Rest())[..numBits]
    {
      ghost var all := Rest();
      if numBits == 0 {
        assert Digits(0, 0) == all[..0] && all[0..] == all;
        return 0;
      }
      while bitsInAccumulator < numBits && bytePosition < maxBytes
        invariant bytePosition <= maxBytes && Rest() == all && error == old(error)
        invariant bitsInAccumulator <= 7 || bitsInAccumulator < numBits + 8
        invariant numBits > MAX_WIDTH ==> bitsInAccumulator % 8 == 0
        decreases maxBytes - bytePosition
      {
        Refill();
      }
      if bitsInAccumulator < numBits {
        value := LowBits(ShiftLeft(accumulator, numBits - bitsInAccumulator), numBits % WORD_BITS);
        assert data[bytePosition..maxBytes] == [] && |all| == bitsInAccumulator;
        bitsInAccumulator, accumulator, error := 0, 0, true;
        return;
      }
      value := TakeOut(numBits, all);
    }

    method TakeOut(numBits: nat, ghost all: seq<bool>) returns (value: nat)
      requires bytePosition <= maxBytes <= |data| && Rest() == all
      requires 0 < numBits <= WORD_BITS && numBits <= bitsInAccumulator && (numBits == WORD_BITS ==> bitsInAccumulator == 32)
      modifies this`accumulator, this`bitsInAccumulator
      ensures bitsInAccumulator == old(bitsInAccumulator) - numBits && Rest() == all[numBits..]
      ensures numBits <= MAX_WIDTH ==> value < Pow2(numBits) && Digits(value, numBits) == all[..numBits]
    {
      ghost var acc, b := accumulator, bitsInAccumulator;
      ghost var hi := LowBits(ShiftRight(acc, b - numBits), numBits);
      bitsInAccumulator := bitsInAccumulator - numBits;
      value := LowBits(ShiftRight(accumulator, bitsInAccumulator), numBits % WORD_BITS);
      accumulator := LowBits(accumulator, bitsInAccumulator);
      DigitsSplit(acc, b, numBits);
      ghost var tail := BytesBits(data[bytePosition..maxBytes]);
      assert all == Digits(hi, numBits) + (Digits(accumulator, bitsInAccumulator) + tail);
    }
  }

  lemma OneByte(c: byte)
    ensures BytesBits([c]) == ByteBits(c)
  {
    assert [c][..0] == [];
    assert BytesBits([c]) == BytesBits([]) + ByteBits(c);
  }
}
