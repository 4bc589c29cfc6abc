/** Numbers and bytes as sequences of bits, the most significant bit first. */
module Binary {
  import opened Bits

  /** The n low bits of v. */
  function Digits(v: nat, n: nat): (bits: seq<bool>)
    ensures |bits| == n
  {
    seq(n, i requires 0 <= i < n => BitAt(v, n - 1 - i))
  }

  function ByteBits(c: byte): (bits: seq<bool>)
    ensures |bits| == 8
  {
    Digits(c, 8)
  }

  function BytesBits(s: seq<byte>): (bits: seq<bool>)
    ensures |bits| == 8 * |s|
  {
    if s == [] then [] else BytesBits(s[..|s| - 1]) + ByteBits(s[|s| - 1])
  }

  lemma {:induction false} BytesBitsConcat(a: seq<byte>, b: seq<byte>)
    ensures BytesBits(a + b) == BytesBits(a) + BytesBits(b)
  {
    if b == [] {
      assert a + b == a;
    } else {
      assert (a + b)[..|a + b| - 1] == a + b[..|b| - 1];
      BytesBitsConcat(a, b[..|b| - 1]);
    }
  }

  /** A number below 2^n is what its n bits say. */
  lemma DigitsDetermine(x: nat, y: nat, n: nat)
    requires x < Pow2(n) && y < Pow2(n) && Digits(x, n) == Digits(y, n)
    ensures x == y
  {
    forall j: nat | j < n ensures BitAt(x, j) == BitAt(y, j) {
      assert Digits(x, n)[n - 1 - j] == Digits(y, n)[n - 1 - j];
    }
    BitsDetermine(x, y, n);
  }

  lemma DigitsMasked(v: nat, m: nat, n: nat)
    requires n <= m
    ensures Digits(LowBits(v, m), n) == Digits(v, n)
  {
    forall i | 0 <= i < n ensures Digits(LowBits(v, m), n)[i] == Digits(v, n)[i] { LowBitsBit(v, m, n - 1 - i); }
  }

  /** A value shifted in below b bits. */
  lemma DigitsShiftedIn(acc: nat, b: nat, v: nat, n: nat)
    ensures Digits(BitOr(ShiftLeft(acc, n), LowBits(v, n)), b + n) == Digits(acc, b) + Digits(v, n)
  {
    var x := BitOr(ShiftLeft(acc, n), LowBits(v, n));
    forall i | 0 <= i < b + n ensures Digits(x, b + n)[i] == (Digits(acc, b) + Digits(v, n))[i] {
      var j := b + n - 1 - i;
      BitOrBit(ShiftLeft(acc, n), LowBits(v, n), j);
      ShiftLeftBit(acc, n, j);
      LowBitsBit(v, n, j);
    }
  }

  /** The upper n of b bits and the others. */
  lemma DigitsSplit(acc: nat, b: nat, n: nat)
    requires n <= b
    ensures Digits(acc, b) == Digits(LowBits(ShiftRight(acc, b - n), n), n) + Digits(LowBits(acc, b - n), b - n)
  {
    var hi, lo := LowBits(ShiftRight(acc, b - n), n), LowBits(acc, b - n);
    forall i | 0 <= i < b ensures Digits(acc, b)[i] == (Digits(hi, n) + Digits(lo, b - n))[i] {
      if i < n {
        LowBitsBit(ShiftRight(acc, b - n), n, n - 1 - i);
        ShiftRightBit(acc, b - n, n - 1 - i);
      } else {
        LowBitsBit(acc, b - n, b - 1 - i);
      }
    }
  }

  /** The bits of the concatenation of values of given widths. */
  function Fields(values: seq<nat>, widths: seq<nat>): (bits: seq<bool>)
    requires |values| == |widths|
  {
    if values == [] then [] else Digits(values[0], widths[0]) + Fields(values[1..], widths[1..])
  }

  lemma {:induction false} FieldsConcat(v: seq<nat>, w: seq<nat>, v': seq<nat>, w': seq<nat>)
    requires |v| == |w| && |v'| == |w'|
    ensures Fields(v + v', w + w') == Fields(v, w) + Fields(v', w')
  {
    if v == [] {
      assert v + v' == v' && w + w' == w';
    } else {
      assert (v + v')[1..] == v[1..] + v' && (w + w')[1..] == w[1..] + w';
      FieldsConcat(v[1..], w[1..], v', w');
    }
  }
}
