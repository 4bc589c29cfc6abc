/** Symbols and positions to and from the bit stream. */
module SymbolCoder {
  import opened Bits
  import opened BitStreams
  import opened PositionTables
  import opened Positions
  import opened Constants
  import opened HuffmanTree
  import opened HuffmanRebuild
  import opened HuffmanCode
  import opened HuffmanCoder

  // ----- encodeChar's 16-bit code register

  /** The register holds the first 16 of the last `len` turns of the path. */
  ghost predicate HoldsTail(code: nat, path: seq<bool>, len: nat) {
    len <= |path| && code < 0x10000 &&
    forall i: nat | i < 16 :: RegBit(code, i) == (i < len && path[|path| - len + i])
  }

  lemma ShiftInTurn(code: nat, path: seq<bool>, len: nat)
    requires HoldsTail(code, path, len) && len < |path|
    ensures var turn := path[|path| - len - 1];
            HoldsTail(ShiftRight(code, 1) + (if turn then 0x8000 else 0), path, len + 1)
  {
    var turn := path[|path| - len - 1];
    var x := ShiftRight(code, 1);
    assert x == ShiftRight(code / 2, 0) == code / 2;
    var y := x + (if turn then 0x8000 else 0);
    Pow2At8And16();
    forall i: nat | i < 16 ensures RegBit(y, i) == (i < len + 1 && path[|path| - (len + 1) + i]) {
      ShiftRightBit(code, 1, 15 - i);
      if turn { AddTopBit(x, 15, 15 - i); }
      if i == 0 {
        NoHighBits(code, 16, 16);
      } else {
        assert RegBit(code, i - 1) == BitAt(code, 16 - i);
      }
    }
  }

  /** A whole path of at most 16 turns ends up as its left-aligned code word. */
  lemma TailIsCode(code: nat, path: seq<bool>)
    requires HoldsTail(code, path, |path|) && |path| <= 16
    ensures IsCode(code, path)
  {
  }

  /** One turn up the path, d turns below the root. */
  lemma OneUp(t: Tree, v: nat, k: nat, path: seq<bool>, code: nat, len: nat, d: nat)
    requires AtRest(t) && v <= R && path == Path(t, v) && len + d + 1 == |path| && k == NodeAt(t, v, d + 1)
    requires HoldsTail(code, path, len)
    ensures k < R && t.parent[k] == NodeAt(t, v, d) && (t.parent[k] == R <==> d == 0)
    ensures HoldsTail(ShiftRight(code, 1) + (if k % 2 > 0 then 0x8000 else 0), path, len + 1)
  {
    StepUp(t, v, d);
    OnlyRootAtStart(t, v, d);
    ShiftInTurn(code, path, len);
  }

  /** The loop of encodeChar, climbing from the leaf to the root. */
  method BuildCode(h: Huffman, c: nat) returns (len: nat, code: nat)
    requires h.Valid() && c < NCHAR
    ensures len == |Code(h.Tree(), c)| && HoldsTail(code, Code(h.Tree(), c), len)
  {
    ghost var t := h.Tree();
    ghost var v := LeafOf(t, c);
    ghost var path := Code(t, c);
    len, code := 0, 0;
    var k := h.parent[c + T];
    forall i: nat | i < 16 ensures !RegBit(0, i) { ZeroBits(15 - i); }
    while true
      invariant len < |path| && k == NodeAt(t, v, |path| - len)
      invariant HoldsTail(code, path, len)
      decreases |path| - len
    {
      OneUp(t, v, k, path, code, len, |path| - len - 1);
      code := ShiftRight(code, 1);
      if k % 2 > 0 { code := code + 0x8000; }
      len := len + 1;
      k := h.parent[k];
      if k == R { break; }
    }
  }

  /** What encodeChar appends to the bits put before: a code word of up to 16 bits as it is; a
      longer one (of at most 21 bits) survives exactly if it turns left from its 17th turn on. */
  ghost predicate CharPut(packed: Packed, bits: seq<bool>, code: seq<bool>) {
    (|code| <= 16 ==> packed.Spelling(bits + code)) &&
    (packed.Holds(bits + code) <==> |code| <= 16 || ClearFrom(code, 16))
  }

  lemma PathPut(packed: Packed, bits: seq<bool>, code: nat, path: seq<bool>)
    requires packed.Spelling(bits) && HoldsTail(code, path, |path|) && |path| <= 21
    ensures CharPut(packed.Put(|path|, code), bits, path)
  {
    if |path| <= 16 {
      TailIsCode(code, path);
      packed.PutSpells(bits, code, path);
    } else {
      packed.PutTooLong(bits, code, path);
    }
  }

  ghost predicate Apart(h: Huffman, out: BitWriter) {
    h.freq as object != out.outBuf && h.son as object != out.outBuf && h.parent as object != out.outBuf
  }

  method EncodeChar(h: Huffman, out: BitWriter, c: nat, ghost bits: seq<bool>)
    requires h.Valid() && out.Valid() && Apart(h, out) && c < NCHAR
    modifies h.freq, h.son, h.parent, out, out.outBuf
    ensures h.Valid() && h.Tree() == Updated(old(h.Tree()), c)
    ensures out.Valid() && old(out.written) <= out.written
    ensures out.codeSize - old(out.codeSize) == |out.written| - |old(out.written)|
    ensures old(out.State().Spelling(bits)) ==> CharPut(out.State(), bits, Code(old(h.Tree()), c))
  {
    ghost var path, packed := Code(h.Tree(), c), out.State();
    ghost var written := out.written;
    var len, code := BuildCode(h, c);
    LongestCode(h.Tree(), c);
    out.PutCode(len, code);
    if packed.Spelling(bits) { PathPut(packed, bits, code, path); }
    assert written <= out.written;
    h.Update(c);
  }

  method EncodePosition(out: BitWriter, c: nat, ghost bits: seq<bool>)
    requires out.Valid() && c < 0x1000
    modifies out, out.outBuf
    ensures out.Valid() && old(out.written) <= out.written
    ensures out.codeSize - old(out.codeSize) == |out.written| - |old(out.written)|
    ensures old(out.State().Spelling(bits)) ==> out.State().Spelling(bits + PositionBits(c))
  {
    var i := UpperPart(c);
    PositionPut(out.State(), bits, c);
    out.PutCode(PLen(i), ShiftLeft(PCode(i), 8));
    out.PutCode(6, ShiftLeft(LowBits(c, 6), 10));
  }

  lemma PositionPut(packed: Packed, bits: seq<bool>, c: nat)
    requires c < 0x1000
    ensures var i := UpperPart(c);
            var next := packed.Put(PLen(i), ShiftLeft(PCode(i), 8)).Put(6, ShiftLeft(LowBits(c, 6), 10));
            packed.Spelling(bits) ==> next.Spelling(bits + PositionBits(c))
  {
    var i := UpperPart(c);
    UpperIsCode(i);
    LowerIsCode(c);
    if packed.Spelling(bits) {
      packed.PutSpells(bits, ShiftLeft(PCode(i), 8), UpperBits(i));
      packed.Put(PLen(i), ShiftLeft(PCode(i), 8)).PutSpells(bits + UpperBits(i), ShiftLeft(LowBits(c, 6), 10), LowerBits(c));
      assert bits + UpperBits(i) + LowerBits(c) == bits + PositionBits(c);
    }
  }

  // ----- decoding

  /** Down every edge the node number falls. */
  lemma Descends(t: Tree, k: nat)
    requires AtRest(t) && k < T
    ensures t.son[k] < T + NCHAR && (t.son[k] < T ==> t.son[k] + 1 < k)
  {
    assert SonOk(t.son[k], k);
  }

  /** d bits into the code of s, decodeChar stands at the d-th node of the path. */
  ghost predicate OnPath(t: Tree, s: nat, k: nat, d: nat)
    requires AtRest(t) && s < NCHAR
  {
    d <= |Code(t, s)| && k == NodeAt(t, LeafOf(t, s), d)
  }

  lemma WalkOn(t: Tree, s: nat, k: nat, d: nat, input: seq<byte>, pos: nat, expected: bool)
    requires AtRest(t) && s < NCHAR && k < |t.son|
    requires expected ==> OnPath(t, s, k, d) && BitsAt(input, pos, Code(t, s))
    ensures t.son[k] < T + NCHAR && (t.son[k] < T ==> t.son[k] + 1 < k)
    ensures expected && d == |Code(t, s)| ==> t.son[k] == s + T
    ensures expected && d != |Code(t, s)| ==>
              t.son[k] < T && OnPath(t, s, t.son[k] + (if StreamBit(input, pos + d) then 1 else 0), d + 1)
  {
    Descends(t, k);
    if expected && d < |Code(t, s)| { StepDown(t, LeafOf(t, s), d); }
  }

  /** One turn of the walk. */
  method Turn(h: Huffman, inp: BitReader, c0: nat, ghost s: nat, ghost k0: nat, ghost d: nat, ghost pos: nat,
              ghost expected: bool)
    returns (c: nat, ghost k: nat)
    requires h.Valid() && inp.Valid() && s < NCHAR && k0 <= R && c0 == h.son[k0] < T
    requires expected ==> OnPath(h.Tree(), s, k0, d) && BitsAt(inp.inBuf, pos, Code(h.Tree(), s)) && inp.Pos() == pos + d
    modifies inp
    ensures inp.Valid() && inp.getLen >= 8 && k < k0 && c == h.son[k]
    ensures expected ==> OnPath(h.Tree(), s, k, d + 1) && inp.Pos() == pos + d + 1
  {
    WalkOn(h.Tree(), s, k0, d, inp.inBuf, pos, expected);
    var b := inp.GetBit();
    k := c0 + b;
    c := h.son[c0 + b];
  }

  /** The walk of decodeChar down the tree. Whatever the input, it ends at a leaf; if the input
      continues with the code of s, it ends at the leaf of s, just after that code. */
  method WalkDown(h: Huffman, inp: BitReader, ghost s: nat) returns (c: nat)
    requires h.Valid() && inp.Valid() && s < NCHAR
    modifies inp
    ensures c < NCHAR && inp.Valid() && inp.getLen >= 8
    ensures var code := Code(h.Tree(), s);
            BitsAt(inp.inBuf, old(inp.Pos()), code) ==> c == s && inp.Pos() == old(inp.Pos()) + |code|
  {
    ghost var t, pos := h.Tree(), inp.Pos();
    ghost var expected := BitsAt(inp.inBuf, pos, Code(t, s));
    ghost var k: nat, d: nat := R, 0;
    RootIsInner(t);
    StartDown(t, LeafOf(t, s));
    c := h.son[R];
    while c < T
      invariant k <= R && c == t.son[k] && inp.Valid()
      invariant c >= T ==> inp.getLen >= 8
      invariant expected ==> OnPath(t, s, k, d) && inp.Pos() == pos + d
      decreases k
    {
      c, k := Turn(h, inp, c, s, k, d, pos, expected);
      d := d + 1;
    }
    WalkOn(t, s, k, d, inp.inBuf, pos, expected);
    c := c - T;
  }

  method DecodeChar(h: Huffman, inp: BitReader, ghost s: nat) returns (c: nat)
    requires h.Valid() && inp.Valid() && s < NCHAR
    modifies h.freq, h.son, h.parent, inp
    ensures c < NCHAR && inp.Valid() && inp.getLen >= 8
    ensures h.Valid() && h.Tree() == Updated(old(h.Tree()), c)
    ensures var code := Code(old(h.Tree()), s);
            BitsAt(inp.inBuf, old(inp.Pos()), code) ==> c == s && inp.Pos() == old(inp.Pos()) + |code|
  {
    c := WalkDown(h, inp, s);
    h.Update(c);
  }

  /** One more bit is shifted in below the n bits gathered so far. */
  method ShiftInBit(inp: BitReader, i: nat, ghost pos: nat, ghost n: nat) returns (i': nat)
    requires inp.Valid() && inp.Pos() == pos + n && n < 16 && Gathered(i, inp.inBuf, pos, n)
    modifies inp
    ensures inp.Valid() && inp.getLen >= 8
    ensures inp.Pos() == pos + n + 1 && Gathered(i', inp.inBuf, pos, n + 1)
  {
    var b := inp.GetBit();
    GatherStep(i, inp.inBuf, pos, n, b);
    i' := Mask16(BitOr(ShiftLeft(i, 1), b));
  }

  /** The bit loop of decodePosition: j0 more bits are shifted in below the byte i0. */
  method GatherBits(inp: BitReader, i0: byte, j0: nat, ghost pos: nat) returns (i: nat)
    requires inp.Valid() && inp.Pos() == pos + 8 && 0 < j0 <= 6 && Gathered(i0, inp.inBuf, pos, 8)
    modifies inp
    ensures inp.Valid() && inp.getLen >= 8
    ensures inp.Pos() == pos + 8 + j0 && Gathered(i, inp.inBuf, pos, 8 + j0)
  {
    i := i0;
    var j := j0;
    ghost var n := 8;
    while j > 0
      invariant j <= j0 && n == 8 + j0 - j && inp.Valid()
      invariant j == 0 ==> inp.getLen >= 8
      invariant inp.Pos() == pos + n && Gathered(i, inp.inBuf, pos, n)
    {
      i := ShiftInBit(inp, i, pos, n);
      j, n := j - 1, n + 1;
    }
  }

  method DecodePosition(inp: BitReader, ghost p: nat) returns (c: nat)
    requires inp.Valid() && p < 0x1000
    modifies inp
    ensures inp.Valid() && inp.getLen >= 8
    ensures BitsAt(inp.inBuf, old(inp.Pos()), PositionBits(p)) ==>
              c == p && inp.Pos() == old(inp.Pos()) + |PositionBits(p)|
  {
    ghost var pos := inp.Pos();
    var first := inp.GetByte();
    GatherStart(first, inp.inBuf, pos);
    DecoderTables(first);
    c := Mask16(ShiftLeft(DCode(first), 6));
    var i := GatherBits(inp, first, DLen(first) - 2, pos);
    c := BitOr(c, LowBits(i, 6));
    PositionRead(inp.inBuf, pos, p, first, i, DLen(first) + 6);
  }

  lemma PositionRead(s: seq<byte>, pos: nat, p: nat, first: byte, i: nat, n: nat)
    requires p < 0x1000 && Gathered(first, s, pos, 8) && n == DLen(first) + 6 && Gathered(i, s, pos, n)
    ensures BitsAt(s, pos, PositionBits(p)) ==>
              BitOr(Mask16(ShiftLeft(DCode(first), 6)), LowBits(i, 6)) == p && n == |PositionBits(p)|
  {
    if BitsAt(s, pos, PositionBits(p)) {
      FirstByte(s, pos, p, first);
      LookUp(first, UpperPart(p));
      Reassemble(p, i, s, pos);
    }
  }

  /** The byte read first starts with the code of the upper part. */
  lemma FirstByte(s: seq<byte>, pos: nat, p: nat, b: byte)
    requires p < 0x1000 && BitsAt(s, pos, PositionBits(p)) && Gathered(b, s, pos, 8)
    ensures forall k: nat | k < |UpperBits(UpperPart(p))| :: ByteBit(b, k) == UpperBits(UpperPart(p))[k]
  {
    forall k: nat | k < |UpperBits(UpperPart(p))| ensures ByteBit(b, k) == UpperBits(UpperPart(p))[k] {
      assert BitAt(b, 7 - k) == StreamBit(s, pos + k);
      assert StreamBit(s, pos + k) == PositionBits(p)[k];
    }
  }
}
