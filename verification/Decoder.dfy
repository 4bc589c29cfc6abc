/** decode: the message is rebuilt from the bit stream through the same window and tree. */
module Decoder {
  import opened Bits
  import opened Crc
  import opened BitStreams
  import opened Constants
  import opened Positions
  import opened HuffmanTree
  import opened HuffmanRebuild
  import opened HuffmanCode
  import opened HuffmanCoder
  import opened SymbolCoder
  import opened Lzss

  datatype Outcome = Outcome(data: seq<byte>, crc: nat, size: nat)

  /** The window holds the last N-F bytes of the history before position a. */
  ghost predicate RingOk(text: seq<byte>, h: seq<byte>, a: nat)
    requires |text| >= N && a <= |h|
  {
    a >= START && forall q: nat | a - START <= q < a :: text[q % N] == h[q]
  }

  lemma RingWrite(text: seq<byte>, h: seq<byte>, a: nat)
    requires |text| >= N && a < |h| && RingOk(text, h, a)
    ensures RingOk(text[a % N := h[a]], h, a + 1)
  {
    forall q: nat | a + 1 - START <= q < a + 1 ensures text[a % N := h[a]][q % N] == h[q] {
      if q < a { DistinctSlots(q, a); }
    }
  }

  /** Positions less than a window apart have different slots. */
  lemma DistinctSlots(q: nat, a: nat)
    requires q < a < q + N
    ensures q % N != a % N
  {
  }

  lemma SlotSum(i: int, k: nat)
    ensures (i % N + k) % N == (i + k) % N
  {
  }

  /** decode's working state, to be compared with the message being decoded. */
  datatype Progress = Progress(text: seq<byte>, written: seq<byte>, r: nat) {
    /** Everything before position a of the history has been put out, and the window shows it. */
    ghost predicate UpTo(h: seq<byte>, a: nat) {
      match this case Progress(_, _, _) =>
        |text| >= N && START <= a <= |h| && RingOk(text, h, a) && r == a % N && written == h[START..a]
    }

    function Emit(c: byte): Progress
      requires |text| >= N && r < N
    {
      Progress(text[r := c], written + [c], (r + 1) % N)
    }

    lemma EmitNext(h: seq<byte>, a: nat)
      requires UpTo(h, a) && a < |h|
      ensures r < N && Emit(h[a]).UpTo(h, a + 1)
    {
      RingWrite(text, h, a);
      SlotSum(a, 1);
    }

    /** A byte of the window, `back` + 1 bytes before position a. */
    lemma LookBack(h: seq<byte>, a: nat, a0: nat, back: nat)
      requires UpTo(h, a) && a0 <= a && back < START <= a0
      ensures text[((a0 - back - 1) % N + (a - a0)) % N] == h[a - back - 1]
    {
      SlotSum(a0 - back - 1, a - a0);
    }

    /** One round of the copying loop in a copy that starts at position a0. */
    lemma CopyNext(h: seq<byte>, a0: nat, k: nat, a: nat, len: nat, back: nat, i: nat)
      requires UpTo(h, a) && a == a0 + k && TokenOk(h, a0, Copy(len, back)) && k < len
      requires i == (a0 - back - 1) % N
      ensures r < N && |text| >= N && Emit(text[(i + k) % N]).UpTo(h, a + 1)
    {
      LookBack(h, a, a0, back);
      EmitNext(h, a);
      assert h[a] == h[a - back - 1];
    }
  }

  /** One output byte: it is put out and enters the window. */
  method Emit(textBuf: array<byte>, out: BitWriter, r: nat, c: byte) returns (r': nat)
    requires textBuf.Length >= N && r < N && out.Valid() && textBuf != out.outBuf
    modifies textBuf, out`outPtr, out`crc, out`written, out.outBuf
    ensures out.Valid() && r' < N
    ensures Progress(textBuf[..], out.written, r') == old(Progress(textBuf[..], out.written, r)).Emit(c)
  {
    out.Putc(c);
    textBuf[r] := c;
    r' := (r + 1) % N;
  }

  /** The copying loop. Whatever the window holds, it puts out `len` bytes; if the message goes on
      with a copy of that length from that far back, it puts out the message. */
  method CopyOut(textBuf: array<byte>, out: BitWriter, r0: nat, i: nat, len: nat,
                 ghost expected: bool, ghost h: seq<byte>, ghost a: nat, ghost back: nat, ghost a': nat)
    returns (r: nat)
    requires textBuf.Length >= N && r0 < N && i < N && out.Valid() && textBuf != out.outBuf
    requires expected ==> TokenOk(h, a, Copy(len, back)) && i == (a - back - 1) % N && a' == a + len
    requires expected ==> Progress(textBuf[..], out.written, r0).UpTo(h, a)
    modifies textBuf, out`outPtr, out`crc, out`written, out.outBuf
    ensures out.Valid() && r < N && |out.written| == |old(out.written)| + len
    ensures expected ==> Progress(textBuf[..], out.written, r).UpTo(h, a')
  {
    r := r0;
    ghost var at := a;
    for k := 0 to len
      invariant out.Valid() && r < N && |out.written| == |old(out.written)| + k && at == a + k
      invariant expected ==> Progress(textBuf[..], out.written, r).UpTo(h, at)
    {
      ghost var state := Progress(textBuf[..], out.written, r);
      if expected { state.CopyNext(h, a, k, at, len, back, i); }
      var c := textBuf[(i + k) % N];
      r := Emit(textBuf, out, r, c);
      at := at + 1;
    }
  }

  /** The decoder between two symbols, compared with a coded message: the first k tokens are done. */
  ghost predicate InStep(x: seq<byte>, toks: seq<Token>, k: nat, t: Tree, pos: nat, p: Progress) {
    match p case Progress(_, _, _) =>
      k <= |toks| && Spell(x, toks) && AllCodable(toks) &&
      t == TreeAfter(toks[..k]) && pos == 32 + |MessageBits(toks[..k])| &&
      p.UpTo(History(x), Reach(toks[..k]))
  }

  /** The next symbol's code is next in the stream. */
  lemma NextSymbol(data: seq<byte>, x: seq<byte>, toks: seq<Token>, k: nat, t: Tree, pos: nat, p: Progress)
    requires Encodes(data, x, toks) && InStep(x, toks, k, t, pos, p) && k < |toks|
    ensures AtRest(t) && Codable(toks[k]) && BitsAt(data, pos, TokenBits(t, toks[k]))
    ensures Reach(toks[..k]) < START + |x| && TokenOk(History(x), Reach(toks[..k]), toks[k])
  {
    BitsStep(toks, k);
    PrefixBits(toks, k + 1);
    Prefix(History(x), toks, k);
    BitsAfter(data, 32, MessageBits(toks[..k]), TokenBits(t, toks[k]), MessageBits(toks));
  }

  lemma BitsAfter(data: seq<byte>, pos: nat, done: seq<bool>, next: seq<bool>, all: seq<bool>)
    requires BitsAt(data, pos, all) && done + next <= all
    ensures BitsAt(data, pos + |done|, next)
  {
    forall i: nat | i < |next| ensures StreamBit(data, pos + |done| + i) == next[i] {
      assert (done + next)[|done| + i] == next[i] == all[|done| + i];
      assert StreamBit(data, pos + (|done| + i)) == all[|done| + i];
    }
  }

  /** What is out up to position a is the message up to there. */
  lemma OutIsMessage(x: seq<byte>, a: nat, p: Progress)
    requires p.UpTo(History(x), a)
    ensures |p.written| == a - START <= |x| && (a == START + |x| ==> p.written == x)
  {
    assert History(x)[START..a] == x[..a - START];
    assert x[..|x|] == x;
  }

  /** Tokens remain exactly as long as part of the message is missing. */
  lemma TokensLeft(x: seq<byte>, toks: seq<Token>, k: nat, a: nat)
    requires Spell(x, toks) && k <= |toks| && a == Reach(toks[..k])
    ensures a == START + |x| <==> k == |toks|
  {
    if k < |toks| { Prefix(History(x), toks, k); } else { assert toks[..k] == toks; }
  }

  lemma InStepParts(x: seq<byte>, toks: seq<Token>, k: nat, t: Tree, pos: nat, p: Progress)
    requires InStep(x, toks, k, t, pos, p)
    ensures Spell(x, toks) && k <= |toks| && p.UpTo(History(x), Reach(toks[..k]))
  {
  }

  /** After the last token, and only then, the whole message is out. */
  lemma AllOut(x: seq<byte>, toks: seq<Token>, k: nat, t: Tree, pos: nat, p: Progress)
    requires InStep(x, toks, k, t, pos, p)
    ensures |p.written| <= |x| && (|p.written| == |x| <==> k == |toks|)
    ensures k <= |toks| && (k == |toks| ==> p.written == x)
  {
    InStepParts(x, toks, k, t, pos, p);
    TokensLeft(x, toks, k, Reach(toks[..k]));
    OutIsMessage(x, Reach(toks[..k]), p);
  }

  /** The token has been decoded. */
  lemma TokenDone(x: seq<byte>, toks: seq<Token>, k: nat, t: Tree, pos: nat, p: Progress, p': Progress,
                  a: nat, pos': nat)
    requires InStep(x, toks, k, t, pos, p) && k < |toks| && AtRest(t) && Codable(toks[k])
    requires a == Reach(toks[..k]) + Width(toks[k]) && p'.UpTo(History(x), a)
    requires pos' == pos + |TokenBits(t, toks[k])|
    ensures InStep(x, toks, k + 1, Updated(t, Symbol(toks[k])), pos', p')
  {
    BitsStep(toks, k);
    Prefix(History(x), toks, k);
    assert a == Reach(toks[..k + 1]);
  }

  /** The objects of one decode run do not overlap. */
  ghost predicate Separate(h: Huffman, inp: BitReader, textBuf: array<byte>, out: BitWriter) {
    h.freq as object != textBuf && h.son as object != textBuf && h.parent as object != textBuf &&
    h.freq as object != out.outBuf && h.son as object != out.outBuf && h.parent as object != out.outBuf &&
    textBuf != out.outBuf
  }

  /** The decoder between two steps. */
  ghost predicate Running(h: Huffman, inp: BitReader, textBuf: array<byte>, out: BitWriter)
    reads h.freq, h.son, h.parent, inp, out, out.outBuf
  {
    h.Valid() && inp.Valid() && out.Valid() && textBuf.Length >= N && Separate(h, inp, textBuf, out)
  }

  /** What follows a decoded symbol: a literal is put out; for a copy the position is decoded and
      the bytes are repeated. When `expected`, the stream is known to go on with token tok. */
  method PutToken(inp: BitReader, textBuf: array<byte>, out: BitWriter, r: nat, c: nat,
                  ghost expected: bool, ghost h: seq<byte>, ghost a: nat, ghost tok: Token, ghost a': nat)
    returns (r': nat)
    requires inp.Valid() && inp.getLen >= 8 && out.Valid() && c < NCHAR && textBuf.Length >= N && r < N
    requires textBuf != out.outBuf
    requires Codable(tok)
    requires expected ==> c == Symbol(tok) && TokenOk(h, a, tok) && a' == a + Width(tok)
    requires expected ==> Progress(textBuf[..], out.written, r).UpTo(h, a)
    requires expected && tok.Copy? ==> BitsAt(inp.inBuf, inp.Pos(), PositionBits(tok.back))
    modifies inp, textBuf, out, out.outBuf
    ensures inp.Valid() && out.Valid() && inp.getLen >= 8 && r' < N
    ensures |out.written| > |old(out.written)|
    ensures expected ==> Progress(textBuf[..], out.written, r').UpTo(h, a')
    ensures expected ==>
              inp.Pos() == old(inp.Pos()) + (if tok.Copy? then |PositionBits(tok.back)| else 0)
  {
    ghost var p := Progress(textBuf[..], out.written, r);
    ghost var back: nat := if tok.Copy? then tok.back else 0;
    if c < 256 {
      if expected { p.EmitNext(h, a); }
      r' := Emit(textBuf, out, r, c);
    } else {
      var d := DecodePosition(inp, back);
      assert Progress(textBuf[..], out.written, r) == p;
      r' := CopyOut(textBuf, out, r, (r - d - 1) % N, c - 255 + THRESHOLD, expected, h, a, back, a');
    }
  }

  /** decodeChar leaves the output side alone. */
  method ReadSymbol(h: Huffman, inp: BitReader, textBuf: array<byte>, out: BitWriter, r: nat,
                    ghost expected: bool, ghost s: nat, ghost p: Progress, ghost pos': nat)
    returns (c: nat)
    requires Running(h, inp, textBuf, out) && s < NCHAR
    requires p == Progress(textBuf[..], out.written, r)
    requires expected ==> BitsAt(inp.inBuf, inp.Pos(), Code(h.Tree(), s)) && pos' == inp.Pos() + |Code(h.Tree(), s)|
    modifies h.freq, h.son, h.parent, inp
    ensures c < NCHAR && Running(h, inp, textBuf, out) && inp.getLen >= 8
    ensures h.Tree() == Updated(old(h.Tree()), c)
    ensures expected ==> c == s && inp.Pos() == pos'
    ensures p == Progress(textBuf[..], out.written, r)
  {
    c := DecodeChar(h, inp, s);
  }

  /** The output side leaves the tree alone. */
  method WriteToken(h: Huffman, inp: BitReader, textBuf: array<byte>, out: BitWriter, r: nat, c: nat,
                    ghost expected: bool, ghost hist: seq<byte>, ghost a: nat, ghost tok: Token, ghost a': nat)
    returns (r': nat)
    requires Running(h, inp, textBuf, out) && inp.getLen >= 8 && c < NCHAR && r < N && Codable(tok)
    requires expected ==> c == Symbol(tok) && TokenOk(hist, a, tok) && a' == a + Width(tok)
    requires expected ==> Progress(textBuf[..], out.written, r).UpTo(hist, a)
    requires expected && tok.Copy? ==> BitsAt(inp.inBuf, inp.Pos(), PositionBits(tok.back))
    modifies inp, textBuf, out, out.outBuf
    ensures Running(h, inp, textBuf, out) && inp.getLen >= 8 && r' < N && h.Tree() == old(h.Tree())
    ensures |out.written| > |old(out.written)|
    ensures expected ==> Progress(textBuf[..], out.written, r').UpTo(hist, a')
    ensures expected ==>
              inp.Pos() == old(inp.Pos()) + (if tok.Copy? then |PositionBits(tok.back)| else 0)
  {
    r' := PutToken(inp, textBuf, out, r, c, expected, hist, a, tok, a');
  }

  /** A symbol and what follows it; when `expected`, the stream is known to go on with token tok,
      and the tree and the stream to get to t' and pos'. */
  method ReadToken(h: Huffman, inp: BitReader, textBuf: array<byte>, out: BitWriter, r: nat,
                   ghost expected: bool, ghost hist: seq<byte>, ghost a: nat, ghost tok: Token,
                   ghost a': nat, ghost t': Tree, ghost pos': nat)
    returns (r': nat)
    requires Running(h, inp, textBuf, out) && r < N && Codable(tok)
    requires expected ==> TokenOk(hist, a, tok) && a' == a + Width(tok)
    requires expected ==> Progress(textBuf[..], out.written, r).UpTo(hist, a)
    requires expected ==> BitsAt(inp.inBuf, inp.Pos(), TokenBits(h.Tree(), tok))
    requires expected ==> t' == Updated(h.Tree(), Symbol(tok)) && pos' == inp.Pos() + |TokenBits(h.Tree(), tok)|
    modifies h.freq, h.son, h.parent, inp, textBuf, out, out.outBuf
    ensures Running(h, inp, textBuf, out) && inp.getLen >= 8 && r' < N
    ensures |out.written| > |old(out.written)|
    ensures expected ==> Progress(textBuf[..], out.written, r').UpTo(hist, a')
    ensures expected ==> h.Tree() == t' && inp.Pos() == pos'
  {
    ghost var p := Progress(textBuf[..], out.written, r);
    ghost var mid := inp.Pos() + |Code(h.Tree(), Symbol(tok))|;
    if expected { CodeFirst(inp.inBuf, inp.Pos(), h.Tree(), tok, mid, pos'); }
    var c := ReadSymbol(h, inp, textBuf, out, r, expected, Symbol(tok), p, mid);
    r' := WriteToken(h, inp, textBuf, out, r, c, expected, hist, a, tok, a');
  }

  /** One round of decode's main loop. Whatever the input, it puts out at least one byte; on a
      coded message it puts out what the next token stands for. */
  method DecodeToken(h: Huffman, inp: BitReader, textBuf: array<byte>, out: BitWriter, r: nat,
                     ghost expected: bool, ghost x: seq<byte>, ghost toks: seq<Token>, ghost k: nat)
    returns (r': nat)
    requires Running(h, inp, textBuf, out) && r < N
    requires expected ==> Encodes(inp.inBuf, x, toks) && k < |toks|
    requires expected ==> InStep(x, toks, k, h.Tree(), inp.Pos(), Progress(textBuf[..], out.written, r))
    modifies h.freq, h.son, h.parent, inp, textBuf, out, out.outBuf
    ensures Running(h, inp, textBuf, out) && inp.getLen >= 8 && r' < N
    ensures |out.written| > |old(out.written)|
    ensures expected ==>
              InStep(x, toks, k + 1, h.Tree(), inp.Pos(), Progress(textBuf[..], out.written, r'))
  {
    ghost var t, pos, p := h.Tree(), inp.Pos(), Progress(textBuf[..], out.written, r);
    ghost var tok, a: nat := Literal(0), 0;
    if expected {
      NextSymbol(inp.inBuf, x, toks, k, t, pos, p);
      tok, a := toks[k], Reach(toks[..k]);
    }
    ghost var a', t', pos' := a + Width(tok), Updated(t, Symbol(tok)), pos + |TokenBits(t, tok)|;
    r' := ReadToken(h, inp, textBuf, out, r, expected, History(x), a, tok, a', t', pos');
    if expected {
      TokenDone(x, toks, k, t, pos, p, Progress(textBuf[..], out.written, r'), a', pos');
    }
  }

  /** A token's bits start with its symbol's code word; a copy's go on with its position. */
  lemma CodeFirst(data: seq<byte>, pos: nat, t: Tree, tok: Token, mid: nat, end: nat)
    requires AtRest(t) && Codable(tok) && BitsAt(data, pos, TokenBits(t, tok))
    requires mid == pos + |Code(t, Symbol(tok))| && end == pos + |TokenBits(t, tok)|
    ensures BitsAt(data, pos, Code(t, Symbol(tok)))
    ensures tok.Copy? ==> BitsAt(data, mid, PositionBits(tok.back))
    ensures end == mid + (if tok.Copy? then |PositionBits(tok.back)| else 0)
  {
    if tok.Copy? {
      var code := Code(t, Symbol(tok));
      BitsAfter(data, pos, code, PositionBits(tok.back), TokenBits(t, tok));
      forall i: nat | i < |code| ensures StreamBit(data, pos + i) == code[i] {
        assert TokenBits(t, tok)[i] == code[i];
      }
    }
  }

  // ----- decode

  /** A window as it is at the start: spaces up to the first position. */
  ghost predicate Blank(text: seq<byte>) {
    |text| >= N && forall i | 0 <= i < START :: text[i] == 0x20
  }

  lemma StartUpTo(x: seq<byte>, text: seq<byte>)
    requires Blank(text)
    ensures Progress(text, [], START).UpTo(History(x), START)
  {
    var h := History(x);
    assert h[START..START] == [];
    forall q: nat | START - START <= q < START ensures text[q % N] == h[q] {
      assert q % N == q;
    }
  }

  lemma StartInStep(data: seq<byte>, x: seq<byte>, toks: seq<Token>, text: seq<byte>)
    requires Encodes(data, x, toks) && Blank(text)
    ensures InStep(x, toks, 0, StartTree(), 32, Progress(text, [], START))
  {
    StartUpTo(x, text);
    NoTokens(toks);
  }

  lemma NoTokens(toks: seq<Token>)
    ensures toks[..0] == [] && AllCodable(toks[..0]) && Reach(toks[..0]) == START
    ensures MessageBits(toks[..0]) == [] && TreeAfter(toks[..0]) == StartTree()
  {
  }

  /** By the end of a coded message every input byte has been fetched, because getBit refills its
      register before it takes a bit: the CRC has seen the whole input. */
  lemma AllFetched(data: seq<byte>, x: seq<byte>, toks: seq<Token>, t: Tree, pos: nat, p: Progress,
                   fetched: nat, getLen: nat)
    requires Encodes(data, x, toks) && InStep(x, toks, |toks|, t, pos, p)
    requires pos == 8 * fetched - getLen && getLen >= 8
    ensures fetched >= |data|
  {
    assert toks[..|toks|] == toks;
  }

  method FillSpaces(textBuf: array<byte>)
    requires textBuf.Length >= N
    modifies textBuf
    ensures forall i | 0 <= i < START :: textBuf[i] == 0x20
    ensures forall i | START <= i < textBuf.Length :: textBuf[i] == old(textBuf[i])
  {
    for i := 0 to N - F
      invariant forall k | 0 <= k < i :: textBuf[k] == 0x20
      invariant forall k | i <= k < textBuf.Length :: textBuf[k] == old(textBuf[k])
    {
      textBuf[i] := 0x20;
    }
  }

  /** The four bytes of the size field. */
  method GetSize(inp: BitReader) returns (textSize: int)
    requires inp.Valid() && inp.Pos() == 0 && inp.getLen == 0
    modifies inp
    ensures inp.Valid() && inp.Pos() == 32
    ensures |inp.inBuf| >= 4 ==> textSize == ReadSize(inp.inBuf[..4])
  {
    var b0 := inp.GetRaw();
    var b1 := inp.GetRaw();
    var b2 := inp.GetRaw();
    var b3 := inp.GetRaw();
    textSize := ReadSize([b0, b1, b2, b3]);
    assert |inp.inBuf| >= 4 ==> inp.inBuf[..4] == [b0, b1, b2, b3];
  }

  /** At the end of the loop the message is out and the whole input has been fetched. */
  lemma Finished(data: seq<byte>, x: seq<byte>, toks: seq<Token>, k: nat, t: Tree, pos: nat, p: Progress,
                 fetched: nat, getLen: nat)
    requires Encodes(data, x, toks) && InStep(x, toks, k, t, pos, p) && |p.written| >= |x| > 0
    requires pos == 8 * fetched - getLen && (k > 0 ==> getLen >= 8)
    ensures p.written == x && fetched >= |data|
  {
    AllOut(x, toks, k, t, pos, p);
    if k == 0 { TokensLeft(x, toks, k, START); }
    AllFetched(data, x, toks, t, pos, p, fetched, getLen);
  }

  /** A round of the loop, entered while output is missing. */
  method DecodeRound(h: Huffman, inp: BitReader, textBuf: array<byte>, out: BitWriter, r: nat,
                     ghost expected: bool, ghost x: seq<byte>, ghost toks: seq<Token>, ghost k: nat)
    returns (r': nat)
    requires Running(h, inp, textBuf, out) && r < N
    requires expected ==> Encodes(inp.inBuf, x, toks) && |out.written| < |x|
    requires expected ==> InStep(x, toks, k, h.Tree(), inp.Pos(), Progress(textBuf[..], out.written, r))
    modifies h.freq, h.son, h.parent, inp, textBuf, out, out.outBuf
    ensures Running(h, inp, textBuf, out) && inp.getLen >= 8 && r' < N
    ensures |out.written| > |old(out.written)|
    ensures expected ==>
              InStep(x, toks, k + 1, h.Tree(), inp.Pos(), Progress(textBuf[..], out.written, r'))
  {
    if expected { AllOut(x, toks, k, h.Tree(), inp.Pos(), Progress(textBuf[..], out.written, r)); }
    r' := DecodeToken(h, inp, textBuf, out, r, expected, x, toks, k);
  }

  /** decode's main loop. It ends on every input. On a coded message it puts out the message, and
      by then it has fetched the whole input. */
  method DecodeAll(h: Huffman, inp: BitReader, textBuf: array<byte>, out: BitWriter, textSize: int,
                   ghost expected: bool, ghost x: seq<byte>, ghost toks: seq<Token>)
    requires Running(h, inp, textBuf, out) && out.written == []
    requires expected ==> Encodes(inp.inBuf, x, toks) && 0 < textSize == |x|
    requires expected ==> InStep(x, toks, 0, h.Tree(), inp.Pos(), Progress(textBuf[..], [], N - F))
    modifies h.freq, h.son, h.parent, inp, textBuf, out, out.outBuf
    ensures inp.Valid() && out.Valid()
    ensures expected ==> out.written == x && inp.fetched >= |inp.inBuf|
  {
    var r: nat := N - F;
    ghost var k: nat := 0;
    while out.outPtr < textSize
      invariant Running(h, inp, textBuf, out) && r < N
      invariant k > 0 ==> inp.getLen >= 8
      invariant expected ==> InStep(x, toks, k, h.Tree(), inp.Pos(), Progress(textBuf[..], out.written, r))
      decreases textSize - out.outPtr
    {
      r := DecodeRound(h, inp, textBuf, out, r, expected, x, toks, k);
      k := k + 1;
    }
    if expected {
      Finished(inp.inBuf, x, toks, k, h.Tree(), inp.Pos(), Progress(textBuf[..], out.written, r),
               inp.fetched, inp.getLen);
    }
  }

  /** The bytes of a buffer as the result takes them: those beyond its end read as zero. */
  method TakeOutput(out: BitWriter) returns (data: seq<byte>)
    requires out.Valid()
    ensures |data| == |out.written|
    ensures |out.written| <= out.outBuf.Length ==> data == out.written
  {
    var oBuf := new byte[out.outPtr](_ => 0);
    for i := 0 to oBuf.Length
      invariant forall k | 0 <= k < i && k < out.outBuf.Length :: oBuf[k] == out.written[k]
    {
      oBuf[i] := if i < out.outBuf.Length then out.outBuf[i] else 0;
    }
    data := oBuf[..];
  }

  /** The part of decode's input after the CRC, and the CRC itself. */
  function Payload(iBuf: seq<byte>, checkCRC: bool): seq<byte> {
    if !checkCRC then iBuf else if |iBuf| >= 2 then iBuf[2..] else []
  }

  function SuppliedCrc(iBuf: seq<byte>): nat {
    BitOr(if |iBuf| > 1 then iBuf[1] else 0, ShiftLeft(if |iBuf| > 0 then iBuf[0] else 0, 8))
  }

  method NewWindow() returns (textBuf: array<byte>)
    ensures fresh(textBuf) && Blank(textBuf[..])
  {
    textBuf := new byte[2107](_ => 0);
    FillSpaces(textBuf);
  }

  lemma ReadyToDecode(data: seq<byte>, x: seq<byte>, toks: seq<Token>, text: seq<byte>, textSize: int)
    requires Encodes(data, x, toks) && 0 < |x| < 0x8000_0000 && Blank(text)
    requires |data| >= 4 ==> textSize == ReadSize(data[..4])
    ensures InStep(x, toks, 0, StartTree(), 32, Progress(text, [], START)) && textSize == |x|
  {
    SizeField(|x|);
    StartInStep(data, x, toks, text);
  }

  /** The tree and the window at the start; when `expected`, in step with the first token. */
  method NewDecoder(inp: BitReader, out: BitWriter, ghost textSize: int,
                    ghost expected: bool, ghost x: seq<byte>, ghost toks: seq<Token>)
    returns (h: Huffman, textBuf: array<byte>)
    requires inp.Valid() && out.Valid() && inp.Pos() == 32
    requires |inp.inBuf| >= 4 ==> textSize == ReadSize(inp.inBuf[..4])
    requires expected ==> Encodes(inp.inBuf, x, toks) && 0 < |x| < 0x8000_0000
    ensures fresh(h) && fresh(h.freq) && fresh(h.son) && fresh(h.parent) && fresh(textBuf)
    ensures Running(h, inp, textBuf, out)
    ensures expected ==> textSize == |x| && InStep(x, toks, 0, h.Tree(), inp.Pos(), Progress(textBuf[..], [], N - F))
  {
    textBuf := NewWindow();
    ghost var text := textBuf[..];
    if expected { ReadyToDecode(inp.inBuf, x, toks, text, textSize); }
    h := NewTree();
    assert textBuf[..] == text;
  }

  /** decode once its input is laid out. */
  method RunDecoder(inp: BitReader, out: BitWriter, textSize: int,
                    ghost expected: bool, ghost x: seq<byte>, ghost toks: seq<Token>)
    requires inp.Valid() && out.Valid() && inp.Pos() == 32 && out.written == []
    requires |inp.inBuf| >= 4 ==> textSize == ReadSize(inp.inBuf[..4])
    requires expected ==> Encodes(inp.inBuf, x, toks) && 0 < |x| < 0x8000_0000
    modifies inp, out, out.outBuf
    ensures inp.Valid() && out.Valid()
    ensures expected ==> textSize == |x| && out.written == x && inp.fetched >= |inp.inBuf|
  {
    var h, textBuf := NewDecoder(inp, out, textSize, expected, x, toks);
    DecodeAll(h, inp, textBuf, out, textSize, expected, x, toks);
  }

  /** decode on its input after the CRC: the size field, the output, and the CRC of the input. */
  method DecodeStream(table: CrcTable, input: seq<byte>, capacity: nat,
                      ghost expected: bool, ghost x: seq<byte>, ghost toks: seq<Token>)
    returns (textSize: int, data: seq<byte>, crc: nat)
    requires expected ==> Encodes(input, x, toks) && 0 < |x| < 0x8000_0000 && |x| <= capacity
    ensures expected ==> textSize == |x| && data == x && crc == CrcOf(table, input)
  {
    var inp := new BitReader(table, input, false);
    var out := new BitWriter(table, capacity, false);
    textSize := GetSize(inp);
    RunDecoder(inp, out, textSize, expected, x, toks);
    data := TakeOutput(out);
    crc := inp.crc;
    assert inp.fetched >= |inp.inBuf| ==> inp.inBuf[..inp.inPtr] == inp.inBuf;
  }

  /** decode runs to an end on every input. Given the compressed form of a message of fewer than
      2^31 bytes, with any CRC in front, it returns the message and the CRC of the input; a wrong
      CRC in front makes the reported size zero. */
  method Decode(table: CrcTable, iBuf: seq<byte>, checkCRC: bool, expectedUncompressedSize: nat,
                ghost x: seq<byte>, ghost toks: seq<Token>) returns (res: Outcome)
    ensures Encodes(Payload(iBuf, checkCRC), x, toks) && 0 < |x| < 0x8000_0000 &&
            |x| <= expectedUncompressedSize + 10000 ==>
              res.data == x && res.crc == Swap(CrcOf(table, Payload(iBuf, checkCRC))) &&
              res.size == if checkCRC && res.crc != SuppliedCrc(iBuf) then 0 else |x|
  {
    ghost var expected := Encodes(Payload(iBuf, checkCRC), x, toks) && 0 < |x| < 0x8000_0000 &&
                          |x| <= expectedUncompressedSize + 10000;
    var suppliedCRC := if checkCRC then SuppliedCrc(iBuf) else 0;
    var textSize, data, crc :=
      DecodeStream(table, Payload(iBuf, checkCRC), expectedUncompressedSize + 10000, expected, x, toks);
    if textSize == 0 { return Outcome([], 0, 0); }
    crc := Swap(crc);
    var size := |data|;
    if checkCRC && crc != suppliedCRC { size := 0; }
    res := Outcome(data, crc, size);
  }
}
