/** encode: the message is parsed greedily against the window, and the tokens are coded. */
module Encoder {
  import opened Bits
  import opened Crc
  import opened BitStreams
  import opened Constants
  import opened Positions
  import opened HuffmanTree
  import opened HuffmanRebuild
  import opened HuffmanCode
  import opened HuffmanCoder
  import opened SymbolCoder
  import opened Forest
  import opened Links
  import opened ForestUpdates
  import opened MatchFinder
  import opened Window
  import opened Lzss

  // ----- the window side

  /** What the match finder has to be between two steps: the buffer shows the message around
      position a, the forest holds slots of the window only, and represents all message positions
      in it up to, or up to and including, position a. */
  ghost predicate Facing(text: Text, m: Arrays, trees: seq<Bst>, h: seq<byte>, a: nat, len: nat, entered: bool) {
    match m case Arrays(_, _, _) =>
      ForestOk(text, m, trees) && TextOk(text, h, a, len) &&
      Near(text, trees, a, if entered then 0 else 1, START) &&
      Covered(text, trees, a, a - START, if entered then a + 1 else a)
  }

  ghost predicate Faces(f: Finder, h: seq<byte>, a: nat, len: nat, entered: bool)
    reads f, f.textBuf, f.lSon, f.rSon, f.dad
  {
    f.Allocated() && Facing(f.Window(), f.Links(), f.trees, h, a, len, entered)
  }

  lemma EnterFacing(text: Text, m: Arrays, m': Arrays, trees: seq<Bst>, h: seq<byte>, a: nat, len: nat, pos: int)
    requires Facing(text, m, trees, h, a, len, false)
    requires var b := text[a % N];
             Ordered(text, trees[b]) && ForestOk(text, m', trees[b := Insert(text, trees[b], a % N)])
    ensures var b := text[a % N];
            Facing(text, m', trees[b := Insert(text, trees[b], a % N)], h, a, len, true) &&
            MatchOk(h, a, len, Search(text, trees[b], a % N, Best(0, pos)))
  {
    InsertNear(text, trees, a, START);
    InsertCovered(text, trees, a, a - START);
    FoundMatch(text, m, trees, h, a, len, pos);
  }

  /** insertNode at the current position. */
  method Enter(f: Finder, r: nat, ghost h: seq<byte>, ghost a: nat, ghost len: nat)
    requires Faces(f, h, a, len, false) && r == a % N
    modifies f`matchPosition, f`matchLength, f`trees, f.lSon, f.rSon, f.dad
    ensures Faces(f, h, a, len, true) && MatchOk(h, a, len, Best(f.matchLength, f.matchPosition))
  {
    ghost var text, m, trees, pos := f.Window(), f.Links(), f.trees, f.matchPosition;
    NotEntered(text, trees, a);
    f.InsertNode(r);
    EnterFacing(text, m, f.Links(), trees, h, a, len, pos);
  }

  lemma NotEntered(text: Text, trees: seq<Bst>, a: nat)
    requires Near(text, trees, a, 1, START)
    ensures !Held(text, trees, a % N)
  {
    SlotOf(a);
  }

  /** Position a leaves, and the oldest slot with it: without reading. */
  lemma LeaveFacing(text: Text, m: Arrays, m': Arrays, trees: seq<Bst>, h: seq<byte>, a: nat, len: nat, a': nat)
    requires Facing(text, m, trees, h, a, len, true) && len > 0 && a' == a + 1
    requires var s := (a + F) % N; ForestOk(text, m', trees[text[s] := Delete(trees[text[s]], s)])
    ensures var s := (a + F) % N;
            Facing(text, m', trees[text[s] := Delete(trees[text[s]], s)], h, a', len - 1, false)
  {
    var s := (a + F) % N;
    assert TreeOk(text, m, trees[text[s]], text[s]);
    DeleteNear(text, trees, a);
    DeleteCovered(text, trees, a, a');
    TextAdvance(text, h, a, len);
  }

  method Leave(f: Finder, s: nat, ghost h: seq<byte>, ghost a: nat, ghost len: nat)
    requires Faces(f, h, a, len, true) && s == (a + F) % N && len > 0
    modifies f`trees, f.lSon, f.rSon, f.dad
    ensures Faces(f, h, a + 1, len - 1, false)
  {
    ghost var text, m, trees := f.Window(), f.Links(), f.trees;
    f.DeleteNode(s);
    LeaveFacing(text, m, f.Links(), trees, h, a, len, a + 1);
  }

  /** The oldest slot is overwritten with the next byte of the message. */
  lemma ReadFacing(text: Text, m: Arrays, m': Arrays, trees: seq<Bst>, h: seq<byte>, a: nat, a': nat, s: nat)
    requires Facing(text, m, trees, h, a, F, true) && a + F < |h| && a' == a + 1 && s == (a + F) % N
    requires ForestOk(text, m', trees[text[s] := Delete(trees[text[s]], s)])
    ensures Facing(PutByte(text, s, h[a + F]), m', trees[text[s] := Delete(trees[text[s]], s)], h, a', F, false)
  {
    var trees' := trees[text[s] := Delete(trees[text[s]], s)];
    assert TreeOk(text, m, trees[text[s]], text[s]);
    DeleteNear(text, trees, a);
    DeleteCovered(text, trees, a, a');
    ForestRead(text, m', trees', a, h[a + F]);
    TextRead(text, h, a);
    CoveredRead(text, trees', a, a', s, h[a + F]);
  }

  /** Overwriting the oldest slot changes no key of the positions still in the window. */
  lemma CoveredRead(text: Text, trees: seq<Bst>, a: nat, a': nat, s: nat, c: byte)
    requires a' == a + 1 && s == (a + F) % N && a >= START && Covered(text, trees, a', a' - START, a')
    requires |trees| == 256 && forall p | 0 <= p < N && Held(text, trees, p) :: (a - p) % N < START
    requires forall p | 0 <= p < N :: Held(PutByte(text, s, c), trees, p) <==> Held(text, trees, p)
    ensures Covered(PutByte(text, s, c), trees, a', a' - START, a')
  {
    var text' := PutByte(text, s, c);
    forall q: nat | START <= q && a' - START <= q < a' ensures Represented(text', trees, a', q) {
      assert Represented(text, trees, a', q);
      var p :| 0 <= p < N && Held(text, trees, p) && KeyAt(text, p) == KeyAt(text, q % N) && (a' - p) % N <= a' - q;
      KeyKept(text, a, s, c, p);
      SlotDistance(a, q);
      KeyKept(text, a, s, c, q % N);
      assert Held(text', trees, p);
    }
  }

  lemma SlotDistance(a: nat, q: nat)
    requires q <= a < q + START
    ensures (a - q % N) % N == a - q
  {
  }

  method StoreByte(f: Finder, s: nat, c: byte)
    requires f.Allocated() && s < N
    modifies f.textBuf
    ensures f.Window() == PutByte(old(f.Window()), s, c) && f.Links() == old(f.Links())
  {
    f.textBuf[s] := c;
    if s < F - 1 { f.textBuf[s + N] := c; }
  }

  method LeaveAndRead(f: Finder, s: nat, c: byte, ghost h: seq<byte>, ghost a: nat)
    requires Faces(f, h, a, F, true) && s == (a + F) % N && a + F < |h| && c == h[a + F]
    modifies f`trees, f.textBuf, f.lSon, f.rSon, f.dad
    ensures Faces(f, h, a + 1, F, false)
  {
    ghost var text, m, trees := f.Window(), f.Links(), f.trees;
    f.DeleteNode(s);
    ghost var m' := f.Links();
    StoreByte(f, s, c);
    ReadFacing(text, m, m', trees, h, a, a + 1, s);
  }

  // ----- the start of a message

  /** The buffer is laid out: spaces, then the first bytes of the message. */
  method LayOut(f: Finder, x: seq<byte>) returns (len: nat)
    requires f.Allocated() && (forall i | 0 <= i < TEXT :: f.textBuf[i] == 0)
    modifies f.textBuf
    ensures len == Ahead(History(x), START) && TextOk(f.Window(), History(x), START, len)
  {
    var r := N - F;
    for i := 0 to r
      invariant forall k | 0 <= k < i :: f.textBuf[k] == 0x20
    {
      f.textBuf[i] := 0x20;
    }
    len := 0;
    while len < F && len < |x|
      invariant len <= F && len <= |x|
      invariant forall k | 0 <= k < START + len :: f.textBuf[k] == History(x)[k]
    {
      f.textBuf[r + len] := x[len];
      len := len + 1;
    }
    SlotsBelow(f.Window(), History(x), len);
  }

  lemma SlotsBelow(text: Text, h: seq<byte>, len: nat)
    requires START + len <= |h| && len <= F && forall k | 0 <= k < START + len :: text[k] == h[k]
    ensures TextOk(text, h, START, len)
  {
    forall q: nat | START - START <= q < START + len ensures q < N && text[q % N] == h[q] {
      assert q % N == q;
    }
  }

  /** The slots just before the message enter the forest, and nothing else is in it. */
  method EnterSpaces(f: Finder, ghost h: seq<byte>, ghost len: nat)
    requires f.Valid() && f.trees == seq(256, _ => Leaf) && TextOk(f.Window(), h, START, len)
    modifies f`matchPosition, f`matchLength, f`trees, f.lSon, f.rSon, f.dad
    ensures Faces(f, h, START, len, false)
  {
    var r := N - F;
    ghost var text := f.Window();
    for i := 1 to F + 1
      invariant f.Valid() && f.Window() == text
      invariant Near(text, f.trees, START, 1, i - 1)
    {
      ghost var trees := f.trees;
      SpaceFree(text, trees, i);
      f.InsertNode(r - i);
      SpaceEntered(text, trees, i);
    }
    SpacesFacing(text, f.Links(), f.trees, h, len);
  }

  lemma SpaceFree(text: Text, trees: seq<Bst>, i: nat)
    requires 1 <= i <= F && Near(text, trees, START, 1, i - 1)
    ensures !Held(text, trees, START - i)
  {
    assert (START - (START - i)) % N == i;
  }

  lemma SpaceEntered(text: Text, trees: seq<Bst>, i: nat)
    requires 1 <= i <= F && Near(text, trees, START, 1, i - 1) && Ordered(text, trees[text[START - i]])
    ensures var b := text[START - i];
            Near(text, trees[b := Insert(text, trees[b], START - i)], START, 1, i)
  {
    var b := text[START - i];
    var trees' := trees[b := Insert(text, trees[b], START - i)];
    forall p: nat | p < N && Held(text, trees', p) ensures 1 <= (START - p) % N <= i {
      InsertHeld(text, trees, START - i, p);
    }
  }

  lemma SpacesFacing(text: Text, m: Arrays, trees: seq<Bst>, h: seq<byte>, len: nat)
    requires ForestOk(text, m, trees) && TextOk(text, h, START, len) && Near(text, trees, START, 1, F)
    ensures Facing(text, m, trees, h, START, len, false)
  {
  }

  // ----- one token forward

  /** encode's loop variables at position a: the next input byte, the oldest slot, the current slot,
      and how many bytes are in sight. */
  ghost predicate Placed(x: seq<byte>, inPtr: nat, s: nat, r: nat, len: nat, a: nat) {
    inPtr + START == a + len && s == (a + F) % N && r == a % N && a <= START + |x| && len == Ahead(History(x), a)
  }

  /** Position a is in the forest, and the match found for it is a longest one. */
  ghost predicate Poised(f: Finder, x: seq<byte>, a: nat, len: nat)
    reads f, f.textBuf, f.lSon, f.rSon, f.dad
  {
    Faces(f, History(x), a, len, true) && MatchOk(History(x), a, len, Best(f.matchLength, f.matchPosition))
  }

  /** The first inner loop, while there is input. */
  method SlideReading(f: Finder, x: seq<byte>, inPtr0: nat, s0: nat, r0: nat, width: nat, ghost a: nat)
    returns (i: nat, inPtr: nat, s: nat, r: nat)
    requires a <= START + |x| && 0 < width <= Ahead(History(x), a)
    requires Faces(f, History(x), a, Ahead(History(x), a), true) && Placed(x, inPtr0, s0, r0, Ahead(History(x), a), a)
    modifies f`matchPosition, f`matchLength, f`trees, f.textBuf, f.lSon, f.rSon, f.dad
    ensures i <= width && (i < width ==> inPtr == |x|) && a + i <= START + |x|
    ensures var len := Ahead(History(x), a + i);
            Placed(x, inPtr, s, r, len, a + i) && Faces(f, History(x), a + i, len, true) &&
            (i > 0 ==> Poised(f, x, a + i, len) && len == F)
  {
    ghost var h := History(x);
    ghost var at := a;
    i, inPtr, s, r := 0, inPtr0, s0, r0;
    while i < width && inPtr < |x|
      invariant i <= width && at == a + i && at <= START + |x| && Placed(x, inPtr, s, r, Ahead(h, at), at)
      invariant Faces(f, h, at, Ahead(h, at), true) && (i > 0 ==> Ahead(h, at) == F)
      invariant i > 0 ==> Poised(f, x, at, Ahead(h, at))
    {
      i := i + 1;
      assert Ahead(h, at) == F && x[inPtr] == h[at + F];
      LeaveAndRead(f, s, x[inPtr], h, at);
      inPtr := inPtr + 1;
      NextSlots(at);
      s, r, at := (s + 1) % N, (r + 1) % N, at + 1;
      Enter(f, r, h, at, F);
    }
  }

  /** Without input, one position on. */
  lemma PlacedOn(x: seq<byte>, inPtr: nat, s: nat, r: nat, len: nat, a: nat)
    requires inPtr == |x| && len > 0 && Placed(x, inPtr, s, r, len, a)
    ensures Placed(x, inPtr, (s + 1) % N, (r + 1) % N, len - 1, a + 1)
    ensures s == (a + F) % N && (r + 1) % N == (a + 1) % N
  {
    NextSlots(a);
  }

  /** A round of the second inner loop. */
  method SlideOne(f: Finder, x: seq<byte>, inPtr: nat, s0: nat, r0: nat, len0: nat, ghost a: nat)
    returns (s: nat, r: nat, len: nat)
    requires inPtr == |x| && len0 > 0 && Placed(x, inPtr, s0, r0, len0, a) && Faces(f, History(x), a, len0, true)
    modifies f`matchPosition, f`matchLength, f`trees, f.textBuf, f.lSon, f.rSon, f.dad
    ensures len == len0 - 1 && Placed(x, inPtr, s, r, len, a + 1) && (len > 0 ==> Poised(f, x, a + 1, len))
  {
    PlacedOn(x, inPtr, s0, r0, len0, a);
    Leave(f, s0, History(x), a, len0);
    s, r, len := (s0 + 1) % N, (r0 + 1) % N, len0 - 1;
    if len > 0 { Enter(f, r, History(x), a + 1, len); }
  }

  /** The two inner loops of encode: the window moves over the token, reading while there is input. */
  method MoveOver(f: Finder, x: seq<byte>, inPtr0: nat, s0: nat, r0: nat, len0: nat, width: nat,
                  ghost a: nat, ghost a': nat)
    returns (inPtr: nat, s: nat, r: nat, len: nat)
    requires Faces(f, History(x), a, len0, true) && 0 < width <= len0 && a' == a + width
    requires Placed(x, inPtr0, s0, r0, len0, a)
    modifies f`matchPosition, f`matchLength, f`trees, f.textBuf, f.lSon, f.rSon, f.dad
    ensures Placed(x, inPtr, s, r, len, a')
    ensures len > 0 ==> Poised(f, x, a', len)
  {
    var i: nat;
    i, inPtr, s, r := SlideReading(f, x, inPtr0, s0, r0, width, a);
    len := len0;
    while i < width
      invariant i <= width && Placed(x, inPtr, s, r, len, a + i) && (i < width ==> len > 0 && inPtr == |x|)
      invariant len > 0 ==> Faces(f, History(x), a + i, len, true)
      invariant len > 0 && i > 0 ==> Poised(f, x, a + i, len)
    {
      s, r, len := SlideOne(f, x, inPtr, s, r, len, a + i);
      i := i + 1;
    }
  }

  lemma NextSlot(a: nat)
    ensures (a % N + 1) % N == (a + 1) % N
  {
  }

  lemma NextSlots(a: nat)
    ensures ((a + F) % N + 1) % N == (a + 1 + F) % N && (a % N + 1) % N == (a + 1) % N
  {
    NextSlot(a);
    NextSlot(a + F);
  }

  // ----- the coding side

  /** The tokens so far have been coded: `fits` says that all their codes fit the register so far,
      in which case the output spells the size field and the tokens' bits. */
  ghost predicate Coded(toks: seq<Token>, t: Tree, packed: Packed, head: seq<bool>) {
    match packed case Packed(_, _, _) =>
      AllCodable(toks) && t == TreeAfter(toks) && (Short(toks) ==> packed.Spelling(head + MessageBits(toks)))
  }

  lemma Assoc(a: seq<bool>, b: seq<bool>, c: seq<bool>)
    ensures a + (b + c) == a + b + c
  {
  }

  method CodeCopy(huff: Huffman, out: BitWriter, len: nat, back: nat, ghost fits: bool, ghost bits: seq<bool>,
                  ghost bits': seq<bool>)
    requires huff.Valid() && out.Valid() && Apart(huff, out) && Codable(Copy(len, back))
    requires fits ==> out.State().Spelling(bits) && |Code(huff.Tree(), 255 - THRESHOLD + len)| <= 16
    requires fits ==> bits' == bits + Code(huff.Tree(), 255 - THRESHOLD + len) + PositionBits(back)
    modifies huff.freq, huff.son, huff.parent, out, out.outBuf
    ensures huff.Valid() && huff.Tree() == Updated(old(huff.Tree()), 255 - THRESHOLD + len)
    ensures out.Valid() && old(out.written) <= out.written
    ensures out.codeSize - old(out.codeSize) == |out.written| - |old(out.written)|
    ensures fits ==> out.State().Spelling(bits')
  {
    ghost var mid := bits + Code(huff.Tree(), 255 - THRESHOLD + len);
    EncodeChar(huff, out, 255 - THRESHOLD + len, bits);
    EncodePosition(out, back, mid);
  }

  /** One token is coded: its symbol, and for a copy its position. */
  method CodeToken(huff: Huffman, out: BitWriter, tok: Token, ghost fits: bool, ghost bits: seq<bool>,
                   ghost bits': seq<bool>)
    requires huff.Valid() && out.Valid() && Apart(huff, out) && Codable(tok)
    requires fits ==> out.State().Spelling(bits) && |Code(huff.Tree(), Symbol(tok))| <= 16
    requires fits ==> bits' == bits + TokenBits(huff.Tree(), tok)
    modifies huff.freq, huff.son, huff.parent, out, out.outBuf
    ensures huff.Valid() && huff.Tree() == Updated(old(huff.Tree()), Symbol(tok))
    ensures out.Valid() && old(out.written) <= out.written
    ensures out.codeSize - old(out.codeSize) == |out.written| - |old(out.written)|
    ensures fits ==> out.State().Spelling(bits')
  {
    match tok {
      case Literal(b) =>
        EncodeChar(huff, out, b, bits);
      case Copy(len, back) =>
        Assoc(bits, Code(huff.Tree(), Symbol(tok)), PositionBits(back));
        CodeCopy(huff, out, len, back, fits, bits, bits');
    }
  }

  lemma CodedNext(toks: seq<Token>, tok: Token, t: Tree, packed: Packed, head: seq<bool>)
    requires Coded(toks, t, packed, head) && Codable(tok)
    ensures AllCodable(toks + [tok]) && AtRest(t) && TreeAfter(toks + [tok]) == Updated(t, Symbol(tok))
    ensures Short(toks + [tok]) ==>
              packed.Spelling(head + MessageBits(toks)) && |Code(t, Symbol(tok))| <= 16
    ensures head + MessageBits(toks + [tok]) == head + MessageBits(toks) + TokenBits(t, tok)
  {
    Snoc(toks, tok);
    Assoc(head, MessageBits(toks), TokenBits(t, tok));
  }

  method CodeNext(huff: Huffman, out: BitWriter, tok: Token, ghost toks: seq<Token>, ghost head: seq<bool>)
    requires huff.Valid() && out.Valid() && Apart(huff, out) && Codable(tok)
    requires Coded(toks, huff.Tree(), out.State(), head)
    modifies huff.freq, huff.son, huff.parent, out, out.outBuf
    ensures huff.Valid() && out.Valid() && old(out.written) <= out.written
    ensures out.codeSize - old(out.codeSize) == |out.written| - |old(out.written)|
    ensures Coded(toks + [tok], huff.Tree(), out.State(), head)
  {
    CodedNext(toks, tok, huff.Tree(), out.State(), head);
    ghost var fits := Short(toks + [tok]);
    ghost var bits' := head + MessageBits(toks + [tok]);
    CodeToken(huff, out, tok, fits, head + MessageBits(toks), bits');
  }

  // ----- one token

  ghost predicate Disjoint(f: Finder, huff: Huffman, out: BitWriter) {
    f.lSon != huff.freq && f.lSon != huff.son && f.lSon != huff.parent &&
    f.rSon != huff.freq && f.rSon != huff.son && f.rSon != huff.parent &&
    f.dad != huff.freq && f.dad != huff.son && f.dad != huff.parent &&
    f.textBuf as object != huff.freq && f.textBuf as object != huff.son && f.textBuf as object != huff.parent &&
    out.outBuf as object != f.lSon && out.outBuf as object != f.rSon && out.outBuf as object != f.dad &&
    out.outBuf != f.textBuf && Apart(huff, out)
  }

  /** The token for the best match found: the match as far as the message goes, or the next byte. */
  method ChooseToken(f: Finder, r: nat, len: nat, ghost h: seq<byte>, ghost a: nat) returns (tok: Token, width: nat)
    requires Faces(f, h, a, len, true) && MatchOk(h, a, len, Best(f.matchLength, f.matchPosition))
    requires r == a % N && 0 < len == Ahead(h, a)
    modifies f`matchLength
    ensures a < |h| && TokenOk(h, a, tok) && Greedy(h, a, tok) && Codable(tok)
    ensures 0 < width == Width(tok) <= len
    ensures Faces(f, h, a, len, true)
  {
    TokenForOk(h, a, len, Best(f.matchLength, f.matchPosition));
    assert f.textBuf[r] == h[a] by { NextByte(f.Window(), h, a, len); }
    if f.matchLength > len { f.matchLength := len; }
    if f.matchLength <= THRESHOLD {
      f.matchLength := 1;
      tok := Literal(f.textBuf[r]);
    } else {
      tok := Copy(f.matchLength, f.matchPosition);
    }
    width := f.matchLength;
  }

  lemma NextByte(text: Text, h: seq<byte>, a: nat, len: nat)
    requires TextOk(text, h, a, len) && len > 0
    ensures text[a % N] == h[a]
  {
  }

  /** The tokens so far parse the message greedily up to position a. */
  ghost predicate Parsed(h: seq<byte>, toks: seq<Token>, a: nat) {
    Parses(h, toks) && GreedyParse(h, toks) && Reach(toks) == a <= |h|
  }

  lemma ParsedNext(h: seq<byte>, toks: seq<Token>, a: nat, tok: Token, a': nat)
    requires Parsed(h, toks, a) && TokenOk(h, a, tok) && Greedy(h, a, tok) && a' == a + Width(tok) <= |h|
    ensures Parsed(h, toks + [tok], a')
  {
    SnocParse(h, toks, tok);
  }

  /** The coding side after these tokens: the output starts with `start`, codeSize counts it. */
  ghost predicate Coding(huff: Huffman, out: BitWriter, toks: seq<Token>, head: seq<bool>, start: seq<byte>)
    reads huff.freq, huff.son, huff.parent, out, out.outBuf
  {
    huff.Valid() && out.Valid() && start <= out.written && out.codeSize == |out.written| &&
    Coded(toks, huff.Tree(), out.State(), head)
  }

  /** Coding leaves the window alone. */
  method CodeBeside(f: Finder, huff: Huffman, out: BitWriter, x: seq<byte>, tok: Token, ghost toks: seq<Token>,
                    ghost head: seq<bool>, ghost start: seq<byte>, ghost a: nat, ghost len: nat)
    requires Faces(f, History(x), a, len, true) && Disjoint(f, huff, out)
    requires Coding(huff, out, toks, head, start) && Codable(tok)
    modifies huff.freq, huff.son, huff.parent, out, out.outBuf
    ensures Faces(f, History(x), a, len, true) && Coding(huff, out, toks + [tok], head, start)
  {
    ghost var text, m, trees := f.Window(), f.Links(), f.trees;
    CodeNext(huff, out, tok, toks, head);
    assert text == f.Window() && m == f.Links() && trees == f.trees;
  }

  /** Moving the window leaves the coding side alone. */
  method MoveBeside(f: Finder, huff: Huffman, out: BitWriter, x: seq<byte>,
                    inPtr0: nat, s0: nat, r0: nat, len0: nat, width: nat,
                    ghost toks: seq<Token>, ghost head: seq<bool>, ghost start: seq<byte>, ghost a: nat, ghost a': nat)
    returns (inPtr: nat, s: nat, r: nat, len: nat)
    requires Faces(f, History(x), a, len0, true) && 0 < width <= len0 && a' == a + width && Disjoint(f, huff, out)
    requires Placed(x, inPtr0, s0, r0, len0, a) && Coding(huff, out, toks, head, start)
    modifies f, f.textBuf, f.lSon, f.rSon, f.dad
    ensures Placed(x, inPtr, s, r, len, a') && Coding(huff, out, toks, head, start)
    ensures len > 0 ==> Poised(f, x, a', len)
  {
    ghost var tree, state, size := huff.Tree(), out.State(), out.codeSize;
    inPtr, s, r, len := MoveOver(f, x, inPtr0, s0, r0, len0, width, a, a');
    assert tree == huff.Tree() && state == out.State() && size == out.codeSize;
  }

  /** One round of encode's main loop: a token is chosen and coded, and the window moves over it. */
  method EncodeRound(f: Finder, huff: Huffman, out: BitWriter, x: seq<byte>,
                     inPtr0: nat, s0: nat, r0: nat, len0: nat,
                     ghost toks: seq<Token>, ghost head: seq<bool>, ghost start: seq<byte>, ghost a: nat)
    returns (inPtr: nat, s: nat, r: nat, len: nat, ghost toks': seq<Token>, ghost a': nat)
    requires Disjoint(f, huff, out) && START <= a <= START + |x| && len0 > 0
    requires Poised(f, x, a, len0) && Placed(x, inPtr0, s0, r0, len0, a)
    requires Parsed(History(x), toks, a) && Coding(huff, out, toks, head, start)
    modifies f, f.textBuf, f.lSon, f.rSon, f.dad, huff.freq, huff.son, huff.parent, out, out.outBuf
    ensures a < a' <= START + |x| && Placed(x, inPtr, s, r, len, a')
    ensures Parsed(History(x), toks', a') && Coding(huff, out, toks', head, start)
    ensures len > 0 ==> Poised(f, x, a', len)
  {
    var tok, width := ChooseToken(f, r0, len0, History(x), a);
    CodeBeside(f, huff, out, x, tok, toks, head, start, a, len0);
    toks', a' := toks + [tok], a + width;
    ParsedNext(History(x), toks, a, tok, a');
    inPtr, s, r, len := MoveBeside(f, huff, out, x, inPtr0, s0, r0, len0, width, toks', head, start, a, a');
  }

  /** encode's main loop. */
  method EncodeAll(f: Finder, huff: Huffman, out: BitWriter, x: seq<byte>, len0: nat,
                   ghost head: seq<bool>, ghost start: seq<byte>)
    returns (ghost toks: seq<Token>)
    requires Disjoint(f, huff, out) && Poised(f, x, START, len0) && 0 < len0 == Ahead(History(x), START)
    requires Coding(huff, out, [], head, start)
    modifies f, f.textBuf, f.lSon, f.rSon, f.dad, huff.freq, huff.son, huff.parent, out, out.outBuf
    ensures Coding(huff, out, toks, head, start)
    ensures Spell(x, toks) && GreedyParse(History(x), toks)
  {
    var inPtr: nat, s: nat, r: nat, len: nat := len0, 0, N - F, len0;
    toks := [];
    ghost var a := START;
    while true
      invariant Poised(f, x, a, len) && Placed(x, inPtr, s, r, len, a) && len > 0
      invariant Parsed(History(x), toks, a) && Coding(huff, out, toks, head, start)
      decreases START + |x| - a
    {
      inPtr, s, r, len, toks, a := EncodeRound(f, huff, out, x, inPtr, s, r, len, toks, head, start, a);
      if len == 0 { break; }
    }
  }

  // ----- encode

  /** The bits of the size field, which the writer has put out when the first token is coded. */
  function HeadBits(n: nat): (bits: seq<bool>)
    ensures |bits| == 32
  {
    seq(32, k requires 0 <= k < 32 => StreamBit(Header(n), k))
  }

  lemma HeadSpelled(n: nat)
    ensures Packed(Header(n), 0, 0).Spelling(HeadBits(n))
  {
    forall i: nat | i < 16 ensures !RegBit(0, i) { ZeroBits(15 - i); }
    assert HeadBits(n)[..32] == HeadBits(n);
  }

  /** The finished output is the compressed form of the message. */
  lemma OutputEncodes(x: seq<byte>, toks: seq<Token>, before: seq<byte>, reg: nat, p: nat, written: seq<byte>)
    requires Spell(x, toks) && AllCodable(toks) && Short(toks)
    requires Packed(before, reg, p).Spelling(HeadBits(|x|) + MessageBits(toks))
    requires written == if p > 0 then before + [Hi(reg)] else before
    requires Header(|x|) <= before
    ensures Encodes(written, x, toks) && |written| <= 2 * |x| + 5
  {
    var head, bits := HeadBits(|x|), MessageBits(toks);
    FlushSpells(before, reg, p, head + bits);
    BitsAfterHead(written, head, bits);
    BitsBound(History(x), toks);
    PrefixIs(Header(|x|), before, written);
  }

  lemma PrefixIs(a: seq<byte>, b: seq<byte>, c: seq<byte>)
    requires a <= b <= c
    ensures |c| >= |a| && c[..|a|] == a
  {
  }

  lemma BitsAfterHead(s: seq<byte>, head: seq<bool>, bits: seq<bool>)
    requires BitsAt(s, 0, head + bits) && |head| == 32
    ensures BitsAt(s, 32, bits)
  {
    forall i: nat | i < |bits| ensures StreamBit(s, 32 + i) == bits[i] {
      assert (head + bits)[32 + i] == bits[i];
      assert StreamBit(s, 0 + (32 + i)) == (head + bits)[32 + i];
    }
  }

  method PutSize(out: BitWriter, n: nat)
    requires out.Valid() && out.written == [] && out.putLen == 0 && out.putBuf == 0 && out.codeSize == 0
    modifies out, out.outBuf
    ensures out.Valid() && out.written == Header(n) && out.codeSize == 4
    ensures out.State().Spelling(HeadBits(n))
  {
    out.Putc(Lo(n));
    out.Putc(Lo(ShiftRight(n, 8)));
    out.Putc(Lo(ShiftRight(n, 16)));
    out.Putc(Lo(ShiftRight(n, 24)));
    out.codeSize := out.codeSize + 4;
    assert out.written == Header(n);
    HeadSpelled(n);
  }

  /** The window at the start of a message, with the first match. */
  method NewFinder(x: seq<byte>) returns (f: Finder, len: nat)
    ensures fresh(f) && fresh(f.textBuf) && fresh(f.lSon) && fresh(f.rSon) && fresh(f.dad)
    ensures len == Ahead(History(x), START) && Faces(f, History(x), START, len, true)
    ensures MatchOk(History(x), START, len, Best(f.matchLength, f.matchPosition))
  {
    f := new Finder();
    len := LayOut(f, x);
    ghost var text := f.Window();
    f.InitTree();
    assert f.Window() == text;
    EnterSpaces(f, History(x), len);
    Enter(f, N - F, History(x), START, len);
  }

  /** What encode returns for a message: the output bytes, with their CRC in front if asked for. */
  datatype Result = Result(data: seq<byte>, crc: nat, size: nat)

  function Framed(body: seq<byte>, crc: nat, prependCRC: bool): seq<byte> {
    if prependCRC then [Hi(crc), Lo(crc)] + body else body
  }

  /** encode after the size field. */
  method EncodeBody(out: BitWriter, x: seq<byte>) returns (ghost toks: seq<Token>)
    requires x != [] && out.Valid() && out.State().Spelling(HeadBits(|x|)) && out.codeSize == |out.written|
    modifies out, out.outBuf
    ensures out.Valid() && old(out.written) <= out.written && out.codeSize == |out.written|
    ensures Spell(x, toks) && GreedyParse(History(x), toks) && AllCodable(toks)
    ensures Short(toks) ==> out.State().Spelling(HeadBits(|x|) + MessageBits(toks))
  {
    var huff := NewTree();
    var f, len := NewFinder(x);
    NothingCoded(HeadBits(|x|));
    toks := EncodeAll(f, huff, out, x, len, HeadBits(|x|), out.written);
  }

  /** The compressed bytes of a non-empty message. */
  method EncodeStream(table: CrcTable, x: seq<byte>) returns (out: BitWriter, ghost toks: seq<Token>)
    requires x != []
    ensures fresh(out) && fresh(out.outBuf) && out.Valid() && out.encDec && out.table == table
    ensures out.outBuf.Length == 2 * |x| + 10000 && out.codeSize == |out.written|
    ensures Spell(x, toks) && GreedyParse(History(x), toks) && AllCodable(toks)
    ensures Short(toks) ==> Encodes(out.written, x, toks) && |out.written| <= 2 * |x| + 5
  {
    out := new BitWriter(table, 2 * |x| + 10000, true);
    PutSize(out, |x|);
    toks := EncodeBody(out, x);
    ghost var s := out.State();
    out.EncodeEnd();
    if Short(toks) { OutputEncodes(x, toks, s.written, s.putBuf, s.putLen, out.written); }
  }

  lemma NothingCoded(head: seq<bool>)
    ensures AllCodable([]) && TreeAfter([]) == StartTree() && head + MessageBits([]) == head
  {
  }

  /** encode. The tokens are a greedy parse of the message; if all their codes fit 16 bits, the
      result is the compressed form of the message by these tokens, and its CRC is right. */
  method Encode(table: CrcTable, x: seq<byte>, prependCRC: bool) returns (res: Result, ghost toks: seq<Token>)
    ensures x == [] ==> res == Result([], 0, 4)
    ensures x != [] ==> Spell(x, toks) && GreedyParse(History(x), toks) && AllCodable(toks)
    ensures x != [] && Short(toks) ==>
              exists body :: Encodes(body, x, toks) && res.crc == Swap(CrcOf(table, body)) &&
                             res.data == Framed(body, res.crc, prependCRC) && res.size == |res.data|
  {
    if |x| == 0 { return Result([], 0, 4), []; }
    var out;
    out, toks := EncodeStream(table, x);
    var retCRC := Swap(out.crc);
    var body := TakeCode(out);
    var size := out.codeSize;
    if prependCRC { size := size + 2; }
    res := Result(Framed(body, retCRC, prependCRC), retCRC, size);
    if Short(toks) { assert Encodes(body, x, toks); }
  }

  /** The first codeSize bytes of outBuf; bytes beyond its end read as zero. */
  method TakeCode(out: BitWriter) returns (body: seq<byte>)
    requires out.Valid() && out.codeSize == |out.written|
    ensures |body| == |out.written|
    ensures |out.written| <= out.outBuf.Length ==> body == out.written
  {
    var oBuf := new byte[out.codeSize](_ => 0);
    for i := 0 to oBuf.Length
      invariant forall k | 0 <= k < i && k < out.outBuf.Length :: oBuf[k] == out.written[k]
    {
      oBuf[i] := if i < out.outBuf.Length then out.outBuf[i] else 0;
    }
    body := oBuf[..];
  }
}
