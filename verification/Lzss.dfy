/** What a compressed message means: a list of literals and copies that spells the text, and the
    bits by which the adaptive tree codes that list. */
module Lzss {
  import opened Bits
  import opened BitStreams
  import opened Constants
  import opened Sums
  import opened Positions
  import opened HuffmanTree
  import opened HuffmanRebuild
  import opened HuffmanCode

  /** A byte, or `len` bytes repeated from `back` + 1 bytes before. */
  datatype Token = Literal(b: byte) | Copy(len: nat, back: nat)

  const START: nat := 1988

  /** What both sides see before and in the message: a window of spaces, then the message. */
  function History(x: seq<byte>): (h: seq<byte>)
    ensures |h| == START + |x|
  {
    seq(START, _ => 0x20) + x
  }

  function Width(tok: Token): nat {
    match tok
    case Literal(_) => 1
    case Copy(len, _) => len
  }

  /** The token says what comes next in h at position a, and refers only to the window before a. */
  ghost predicate TokenOk(h: seq<byte>, a: nat, tok: Token) {
    match tok
    case Literal(b) => a < |h| && h[a] == b
    case Copy(len, back) =>
      THRESHOLD < len <= F && back < N - F <= a && a + len <= |h| &&
      forall i | a <= i < a + len :: h[i] == h[i - back - 1]
  }

  /** The position reached after the tokens. */
  function Reach(toks: seq<Token>): nat {
    if toks == [] then START else Reach(toks[..|toks| - 1]) + Width(toks[|toks| - 1])
  }

  ghost predicate Parses(h: seq<byte>, toks: seq<Token>) {
    toks == [] ||
    (Parses(h, toks[..|toks| - 1]) && TokenOk(h, Reach(toks[..|toks| - 1]), toks[|toks| - 1]))
  }

  /** The tokens spell the whole message. */
  ghost predicate Spell(x: seq<byte>, toks: seq<Token>) {
    Parses(History(x), toks) && Reach(toks) == START + |x|
  }

  /** How many of the n bytes from position a on repeat those from the earlier position q on. */
  function MatchLength(h: seq<byte>, q: nat, a: nat, n: nat): (k: nat)
    requires q < a && a + n <= |h|
    ensures k <= n
    decreases n
  {
    if n > 0 && h[q] == h[a] then 1 + MatchLength(h, q + 1, a + 1, n - 1) else 0
  }

  lemma {:induction false} Matches(h: seq<byte>, q: nat, a: nat, n: nat, i: nat)
    requires q < a && a + n <= |h| && i < MatchLength(h, q, a, n)
    ensures h[q + i] == h[a + i]
    decreases n
  {
    if i > 0 { Matches(h, q + 1, a + 1, n - 1, i - 1); }
  }

  /** The bytes that a match at position a may cover. */
  function Ahead(h: seq<byte>, a: nat): (n: nat)
    requires a <= |h|
    ensures a + n <= |h| && n <= F
  {
    if |h| - a < F then |h| - a else F
  }

  /** No earlier position of the message in the window offers a longer match than the token uses. */
  ghost predicate Greedy(h: seq<byte>, a: nat, tok: Token)
    requires a <= |h|
  {
    forall q: nat | START <= q < a && a - START <= q ::
      MatchLength(h, q, a, Ahead(h, a)) <= (if tok.Literal? then THRESHOLD else Width(tok))
  }

  ghost predicate GreedyParse(h: seq<byte>, toks: seq<Token>) {
    toks == [] ||
    (GreedyParse(h, toks[..|toks| - 1]) && Reach(toks[..|toks| - 1]) <= |h| &&
     Greedy(h, Reach(toks[..|toks| - 1]), toks[|toks| - 1]))
  }

  // ----- the code of a token list

  function Symbol(tok: Token): nat {
    match tok
    case Literal(b) => b
    case Copy(len, _) => 255 - THRESHOLD + len
  }

  predicate Codable(tok: Token) {
    tok.Literal? || (tok.Copy? && THRESHOLD < tok.len <= F && tok.back < 0x1000)
  }

  ghost predicate AllCodable(toks: seq<Token>) {
    forall k | 0 <= k < |toks| :: Codable(toks[k])
  }

  /** The tree after the tokens have been coded, on either side. */
  ghost function TreeAfter(toks: seq<Token>): (t: Tree)
    requires AllCodable(toks)
    ensures AtRest(t)
  {
    if toks == [] then
      StartAtRest();
      WeighsUnique(StartTree(), Ones());
      StartTree()
    else
      var t := TreeAfter(toks[..|toks| - 1]);
      UpdatedAtRest(t, Symbol(toks[|toks| - 1]));
      Updated(t, Symbol(toks[|toks| - 1]))
  }

  ghost function TokenBits(t: Tree, tok: Token): seq<bool>
    requires AtRest(t) && Codable(tok)
  {
    match tok
    case Literal(b) => Code(t, b)
    case Copy(len, back) => Code(t, Symbol(tok)) + PositionBits(back)
  }

  ghost function MessageBits(toks: seq<Token>): seq<bool>
    requires AllCodable(toks)
  {
    if toks == [] then []
    else
      var init := toks[..|toks| - 1];
      MessageBits(init) + TokenBits(TreeAfter(init), toks[|toks| - 1])
  }

  /** Every code word fits the 16-bit register of encodeChar. */
  ghost predicate Short(toks: seq<Token>)
    requires AllCodable(toks)
  {
    toks == [] ||
    (Short(toks[..|toks| - 1]) &&
     |Code(TreeAfter(toks[..|toks| - 1]), Symbol(toks[|toks| - 1]))| <= 16)
  }

  // ----- elementary consequences

  lemma {:induction false} ParsesCodable(h: seq<byte>, toks: seq<Token>)
    requires Parses(h, toks)
    ensures AllCodable(toks) && |toks| + START <= Reach(toks) && (Reach(toks) <= |h| || toks == [])
  {
    if toks != [] {
      ParsesCodable(h, toks[..|toks| - 1]);
      forall k | 0 <= k < |toks| ensures Codable(toks[k]) {
        if k < |toks| - 1 { assert toks[k] == toks[..|toks| - 1][k]; }
      }
    }
  }

  /** One more token. */
  lemma Snoc(toks: seq<Token>, tok: Token)
    requires AllCodable(toks) && Codable(tok)
    ensures AllCodable(toks + [tok]) && Symbol(tok) < NCHAR
    ensures TreeAfter(toks + [tok]) == Updated(TreeAfter(toks), Symbol(tok))
    ensures MessageBits(toks + [tok]) == MessageBits(toks) + TokenBits(TreeAfter(toks), tok)
    ensures Short(toks + [tok]) <==> Short(toks) && |Code(TreeAfter(toks), Symbol(tok))| <= 16
  {
    var next := toks + [tok];
    assert next[..|next| - 1] == toks && next[|next| - 1] == tok;
    forall k | 0 <= k < |next| ensures Codable(next[k]) {
      if k < |toks| { assert next[k] == toks[k]; }
    }
  }

  lemma SnocParse(h: seq<byte>, toks: seq<Token>, tok: Token)
    requires Parses(h, toks) && GreedyParse(h, toks) && Reach(toks) <= |h|
    requires TokenOk(h, Reach(toks), tok) && Greedy(h, Reach(toks), tok)
    ensures Parses(h, toks + [tok]) && GreedyParse(h, toks + [tok])
    ensures Reach(toks + [tok]) == Reach(toks) + Width(tok)
  {
    var next := toks + [tok];
    assert next[..|next| - 1] == toks && next[|next| - 1] == tok;
  }

  /** A first part of the tokens, and the token after it. */
  lemma {:induction false} Prefix(h: seq<byte>, toks: seq<Token>, k: nat)
    requires Parses(h, toks) && k < |toks|
    ensures Parses(h, toks[..k]) && TokenOk(h, Reach(toks[..k]), toks[k])
    ensures Reach(toks[..k]) + Width(toks[k]) <= Reach(toks)
    ensures Reach(toks[..k + 1]) == Reach(toks[..k]) + Width(toks[k])
  {
    var init := toks[..|toks| - 1];
    assert toks[..k + 1][..k] == toks[..k];
    if k < |init| {
      Prefix(h, init, k);
      assert init[..k] == toks[..k] && init[k] == toks[k];
    } else {
      assert init == toks[..k];
    }
  }

  lemma BitsStep(toks: seq<Token>, k: nat)
    requires AllCodable(toks) && k < |toks|
    ensures AllCodable(toks[..k]) && AllCodable(toks[..k + 1]) && Codable(toks[k])
    ensures MessageBits(toks[..k + 1]) == MessageBits(toks[..k]) + TokenBits(TreeAfter(toks[..k]), toks[k])
    ensures |MessageBits(toks[..k + 1])| == |MessageBits(toks[..k])| + |TokenBits(TreeAfter(toks[..k]), toks[k])|
    ensures TreeAfter(toks[..k + 1]) == Updated(TreeAfter(toks[..k]), Symbol(toks[k]))
  {
    var next := toks[..k + 1];
    assert next[..|next| - 1] == toks[..k] && next[|next| - 1] == toks[k];
  }

  lemma PrefixTrans(a: seq<bool>, b: seq<bool>, c: seq<bool>)
    requires a + b <= c
    ensures a <= c
  {
  }

  lemma {:induction false} PrefixBits(toks: seq<Token>, k: nat)
    requires AllCodable(toks) && k <= |toks|
    ensures AllCodable(toks[..k]) && MessageBits(toks[..k]) <= MessageBits(toks)
    decreases |toks| - k
  {
    if k < |toks| {
      BitsStep(toks, k);
      PrefixBits(toks, k + 1);
      PrefixTrans(MessageBits(toks[..k]), TokenBits(TreeAfter(toks[..k]), toks[k]), MessageBits(toks));
    } else {
      assert toks[..k] == toks;
    }
  }

  // ----- short messages have short codes

  lemma RootIsSum(t: Tree)
    requires AtRest(t)
    ensures t.freq[R] == Sum(Weights(t))
  {
  }

  lemma SumNewWeights(w: seq<nat>, s: nat)
    requires |w| == NCHAR && s < NCHAR && Sum(w) < MAX_FREQ
    ensures Sum(NewWeights(w, s)) == Sum(w) + 1
  {
    SumUpdate(w, s, w[s] + 1);
  }

  lemma SumAfterUpdate(t: Tree, s: nat)
    requires AtRest(t) && s < NCHAR && t.freq[R] < MAX_FREQ
    ensures AtRest(Updated(t, s)) && Updated(t, s).freq[R] == t.freq[R] + 1
  {
    RootIsSum(t);
    UpdatedAtRest(t, s);
    RootIsSum(Updated(t, s));
    SumNewWeights(Weights(t), s);
  }

  /** Until the first rebuild the root weighs one more with each symbol. */
  lemma {:induction false} RootWeight(toks: seq<Token>)
    requires AllCodable(toks) && NCHAR + |toks| <= MAX_FREQ
    ensures TreeAfter(toks).freq[R] == NCHAR + |toks|
  {
    if toks == [] {
      StartAtRest();
      StartGrowing();
      WeighsUnique(StartTree(), Ones());
      RootIsSum(StartTree());
    } else {
      var init := toks[..|toks| - 1];
      RootWeight(init);
      SumAfterUpdate(TreeAfter(init), Symbol(toks[|toks| - 1]));
    }
  }

  lemma {:induction false} FewAreShort(toks: seq<Token>)
    requires AllCodable(toks) && |toks| <= 3867
    ensures Short(toks)
  {
    if toks != [] {
      var init := toks[..|toks| - 1];
      FewAreShort(init);
      RootWeight(init);
      ShortCodes(TreeAfter(init), Symbol(toks[|toks| - 1]));
    }
  }

  lemma TokenBound(t: Tree, tok: Token)
    requires AtRest(t) && Codable(tok) && |Code(t, Symbol(tok))| <= 16
    ensures |TokenBits(t, tok)| <= 16 * Width(tok)
  {
  }

  lemma LastBound(h: seq<byte>, toks: seq<Token>, init: seq<Token>)
    requires Parses(h, toks) && AllCodable(toks) && Short(toks) && toks != [] && init == toks[..|toks| - 1]
    ensures Parses(h, init) && AllCodable(init) && Short(init)
    ensures |MessageBits(toks)| - |MessageBits(init)| <= 16 * (Reach(toks) - Reach(init))
  {
    TokenBound(TreeAfter(init), toks[|toks| - 1]);
  }

  /** A coded message is never longer than two bytes per byte. */
  lemma {:induction false} BitsBound(h: seq<byte>, toks: seq<Token>)
    requires Parses(h, toks) && AllCodable(toks) && Short(toks)
    ensures |MessageBits(toks)| <= 16 * (Reach(toks) - START)
  {
    if toks != [] {
      var init := toks[..|toks| - 1];
      LastBound(h, toks, init);
      BitsBound(h, init);
    }
  }

  // ----- the compressed message

  /** The size field. */
  function Header(n: nat): (s: seq<byte>)
    ensures |s| == 4
  {
    [Lo(n), Lo(ShiftRight(n, 8)), Lo(ShiftRight(n, 16)), Lo(ShiftRight(n, 24))]
  }

  /** data, without the CRC in front, is the compressed form of x by these tokens. */
  ghost predicate Encodes(data: seq<byte>, x: seq<byte>, toks: seq<Token>) {
    Spell(x, toks) && AllCodable(toks) && Short(toks) &&
    |data| >= 4 && data[..4] == Header(|x|) &&
    BitsAt(data, 32, MessageBits(toks)) && 8 * |data| < 32 + |MessageBits(toks)| + 8
  }

  /** The size field read back by the decoder, as a signed 32-bit number. */
  function ReadSize(s: seq<byte>): int
    requires |s| == 4
  {
    var n := BitOr(BitOr(BitOr(s[0], ShiftLeft(s[1], 8)), ShiftLeft(s[2], 16)), ShiftLeft(s[3], 24));
    if n < 0x8000_0000 then n else n - 0x1_0000_0000
  }

  /** The size field survives exactly below 2^31; from there on the decoder reads something else. */
  lemma SizeField(n: nat)
    ensures ReadSize(Header(n)) == n <==> n < 0x8000_0000
  {
    if n < 0x8000_0000 { FourBytes(n); }
    var s := Header(n);
    FourBytesBound(s[0], s[1], s[2], s[3]);
  }
}
