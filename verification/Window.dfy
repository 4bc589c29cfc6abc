/** The encoder's window: what the ring buffer shows of the message, and which of its slots are in
    the search forest. */
module Window {
  import opened Bits
  import opened Constants
  import opened Keys
  import opened Forest
  import opened Links
  import opened ForestUpdates
  import opened Lzss

  /** Around position a of the history: the N-F bytes before it and `len` bytes from it on are in
      the buffer, those of them that a key may reach beyond the end of the ring once more behind it. */
  ghost predicate TextOk(text: Text, h: seq<byte>, a: nat, len: nat) {
    START <= a && a + len <= |h| && len <= F &&
    (forall q: nat | a - START <= q < a + len :: text[q % N] == h[q]) &&
    (forall q: nat | a - START <= q < a + len && q >= N && q % N < F - 1 :: text[q % N + N] == h[q])
  }

  /** A key shows the history as far as it has been read. */
  lemma KeyShows(text: Text, h: seq<byte>, a: nat, len: nat, p: nat, i: nat)
    requires TextOk(text, h, a, len) && a - START <= p <= a && i < F && p + i < a + len
    ensures KeyAt(text, p % N)[i] == h[p + i]
  {
    var m, q := p % N, p + i;
    if m + i < N {
      Slot(p, i, m + i);
    } else {
      Slot(p, i, m + i - N);
    }
    assert text[q % N] == h[q];
  }

  lemma Slot(p: nat, i: nat, s: nat)
    requires s < N && i < N && (p % N + i == s || p % N + i == s + N)
    ensures (p + i) % N == s && (p % N + i == s + N ==> p + i >= N)
  {
  }

  // ----- reading one more byte

  /** The buffer after byte c has been read into slot s. */
  function PutByte(text: Text, s: nat, c: byte): Text
    requires s < N
  {
    if s < F - 1 then text[s := c][s + N := c] else text[s := c]
  }

  /** Slot s, about to be overwritten, lies in no key of the slots younger than it. */
  lemma KeyKept(text: Text, a: nat, s: nat, c: byte, p: nat)
    requires s == (a + F) % N && p < N && (a - p) % N < START
    ensures p != s && KeyAt(PutByte(text, s, c), p) == KeyAt(text, p) && PutByte(text, s, c)[p] == text[p]
  {
    OffsetNot(a, p, 0);
    forall i | 0 <= i < F ensures KeyAt(PutByte(text, s, c), p)[i] == KeyAt(text, p)[i] {
      OffsetNot(a, p, i);
      assert p + i != s && p + i != s + N;
    }
  }

  lemma OffsetNot(a: nat, p: nat, i: nat)
    requires p < N && (a - p) % N < START && i < F
    ensures (p + i) % N != (a + F) % N
  {
    var d := (a - p) % N;
    assert (a + F) % N == (p + d + F) % N;
  }

  lemma TextRead(text: Text, h: seq<byte>, a: nat)
    requires TextOk(text, h, a, F) && a + F < |h|
    ensures TextOk(PutByte(text, (a + F) % N, h[a + F]), h, a + 1, F)
  {
    var s, c := (a + F) % N, h[a + F];
    var text' := PutByte(text, s, c);
    forall q: nat | a + 1 - START <= q < a + 1 + F
      ensures text'[q % N] == h[q] && (q >= N && q % N < F - 1 ==> text'[q % N + N] == h[q])
    {
      if q < a + F { NotOverwritten(a, q); }
    }
  }

  lemma NotOverwritten(a: nat, q: nat)
    requires a + 1 - START <= q < a + F
    ensures q % N != (a + F) % N
  {
  }

  /** Near the end of the message the position advances without reading. */
  lemma TextAdvance(text: Text, h: seq<byte>, a: nat, len: nat)
    requires TextOk(text, h, a, len) && len > 0
    ensures TextOk(text, h, a + 1, len - 1)
  {
  }

  // ----- which slots the forest holds

  /** Every slot in the forest lies at most `far` before position a. */
  ghost predicate Near(text: Text, trees: seq<Bst>, a: nat, low: nat, far: nat) {
    |trees| == 256 && forall p | 0 <= p < N && Held(text, trees, p) :: low <= (a - p) % N <= far
  }

  /** Position q of the history is represented by a slot with its key that is no older. */
  ghost predicate Represented(text: Text, trees: seq<Bst>, a: nat, q: nat) {
    |trees| == 256 &&
    exists p :: 0 <= p < N && Held(text, trees, p) && KeyAt(text, p) == KeyAt(text, q % N) && (a - p) % N <= a - q
  }

  /** All positions of the message itself from `from` up to `to` are represented. */
  ghost predicate Covered(text: Text, trees: seq<Bst>, a: nat, from: int, to: nat) {
    forall q: nat | START <= q && from <= q < to :: Represented(text, trees, a, q)
  }

  lemma InsertHeld(text: Text, trees: seq<Bst>, r: nat, p: nat)
    requires |trees| == 256 && r < N && p < N && Ordered(text, trees[text[r]])
    ensures var b := text[r];
            Held(text, trees[b := Insert(text, trees[b], r)], p) <==>
              p == r || (Held(text, trees, p) && KeyAt(text, p) != KeyAt(text, r))
  {
    InsertOrdered(text, trees[text[r]], r);
    assert KeyAt(text, p)[0] == text[p] && KeyAt(text, r)[0] == text[r];
  }

  lemma DeleteHeld(text: Text, trees: seq<Bst>, s: nat, p: nat)
    requires |trees| == 256 && s < N && p < N && Ordered(text, trees[text[s]])
    ensures var b := text[s];
            Held(text, trees[b := Delete(trees[b], s)], p) <==> p != s && Held(text, trees, p)
  {
    DeleteOrdered(text, trees[text[s]], s);
  }

  /** Slot a % N enters the forest at position a. */
  lemma InsertNear(text: Text, trees: seq<Bst>, a: nat, far: nat)
    requires Near(text, trees, a, 1, far) && Ordered(text, trees[text[a % N]])
    ensures var b := text[a % N];
            Near(text, trees[b := Insert(text, trees[b], a % N)], a, 0, far)
  {
    var b := text[a % N];
    var trees' := trees[b := Insert(text, trees[b], a % N)];
    forall p: nat | p < N && Held(text, trees', p) ensures 0 <= (a - p) % N <= far {
      InsertHeld(text, trees, a % N, p);
      if p == a % N { SlotOf(a); }
    }
  }

  lemma SlotOf(a: nat)
    ensures (a - a % N) % N == 0
  {
  }

  /** Inserting slot a % N leaves every position represented: a slot it replaces has its key. */
  lemma InsertRepresents(text: Text, trees: seq<Bst>, a: nat, q: nat)
    requires |trees| == 256 && Ordered(text, trees[text[a % N]])
    requires START <= q <= a && (q < a ==> Represented(text, trees, a, q))
    ensures var b := text[a % N];
            Represented(text, trees[b := Insert(text, trees[b], a % N)], a, q)
  {
    var b, r := text[a % N], a % N;
    var trees' := trees[b := Insert(text, trees[b], r)];
    InsertHeld(text, trees, r, r);
    SlotOf(a);
    assert Held(text, trees', r);
    if q < a {
      var p :| 0 <= p < N && Held(text, trees, p) && KeyAt(text, p) == KeyAt(text, q % N) && (a - p) % N <= a - q;
      InsertHeld(text, trees, r, p);
    }
  }

  lemma InsertCovered(text: Text, trees: seq<Bst>, a: nat, from: int)
    requires |trees| == 256 && Ordered(text, trees[text[a % N]]) && Covered(text, trees, a, from, a)
    ensures var b := text[a % N];
            Covered(text, trees[b := Insert(text, trees[b], a % N)], a, from, a + 1)
  {
    var b := text[a % N];
    var trees' := trees[b := Insert(text, trees[b], a % N)];
    forall q: nat | START <= q && from <= q < a + 1 ensures Represented(text, trees', a, q) {
      InsertRepresents(text, trees, a, q);
    }
  }

  /** The oldest slot leaves the forest, and the position advances by one. */
  lemma DeleteNear(text: Text, trees: seq<Bst>, a: nat)
    requires Near(text, trees, a, 0, START) && Ordered(text, trees[text[(a + F) % N]])
    ensures var s := (a + F) % N; var trees' := trees[text[s] := Delete(trees[text[s]], s)];
            Near(text, trees', a + 1, 1, START) && !Held(text, trees', s) &&
            forall p | 0 <= p < N && Held(text, trees', p) :: (a - p) % N < START
  {
    var s := (a + F) % N;
    var trees' := trees[text[s] := Delete(trees[text[s]], s)];
    forall p: nat | p < N && Held(text, trees', p)
      ensures 1 <= (a + 1 - p) % N <= START && (a - p) % N < START && p != s
    {
      DeleteHeld(text, trees, s, p);
      NextDistance(a, p);
    }
    DeleteHeld(text, trees, s, s);
  }

  lemma NextDistance(a: nat, p: nat)
    requires p < N && p != (a + F) % N && (a - p) % N <= START
    ensures (a - p) % N < START && (a + 1 - p) % N == (a - p) % N + 1
  {
  }

  /** The slot that leaves represented only the position that leaves the window. */
  lemma DeleteRepresents(text: Text, trees: seq<Bst>, a: nat, q: nat, a': nat)
    requires |trees| == 256 && Ordered(text, trees[text[(a + F) % N]]) && a' == a + 1
    requires Near(text, trees, a, 0, START) && a - START < q <= a && Represented(text, trees, a, q)
    ensures var s := (a + F) % N;
            Represented(text, trees[text[s] := Delete(trees[text[s]], s)], a', q)
  {
    var s := (a + F) % N;
    var trees' := trees[text[s] := Delete(trees[text[s]], s)];
    var p :| 0 <= p < N && Held(text, trees, p) && KeyAt(text, p) == KeyAt(text, q % N) && (a - p) % N <= a - q;
    var d := (a - p) % N;
    NotOldest(a, p, d);
    DeleteHeld(text, trees, s, p);
    assert Held(text, trees', p) && (a' - p) % N <= a' - q;
  }

  lemma NotOldest(a: nat, p: nat, d: nat)
    requires p < N && d == (a - p) % N < START
    ensures p != (a + F) % N && (a + 1 - p) % N == d + 1
  {
    Oldest(a);
  }

  lemma DeleteCovered(text: Text, trees: seq<Bst>, a: nat, a': nat)
    requires |trees| == 256 && Ordered(text, trees[text[(a + F) % N]]) && a' == a + 1
    requires Near(text, trees, a, 0, START) && Covered(text, trees, a, a - START, a')
    ensures var s := (a + F) % N; var trees' := trees[text[s] := Delete(trees[text[s]], s)];
            Covered(text, trees', a', a' - START, a')
  {
    var s := (a + F) % N;
    var trees' := trees[text[s] := Delete(trees[text[s]], s)];
    forall q: nat | START <= q && a' - START <= q < a' ensures Represented(text, trees', a', q) {
      DeleteRepresents(text, trees, a, q, a');
    }
  }

  lemma Oldest(a: nat)
    ensures (a - (a + F) % N) % N == START
  {
  }

  // ----- the forest after a byte has been read

  lemma {:induction false} OrderedSame(text: Text, text': Text, t: Bst)
    requires Ordered(text, t)
    requires forall p | p in Slots(t) && p < N :: KeyAt(text', p) == KeyAt(text, p)
    ensures Ordered(text', t)
  {
    if t.Node? {
      OrderedSame(text, text', t.left);
      OrderedSame(text, text', t.right);
    }
  }

  /** Reading into a slot outside the forest, and outside every key in it, changes nothing in it. */
  lemma ForestRead(text: Text, m: Arrays, trees: seq<Bst>, a: nat, c: byte)
    requires ForestOk(text, m, trees) && !Held(text, trees, (a + F) % N)
    requires forall p | 0 <= p < N && Held(text, trees, p) :: (a - p) % N < START
    ensures ForestOk(PutByte(text, (a + F) % N, c), m, trees)
    ensures forall p | 0 <= p < N :: Held(PutByte(text, (a + F) % N, c), trees, p) <==> Held(text, trees, p)
  {
    var s := (a + F) % N;
    var text' := PutByte(text, s, c);
    forall b: byte ensures TreeOk(text', m, trees[b], b) && s !in Slots(trees[b]) {
      assert TreeOk(text, m, trees[b], b);
      forall p | p in Slots(trees[b]) ensures p < N && KeyAt(text', p) == KeyAt(text, p) && text'[p] == b {
        assert Held(text, trees, p);
        KeyKept(text, a, s, c, p);
      }
      OrderedSame(text, text', trees[b]);
    }
    forall p: nat | p < N
      ensures Held(text', trees, p) <==> Held(text, trees, p)
      ensures m.dad[p] != NIL <==> Held(text', trees, p)
    {
      assert m.dad[p] != NIL <==> Held(text, trees, p);
      if Held(text, trees, p) { KeyKept(text, a, s, c, p); }
      if Held(text', trees, p) { assert TreeOk(text, m, trees[text'[p]], text'[p]); }
    }
  }

  // ----- what insertNode finds, in terms of the message

  /** The best match is a repetition, and no position of the message in the window has a longer one. */
  ghost predicate MatchOk(h: seq<byte>, a: nat, len: nat, best: Best) {
    START <= a && a + len <= |h| && best.len <= F &&
    (best.len > THRESHOLD ==>
       0 <= best.pos < START &&
       forall i | a <= i < a + len && i < a + best.len :: h[i] == h[i - best.pos - 1]) &&
    (forall q: nat | START <= q < a && a - START <= q ::
       MatchLength(h, q, a, len) <= THRESHOLD || MatchLength(h, q, a, len) <= best.len)
  }

  lemma {:induction false} SearchBound(text: Text, t: Bst, r: nat, best: Best)
    requires r < N && Ordered(text, t) && best.len <= F
    ensures Search(text, t, r, best).len <= F
    decreases t
  {
    if t.Node? {
      var best' := Improve(best, Common(KeyAt(text, r), KeyAt(text, t.slot)), Back(r, t.slot));
      SearchBound(text, t.left, r, best');
      SearchBound(text, t.right, r, best');
    }
  }

  /** A match found in the forest repeats the history. */
  lemma MatchRepeats(text: Text, h: seq<byte>, a: nat, len: nat, p: nat, best: Best, i: nat)
    requires TextOk(text, h, a, len) && p < N && 1 <= (a - p) % N <= START
    requires Achieves(text, a % N, p, best) && a <= i < a + len && i < a + best.len && best.len <= F
    ensures best.pos == (a - p) % N - 1 && h[i] == h[i - best.pos - 1]
  {
    BackIs(a, p);
    AgreesBack(text, h, a, len, p, (a - p) % N, i - a, best.len);
  }

  lemma AgreesBack(text: Text, h: seq<byte>, a: nat, len: nat, p: nat, d: nat, k: nat, n: nat)
    requires TextOk(text, h, a, len) && p < N && 1 <= d <= START && d <= a && (a - d) % N == p && k < len && k < n <= F
    requires Common(KeyAt(text, a % N), KeyAt(text, p)) == n
    ensures h[a + k] == h[a + k - d]
  {
    KeyShows(text, h, a, len, a, k);
    KeyShows(text, h, a, len, a - d, k);
    assert KeyAt(text, a % N)[k] == KeyAt(text, p)[k];
  }

  lemma BackIs(a: nat, p: nat)
    requires p < N
    ensures Back(a % N, p) == (a - p) % N - 1 && (a - (a - p) % N) % N == p
  {
  }

  /** A slot agrees with slot r at least as far as the history does. */
  lemma CommonCovers(text: Text, h: seq<byte>, a: nat, len: nat, q: nat)
    requires TextOk(text, h, a, len) && a - START <= q < a
    ensures Common(KeyAt(text, a % N), KeyAt(text, q % N)) >= MatchLength(h, q, a, len)
  {
    var n, k := Common(KeyAt(text, a % N), KeyAt(text, q % N)), MatchLength(h, q, a, len);
    if n < k {
      KeyShows(text, h, a, len, a, n);
      KeyShows(text, h, a, len, q, n);
      Matches(h, q, a, len, n);
    }
  }

  /** No held slot agrees further than the search reports. */
  lemma SearchCovers(text: Text, m: Arrays, trees: seq<Bst>, r: nat, best0: Best, p: nat)
    requires ForestOk(text, m, trees) && r < N && p < N && Held(text, trees, p) && !Held(text, trees, r)
    requires Ordered(text, trees[text[r]])
    ensures var n := Common(KeyAt(text, r), KeyAt(text, p));
            n <= THRESHOLD || n <= Search(text, trees[text[r]], r, best0).len
  {
    SearchLongest(text, trees[text[r]], r, best0);
    assert KeyAt(text, p)[0] == text[p] && KeyAt(text, r)[0] == text[r];
  }

  lemma FoundMatch(text: Text, m: Arrays, trees: seq<Bst>, h: seq<byte>, a: nat, len: nat, pos: int)
    requires ForestOk(text, m, trees) && TextOk(text, h, a, len) && Near(text, trees, a, 1, START)
    requires Covered(text, trees, a, a - START, a) && Ordered(text, trees[text[a % N]])
    ensures !Held(text, trees, a % N)
    ensures MatchOk(h, a, len, Search(text, trees[text[a % N]], a % N, Best(0, pos)))
  {
    var r := a % N;
    var t := trees[text[r]];
    var best0 := Best(0, pos);
    var best := Search(text, t, r, best0);
    SlotOf(a);
    assert !Held(text, trees, r);
    assert TreeOk(text, m, t, text[r]);
    SearchLongest(text, t, r, best0);
    SearchBound(text, t, r, best0);
    if best.len > THRESHOLD {
      var p :| p in Slots(t) && p < N && Achieves(text, r, p, best);
      assert Held(text, trees, p);
      BackIs(a, p);
      forall i | a <= i < a + len && i < a + best.len ensures h[i] == h[i - best.pos - 1] {
        MatchRepeats(text, h, a, len, p, best, i);
      }
    }
    forall q: nat | START <= q < a && a - START <= q
      ensures MatchLength(h, q, a, len) <= THRESHOLD || MatchLength(h, q, a, len) <= best.len
    {
      assert Represented(text, trees, a, q);
      var p :| 0 <= p < N && Held(text, trees, p) && KeyAt(text, p) == KeyAt(text, q % N) && (a - p) % N <= a - q;
      SearchCovers(text, m, trees, r, best0, p);
      CommonCovers(text, h, a, len, q);
    }
  }

  /** The token that encode makes of a match. */
  function TokenFor(h: seq<byte>, a: nat, len: nat, best: Best): Token
    requires a < |h|
  {
    var n := if best.len > len then len else best.len;
    if n <= THRESHOLD || best.pos < 0 then Literal(h[a]) else Copy(n, best.pos)
  }

  lemma TokenForOk(h: seq<byte>, a: nat, len: nat, best: Best)
    requires MatchOk(h, a, len, best) && a < |h| && len == Ahead(h, a)
    ensures var tok := TokenFor(h, a, len, best);
            TokenOk(h, a, tok) && Codable(tok) && Greedy(h, a, tok) && Width(tok) <= len
  {
  }
}
