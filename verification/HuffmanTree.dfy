/** The adaptive Huffman tree as three sequences indexed by node: frequencies, first sons and
    parents. Nodes 0..R are ordered by frequency; the sons of an inner node sit next to each
    other at an even index; a leaf's "son" is T plus its symbol. */
module HuffmanTree {
  import opened Constants
  import opened Sums

  const SENTINEL: nat := 0xFFFF

  /** No node is one short of its true frequency. */
  const SETTLED: nat := 627

  datatype Tree = Tree(freq: seq<nat>, son: seq<nat>, parent: seq<nat>)

  ghost predicate Sized(t: Tree) {
    |t.freq| == T + 1 && |t.son| == T && |t.parent| == T + NCHAR &&
    t.freq[T] == SENTINEL && t.parent[R] == 0
  }

  ghost predicate Sorted(f: seq<nat>, n: nat)
    requires n <= |f|
  {
    forall i, j | 0 <= i <= j < n :: f[i] <= f[j]
  }

  /** A leaf entry, or the even index of two sons placed below node i. */
  ghost predicate SonOk(s: nat, i: nat) {
    T <= s < T + NCHAR || (s % 2 == 0 && s + 1 < i)
  }

  /** The entry of `son` under which node or symbol entry k is filed. */
  function Base(k: nat): nat { if k >= T then k else k - k % 2 }

  ghost predicate Linked(son: seq<nat>, parent: seq<nat>)
    requires |son| == T && |parent| == T + NCHAR
  {
    (forall i | 0 <= i < T :: SonOk(son[i], i)) &&
    (forall i | 0 <= i < T :: parent[son[i]] == i) &&
    (forall i | 0 <= i < T && son[i] < T :: parent[son[i] + 1] == i) &&
    (forall k | 0 <= k < T + NCHAR && k != R :: parent[k] < T && son[parent[k]] == Base(k))
  }

  /** What Linked says of node m, and of entry k. */
  ghost predicate SonsLinked(son: seq<nat>, parent: seq<nat>, m: nat)
    requires |son| == T && |parent| == T + NCHAR && m < T
  {
    SonOk(son[m], m) && parent[son[m]] == m && (son[m] < T ==> parent[son[m] + 1] == m)
  }

  ghost predicate ParentLinked(son: seq<nat>, parent: seq<nat>, k: nat)
    requires |son| == T && |parent| == T + NCHAR && k < T + NCHAR
  {
    parent[k] < T && son[parent[k]] == Base(k)
  }

  lemma LinkedBy(son: seq<nat>, parent: seq<nat>)
    requires |son| == T && |parent| == T + NCHAR
    requires forall m: nat | m < T :: SonsLinked(son, parent, m)
    requires forall k: nat | k < T + NCHAR && k != R :: ParentLinked(son, parent, k)
    ensures Linked(son, parent)
  {
    forall m | 0 <= m < T
      ensures SonOk(son[m], m) && parent[son[m]] == m && (son[m] < T ==> parent[son[m] + 1] == m)
    {
      assert SonsLinked(son, parent, m);
    }
    forall k | 0 <= k < T + NCHAR && k != R ensures parent[k] < T && son[parent[k]] == Base(k) {
      assert ParentLinked(son, parent, k);
    }
  }

  /** Every inner node weighs as much as its sons, except that node c is one short. */
  ghost predicate Balanced(t: Tree, c: nat)
    requires Sized(t) && Linked(t.son, t.parent)
  {
    forall i | 0 <= i < T && t.son[i] < T ::
      t.freq[i] + (if i == c then 1 else 0) == t.freq[t.son[i]] + t.freq[t.son[i] + 1]
  }

  /** The tree between two climbing steps of `update`, with node c one short; c == SETTLED
      when the tree is at rest. */
  ghost predicate Wf(t: Tree, c: nat) {
    match t case Tree(_, _, _) =>
      Sized(t) && Linked(t.son, t.parent) && Sorted(t.freq, T) && c <= T &&
      (forall i | 0 <= i < T :: t.freq[i] >= 1) &&
      t.freq[R] + (if c < T then 1 else 0) <= MAX_FREQ &&
      Balanced(t, c)
  }

  /** The leaf of symbol s weighs w[s], again with node c one short, and the root weighs the total. */
  ghost predicate Weighs(t: Tree, w: seq<nat>, c: nat)
    requires Sized(t) && Linked(t.son, t.parent)
  {
    |w| == NCHAR &&
    (forall s | 0 <= s < NCHAR :: t.freq[t.parent[s + T]] + (if t.parent[s + T] == c then 1 else 0) == w[s]) &&
    t.freq[R] + (if c < T then 1 else 0) == Sum(w)
  }

  // ----- elementary consequences

  lemma ParentAbove(t: Tree, c: nat, k: nat)
    requires Wf(t, c) && k < R
    ensures k < t.parent[k] <= R && t.son[t.parent[k]] == k - k % 2
  {
    var p := t.parent[k];
    assert t.son[p] == Base(k);
    assert SonOk(t.son[p], p);
  }

  /** A settled or pending inner node outweighs each of its sons. */
  lemma ParentHeavier(t: Tree, c: nat, k: nat)
    requires Wf(t, c) && k < R && t.parent[k] != c
    ensures t.freq[k] < t.freq[t.parent[k]]
  {
    ParentAbove(t, c, k);
    var p := t.parent[k];
    var s := t.son[p];
    assert t.freq[p] == t.freq[s] + t.freq[s + 1];
    assert k == s || k == s + 1;
  }

  // ----- one step of the climb

  /** The last node of the run of nodes, starting at n, that are lighter than k. */
  function BlockEnd(freq: seq<nat>, n: nat, k: nat): (e: nat)
    requires n < |freq| - 1 && freq[|freq| - 1] >= k
    ensures n <= e < |freq| - 1 && freq[e + 1] >= k
    ensures forall i | n < i <= e :: freq[i] < k
    decreases |freq| - n
  {
    if k > freq[n + 1] then BlockEnd(freq, n + 1, k) else n
  }

  function SetParent(parent: seq<nat>, s: nat, p: nat): (r: seq<nat>)
    requires |parent| == T + NCHAR && s < T + NCHAR
    ensures |r| == |parent|
  {
    if s < T then parent[s := p][s + 1 := p] else parent[s := p]
  }

  /** Node c gains one: it changes places with the last node of its weight, which gains one. */
  function Bump(t: Tree, c: nat): (Tree, nat)
    requires |t.freq| == T + 1 && |t.son| == T && |t.parent| == T + NCHAR && c < T
    requires t.freq[T] > t.freq[c]
    requires forall i | 0 <= i < T :: t.son[i] < T + NCHAR
  {
    var k := t.freq[c] + 1;
    var n := BlockEnd(t.freq, c, k);
    if n == c then
      (t.(freq := t.freq[c := k]), c)
    else
      (Tree(t.freq[c := t.freq[n]][n := k],
            t.son[n := t.son[c]][c := t.son[n]],
            SetParent(SetParent(t.parent, t.son[c], n), t.son[n], c)), n)
  }

  /** What is known about the exchange partner of node c. */
  lemma Partner(t: Tree, c: nat)
    requires Wf(t, c) && c < T
    ensures var n := BlockEnd(t.freq, c, t.freq[c] + 1);
            c <= n <= R && t.freq[n] == t.freq[c] && (n < R ==> t.freq[n + 1] > t.freq[c]) &&
            (c < R ==> n < R) && (n != c && t.son[n] < T ==> t.son[n] + 1 < c)
  {
    var n := BlockEnd(t.freq, c, t.freq[c] + 1);
    if c < R {
      ParentAbove(t, c, c);
      ParentHeavier(t, c, c);
      assert t.freq[c] < t.freq[t.parent[c]] <= t.freq[R];
    }
    if n != c && t.son[n] < T {
      var j := t.son[n];
      assert SonOk(j, n);
      assert t.freq[n] == t.freq[j] + t.freq[j + 1];
      assert t.freq[j + 1] < t.freq[c];
    }
  }

  lemma BumpLinked(t: Tree, c: nat)
    requires Wf(t, c) && c < T
    ensures var (t', n) := Bump(t, c);
            Sized(t') && Linked(t'.son, t'.parent) && t'.parent[n] == t.parent[n]
  {
    Partner(t, c);
    var n := Bump(t, c).1;
    if n != c {
      BumpParent(t, c, if n < R then n else 0);
      BumpRelinked(t, c);
    }
  }

  lemma BumpRelinked(t: Tree, c: nat)
    requires Wf(t, c) && c < T && Bump(t, c).1 != c
    ensures Linked(Bump(t, c).0.son, Bump(t, c).0.parent)
  {
    var son, parent := Bump(t, c).0.son, Bump(t, c).0.parent;
    forall m: nat | m < T ensures SonsLinked(son, parent, m) { BumpEntry(t, c, m); }
    forall k: nat | k < T + NCHAR && k != R ensures ParentLinked(son, parent, k) { BumpParent(t, c, k); }
    LinkedBy(son, parent);
  }

  lemma BumpEntry(t: Tree, c: nat, m: nat)
    requires Wf(t, c) && c < T && m < T && Bump(t, c).1 != c
    ensures SonsLinked(Bump(t, c).0.son, Bump(t, c).0.parent, m)
  {
    Partner(t, c);
    var n := Bump(t, c).1;
    var i, j, e := t.son[c], t.son[n], t.son[m];
    assert SonOk(i, c) && SonOk(j, n) && SonOk(e, m);
    assert t.parent[i] == c && t.parent[j] == n && t.parent[e] == m;
    if m == c {
    } else if m == n {
    } else {
      BumpElsewhere(t, c, n, m);
    }
  }

  lemma BumpElsewhere(t: Tree, c: nat, n: nat, m: nat)
    requires Wf(t, c) && c < T && m < T && n == Bump(t, c).1 != c && m != c && m != n
    ensures var (t', e) := (Bump(t, c).0, t.son[m]);
            t'.son[m] == e && t'.parent[e] == m && (e < T ==> t'.parent[e + 1] == m)
  {
    Partner(t, c);
    assert SonOk(t.son[c], c) && SonOk(t.son[n], n) && SonOk(t.son[m], m);
    assert t.parent[t.son[c]] == c && t.parent[t.son[n]] == n && t.parent[t.son[m]] == m;
  }

  lemma BumpParent(t: Tree, c: nat, k: nat)
    requires Wf(t, c) && c < T && k < T + NCHAR && k != R && Bump(t, c).1 != c
    ensures var (t', n) := Bump(t, c);
            ParentLinked(t'.son, t'.parent, k) && (k == n ==> t'.parent[k] == t.parent[k]) &&
            t'.parent[R] == 0
  {
    Partner(t, c);
    var n := Bump(t, c).1;
    var i, j := t.son[c], t.son[n];
    assert SonOk(i, c) && SonOk(j, n);
    assert t.parent[i] == c && t.parent[j] == n;
    assert t.son[t.parent[k]] == Base(k) && t.parent[k] < T;
  }

  lemma BumpSorted(t: Tree, c: nat)
    requires Wf(t, c) && c < T
    ensures Sorted(Bump(t, c).0.freq, T)
    ensures forall m | 0 <= m < T ::
              Bump(t, c).0.freq[m] == t.freq[m] + (if m == Bump(t, c).1 then 1 else 0)
  {
    Partner(t, c);
  }

  /** Whatever node c passes its missing unit on to is the parent of its new place. */
  function Next(t: Tree, n: nat): nat
    requires |t.parent| == T + NCHAR && n < T
  {
    if n == R then SETTLED else t.parent[n]
  }

  /** Node n is a son of node i exactly when i is its parent. */
  lemma SonOf(t: Tree, n: nat, i: nat)
    requires Sized(t) && Linked(t.son, t.parent) && n < T && i < T && t.son[i] < T
    ensures t.son[i] + 1 < i
    ensures (n == t.son[i] || n == t.son[i] + 1) <==> (n != R && t.parent[n] == i)
  {
    assert SonOk(t.son[i], i);
    if n != R && t.parent[n] == i { assert t.son[t.parent[n]] == Base(n); }
  }

  /** The node whose subtree hangs at i after c and n have changed places. */
  function Was(c: nat, n: nat, i: nat): nat {
    if i == n then c else if i == c then n else i
  }

  /** The subtree now at i was in balance where it hung before. */
  lemma BumpedSons(t: Tree, c: nat, i: nat)
    requires Wf(t, c) && c < T && i < T
    ensures var (t', n) := Bump(t, c);
            var s, was := t'.son[i], Was(c, n, i);
            was < T && s == t.son[was] && t.freq[was] == t.freq[i] &&
            (s < T ==> t.freq[i] + (if was == c then 1 else 0) == t.freq[s] + t.freq[s + 1])
  {
    Partner(t, c);
    var (t', n) := Bump(t, c);
    assert SonOk(t.son[Was(c, n, i)], Was(c, n, i));
  }

  lemma BumpBalanced(t: Tree, c: nat)
    requires Wf(t, c) && c < T
    ensures var (t', n) := Bump(t, c);
            Sized(t') && Linked(t'.son, t'.parent) && Balanced(t', Next(t', n))
  {
    BumpLinked(t, c);
    var (t', n) := Bump(t, c);
    forall i | 0 <= i < T && t'.son[i] < T
      ensures t'.freq[i] + (if i == Next(t', n) then 1 else 0) == t'.freq[t'.son[i]] + t'.freq[t'.son[i] + 1]
    {
      assert SonOk(t'.son[i], i);
      BumpBalancedAt(t, c, i);
    }
  }

  lemma BumpBalancedAt(t: Tree, c: nat, i: nat)
    requires Wf(t, c) && c < T && i < T && Bump(t, c).0.son[i] < T - 1
    ensures var (t', n) := Bump(t, c);
            t'.freq[i] + (if i == Next(t', n) then 1 else 0) == t'.freq[t'.son[i]] + t'.freq[t'.son[i] + 1]
  {
    BumpedSons(t, c, i);
    var (t', n) := Bump(t, c);
    assert t'.son[i] + 1 < i && ((n == t'.son[i] || n == t'.son[i] + 1) <==> (n != R && t'.parent[n] == i)) by {
      BumpLinked(t, c);
      SonOf(t', n, i);
    }
    assert n <= R by { Partner(t, c); }
    BumpSorted(t, c);
  }

  lemma BumpWf(t: Tree, c: nat)
    requires Wf(t, c) && c < T
    ensures var (t', n) := Bump(t, c);
            Wf(t', Next(t', n)) && (n < R ==> n < Next(t', n) <= R) && c <= n
  {
    BumpLinked(t, c);
    BumpSorted(t, c);
    BumpBalanced(t, c);
    Partner(t, c);
    var (t', n) := Bump(t, c);
    if n < R {
      assert t'.son[t'.parent[n]] == Base(n);
      assert SonOk(t'.son[t'.parent[n]], t'.parent[n]);
    }
  }

  lemma BumpWeighs(t: Tree, w: seq<nat>, c: nat)
    requires Wf(t, c) && c < T && Weighs(t, w, c)
    ensures var (t', n) := Bump(t, c);
            Sized(t') && Linked(t'.son, t'.parent) && Weighs(t', w, Next(t', n))
  {
    BumpWf(t, c);
    BumpSorted(t, c);
    Partner(t, c);
    var (t', n) := Bump(t, c);
    forall s | 0 <= s < NCHAR
      ensures t'.freq[t'.parent[s + T]] + (if t'.parent[s + T] == Next(t', n) then 1 else 0) == w[s]
    {
      var p := t.parent[s + T];
      assert t.freq[p] + (if p == c then 1 else 0) == w[s];
      assert t.son[p] == Base(s + T);
      if n < R {
        var q := t'.parent[n];
        assert t'.son[q] == Base(n);
        assert t'.son[t'.parent[s + T]] == Base(s + T);
      }
    }
  }

  // ----- update

  /** The climb of `update` from node c to the root. */
  ghost function Climb(t: Tree, c: nat): (r: Tree)
    requires Wf(t, c) && c < T
    ensures Wf(r, SETTLED)
    decreases T - c
  {
    var (t', n) := Bump(t, c);
    BumpWf(t, c);
    if n == R then t' else Climb(t', t'.parent[n])
  }

  lemma {:induction false} ClimbWeighs(t: Tree, w: seq<nat>, c: nat)
    requires Wf(t, c) && c < T && Weighs(t, w, c)
    ensures Weighs(Climb(t, c), w, SETTLED)
    decreases T - c
  {
    BumpWf(t, c);
    BumpWeighs(t, w, c);
    var (t', n) := Bump(t, c);
    if n < R { ClimbWeighs(t', w, t'.parent[n]); }
  }

  /** A tree at rest may be climbed from any leaf. */
  lemma StartClimb(t: Tree, w: seq<nat>, s: nat)
    requires Wf(t, SETTLED) && Weighs(t, w, SETTLED) && t.freq[R] < MAX_FREQ && s < NCHAR
    ensures var c := t.parent[s + T];
            c < T && Wf(t, c) && Weighs(t, w[s := w[s] + 1], c)
  {
    var c := t.parent[s + T];
    assert t.son[c] == Base(s + T);
    SumUpdate(w, s, w[s] + 1);
    forall k | T <= k < T + NCHAR && t.parent[k] == c ensures k == s + T {
      assert t.son[t.parent[k]] == Base(k);
    }
  }
}
