/** Building a tree from its leaves: how `startHuff` makes the first tree, and how `reconst`
    rebuilds it when the root reaches its limit. */
module HuffmanRebuild {
  import opened Sums
  import opened Constants
  import opened HuffmanTree

  // ----- growing inner nodes above a sorted list of leaves

  /** The last position at or before k whose frequency does not exceed v. */
  function LastNotAbove(f: seq<nat>, v: nat, k: nat): (r: nat)
    requires k < |f|
    ensures r <= k && (forall m | r < m <= k :: f[m] > v)
    ensures f[r] <= v || r == 0
  {
    if v < f[k] && k > 0 then LastNotAbove(f, v, k - 1) else k
  }

  /** The first of the two nodes that get the next inner node as their parent. */
  function NextPair(j: nat): nat
    requires NCHAR <= j
  {
    2 * (j - NCHAR)
  }

  /** One inner node is inserted after the last node that is not heavier. */
  function Grow(f: seq<nat>, s: seq<nat>): (r: (seq<nat>, seq<nat>))
    requires |f| == |s| && NCHAR <= |f| < T
    ensures |r.0| == |r.1| == |f| + 1
  {
    var i := NextPair(|f|);
    var v := f[i] + f[i + 1];
    var k := LastNotAbove(f, v, |f| - 1) + 1;
    (f[..k] + [v] + f[k..], s[..k] + [i] + s[k..])
  }

  function GrowAll(f: seq<nat>, s: seq<nat>): (r: (seq<nat>, seq<nat>))
    requires |f| == |s| && NCHAR <= |f| <= T
    ensures |r.0| == |r.1| == T
    decreases T - |f|
  {
    if |f| == T then (f, s) else var (f', s') := Grow(f, s); GrowAll(f', s')
  }

  /** Entry m of a partly grown tree: a leaf with its weight, or the parent of an earlier pair. */
  ghost predicate EntryOk(f: seq<nat>, s: seq<nat>, w: seq<nat>, m: nat)
    requires m < |s| && |f| == |s| && |w| == NCHAR && NCHAR <= |f|
  {
    if s[m] >= T then s[m] < T + NCHAR && f[m] == w[s[m] - T]
    else s[m] % 2 == 0 && s[m] < NextPair(|f|) && s[m] + 1 < m && f[m] == f[s[m]] + f[s[m] + 1]
  }

  /** A sorted, partly grown tree over the leaf weights w. All nodes below NextPair have a
      parent; the others together weigh what the leaves weigh. */
  ghost predicate Growing(f: seq<nat>, s: seq<nat>, w: seq<nat>) {
    |f| == |s| && |w| == NCHAR && NCHAR <= |f| <= T &&
    Sorted(f, |f|) && (forall m | 0 <= m < |f| :: f[m] >= 1) &&
    (forall m | 0 <= m < |f| :: EntryOk(f, s, w, m)) &&
    NoDup(s) &&
    (forall k: nat | T <= k < T + NCHAR :: k in s) &&
    (forall k: nat | k < NextPair(|f|) && k % 2 == 0 :: k in s) &&
    Sum(f[NextPair(|f|)..]) == Sum(w)
  }

  /** Where the new inner node goes: after its own sons, and in order. */
  lemma GrowPlace(f: seq<nat>, s: seq<nat>, w: seq<nat>)
    requires Growing(f, s, w) && |f| < T
    ensures var i := NextPair(|f|);
            var v := f[i] + f[i + 1];
            var k := LastNotAbove(f, v, |f| - 1) + 1;
            i + 1 < k <= |f| && f[k - 1] <= v && (forall m | k <= m < |f| :: v < f[m])
  {
    var i := NextPair(|f|);
    assert f[i] >= 1 && f[i + 1] >= 1;
  }

  lemma GrowSorted(f: seq<nat>, s: seq<nat>, w: seq<nat>)
    requires Growing(f, s, w) && |f| < T
    ensures var f' := Grow(f, s).0;
            Sorted(f', |f'|) && (forall m | 0 <= m < |f'| :: f'[m] >= 1)
  {
    GrowPlace(f, s, w);
  }

  lemma GrowEntry(f: seq<nat>, s: seq<nat>, w: seq<nat>, m: nat)
    requires Growing(f, s, w) && |f| < T && m <= |f|
    ensures var (f', s') := Grow(f, s); EntryOk(f', s', w, m)
  {
    GrowPlace(f, s, w);
    var i := NextPair(|f|);
    var k := LastNotAbove(f, f[i] + f[i + 1], |f| - 1) + 1;
    if m != k { assert EntryOk(f, s, w, if m < k then m else m - 1); }
  }

  lemma GrowCover(f: seq<nat>, s: seq<nat>, w: seq<nat>)
    requires Growing(f, s, w) && |f| < T
    ensures var (f', s') := Grow(f, s);
            NoDup(s') && (forall k: nat | T <= k < T + NCHAR :: k in s') &&
            (forall k: nat | k < NextPair(|f'|) && k % 2 == 0 :: k in s')
  {
    GrowPlace(f, s, w);
    var i := NextPair(|f|);
    var k := LastNotAbove(f, f[i] + f[i + 1], |f| - 1) + 1;
    var s' := Grow(f, s).1;
    forall m | 0 <= m < |s| ensures s[m] != i {
      assert EntryOk(f, s, w, m);
    }
    assert s'[k] == i;
    forall x: nat | x in s ensures x in s' {
      var a :| 0 <= a < |s| && s[a] == x;
      assert s'[if a < k then a else a + 1] == x;
    }
  }

  lemma SumFirstTwo(f: seq<nat>)
    requires |f| >= 2
    ensures Sum(f) == f[0] + f[1] + Sum(f[2..])
  {
    assert f[1..][1..] == f[2..];
  }

  lemma SumInserted(g: seq<nat>, k: nat, v: nat)
    requires k <= |g|
    ensures Sum(g[..k] + [v] + g[k..]) == v + Sum(g)
  {
    var g' := g[..k] + [v] + g[k..];
    SumWithout(g', k);
    assert g'[..k] + g'[k + 1..] == g;
  }

  lemma InsertThenDrop(f: seq<nat>, d: nat, k: nat, v: nat)
    requires d <= k <= |f|
    ensures (f[..k] + [v] + f[k..])[d..] == f[d..][..k - d] + [v] + f[d..][k - d..]
  {
  }

  /** A pair leaves the front of the list and its parent is inserted: the sum stays. */
  lemma SumAfterInsert(f: seq<nat>, i: nat, k: nat)
    requires i + 2 <= k <= |f|
    ensures Sum((f[..k] + [f[i] + f[i + 1]] + f[k..])[i + 2..]) == Sum(f[i..])
  {
    SumFirstTwo(f[i..]);
    assert f[i..][2..] == f[i + 2..];
    SumInserted(f[i + 2..], k - i - 2, f[i] + f[i + 1]);
    InsertThenDrop(f, i + 2, k, f[i] + f[i + 1]);
  }

  lemma GrowSum(f: seq<nat>, s: seq<nat>, w: seq<nat>)
    requires Growing(f, s, w) && |f| < T
    ensures var (f', s') := Grow(f, s);
            Sum(f'[NextPair(|f'|)..]) == Sum(w)
  {
    GrowPlace(f, s, w);
    var i := NextPair(|f|);
    SumAfterInsert(f, i, LastNotAbove(f, f[i] + f[i + 1], |f| - 1) + 1);
  }

  lemma GrowKeeps(f: seq<nat>, s: seq<nat>, w: seq<nat>)
    requires Growing(f, s, w) && |f| < T
    ensures var (f', s') := Grow(f, s); Growing(f', s', w)
  {
    var (f', s') := Grow(f, s);
    forall m | 0 <= m < |f'| ensures EntryOk(f', s', w, m) {
      GrowEntry(f, s, w, m);
    }
    GrowSorted(f, s, w);
    GrowCover(f, s, w);
    GrowSum(f, s, w);
  }

  lemma {:induction false} GrowAllKeeps(f: seq<nat>, s: seq<nat>, w: seq<nat>)
    requires Growing(f, s, w)
    ensures var (f', s') := GrowAll(f, s); Growing(f', s', w)
    decreases T - |f|
  {
    if |f| < T {
      GrowKeeps(f, s, w);
      var (f', s') := Grow(f, s);
      GrowAllKeeps(f', s', w);
    }
  }

  /** No inner node ever outweighs all the leaves together. */
  lemma PairBelowTotal(f: seq<nat>, s: seq<nat>, w: seq<nat>)
    requires Growing(f, s, w) && |f| < T
    ensures var i := NextPair(|f|); f[i] + f[i + 1] <= Sum(w)
  {
    SumFirstTwo(f[NextPair(|f|)..]);
  }

  // ----- the parents that go with a list of sons

  function IndexOf(s: seq<nat>, x: nat): (k: nat)
    ensures k <= |s|
    ensures k < |s| ==> s[k] == x
    ensures x in s ==> k < |s|
  {
    if s == [] then 0 else if s[0] == x then 0 else 1 + IndexOf(s[1..], x)
  }

  function ParentsOf(son: seq<nat>): (p: seq<nat>)
    requires |son| == T
    ensures |p| == T + NCHAR
  {
    seq(T + NCHAR, k requires 0 <= k < T + NCHAR => if k == R then 0 else IndexOf(son, Base(k)))
  }

  lemma ParentsOfLinked(f: seq<nat>, son: seq<nat>, w: seq<nat>)
    requires Growing(f, son, w) && |son| == T
    ensures Linked(son, ParentsOf(son)) && ParentsOf(son)[R] == 0
  {
    var p := ParentsOf(son);
    forall k: nat | k < T + NCHAR && k != R ensures p[k] < T && son[p[k]] == Base(k) {
      assert Base(k) in son;
    }
    forall i | 0 <= i < T
      ensures SonOk(son[i], i) && p[son[i]] == i && (son[i] < T ==> p[son[i] + 1] == i)
    {
      assert EntryOk(f, son, w, i);
      assert son[p[son[i]]] == son[i];
      if son[i] < T { assert son[p[son[i] + 1]] == son[i]; }
    }
  }

  /** Only one list of parents fits a list of sons. */
  lemma ParentsUnique(son: seq<nat>, p: seq<nat>, q: seq<nat>)
    requires |son| == T && |p| == |q| == T + NCHAR
    requires Linked(son, p) && Linked(son, q) && p[R] == q[R]
    ensures p == q
  {
    forall k | 0 <= k < T + NCHAR ensures p[k] == q[k] {
      if k != R {
        assert son[p[k]] == Base(k);
        var i := p[k];
        assert q[son[i]] == i;
        if son[i] < T { assert q[son[i] + 1] == i; }
      }
    }
  }

  /** A fully grown tree. */
  function Grown(f: seq<nat>, s: seq<nat>): Tree
    requires |f| == |s| == T
  {
    Tree(f + [SENTINEL], s, ParentsOf(s))
  }

  lemma GrownWeighs(f: seq<nat>, s: seq<nat>, w: seq<nat>)
    requires Growing(f, s, w) && |f| == T
    ensures var t := Grown(f, s);
            Sized(t) && Linked(t.son, t.parent) && Weighs(t, w, SETTLED)
  {
    ParentsOfLinked(f, s, w);
    var t := Grown(f, s);
    assert NextPair(|f|) == R && f[R..] == [f[R]] && Sum([f[R]]) == f[R];
    forall c | 0 <= c < NCHAR ensures t.parent[c + T] < T && t.freq[t.parent[c + T]] == w[c] {
      var p := t.parent[c + T];
      assert s[p] == Base(c + T);
      assert EntryOk(f, s, w, p);
    }
  }

  lemma GrownWf(f: seq<nat>, s: seq<nat>, w: seq<nat>)
    requires Growing(f, s, w) && |f| == T && Sum(w) <= MAX_FREQ
    ensures Wf(Grown(f, s), SETTLED)
  {
    GrownWeighs(f, s, w);
    var t := Grown(f, s);
    forall i | 0 <= i < T && t.son[i] < T
      ensures t.freq[i] == t.freq[t.son[i]] + t.freq[t.son[i] + 1]
    {
      assert EntryOk(f, s, w, i);
    }
  }

  // ----- the first tree

  ghost function StartSons(): seq<nat> { seq(NCHAR, i => i + T) }

  ghost function Ones(): seq<nat> { seq(NCHAR, _ => 1) }

  ghost function StartTree(): Tree {
    var (f, s) := GrowAll(Ones(), StartSons());
    Grown(f, s)
  }

  lemma StartGrowing()
    ensures Growing(Ones(), StartSons(), Ones()) && Sum(Ones()) == NCHAR
  {
    var f, s := Ones(), StartSons();
    SumOnes(NCHAR);
    assert f[NextPair(|f|)..] == f;
    forall k: nat | T <= k < T + NCHAR ensures k in s { assert s[k - T] == k; }
  }

  /** startHuff: every symbol starts with weight one. */
  lemma StartAtRest()
    ensures Wf(StartTree(), SETTLED) && Weighs(StartTree(), Ones(), SETTLED)
  {
    StartGrowing();
    GrowAllKeeps(Ones(), StartSons(), Ones());
    var (f, s) := GrowAll(Ones(), StartSons());
    GrownWf(f, s, Ones());
    GrownWeighs(f, s, Ones());
  }

  // ----- halving all weights

  function Halve(x: nat): nat { (x + 1) / 2 }

  function Halved(w: seq<nat>): seq<nat> { seq(|w|, i requires 0 <= i < |w| => Halve(w[i])) }

  lemma {:induction false} SumHalved(w: seq<nat>)
    ensures 2 * Sum(Halved(w)) <= Sum(w) + |w|
  {
    if w != [] {
      assert Halved(w)[1..] == Halved(w[1..]);
      SumHalved(w[1..]);
    }
  }

  /** The leaves among the first i nodes, in order, with halved frequencies. */
  function Leaves(freq: seq<nat>, son: seq<nat>, i: nat): (r: (seq<nat>, seq<nat>))
    requires i <= |freq| && i <= |son|
    ensures |r.0| == |r.1| <= i
  {
    if i == 0 then ([], [])
    else
      var (f, s) := Leaves(freq, son, i - 1);
      if son[i - 1] >= T then (f + [Halve(freq[i - 1])], s + [son[i - 1]]) else (f, s)
  }

  /** f and s are the halved frequencies and entries of the leaves below node i, in node order. */
  ghost predicate LeafList(t: Tree, f: seq<nat>, s: seq<nat>, i: nat)
    requires Sized(t) && i <= T
  {
    match t case Tree(freq, son, parent) =>
      |f| == |s| &&
      (forall m | 0 <= m < |s| ::
         T <= s[m] < T + NCHAR && parent[s[m]] < i && f[m] == Halve(freq[parent[s[m]]])) &&
      (forall a, b | 0 <= a < b < |s| :: parent[s[a]] < parent[s[b]]) &&
      (forall p | 0 <= p < i && son[p] >= T :: son[p] in s)
  }

  lemma LeafListSkip(t: Tree, f: seq<nat>, s: seq<nat>, i: nat)
    requires Sized(t) && i < T && LeafList(t, f, s, i) && t.son[i] < T
    ensures LeafList(t, f, s, i + 1)
  {
  }

  lemma LeafListStep(t: Tree, f: seq<nat>, s: seq<nat>, i: nat)
    requires Wf(t, SETTLED) && i < T && LeafList(t, f, s, i) && t.son[i] >= T
    ensures LeafList(t, f + [Halve(t.freq[i])], s + [t.son[i]], i + 1)
  {
    assert SonOk(t.son[i], i) && t.parent[t.son[i]] == i;
    var s' := s + [t.son[i]];
    assert s'[|s|] == t.son[i];
    forall p | 0 <= p < i && t.son[p] >= T ensures t.son[p] in s' {
      assert t.son[p] in s;
    }
  }

  lemma {:induction false} LeavesAre(t: Tree, i: nat)
    requires Wf(t, SETTLED) && i <= T
    ensures var (f, s) := Leaves(t.freq, t.son, i); LeafList(t, f, s, i)
  {
    if i > 0 {
      LeavesAre(t, i - 1);
      var (f, s) := Leaves(t.freq, t.son, i - 1);
      if t.son[i - 1] >= T { LeafListStep(t, f, s, i - 1); } else { LeafListSkip(t, f, s, i - 1); }
    }
  }

  lemma LeavesList(t: Tree)
    requires Wf(t, SETTLED)
    ensures var (f, s) := Leaves(t.freq, t.son, T);
            Lists(s, T, NCHAR) && |s| == NCHAR
  {
    LeavesAre(t, T);
    var (f, s) := Leaves(t.freq, t.son, T);
    forall x: nat | T <= x < T + NCHAR ensures x in s {
      assert t.son[t.parent[x]] == Base(x);
    }
    LengthOfPermutation(s, T, NCHAR);
  }

  lemma LeafEntries(t: Tree, w: seq<nat>, f: seq<nat>, s: seq<nat>)
    requires Wf(t, SETTLED) && Weighs(t, w, SETTLED) && LeafList(t, f, s, T)
    ensures forall m | 0 <= m < |s| :: f[m] == Halved(w)[s[m] - T] && f[m] >= 1
  {
    forall m | 0 <= m < |s| ensures f[m] == Halved(w)[s[m] - T] && f[m] >= 1 {
      var c := s[m] - T;
      assert t.freq[t.parent[c + T]] == w[c];
    }
  }

  lemma LeavesSorted(t: Tree, f: seq<nat>, s: seq<nat>)
    requires Wf(t, SETTLED) && LeafList(t, f, s, T)
    ensures Sorted(f, |f|) && NoDup(s)
  {
  }

  /** All leaves with their weights, in order, are a tree of which nothing has been built yet. */
  lemma LeavesOnly(f: seq<nat>, s: seq<nat>, w: seq<nat>)
    requires |f| == |s| == |w| == NCHAR && Lists(s, T, NCHAR) && NoDup(s) && Sorted(f, |f|)
    requires forall m | 0 <= m < |s| :: f[m] == w[s[m] - T] && f[m] >= 1
    ensures Growing(f, s, w)
  {
    SumPermuted(f, s, w, T);
    assert f[NextPair(|f|)..] == f;
  }

  /** What reconst collects in its first pass can be grown into a tree of the halved weights. */
  lemma LeavesGrowing(t: Tree, w: seq<nat>)
    requires Wf(t, SETTLED) && Weighs(t, w, SETTLED)
    ensures var (f, s) := Leaves(t.freq, t.son, T); Growing(f, s, Halved(w))
  {
    var (f, s) := Leaves(t.freq, t.son, T);
    LeavesAre(t, T);
    LeavesList(t);
    LeafEntries(t, w, f, s);
    LeavesSorted(t, f, s);
    LeavesOnly(f, s, Halved(w));
  }

  // ----- reconst and update on trees

  /** The leaf weights of a tree, by symbol. */
  ghost function Weights(t: Tree): (w: seq<nat>)
    requires Sized(t)
    ensures |w| == NCHAR
  {
    seq(NCHAR, s requires 0 <= s < NCHAR => if t.parent[s + T] < T then t.freq[t.parent[s + T]] else 0)
  }

  /** All invariants of the tree between two symbols. */
  ghost predicate AtRest(t: Tree) {
    match t case Tree(_, _, _) => Wf(t, SETTLED) && Weighs(t, Weights(t), SETTLED)
  }

  lemma WeighsUnique(t: Tree, w: seq<nat>)
    requires Wf(t, SETTLED) && Weighs(t, w, SETTLED)
    ensures Weights(t) == w && AtRest(t)
  {
  }
}
