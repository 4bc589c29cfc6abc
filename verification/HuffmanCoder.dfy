/** The adaptive Huffman tree in its three arrays, updated in place. */
module HuffmanCoder {
  import opened Bits
  import opened Constants
  import opened HuffmanTree
  import opened Sums
  import opened HuffmanRebuild
  import opened HuffmanCode

  /** A tree that grows at its end: the case of startHuff, where no node has to be moved. */
  lemma GrowAtEnd(f: seq<nat>, s: seq<nat>, w: seq<nat>, i: nat, v: nat)
    requires Growing(f, s, w) && |f| < T && i == NextPair(|f|) && i + 1 < |f| && v == f[i] + f[i + 1]
    requires if |f| == NCHAR then f[NCHAR - 1] == 1 else s[|f| - 1] == NextPair(|f|) - 2
    ensures Grow(f, s) == (f + [v], s + [i])
  {
    var j := |f|;
    assert EntryOk(f, s, w, j - 1);
    assert f[j - 1] <= v;
    assert f[..j] + [v] + f[j..] == f + [v];
    assert s[..j] + [i] + s[j..] == s + [i];
  }

  /** The first nodes are each filed as the parent of their sons. */
  ghost predicate Filed(s: seq<nat>, p: seq<nat>)
    requires |p| == T + NCHAR
  {
    forall k | 0 <= k < |s| ::
      s[k] < T + NCHAR && p[s[k]] == k && (s[k] < T ==> p[s[k] + 1] == k)
  }

  lemma FiledEntries(f: seq<nat>, son: seq<nat>, w: seq<nat>, p: seq<nat>)
    requires Growing(f, son, w) && |son| == T && |p| == T + NCHAR && Filed(son, p)
    ensures var q := p[R := 0];
            forall i | 0 <= i < T :: SonOk(son[i], i) && q[son[i]] == i && (son[i] < T ==> q[son[i] + 1] == i)
  {
    var q := p[R := 0];
    forall i | 0 <= i < T
      ensures SonOk(son[i], i) && q[son[i]] == i && (son[i] < T ==> q[son[i] + 1] == i)
    {
      assert EntryOk(f, son, w, i);
    }
  }

  /** Filing every node under its sons fixes all parents. */
  lemma FiledIsLinked(f: seq<nat>, son: seq<nat>, w: seq<nat>, p: seq<nat>)
    requires Growing(f, son, w) && |son| == T && |p| == T + NCHAR && Filed(son, p)
    ensures p[R := 0] == ParentsOf(son)
  {
    var q := p[R := 0];
    FiledEntries(f, son, w, p);
    forall k: nat | k < T + NCHAR && k != R ensures q[k] < T && son[q[k]] == Base(k) {
      assert Base(k) in son;
      var i :| 0 <= i < T && son[i] == Base(k);
      assert q[son[i]] == i;
    }
    ParentsOfLinked(f, son, w);
    ParentsUnique(son, q, ParentsOf(son));
  }

  /** startHuff part-way through its second loop: the nodes made so far, and all parents. */
  ghost predicate Starting(t: Tree) {
    match t case Tree(_, _, _) =>
      |t.parent| == T + NCHAR &&
      Growing(t.freq, t.son, Ones()) && GrowAll(t.freq, t.son) == GrowAll(Ones(), StartSons()) &&
      Filed(t.son, t.parent) &&
      (if |t.freq| == NCHAR then t.freq[NCHAR - 1] == 1 else t.son[|t.son| - 1] == NextPair(|t.freq|) - 2)
  }

  lemma StartBegins(p: seq<nat>)
    requires |p| == T + NCHAR && forall k | T <= k < T + NCHAR :: p[k] == k - T
    ensures Starting(Tree(Ones(), StartSons(), p))
  {
    StartGrowing();
  }

  /** The new node's sons are not filed under any earlier node. */
  lemma FileNext(f: seq<nat>, s: seq<nat>, p: seq<nat>, i: nat, j: nat)
    requires |p| == T + NCHAR && Growing(f, s, Ones()) && Filed(s, p) && i == NextPair(|f|) && i + 1 < j == |f| < T
    ensures Filed(s + [i], p[i := j][i + 1 := j])
  {
    forall k | 0 <= k < j ensures s[k] != i && s[k] != i + 1 && s[k] + 1 != i {
      assert EntryOk(f, s, Ones(), k);
    }
  }

  lemma OnesTotal()
    ensures Sum(Ones()) == NCHAR
  {
    StartGrowing();
  }

  lemma StartStep(f: seq<nat>, s: seq<nat>, p: seq<nat>, i: nat, j: nat, v: nat, p': seq<nat>)
    requires Starting(Tree(f, s, p)) && i + 1 < j == |f| < T && i == NextPair(j)
    requires v == f[i] + f[i + 1] && p' == p[i := j][i + 1 := j]
    ensures v <= NCHAR && Starting(Tree(f + [v], s + [i], p'))
  {
    OnesTotal();
    PairBelowTotal(f, s, Ones());
    GrowAtEnd(f, s, Ones(), i, v);
    FileNext(f, s, p, i, j);
    StartsOn(f, s, Ones(), i, v, p, p');
  }

  lemma StartsOn(f: seq<nat>, s: seq<nat>, w: seq<nat>, i: nat, v: nat, p: seq<nat>, p': seq<nat>)
    requires Starting(Tree(f, s, p)) && w == Ones() && |f| < T && i == NextPair(|f|) && i + 1 < |f| && v == f[i] + f[i + 1]
    requires Grow(f, s) == (f + [v], s + [i]) && |p'| == T + NCHAR && Filed(s + [i], p')
    ensures Starting(Tree(f + [v], s + [i], p'))
  {
    GrowOne(f, s, w, i, v);
  }

  lemma GrowOne(f: seq<nat>, s: seq<nat>, w: seq<nat>, i: nat, v: nat)
    requires Growing(f, s, w) && |f| < T && i == NextPair(|f|) && i + 1 < |f| && v == f[i] + f[i + 1]
    requires Grow(f, s) == (f + [v], s + [i])
    ensures Growing(f + [v], s + [i], w) && GrowAll(f + [v], s + [i]) == GrowAll(f, s)
  {
    GrowKeeps(f, s, w);
  }

  lemma StartSealed(f: seq<nat>, s: seq<nat>, p: seq<nat>)
    requires Starting(Tree(f, s, p)) && |f| == T
    ensures Tree(f + [SENTINEL], s, p[R := 0]) == StartTree() && AtRest(StartTree())
  {
    FiledIsLinked(f, s, Ones(), p);
    StartAtRest();
    WeighsUnique(StartTree(), Ones());
  }

  /** Only the nodes after the starting one matter to the search for its exchange partner. */
  lemma BlockEndIgnores(f: seq<nat>, c: nat, k: nat)
    requires c < |f| - 1 && f[|f| - 1] >= k
    ensures BlockEnd(f[c := k], c, k) == BlockEnd(f, c, k)
  {
    if k > f[c + 1] { BlockEndSame(f, f[c := k], c + 1, k); }
  }

  lemma {:induction false} BlockEndSame(f: seq<nat>, g: seq<nat>, n: nat, k: nat)
    requires |f| == |g| && n < |f| - 1 && f[|f| - 1] >= k && f[n..] == g[n..]
    ensures BlockEnd(f, n, k) == BlockEnd(g, n, k)
    decreases |f| - n
  {
    assert f[n + 1] == f[n..][1] == g[n..][1] == g[n + 1];
    if k > f[n + 1] {
      assert f[n + 1..] == f[n..][1..] == g[n..][1..] == g[n + 1..];
      BlockEndSame(f, g, n + 1, k);
    }
  }

  /** Enough of the invariants for a climbing step to be carried out. */
  ghost predicate CanBump(t: Tree, c: nat) {
    |t.freq| == T + 1 && |t.son| == T && |t.parent| == T + NCHAR && c < T &&
    t.freq[T] == SENTINEL && t.freq[c] < SENTINEL &&
    forall i | 0 <= i < T :: t.son[i] < T + NCHAR
  }

  lemma WfCanBump(t: Tree, c: nat)
    requires Wf(t, c) && c < T
    ensures CanBump(t, c)
  {
    forall i | 0 <= i < T ensures t.son[i] < T + NCHAR { assert SonOk(t.son[i], i); }
  }

  /** Parent 0 is found at the root and nowhere else, so it ends the climb. */
  lemma ParentZero(t: Tree, c: nat, n: nat)
    requires Wf(t, c) && n <= R
    ensures t.parent[n] == 0 <==> n == R
  {
    if n < R { ParentAbove(t, c, n); }
  }

  /** Filing one more node undoes none of the earlier ones. */
  lemma FileEntry(f: seq<nat>, s: seq<nat>, w: seq<nat>, p: seq<nat>, i: nat)
    requires Growing(f, s, w) && |s| == T && i < T && |p| == T + NCHAR && Filed(s[..i], p)
    ensures SonOk(s[i], i) && s[i] != R && s[i] + 1 != R
    ensures Filed(s[..i + 1], SetParent(p, s[i], i))
  {
    assert EntryOk(f, s, w, i);
    forall k | 0 <= k < i
      ensures s[k] != s[i] && (s[i] < T ==> s[k] != s[i] + 1) && (s[k] < T ==> s[k] + 1 != s[i])
    {
      assert EntryOk(f, s, w, k);
    }
    assert s[..i + 1] == s[..i] + [s[i]];
  }

  /** reconst part-way through its second pass. */
  ghost predicate GrowingTo(f: seq<nat>, s: seq<nat>, w: seq<nat>, goal: (seq<nat>, seq<nat>)) {
    match goal case (_, _) => Growing(f, s, w) && GrowAll(f, s) == goal
  }

  lemma RegrowStep(f: seq<nat>, s: seq<nat>, w: seq<nat>, goal: (seq<nat>, seq<nat>))
    requires GrowingTo(f, s, w, goal) && |f| < T
    ensures var i, (f', s') := NextPair(|f|), Grow(f, s);
            f[i] + f[i + 1] <= Sum(w) && GrowingTo(f', s', w, goal)
  {
    PairBelowTotal(f, s, w);
    GrowKeeps(f, s, w);
  }

  lemma RegrowBegins(t: Tree, w: seq<nat>)
    requires AtRest(t) && w == Weights(t)
    ensures var (f, s) := Leaves(t.freq, t.son, T);
            |f| == |s| == NCHAR && GrowingTo(f, s, Halved(w), GrowAll(f, s)) &&
            Sum(Halved(w)) <= MAX_FREQ && Sized(t) &&
            Rebuilt(t) == Grown(GrowAll(f, s).0, GrowAll(f, s).1)
  {
    LeavesList(t);
    LeavesGrowing(t, w);
    SumHalved(w);
  }

  lemma MovedUp(now: seq<nat>, was: seq<nat>, k: nat, j: nat, x: nat)
    requires k <= j < |now| == |was| && now[k] == x
    requires (forall m | 0 <= m < k :: now[m] == was[m]) && (forall m | k < m <= j :: now[m] == was[m - 1])
    ensures now[..j + 1] == was[..k] + [x] + was[k..j]
  {
  }

  class Huffman {
    const freq: array<nat>
    const son: array<nat>
    const parent: array<nat>

    predicate Allocated() {
      freq.Length == T + 1 && son.Length == T && parent.Length == T + NCHAR &&
      freq != son && freq != parent && son != parent
    }

    ghost function Tree(): Tree
      reads freq, son, parent
    {
      HuffmanTree.Tree(freq[..], son[..], parent[..])
    }

    /** The nodes below j, and all parents. */
    ghost function Made(j: nat): Tree
      requires Allocated() && j <= T
      reads freq, son, parent
    {
      HuffmanTree.Tree(freq[..j], son[..j], parent[..])
    }

    ghost predicate Valid()
      reads freq, son, parent
    {
      Allocated() && AtRest(Tree())
    }

    constructor ()
      ensures Allocated() && fresh(freq) && fresh(son) && fresh(parent)
    {
      freq := new nat[T + 1](_ => 0);
      son := new nat[T](_ => 0);
      parent := new nat[T + NCHAR](_ => 0);
    }

    /** The leaves of the first tree. */
    method StartLeaves()
      requires Allocated()
      modifies freq, son, parent
      ensures freq[..NCHAR] == Ones() && son[..NCHAR] == StartSons()
      ensures forall k | T <= k < T + NCHAR :: parent[k] == k - T
    {
      for i := 0 to NCHAR
        invariant forall k | 0 <= k < i :: freq[k] == 1 && son[k] == k + T
        invariant forall k | T <= k < T + i :: parent[k] == k - T
      {
        freq[i] := 1;
        son[i] := i + T;
        parent[i + T] := i;
      }
    }

    /** One round of startHuff's second loop. */
    method StartInner(i: nat, j: nat)
      requires Allocated() && i + 1 < j < T && freq[i] + freq[i + 1] < 0x10000
      modifies freq, son, parent
      ensures freq[..j + 1] == old(freq[..j]) + [old(freq[i] + freq[i + 1])]
      ensures son[..j + 1] == old(son[..j]) + [i]
      ensures parent[..] == old(parent[..])[i := j][i + 1 := j]
    {
      Mask16Fits(freq[i] + freq[i + 1]);
      freq[j] := Mask16(freq[i] + freq[i + 1]);
      son[j] := i;
      parent[i] := j;
      parent[i + 1] := j;
    }

    method StartRound(i: nat, j: nat)
      requires Allocated() && NCHAR <= j < T && i == NextPair(j)
      requires Starting(Made(j))
      modifies freq, son, parent
      ensures Starting(Made(j + 1))
    {
      ghost var f: seq<nat>, s: seq<nat>, p: seq<nat> := freq[..j], son[..j], parent[..];
      ghost var v: nat, p' := f[i] + f[i + 1], p[i := j][i + 1 := j];
      StartStep(f, s, p, i, j, v, p');
      StartInner(i, j);
      assert Made(j + 1) == HuffmanTree.Tree(f + [v], s + [i], p');
    }

    /** The inner nodes. */
    method StartPairs()
      requires Allocated() && Starting(Made(NCHAR))
      modifies freq, son, parent
      ensures Starting(Made(T))
    {
      var i, j := 0, NCHAR;
      while j <= R
        invariant NCHAR <= j <= T && i == NextPair(j)
        invariant Starting(Made(j))
      {
        StartRound(i, j);
        i := i + 2;
        j := j + 1;
      }
    }

    method StartHuff()
      requires Allocated()
      modifies freq, son, parent
      ensures Tree() == StartTree() && Valid()
    {
      StartLeaves();
      StartBegins(parent[..]);
      StartPairs();
      StartSeal();
    }

    /** The sentinel, and the root's lack of a parent. */
    method StartSeal()
      requires Allocated() && Starting(Made(T))
      modifies freq, parent
      ensures Tree() == StartTree() && Valid()
    {
      ghost var f: seq<nat>, s: seq<nat>, p: seq<nat> := freq[..T], son[..], parent[..];
      assert son[..T] == s;
      StartSealed(f, s, p);
      freq[T] := SENTINEL;
      parent[R] := 0;
      assert freq[..] == f + [SENTINEL] && son[..] == s && parent[..] == p[R := 0];
    }

    // ----- update

    /** The node that c, now weighing k, has to change places with. */
    method FindPartner(c: nat, k: nat) returns (n: nat)
      requires Allocated() && c < T && k <= SENTINEL && freq[T] == SENTINEL && k > freq[c + 1]
      ensures c < n < T && n == BlockEnd(freq[..], c, k)
    {
      n := c + 1;
      while k > freq[n + 1]
        invariant c < n < T
        invariant BlockEnd(freq[..], n, k) == BlockEnd(freq[..], c, k)
        decreases T - n
      {
        n := n + 1;
      }
    }

    /** Nodes c and n change places, n taking the weight k. */
    method Exchange(c: nat, n: nat, k: nat)
      requires Allocated() && c < n < T && son[c] < T + NCHAR && son[n] < T + NCHAR
      modifies freq, son, parent
      ensures freq[..] == old(freq[..])[c := old(freq[n])][n := k]
      ensures son[..] == old(son[..])[n := old(son[c])][c := old(son[n])]
      ensures parent[..] == old(SetParent(SetParent(parent[..], son[c], n), son[n], c))
    {
      freq[c] := freq[n];
      freq[n] := k;

      var i := son[c];
      parent[i] := n;
      if i < T { parent[i + 1] := n; }
      var j := son[n];
      son[n] := i;

      parent[j] := c;
      if j < T { parent[j + 1] := c; }
      son[c] := j;
    }

    /** One step of the climb: node c gains one and changes places with the last node of its weight. */
    method BumpNode(c: nat) returns (n: nat)
      requires Allocated() && c < T && CanBump(Tree(), c)
      modifies freq, son, parent
      ensures (Tree(), n) == old(Bump(Tree(), c))
    {
      ghost var f: seq<nat>, s: seq<nat>, p: seq<nat> := freq[..], son[..], parent[..];
      freq[c] := freq[c] + 1;
      var k := freq[c];
      assert freq[..] == f[c := k];
      BlockEndIgnores(f, c, k);
      if k > freq[c + 1] {
        n := FindPartner(c, k);
        Exchange(c, n, k);
        assert freq[..] == f[c := f[n]][n := k];
      } else {
        n := c;
      }
    }
  
    // ----- reconst

    /** First pass: the leaves move to the front, with halved frequencies. */
    method CollectLeaves() returns (j: nat)
      requires Allocated()
      modifies freq, son
      ensures j <= T && (freq[..j], son[..j]) == Leaves(old(freq[..]), old(son[..]), T)
      ensures freq[T] == old(freq[T])
    {
      ghost var f: seq<nat>, s: seq<nat> := freq[..], son[..];
      j := 0;
      for i := 0 to T
        invariant j <= i && (freq[..j], son[..j]) == Leaves(f, s, i)
        invariant forall m | i <= m <= T :: freq[m] == f[m]
        invariant forall m | i <= m < T :: son[m] == s[m]
      {
        if son[i] >= T {
          freq[j] := (freq[i] + 1) / 2;
          son[j] := son[i];
          j := j + 1;
          assert freq[..j] == freq[..j - 1] + [Halve(f[i])] && son[..j] == son[..j - 1] + [s[i]];
        }
      }
    }

    /** Nodes k to j-1 move up by one, and node k gets the weight f and the sons at i. */
    method InsertAt(k: nat, j: nat, f: nat, i: nat)
      requires Allocated() && k <= j < T
      modifies freq, son
      ensures freq[..j + 1] == old(freq[..k]) + [f] + old(freq[k..j]) && freq[T] == old(freq[T])
      ensures son[..j + 1] == old(son[..k]) + [i] + old(son[k..j])
    {
      ghost var fs: seq<nat>, ss: seq<nat> := freq[..], son[..];
      for n := j downto k
        invariant (forall m | 0 <= m <= n || j < m <= T :: freq[m] == fs[m]) && (forall m | n < m <= j :: freq[m] == fs[m - 1])
        invariant (forall m | 0 <= m <= n || j < m < T :: son[m] == ss[m]) && (forall m | n < m <= j :: son[m] == ss[m - 1])
      {
        freq[n + 1] := freq[n];
        son[n + 1] := son[n];
      }
      freq[k] := f;
      son[k] := i;
      MovedUp(freq[..], fs, k, j, f);
      MovedUp(son[..], ss, k, j, i);
    }

    /** The place after the last node that is not heavier than f; node i + 1 is not. */
    method FindPlace(i: nat, j: nat, f: nat) returns (k: nat)
      requires Allocated() && i + 1 < j < T && freq[i + 1] <= f
      ensures k == LastNotAbove(freq[..j], f, j - 1) + 1 && i + 1 < k <= j
    {
      k := j - 1;
      while f < freq[k]
        invariant i + 1 <= k < j
        invariant LastNotAbove(freq[..j], f, k) == LastNotAbove(freq[..j], f, j - 1)
        decreases k
      {
        k := k - 1;
      }
      k := k + 1;
    }

    /** Second pass, one inner node: it is inserted after the last node that is not heavier. */
    method InsertInner(i: nat, j: nat)
      requires Allocated() && NCHAR <= j < T && i == NextPair(j) && freq[i] + freq[i + 1] < 0x10000
      modifies freq, son
      ensures (freq[..j + 1], son[..j + 1]) == Grow(old(freq[..j]), old(son[..j]))
      ensures freq[T] == old(freq[T])
    {
      ghost var fs: seq<nat>, ss: seq<nat> := freq[..j], son[..j];
      Mask16Fits(freq[i] + freq[i + 1]);
      var f := Mask16(freq[i] + freq[i + 1]);
      freq[j] := f;
      assert freq[..j] == fs;
      var k := FindPlace(i, j, f);
      assert freq[..k] == fs[..k] && freq[k..j] == fs[k..] && son[..k] == ss[..k] && son[k..j] == ss[k..];
      InsertAt(k, j, f, i);
      assert Grow(fs, ss) == (fs[..k] + [f] + fs[k..], ss[..k] + [i] + ss[k..]);
    }

    /** Third pass: every node is filed as the parent of its sons. */
    method FileParents(ghost w: seq<nat>, ghost goal: (seq<nat>, seq<nat>))
      requires Allocated() && GrowingTo(freq[..T], son[..], w, goal)
      modifies parent
      ensures parent[..][R := 0] == ParentsOf(son[..])
      ensures parent[R] == old(parent[R])
    {
      ghost var f: seq<nat>, s: seq<nat> := freq[..T], son[..];
      for i := 0 to T
        invariant Filed(s[..i], parent[..])
        invariant parent[R] == old(parent[R])
      {
        FileEntry(f, s, w, parent[..], i);
        var k := son[i];
        parent[k] := i;
        if k < T { parent[k + 1] := i; }
      }
      assert s[..T] == s;
      FiledIsLinked(f, s, w, parent[..]);
    }
  
    /** One round of the second pass. */
    method RegrowRound(i: nat, j: nat, ghost w: seq<nat>, ghost goal: (seq<nat>, seq<nat>))
      requires Allocated() && NCHAR <= j < T && i == NextPair(j) && Sum(w) <= MAX_FREQ
      requires GrowingTo(freq[..j], son[..j], w, goal)
      modifies freq, son
      ensures GrowingTo(freq[..j + 1], son[..j + 1], w, goal) && freq[T] == old(freq[T])
    {
      RegrowStep(freq[..j], son[..j], w, goal);
      InsertInner(i, j);
    }

    /** The second pass, from the leaves on. */
    method Regrow(ghost w: seq<nat>, ghost goal: (seq<nat>, seq<nat>))
      requires Allocated() && GrowingTo(freq[..NCHAR], son[..NCHAR], w, goal) && Sum(w) <= MAX_FREQ
      modifies freq, son
      ensures GrowingTo(freq[..T], son[..], w, goal) && freq[T] == old(freq[T])
    {
      var i := 0;
      var j := NCHAR;
      while j < T
        invariant NCHAR <= j <= T && i == NextPair(j)
        invariant GrowingTo(freq[..j], son[..j], w, goal) && freq[T] == old(freq[T])
      {
        RegrowRound(i, j, w, goal);
        i := i + 2;
        j := j + 1;
      }
      assert son[..T] == son[..];
    }

    method Reconst()
      requires Valid() && freq[R] == MAX_FREQ
      modifies freq, son, parent
      ensures Tree() == Rebuilt(old(Tree())) && Allocated()
    {
      ghost var t, w := Tree(), Weights(Tree());
      RegrowBegins(t, w);
      ghost var goal := GrowAll(Leaves(t.freq, t.son, T).0, Leaves(t.freq, t.son, T).1);
      var j := CollectLeaves();
      Regrow(Halved(w), goal);
      assert freq[..] == freq[..T] + [SENTINEL] && parent[..] == t.parent;
      FileParents(Halved(w), goal);
      assert parent[..][R := 0] == parent[..];
    }

    /** The climb from the leaf of a symbol to the root. */
    method Update(s: nat)
      requires Valid() && s < NCHAR
      modifies freq, son, parent
      ensures Valid() && Tree() == Updated(old(Tree()), s)
    {
      ghost var t := Tree();
      UpdatedAtRest(t, s);
      UpdateStart(t, Weights(t), s);
      if freq[R] == MAX_FREQ { Reconst(); }
      var c := parent[s + T];
      while true
        invariant c < T && Wf(Tree(), c) && Climb(Tree(), c) == Updated(t, s)
        decreases T - c
      {
        ghost var before := Tree();
        BumpWf(before, c);
        WfCanBump(before, c);
        var n := BumpNode(c);
        ParentZero(Tree(), Next(Tree(), n), n);
        c := parent[n];
        if c == 0 { break; }
      }
    }
  }

  method NewTree() returns (h: Huffman)
    ensures fresh(h) && fresh(h.freq) && fresh(h.son) && fresh(h.parent)
    ensures h.Valid() && h.Tree() == StartTree()
  {
    h := new Huffman();
    h.StartHuff();
  }
}
