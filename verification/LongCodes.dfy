/** A tree in which a symbol has a code of 17 bits that encodeChar does not write right, and how the
    first tree gets there. */
module LongCodes {
  import opened Constants
  import opened Sums
  import opened HuffmanTree
  import opened HuffmanRebuild
  import opened HuffmanCode
  import opened BitStreams
  import opened SymbolCoder

  const PAIRS: nat := 313

  // ----- frequencies from weights

  /** The nodes of at most weight v are the first n. */
  ghost predicate Cut(t: Tree, v: nat, n: nat)
    requires Sized(t)
  {
    n <= T && (forall i | 0 <= i < n :: t.freq[i] <= v) && (forall i | n <= i < T :: t.freq[i] > v)
  }

  /** The symbols of at most weight v are the first m. */
  ghost predicate Light(w: seq<nat>, v: nat, m: nat)
    requires |w| == NCHAR
  {
    m <= NCHAR && forall s | 0 <= s < NCHAR :: s < m <==> w[s] <= v
  }

  /** The pairs of nodes of at most weight v together are the first k. */
  ghost predicate LightPairs(t: Tree, v: nat, k: nat)
    requires Sized(t)
  {
    k <= PAIRS && forall j | 0 <= j < PAIRS :: j < k <==> t.freq[2 * j] + t.freq[2 * j + 1] <= v
  }

  function FirstAbove(f: seq<nat>, v: nat, n: nat): (i: nat)
    requires n <= |f| && Sorted(f, n)
    ensures i <= n && (forall j | 0 <= j < i :: f[j] <= v) && (forall j | i <= j < n :: f[j] > v)
  {
    if n == 0 || f[n - 1] <= v then n else FirstAbove(f, v, n - 1)
  }

  /** The nodes that these pairs and these symbols hang from. */
  function Holders(t: Tree, k: nat, m: nat): (l: seq<nat>)
    requires |t.parent| == T + NCHAR && k <= PAIRS && m <= NCHAR
    ensures |l| == k + m
  {
    seq(k, j requires 0 <= j < k => t.parent[2 * j]) + seq(m, s requires 0 <= s < m => t.parent[s + T])
  }

  lemma HolderOfPair(t: Tree, j: nat)
    requires Wf(t, SETTLED) && j < PAIRS
    ensures var p := t.parent[2 * j];
            p < T && t.son[p] == 2 * j && t.freq[p] == t.freq[2 * j] + t.freq[2 * j + 1]
  {
    ParentAbove(t, SETTLED, 2 * j);
  }

  lemma HolderOfSymbol(t: Tree, s: nat)
    requires Wf(t, SETTLED) && s < NCHAR
    ensures var p := t.parent[s + T]; p < T && t.son[p] == s + T
  {
    assert t.son[t.parent[s + T]] == Base(s + T);
  }

  lemma HoldersDiffer(t: Tree, k: nat, m: nat)
    requires Wf(t, SETTLED) && k <= PAIRS && m <= NCHAR
    ensures NoDup(Holders(t, k, m))
  {
    var l := Holders(t, k, m);
    forall a, b | 0 <= a < b < |l| ensures l[a] != l[b] {
      if a < k { HolderOfPair(t, a); } else { HolderOfSymbol(t, a - k); }
      if b < k { HolderOfPair(t, b); } else { HolderOfSymbol(t, b - k); }
    }
  }

  /** Every node of at most weight v is the holder of a pair or of a symbol of at most weight v. */
  lemma HeldIf(t: Tree, w: seq<nat>, v: nat, k: nat, m: nat, i: nat)
    requires Wf(t, SETTLED) && Weighs(t, w, SETTLED) && LightPairs(t, v, k) && Light(w, v, m)
    requires i < T && t.freq[i] <= v
    ensures i in Holders(t, k, m)
  {
    var l, s := Holders(t, k, m), t.son[i];
    assert SonOk(s, i) && t.parent[s] == i;
    if s < T {
      var j := HalfOf(s);
      HolderOfPair(t, j);
      assert l[j] == i;
    } else {
      assert t.freq[t.parent[(s - T) + T]] == w[s - T];
      assert l[k + (s - T)] == i;
    }
  }

  lemma HalfOf(s: nat) returns (j: nat)
    requires s % 2 == 0
    ensures s == 2 * j
  {
    j := s / 2;
  }

  lemma HeldOnlyIf(t: Tree, w: seq<nat>, v: nat, k: nat, m: nat, a: nat)
    requires Wf(t, SETTLED) && Weighs(t, w, SETTLED) && LightPairs(t, v, k) && Light(w, v, m) && a < k + m
    ensures Holders(t, k, m)[a] < T && t.freq[Holders(t, k, m)[a]] <= v
  {
    if a < k {
      HolderOfPair(t, a);
    } else {
      HolderOfSymbol(t, a - k);
      assert t.freq[t.parent[(a - k) + T]] == w[a - k];
    }
  }

  /** How many nodes are light, in any tree at rest with these weights. */
  lemma CutAt(t: Tree, w: seq<nat>, v: nat, k: nat, m: nat)
    requires Wf(t, SETTLED) && Weighs(t, w, SETTLED) && LightPairs(t, v, k) && Light(w, v, m)
    ensures Cut(t, v, k + m)
  {
    var n, l := FirstAbove(t.freq, v, T), Holders(t, k, m);
    HoldersDiffer(t, k, m);
    forall x: nat | x < n ensures x in l { HeldIf(t, w, v, k, m, x); }
    forall a | 0 <= a < |l| ensures 0 <= l[a] < n { HeldOnlyIf(t, w, v, k, m, a); }
    LengthOfPermutation(l, 0, n);
  }

  /** Pairs are in order like nodes. */
  lemma PairsCut(t: Tree, v: nat, k: nat)
    requires Wf(t, SETTLED) && k <= PAIRS
    requires k > 0 ==> t.freq[2 * k - 2] + t.freq[2 * k - 1] <= v
    requires k < PAIRS ==> t.freq[2 * k] + t.freq[2 * k + 1] > v
    ensures LightPairs(t, v, k)
  {
    forall j | 0 <= j < PAIRS ensures j < k <==> t.freq[2 * j] + t.freq[2 * j + 1] <= v {
      if j < k {
        assert t.freq[2 * j] <= t.freq[2 * k - 2] && t.freq[2 * j + 1] <= t.freq[2 * k - 1];
      } else {
        assert t.freq[2 * k] <= t.freq[2 * j] && t.freq[2 * k + 1] <= t.freq[2 * j + 1];
      }
    }
  }

  // ----- the tree of some weights

  /** Nine light symbols, each about as heavy as two before it together, and 305 equal ones. */
  function Chain(s: nat): nat {
    if s < 2 then 1 else if s == 2 then 2 else if s == 3 then 3 else if s == 4 then 5 else if s == 5 then 8
    else if s == 6 then 13 else if s == 7 then 21 else 34
  }

  const OTHERS: nat := 89

  function LongWeight(s: nat): (x: nat)
    ensures 1 <= x <= OTHERS
  {
    if s < 9 then Chain(s) else OTHERS
  }

  ghost function LongWeights(): (w: seq<nat>)
    ensures |w| == NCHAR
  {
    seq(NCHAR, s requires 0 <= s < NCHAR => LongWeight(s))
  }

  ghost predicate Long(t: Tree) {
    match t case Tree(_, _, _) => Wf(t, SETTLED) && Weighs(t, LongWeights(), SETTLED)
  }

  lemma LightAt(v: nat, m: nat)
    requires if v < OTHERS then m <= 9 && forall s | 0 <= s < 9 :: s < m <==> Chain(s) <= v else m == NCHAR
    ensures Light(LongWeights(), v, m)
  {
  }

  /** The nodes of at most weight v hold the first k pairs and the first m symbols. */
  ghost predicate Known(t: Tree, v: nat, k: nat, m: nat)
    requires Sized(t)
  {
    k <= PAIRS && m <= NCHAR && Cut(t, v, k + m) && (k > 0 ==> t.freq[2 * k - 2] + t.freq[2 * k - 1] <= v)
  }

  ghost predicate Run(t: Tree, a: nat, b: nat, u: nat)
    requires Sized(t)
  {
    a <= b <= T && forall i | a <= i < b :: t.freq[i] == u
  }

  lemma CutFrom(t: Tree, v: nat, k: nat, m: nat)
    requires Long(t) && k <= PAIRS && m <= NCHAR && Light(LongWeights(), v, m)
    requires k > 0 ==> t.freq[2 * k - 2] + t.freq[2 * k - 1] <= v
    requires k < PAIRS ==> t.freq[2 * k] + t.freq[2 * k + 1] > v
    ensures Cut(t, v, k + m)
  {
    PairsCut(t, v, k);
    CutAt(t, LongWeights(), v, k, m);
  }

  lemma Between(t: Tree, a: nat, b: nat, u: nat)
    requires Sized(t) && u > 0 && Cut(t, u - 1, a) && Cut(t, u, b) && a <= b
    ensures Run(t, a, b, u)
  {
  }

  /** The next weight in the tree is u. */
  lemma Step(t: Tree, v: nat, k: nat, m: nat, u: nat, k': nat, m': nat)
    requires Long(t) && Known(t, v, k, m) && v < u && k <= k' <= PAIRS && m <= m' <= NCHAR
    requires Light(LongWeights(), u - 1, m) && Light(LongWeights(), u, m')
    requires k < PAIRS ==> t.freq[2 * k] + t.freq[2 * k + 1] >= u
    requires k' > k ==> t.freq[2 * k' - 2] + t.freq[2 * k' - 1] <= u
    requires k' < PAIRS ==> t.freq[2 * k'] + t.freq[2 * k' + 1] > u
    ensures Known(t, u, k', m') && Run(t, k + m, k' + m', u)
  {
    CutFrom(t, u - 1, k, m);
    CutFrom(t, u, k', m');
    Between(t, k + m, k' + m', u);
  }

  /** The lightest 17 nodes. */
  function Low(i: nat): nat {
    if i < 2 then 1 else if i < 4 then 2 else if i == 4 then 3 else if i == 5 then 4 else if i == 6 then 5
    else if i == 7 then 7 else if i == 8 then 8 else if i == 9 then 12 else if i == 10 then 13 else if i == 11 then 20
    else if i == 12 then 21 else if i == 13 then 33 else if i == 14 then 34 else if i == 15 then 54 else 88
  }

  ghost predicate LowIs(t: Tree, n: nat)
    requires Sized(t)
  {
    n <= 17 && forall i | 0 <= i < n :: t.freq[i] == Low(i)
  }

  /** What node i weighs at least when the first n nodes are known and the others weigh more than v. */
  function AtLeast(n: nat, v: nat, i: nat): nat { if i < n then Low(i) else v + 1 }

  lemma PairAtLeast(t: Tree, v: nat, n: nat, k: nat)
    requires Sized(t) && Cut(t, v, n) && LowIs(t, n) && k < PAIRS
    ensures t.freq[2 * k] + t.freq[2 * k + 1] >= AtLeast(n, v, 2 * k) + AtLeast(n, v, 2 * k + 1)
    ensures 2 * k + 1 < n ==> t.freq[2 * k] + t.freq[2 * k + 1] == Low(2 * k) + Low(2 * k + 1)
  {
    assert 2 * k + 1 < T;
  }

  lemma LowPairs(t: Tree, v: nat, n: nat, u: nat, k: nat, k': nat)
    requires Sized(t) && Cut(t, v, n) && LowIs(t, n) && k <= k' < 10
    requires AtLeast(n, v, 2 * k) + AtLeast(n, v, 2 * k + 1) >= u
    requires AtLeast(n, v, 2 * k') + AtLeast(n, v, 2 * k' + 1) > u
    requires k' > k ==> 2 * k' - 1 < n && Low(2 * k' - 2) + Low(2 * k' - 1) <= u
    ensures t.freq[2 * k] + t.freq[2 * k + 1] >= u && t.freq[2 * k'] + t.freq[2 * k' + 1] > u
    ensures k' > k ==> t.freq[2 * k' - 2] + t.freq[2 * k' - 1] <= u
  {
    PairAtLeast(t, v, n, k);
    PairAtLeast(t, v, n, k');
    if k' > k { PairAtLeast(t, v, n, k' - 1); }
  }

  /** Weight u follows weight v among the lightest nodes, with k pairs and m symbols before it and k', m'
      up to it. */
  predicate Follows(v: nat, k: nat, m: nat, u: nat, k': nat, m': nat) {
    var n := k + m;
    v < u < OTHERS && k <= k' < 10 && m <= m' <= 9 && n < k' + m' <= n + 2 && k' + m' <= 17 &&
    Chained(u - 1, m) && Chained(u, m') && Low(n) == u && Low(k' + m' - 1) == u &&
    AtLeast(n, v, 2 * k) + AtLeast(n, v, 2 * k + 1) >= u && AtLeast(n, v, 2 * k') + AtLeast(n, v, 2 * k' + 1) > u &&
    (k' > k ==> 2 * k' - 1 < n && Low(2 * k' - 2) + Low(2 * k' - 1) <= u)
  }

  lemma LowStep(t: Tree, v: nat, k: nat, m: nat, u: nat, k': nat, m': nat)
    requires Long(t) && Known(t, v, k, m) && LowIs(t, k + m) && Follows(v, k, m, u, k', m')
    ensures Known(t, u, k', m') && LowIs(t, k' + m')
  {
    LowRun(t, v, k, m, u, k', m');
    LowMore(t, k + m, k' + m', u);
  }

  lemma LowRun(t: Tree, v: nat, k: nat, m: nat, u: nat, k': nat, m': nat)
    requires Long(t) && Known(t, v, k, m) && LowIs(t, k + m) && Follows(v, k, m, u, k', m')
    ensures Known(t, u, k', m') && Run(t, k + m, k' + m', u)
  {
    ChainLight(u - 1, m);
    ChainLight(u, m');
    LowPairs(t, v, k + m, u, k, k');
    Step(t, v, k, m, u, k', m');
  }

  lemma LowMore(t: Tree, n: nat, n': nat, u: nat)
    requires Sized(t) && LowIs(t, n) && n < n' <= n + 2 && n' <= 17 && Run(t, n, n', u) && Low(n) == u && Low(n' - 1) == u
    ensures LowIs(t, n')
  {
    forall i | 0 <= i < n' ensures t.freq[i] == Low(i) {
      if i >= n { assert i == n || i == n' - 1; }
    }
  }

  /** The light symbols of at most weight v are the first m. */
  predicate Chained(v: nat, m: nat) {
    v < OTHERS && m <= 9 && (m > 0 ==> Chain(m - 1) <= v) && (m < 9 ==> Chain(m) > v)
  }

  lemma ChainLight(v: nat, m: nat)
    requires Chained(v, m)
    ensures Light(LongWeights(), v, m)
  {
    if m > 0 { ChainSorted(m - 1); }
    ChainSorted(m);
    LightAt(v, m);
  }

  lemma ChainSorted(m: nat)
    requires m <= 9
    ensures forall s | 0 <= s < 9 :: (s <= m ==> Chain(s) <= Chain(m)) && (m <= s ==> Chain(m) <= Chain(s))
  {
  }

  lemma Order0()
    ensures Follows(0, 0, 0, 1, 0, 2) && Follows(1, 0, 2, 2, 1, 3)
  {
  }

  lemma Order1()
    ensures Follows(2, 1, 3, 3, 1, 4) && Follows(3, 1, 4, 4, 2, 4)
  {
  }

  lemma Order2()
    ensures Follows(4, 2, 4, 5, 2, 5) && Follows(5, 2, 5, 7, 3, 5) && Follows(7, 3, 5, 8, 3, 6)
    ensures Follows(8, 3, 6, 12, 4, 6)
  {
  }

  lemma Order3()
    ensures Follows(12, 4, 6, 13, 4, 7) && Follows(13, 4, 7, 20, 5, 7)
  {
  }

  lemma Order4()
    ensures Follows(20, 5, 7, 21, 5, 8) && Follows(21, 5, 8, 33, 6, 8)
  {
  }

  lemma Order5()
    ensures Follows(33, 6, 8, 34, 6, 9) && Follows(34, 6, 9, 54, 7, 9) && Follows(54, 7, 9, 88, 8, 9)
  {
  }

  lemma Ones0(t: Tree)
    requires Long(t)
    ensures Known(t, 1, 0, 2) && LowIs(t, 2)
  {
    Order0();
    LowStep(t, 0, 0, 0, 1, 0, 2);
  }

  lemma Low0(t: Tree)
    requires Long(t)
    ensures Known(t, 2, 1, 3) && LowIs(t, 4)
  {
    Order0();
    Ones0(t);
    LowStep(t, 1, 0, 2, 2, 1, 3);
  }

  lemma Low1(t: Tree)
    requires Long(t)
    ensures Known(t, 4, 2, 4) && LowIs(t, 6)
  {
    Order1();
    Low0(t);
    LowStep(t, 2, 1, 3, 3, 1, 4);
    LowStep(t, 3, 1, 4, 4, 2, 4);
  }

  lemma Low2(t: Tree)
    requires Long(t)
    ensures Known(t, 12, 4, 6) && LowIs(t, 10)
  {
    Order2();
    Low1(t);
    LowStep(t, 4, 2, 4, 5, 2, 5);
    LowStep(t, 5, 2, 5, 7, 3, 5);
    LowStep(t, 7, 3, 5, 8, 3, 6);
    LowStep(t, 8, 3, 6, 12, 4, 6);
  }

  lemma Low3(t: Tree)
    requires Long(t)
    ensures Known(t, 20, 5, 7) && LowIs(t, 12)
  {
    Order3();
    Low2(t);
    LowStep(t, 12, 4, 6, 13, 4, 7);
    LowStep(t, 13, 4, 7, 20, 5, 7);
  }

  lemma Low4(t: Tree)
    requires Long(t)
    ensures Known(t, 33, 6, 8) && LowIs(t, 14)
  {
    Order4();
    Low3(t);
    LowStep(t, 20, 5, 7, 21, 5, 8);
    LowStep(t, 21, 5, 8, 33, 6, 8);
  }

  lemma Low5(t: Tree)
    requires Long(t)
    ensures Known(t, 88, 8, 9) && LowIs(t, 17)
  {
    Order5();
    Low4(t);
    LowStep(t, 33, 6, 8, 34, 6, 9);
    LowStep(t, 34, 6, 9, 54, 7, 9);
    LowStep(t, 54, 7, 9, 88, 8, 9);
  }

  lemma HighStep(t: Tree, v: nat, k: nat, u: nat, k': nat)
    requires Long(t) && Known(t, v, k, NCHAR) && OTHERS <= v < u && k <= k' <= PAIRS
    requires k < PAIRS ==> t.freq[2 * k] + t.freq[2 * k + 1] >= u
    requires k' > k ==> t.freq[2 * k' - 2] + t.freq[2 * k' - 1] <= u
    requires k' < PAIRS ==> t.freq[2 * k'] + t.freq[2 * k' + 1] > u
    ensures Known(t, u, k', NCHAR) && Run(t, k + NCHAR, k' + NCHAR, u)
  {
    LightAt(u - 1, NCHAR);
    LightAt(u, NCHAR);
    Step(t, v, k, NCHAR, u, k', NCHAR);
  }

  lemma High0(t: Tree)
    requires Long(t)
    ensures Run(t, 17, 322, 89) && Known(t, 89, 8, NCHAR) && LowIs(t, 17)
  {
    Low5(t);
    LightAt(88, 9);
    LightAt(89, NCHAR);
    Step(t, 88, 8, 9, 89, 8, NCHAR);
  }

  lemma High1(t: Tree)
    requires Long(t)
    ensures Run(t, 17, 322, 89) && Run(t, 322, 323, 177) && Run(t, 323, 475, 178) && Known(t, 178, 161, NCHAR)
  {
    High0(t);
    HighStep(t, 89, 8, 177, 9);
    HighStep(t, 177, 9, 178, 161);
  }

  lemma High2(t: Tree)
    requires Long(t)
    ensures Run(t, 475, 476, 355) && Run(t, 476, 551, 356) && Run(t, 551, 552, 533) && Known(t, 533, 238, NCHAR)
  {
    High1(t);
    HighStep(t, 178, 161, 355, 162);
    HighStep(t, 355, 162, 356, 237);
    HighStep(t, 356, 237, 533, 238);
  }

  lemma High3(t: Tree)
    requires Long(t)
    ensures Run(t, 552, 589, 712) && Run(t, 589, 590, 889) && Run(t, 590, 608, 1424) && Known(t, 1424, 294, NCHAR)
  {
    High2(t);
    HighStep(t, 533, 238, 712, 275);
    HighStep(t, 712, 275, 889, 276);
    HighStep(t, 889, 276, 1424, 294);
  }

  lemma High4(t: Tree)
    requires Long(t)
    ensures Run(t, 608, 609, 1601) && Run(t, 609, 618, 2848) && Run(t, 618, 619, 4449) && Known(t, 4449, 305, NCHAR)
  {
    High3(t);
    HighStep(t, 1424, 294, 1601, 295);
    HighStep(t, 1601, 295, 2848, 304);
    HighStep(t, 2848, 304, 4449, 305);
  }

  lemma High5(t: Tree)
    requires Long(t)
    ensures Run(t, 619, 623, 5696) && Run(t, 623, 624, 10145) && Run(t, 624, 625, 11392) && Known(t, 11392, 311, NCHAR)
  {
    High4(t);
    HighStep(t, 4449, 305, 5696, 309);
    HighStep(t, 5696, 309, 10145, 310);
    HighStep(t, 10145, 310, 11392, 311);
  }

  lemma High6(t: Tree)
    requires Long(t)
    ensures Run(t, 625, 626, 15841) && Run(t, 626, 627, 27233)
  {
    High5(t);
    HighStep(t, 11392, 311, 15841, 312);
    HighStep(t, 15841, 312, 27233, 313);
  }

  // ----- the way up from the lightest node

  /** In order of weight, the nodes that weigh u are these. */
  lemma OnlyThese(f: seq<nat>, n: nat, a: nat, b: nat, u: nat)
    requires a <= b < n <= |f| && Sorted(f, n) && (a > 0 ==> f[a - 1] < u) && (b + 1 < n ==> f[b + 1] > u)
    ensures forall i | 0 <= i < n && f[i] == u :: a <= i <= b
  {
    forall i | 0 <= i < n && !(a <= i <= b) ensures f[i] != u {
      if i < a { assert f[i] <= f[a - 1]; } else { assert f[b + 1] <= f[i]; }
    }
  }

  lemma Above(t: Tree, j: nat, k: nat) returns (p: nat)
    requires Wf(t, SETTLED) && k < R && 2 * j <= k <= 2 * j + 1
    ensures p < T && t.freq[p] == t.freq[2 * j] + t.freq[2 * j + 1] && |Path(t, k)| == |Path(t, p)| + 1
  {
    ParentAbove(t, SETTLED, k);
    p := t.parent[k];
    assert t.son[p] == 2 * j;
  }

  /** The only node of weight u is p, so it is above any two sons that weigh u together. */
  lemma Up(t: Tree, j: nat, k: nat, p: nat, u: nat)
    requires Long(t) && k < R && 2 * j <= k <= 2 * j + 1 && 0 < p < T && t.freq[p] == u
    requires t.freq[2 * j] + t.freq[2 * j + 1] == u && t.freq[p - 1] < u && (p < R ==> t.freq[p + 1] > u)
    ensures |Path(t, k)| == |Path(t, p)| + 1
  {
    OnlyThese(t.freq, T, p, p, u);
    var q := Above(t, j, k);
  }

  lemma TopPath(t: Tree)
    requires Long(t)
    ensures |Path(t, 608)| == 4
  {
    High3(t);
    High4(t);
    High5(t);
    High6(t);
    Up(t, 312, 625, 626, 27233);
    Up(t, 311, 623, 625, 15841);
    Up(t, 309, 618, 623, 10145);
    Up(t, 304, 608, 618, 4449);
  }

  lemma MiddlePath(t: Tree)
    requires Long(t)
    ensures |Path(t, 322)| == 8
  {
    TopPath(t);
    High1(t);
    High2(t);
    High3(t);
    High4(t);
    Up(t, 294, 589, 608, 1601);
    Up(t, 275, 551, 589, 889);
    Up(t, 237, 475, 551, 533);
    Up(t, 161, 322, 475, 355);
  }

  lemma UpperChainPath(t: Tree)
    requires Long(t)
    ensures |Path(t, 15)| == 10
  {
    MiddlePath(t);
    Low5(t);
    High1(t);
    Up(t, 8, 16, 322, 177);
    Up(t, 7, 15, 16, 88);
  }

  lemma ChainPath(t: Tree)
    requires Long(t)
    ensures |Path(t, 9)| == 13
  {
    UpperChainPath(t);
    Low5(t);
    Up(t, 6, 13, 15, 54);
    Up(t, 5, 11, 13, 33);
    Up(t, 4, 9, 11, 20);
  }

  lemma LowerChainPath(t: Tree, k: nat)
    requires Long(t) && k == 5
    ensures |Path(t, k)| == 15
  {
    ChainPath(t);
    Low5(t);
    Up(t, 3, 7, 9, 12);
    Up(t, 2, k, 7, 7);
  }

  lemma LightestAre(t: Tree)
    requires Long(t)
    ensures t.freq[0] == t.freq[1] == 1 && t.freq[2] == t.freq[3] == 2
    ensures t.freq[4] == 3 && t.freq[5] == 4 && t.freq[6] == 5
  {
    Low5(t);
    LowNumbers(t);
  }

  lemma LowNumbers(t: Tree)
    requires Sized(t) && LowIs(t, 17)
    ensures t.freq[0] == t.freq[1] == 1 && t.freq[2] == t.freq[3] == 2
    ensures t.freq[4] == 3 && t.freq[5] == 4 && t.freq[6] == 5
  {
  }

  lemma FourthPath(t: Tree, k: nat)
    requires Long(t) && 2 <= k <= 3
    ensures |Path(t, k)| == 16
  {
    var p: nat := 5;
    LowerChainPath(t, p);
    LightestAre(t);
    Up(t, 1, k, p, 4);
  }

  /** The two lightest nodes are 17 turns below the root. */
  lemma LongPath(t: Tree, k: nat)
    requires Long(t) && k == 1
    ensures |Path(t, k)| == 17 && Path(t, k)[16]
  {
    LightestAre(t);
    OnlyThese(t.freq, T, 2, 3, 2);
    var q := Above(t, 0, k);
    FourthPath(t, q);
    LastTurn(t, k, 17);
  }

  /** A symbol of such a tree has a code of 17 bits that ends with a one. */
  lemma LongCode(t: Tree) returns (s: nat)
    requires Long(t)
    ensures s < NCHAR && |Code(t, s)| == 17 && Code(t, s)[16]
  {
    var k: nat := 1;
    LongPath(t, k);
    s := SymbolAt(t, k);
  }

  lemma SymbolAt(t: Tree, k: nat) returns (s: nat)
    requires Wf(t, SETTLED) && k < 2
    ensures s < NCHAR && Code(t, s) == Path(t, k)
  {
    assert SonOk(t.son[k], k);
    s := t.son[k] - T;
    assert LeafOf(t, s) == k;
  }

  lemma LastTurn(t: Tree, k: nat, n: nat)
    requires Wf(t, SETTLED) && k < R && n == |Path(t, k)|
    ensures n > 0 && (Path(t, k)[n - 1] <==> k % 2 == 1)
  {
    ParentAbove(t, SETTLED, k);
  }

  // ----- how the first tree gets there

  /** Symbols coded one after another. */
  ghost function After(t: Tree, symbols: seq<nat>): (r: Tree)
    requires AtRest(t) && forall k | 0 <= k < |symbols| :: symbols[k] < NCHAR
    ensures AtRest(r)
    decreases |symbols|
  {
    if symbols == [] then t
    else
      var t' := After(t, symbols[..|symbols| - 1]);
      UpdatedAtRest(t', symbols[|symbols| - 1]);
      Updated(t', symbols[|symbols| - 1])
  }

  function WeightsAfter(w: seq<nat>, symbols: seq<nat>): (r: seq<nat>)
    requires |w| == NCHAR && forall k | 0 <= k < |symbols| :: symbols[k] < NCHAR
    ensures |r| == NCHAR
    decreases |symbols|
  {
    if symbols == [] then w else NewWeights(WeightsAfter(w, symbols[..|symbols| - 1]), symbols[|symbols| - 1])
  }

  /** The weights count the symbols. */
  lemma {:induction false} AfterWeights(t: Tree, symbols: seq<nat>)
    requires AtRest(t) && forall k | 0 <= k < |symbols| :: symbols[k] < NCHAR
    ensures Weights(After(t, symbols)) == WeightsAfter(Weights(t), symbols)
    decreases |symbols|
  {
    if symbols != [] {
      var init, s := symbols[..|symbols| - 1], symbols[|symbols| - 1];
      AfterWeights(t, init);
      UpdatedAtRest(After(t, init), s);
    }
  }

  function Copies(s: nat, n: nat): (l: seq<nat>)
    ensures |l| == n && forall k | 0 <= k < n :: l[k] == s
  {
    seq(n, _ => s)
  }

  /** The weights with n more for symbol s. */
  function Heavier(v: seq<nat>, s: nat, n: nat): (w: seq<nat>)
    requires s < |v|
    ensures |w| == |v|
  {
    v[s := v[s] + n]
  }

  lemma {:induction false} HeavierIs(v: seq<nat>, s: nat, n: nat)
    requires s < |v|
    ensures Heavier(v, s, 0) == v && Sum(Heavier(v, s, n)) == Sum(v) + n
    ensures Heavier(Heavier(v, s, n), s, 1) == Heavier(v, s, n + 1)
  {
    SumUpdate(v, s, v[s] + n);
  }

  lemma {:induction false} CopiesCount(w: seq<nat>, symbols: seq<nat>, v: seq<nat>, s: nat, n: nat)
    requires |w| == NCHAR && s < NCHAR && forall k | 0 <= k < |symbols| :: symbols[k] < NCHAR
    requires v == WeightsAfter(w, symbols) && Sum(v) + n <= MAX_FREQ
    ensures WeightsAfter(w, symbols + Copies(s, n)) == Heavier(v, s, n)
    decreases n
  {
    OneMoreCopy(symbols, s, n);
    if n == 0 {
      HeavierIs(v, s, n);
    } else {
      CopiesCount(w, symbols, v, s, n - 1);
      HeavierIs(v, s, n - 1);
      CountOn(w, symbols + Copies(s, n - 1), Heavier(v, s, n - 1), s);
    }
  }

  lemma {:induction false} CountOn(w: seq<nat>, symbols: seq<nat>, v: seq<nat>, s: nat)
    requires |w| == NCHAR && s < NCHAR && forall k | 0 <= k < |symbols| :: symbols[k] < NCHAR
    requires v == WeightsAfter(w, symbols) && Sum(v) < MAX_FREQ
    ensures WeightsAfter(w, symbols + [s]) == Heavier(v, s, 1)
  {
    OneAfter(w, symbols + [s], symbols, s);
    NotHalved(v, s);
  }

  lemma OneAfter(w: seq<nat>, more: seq<nat>, symbols: seq<nat>, s: nat)
    requires |w| == NCHAR && s < NCHAR && (forall k | 0 <= k < |symbols| :: symbols[k] < NCHAR) && more == symbols + [s]
    ensures WeightsAfter(w, more) == NewWeights(WeightsAfter(w, symbols), s)
  {
    assert more[..|more| - 1] == symbols;
  }

  lemma {:induction false} NotHalved(v: seq<nat>, s: nat)
    requires |v| == NCHAR && s < NCHAR && Sum(v) < MAX_FREQ
    ensures NewWeights(v, s) == Heavier(v, s, 1)
  {
    assert PreparedWeights(v) == v;
  }

  lemma OneMoreCopy(symbols: seq<nat>, s: nat, n: nat)
    ensures n == 0 ==> symbols + Copies(s, n) == symbols
    ensures n > 0 ==> symbols + Copies(s, n - 1) + [s] == symbols + Copies(s, n)
  {
    if n > 0 { assert Copies(s, n) == Copies(s, n - 1) + [s]; }
  }

  ghost function First(): (t: Tree)
    ensures AtRest(t) && Weights(t) == Ones()
  {
    StartAtRest();
    WeighsUnique(StartTree(), Ones());
    StartTree()
  }

  /** The first k symbols, each as often as it takes to give it its weight. */
  ghost function LongMessage(k: nat): (symbols: seq<nat>)
    requires k <= NCHAR
    ensures forall i | 0 <= i < |symbols| :: symbols[i] < NCHAR
  {
    if k == 0 then [] else LongMessage(k - 1) + Copies(k - 1, LongWeight(k - 1) - 1)
  }

  ghost function CodedWeights(k: nat): (w: seq<nat>)
    requires k <= NCHAR
    ensures |w| == NCHAR
  {
    seq(NCHAR, s requires 0 <= s < NCHAR => if s < k then LongWeight(s) else 1)
  }

  lemma {:induction false} SumOfMost(w: seq<nat>, x: nat)
    requires forall s | 0 <= s < |w| :: w[s] <= x
    ensures Sum(w) <= x * |w|
  {
    if w != [] { SumOfMost(w[1..], x); }
  }

  lemma CodedSum(k: nat)
    requires k <= NCHAR
    ensures Sum(CodedWeights(k)) + OTHERS <= MAX_FREQ
  {
    var w := CodedWeights(k);
    SumOfMost(w, OTHERS);
  }

  lemma {:induction false} CodedIs(k: nat)
    requires k <= NCHAR
    ensures WeightsAfter(Ones(), LongMessage(k)) == CodedWeights(k)
  {
    CodedNext(k);
    if k > 0 {
      CodedIs(k - 1);
      CodedSum(k - 1);
      CopiesCount(Ones(), LongMessage(k - 1), CodedWeights(k - 1), k - 1, LongWeight(k - 1) - 1);
    }
  }

  lemma CodedNext(k: nat)
    requires k <= NCHAR
    ensures k == 0 ==> CodedWeights(k) == Ones()
    ensures k > 0 ==>
              Heavier(CodedWeights(k - 1), k - 1, LongWeight(k - 1) - 1) == CodedWeights(k)
  {
  }

  lemma LongReached(k: nat)
    requires k == NCHAR
    ensures Long(After(First(), LongMessage(k)))
  {
    AfterWeights(First(), LongMessage(k));
    CodedIs(k);
    AllCoded(k);
  }

  lemma AllCoded(k: nat)
    requires k == NCHAR
    ensures CodedWeights(k) == LongWeights()
  {
  }

  lemma Lost(code: seq<bool>)
    requires |code| == 17 && code[16]
    ensures forall packed: Packed, bits :: CharPut(packed, bits, code) ==> !packed.Holds(bits + code)
  {
    assert !ClearFrom(code, 16);
  }

  /** Coding symbols 0 to 8 another 0, 0, 1, 2, 4, 7, 12, 20 and 33 times and each other symbol another 88
      times leads from the first tree to one in which a symbol's code does not come out right, whatever
      has been written before. (k is the number of symbols.) */
  lemma CodeLost(k: nat) returns (s: nat)
    requires k == NCHAR
    ensures var t := After(First(), LongMessage(k));
            s < NCHAR && |Code(t, s)| == 17 &&
            forall packed: Packed, bits :: CharPut(packed, bits, Code(t, s)) ==> !packed.Holds(bits + Code(t, s))
  {
    LongReached(k);
    s := LongCode(After(First(), LongMessage(k)));
    Lost(Code(After(First(), LongMessage(k)), s));
  }
}
