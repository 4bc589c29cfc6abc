/** `update` on whole trees, the code words read off a tree, and how long they can get. */
module HuffmanCode {
  import opened Sums
  import opened Constants
  import opened HuffmanTree
  import opened HuffmanRebuild

  // ----- reconst and update

  ghost function Rebuilt(t: Tree): Tree
    requires Wf(t, SETTLED)
  {
    var (f, s) := Leaves(t.freq, t.son, T);
    LeavesList(t);
    var (f', s') := GrowAll(f, s);
    Grown(f', s')
  }

  /** reconst halves every weight (rounding up, so none reaches zero) and restores every tree
      invariant; the root then weighs at most 0x4000 + 157. */
  lemma RebuiltAtRest(t: Tree, w: seq<nat>)
    requires Wf(t, SETTLED) && Weighs(t, w, SETTLED)
    ensures Wf(Rebuilt(t), SETTLED) && Weighs(Rebuilt(t), Halved(w), SETTLED)
    ensures 2 * Rebuilt(t).freq[R] <= t.freq[R] + NCHAR
  {
    LeavesGrowing(t, w);
    SumHalved(w);
    var (f, s) := Leaves(t.freq, t.son, T);
    GrowAllKeeps(f, s, Halved(w));
    var (f', s') := GrowAll(f, s);
    GrownWf(f', s', Halved(w));
    GrownWeighs(f', s', Halved(w));
  }

  /** The tree that is climbed: rebuilt first if the root has reached its limit. */
  ghost function Prepared(t: Tree): Tree
    requires Wf(t, SETTLED)
  {
    if t.freq[R] == MAX_FREQ then Rebuilt(t) else t
  }

  function PreparedWeights(w: seq<nat>): seq<nat> {
    if Sum(w) == MAX_FREQ then Halved(w) else w
  }

  lemma PreparedAtRest(t: Tree, w: seq<nat>)
    requires Wf(t, SETTLED) && Weighs(t, w, SETTLED)
    ensures Wf(Prepared(t), SETTLED) && Weighs(Prepared(t), PreparedWeights(w), SETTLED)
    ensures Prepared(t).freq[R] < MAX_FREQ
  {
    if t.freq[R] == MAX_FREQ { RebuiltAtRest(t, w); }
  }

  /** The adaptive model that the tree stands for: a weight per symbol. */
  function NewWeights(w: seq<nat>, s: nat): (w': seq<nat>)
    requires |w| == NCHAR && s < NCHAR
    ensures |w'| == NCHAR
  {
    var v := PreparedWeights(w);
    v[s := v[s] + 1]
  }

  lemma UpdateStart(t: Tree, w: seq<nat>, s: nat)
    requires Wf(t, SETTLED) && Weighs(t, w, SETTLED) && s < NCHAR
    ensures var t1 := Prepared(t);
            |t1.parent| == T + NCHAR && |t1.son| == T && |t1.freq| == T + 1 &&
            var c := t1.parent[s + T];
            c < T && Wf(t1, c) && Weighs(t1, NewWeights(w, s), c)
  {
    PreparedAtRest(t, w);
    StartClimb(Prepared(t), PreparedWeights(w), s);
  }

  /** `update` */
  ghost function Updated(t: Tree, s: nat): Tree
    requires AtRest(t) && s < NCHAR
  {
    UpdateStart(t, Weights(t), s);
    Climb(Prepared(t), Prepared(t).parent[s + T])
  }

  /** `update` keeps every tree invariant, adds one to the weight of its symbol and leaves the
      others alone, after halving them all when their sum has reached the limit. */
  lemma UpdatedAtRest(t: Tree, s: nat)
    requires AtRest(t) && s < NCHAR
    ensures AtRest(Updated(t, s)) && Weights(Updated(t, s)) == NewWeights(Weights(t), s)
  {
    var w := Weights(t);
    UpdateStart(t, w, s);
    ClimbWeighs(Prepared(t), NewWeights(w, s), Prepared(t).parent[s + T]);
    WeighsUnique(Updated(t, s), NewWeights(w, s));
  }

  // ----- code words

  /** The turns from the root down to node k. */
  ghost function Path(t: Tree, k: nat): seq<bool>
    requires Wf(t, SETTLED) && k <= R
    decreases R - k
  {
    if k == R then []
    else
      ParentAbove(t, SETTLED, k);
      Path(t, t.parent[k]) + [k % 2 == 1]
  }

  ghost function LeafOf(t: Tree, s: nat): (k: nat)
    requires Wf(t, SETTLED) && s < NCHAR
    ensures k < R && t.son[k] == s + T
  {
    assert t.son[t.parent[s + T]] == Base(s + T);
    RootIsInner(t);
    t.parent[s + T]
  }

  lemma RootIsInner(t: Tree)
    requires Wf(t, SETTLED)
    ensures t.son[R] < T && t.freq[R] > t.freq[R - 1]
  {
    ParentAbove(t, SETTLED, R - 1);
    ParentHeavier(t, SETTLED, R - 1);
  }

  /** The code word of symbol s. */
  ghost function Code(t: Tree, s: nat): (b: seq<bool>)
    requires Wf(t, SETTLED) && s < NCHAR
    ensures |b| > 0
  {
    ParentAbove(t, SETTLED, LeafOf(t, s));
    Path(t, LeafOf(t, s))
  }

  /** The node d turns down the path from the root to v. */
  ghost function NodeAt(t: Tree, v: nat, d: nat): (k: nat)
    requires Wf(t, SETTLED) && v <= R && d <= |Path(t, v)|
    ensures k <= R && (d == |Path(t, v)| ==> k == v)
    decreases R - v
  {
    if d == |Path(t, v)| then v
    else
      ParentAbove(t, SETTLED, v);
      NodeAt(t, t.parent[v], d)
  }

  /** Walking down as decodeChar does follows the path, and does not stop before its end. */
  lemma {:induction false} StepDown(t: Tree, v: nat, d: nat)
    requires Wf(t, SETTLED) && v <= R && d < |Path(t, v)|
    ensures var k := NodeAt(t, v, d);
            t.son[k] < T && NodeAt(t, v, d + 1) == t.son[k] + (if Path(t, v)[d] then 1 else 0)
    decreases R - v
  {
    ParentAbove(t, SETTLED, v);
    var p := t.parent[v];
    if d < |Path(t, p)| {
      StepDown(t, p, d);
    } else {
      assert NodeAt(t, v, d) == p;
    }
  }

  lemma {:induction false} StartDown(t: Tree, v: nat)
    requires Wf(t, SETTLED) && v <= R
    ensures NodeAt(t, v, 0) == R
    decreases R - v
  {
    if v < R {
      ParentAbove(t, SETTLED, v);
      StartDown(t, t.parent[v]);
    }
  }

  /** Walking up as encodeChar does retraces the path from its end. */
  lemma {:induction false} StepUp(t: Tree, v: nat, d: nat)
    requires Wf(t, SETTLED) && v <= R && d < |Path(t, v)|
    ensures var k := NodeAt(t, v, d + 1);
            k < R && t.parent[k] == NodeAt(t, v, d) && (k % 2 == 1) == Path(t, v)[d]
    decreases R - v
  {
    ParentAbove(t, SETTLED, v);
    var p := t.parent[v];
    if d < |Path(t, p)| { StepUp(t, p, d); }
  }

  lemma OnlyRootAtStart(t: Tree, v: nat, d: nat)
    requires Wf(t, SETTLED) && v <= R && d <= |Path(t, v)|
    ensures NodeAt(t, v, d) == R <==> d == 0
  {
    StartDown(t, v);
    if d > 0 { StepUp(t, v, d - 1); }
  }

  // ----- code lengths

  function Fib(n: nat): nat {
    if n < 2 then n else Fib(n - 1) + Fib(n - 2)
  }

  /** Climbing from a node whose weight is at least Fib(h+2), next to a node of weight at least
      Fib(h+1), each step up adds one to h: sortedness makes the parent's sibling at least as
      heavy as the node itself. */
  lemma {:induction false} FibClimb(t: Tree, k: nat, h: nat)
    requires Wf(t, SETTLED) && k < R
    requires t.freq[k] >= Fib(h + 2)
    requires forall b | 0 <= b < R && Base(b) == Base(k) :: t.freq[b] >= Fib(h + 1)
    ensures t.freq[R] >= Fib(h + |Path(t, k)| + 2)
    decreases R - k
  {
    ParentAbove(t, SETTLED, k);
    var p := t.parent[k];
    var s := t.son[p];
    assert t.freq[p] == t.freq[s] + t.freq[s + 1];
    assert SonOk(s, p);
    assert Base(s) == Base(k) && Base(s + 1) == Base(k);
    assert t.freq[p] >= Fib(h + 3);
    if p < R {
      forall b | 0 <= b < R && Base(b) == Base(p) ensures t.freq[b] >= Fib(h + 2) {
        assert k <= s + 1 <= b;
      }
      FibClimb(t, p, h + 1);
    }
  }

  /** A code word of length n needs a root of weight Fib(n+2) or more. */
  lemma CodeLength(t: Tree, s: nat)
    requires Wf(t, SETTLED) && s < NCHAR
    ensures t.freq[R] >= Fib(|Code(t, s)| + 2)
  {
    FibClimb(t, LeafOf(t, s), 0);
  }

  lemma {:induction false} FibMonotone(a: nat, b: nat)
    requires a <= b
    ensures Fib(a) <= Fib(b)
    decreases b - a
  {
    if a < b { FibMonotone(a, b - 1); }
  }

  lemma Fib19()
    ensures Fib(19) == 4181
  {
    assert Fib(5) == 5 && Fib(6) == 8;
    assert Fib(8) == 21 && Fib(7) == 13;
    assert Fib(10) == 55 && Fib(9) == 34;
    assert Fib(12) == 144 && Fib(11) == 89;
    assert Fib(14) == 377 && Fib(13) == 233;
    assert Fib(16) == 987 && Fib(15) == 610;
    assert Fib(18) == 2584 && Fib(17) == 1597;
  }

  /** While the root weighs at most 4180, every code word fits encodeChar's 16-bit register. */
  lemma ShortCodes(t: Tree, s: nat)
    requires Wf(t, SETTLED) && s < NCHAR && t.freq[R] <= 4180
    ensures |Code(t, s)| <= 16
  {
    CodeLength(t, s);
    Fib19();
    if |Code(t, s)| >= 17 { FibMonotone(19, |Code(t, s)| + 2); }
  }

  lemma Fib24()
    ensures Fib(24) == 46368
  {
    Fib19();
    assert Fib(18) == 2584;
    assert Fib(20) == 6765 && Fib(21) == 10946;
    assert Fib(22) == 17711 && Fib(23) == 28657;
  }

  /** No code word is ever longer than 21 bits, since the root never weighs more than 0x8000. */
  lemma LongestCode(t: Tree, s: nat)
    requires Wf(t, SETTLED) && s < NCHAR
    ensures |Code(t, s)| <= 21
  {
    CodeLength(t, s);
    Fib24();
    if |Code(t, s)| >= 22 { FibMonotone(24, |Code(t, s)| + 2); }
  }
}
