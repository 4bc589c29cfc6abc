/** The forest in its arrays, and the link changes made by insertNode and deleteNode. */
module ForestUpdates {
  import opened Bits
  import opened Constants
  import opened Keys
  import opened Forest
  import opened Links

  /** The root entry of the tree for first byte b. */
  function Root(b: byte): nat { N + 1 + b }

  ghost predicate TreeOk(text: Text, m: Arrays, t: Bst, b: byte)
    requires m.Sized()
  {
    match t case _ =>
      Linked(m, t, m.right[Root(b)], Root(b)) && Ordered(text, t) &&
      forall p | p in Slots(t) :: p < N && text[p] == b
  }

  /** Slot p is in the forest. */
  ghost predicate Held(text: Text, trees: seq<Bst>, p: nat)
    requires |trees| == 256 && p < N
  {
    p in Slots(trees[text[p]])
  }

  /** The arrays hold 256 ordered trees, each of slots that start with its byte, and a slot has a
      parent exactly when it is in one of them. */
  ghost predicate ForestOk(text: Text, m: Arrays, trees: seq<Bst>) {
    m.Sized() && |trees| == 256 &&
    (forall b: byte :: TreeOk(text, m, trees[b], b)) &&
    (forall p | 0 <= p < N :: m.dad[p] != NIL <==> Held(text, trees, p))
  }

  /** Only slots that start with byte b, and the root for b, have changed links. */
  ghost predicate Confined(text: Text, m: Arrays, m': Arrays, b: byte)
    requires m.Sized() && m'.Sized()
  {
    (forall p: nat | p < N && text[p] != b :: AgreeOn(m, m', p)) &&
    (forall c: byte | c != b :: m'.right[Root(c)] == m.right[Root(c)])
  }

  /** One tree of the forest is exchanged. */
  lemma ForestChanged(text: Text, m: Arrays, m': Arrays, trees: seq<Bst>, b: byte, t: Bst)
    requires ForestOk(text, m, trees) && m'.Sized() && Confined(text, m, m', b)
    requires Linked(m', t, m'.right[Root(b)], Root(b)) && Ordered(text, t)
    requires forall p | p in Slots(t) :: p < N && text[p] == b
    requires forall p | 0 <= p < N && text[p] == b :: m'.dad[p] != NIL <==> p in Slots(t)
    ensures ForestOk(text, m', trees[b := t])
  {
    var trees' := trees[b := t];
    forall c: byte ensures TreeOk(text, m', trees'[c], c) {
      if c != b {
        assert TreeOk(text, m, trees[c], c);
        forall p | p in Slots(trees[c]) && p < N ensures AgreeOn(m, m', p) { assert text[p] == c; }
        Frame(m, m', trees[c], m.right[Root(c)], Root(c));
      }
    }
    forall p: nat | p < N ensures m'.dad[p] != NIL <==> Held(text, trees', p) {
      if text[p] != b {
        assert AgreeOn(m, m', p);
        assert m.dad[p] != NIL <==> Held(text, trees, p);
      }
    }
  }

  // ----- the place that insertNode has reached

  /** The link on the given side of p leads to the subtree at the end of the path. */
  ghost predicate Reached(m: Arrays, t: Bst, b: byte, path: seq<bool>, p: nat, right: bool)
    requires m.Sized()
  {
    match t case _ =>
      Inside(t, path) && p < N + 257 && (p >= N ==> right) &&
      (if path == [] then p == Root(b) && right
       else p == Owner(t, path) && right == path[|path| - 1]) &&
      Linked(m, Sub(t, path), Son(m, p, right), p)
  }

  lemma ReachRoot(text: Text, m: Arrays, t: Bst, b: byte)
    requires m.Sized() && TreeOk(text, m, t, b)
    ensures Reached(m, t, b, [], Root(b), true)
  {
  }

  lemma ReachChild(m: Arrays, t: Bst, b: byte, path: seq<bool>, p: nat, right: bool, right': bool)
    requires m.Sized() && Reached(m, t, b, path, p, right) && Son(m, p, right) != NIL
    ensures var s := Sub(t, path);
            s.Node? && s.slot == Son(m, p, right) < N && Reached(m, t, b, path + [right'], s.slot, right')
  {
    var s := Sub(t, path);
    StepInto(t, path, right', Leaf);
  }

  /** The walk so far, as seen by Insert and Search. */
  ghost predicate OnWay(text: Text, t: Bst, r: nat, path: seq<bool>, best0: Best, best: Best)
    requires r < N && Ordered(text, t)
  {
    match t case _ =>
      Inside(t, path) && Ordered(text, Sub(t, path)) &&
      Insert(text, t, r) == Put(t, path, Insert(text, Sub(t, path), r)) &&
      Search(text, t, r, best0) == Search(text, Sub(t, path), r, best)
  }

  /** One round of insertNode's loop, when the keys differ: on to a son, with the best match updated. */
  lemma WayOn(text: Text, t: Bst, r: nat, path: seq<bool>, best0: Best, best: Best, right: bool)
    requires r < N && Ordered(text, t) && OnWay(text, t, r, path, best0, best) && Sub(t, path).Node?
    requires var q := Sub(t, path).slot;
             var i := Common(KeyAt(text, r), KeyAt(text, q));
             i < F && (right <==> KeyAt(text, r)[i] >= KeyAt(text, q)[i])
    ensures var q := Sub(t, path).slot;
            OnWay(text, t, r, path + [right], best0,
                  Improve(best, Common(KeyAt(text, r), KeyAt(text, q)), Back(r, q)))
  {
    var s := Sub(t, path);
    SameKey(KeyAt(text, r), KeyAt(text, s.slot));
    StepInto(t, path, right, Insert(text, Child(s, right), r));
  }

  /** Where the parent of the place reached lies: at the root entry, or in the tree. */
  lemma OwnerPlace(text: Text, m: Arrays, t: Bst, b: byte, path: seq<bool>, p: nat, right: bool)
    requires m.Sized() && TreeOk(text, m, t, b) && Reached(m, t, b, path, p, right)
    ensures if path == [] then p == Root(b) else p < N && text[p] == b && p in Slots(t) && p !in Slots(Sub(t, path))
    ensures Distinct(t) && Distinct(Sub(t, path)) && Slots(Sub(t, path)) <= Slots(t)
  {
    OrderedDistinct(text, t);
    SubSlots(t, path);
  }

  /** Where insertNode stands in its walk for slot r. */
  datatype Walk = Walk(path: seq<bool>, p: nat, right: bool, best: Best)

  ghost predicate Walking(text: Text, m: Arrays, t: Bst, r: nat, best0: Best, at: Walk) {
    match at case Walk(path, p, right, best) =>
      m.Sized() && r < N && TreeOk(text, m, t, text[r]) && Ordered(text, t) && best.len < F &&
      Reached(m, t, text[r], path, p, right) && OnWay(text, t, r, path, best0, best)
  }

  lemma WalkBegins(text: Text, m: Arrays, trees: seq<Bst>, r: nat, pos: int)
    requires ForestOk(text, m, trees) && r < N
    ensures Walking(text, m, trees[text[r]], r, Best(0, pos), Walk([], Root(text[r]), true, Best(0, pos)))
  {
    assert TreeOk(text, m, trees[text[r]], text[r]);
    ReachRoot(text, m, trees[text[r]], text[r]);
  }

  /** Where the walk can read its next link. */
  lemma WalkPlace(text: Text, m: Arrays, t: Bst, r: nat, best0: Best, at: Walk)
    requires Walking(text, m, t, r, best0, at)
    ensures m.Sized() && at.p < N + 257 && (at.p >= N ==> at.right)
    ensures Son(m, at.p, at.right) == NIL <==> Sub(t, at.path).Leaf?
    ensures Son(m, at.p, at.right) != NIL ==>
              Son(m, at.p, at.right) == Sub(t, at.path).slot < N && text[Son(m, at.p, at.right)] == text[r]
  {
    OwnerPlace(text, m, t, text[r], at.path, at.p, at.right);
    if Son(m, at.p, at.right) != NIL { ReachChild(m, t, text[r], at.path, at.p, at.right, true); }
  }

  /** The keys differ: the walk goes on to a son. */
  lemma WalkOn(text: Text, m: Arrays, t: Bst, r: nat, best0: Best, at: Walk, right: bool, best: Best)
    requires Walking(text, m, t, r, best0, at) && Sub(t, at.path).Node? && Sub(t, at.path).slot < N
    requires var q := Sub(t, at.path).slot;
             var i := Common(KeyAt(text, r), KeyAt(text, q));
             i < F && (right <==> KeyAt(text, r)[i] >= KeyAt(text, q)[i]) &&
             best == Improve(at.best, i, Back(r, q)) && best.len < F
    ensures Walking(text, m, t, r, best0, Walk(at.path + [right], Sub(t, at.path).slot, right, best))
  {
    WalkPlace(text, m, t, r, best0, at);
    ReachChild(m, t, text[r], at.path, at.p, at.right, right);
    WayOn(text, t, r, at.path, best0, at.best, right);
  }

  /** The walk ends: what Insert and Search make of it. */
  lemma WalkEnds(text: Text, m: Arrays, t: Bst, r: nat, best0: Best, at: Walk)
    requires Walking(text, m, t, r, best0, at)
    ensures r < N && Ordered(text, t) && m.Sized() && Reached(m, t, text[r], at.path, at.p, at.right)
    ensures Sub(t, at.path).Leaf? ==>
              Insert(text, t, r) == Put(t, at.path, Node(Leaf, r, Leaf)) && Search(text, t, r, best0) == at.best
    ensures var s := Sub(t, at.path);
            s.Node? ==> s.slot < N
    ensures var s := Sub(t, at.path);
            s.Node? && Common(KeyAt(text, r), KeyAt(text, s.slot)) == F ==>
              Insert(text, t, r) == Put(t, at.path, Node(s.left, r, s.right)) &&
              Search(text, t, r, best0) == Improve(at.best, F, Back(r, s.slot))
  {
    var s := Sub(t, at.path);
    if s.Node? { SameKey(KeyAt(text, r), KeyAt(text, s.slot)); }
  }

  // ----- insertNode's two endings

  /** The new links of r before the walk starts. */
  function Fresh(m: Arrays, r: nat): (m': Arrays)
    requires m.Sized() && r < N
    ensures m'.Sized()
  {
    Arrays(m.left[r := NIL], m.right[r := NIL], m.dad)
  }

  /** r is hung below p. */
  function Attach(m: Arrays, p: nat, right: bool, r: nat): (m': Arrays)
    requires m.Sized() && r < N && p < N + 257 && (p >= N ==> right)
    ensures m'.Sized()
  {
    if right then Arrays(m.left, m.right[p := r], m.dad[r := p])
    else Arrays(m.left[p := r], m.right, m.dad[r := p])
  }

  /** A slot outside the forest may be given any links. */
  lemma FreshOk(text: Text, m: Arrays, trees: seq<Bst>, r: nat)
    requires ForestOk(text, m, trees) && r < N && !Held(text, trees, r)
    ensures ForestOk(text, Fresh(m, r), trees)
  {
    var m' := Fresh(m, r);
    forall b: byte ensures TreeOk(text, m', trees[b], b) {
      assert TreeOk(text, m, trees[b], b);
      forall p | p in Slots(trees[b]) && p < N ensures AgreeOn(m, m', p) {
        assert p != r;
      }
      Frame(m, m', trees[b], m.right[Root(b)], Root(b));
    }
  }

  lemma AttachLinked(text: Text, m: Arrays, t: Bst, b: byte, path: seq<bool>, p: nat, right: bool, r: nat)
    requires m.Sized() && TreeOk(text, m, t, b) && Reached(m, t, b, path, p, right)
    requires Sub(t, path).Leaf? && r < N && r !in Slots(t) && m.left[r] == NIL && m.right[r] == NIL && p != r
    ensures var m' := Attach(m, p, right, r);
            Linked(m', Put(t, path, Node(Leaf, r, Leaf)), m'.right[Root(b)], Root(b))
  {
    OwnerPlace(text, m, t, b, path, p, right);
    var m' := Attach(m, p, right, r);
    var x := Node(Leaf, r, Leaf);
    assert Linked(m', x, r, p);
    if path != [] {
      assert OnlyLinkChanged(m, m', Slots(t) - Slots(Sub(t, path)), p, right, r);
      Graft(m, m', t, m.right[Root(b)], Root(b), path, x, r);
    }
  }

  /** insertNode ends at a free place: r becomes a leaf there. */
  lemma AttachOk(text: Text, m: Arrays, trees: seq<Bst>, path: seq<bool>, p: nat, right: bool, r: nat)
    requires ForestOk(text, m, trees) && r < N && !Held(text, trees, r)
    requires m.left[r] == NIL && m.right[r] == NIL
    requires var b := text[r]; var t := trees[b];
             Reached(m, t, b, path, p, right) && Sub(t, path).Leaf? && Ordered(text, t) &&
             Put(t, path, Node(Leaf, r, Leaf)) == Insert(text, t, r)
    ensures var b := text[r];
            ForestOk(text, Attach(m, p, right, r), trees[b := Insert(text, trees[b], r)])
  {
    var b := text[r];
    var t := trees[b];
    var m', t' := Attach(m, p, right, r), Insert(text, t, r);
    assert TreeOk(text, m, t, b);
    OwnerPlace(text, m, t, b, path, p, right);
    AttachLinked(text, m, t, b, path, p, right, r);
    InsertOrdered(text, t, r);
    PutSlots(t, path, Node(Leaf, r, Leaf));
    assert Slots(t') == Slots(t) + {r};
    AttachDad(text, m, trees, p, right, r);
    ForestChanged(text, m, m', trees, b, t');
  }

  lemma AttachDad(text: Text, m: Arrays, trees: seq<Bst>, p: nat, right: bool, r: nat)
    requires ForestOk(text, m, trees) && r < N && p < N + 257 && (p >= N ==> right && p == Root(text[r]))
    requires p < N ==> text[p] == text[r]
    ensures Confined(text, m, Attach(m, p, right, r), text[r])
    ensures forall q | 0 <= q < N && text[q] == text[r] ::
              Attach(m, p, right, r).dad[q] != NIL <==> q in Slots(trees[text[r]]) + {r}
  {
    forall q | 0 <= q < N && text[q] == text[r]
      ensures Attach(m, p, right, r).dad[q] != NIL <==> q in Slots(trees[text[r]]) + {r}
    {
      assert m.dad[q] != NIL <==> Held(text, trees, q);
    }
  }

  /** r takes over the links of p, which leaves the forest. */
  function Replace(m: Arrays, p: nat, r: nat): (m': Arrays)
    requires m.Sized() && p < N && r < N && m.left[p] <= N && m.right[p] <= N
    requires m.dad[p] < N + 257 && (m.dad[p] > N ==> m.right[m.dad[p]] == p)
    ensures m'.Sized()
  {
    var o := m.dad[p];
    var left, right := m.left[r := m.left[p]], m.right[r := m.right[p]];
    var dad := m.dad[r := o][m.left[p] := r][m.right[p] := r][p := NIL];
    if m.right[o] == p then Arrays(left, right[o := r], dad) else Arrays(left[o := r], right, dad)
  }

  /** The links of r are those of p had, and p has no parent. */
  lemma ReplaceLinks(m: Arrays, p: nat, r: nat, q: nat)
    requires m.Sized() && p < N && r < N && m.left[p] <= N && m.right[p] <= N && p != r
    requires m.dad[p] < N + 257 && (m.dad[p] > N ==> m.right[m.dad[p]] == p)
    requires q < N && q != r && q != m.dad[p]
    ensures var m' := Replace(m, p, r);
            m'.left[q] == m.left[q] && m'.right[q] == m.right[q] &&
            m'.dad[q] == (if q == p then NIL else if q == m.left[p] || q == m.right[p] then r else m.dad[q])
  {
  }

  lemma ReplaceOwner(m: Arrays, p: nat, r: nat)
    requires m.Sized() && p < N && r < N && m.left[p] <= N && m.right[p] <= N && p != r
    requires m.dad[p] < N + 257 && (m.dad[p] > N ==> m.right[m.dad[p]] == p) && m.dad[p] != p
    ensures var m', o := Replace(m, p, r), m.dad[p];
            (m.left[p] != r && m.right[p] != r ==> m'.dad[r] == o) &&
            (o < N && o != r ==> m'.dad[o] == if o == m.left[p] || o == m.right[p] then r else m.dad[o])
  {
  }

  lemma {:induction false} ReplaceSub(m: Arrays, s: Bst, p: nat, r: nat, o: nat)
    requires m.Sized() && s.Node? && s.slot == p && Linked(m, s, p, o) && Distinct(s)
    requires o < N + 257 && o != N && (o > N ==> m.right[o] == p)
    requires r < N && r !in Slots(s) && o !in Slots(s) && o != r
    ensures p < N && m.left[p] <= N && m.right[p] <= N && m.dad[p] == o
    ensures Linked(Replace(m, p, r), Node(s.left, r, s.right), r, o)
  {
    LinkedSlots(m, s, p, o);
    var a, c := s.left, s.right;
    assert a.Node? ==> m.left[p] in Slots(a);
    assert c.Node? ==> m.right[p] in Slots(c);
    var m' := Replace(m, p, r);
    forall q | q in Slots(a) || q in Slots(c)
      ensures q < N && m'.left[q] == m.left[q] && m'.right[q] == m.right[q]
      ensures m'.dad[q] == if q == m.left[p] || q == m.right[p] then r else m.dad[q]
    {
      ReplaceLinks(m, p, r, q);
    }
    assert m'.left[r] == m.left[p] && m'.right[r] == m.right[p] && m'.dad[r] == o;
    Reparent(m, m', a, m.left[p], p, r);
    Reparent(m, m', c, m.right[p], p, r);
  }

  lemma ReplaceOutside(m: Arrays, outside: set<nat>, o: nat, right: bool, p: nat, r: nat)
    requires m.Sized() && p < N && r < N && p != r && m.left[p] <= N && m.right[p] <= N
    requires m.dad[p] == o < N && (right <==> m.right[o] == p)
    requires r !in outside && p !in outside && m.left[p] !in outside && m.right[p] !in outside
    ensures OnlyLinkChanged(m, Replace(m, p, r), outside, o, right, r)
  {
  }

  lemma ReplaceLinked(text: Text, m: Arrays, t: Bst, b: byte, path: seq<bool>, o: nat, right: bool, p: nat, r: nat)
    requires m.Sized() && TreeOk(text, m, t, b) && Reached(m, t, b, path, o, right)
    requires Sub(t, path).Node? && Sub(t, path).slot == p && r < N && r !in Slots(t)
    ensures p < N && m.left[p] <= N && m.right[p] <= N && m.dad[p] == o
    ensures o > N ==> m.right[o] == p
    ensures var s, m' := Sub(t, path), Replace(m, p, r);
            Linked(m', Put(t, path, Node(s.left, r, s.right)), m'.right[Root(b)], Root(b))
  {
    OwnerPlace(text, m, t, b, path, o, right);
    var s := Sub(t, path);
    ReplaceSub(m, s, p, r, o);
    var m' := Replace(m, p, r);
    var x := Node(s.left, r, s.right);
    if path != [] {
      if !right { SiblingDiffers(m, t, m.right[Root(b)], Root(b), path); }
      var outside := Slots(t) - Slots(s);
      assert p in Slots(s);
      assert s.left.Node? ==> s.left.slot in Slots(s);
      assert s.right.Node? ==> s.right.slot in Slots(s);
      assert NIL !in outside;
      ReplaceOutside(m, outside, o, right, p, r);
      Graft(m, m', t, m.right[Root(b)], Root(b), path, x, r);
    }
  }

  lemma ReplaceDad(text: Text, m: Arrays, trees: seq<Bst>, p: nat, r: nat)
    requires ForestOk(text, m, trees) && p < N && r < N && !Held(text, trees, r) && text[p] == text[r]
    requires p != r && m.dad[p] != p
    requires m.left[p] <= N && m.right[p] <= N && m.dad[p] < N + 257
    requires m.dad[p] != NIL && (m.dad[p] > N ==> m.right[m.dad[p]] == p && m.dad[p] == Root(text[r]))
    requires m.dad[p] < N ==> text[m.dad[p]] == text[r]
    requires m.left[p] < N ==> Held(text, trees, m.left[p]) && text[m.left[p]] == text[r] && m.left[p] != p
    requires m.right[p] < N ==> Held(text, trees, m.right[p]) && text[m.right[p]] == text[r] && m.right[p] != p
    ensures Confined(text, m, Replace(m, p, r), text[r])
    ensures forall q | 0 <= q < N && text[q] == text[r] ::
              Replace(m, p, r).dad[q] != NIL <==> q in Slots(trees[text[r]]) - {p} + {r}
  {
    forall q | 0 <= q < N && text[q] == text[r]
      ensures Replace(m, p, r).dad[q] != NIL <==> q in Slots(trees[text[r]]) - {p} + {r}
    {
      assert m.dad[q] != NIL <==> Held(text, trees, q);
      if q != r && q != m.dad[p] {
        ReplaceLinks(m, p, r, q);
      } else {
        ReplaceOwner(m, p, r);
      }
    }
    forall q: nat | q < N && text[q] != text[r] ensures AgreeOn(m, Replace(m, p, r), q) {
      ReplaceLinks(m, p, r, q);
    }
  }

  /** The sons of a node are in its tree, and are not the node itself. */
  lemma SonsOf(m: Arrays, s: Bst, p: nat, o: nat)
    requires m.Sized() && s.Node? && Linked(m, s, p, o) && Distinct(s)
    ensures p < N && s.slot == p && p in Slots(s)
    ensures m.left[p] == NIL || (m.left[p] < N && m.left[p] in Slots(s) && m.left[p] != p)
    ensures m.right[p] == NIL || (m.right[p] < N && m.right[p] in Slots(s) && m.right[p] != p)
  {
    if s.left.Node? { assert s.left.slot in Slots(s.left); }
    if s.right.Node? { assert s.right.slot in Slots(s.right); }
  }

  lemma ReplacedSlots(t: Bst, path: seq<bool>, r: nat)
    requires Inside(t, path) && Distinct(t) && Sub(t, path).Node?
    ensures var s := Sub(t, path);
            Slots(Put(t, path, Node(s.left, r, s.right))) == Slots(t) - {s.slot} + {r}
  {
    SubSlots(t, path);
    PutSlots(t, path, Node(Sub(t, path).left, r, Sub(t, path).right));
  }

  /** What ReplaceDad needs to know about the place reached. */
  lemma ReplacePlace(text: Text, m: Arrays, trees: seq<Bst>, path: seq<bool>, o: nat, right: bool, b: byte)
    requires ForestOk(text, m, trees)
    requires var t := trees[b]; Reached(m, t, b, path, o, right) && Sub(t, path).Node?
    ensures var p := Sub(trees[b], path).slot;
            p < N && text[p] == b && p != o && m.dad[p] == o && Held(text, trees, p) &&
            (o < N ==> text[o] == b) && o != NIL && o < N + 257 && (o > N ==> o == Root(b) && m.right[o] == p) &&
            (m.left[p] == NIL || (m.left[p] < N && m.left[p] != p && text[m.left[p]] == b && Held(text, trees, m.left[p]))) &&
            (m.right[p] == NIL || (m.right[p] < N && m.right[p] != p && text[m.right[p]] == b && Held(text, trees, m.right[p])))
  {
    var t := trees[b];
    assert TreeOk(text, m, t, b);
    OwnerPlace(text, m, t, b, path, o, right);
    SonsOf(m, Sub(t, path), Son(m, o, right), o);
  }

  /** insertNode ends at a slot with the same key: r takes its place. */
  lemma {:induction false} ReplaceOk(text: Text, m: Arrays, trees: seq<Bst>, path: seq<bool>, o: nat, right: bool, r: nat)
    requires ForestOk(text, m, trees) && r < N && !Held(text, trees, r)
    requires var b := text[r]; var t := trees[b]; var s := Sub(t, path);
             Reached(m, t, b, path, o, right) && s.Node? && Ordered(text, t) &&
             Put(t, path, Node(s.left, r, s.right)) == Insert(text, t, r)
    ensures var b := text[r]; var p := Sub(trees[b], path).slot;
            p < N && m.left[p] <= N && m.right[p] <= N && m.dad[p] == o &&
            (o > N ==> m.right[o] == p) && o < N + 257 &&
            ForestOk(text, Replace(m, p, r), trees[b := Insert(text, trees[b], r)])
  {
    var b := text[r];
    var t := trees[b];
    var t', p := Insert(text, t, r), Sub(t, path).slot;
    assert TreeOk(text, m, t, b);
    OrderedDistinct(text, t);
    ReplacePlace(text, m, trees, path, o, right, b);
    ReplaceLinked(text, m, t, b, path, o, right, p, r);
    InsertOrdered(text, t, r);
    ReplacedSlots(t, path, r);
    ReplaceDad(text, m, trees, p, r);
    ForestChanged(text, m, Replace(m, p, r), trees, b, t');
  }
}
