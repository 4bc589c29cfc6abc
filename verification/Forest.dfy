/** The search forest of the match finder, as values: one binary tree of window slots per first
    byte, ordered by the keys of the slots. */
module Forest {
  import opened Bits
  import opened Constants
  import opened Keys

  const NIL: nat := 2048
  const TEXT: nat := 2107

  type Text = s: seq<byte> | |s| == TEXT witness seq(TEXT, _ => 0)

  function KeyAt(text: Text, p: nat): Key
    requires p < N
  {
    text[p..p + F]
  }

  datatype Bst = Leaf | Node(left: Bst, slot: nat, right: Bst)

  ghost function Slots(t: Bst): set<nat> {
    match t
    case Leaf => {}
    case Node(a, p, b) => Slots(a) + {p} + Slots(b)
  }

  /** The slots are in the window and in order from left to right. */
  ghost predicate Ordered(text: Text, t: Bst) {
    match t
    case Leaf => true
    case Node(a, p, b) =>
      p < N && Ordered(text, a) && Ordered(text, b) &&
      (forall q | q in Slots(a) :: q < N && Less(KeyAt(text, q), KeyAt(text, p))) &&
      (forall q | q in Slots(b) :: q < N && Less(KeyAt(text, p), KeyAt(text, q)))
  }

  /** No slot occurs twice. */
  ghost predicate Distinct(t: Bst) {
    match t
    case Leaf => true
    case Node(a, p, b) =>
      Distinct(a) && Distinct(b) && p !in Slots(a) && p !in Slots(b) && Slots(a) !! Slots(b)
  }

  lemma {:induction false} OrderedDistinct(text: Text, t: Bst)
    requires Ordered(text, t)
    ensures Distinct(t) && forall q | q in Slots(t) :: q < N
  {
    if t.Node? {
      OrderedDistinct(text, t.left);
      OrderedDistinct(text, t.right);
      LessTotal(KeyAt(text, t.slot), KeyAt(text, t.slot));
      forall q | q in Slots(t.left) && q in Slots(t.right) ensures false {
        LessTotal(KeyAt(text, q), KeyAt(text, t.slot));
      }
    }
  }

  // ----- insertion

  /** insertNode on trees: r becomes a leaf, or takes the place of the slot with the same key. */
  ghost function Insert(text: Text, t: Bst, r: nat): Bst
    requires r < N && Ordered(text, t)
  {
    match t
    case Leaf => Node(Leaf, r, Leaf)
    case Node(a, p, b) =>
      if KeyAt(text, r) == KeyAt(text, p) then Node(a, r, b)
      else if Less(KeyAt(text, r), KeyAt(text, p)) then Node(Insert(text, a, r), p, b)
      else Node(a, p, Insert(text, b, r))
  }

  /** Insertion keeps the order, adds r, and drops exactly the slot whose key r has. */
  lemma {:induction false} InsertOrdered(text: Text, t: Bst, r: nat)
    requires r < N && Ordered(text, t)
    ensures Ordered(text, Insert(text, t, r))
    ensures forall q :: q in Slots(Insert(text, t, r)) <==>
                        q == r || (q in Slots(t) && KeyAt(text, q) != KeyAt(text, r))
  {
    if t.Node? {
      var kr, kp := KeyAt(text, r), KeyAt(text, t.slot);
      LessTotal(kr, kp);
      OrderedDistinct(text, t);
      if kr == kp {
        KeyOnce(text, t);
      } else if Less(kr, kp) {
        InsertOrdered(text, t.left, r);
        forall q | q in Slots(t.right) ensures KeyAt(text, q) != kr {
          Between(kr, kp, KeyAt(text, q));
          LessTotal(kr, KeyAt(text, q));
        }
      } else {
        InsertOrdered(text, t.right, r);
        forall q | q in Slots(t.left) ensures KeyAt(text, q) != kr {
          Between(KeyAt(text, q), kp, kr);
          LessTotal(kr, KeyAt(text, q));
        }
      }
    }
  }

  /** No other slot of a tree has the key of its root. */
  lemma KeyOnce(text: Text, t: Bst)
    requires Ordered(text, t) && t.Node?
    ensures forall q | q in Slots(t.left) || q in Slots(t.right) :: KeyAt(text, q) != KeyAt(text, t.slot)
  {
    forall q | q in Slots(t.left) || q in Slots(t.right) ensures KeyAt(text, q) != KeyAt(text, t.slot) {
      LessTotal(KeyAt(text, q), KeyAt(text, t.slot));
    }
  }

  // ----- the search for the longest match

  datatype Best = Best(len: nat, pos: int)

  /** How far back slot p lies from r, less one. */
  function Back(r: nat, p: nat): int { (r - p) % N - 1 }

  /** The comparison of a candidate at position c that shares i bytes with the best so far. */
  function Improve(best: Best, i: nat, c: int): Best {
    if i <= THRESHOLD then best
    else if i > best.len then Best(i, c)
    else if i == best.len && c < best.pos then Best(i, c)
    else best
  }

  /** The walk of insertNode from the root of t, keeping the best match on its way. */
  ghost function Search(text: Text, t: Bst, r: nat, best: Best): Best
    requires r < N && Ordered(text, t)
  {
    match t
    case Leaf => best
    case Node(a, p, b) =>
      var i := Common(KeyAt(text, r), KeyAt(text, p));
      var best' := Improve(best, i, Back(r, p));
      if i == F then best'
      else if Less(KeyAt(text, r), KeyAt(text, p)) then Search(text, a, r, best')
      else Search(text, b, r, best')
  }

  /** Slot q of the tree is a match of that length at that position. */
  ghost predicate Achieves(text: Text, r: nat, q: nat, best: Best)
    requires r < N && q < N
  {
    Common(KeyAt(text, r), KeyAt(text, q)) == best.len && Back(r, q) == best.pos
  }

  /** The search finds the longest match there is, and every match it reports is real. */
  lemma {:induction false} SearchLongest(text: Text, t: Bst, r: nat, best: Best)
    requires r < N && Ordered(text, t) && r !in Slots(t)
    ensures var found := Search(text, t, r, best);
            found.len >= best.len &&
            (forall q | q in Slots(t) :: Common(KeyAt(text, r), KeyAt(text, q)) <= THRESHOLD ||
                                         Common(KeyAt(text, r), KeyAt(text, q)) <= found.len) &&
            (found == best ||
             (found.len > THRESHOLD && exists q :: q in Slots(t) && q < N && Achieves(text, r, q, found)))
  {
    if t.Node? {
      OrderedDistinct(text, t);
      var kr, kp := KeyAt(text, r), KeyAt(text, t.slot);
      var i := Common(kr, kp);
      var best' := Improve(best, i, Back(r, t.slot));
      assert Back(r, t.slot) >= 0;
      assert best' == best || Achieves(text, r, t.slot, best');
      if i < F {
        SameKey(kr, kp);
        LessTotal(kr, kp);
        if Less(kr, kp) {
          SearchLongest(text, t.left, r, best');
          forall q | q in Slots(t.right) ensures Common(kr, KeyAt(text, q)) <= i {
            Between(kr, kp, KeyAt(text, q));
          }
        } else {
          SearchLongest(text, t.right, r, best');
          forall q | q in Slots(t.left) ensures Common(kr, KeyAt(text, q)) <= i {
            Between(KeyAt(text, q), kp, kr);
            CommonSymmetric(kr, KeyAt(text, q));
            CommonSymmetric(kr, kp);
          }
        }
      }
    }
  }

  // ----- deletion

  /** The last slot of a tree, and the tree without it. */
  ghost function Last(t: Bst): nat
    requires t.Node?
  {
    if t.right.Leaf? then t.slot else Last(t.right)
  }

  ghost function WithoutLast(t: Bst): Bst
    requires t.Node?
  {
    if t.right.Leaf? then t.left else Node(t.left, t.slot, WithoutLast(t.right))
  }

  /** What deleteNode puts in the place of a node with the given subtrees. */
  ghost function Join(a: Bst, b: Bst): Bst {
    if b.Leaf? then a else if a.Leaf? then b else Node(WithoutLast(a), Last(a), b)
  }

  lemma {:induction false} LastIsLargest(text: Text, t: Bst)
    requires t.Node? && Ordered(text, t)
    ensures Last(t) in Slots(t) && Slots(WithoutLast(t)) == Slots(t) - {Last(t)} && Last(t) < N
    ensures Ordered(text, WithoutLast(t))
    ensures forall q | q in Slots(WithoutLast(t)) :: q < N && Less(KeyAt(text, q), KeyAt(text, Last(t)))
  {
    OrderedDistinct(text, t);
    if t.right.Node? {
      LastIsLargest(text, t.right);
      var kl := KeyAt(text, Last(t));
      forall q | q in Slots(t.left) ensures Less(KeyAt(text, q), kl) {
        Between(KeyAt(text, q), KeyAt(text, t.slot), kl);
      }
    }
  }

  lemma JoinOrdered(text: Text, a: Bst, p: nat, b: Bst)
    requires Ordered(text, Node(a, p, b))
    ensures Ordered(text, Join(a, b)) && Slots(Join(a, b)) == Slots(a) + Slots(b)
  {
    if a.Node? && b.Node? {
      LastIsLargest(text, a);
      forall q | q in Slots(b) ensures Less(KeyAt(text, Last(a)), KeyAt(text, q)) {
        Between(KeyAt(text, Last(a)), KeyAt(text, p), KeyAt(text, q));
      }
    }
  }

  /** deleteNode on trees. */
  ghost function Delete(t: Bst, p: nat): Bst {
    match t
    case Leaf => Leaf
    case Node(a, q, b) =>
      if p == q then Join(a, b)
      else if p in Slots(a) then Node(Delete(a, p), q, b)
      else Node(a, q, Delete(b, p))
  }

  lemma {:induction false} DeleteOrdered(text: Text, t: Bst, p: nat)
    requires Ordered(text, t)
    ensures Ordered(text, Delete(t, p)) && Slots(Delete(t, p)) == Slots(t) - {p}
  {
    if t.Node? {
      OrderedDistinct(text, t);
      if p == t.slot {
        JoinOrdered(text, t.left, p, t.right);
      } else if p in Slots(t.left) {
        DeleteOrdered(text, t.left, p);
      } else {
        DeleteOrdered(text, t.right, p);
      }
    }
  }
}
