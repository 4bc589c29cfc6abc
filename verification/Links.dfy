/** How the arrays lSon, rSon and dad hold a tree, and what a change of a few links does to it. */
module Links {
  import opened Constants
  import opened Forest

  /** The three link arrays. `right` also has the roots of the 256 trees, after index N. */
  datatype Arrays = Arrays(left: seq<nat>, right: seq<nat>, dad: seq<nat>) {
    ghost predicate Sized() {
      |left| == N + 1 && |right| == N + 257 && |dad| == N + 1
    }
  }

  /** The son of node p on one side; on the right also the root of the tree at root entry p. */
  function Son(m: Arrays, p: nat, right: bool): nat
    requires m.Sized() && p < N + 257 && (p >= N ==> right)
  {
    if right then m.right[p] else m.left[p]
  }

  /** Pointer ptr, below node par, is the root of t. */
  ghost predicate Linked(m: Arrays, t: Bst, ptr: nat, par: nat)
    requires m.Sized()
    decreases t
  {
    match t
    case Leaf => ptr == NIL
    case Node(a, p, b) =>
      p < N && ptr == p && m.dad[p] == par && Linked(m, a, m.left[p], p) && Linked(m, b, m.right[p], p)
  }

  ghost predicate AgreeOn(m: Arrays, m': Arrays, p: nat)
    requires m.Sized() && m'.Sized() && p < N
  {
    m.left[p] == m'.left[p] && m.right[p] == m'.right[p] && m.dad[p] == m'.dad[p]
  }

  lemma {:induction false} Frame(m: Arrays, m': Arrays, t: Bst, ptr: nat, par: nat)
    requires m.Sized() && m'.Sized() && Linked(m, t, ptr, par)
    requires forall p | p in Slots(t) && p < N :: AgreeOn(m, m', p)
    ensures Linked(m', t, ptr, par)
    decreases t
  {
    match t
    case Leaf =>
    case Node(a, p, b) =>
      assert AgreeOn(m, m', p);
      Frame(m, m', a, m.left[p], p);
      Frame(m, m', b, m.right[p], p);
  }

  lemma {:induction false} LinkedSlots(m: Arrays, t: Bst, ptr: nat, par: nat)
    requires m.Sized() && Linked(m, t, ptr, par)
    ensures forall p | p in Slots(t) :: p < N
    decreases t
  {
    match t
    case Leaf =>
    case Node(a, p, b) =>
      LinkedSlots(m, a, m.left[p], p);
      LinkedSlots(m, b, m.right[p], p);
  }

  /** A tree moves below another node: only the parent entry of its root changes. */
  lemma Reparent(m: Arrays, m': Arrays, t: Bst, ptr: nat, par: nat, par': nat)
    requires m.Sized() && m'.Sized() && Linked(m, t, ptr, par) && Distinct(t)
    requires forall p | p in Slots(t) && p < N && p != ptr :: AgreeOn(m, m', p)
    requires t.Node? ==> m'.left[ptr] == m.left[ptr] && m'.right[ptr] == m.right[ptr] && m'.dad[ptr] == par'
    ensures Linked(m', t, ptr, par')
  {
    if t.Node? {
      Frame(m, m', t.left, m.left[ptr], ptr);
      Frame(m, m', t.right, m.right[ptr], ptr);
    }
  }

  // ----- paths into a tree

  ghost function Child(t: Bst, right: bool): Bst {
    match t
    case Leaf => Leaf
    case Node(a, _, b) => if right then b else a
  }

  ghost function Sub(t: Bst, path: seq<bool>): Bst {
    if path == [] then t else Sub(Child(t, path[0]), path[1..])
  }

  /** t with the subtree at the end of the path replaced. */
  ghost function Put(t: Bst, path: seq<bool>, x: Bst): Bst {
    if path == [] then x
    else
      match t
      case Leaf => Leaf
      case Node(a, p, b) =>
        if path[0] then Node(a, p, Put(b, path[1..], x)) else Node(Put(a, path[1..], x), p, b)
  }

  /** The path stays inside the tree up to its last step. */
  ghost predicate Inside(t: Bst, path: seq<bool>) {
    path == [] || (t.Node? && Inside(Child(t, path[0]), path[1..]))
  }

  /** The slot whose link the last step of the path follows. */
  ghost function Owner(t: Bst, path: seq<bool>): nat
    requires path != [] && Inside(t, path)
  {
    if |path| == 1 then t.slot else Owner(Child(t, path[0]), path[1..])
  }

  lemma {:induction false} StepInto(t: Bst, path: seq<bool>, right: bool, x: Bst)
    requires Inside(t, path) && Sub(t, path).Node?
    ensures Inside(t, path + [right]) && Sub(t, path + [right]) == Child(Sub(t, path), right)
    ensures Owner(t, path + [right]) == Sub(t, path).slot
    ensures var s := Sub(t, path);
            Put(t, path + [right], x) ==
            Put(t, path, if right then Node(s.left, s.slot, x) else Node(x, s.slot, s.right))
  {
    if path == [] {
      assert [right][1..] == [];
      assert Put(t, [right], x) == if right then Node(t.left, t.slot, x) else Node(x, t.slot, t.right);
    } else {
      assert (path + [right])[1..] == path[1..] + [right];
      StepInto(Child(t, path[0]), path[1..], right, x);
    }
  }

  lemma {:induction false} SubSlots(t: Bst, path: seq<bool>)
    requires Inside(t, path)
    ensures Slots(Sub(t, path)) <= Slots(t)
    ensures path != [] ==> Owner(t, path) in Slots(t)
    ensures path != [] && Distinct(t) ==> Owner(t, path) !in Slots(Sub(t, path))
    ensures Distinct(t) ==> Distinct(Sub(t, path))
  {
    if path != [] {
      SubSlots(Child(t, path[0]), path[1..]);
    }
  }

  lemma {:induction false} PutSlots(t: Bst, path: seq<bool>, x: Bst)
    requires Inside(t, path) && Distinct(t)
    ensures Slots(Put(t, path, x)) == Slots(t) - Slots(Sub(t, path)) + Slots(x)
  {
    if path != [] {
      PutSlots(Child(t, path[0]), path[1..], x);
      SubSlots(Child(t, path[0]), path[1..]);
    }
  }

  /** Nothing outside the replaced subtree changes but the link that leads to it. */
  ghost predicate OnlyLinkChanged(m: Arrays, m': Arrays, outside: set<nat>, o: nat, right: bool, ptr: nat)
    requires m.Sized() && m'.Sized()
  {
    forall p | p in outside && p < N ::
      m'.dad[p] == m.dad[p] &&
      m'.left[p] == (if p == o && !right then ptr else m.left[p]) &&
      m'.right[p] == (if p == o && right then ptr else m.right[p])
  }

  /** A subtree is exchanged for another one. */
  lemma {:induction false} Graft(m: Arrays, m': Arrays, t: Bst, ptr: nat, par: nat,
                                 path: seq<bool>, x: Bst, xptr: nat)
    requires m.Sized() && m'.Sized() && Linked(m, t, ptr, par) && Distinct(t)
    requires path != [] && Inside(t, path)
    requires OnlyLinkChanged(m, m', Slots(t) - Slots(Sub(t, path)), Owner(t, path), path[|path| - 1], xptr)
    requires Linked(m', x, xptr, Owner(t, path))
    ensures Linked(m', Put(t, path, x), ptr, par)
    decreases |path|
  {
    var a, p, b := t.left, t.slot, t.right;
    var child := Child(t, path[0]);
    SubSlots(child, path[1..]);
    assert p in Slots(t) - Slots(Sub(t, path));
    var other := Child(t, !path[0]);
    assert forall q | q in Slots(other) :: q in Slots(t) - Slots(Sub(t, path)) && q != Owner(t, path);
    Frame(m, m', other, if path[0] then m.left[p] else m.right[p], p);
    if |path| == 1 {
      assert path[1..] == [];
    } else {
      Graft(m, m', child, if path[0] then m.right[p] else m.left[p], p, path[1..], x, xptr);
    }
  }

  /** The links along a path lead to the subtree at its end. */
  lemma {:induction false} LinkedAt(m: Arrays, t: Bst, ptr: nat, par: nat, path: seq<bool>)
    requires m.Sized() && Linked(m, t, ptr, par) && Inside(t, path) && path != []
    ensures var o := Owner(t, path);
            o < N && Linked(m, Sub(t, path), Son(m, o, path[|path| - 1]), o)
    decreases |path|
  {
    var p := t.slot;
    if |path| == 1 {
      assert path[1..] == [] && Sub(t, path) == Child(t, path[0]);
    } else {
      assert path[1..][|path| - 2] == path[|path| - 1];
      LinkedAt(m, Child(t, path[0]), if path[0] then m.right[p] else m.left[p], p, path[1..]);
    }
  }

  /** The other link of the owner does not lead to the same slot. */
  lemma {:induction false} SiblingDiffers(m: Arrays, t: Bst, ptr: nat, par: nat, path: seq<bool>)
    requires m.Sized() && Linked(m, t, ptr, par) && Distinct(t) && Inside(t, path) && path != []
    requires Sub(t, path).Node?
    ensures var o := Owner(t, path);
            o < N && Son(m, o, !path[|path| - 1]) != Sub(t, path).slot
    decreases |path|
  {
    var p := t.slot;
    if |path| == 1 {
      assert path[1..] == [];
      var child, other := Child(t, path[0]), Child(t, !path[0]);
      assert child.slot in Slots(child);
      if other.Node? { assert other.slot in Slots(other); }
    } else {
      SiblingDiffers(m, Child(t, path[0]), if path[0] then m.right[p] else m.left[p], p, path[1..]);
    }
  }

  // ----- taking the last slot out of a tree

  lemma {:induction false} LastLinks(m: Arrays, t: Bst, ptr: nat, par: nat)
    requires m.Sized() && Linked(m, t, ptr, par) && Distinct(t) && t.Node?
    ensures var q := Last(t);
            q < N && q in Slots(t) && m.right[q] == NIL &&
            (m.left[q] == NIL || (m.left[q] in Slots(t) && m.left[q] != ptr && m.left[q] < N)) &&
            (t.right.Node? ==> q != ptr && m.dad[q] in Slots(t) && m.dad[q] < N && m.dad[q] != q) &&
            (t.right.Leaf? ==> q == ptr)
    decreases t
  {
    if t.right.Node? {
      LastLinks(m, t.right, m.right[ptr], ptr);
    } else if t.left.Node? {
      assert t.left.slot in Slots(t.left);
    }
  }

  /** All links of t but those of q are as before, except that the root has a new parent and q's
      left subtree has moved up into q's place. */
  ghost predicate LastTaken(m: Arrays, m': Arrays, t: Bst, q: nat, ptr: nat, par': nat)
    requires m.Sized() && m'.Sized() && q < N
  {
    forall k | k in Slots(t) && k < N && k != q ::
      m'.left[k] == m.left[k] &&
      m'.right[k] == (if k == m.dad[q] then m.left[q] else m.right[k]) &&
      m'.dad[k] == (if k == ptr then par' else if k == m.left[q] then m.dad[q] else m.dad[k])
  }

  lemma {:induction false} TakeLast(m: Arrays, m': Arrays, t: Bst, ptr: nat, par: nat, par': nat)
    requires m.Sized() && m'.Sized() && Linked(m, t, ptr, par) && Distinct(t)
    requires t.Node? && t.right.Node? && Last(t) < N
    requires LastTaken(m, m', t, Last(t), ptr, par')
    ensures Linked(m', WithoutLast(t), ptr, par')
    decreases t
  {
    var q, x, y := Last(t), t.left, t.right;
    LastLinks(m, y, m.right[ptr], ptr);
    assert y.slot in Slots(y);
    forall k | k in Slots(x) && k < N ensures AgreeOn(m, m', k) {
      assert k in Slots(t);
    }
    Frame(m, m', x, m.left[ptr], ptr);
    if y.right.Node? {
      TakeLast(m, m', y, m.right[ptr], ptr, ptr);
    } else {
      assert m.dad[q] == ptr;
      Reparent(m, m', y.left, m.left[q], q, ptr);
    }
  }
}
