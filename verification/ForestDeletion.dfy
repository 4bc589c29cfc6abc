/** The link changes made by deleteNode. */
module ForestDeletion {
  import opened Bits
  import opened Constants
  import opened Keys
  import opened Forest
  import opened Links
  import opened ForestUpdates

  /** The way down to slot p. */
  lemma {:induction false} PathTo(t: Bst, p: nat) returns (path: seq<bool>)
    requires p in Slots(t) && Distinct(t)
    ensures Inside(t, path) && Sub(t, path).Node? && Sub(t, path).slot == p
    ensures Delete(t, p) == Put(t, path, Join(Sub(t, path).left, Sub(t, path).right))
  {
    if t.slot == p {
      path := [];
    } else {
      var right := p in Slots(t.right);
      var rest := PathTo(Child(t, right), p);
      path := [right] + rest;
      assert path[1..] == rest;
    }
  }

  // ----- a node with two sons: the last slot of the left subtree takes its place

  /** The links after q, the last slot left of p, has been given both subtrees of p. */
  function Splice(m: Arrays, p: nat, q: nat): (m': Arrays)
    requires m.Sized() && p < N && q < N && m.left[p] <= N && m.right[p] <= N
    requires m.left[q] <= N && (q != m.left[p] ==> m.dad[q] < N)
    ensures m'.Sized()
  {
    if q == m.left[p] then
      Arrays(m.left, m.right[q := m.right[p]], m.dad[m.right[p] := q])
    else
      Arrays(m.left[q := m.left[p]],
             m.right[m.dad[q] := m.left[q]][q := m.right[p]],
             m.dad[m.left[q] := m.dad[q]][m.left[p] := q][m.right[p] := q])
  }

  /** The links after the only remaining subtree, at q, has been hung in the place of p. */
  function Bypass(m: Arrays, p: nat, q: nat): (m': Arrays)
    requires m.Sized() && p < N && q <= N && q != p
    requires m.dad[p] < N + 257 && (m.dad[p] > N ==> m.right[m.dad[p]] == p)
    ensures m'.Sized()
  {
    var o := m.dad[p];
    var dad := m.dad[q := o][p := NIL];
    if m.right[o] == p then Arrays(m.left, m.right[o := q], dad)
    else Arrays(m.left[o := q], m.right, dad)
  }

  lemma SpliceLeft(m: Arrays, s: Bst, p: nat, o: nat)
    requires m.Sized() && s.Node? && s.left.Node? && s.right.Node? && Linked(m, s, p, o) && Distinct(s)
    ensures p < N && m.left[p] <= N && m.right[p] <= N && Last(s.left) < N && m.left[Last(s.left)] <= N
    ensures var q := Last(s.left);
            (q != m.left[p] ==> m.dad[q] < N) &&
            var m' := Splice(m, p, q);
            Linked(m', WithoutLast(s.left), m'.left[q], q)
  {
    var a, c := s.left, s.right;
    var q := Last(a);
    LinkedSlots(m, s, p, o);
    LastLinks(m, a, m.left[p], p);
    assert c.slot in Slots(c) && a.slot in Slots(a);
    var m' := Splice(m, p, q);
    if a.right.Leaf? {
      Frame(m, m', a.left, m.left[q], q);
    } else {
      assert LastTaken(m, m', a, q, m.left[p], q);
      TakeLast(m, m', a, m.left[p], p, q);
    }
  }

  lemma SpliceRight(m: Arrays, s: Bst, p: nat, o: nat)
    requires m.Sized() && s.Node? && s.left.Node? && s.right.Node? && Linked(m, s, p, o) && Distinct(s)
    ensures p < N && m.left[p] <= N && m.right[p] <= N && Last(s.left) < N && m.left[Last(s.left)] <= N
    ensures var q := Last(s.left);
            (q != m.left[p] ==> m.dad[q] < N) &&
            var m' := Splice(m, p, q);
            Linked(m', s.right, m'.right[q], q)
  {
    var a, c := s.left, s.right;
    var q := Last(a);
    LinkedSlots(m, s, p, o);
    LastLinks(m, a, m.left[p], p);
    assert c.slot in Slots(c) && a.slot in Slots(a);
    var m' := Splice(m, p, q);
    Reparent(m, m', c, m.right[p], p, q);
  }

  /** Outside the subtree, and at p itself, splicing changes nothing. */
  lemma SpliceElsewhere(m: Arrays, s: Bst, p: nat, o: nat, k: nat)
    requires m.Sized() && s.Node? && s.left.Node? && s.right.Node? && Linked(m, s, p, o) && Distinct(s)
    requires k < N && (k !in Slots(s) || k == p)
    ensures p < N && m.left[p] <= N && m.right[p] <= N && Last(s.left) < N && m.left[Last(s.left)] <= N
    ensures var q := Last(s.left);
            (q != m.left[p] ==> m.dad[q] < N) && AgreeOn(m, Splice(m, p, q), k)
  {
    LinkedSlots(m, s, p, o);
    LastLinks(m, s.left, m.left[p], p);
    assert s.left.slot in Slots(s.left) && s.right.slot in Slots(s.right);
  }

  // ----- deleteNode as a whole

  lemma {:induction false} WithoutLastSlots(t: Bst)
    requires t.Node? && Distinct(t)
    ensures Last(t) in Slots(t) && Slots(WithoutLast(t)) == Slots(t) - {Last(t)} && Distinct(WithoutLast(t))
  {
    if t.right.Node? { WithoutLastSlots(t.right); }
  }

  lemma JoinSlots(a: Bst, c: Bst)
    requires Distinct(a) && Distinct(c) && Slots(a) !! Slots(c)
    ensures Slots(Join(a, c)) == Slots(a) + Slots(c) && Distinct(Join(a, c))
  {
    if a.Node? && c.Node? { WithoutLastSlots(a); }
  }

  /** m' is m with only links inside s changed, such that what takes the place of p in it is
      complete but for its parent; q is its root. */
  ghost predicate Ready(m: Arrays, m': Arrays, s: Bst, p: nat, q: nat)
    requires m.Sized() && m'.Sized() && s.Node?
  {
    match Join(s.left, s.right)
    case Leaf => q == NIL && Untouched(m, m', s, p)
    case Node(a, slot, c) =>
      q == slot && q < N && Linked(m', a, m'.left[q], q) && Linked(m', c, m'.right[q], q) && Untouched(m, m', s, p)
  }

  ghost predicate Untouched(m: Arrays, m': Arrays, s: Bst, p: nat)
    requires m.Sized() && m'.Sized()
  {
    (forall k | 0 <= k < N && (k !in Slots(s) || k == p) :: AgreeOn(m, m', k)) &&
    (forall b: byte :: m'.right[Root(b)] == m.right[Root(b)])
  }

  lemma ReadyOne(m: Arrays, s: Bst, p: nat, o: nat)
    requires m.Sized() && s.Node? && Linked(m, s, p, o) && (s.left.Leaf? || s.right.Leaf?)
    ensures p < N && Ready(m, m, s, p, if m.right[p] == NIL then m.left[p] else m.right[p])
  {
    assert Untouched(m, m, s, p);
  }

  lemma ReadyTwo(m: Arrays, s: Bst, p: nat, o: nat)
    requires m.Sized() && s.Node? && Linked(m, s, p, o) && Distinct(s) && s.left.Node? && s.right.Node?
    ensures p < N && m.left[p] <= N && m.right[p] <= N && Last(s.left) < N && m.left[Last(s.left)] <= N
    ensures var q := Last(s.left);
            (q != m.left[p] ==> m.dad[q] < N) && Ready(m, Splice(m, p, q), s, p, q)
  {
    SpliceLeft(m, s, p, o);
    SpliceRight(m, s, p, o);
    var m' := Splice(m, p, Last(s.left));
    assert Untouched(m, m', s, p) by {
      LastLinks(m, s.left, m.left[p], p);
      forall k: nat | k < N && (k !in Slots(s) || k == p) ensures AgreeOn(m, m', k) {
        SpliceElsewhere(m, s, p, o, k);
      }
    }
  }

  /** The bypass completes the subtree that takes the place of p, below p's parent. */
  lemma BypassLinked(m: Arrays, m1: Arrays, s: Bst, p: nat, o: nat, q: nat)
    requires m.Sized() && m1.Sized() && s.Node? && Linked(m, s, p, o) && Distinct(s) && Ready(m, m1, s, p, q)
    requires o < N + 257 && o != N && o !in Slots(s) && (o > N ==> m1.right[o] == p)
    ensures p < N && q <= N && q != p && m1.dad[p] == o
    ensures Linked(Bypass(m1, p, q), Join(s.left, s.right), q, o)
  {
    JoinSlots(s.left, s.right);
    var x := Join(s.left, s.right);
    assert p in Slots(s) && AgreeOn(m, m1, p);
    if x.Node? {
      assert q in Slots(x);
      var m2 := Bypass(m1, p, q);
      forall k | k in Slots(x) && k < N && k != q ensures AgreeOn(m1, m2, k) {
      }
      Frame(m1, m2, x.left, m1.left[q], q);
      Frame(m1, m2, x.right, m1.right[q], q);
    }
  }

  /** Every slot of a linked tree has a parent. */
  lemma {:induction false} LinkedDads(m: Arrays, t: Bst, ptr: nat, par: nat)
    requires m.Sized() && Linked(m, t, ptr, par) && par != NIL
    ensures forall k | k in Slots(t) :: k < N && m.dad[k] != NIL
    decreases t
  {
    match t
    case Leaf =>
    case Node(a, p, c) =>
      LinkedDads(m, a, m.left[p], p);
      LinkedDads(m, c, m.right[p], p);
  }

  /** Every slot of the forest is reached from the root of its tree. */
  lemma Locate(text: Text, m: Arrays, trees: seq<Bst>, p: nat) returns (path: seq<bool>, right: bool)
    requires ForestOk(text, m, trees) && p < N && Held(text, trees, p)
    ensures var b := text[p]; var t := trees[b]; var s := Sub(t, path);
            s.Node? && s.slot == p && Reached(m, t, b, path, m.dad[p], right) &&
            Delete(t, p) == Put(t, path, Join(s.left, s.right))
    ensures var s := Sub(trees[text[p]], path);
            Linked(m, s, p, m.dad[p]) && Distinct(s) &&
            (s.left.Leaf? <==> m.left[p] == NIL) && (s.right.Leaf? <==> m.right[p] == NIL)
  {
    path, right := LocateIn(text, m, trees, p);
    var s := Sub(trees[text[p]], path);
    assert TreeOk(text, m, trees[text[p]], text[p]);
    OwnerPlace(text, m, trees[text[p]], text[p], path, m.dad[p], right);
    NoSon(m, s, p, m.dad[p]);
  }

  lemma NoSon(m: Arrays, s: Bst, p: nat, o: nat)
    requires m.Sized() && s.Node? && Linked(m, s, p, o)
    ensures p < N && (s.left.Leaf? <==> m.left[p] == NIL) && (s.right.Leaf? <==> m.right[p] == NIL)
  {
  }

  lemma LocateIn(text: Text, m: Arrays, trees: seq<Bst>, p: nat) returns (path: seq<bool>, right: bool)
    requires ForestOk(text, m, trees) && p < N && Held(text, trees, p)
    ensures var b := text[p]; var t := trees[b]; var s := Sub(t, path);
            s.Node? && s.slot == p && Reached(m, t, b, path, m.dad[p], right) &&
            Delete(t, p) == Put(t, path, Join(s.left, s.right))
  {
    var b := text[p];
    var t := trees[b];
    assert TreeOk(text, m, t, b);
    OrderedDistinct(text, t);
    path := PathTo(t, p);
    if path == [] {
      right := true;
    } else {
      right := path[|path| - 1];
      LinkedAt(m, t, m.right[Root(b)], Root(b), path);
    }
  }

  lemma DeleteLinked(text: Text, m: Arrays, m1: Arrays, t: Bst, b: byte, path: seq<bool>, right: bool, p: nat, q: nat)
    requires m.Sized() && m1.Sized() && TreeOk(text, m, t, b) && p < N
    requires Reached(m, t, b, path, m.dad[p], right) && Sub(t, path).Node? && Sub(t, path).slot == p
    requires Ready(m, m1, Sub(t, path), p, q)
    ensures var o := m.dad[p];
            q <= N && q != p && m1.dad[p] == o && o < N + 257 && (o > N ==> m1.right[o] == p)
    ensures var m2, s := Bypass(m1, p, q), Sub(t, path);
            Linked(m2, Put(t, path, Join(s.left, s.right)), m2.right[Root(b)], Root(b))
  {
    var o, s := m.dad[p], Sub(t, path);
    OwnerPlace(text, m, t, b, path, o, right);
    assert p in Slots(s) && AgreeOn(m, m1, p);
    assert m1.right[Root(b)] == m.right[Root(b)];
    BypassLinked(m, m1, s, p, o, q);
    JoinSlots(s.left, s.right);
    if path != [] {
      if !right { SiblingDiffers(m, t, m.right[Root(b)], Root(b), path); }
      assert AgreeOn(m, m1, o);
      BypassOutside(m, m1, s, p, q, Slots(t) - Slots(s), right);
      Graft(m, Bypass(m1, p, q), t, m.right[Root(b)], Root(b), path, Join(s.left, s.right), q);
    }
  }

  lemma BypassOutside(m: Arrays, m1: Arrays, s: Bst, p: nat, q: nat, outside: set<nat>, right: bool)
    requires m.Sized() && m1.Sized() && s.Node? && p in Slots(s) && p < N && q <= N && q != p
    requires Untouched(m, m1, s, p) && outside !! Slots(s) && (q < N ==> q in Slots(s))
    requires m.dad[p] < N && m.dad[p] !in Slots(s) && (right <==> m.right[m.dad[p]] == p)
    ensures m1.dad[p] == m.dad[p] && OnlyLinkChanged(m, Bypass(m1, p, q), outside, m.dad[p], right, q)
  {
    assert AgreeOn(m, m1, p) && AgreeOn(m, m1, m.dad[p]);
    forall k: nat | k in outside && k < N ensures AgreeOn(m, m1, k) {
    }
  }

  /** deleteNode: p leaves the forest, and every other slot stays where the order wants it. */
  lemma DeleteOk(text: Text, m: Arrays, m1: Arrays, trees: seq<Bst>, path: seq<bool>, right: bool, p: nat, q: nat)
    requires ForestOk(text, m, trees) && m1.Sized() && p < N && Held(text, trees, p)
    requires var t := trees[text[p]]; var s := Sub(t, path);
             Reached(m, t, text[p], path, m.dad[p], right) && s.Node? && s.slot == p &&
             Ready(m, m1, s, p, q) && Delete(t, p) == Put(t, path, Join(s.left, s.right))
    ensures var o := m.dad[p];
            q <= N && q != p && m1.dad[p] == o && o < N + 257 && (o > N ==> m1.right[o] == p)
    ensures var b := text[p];
            ForestOk(text, Bypass(m1, p, q), trees[b := Delete(trees[b], p)])
  {
    var b := text[p];
    var t := trees[b];
    var t', s := Delete(t, p), Sub(t, path);
    assert TreeOk(text, m, t, b);
    OwnerPlace(text, m, t, b, path, m.dad[p], right);
    DeleteLinked(text, m, m1, t, b, path, right, p, q);
    DeleteOrdered(text, t, p);
    var m2 := Bypass(m1, p, q);
    LinkedDads(m2, t', m2.right[Root(b)], Root(b));
    JoinSlots(s.left, s.right);
    DeleteElsewhere(text, m, m1, trees, s, p, q);
    ForestChanged(text, m, m2, trees, b, t');
  }

  lemma DeleteElsewhere(text: Text, m: Arrays, m1: Arrays, trees: seq<Bst>, s: Bst, p: nat, q: nat)
    requires ForestOk(text, m, trees) && m1.Sized() && p < N && s.Node? && p in Slots(s)
    requires Slots(s) <= Slots(trees[text[p]]) && q <= N && q != p && (q < N ==> q in Slots(s))
    requires var o := m.dad[p];
             m1.dad[p] == o && o < N + 257 && (o > N ==> m1.right[o] == p && o == Root(text[p])) &&
             (o < N ==> o in Slots(trees[text[p]]))
    requires Untouched(m, m1, s, p)
    ensures Confined(text, m, Bypass(m1, p, q), text[p])
    ensures forall k | 0 <= k < N && text[k] == text[p] && k !in Slots(trees[text[p]]) ::
              Bypass(m1, p, q).dad[k] == NIL
  {
    assert TreeOk(text, m, trees[text[p]], text[p]);
    forall k: nat | k < N && k !in Slots(trees[text[p]])
      ensures AgreeOn(m, Bypass(m1, p, q), k)
      ensures text[k] == text[p] ==> m.dad[k] == NIL
    {
      assert AgreeOn(m, m1, k);
      assert m.dad[k] != NIL <==> Held(text, trees, k);
    }
  }
}
