/** The match finder: the ring buffer of text and the search forest over its slots. */
module MatchFinder {
  import opened Bits
  import opened Constants
  import opened Keys
  import opened Forest
  import opened Links
  import opened ForestUpdates
  import opened ForestDeletion

  class Finder {
    const textBuf: array<byte>
    const lSon: array<nat>
    const rSon: array<nat>
    const dad: array<nat>
    var matchPosition: int
    var matchLength: nat
    ghost var trees: seq<Bst>

    predicate Allocated() {
      textBuf.Length == TEXT && lSon.Length == N + 1 && rSon.Length == N + 257 && dad.Length == N + 1 &&
      lSon != rSon && lSon != dad && rSon != dad && textBuf as object !in {lSon as object, rSon, dad}
    }

    ghost function Window(): Text
      requires Allocated()
      reads textBuf
    {
      textBuf[..]
    }

    ghost function Links(): Arrays
      requires Allocated()
      reads lSon, rSon, dad
      ensures Links().Sized()
    {
      Arrays(lSon[..], rSon[..], dad[..])
    }

    ghost predicate Valid()
      reads this, textBuf, lSon, rSon, dad
    {
      Allocated() && ForestOk(Window(), Links(), trees)
    }

    constructor ()
      ensures Allocated() && fresh(textBuf) && fresh(lSon) && fresh(rSon) && fresh(dad)
      ensures forall i | 0 <= i < TEXT :: textBuf[i] == 0
    {
      textBuf := new byte[TEXT](_ => 0);
      lSon := new nat[N + 1](_ => 0);
      rSon := new nat[N + 257](_ => 0);
      dad := new nat[N + 1](_ => 0);
      matchPosition, matchLength := 0, 0;
      trees := [];
    }

    method InitTree()
      requires Allocated()
      modifies this`trees, rSon, dad
      ensures Valid() && trees == seq(256, _ => Leaf)
    {
      for i := N + 1 to N + 257
        invariant forall k | N < k < i :: rSon[k] == NIL
      {
        rSon[i] := NIL;
      }
      for i := 0 to N
        invariant forall k | 0 <= k < i :: dad[k] == NIL
        invariant forall k | N < k < N + 257 :: rSon[k] == NIL
      {
        dad[i] := NIL;
      }
      trees := seq(256, _ => Leaf);
      forall b: byte ensures TreeOk(Window(), Links(), trees[b], b) {
        assert rSon[Root(b)] == NIL;
      }
    }

    /** The inner loop of insertNode: how many bytes r and p have in common. */
    method CountCommon(r: nat, p: nat) returns (i: nat)
      requires Allocated() && r < N && p < N && textBuf[r] == textBuf[p]
      ensures i == Common(KeyAt(Window(), r), KeyAt(Window(), p)) && i >= 1
      ensures i < F ==> textBuf[r + i] == KeyAt(Window(), r)[i] && textBuf[p + i] == KeyAt(Window(), p)[i]
    {
      ghost var a, b := KeyAt(Window(), r), KeyAt(Window(), p);
      assert a[0] == b[0];
      i := 1;
      while i < F && textBuf[r + i] == textBuf[p + i]
        invariant 1 <= i <= F && Lcp(a, b, i) == Common(a, b)
      {
        assert a[i] == textBuf[r + i] && b[i] == textBuf[p + i];
        i := i + 1;
      }
      if i < F { assert a[i] == textBuf[r + i] && b[i] == textBuf[p + i]; }
    }

    /** The comparison of the match at p with the best so far; true when it is a full match. */
    method KeepBest(r: nat, p: nat, i: nat) returns (full: bool)
      requires i <= F && matchLength < F
      modifies this`matchPosition, this`matchLength
      ensures Best(matchLength, matchPosition) == old(Improve(Best(matchLength, matchPosition), i, Back(r, p)))
      ensures full == (i == F) && (!full ==> matchLength < F)
    {
      full := false;
      if i > THRESHOLD {
        if i > matchLength {
          matchPosition := (r - p) % N - 1;
          matchLength := i;
          if matchLength >= F { return true; }
        }
        if i == matchLength {
          var c := (r - p) % N - 1;
          if c < matchPosition { matchPosition := c; }
        }
      }
    }

    /** The walk of insertNode: it ends at a free place (full is false), or at a slot with the key
        of r (full is true); p is the node above that place, on its right or left. */
    method Descend(r: nat) returns (p: nat, right: bool, full: bool, ghost path: seq<bool>, ghost best: Best)
      requires Valid() && r < N
      modifies this`matchPosition, this`matchLength
      ensures var t := trees[textBuf[r]];
              Walking(Window(), Links(), t, r, Best(0, old(matchPosition)), Walk(path, p, right, best))
      ensures var s := Sub(trees[textBuf[r]], path);
              full == s.Node? && (full ==> s.slot < N && Common(KeyAt(Window(), r), KeyAt(Window(), s.slot)) == F)
      ensures Best(matchLength, matchPosition) ==
              if full then Improve(best, F, Back(r, Sub(trees[textBuf[r]], path).slot)) else best
    {
      ghost var text, m, t, best0 := Window(), Links(), trees[textBuf[r]], Best(0, matchPosition);
      WalkBegins(text, m, trees, r, matchPosition);
      p := N + 1 + textBuf[r];
      matchLength := 0;
      right, full, path, best := true, false, [], best0;
      WalkPlace(text, m, t, r, best0, Walk(path, p, right, best));
      while (if right then rSon[p] else lSon[p]) != NIL
        invariant p < N + 257 && (p >= N ==> right) && !full
        invariant Walking(text, m, t, r, best0, Walk(path, p, right, best))
        invariant best == Best(matchLength, matchPosition) && matchLength < F
        decreases Sub(t, path)
      {
        WalkPlace(text, m, t, r, best0, Walk(path, p, right, best));
        var q := if right then rSon[p] else lSon[p];
        var i := CountCommon(r, q);
        full := KeepBest(r, q, i);
        if full { break; }
        var right' := textBuf[r + i] >= textBuf[q + i];
        ghost var best' := Best(matchLength, matchPosition);
        WalkOn(text, m, t, r, best0, Walk(path, p, right, best), right', best');
        StepInto(t, path, right', Leaf);
        p, right, path, best := q, right', path + [right'], best';
        WalkPlace(text, m, t, r, best0, Walk(path, p, right, best));
      }
      WalkPlace(text, m, t, r, best0, Walk(path, p, right, best));
    }
  
    /** Slot r takes over the links of slot p, which is left without a parent. */
    method TakeOver(p: nat, r: nat)
      requires Allocated() && p < N && r < N && lSon[p] <= N && rSon[p] <= N && p != r
      requires lSon[p] != p && rSon[p] != p && lSon[p] != r && rSon[p] != r && dad[p] != r
      requires dad[p] < N + 257 && (dad[p] > N ==> rSon[dad[p]] == p)
      modifies lSon, rSon, dad
      ensures Links() == Replace(old(Links()), p, r)
    {
      dad[r] := dad[p];
      lSon[r] := lSon[p];
      rSon[r] := rSon[p];
      dad[lSon[p]] := r;
      dad[rSon[p]] := r;
      if rSon[dad[p]] == p {
        rSon[dad[p]] := r;
      } else {
        lSon[dad[p]] := r;
      }
      dad[p] := NIL;
    }

    /** A slot outside the forest is entered. It is matched against every slot that starts with the
        same byte, by walking down one branch only. */
    method InsertNode(r: nat)
      requires Valid() && r < N && !Held(Window(), trees, r)
      modifies this`matchPosition, this`matchLength, this`trees, lSon, rSon, dad
      ensures Valid()
      ensures var b, was := textBuf[r], old(trees);
              Ordered(Window(), was[b]) && trees == was[b := Insert(Window(), was[b], r)] &&
              Best(matchLength, matchPosition) == Search(Window(), was[b], r, Best(0, old(matchPosition)))
    {
      ghost var text, m0, b, was, pos := Window(), Links(), textBuf[r], trees, matchPosition;
      FreshOk(text, m0, trees, r);
      rSon[r] := NIL;
      lSon[r] := NIL;
      assert Links() == Fresh(m0, r);
      ghost var m := Links();
      var p, right, full;
      ghost var path, best;
      p, right, full, path, best := Descend(r);
      ghost var at := Walk(path, p, right, best);
      WalkPlace(text, m, was[b], r, Best(0, pos), at);
      WalkEnds(text, m, was[b], r, Best(0, pos), at);
      if !full {
        AttachOk(text, m, was, path, p, right, r);
        if right { rSon[p] := r; } else { lSon[p] := r; }
        dad[r] := p;
        assert Links() == Attach(m, p, right, r);
      } else {
        var q := if right then rSon[p] else lSon[p];
        ReplaceOk(text, m, was, path, p, right, r);
        ReplacePlace(text, m, was, path, p, right, b);
        TakeOver(q, r);
      }
      trees := was[b := Insert(text, was[b], r)];
    }

    // ----- deleteNode

    /** The last slot of the tree a, by following right links from its root. */
    method FindLast(root: nat, ghost a: Bst, ghost par: nat) returns (q: nat)
      requires Allocated() && a.Node? && Linked(Links(), a, root, par)
      ensures q == Last(a) && q < N
    {
      q := root;
      ghost var t, up := a, par;
      while rSon[q] != NIL
        invariant t.Node? && Linked(Links(), t, q, up) && q < N && Last(t) == Last(a)
        decreases t
      {
        t, up := t.right, q;
        q := rSon[q];
      }
    }

    /** The last slot left of p takes over both subtrees of p. */
    method SpliceNode(p: nat, ghost s: Bst, ghost o: nat) returns (q: nat)
      requires Allocated() && s.Node? && s.left.Node? && s.right.Node? && Distinct(s)
      requires Linked(Links(), s, p, o)
      modifies lSon, rSon, dad
      ensures old(var m := Links(); p < N && m.left[p] <= N && m.right[p] <= N && Last(s.left) < N && m.left[Last(s.left)] <= N)
      ensures q == Last(s.left)
      ensures old(var m := Links(); Last(s.left) != m.left[p] ==> m.dad[Last(s.left)] < N)
      ensures Links() == old(Splice(Links(), p, Last(s.left)))
    {
      ReadyTwo(Links(), s, p, o);
      LastLinks(Links(), s.left, lSon[p], p);
      q := FindLast(lSon[p], s.left, p);
      if q != lSon[p] {
        rSon[dad[q]] := lSon[q];
        dad[lSon[q]] := dad[q];
        lSon[q] := lSon[p];
        dad[lSon[p]] := q;
      }
      rSon[q] := rSon[p];
      dad[rSon[p]] := q;
    }

    method BypassNode(p: nat, q: nat)
      requires Allocated() && p < N && q <= N && q != p && dad[p] < N + 257 && (dad[p] > N ==> rSon[dad[p]] == p)
      modifies lSon, rSon, dad
      ensures Links() == Bypass(old(Links()), p, q)
    {
      dad[q] := dad[p];
      if rSon[dad[p]] == p {
        rSon[dad[p]] := q;
      } else {
        lSon[dad[p]] := q;
      }
      dad[p] := NIL;
    }

    /** Slot p leaves the forest, if it is in it. */
    method DeleteNode(p: nat)
      requires Valid() && p < N
      modifies this`trees, lSon, rSon, dad
      ensures Valid() && trees == old(trees[textBuf[p] := Delete(trees[textBuf[p]], p)])
    {
      ghost var text, m, b := Window(), Links(), textBuf[p];
      assert m.dad[p] != NIL <==> Held(text, trees, p);
      if dad[p] == NIL {
        DeleteAbsent(trees[b], p);
        assert trees[b := trees[b]] == trees;
        return;
      }
      ghost var path, right := Locate(text, m, trees, p);
      ghost var s := Sub(trees[b], path);
      var q;
      if rSon[p] == NIL || lSon[p] == NIL {
        ReadyOne(m, s, p, dad[p]);
        q := if rSon[p] == NIL then lSon[p] else rSon[p];
      } else {
        ReadyTwo(m, s, p, dad[p]);
        q := SpliceNode(p, s, dad[p]);
      }
      DeleteOk(text, m, Links(), trees, path, right, p, q);
      BypassNode(p, q);
      trees := trees[b := Delete(trees[b], p)];
    }
  }

  lemma {:induction false} DeleteAbsent(t: Bst, p: nat)
    requires p !in Slots(t)
    ensures Delete(t, p) == t
  {
    if t.Node? { DeleteAbsent(t.right, p); }
  }
}
