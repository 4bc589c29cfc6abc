/** The 60-byte keys by which the match finder orders the slots of its window. */
module Keys {
  import opened Bits
  import opened Constants

  type Key = k: seq<byte> | |k| == F witness seq(F, _ => 0)

  /** How many bytes a and b have in common, the first i being equal. */
  function Lcp(a: Key, b: Key, i: nat): (n: nat)
    requires i <= F
    ensures i <= n <= F
    ensures forall k | i <= k < n :: a[k] == b[k]
    ensures n < F ==> a[n] != b[n]
    decreases F - i
  {
    if i < F && a[i] == b[i] then Lcp(a, b, i + 1) else i
  }

  function Common(a: Key, b: Key): (n: nat)
    ensures n <= F
  {
    Lcp(a, b, 0)
  }

  predicate Less(a: Key, b: Key) {
    var n := Common(a, b);
    n < F && a[n] < b[n]
  }

  /** A common prefix that ends in a mismatch, or is full, is the longest one. */
  lemma {:induction false} LcpIs(a: Key, b: Key, i: nat, n: nat)
    requires i <= n <= F
    requires forall k | i <= k < n :: a[k] == b[k]
    requires n < F ==> a[n] != b[n]
    ensures Lcp(a, b, i) == n
    decreases F - i
  {
    if i < n {
      assert a[i] == b[i];
      LcpIs(a, b, i + 1, n);
    }
  }

  lemma CommonSymmetric(a: Key, b: Key)
    ensures Common(a, b) == Common(b, a)
  {
    LcpIs(b, a, 0, Common(a, b));
  }

  lemma SameKey(a: Key, b: Key)
    ensures Common(a, b) == F <==> a == b
  {
    if a == b { LcpIs(a, b, 0, F); }
    if Common(a, b) == F { assert a == b; }
  }

  lemma LessTotal(a: Key, b: Key)
    ensures !(Less(a, b) && Less(b, a)) && (Less(a, b) ==> a != b)
    ensures Less(a, b) || Less(b, a) || a == b
  {
    CommonSymmetric(a, b);
    SameKey(a, b);
  }

  /** Of three keys in order, the outer two agree no further than either agrees with the middle. */
  lemma Between(a: Key, b: Key, c: Key)
    requires Less(a, b) && Less(b, c)
    ensures Less(a, c)
    ensures Common(a, c) <= Common(a, b) && Common(a, c) <= Common(b, c)
  {
    var m, n := Common(a, b), Common(b, c);
    var k := if m < n then m else n;
    assert forall i | 0 <= i < k :: a[i] == b[i] == c[i];
    LcpIs(a, c, 0, k);
  }
}
