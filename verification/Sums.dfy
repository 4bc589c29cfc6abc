/** Sums of sequences. */
module Sums {

  function Sum(s: seq<nat>): nat {
    if s == [] then 0 else s[0] + Sum(s[1..])
  }

  lemma {:induction false} SumConcat(a: seq<nat>, b: seq<nat>)
    ensures Sum(a + b) == Sum(a) + Sum(b)
  {
    if a == [] {
      assert a + b == b;
    } else {
      assert (a + b)[1..] == a[1..] + b;
      SumConcat(a[1..], b);
    }
  }

  /** The sum with one element taken out. */
  lemma SumWithout(s: seq<nat>, k: nat)
    requires k < |s|
    ensures Sum(s) == s[k] + Sum(s[..k] + s[k + 1..])
  {
    assert s == s[..k] + ([s[k]] + s[k + 1..]);
    SumConcat(s[..k], [s[k]] + s[k + 1..]);
    SumConcat(s[..k], s[k + 1..]);
    assert ([s[k]] + s[k + 1..])[1..] == s[k + 1..];
  }

  /** The sum after one element is replaced. */
  lemma SumUpdate(s: seq<nat>, k: nat, x: nat)
    requires k < |s|
    ensures Sum(s[k := x]) + s[k] == Sum(s) + x
  {
    SumWithout(s, k);
    SumWithout(s[k := x], k);
    assert s[k := x][..k] == s[..k] && s[k := x][k + 1..] == s[k + 1..];
  }

  lemma {:induction false} SumOnes(n: nat)
    ensures Sum(seq(n, _ => 1)) == n
  {
    if n > 0 {
      assert seq(n, _ => 1)[1..] == seq(n - 1, _ => 1);
      SumOnes(n - 1);
    }
  }

  ghost predicate NoDup(s: seq<nat>) {
    forall a, b | 0 <= a < b < |s| :: s[a] != s[b]
  }

  /** s lists the n numbers base, base+1, ... and nothing else, each once. */
  ghost predicate Lists(s: seq<nat>, base: nat, n: nat) {
    NoDup(s) &&
    (forall m | 0 <= m < |s| :: base <= s[m] < base + n) &&
    (forall x: nat | base <= x < base + n :: x in s)
  }

  /** Taking the largest number out of such a list. */
  lemma DropLargest(s: seq<nat>, base: nat, n: nat) returns (m: nat)
    requires Lists(s, base, n) && n > 0
    ensures m < |s| && s[m] == base + n - 1
    ensures Lists(s[..m] + s[m + 1..], base, n - 1)
  {
    assert base + (n - 1) in s;
    m :| 0 <= m < |s| && s[m] == base + (n - 1);
    var s' := s[..m] + s[m + 1..];
    forall x: nat | base <= x < base + (n - 1) ensures x in s' {
      assert x in s;
      var a :| 0 <= a < |s| && s[a] == x;
      assert s'[if a < m then a else a - 1] == x;
    }
  }

  /** The sum of values attached to the listed numbers does not depend on their order. */
  lemma {:induction false} SumPermuted(f: seq<nat>, s: seq<nat>, g: seq<nat>, base: nat)
    requires |f| == |s| == |g| && Lists(s, base, |g|)
    requires forall m | 0 <= m < |s| :: f[m] == g[s[m] - base]
    ensures Sum(f) == Sum(g)
  {
    if |g| > 0 {
      var n := |g| - 1;
      var m := DropLargest(s, base, |g|);
      SumWithout(f, m);
      SumWithout(g, n);
      assert g[..n] + g[n + 1..] == g[..n];
      SumPermuted(f[..m] + f[m + 1..], s[..m] + s[m + 1..], g[..n], base);
    } else {
      assert f == g;
    }
  }

  lemma {:induction false} LengthOfPermutation(s: seq<nat>, base: nat, n: nat)
    requires Lists(s, base, n)
    ensures |s| == n
  {
    if n > 0 {
      var m := DropLargest(s, base, n);
      LengthOfPermutation(s[..m] + s[m + 1..], base, n - 1);
    } else if |s| > 0 {
      RangeNotEmpty(s, base, n, 0);
    }
  }

  lemma RangeNotEmpty(s: seq<nat>, base: nat, n: nat, m: nat)
    requires Lists(s, base, n) && m < |s|
    ensures n > 0
  {
    assert base <= s[m] < base + n;
  }
}
