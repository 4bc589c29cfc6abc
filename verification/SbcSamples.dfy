/** What SBC's encoder makes of the subband samples before it writes them: scale factors, the coupling
    of two channels, and quantised codes. */
module SbcSamples {
  import opened Bits
  import opened SbcFrames

  // ----- the highest bit

  /** The place of the highest one bit. */
  function TopBit(m: nat): nat { if m < 2 then 0 else 1 + TopBit(m / 2) }

  lemma {:induction false} TopBitIs(m: nat)
    ensures m < Pow2(TopBit(m) + 1) && (m > 0 ==> m >= Pow2(TopBit(m)))
  {
    if m >= 2 { TopBitIs(m / 2); }
  }

  lemma {:induction false} TopBitOnly(m: nat, k: nat)
    requires Pow2(k) <= m < Pow2(k + 1)
    ensures TopBit(m) == k
  {
    if k > 0 { TopBitOnly(m / 2, k - 1); }
  }

  lemma {:induction false} TopBitShifted(m: nat, k: nat)
    requires m > 0
    ensures TopBit(m * Pow2(k)) == TopBit(m) + k && m * Pow2(k) > 0
  {
    if k > 0 {
      TopBitShifted(m, k - 1);
      assert m * Pow2(k) == 2 * (m * Pow2(k - 1));
    } else {
      assert m * 1 == m;
    }
  }

  function Max(a: nat, b: nat): nat { if a < b then b else a }

  lemma {:induction false} TopBitOr(x: nat, y: nat)
    ensures TopBit(BitOr(x, y)) == Max(TopBit(x), TopBit(y))
  {
    if x >= 2 || y >= 2 {
      TopBitOr(x / 2, y / 2);
      assert BitOr(x, y) / 2 == BitOr(x / 2, y / 2);
      if BitOr(x, y) < 2 { OrOfAny(x / 2, y / 2); }
      TopBitHalf(x);
      TopBitHalf(y);
    }
  }

  lemma {:induction false} OrOfAny(x: nat, y: nat)
    requires x > 0 || y > 0
    ensures BitOr(x, y) > 0
  {
    if x % 2 == 0 && y % 2 == 0 { OrOfAny(x / 2, y / 2); }
  }

  lemma TopBitHalf(x: nat)
    ensures TopBit(x / 2) == if TopBit(x) > 0 then TopBit(x) - 1 else 0
  {
  }

  lemma Moved(value: nat, k: nat, factor: nat)
    requires value > 0 && factor == Pow2(k)
    ensures TopBit(value * factor) == TopBit(value) + k
  {
    TopBitShifted(value, k);
  }

  method CountLeadingZeros(value0: nat) returns (count: nat)
    requires value0 < 0x1_0000_0000
    ensures value0 == 0 ==> count == 32
    ensures value0 > 0 ==> 31 - count == TopBit(value0)
  {
    if value0 == 0 { return 32; }
    var value: nat := value0;
    count := 0;
    Pow2At8And16();
    Pow2At31();
    if value < 0x1_0000 { Moved(value, 16, 0x1_0000); count, value := count + 16, value * 0x1_0000; }
    if value < 0x100_0000 { Moved(value, 8, 0x100); count, value := count + 8, value * 0x100; }
    if value < 0x1000_0000 { Moved(value, 4, 0x10); count, value := count + 4, value * 0x10; }
    if value < 0x4000_0000 { Moved(value, 2, 4); count, value := count + 2, value * 4; }
    if value < 0x8000_0000 {
      count := count + 1;
      TopBitOnly(value, 30);
    } else {
      TopBitOnly(value, 31);
    }
  }

  // ----- scale factors

  function Abs(x: int): nat { if x < 0 then 0 - x else x }

  /** The scale factor of some samples: the place of the highest bit of any magnitude. */
  function Scale(xs: seq<int>): nat {
    if xs == [] then 0 else Max(Scale(xs[..|xs| - 1]), TopBit(Abs(xs[|xs| - 1])))
  }

  /** The scale factor is the least k, if any, for which all samples are below 2^(k+1). */
  lemma {:induction false} ScaleIs(xs: seq<int>)
    ensures forall k | 0 <= k < |xs| :: Abs(xs[k]) < Pow2(Scale(xs) + 1)
    ensures Scale(xs) > 0 ==> exists k :: 0 <= k < |xs| && Abs(xs[k]) >= Pow2(Scale(xs))
  {
    if xs != [] {
      var front, last := xs[..|xs| - 1], xs[|xs| - 1];
      ScaleIs(front);
      TopBitIs(Abs(last));
      Pow2Monotone(Scale(front) + 1, Scale(xs) + 1);
      Pow2Monotone(TopBit(Abs(last)) + 1, Scale(xs) + 1);
      if Scale(xs) == Scale(front) && Scale(xs) > 0 {
        var k :| 0 <= k < |front| && Abs(front[k]) >= Pow2(Scale(front));
        assert Abs(xs[k]) >= Pow2(Scale(xs));
      }
    }
  }

  ghost predicate Within(xs: seq<int>, bound: nat) {
    forall k | 0 <= k < |xs| :: Abs(xs[k]) <= bound
  }

  /** Samples of n bits and a sign have scale factors below n. */
  lemma ScaleBelow(xs: seq<int>, n: nat)
    requires Within(xs, Pow2(n) - 1) && n > 0
    ensures Scale(xs) < n
  {
    ScaleIs(xs);
    if Scale(xs) >= n { Pow2Monotone(n, Scale(xs)); }
  }

  lemma ScaleSnoc(xs: seq<int>, x: int, m: nat)
    requires TopBit(m) == Scale(xs)
    ensures TopBit(BitOr(m, Abs(x))) == Scale(xs + [x])
  {
    TopBitOr(m, Abs(x));
    assert (xs + [x])[..|xs|] == xs;
  }

  // ----- samples by block and subband

  /** The place of a block's subband. */
  function Index(nsb: nat, blocks: nat, blk: nat, sb: nat): (i: nat)
    requires blk < blocks && sb < nsb
    ensures i < blocks * nsb
  {
    assert blk * nsb + sb < (blk + 1) * nsb <= blocks * nsb;
    blk * nsb + sb
  }

  /** The samples of one subband. */
  function Column(samples: seq<int>, nsb: nat, blocks: nat, sb: nat): (xs: seq<int>)
    requires sb < nsb && blocks * nsb <= |samples|
    ensures |xs| == blocks
  {
    seq(blocks, blk requires 0 <= blk < blocks => samples[Index(nsb, blocks, blk, sb)])
  }

  function Plus(xs: seq<int>, ys: seq<int>): (zs: seq<int>)
    requires |xs| == |ys|
    ensures |zs| == |xs|
  {
    seq(|xs|, k requires 0 <= k < |xs| => xs[k] + ys[k])
  }

  function Minus(xs: seq<int>, ys: seq<int>): (zs: seq<int>)
    requires |xs| == |ys|
    ensures |zs| == |xs|
  {
    seq(|xs|, k requires 0 <= k < |xs| => xs[k] - ys[k])
  }

  /** 31 less the leading zeros of an "or" of magnitudes. */
  method HighBit(m: nat, ghost xs: seq<int>) returns (scf: nat)
    requires TopBit(m) == Scale(xs) && m < 0x1_0000_0000
    ensures scf == Scale(xs)
  {
    if m == 0 { return 0; }
    var n := CountLeadingZeros(m);
    scf := 31 - n;
  }

  ghost predicate Sample(x: int) { -0x8000 <= x < 0x8000 }

  ghost predicate Samples(xs: seq<int>) { forall k | 0 <= k < |xs| :: Sample(xs[k]) }

  /** The "or" of the magnitudes so far. */
  ghost predicate OrOf(m: nat, xs: seq<int>) {
    TopBit(m) == Scale(xs) && m < 0x2_0000
  }

  lemma OrSnoc(m: nat, xs: seq<int>, x: int)
    requires OrOf(m, xs) && Abs(x) < 0x2_0000
    ensures OrOf(BitOr(m, Abs(x)), xs + [x])
  {
    ScaleSnoc(xs, x, m);
    Pow2At8And16();
    assert Pow2(17) == 0x2_0000;
    BitOrBound(m, Abs(x), 17);
  }

  method ColumnScale(samples: seq<int>, nsb: nat, blocks: nat, sb: nat) returns (scf: nat)
    requires sb < nsb && blocks * nsb <= |samples| && Samples(samples)
    ensures scf == Scale(Column(samples, nsb, blocks, sb))
  {
    ghost var xs := Column(samples, nsb, blocks, sb);
    var m: nat := 0;
    for blk := 0 to blocks
      invariant OrOf(m, xs[..blk])
    {
      var sample := samples[Index(nsb, blocks, blk, sb)];
      assert Sample(sample);
      OrSnoc(m, xs[..blk], sample);
      assert xs[..blk + 1] == xs[..blk] + [sample];
      m := BitOr(m, Abs(sample));
    }
    assert xs[..blocks] == xs;
    scf := HighBit(m, xs);
  }

  /** The four scale factors of a subband of two channels: as they are, and of sums and differences. */
  method JointColumnScales(left: seq<int>, right: seq<int>, nsb: nat, blocks: nat, sb: nat)
    returns (scf0: nat, scf1: nat, js0: nat, js1: nat)
    requires sb < nsb && blocks * nsb <= |left| && blocks * nsb <= |right| && Samples(left) && Samples(right)
    ensures var xs, ys := Column(left, nsb, blocks, sb), Column(right, nsb, blocks, sb);
            scf0 == Scale(xs) && scf1 == Scale(ys) && js0 == Scale(Plus(xs, ys)) && js1 == Scale(Minus(xs, ys))
  {
    ghost var xs, ys := Column(left, nsb, blocks, sb), Column(right, nsb, blocks, sb);
    ghost var ps, ds := Plus(xs, ys), Minus(xs, ys);
    var m0: nat, m1: nat, mj0: nat, mj1: nat := 0, 0, 0, 0;
    for blk := 0 to blocks
      invariant OrOf(m0, xs[..blk]) && OrOf(m1, ys[..blk]) && OrOf(mj0, ps[..blk]) && OrOf(mj1, ds[..blk])
    {
      var s0, s1 := left[Index(nsb, blocks, blk, sb)], right[Index(nsb, blocks, blk, sb)];
      assert Sample(s0) && Sample(s1);
      OrNext(m0, xs, blk);
      OrNext(m1, ys, blk);
      OrNext(mj0, ps, blk);
      OrNext(mj1, ds, blk);
      m0, m1, mj0, mj1 := BitOr(m0, Abs(s0)), BitOr(m1, Abs(s1)), BitOr(mj0, Abs(s0 + s1)), BitOr(mj1, Abs(s0 - s1));
    }
    assert xs[..blocks] == xs && ys[..blocks] == ys && ps[..blocks] == ps && ds[..blocks] == ds;
    scf0 := HighBit(m0, xs);
    scf1 := HighBit(m1, ys);
    js0 := HighBit(mj0, ps);
    js1 := HighBit(mj1, ds);
  }

  lemma OrNext(m: nat, xs: seq<int>, k: nat)
    requires k < |xs| && OrOf(m, xs[..k]) && Abs(xs[k]) < 0x2_0000
    ensures OrOf(BitOr(m, Abs(xs[k])), xs[..k + 1])
  {
    OrSnoc(m, xs[..k], xs[k]);
    assert xs[..k + 1] == xs[..k] + [xs[k]];
  }

  // ----- codes

  lemma QuotientBounds(n: int, d: nat, k: nat)
    requires d > 0 && 0 - d * k <= n < d * k
    ensures 0 - k <= n / d < k
  {
    var q := n / d;
    assert d * q <= n < d * q + d;
    FactorLess(d, q, k);
    assert d * (0 - k) == 0 - d * k && d * (q + 1) == d * q + d;
    FactorLess(d, 0 - k, q + 1);
  }

  lemma FactorLess(d: nat, a: int, b: int)
    requires d * a < d * b
    ensures a < b
  {
    assert d * (b - a) > 0;
  }

  /** The code of a sample within its scale factor fits its bits. */
  function Code(sample: int, nbit: nat, scf: nat): (q: nat)
    requires Abs(sample) < Pow2(scf + 1)
    ensures q < Pow2(nbit)
  {
    if nbit == 0 then 0
    else
      var range: nat := Pow2(nbit) - 1;
      CodeBounds(sample, range, Pow2(scf + 1));
      ((sample * range) / Pow2(scf + 1) + range) / 2
  }

  lemma CodeBounds(sample: int, range: nat, d: nat)
    requires Abs(sample) < d && range > 0
    ensures 0 - range <= (sample * range) / d < range
  {
    assert sample * range < d * range by { Smaller(sample, d, range); }
    assert sample * range >= (0 - d) * range by { Smaller(0 - d, sample, range); }
    assert (0 - d) * range == 0 - d * range;
    QuotientBounds(sample * range, d, range);
  }

  lemma Smaller(a: int, b: int, k: nat)
    requires a < b && k > 0
    ensures a * k < b * k
  {
    assert b * k - a * k == (b - a) * k;
  }
}
