/** The bit allocation that SBC's encoder and decoder each compute from the scale factors: how many
    bits the code of each subband gets, so that one block takes exactly `bitpool` bits. */
module SbcAllocation {
  import opened Sums
  import opened SbcFrames

  // ----- bit needs

  /** No bit need is below this. */
  const LEAST_NEED := -5

  function Need(frame: Frame, sb: nat, scf: nat): (n: int)
    requires frame.frequency < 4 && sb < frame.subbands && (frame.subbands == 4 || frame.subbands == 8)
    ensures n >= LEAST_NEED
  {
    if frame.method_ == Loudness then
      var n := if scf != 0 then scf - LoudnessOffset(frame, sb) else -5;
      if n > 0 then n / 2 else n
    else scf
  }

  predicate NeedsOk(needs: seq<int>) {
    forall k | 0 <= k < |needs| :: needs[k] >= LEAST_NEED
  }

  // ----- the slicing loop

  /** The bits of a subband whose need lies d above the slice. */
  function Clamp(d: int): (n: nat)
    ensures n <= 16
  {
    if d < 2 then 0 else if d > 16 then 16 else d
  }

  function Level(needs: seq<int>, slice: int): (s: seq<nat>)
    ensures |s| == |needs|
  {
    seq(|needs|, k requires 0 <= k < |needs| => Clamp(needs[k] - slice))
  }

  /** What the slicing loop counts for a need when it takes slice bs. */
  function Gain(bn: int, bs: int): nat {
    (if bn >= bs && bn < bs + 15 then 1 else 0) + (if bn == bs then 1 else 0)
  }

  function Gains(needs: seq<int>, bs: int): (s: seq<nat>)
    ensures |s| == |needs|
  {
    seq(|needs|, k requires 0 <= k < |needs| => Gain(needs[k], bs))
  }

  lemma {:induction false} SumAdded(a: seq<nat>, b: seq<nat>, c: seq<nat>)
    requires |a| == |b| == |c| && forall k | 0 <= k < |a| :: c[k] == a[k] + b[k]
    ensures Sum(c) == Sum(a) + Sum(b)
  {
    if a != [] { SumAdded(a[1..], b[1..], c[1..]); }
  }

  /** The loop's count after slice bs is what the needs would get one slice further down than the
      slice it leaves off at. */
  lemma GainsLower(needs: seq<int>, bs: int)
    ensures Sum(Level(needs, bs - 2)) == Sum(Level(needs, bs - 1)) + Sum(Gains(needs, bs))
  {
    SumAdded(Level(needs, bs - 1), Gains(needs, bs), Level(needs, bs - 2));
  }

  lemma {:induction false} SumOfSame(s: seq<nat>, x: nat)
    requires forall k | 0 <= k < |s| :: s[k] == x
    ensures Sum(s) == x * |s|
  {
    if s != [] { SumOfSame(s[1..], x); }
  }

  /** Far enough down, every subband has its full 16 bits. */
  lemma AllFull(needs: seq<int>, slice: int)
    requires NeedsOk(needs) && slice <= LEAST_NEED - 16
    ensures Sum(Level(needs, slice)) == 16 * |needs|
  {
    SumOfSame(Level(needs, slice), 16);
  }

  lemma NoneYet(needs: seq<int>, slice: int)
    requires forall k | 0 <= k < |needs| :: needs[k] <= slice
    ensures Sum(Level(needs, slice)) == 0
  {
    SumOfSame(Level(needs, slice), 0);
  }

  /** The slice at which the loop stops: the first one below which there are enough bits. */
  function StopSlice(needs: seq<int>, pool: nat, slice: int): (s: int)
    requires NeedsOk(needs) && pool <= 16 * |needs|
    ensures s <= slice && Sum(Level(needs, s - 1)) >= pool
    ensures s < slice ==> Sum(Level(needs, s)) < pool
    decreases slice - LEAST_NEED + 16
  {
    if Sum(Level(needs, slice - 1)) >= pool then slice
    else
      assert slice - 1 > LEAST_NEED - 16 by { if slice - 1 <= LEAST_NEED - 16 { AllFull(needs, slice - 1); } }
      StopSlice(needs, pool, slice - 1)
  }

  // ----- the two repair passes

  function Extra(need: int, bit: nat, slice: int, count: nat, pool: nat): (n: nat)
    ensures n <= 2
  {
    if 0 < bit < 16 then 1 else if need == slice + 1 && pool > count + 1 then 2 else 0
  }

  /** The first pass from subband k on: one more slice, as far as the bits go. */
  function PassOne(needs: seq<int>, bits: seq<nat>, slice: int, count: nat, pool: nat, k: nat): (r: (seq<nat>, nat))
    requires |bits| == |needs| && k <= |needs|
    ensures |r.0| == |bits|
    decreases |needs| - k
  {
    if k == |needs| || count >= pool then (bits, count)
    else
      var n := Extra(needs[k], bits[k], slice, count, pool);
      PassOne(needs, bits[k := bits[k] + n], slice, count + n, pool, k + 1)
  }

  /** The second pass from subband k on: a bit to whoever has room. */
  function PassTwo(bits: seq<nat>, count: nat, pool: nat, k: nat): (r: (seq<nat>, nat))
    requires k <= |bits|
    ensures |r.0| == |bits|
    decreases |bits| - k
  {
    if k == |bits| || count >= pool then (bits, count)
    else
      var n := if bits[k] < 16 then 1 else 0;
      PassTwo(bits[k := bits[k] + n], count + n, pool, k + 1)
  }

  /** The bits of each subband; top is any slice that no need exceeds. */
  function Allocation(needs: seq<int>, pool: nat, top: int): (bits: seq<nat>)
    requires NeedsOk(needs) && pool <= 16 * |needs|
    ensures |bits| == |needs|
  {
    var slice := StopSlice(needs, pool, top);
    var bits := Level(needs, slice);
    var (one, count) := PassOne(needs, bits, slice, Sum(bits), pool, 0);
    PassTwo(one, count, pool, 0).0
  }

  // ----- the allocation is exact

  ghost predicate AtMost16(bits: seq<nat>) {
    forall k | 0 <= k < |bits| :: bits[k] <= 16
  }

  /** Every subband has what the slice gives it, and at most what the next slice down would. */
  ghost predicate Between(needs: seq<int>, bits: seq<nat>, slice: int)
    requires |bits| == |needs|
  {
    forall j | 0 <= j < |bits| :: Clamp(needs[j] - slice) <= bits[j] <= Clamp(needs[j] - (slice - 1))
  }

  /** Before the first pass is at subband k: those before k have what the next slice gives them, or
      are short of two bits of which only one is left; the others are as they were. */
  ghost predicate Passing(needs: seq<int>, bits: seq<nat>, slice: int, count: nat, pool: nat, k: nat) {
    |bits| == |needs| && k <= |needs| && count == Sum(bits) && count <= pool && AtMost16(bits) &&
    (forall j | k <= j < |bits| :: bits[j] == Clamp(needs[j] - slice)) && Between(needs, bits, slice) &&
    ((forall j | 0 <= j < k :: bits[j] == Clamp(needs[j] - (slice - 1))) || count >= pool - 1)
  }

  lemma PassOneStep(needs: seq<int>, bits: seq<nat>, slice: int, count: nat, pool: nat, k: nat)
    requires Passing(needs, bits, slice, count, pool, k) && k < |needs| && count < pool
    ensures var n := Extra(needs[k], bits[k], slice, count, pool);
            Passing(needs, bits[k := bits[k] + n], slice, count + n, pool, k + 1)
  {
    var n := Extra(needs[k], bits[k], slice, count, pool);
    SumUpdate(bits, k, bits[k] + n);
  }

  lemma PassOneEnd(needs: seq<int>, bits: seq<nat>, slice: int, count: nat, pool: nat)
    requires Passing(needs, bits, slice, count, pool, |needs|) && Sum(Level(needs, slice - 1)) >= pool
    ensures count >= pool - 1
  {
    if forall j | 0 <= j < |needs| :: bits[j] == Clamp(needs[j] - (slice - 1)) {
      assert bits == Level(needs, slice - 1);
    }
  }

  lemma {:induction false} PassOneIs(needs: seq<int>, bits: seq<nat>, slice: int, count: nat, pool: nat, k: nat)
    requires Passing(needs, bits, slice, count, pool, k) && Sum(Level(needs, slice - 1)) >= pool
    ensures var (bits', count') := PassOne(needs, bits, slice, count, pool, k);
            count' == Sum(bits') && pool - 1 <= count' <= pool && AtMost16(bits') && Between(needs, bits', slice)
    decreases |needs| - k
  {
    if k == |needs| {
      PassOneEnd(needs, bits, slice, count, pool);
    } else if count < pool {
      PassOneStep(needs, bits, slice, count, pool, k);
      var n := Extra(needs[k], bits[k], slice, count, pool);
      PassOneIs(needs, bits[k := bits[k] + n], slice, count + n, pool, k + 1);
    }
  }

  ghost predicate OneMoreAtMost(bits: seq<nat>, bits': seq<nat>) {
    bits' == bits || exists m :: 0 <= m < |bits| && bits' == bits[m := bits[m] + 1]
  }

  /** The second pass places the one bit that may be left. */
  lemma {:induction false} PassTwoIs(bits: seq<nat>, count: nat, pool: nat, k: nat)
    requires count == Sum(bits) && pool - 1 <= count <= pool <= 16 * |bits| && AtMost16(bits)
    requires k <= |bits| && (count < pool ==> forall j | 0 <= j < k :: bits[j] == 16)
    ensures var (bits', count') := PassTwo(bits, count, pool, k);
            Sum(bits') == pool && AtMost16(bits') && OneMoreAtMost(bits, bits')
    decreases |bits| - k
  {
    if count < pool {
      if k == |bits| {
        SumOfSame(bits, 16);
      } else if bits[k] < 16 {
        SumUpdate(bits, k, bits[k] + 1);
        var bits' := bits[k := bits[k] + 1];
        assert PassTwo(bits', count + 1, pool, k + 1) == (bits', count + 1);
        assert AtMost16(bits');
      } else {
        assert bits[k := bits[k] + 0] == bits;
        PassTwoIs(bits, count, pool, k + 1);
      }
    }
  }

  /** Every subband gets between 0 and 16 bits, and together they get exactly the bitpool. The bits
      follow the needs: there is a slice such that every subband gets what lies above it and, but for
      one bit at most, no more than what lies above the next slice down. */
  lemma AllocationExact(needs: seq<int>, pool: nat, top: int) returns (slice: int, most: seq<nat>)
    requires NeedsOk(needs) && pool <= 16 * |needs| && forall k | 0 <= k < |needs| :: needs[k] <= top
    ensures var bits := Allocation(needs, pool, top);
            Sum(bits) == pool && AtMost16(bits) &&
            |most| == |needs| && Between(needs, most, slice) && OneMoreAtMost(most, bits)
  {
    slice := StopSlice(needs, pool, top);
    var bits := Level(needs, slice);
    if slice == top { NoneYet(needs, top); }
    PassOneIs(needs, bits, slice, Sum(bits), pool, 0);
    var one := PassOne(needs, bits, slice, Sum(bits), pool, 0);
    most := one.0;
    PassTwoIs(most, one.1, pool, 0);
  }

  /** Where the slicing starts does not matter, as long as it is not below any need. */
  lemma {:induction false} StopSliceTop(needs: seq<int>, pool: nat, low: int, high: int)
    requires NeedsOk(needs) && 0 < pool <= 16 * |needs| && (forall k | 0 <= k < |needs| :: needs[k] <= low) && low <= high
    ensures StopSlice(needs, pool, low) == StopSlice(needs, pool, high)
    decreases high - low
  {
    if low < high {
      NoneYet(needs, high - 1);
      StopSliceTop(needs, pool, low, high - 1);
    }
  }

  lemma TopIrrelevant(needs: seq<int>, pool: nat, top: int, top': int)
    requires NeedsOk(needs) && pool <= 16 * |needs| && forall k | 0 <= k < |needs| :: needs[k] <= top && needs[k] <= top'
    ensures Allocation(needs, pool, top) == Allocation(needs, pool, top')
  {
    if pool == 0 {
      NoneYet(needs, top);
      NoneYet(needs, top');
      assert StopSlice(needs, 0, top) == top && StopSlice(needs, 0, top') == top';
      assert Level(needs, top) == Level(needs, top');
    } else if top <= top' {
      StopSliceTop(needs, pool, top, top');
    } else {
      StopSliceTop(needs, pool, top', top);
    }
  }

  function Highest(needs: seq<int>): (top: int)
    ensures top >= 0 && forall k | 0 <= k < |needs| :: needs[k] <= top
  {
    if needs == [] then 0
    else var top := Highest(needs[1..]); if needs[0] > top then needs[0] else top
  }

  // ----- the allocator on its arrays

  /** The first nsb entries of one or two rows, by subband and then by channel, as the repair passes
      visit them. */
  function Flat<T>(rows: seq<seq<T>>, nch: nat, nsb: nat): (s: seq<T>)
    requires 1 <= nch <= 2 && nch <= |rows| && forall c | 0 <= c < nch :: nsb <= |rows[c]|
    ensures |s| == nch * nsb
  {
    if nch == 1 then rows[0][..nsb]
    else seq(2 * nsb, k requires 0 <= k < 2 * nsb => rows[k % 2][k / 2])
  }

  /** The place of a channel's subband in that order. */
  function At(nch: nat, sb: nat, ch: nat): nat { if nch == 1 then sb + ch else 2 * sb + ch }

  lemma FlatAt<T>(rows: seq<seq<T>>, nch: nat, nsb: nat, ch: nat, sb: nat)
    requires 1 <= nch <= 2 && nch <= |rows| && (forall c | 0 <= c < nch :: nsb <= |rows[c]|) && ch < nch && sb < nsb
    ensures At(nch, sb, ch) < nch * nsb && Flat(rows, nch, nsb)[At(nch, sb, ch)] == rows[ch][sb]
  {
    if nch == 2 {
      var k := 2 * sb + ch;
      assert k % 2 == ch && k / 2 == sb && k < 2 * nsb;
      assert Flat(rows, 2, nsb)[k] == rows[k % 2][k / 2];
    }
  }

  function NeedsOf(frame: Frame, scf: seq<seq<nat>>): (needs: seq<int>)
    requires frame.frequency < 4 && (frame.subbands == 4 || frame.subbands == 8)
    requires frame.AllocatedChannels() <= |scf| && forall c | 0 <= c < |scf| :: |scf[c]| >= frame.subbands
    ensures NeedsOk(needs) && |needs| == frame.AllocatedChannels() * frame.subbands
  {
    var nch := frame.AllocatedChannels();
    var f := Flat(scf, nch, frame.subbands);
    seq(nch * frame.subbands, k requires 0 <= k < nch * frame.subbands => Need(frame, k / nch, f[k]))
  }

  function AllocationOf(frame: Frame, scf: seq<seq<nat>>): (bits: seq<nat>)
    requires frame.frequency < 4 && frame.IsValid()
    requires frame.AllocatedChannels() <= |scf| && forall c | 0 <= c < |scf| :: |scf[c]| >= frame.subbands
    ensures |bits| == frame.AllocatedChannels() * frame.subbands
  {
    var needs := NeedsOf(frame, scf);
    Allocation(needs, frame.bitpool, Highest(needs))
  }

  /** The contents of one or two arrays. */
  function Rows<T>(rows: seq<array<T>>): (r: seq<seq<T>>)
    requires 1 <= |rows| <= 2
    reads rows
    ensures |r| == |rows| && forall c | 0 <= c < |r| :: r[c] == rows[c][..]
  {
    if |rows| == 1 then [rows[0][..]] else [rows[0][..], rows[1][..]]
  }

  ghost predicate Shaped<T>(frame: Frame, rows: seq<array<T>>) {
    frame.AllocatedChannels() <= |rows| <= 2 && (forall c | 0 <= c < |rows| :: rows[c].Length == 8) &&
    (|rows| == 2 ==> rows[0] != rows[1]) && frame.frequency < 4 && (frame.subbands == 4 || frame.subbands == 8)
  }

  method BitNeed(frame: Frame, scf: nat, sb: nat) returns (bitneed: int)
    requires frame.frequency < 4 && sb < frame.subbands && (frame.subbands == 4 || frame.subbands == 8)
    ensures bitneed == Need(frame, sb, scf)
  {
    if frame.method_ == Loudness {
      bitneed := if scf != 0 then scf - LoudnessOffset(frame, sb) else -5;
      if bitneed > 0 { bitneed := bitneed / 2; }
    } else {
      bitneed := scf;
    }
  }

  /** The arrays of one allocation do not overlap. */
  ghost predicate Disjoint<S, T>(a: seq<array<S>>, b: seq<array<T>>) {
    forall i, j | 0 <= i < |a| && 0 <= j < |b| :: a[i] as object != b[j]
  }

  /** The needs of the first ch channels, and of the first sb subbands of the next, are filed. */
  ghost predicate NeedsFiled(frame: Frame, scf: seq<seq<nat>>, rows: seq<seq<int>>, ch: nat, sb: nat, most: int)
    requires frame.frequency < 4 && (frame.subbands == 4 || frame.subbands == 8)
    requires |scf| <= 2 && |rows| <= 2 && (forall c | 0 <= c < |scf| :: |scf[c]| == 8) && (forall c | 0 <= c < |rows| :: |rows[c]| == 8)
    requires frame.AllocatedChannels() <= |scf| && frame.AllocatedChannels() <= |rows|
  {
    most >= 0 &&
    forall c: nat, b: nat | c < frame.AllocatedChannels() && b < frame.subbands && (c < ch || (c == ch && b < sb)) ::
      rows[c][b] == Need(frame, b, scf[c][b]) && rows[c][b] <= most
  }

  lemma NeedsAre(frame: Frame, scf: seq<seq<nat>>, rows: seq<seq<int>>, most: int)
    requires frame.frequency < 4 && (frame.subbands == 4 || frame.subbands == 8)
    requires |scf| <= 2 && |rows| <= 2 && (forall c | 0 <= c < |scf| :: |scf[c]| == 8) && (forall c | 0 <= c < |rows| :: |rows[c]| == 8)
    requires frame.AllocatedChannels() <= |scf| && frame.AllocatedChannels() <= |rows|
    requires NeedsFiled(frame, scf, rows, frame.AllocatedChannels(), 0, most)
    ensures var needs := NeedsOf(frame, scf);
            Flat(rows, frame.AllocatedChannels(), frame.subbands) == needs &&
            forall k | 0 <= k < |needs| :: needs[k] <= most
  {
    var nch, needs := frame.AllocatedChannels(), NeedsOf(frame, scf);
    var f, g := Flat(rows, nch, frame.subbands), Flat(scf, nch, frame.subbands);
    forall k: nat | k < |needs| ensures f[k] == needs[k] <= most {
      var c, sb := k % nch, k / nch;
      assert f[k] == rows[c][sb] && g[k] == scf[c][sb];
    }
  }

  method BitNeeds(frame: Frame, scaleFactors: seq<array<nat>>, bitneeds: seq<array<int>>) returns (maxBitneed: int)
    requires Shaped(frame, scaleFactors) && Shaped(frame, bitneeds) && Disjoint(scaleFactors, bitneeds)
    modifies bitneeds
    ensures Rows(scaleFactors) == old(Rows(scaleFactors)) && maxBitneed >= 0
    ensures var needs := NeedsOf(frame, Rows(scaleFactors));
            Flat(Rows(bitneeds), frame.AllocatedChannels(), frame.subbands) == needs &&
            forall k | 0 <= k < |needs| :: needs[k] <= maxBitneed
  {
    var nch, nsb := frame.AllocatedChannels(), frame.subbands;
    ghost var scf := Rows(scaleFactors);
    maxBitneed := 0;
    for ch := 0 to nch
      invariant Rows(scaleFactors) == scf && NeedsFiled(frame, scf, Rows(bitneeds), ch, 0, maxBitneed)
    {
      for sb := 0 to nsb
        invariant Rows(scaleFactors) == scf && NeedsFiled(frame, scf, Rows(bitneeds), ch, sb, maxBitneed)
      {
        var bitneed := BitNeed(frame, scaleFactors[ch][sb], sb);
        if bitneed > maxBitneed { maxBitneed := bitneed; }
        bitneeds[ch][sb] := bitneed;
      }
    }
    NeedsAre(frame, scf, Rows(bitneeds), maxBitneed);
  }

  // ----- the slicing loop on arrays

  lemma GainsSnoc(a: seq<int>, bn: int, bs: int)
    ensures Sum(Gains(a + [bn], bs)) == Sum(Gains(a, bs)) + Gain(bn, bs)
  {
    assert Gains(a + [bn], bs) == Gains(a, bs) + [Gain(bn, bs)];
    SumConcat(Gains(a, bs), [Gain(bn, bs)]);
  }

  /** Adding up by channels or by subbands makes no difference. */
  lemma {:induction false} GainsByRow(rows: seq<seq<int>>, nch: nat, nsb: nat, bs: int)
    requires 1 <= nch <= 2 && nch <= |rows| && forall c | 0 <= c < nch :: nsb <= |rows[c]|
    ensures Sum(Gains(Flat(rows, nch, nsb), bs)) ==
            Sum(Gains(rows[0][..nsb], bs)) + if nch == 2 then Sum(Gains(rows[1][..nsb], bs)) else 0
    decreases nsb
  {
    if nch == 2 && nsb > 0 {
      var n := nsb - 1;
      GainsByRow(rows, 2, n, bs);
      FlatAt(rows, 2, nsb, 0, n);
      FlatAt(rows, 2, nsb, 1, n);
      assert Flat(rows, 2, nsb) == Flat(rows, 2, n) + [rows[0][n]] + [rows[1][n]];
      GainsSnoc(Flat(rows, 2, n), rows[0][n], bs);
      GainsSnoc(Flat(rows, 2, n) + [rows[0][n]], rows[1][n], bs);
      GainsSnoc(rows[0][..n], rows[0][n], bs);
      GainsSnoc(rows[1][..n], rows[1][n], bs);
      assert rows[0][..nsb] == rows[0][..n] + [rows[0][n]] && rows[1][..nsb] == rows[1][..n] + [rows[1][n]];
    }
  }

  /** The double loop over the bit needs: what slice bs adds. */
  method SliceCount(bitneeds: seq<array<int>>, nch: nat, nsb: nat, bs: int) returns (n: nat)
    requires 1 <= nch <= |bitneeds| <= 2 && nsb <= 8 && forall c | 0 <= c < |bitneeds| :: bitneeds[c].Length == 8
    ensures n == Sum(Gains(Flat(Rows(bitneeds), nch, nsb), bs))
  {
    n := 0;
    for ch := 0 to nch
      invariant n == (if ch >= 1 then Sum(Gains(bitneeds[0][..nsb], bs)) else 0) +
                     (if ch == 2 then Sum(Gains(bitneeds[1][..nsb], bs)) else 0)
    {
      ghost var before := n;
      for sb := 0 to nsb
        invariant n == before + Sum(Gains(bitneeds[ch][..sb], bs))
      {
        var bn := bitneeds[ch][sb];
        GainsSnoc(bitneeds[ch][..sb], bn, bs);
        assert bitneeds[ch][..sb + 1] == bitneeds[ch][..sb] + [bn];
        n := n + (if bn >= bs && bn < bs + 15 then 1 else 0) + (if bn == bs then 1 else 0);
      }
    }
    GainsByRow(Rows(bitneeds), nch, nsb, bs);
  }

  /** The slicing loop: it ends, and the bits counted before its last slice are those of the slice it
      stops at. */
  method FindSlice(bitneeds: seq<array<int>>, nch: nat, nsb: nat, bitpool: nat, maxBitneed: int)
    returns (bitslice: int, bitcount: nat)
    requires 1 <= nch <= |bitneeds| <= 2 && nsb <= 8 && forall c | 0 <= c < |bitneeds| :: bitneeds[c].Length == 8
    requires var needs := Flat(Rows(bitneeds), nch, nsb);
             NeedsOk(needs) && bitpool <= 16 * |needs| && forall k | 0 <= k < |needs| :: needs[k] <= maxBitneed
    ensures var needs := Flat(Rows(bitneeds), nch, nsb);
            bitslice == StopSlice(needs, bitpool, maxBitneed + 1) && bitcount == Sum(Level(needs, bitslice))
  {
    ghost var needs := Flat(Rows(bitneeds), nch, nsb);
    bitcount, bitslice := 0, maxBitneed + 1;
    var bc := 0;
    NoneYet(needs, maxBitneed);
    NoneYet(needs, maxBitneed + 1);
    while bc < bitpool
      invariant bc == Sum(Level(needs, bitslice - 1)) && bitcount == Sum(Level(needs, bitslice))
      invariant StopSlice(needs, bitpool, bitslice) == StopSlice(needs, bitpool, maxBitneed + 1)
      decreases bitslice - LEAST_NEED + 16
    {
      if bitslice - 1 <= LEAST_NEED - 16 { AllFull(needs, bitslice - 1); }
      var bs := bitslice;
      bitslice := bitslice - 1;
      bitcount := bc;
      if bitcount == bitpool { break; }
      var n := SliceCount(bitneeds, nch, nsb, bs);
      GainsLower(needs, bs);
      bc := bc + n;
    }
  }

  // ----- assigning the bits

  ghost predicate RowsOk<T>(rows: seq<seq<T>>, nch: nat, nsb: nat) {
    1 <= nch <= 2 && nch <= |rows| && nsb <= 8 && forall c | 0 <= c < |rows| :: |rows[c]| == 8
  }

  /** Storing an entry of a row. */
  lemma FlatStore<T>(rows: seq<seq<T>>, rows': seq<seq<T>>, nch: nat, nsb: nat, ch: nat, sb: nat, v: T)
    requires RowsOk(rows, nch, nsb) && ch < nch && sb < nsb && rows' == rows[ch := rows[ch][sb := v]]
    ensures RowsOk(rows', nch, nsb) && At(nch, sb, ch) < nch * nsb
    ensures Flat(rows', nch, nsb) == Flat(rows, nch, nsb)[At(nch, sb, ch) := v]
  {
    FlatAt(rows, nch, nsb, ch, sb);
    FlatAt(rows', nch, nsb, ch, sb);
    var f, f' := Flat(rows, nch, nsb), Flat(rows', nch, nsb);
    forall k: nat | k < |f| && k != At(nch, sb, ch) ensures f'[k] == f[k] {
      if nch == 2 {
        var c, b := k % 2, k / 2;
        assert k == 2 * b + c && f[k] == rows[c][b] && f'[k] == rows'[c][b];
        assert c != ch || b != sb;
      }
    }
  }

  ghost predicate Arrays<T>(rows: seq<array<T>>, nch: nat, nsb: nat) {
    1 <= nch <= |rows| <= 2 && nsb <= 8 && (forall c | 0 <= c < |rows| :: rows[c].Length == 8) &&
    (|rows| == 2 ==> rows[0] != rows[1])
  }

  /** The arrays hold the entries s. */
  ghost predicate Shows<T>(rows: seq<array<T>>, nch: nat, nsb: nat, s: seq<T>)
    reads rows
  {
    Arrays(rows, nch, nsb) && Flat(Rows(rows), nch, nsb) == s
  }

  method Load<T>(rows: seq<array<T>>, nch: nat, nsb: nat, ch: nat, sb: nat, ghost s: seq<T>) returns (v: T)
    requires Shows(rows, nch, nsb, s) && ch < nch && sb < nsb
    ensures At(nch, sb, ch) < |s| && v == s[At(nch, sb, ch)]
  {
    FlatAt(Rows(rows), nch, nsb, ch, sb);
    v := rows[ch][sb];
  }

  method Store(nbits: seq<array<nat>>, nch: nat, nsb: nat, ch: nat, sb: nat, v: nat, ghost s: seq<nat>)
    requires Shows(nbits, nch, nsb, s) && ch < nch && sb < nsb
    modifies nbits
    ensures At(nch, sb, ch) < |s| && Shows(nbits, nch, nsb, s[At(nch, sb, ch) := v])
  {
    ghost var rows := Rows(nbits);
    nbits[ch][sb] := v;
    RowStored(rows, Rows(nbits), nch, nsb, ch, sb, v);
  }

  lemma RowStored(rows: seq<seq<nat>>, rows': seq<seq<nat>>, nch: nat, nsb: nat, ch: nat, sb: nat, v: nat)
    requires RowsOk(rows, nch, nsb) && ch < nch && sb < nsb && |rows'| == |rows|
    requires forall c | 0 <= c < |rows| :: rows'[c] == if c == ch then rows[ch][sb := v] else rows[c]
    ensures At(nch, sb, ch) < nch * nsb && Flat<nat>(rows', nch, nsb) == Flat<nat>(rows, nch, nsb)[At(nch, sb, ch) := v]
  {
    var row: seq<nat> := rows[ch][sb := v];
    assert rows' == rows[ch := row];
    FlatStore(rows, rows', nch, nsb, ch, sb, v);
  }

  /** The first ch rows, and the first sb entries of the next, have been assigned. */
  ghost predicate Assigned(needs: seq<seq<int>>, rows: seq<seq<nat>>, nch: nat, nsb: nat, bitslice: int, ch: nat, sb: nat)
    requires RowsOk(needs, nch, nsb) && RowsOk(rows, nch, nsb)
  {
    forall c: nat, b: nat | c < nch && b < nsb && (c < ch || (c == ch && b < sb)) ::
      rows[c][b] == Clamp(needs[c][b] - bitslice)
  }

  lemma AssignedAll(needs: seq<seq<int>>, rows: seq<seq<nat>>, nch: nat, nsb: nat, bitslice: int)
    requires RowsOk(needs, nch, nsb) && RowsOk(rows, nch, nsb) && Assigned(needs, rows, nch, nsb, bitslice, nch, 0)
    ensures Flat(rows, nch, nsb) == Level(Flat(needs, nch, nsb), bitslice)
  {
    var f, g, h := Flat(rows, nch, nsb), Flat(needs, nch, nsb), Level(Flat(needs, nch, nsb), bitslice);
    forall k: nat | k < |f| ensures f[k] == h[k] {
      assert f[k] == rows[k % nch][k / nch] && g[k] == needs[k % nch][k / nch];
    }
  }

  method AssignBits(bitneeds: seq<array<int>>, nbits: seq<array<nat>>, nch: nat, nsb: nat, bitslice: int,
                    ghost needs: seq<int>)
    requires Shows(bitneeds, nch, nsb, needs) && Arrays(nbits, nch, nsb) && Disjoint(bitneeds, nbits)
    modifies nbits
    ensures Shows(bitneeds, nch, nsb, needs) && Shows(nbits, nch, nsb, Level(needs, bitslice))
  {
    ghost var rows := Rows(bitneeds);
    for ch := 0 to nch
      invariant Rows(bitneeds) == rows && Assigned(rows, Rows(nbits), nch, nsb, bitslice, ch, 0)
    {
      for sb := 0 to nsb
        invariant Rows(bitneeds) == rows && Assigned(rows, Rows(nbits), nch, nsb, bitslice, ch, sb)
      {
        var nbit := bitneeds[ch][sb] - bitslice;
        nbits[ch][sb] := if nbit < 2 then 0 else if nbit > 16 then 16 else nbit;
      }
    }
    AssignedAll(rows, Rows(nbits), nch, nsb, bitslice);
  }

  lemma AtNext(nch: nat, nsb: nat, sb: nat, ch: nat)
    requires 1 <= nch <= 2 && sb < nsb && ch < nch
    ensures At(nch, sb, ch) < nch * nsb && At(nch, sb, ch + 1) == At(nch, sb, ch) + 1
    ensures ch + 1 == nch ==> At(nch, sb, ch + 1) == At(nch, sb + 1, 0)
  {
  }

  /** The state of a repair pass at place k: what it will come to is settled. */
  ghost predicate OneOnCourse(needs: seq<int>, bits: seq<nat>, slice: int, count: nat, pool: nat, k: nat,
                              goal: (seq<nat>, nat))
  {
    |bits| == |needs| && k <= |needs| && PassOne(needs, bits, slice, count, pool, k) == goal
  }

  lemma OneOn(needs: seq<int>, bits: seq<nat>, slice: int, count: nat, pool: nat, k: nat, goal: (seq<nat>, nat))
    requires OneOnCourse(needs, bits, slice, count, pool, k, goal) && k < |needs| && count < pool
    ensures var n := Extra(needs[k], bits[k], slice, count, pool);
            OneOnCourse(needs, bits[k := bits[k] + n], slice, count + n, pool, k + 1, goal)
  {
  }

  /** Once the bits are used up, the places that are left do not matter. */
  lemma OneDone(needs: seq<int>, bits: seq<nat>, slice: int, count: nat, pool: nat, k: nat, k': nat,
                goal: (seq<nat>, nat))
    requires OneOnCourse(needs, bits, slice, count, pool, k, goal) && k' <= |needs| && (count >= pool || k == k')
    ensures OneOnCourse(needs, bits, slice, count, pool, k', goal)
  {
  }

  method StoreBeside(ghost bitneeds: seq<array<int>>, nbits: seq<array<nat>>, nch: nat, nsb: nat, ch: nat, sb: nat,
                     v: nat, ghost needs: seq<int>, ghost s: seq<nat>)
    requires Shows(bitneeds, nch, nsb, needs) && Shows(nbits, nch, nsb, s) && Disjoint(bitneeds, nbits)
    requires ch < nch && sb < nsb
    modifies nbits
    ensures At(nch, sb, ch) < |s| && Shows(nbits, nch, nsb, s[At(nch, sb, ch) := v]) && Shows(bitneeds, nch, nsb, needs)
  {
    ghost var rows := Rows(bitneeds);
    Store(nbits, nch, nsb, ch, sb, v, s);
    assert Rows(bitneeds) == rows;
  }

  method FirstPassAt(bitneeds: seq<array<int>>, nbits: seq<array<nat>>, nch: nat, nsb: nat, bitslice: int,
                     bitpool: nat, bitcount: nat, sb: nat, ch: nat, ghost needs: seq<int>, ghost bits: seq<nat>,
                     ghost goal: (seq<nat>, nat))
    returns (bitcount': nat, ghost bits': seq<nat>)
    requires Shows(bitneeds, nch, nsb, needs) && Shows(nbits, nch, nsb, bits) && Disjoint(bitneeds, nbits)
    requires sb < nsb && ch < nch && bitcount < bitpool
    requires OneOnCourse(needs, bits, bitslice, bitcount, bitpool, At(nch, sb, ch), goal)
    modifies nbits
    ensures Shows(bitneeds, nch, nsb, needs) && Shows(nbits, nch, nsb, bits')
    ensures OneOnCourse(needs, bits', bitslice, bitcount', bitpool, At(nch, sb, ch + 1), goal)
  {
    var need := Load(bitneeds, nch, nsb, ch, sb, needs);
    var nbit: nat := Load(nbits, nch, nsb, ch, sb, bits);
    var n: nat := if nbit > 0 && nbit < 16 then 1 else if need == bitslice + 1 && bitpool > bitcount + 1 then 2 else 0;
    ghost var k := At(nch, sb, ch);
    assert n == Extra(needs[k], bits[k], bitslice, bitcount, bitpool);
    OnePlace(needs, bits, bitslice, bitcount, bitpool, nch, nsb, sb, ch, goal, n);
    StoreBeside(bitneeds, nbits, nch, nsb, ch, sb, nbit + n, needs, bits);
    bits' := bits[k := nbit + n];
    bitcount' := bitcount + n;
  }

  lemma OnePlace(needs: seq<int>, bits: seq<nat>, slice: int, count: nat, pool: nat, nch: nat, nsb: nat, sb: nat, ch: nat,
                 goal: (seq<nat>, nat), n: nat)
    requires 1 <= nch <= 2 && sb < nsb && ch < nch && count < pool && |needs| == nch * nsb
    requires var k := At(nch, sb, ch);
             OneOnCourse(needs, bits, slice, count, pool, k, goal) && k < |needs| && n == Extra(needs[k], bits[k], slice, count, pool)
    ensures var k := At(nch, sb, ch);
            OneOnCourse(needs, bits[k := bits[k] + n], slice, count + n, pool, At(nch, sb, ch + 1), goal)
  {
    OneOn(needs, bits, slice, count, pool, At(nch, sb, ch), goal);
    AtNext(nch, nsb, sb, ch);
  }

  /** The inner loop of the first pass: the channels of one subband. */
  method FirstPassSubband(bitneeds: seq<array<int>>, nbits: seq<array<nat>>, nch: nat, nsb: nat, bitslice: int,
                          bitpool: nat, bitcount0: nat, sb: nat, ghost needs: seq<int>, ghost bits0: seq<nat>,
                          ghost goal: (seq<nat>, nat))
    returns (bitcount: nat, ghost bits: seq<nat>)
    requires Shows(bitneeds, nch, nsb, needs) && Shows(nbits, nch, nsb, bits0) && Disjoint(bitneeds, nbits) && sb < nsb
    requires OneOnCourse(needs, bits0, bitslice, bitcount0, bitpool, At(nch, sb, 0), goal)
    modifies nbits
    ensures Shows(bitneeds, nch, nsb, needs) && Shows(nbits, nch, nsb, bits)
    ensures OneOnCourse(needs, bits, bitslice, bitcount, bitpool, At(nch, sb + 1, 0), goal)
  {
    bitcount, bits := bitcount0, bits0;
    var ch: nat := 0;
    AtNext(nch, nsb, sb, nch - 1);
    while ch < nch && bitcount < bitpool
      invariant ch <= nch && Shows(bitneeds, nch, nsb, needs) && Shows(nbits, nch, nsb, bits)
      invariant OneOnCourse(needs, bits, bitslice, bitcount, bitpool, At(nch, sb, ch), goal)
    {
      bitcount, bits := FirstPassAt(bitneeds, nbits, nch, nsb, bitslice, bitpool, bitcount, sb, ch, needs, bits, goal);
      ch := ch + 1;
    }
    OneDone(needs, bits, bitslice, bitcount, bitpool, At(nch, sb, ch), At(nch, sb + 1, 0), goal);
  }

  /** The first pass over the subbands. */
  method FirstPass(bitneeds: seq<array<int>>, nbits: seq<array<nat>>, nch: nat, nsb: nat, bitslice: int, bitpool: nat,
                   bitcount0: nat, ghost needs: seq<int>, ghost bits0: seq<nat>)
    returns (bitcount: nat, ghost bits: seq<nat>)
    requires Shows(bitneeds, nch, nsb, needs) && Shows(nbits, nch, nsb, bits0) && Disjoint(bitneeds, nbits)
    requires |bits0| == |needs|
    modifies nbits
    ensures Shows(nbits, nch, nsb, bits) && (bits, bitcount) == PassOne(needs, bits0, bitslice, bitcount0, bitpool, 0)
  {
    ghost var goal := PassOne(needs, bits0, bitslice, bitcount0, bitpool, 0);
    bitcount, bits := bitcount0, bits0;
    var sb: nat := 0;
    assert At(nch, 0, 0) == 0;
    while sb < nsb && bitcount < bitpool
      invariant sb <= nsb && Shows(bitneeds, nch, nsb, needs) && Shows(nbits, nch, nsb, bits)
      invariant OneOnCourse(needs, bits, bitslice, bitcount, bitpool, At(nch, sb, 0), goal)
    {
      bitcount, bits := FirstPassSubband(bitneeds, nbits, nch, nsb, bitslice, bitpool, bitcount, sb, needs, bits, goal);
      sb := sb + 1;
    }
    OneDone(needs, bits, bitslice, bitcount, bitpool, At(nch, sb, 0), |needs|, goal);
  }

  ghost predicate TwoOnCourse(bits: seq<nat>, count: nat, pool: nat, k: nat, goal: (seq<nat>, nat)) {
    k <= |bits| && PassTwo(bits, count, pool, k) == goal
  }

  lemma TwoOn(bits: seq<nat>, count: nat, pool: nat, k: nat, goal: (seq<nat>, nat))
    requires TwoOnCourse(bits, count, pool, k, goal) && k < |bits| && count < pool
    ensures var n := if bits[k] < 16 then 1 else 0;
            TwoOnCourse(bits[k := bits[k] + n], count + n, pool, k + 1, goal)
  {
  }

  lemma TwoDone(bits: seq<nat>, count: nat, pool: nat, k: nat, k': nat, goal: (seq<nat>, nat))
    requires TwoOnCourse(bits, count, pool, k, goal) && k' <= |bits| && (count >= pool || k == k')
    ensures TwoOnCourse(bits, count, pool, k', goal)
  {
  }

  method SecondPassAt(nbits: seq<array<nat>>, nch: nat, nsb: nat, bitpool: nat, bitcount: nat, sb: nat, ch: nat,
                      ghost bits: seq<nat>, ghost goal: (seq<nat>, nat))
    returns (bitcount': nat, ghost bits': seq<nat>)
    requires Shows(nbits, nch, nsb, bits) && sb < nsb && ch < nch && bitcount < bitpool
    requires TwoOnCourse(bits, bitcount, bitpool, At(nch, sb, ch), goal)
    modifies nbits
    ensures Shows(nbits, nch, nsb, bits') && TwoOnCourse(bits', bitcount', bitpool, At(nch, sb, ch + 1), goal)
  {
    var nbit: nat := Load(nbits, nch, nsb, ch, sb, bits);
    var n: nat := if nbit < 16 then 1 else 0;
    TwoOn(bits, bitcount, bitpool, At(nch, sb, ch), goal);
    AtNext(nch, nsb, sb, ch);
    Store(nbits, nch, nsb, ch, sb, nbit + n, bits);
    bits' := bits[At(nch, sb, ch) := nbit + n];
    bitcount' := bitcount + n;
  }

  method SecondPassSubband(nbits: seq<array<nat>>, nch: nat, nsb: nat, bitpool: nat, bitcount0: nat, sb: nat,
                           ghost bits0: seq<nat>, ghost goal: (seq<nat>, nat))
    returns (bitcount: nat, ghost bits: seq<nat>)
    requires Shows(nbits, nch, nsb, bits0) && sb < nsb
    requires TwoOnCourse(bits0, bitcount0, bitpool, At(nch, sb, 0), goal)
    modifies nbits
    ensures Shows(nbits, nch, nsb, bits) && TwoOnCourse(bits, bitcount, bitpool, At(nch, sb + 1, 0), goal)
  {
    bitcount, bits := bitcount0, bits0;
    var ch: nat := 0;
    AtNext(nch, nsb, sb, nch - 1);
    while ch < nch && bitcount < bitpool
      invariant ch <= nch && Shows(nbits, nch, nsb, bits)
      invariant TwoOnCourse(bits, bitcount, bitpool, At(nch, sb, ch), goal)
    {
      bitcount, bits := SecondPassAt(nbits, nch, nsb, bitpool, bitcount, sb, ch, bits, goal);
      ch := ch + 1;
    }
    TwoDone(bits, bitcount, bitpool, At(nch, sb, ch), At(nch, sb + 1, 0), goal);
  }

  /** The second pass over the subbands. */
  method SecondPass(nbits: seq<array<nat>>, nch: nat, nsb: nat, bitpool: nat, bitcount0: nat, ghost bits0: seq<nat>)
    requires Shows(nbits, nch, nsb, bits0)
    modifies nbits
    ensures Shows(nbits, nch, nsb, PassTwo(bits0, bitcount0, bitpool, 0).0)
  {
    var bitcount: nat := bitcount0;
    ghost var bits: seq<nat>, goal := bits0, PassTwo(bits0, bitcount0, bitpool, 0);
    var sb: nat := 0;
    while sb < nsb && bitcount < bitpool
      invariant sb <= nsb && Shows(nbits, nch, nsb, bits)
      invariant TwoOnCourse(bits, bitcount, bitpool, At(nch, sb, 0), goal)
    {
      bitcount, bits := SecondPassSubband(nbits, nch, nsb, bitpool, bitcount, sb, bits, goal);
      sb := sb + 1;
    }
    TwoDone(bits, bitcount, bitpool, At(nch, sb, 0), |bits|, goal);
  }

  /** What follows the computation of the bit needs. */
  method Distribute(bitneeds: seq<array<int>>, nbits: seq<array<nat>>, nch: nat, nsb: nat, bitpool: nat, maxBitneed: int,
                    ghost needs: seq<int>)
    requires Shows(bitneeds, nch, nsb, needs) && Arrays(nbits, nch, nsb) && Disjoint(bitneeds, nbits)
    requires NeedsOk(needs) && bitpool <= 16 * |needs| && forall k | 0 <= k < |needs| :: needs[k] <= maxBitneed
    modifies nbits
    ensures Shows(nbits, nch, nsb, Allocation(needs, bitpool, maxBitneed + 1))
  {
    var bitslice, bitcount := FindSlice(bitneeds, nch, nsb, bitpool, maxBitneed);
    ghost var bits := Level(needs, bitslice);
    AssignBits(bitneeds, nbits, nch, nsb, bitslice, needs);
    bitcount, bits := FirstPass(bitneeds, nbits, nch, nsb, bitslice, bitpool, bitcount, needs, bits);
    SecondPass(nbits, nch, nsb, bitpool, bitcount, bits);
  }

  method FreshNeeds(frame: Frame, scaleFactors: seq<array<nat>>, ghost nbits: seq<array<nat>>)
    returns (bitneeds: seq<array<int>>, maxBitneed: int)
    requires Shaped(frame, scaleFactors)
    ensures fresh(bitneeds) && Disjoint(bitneeds, nbits)
    ensures var needs := NeedsOf(frame, Rows(scaleFactors));
            Shows(bitneeds, frame.AllocatedChannels(), frame.subbands, needs) &&
            forall k | 0 <= k < |needs| :: needs[k] <= maxBitneed
  {
    var left, right := new int[8], new int[8];
    bitneeds := [left, right];
    maxBitneed := BitNeeds(frame, scaleFactors, bitneeds);
  }

  lemma AllocationIs(frame: Frame, scf: seq<seq<nat>>, top: int)
    requires frame.frequency < 4 && frame.IsValid()
    requires frame.AllocatedChannels() <= |scf| && forall c | 0 <= c < |scf| :: |scf[c]| >= frame.subbands
    requires var needs := NeedsOf(frame, scf); forall k | 0 <= k < |needs| :: needs[k] <= top
    ensures var bits := AllocationOf(frame, scf);
            bits == Allocation(NeedsOf(frame, scf), frame.bitpool, top) && Sum(bits) == frame.bitpool && AtMost16(bits)
    ensures NeedsOk(NeedsOf(frame, scf)) && frame.bitpool <= 16 * |NeedsOf(frame, scf)|
  {
    var needs := NeedsOf(frame, scf);
    TopIrrelevant(needs, frame.bitpool, top, Highest(needs));
    var _, _ := AllocationExact(needs, frame.bitpool, top);
  }

  /** The allocator: it ends, and for every valid frame and all scale factors the bits it leaves in
      nbits are between 0 and 16 each and exactly bitpool together. */
  method ComputeBitAllocation(frame: Frame, scaleFactors: seq<array<nat>>, nbits: seq<array<nat>>)
    requires Shaped(frame, scaleFactors) && Shaped(frame, nbits) && Disjoint(scaleFactors, nbits) && frame.IsValid()
    modifies nbits
    ensures Rows(scaleFactors) == old(Rows(scaleFactors))
    ensures var bits := AllocationOf(frame, Rows(scaleFactors));
            Shows(nbits, frame.AllocatedChannels(), frame.subbands, bits) &&
            Sum(bits) == frame.bitpool && AtMost16(bits)
  {
    ghost var scf := Rows(scaleFactors);
    var bitneeds, maxBitneed := FreshNeeds(frame, scaleFactors, nbits);
    ghost var needs := NeedsOf(frame, scf);
    AllocationIs(frame, scf, maxBitneed + 1);
    Distribute(bitneeds, nbits, frame.AllocatedChannels(), frame.subbands, frame.bitpool, maxBitneed, needs);
    assert forall c | 0 <= c < |scaleFactors| :: scaleFactors[c][..] == scf[c];
  }
}
