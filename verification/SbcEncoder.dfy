/** SBC's encoder, from the subband samples to the bytes of a frame. */
module SbcEncoder {
  import opened Bits
  import opened Binary
  import opened Sums
  import opened SbcFrames
  import opened SbcAllocation
  import opened SbcLayout
  import opened SbcSamples
  import opened SbcBitStream
  import Crcs

  // ----- what is to be written

  /** The samples of one or two channels, for all blocks and subbands. */
  ghost predicate Input(f: Frame, samples: seq<seq<int>>) {
    |samples| == 2 && forall c | 0 <= c < 2 :: f.blocks * f.subbands <= |samples[c]| && Samples(samples[c])
  }

  function Scales(f: Frame, samples: seq<int>): (scf: seq<nat>)
    requires f.blocks * f.subbands <= |samples|
    ensures |scf| == f.subbands
  {
    seq(f.subbands, sb requires 0 <= sb < f.subbands => Scale(Column(samples, f.subbands, f.blocks, sb)))
  }

  /** The scale factors of the sums and of the differences of two channels in a subband. */
  function SumScale(f: Frame, samples: seq<seq<int>>, sb: nat): nat
    requires Input(f, samples) && sb < f.subbands
  {
    Scale(Plus(Column(samples[0], f.subbands, f.blocks, sb), Column(samples[1], f.subbands, f.blocks, sb)))
  }

  function DifferenceScale(f: Frame, samples: seq<seq<int>>, sb: nat): nat
    requires Input(f, samples) && sb < f.subbands
  {
    Scale(Minus(Column(samples[0], f.subbands, f.blocks, sb), Column(samples[1], f.subbands, f.blocks, sb)))
  }

  /** Two channels are coupled in a subband, but for the last, if that makes their scale factors smaller. */
  predicate Coupled(f: Frame, samples: seq<seq<int>>, sb: nat)
    requires Input(f, samples) && sb < f.subbands
  {
    f.mode == JointStereo && sb < f.subbands - 1 &&
    SumScale(f, samples, sb) + DifferenceScale(f, samples, sb) < Scales(f, samples[0])[sb] + Scales(f, samples[1])[sb]
  }

  function Flags(f: Frame, samples: seq<seq<int>>): (flags: seq<bool>)
    requires Input(f, samples)
    ensures |flags| == f.subbands
  {
    seq(f.subbands, sb requires 0 <= sb < f.subbands => Coupled(f, samples, sb))
  }

  /** The flags as the bits of a number. */
  function Joint(flags: seq<bool>): (m: nat)
    ensures m < Pow2(|flags|)
  {
    if flags == [] then 0
    else Joint(flags[..|flags| - 1]) + if flags[|flags| - 1] then Pow2(|flags| - 1) else 0
  }

  lemma {:induction false} JointBits(flags: seq<bool>, sb: nat)
    ensures BitAt(Joint(flags), sb) <==> sb < |flags| && flags[sb]
  {
    if flags == [] {
      ZeroBits(sb);
    } else {
      var front := flags[..|flags| - 1];
      JointBits(front, sb);
      if flags[|flags| - 1] { AddTopBit(Joint(front), |front|, sb); }
    }
  }

  function ScalesOf(f: Frame, samples: seq<seq<int>>): (scf: seq<seq<nat>>)
    requires Input(f, samples)
    ensures |scf| == f.Channels() && forall c | 0 <= c < |scf| :: |scf[c]| == f.subbands
  {
    seq(f.Channels(), c requires 0 <= c < f.Channels() =>
      seq(f.subbands, sb requires 0 <= sb < f.subbands =>
        if !Coupled(f, samples, sb) then Scales(f, samples[c])[sb]
        else if c == 0 then SumScale(f, samples, sb) else DifferenceScale(f, samples, sb)))
  }

  /** A sample of a channel after coupling. */
  function Mixed(f: Frame, samples: seq<seq<int>>, c: nat, blk: nat, sb: nat): int
    requires Input(f, samples) && c < 2 && blk < f.blocks && sb < f.subbands
  {
    var i := Index(f.subbands, f.blocks, blk, sb);
    if !Coupled(f, samples, sb) then samples[c][i]
    else if c == 0 then (samples[0][i] + samples[1][i]) / 2 else (samples[0][i] - samples[1][i]) / 2
  }

  lemma MixedWithin(f: Frame, samples: seq<seq<int>>, c: nat, blk: nat, sb: nat)
    requires Input(f, samples) && c < f.Channels() && blk < f.blocks && sb < f.subbands
    ensures Abs(Mixed(f, samples, c, blk, sb)) < Pow2(ScalesOf(f, samples)[c][sb] + 1)
    ensures Sample(Mixed(f, samples, c, blk, sb))
  {
    var xs, ys := Column(samples[0], f.subbands, f.blocks, sb), Column(samples[1], f.subbands, f.blocks, sb);
    var i := Index(f.subbands, f.blocks, blk, sb);
    assert xs[blk] == samples[0][i] && ys[blk] == samples[1][i] && Sample(samples[0][i]) && Sample(samples[1][i]);
    ScaleIs(xs);
    ScaleIs(ys);
    ScaleIs(Plus(xs, ys));
    ScaleIs(Minus(xs, ys));
    assert Plus(xs, ys)[blk] == xs[blk] + ys[blk] && Minus(xs, ys)[blk] == xs[blk] - ys[blk];
  }

  function CodesOf(f: Frame, samples: seq<seq<int>>, w: seq<seq<nat>>): (codes: seq<seq<seq<nat>>>)
    requires Input(f, samples) && |w| == f.Channels() && forall c | 0 <= c < |w| :: |w[c]| == f.subbands
    ensures |codes| == f.blocks
    ensures forall b | 0 <= b < |codes| :: |codes[b]| == f.Channels() && RowsFit(codes[b], w)
    ensures forall b | 0 <= b < |codes| :: Alike(codes[b], w)
  {
    seq(f.blocks, b requires 0 <= b < f.blocks =>
      seq(f.Channels(), c requires 0 <= c < f.Channels() => CodeRow(f, samples, w[c], b, c)))
  }

  function CodeRow(f: Frame, samples: seq<seq<int>>, w: seq<nat>, b: nat, c: nat): (row: seq<nat>)
    requires Input(f, samples) && |w| == f.subbands && b < f.blocks && c < f.Channels()
    ensures Fits(row, w)
  {
    seq(f.subbands, sb requires 0 <= sb < f.subbands =>
      (MixedWithin(f, samples, c, b, sb); Code(Mixed(f, samples, c, b, sb), w[sb], ScalesOf(f, samples)[c][sb])))
  }

  // ----- scale factors on arrays

  ghost predicate Filed(f: Frame, scf: seq<seq<nat>>, rows: seq<seq<nat>>, ch: nat, sb: nat) {
    |scf| == f.Channels() && |rows| == 2 && (forall c | 0 <= c < |scf| :: |scf[c]| == f.subbands <= |rows[c]|) &&
    forall c: nat, b: nat | c < |scf| && b < f.subbands && (c < ch || (c == ch && b < sb)) :: rows[c][b] == scf[c][b]
  }

  method ComputeScaleFactors(f: Frame, samples: seq<seq<int>>, scaleFactors: seq<array<nat>>)
    requires Input(f, samples) && Shaped(f, scaleFactors) && |scaleFactors| == 2 && f.mode != JointStereo
    modifies scaleFactors
    ensures Filed(f, ScalesOf(f, samples), Rows(scaleFactors), f.Channels(), 0)
  {
    ghost var scf := ScalesOf(f, samples);
    for ch := 0 to f.Channels()
      invariant Filed(f, scf, Rows(scaleFactors), ch, 0)
    {
      for sb := 0 to f.subbands
        invariant Filed(f, scf, Rows(scaleFactors), ch, sb)
      {
        var scale := ColumnScale(samples[ch], f.subbands, f.blocks, sb);
        scaleFactors[ch][sb] := scale;
      }
    }
  }

  /** The scale factors of the subbands before sb are filed, for both channels. */
  ghost predicate FiledBefore(f: Frame, scf: seq<seq<nat>>, rows: seq<seq<nat>>, sb: nat) {
    |scf| == f.Channels() && |rows| == 2 && (forall c | 0 <= c < |scf| :: |scf[c]| == f.subbands <= |rows[c]|) &&
    forall c: nat, b: nat | c < |scf| && b < f.subbands && b < sb :: rows[c][b] == scf[c][b]
  }

  lemma JointNext(flags: seq<bool>, k: nat)
    requires k < |flags|
    ensures Joint(flags[..k + 1]) == BitOr(Joint(flags[..k]), if flags[k] then Pow2(k) else 0)
  {
    var m := if flags[k] then Pow2(k) else 0;
    assert flags[..k + 1][..k] == flags[..k];
    var x, y := Joint(flags[..k + 1]), BitOr(Joint(flags[..k]), m);
    forall j: nat ensures BitAt(x, j) == BitAt(y, j) {
      JointBits(flags[..k + 1], j);
      JointBits(flags[..k], j);
      BitOrBit(Joint(flags[..k]), m, j);
      AddTopBit(0, k, j);
      ZeroBits(j);
    }
    EqualBits(x, y);
  }

  /** One subband of two channels: its scale factors, and its bit in the mask. */
  method JointSubband(f: Frame, samples: seq<seq<int>>, sb: nat, mjoint0: nat) returns (scf0: nat, scf1: nat, mjoint: nat)
    requires Input(f, samples) && f.mode == JointStereo && sb < f.subbands && mjoint0 == Joint(Flags(f, samples)[..sb])
    ensures scf0 == ScalesOf(f, samples)[0][sb] && scf1 == ScalesOf(f, samples)[1][sb]
    ensures mjoint == Joint(Flags(f, samples)[..sb + 1])
  {
    var js0, js1;
    mjoint := mjoint0;
    scf0, scf1, js0, js1 := JointColumnScales(samples[0], samples[1], f.subbands, f.blocks, sb);
    JointNext(Flags(f, samples), sb);
    var coupled := sb < f.subbands - 1 && js0 + js1 < scf0 + scf1;
    assert coupled == Coupled(f, samples, sb);
    if coupled {
      mjoint := BitOr(mjoint, Pow2(sb));
      scf0, scf1 := js0, js1;
    } else {
      OrZero(mjoint);
    }
  }

  method FileBoth(f: Frame, scaleFactors: seq<array<nat>>, sb: nat, scf0: nat, scf1: nat, ghost scf: seq<seq<nat>>)
    requires Shaped(f, scaleFactors) && |scaleFactors| == 2 && sb < f.subbands && f.Channels() == 2
    requires FiledBefore(f, scf, Rows(scaleFactors), sb) && scf0 == scf[0][sb] && scf1 == scf[1][sb]
    modifies scaleFactors
    ensures FiledBefore(f, scf, Rows(scaleFactors), sb + 1)
  {
    scaleFactors[0][sb] := scf0;
    scaleFactors[1][sb] := scf1;
  }

  method ComputeScaleFactorsJointStereo(f: Frame, samples: seq<seq<int>>, scaleFactors: seq<array<nat>>)
    returns (mjoint: nat)
    requires Input(f, samples) && Shaped(f, scaleFactors) && |scaleFactors| == 2 && f.mode == JointStereo
    modifies scaleFactors
    ensures FiledBefore(f, ScalesOf(f, samples), Rows(scaleFactors), f.subbands)
    ensures mjoint == Joint(Flags(f, samples))
  {
    ghost var scf, flags := ScalesOf(f, samples), Flags(f, samples);
    mjoint := 0;
    for sb := 0 to f.subbands
      invariant FiledBefore(f, scf, Rows(scaleFactors), sb) && mjoint == Joint(flags[..sb])
    {
      var scf0, scf1;
      scf0, scf1, mjoint := JointSubband(f, samples, sb, mjoint);
      FileBoth(f, scaleFactors, sb, scf0, scf1, scf);
    }
    assert flags[..f.subbands] == flags;
  }

  lemma {:induction false} OrZero(x: nat)
    ensures BitOr(x, 0) == x
  {
    if x > 0 { OrZero(x / 2); }
  }

  lemma {:induction false} NoneJoint(flags: seq<bool>)
    requires forall k | 0 <= k < |flags| :: !flags[k]
    ensures Joint(flags) == 0
  {
    if flags != [] { NoneJoint(flags[..|flags| - 1]); }
  }

  /** The mask and the scale factors of the frame. */
  method ScaleFactors(f: Frame, samples: seq<seq<int>>, scaleFactors: seq<array<nat>>) returns (mjoint: nat)
    requires Input(f, samples) && Shaped(f, scaleFactors) && |scaleFactors| == 2
    modifies scaleFactors
    ensures Trim(Rows(scaleFactors), f.Channels(), f.subbands) == ScalesOf(f, samples)
    ensures mjoint == Joint(Flags(f, samples))
  {
    ghost var scf := ScalesOf(f, samples);
    if f.mode == JointStereo {
      mjoint := ComputeScaleFactorsJointStereo(f, samples, scaleFactors);
    } else {
      mjoint := 0;
      NoneJoint(Flags(f, samples));
      ComputeScaleFactors(f, samples, scaleFactors);
    }
    ghost var rows := Rows(scaleFactors);
    forall c | 0 <= c < f.Channels() ensures Trim(rows, f.Channels(), f.subbands)[c] == scf[c] {
      forall b: nat | b < f.subbands ensures rows[c][b] == scf[c][b] {}
    }
  }

  // ----- coupling

  lemma IndexOnce(nsb: nat, blk: nat, sb: nat, blk': nat, sb': nat)
    requires sb < nsb && sb' < nsb && blk * nsb + sb == blk' * nsb + sb'
    ensures blk == blk' && sb == sb'
  {
    Apart(nsb, blk, sb, blk', sb');
    Apart(nsb, blk', sb', blk, sb);
  }

  lemma Apart(nsb: nat, blk: nat, sb: nat, blk': nat, sb': nat)
    requires sb < nsb && sb' < nsb && blk * nsb + sb == blk' * nsb + sb'
    ensures blk <= blk'
  {
    assert (blk' + 1) * nsb == blk' * nsb + nsb;
    Order(blk, blk' + 1, nsb);
  }

  lemma Order(a: nat, b: nat, n: nat)
    requires a * n < b * n
    ensures a < b
  {
    assert (b - a) * n > 0;
  }

  /** A channel in which the subbands before sb, and the first blk blocks of subband sb, are coupled. */
  ghost predicate Mixing(f: Frame, samples: seq<seq<int>>, c: nat, now: seq<int>, sb: nat, blk: nat)
    requires Input(f, samples) && c < 2
  {
    |now| == |samples[c]| &&
    forall b: nat, s: nat | b < f.blocks && s < f.subbands ::
      now[Index(f.subbands, f.blocks, b, s)] ==
      if s < sb || (s == sb && b < blk) then Mixed(f, samples, c, b, s)
      else samples[c][Index(f.subbands, f.blocks, b, s)]
  }

  lemma MixNext(f: Frame, samples: seq<seq<int>>, c: nat, now: seq<int>, sb: nat, blk: nat)
    requires Input(f, samples) && c < 2 && Mixing(f, samples, c, now, sb, blk) && sb < f.subbands && blk < f.blocks
    ensures Mixing(f, samples, c, now[Index(f.subbands, f.blocks, blk, sb) := Mixed(f, samples, c, blk, sb)], sb, blk + 1)
    ensures now[Index(f.subbands, f.blocks, blk, sb)] == samples[c][Index(f.subbands, f.blocks, blk, sb)]
  {
    var i := Index(f.subbands, f.blocks, blk, sb);
    var next := now[i := Mixed(f, samples, c, blk, sb)];
    forall b: nat, s: nat | b < f.blocks && s < f.subbands
      ensures next[Index(f.subbands, f.blocks, b, s)] ==
              if s < sb || (s == sb && b < blk + 1) then Mixed(f, samples, c, b, s)
              else samples[c][Index(f.subbands, f.blocks, b, s)]
    {
      if Index(f.subbands, f.blocks, b, s) == i { IndexOnce(f.subbands, b, s, blk, sb); }
    }
  }

  /** A subband that is not coupled keeps its samples. */
  lemma MixNone(f: Frame, samples: seq<seq<int>>, c: nat, now: seq<int>, sb: nat)
    requires Input(f, samples) && c < 2 && Mixing(f, samples, c, now, sb, 0) && sb < f.subbands && !Coupled(f, samples, sb)
    ensures Mixing(f, samples, c, now, sb + 1, 0)
  {
  }

  /** One subband of two channels, coupled in place. */
  method CoupleSubband(f: Frame, left: array<int>, right: array<int>, sb: nat, ghost samples: seq<seq<int>>)
    requires Input(f, samples) && sb < f.subbands && Coupled(f, samples, sb) && left != right
    requires Mixing(f, samples, 0, left[..], sb, 0) && Mixing(f, samples, 1, right[..], sb, 0)
    modifies left, right
    ensures Mixing(f, samples, 0, left[..], sb + 1, 0) && Mixing(f, samples, 1, right[..], sb + 1, 0)
  {
    for blk := 0 to f.blocks
      invariant Mixing(f, samples, 0, left[..], sb, blk) && Mixing(f, samples, 1, right[..], sb, blk)
    {
      MixNext(f, samples, 0, left[..], sb, blk);
      MixNext(f, samples, 1, right[..], sb, blk);
      var i := Index(f.subbands, f.blocks, blk, sb);
      ghost var l, r := left[..], right[..];
      var s0, s1 := left[i], right[i];
      left[i] := (s0 + s1) / 2;
      right[i] := (s0 - s1) / 2;
      assert left[..] == l[i := Mixed(f, samples, 0, blk, sb)] && right[..] == r[i := Mixed(f, samples, 1, blk, sb)];
    }
  }

  method Couple(f: Frame, mjoint: nat, sbSamples: seq<array<int>>, ghost samples: seq<seq<int>>)
    requires |sbSamples| == 2 && sbSamples[0] != sbSamples[1] && samples == Rows(sbSamples) && Input(f, samples)
    requires mjoint == Joint(Flags(f, samples))
    modifies sbSamples
    ensures Mixing(f, samples, 0, sbSamples[0][..], f.subbands, 0) && Mixing(f, samples, 1, sbSamples[1][..], f.subbands, 0)
  {
    for sb := 0 to f.subbands
      invariant Mixing(f, samples, 0, sbSamples[0][..], sb, 0) && Mixing(f, samples, 1, sbSamples[1][..], sb, 0)
    {
      JointBits(Flags(f, samples), sb);
      if BitAt(mjoint, sb) {
        CoupleSubband(f, sbSamples[0], sbSamples[1], sb, samples);
      } else {
        MixNone(f, samples, 0, sbSamples[0][..], sb);
        MixNone(f, samples, 1, sbSamples[1][..], sb);
      }
    }
  }

  // ----- the mask

  function Bit(m: nat, j: nat): nat { if BitAt(m, j) then 1 else 0 }

  /** The mask is sent the first subband first; the last one cannot be coupled. */
  function MaskOut(m: nat, nsb: nat): nat {
    if nsb == 4 then 8 * Bit(m, 0) + 4 * Bit(m, 1) + 2 * Bit(m, 2)
    else 128 * Bit(m, 0) + 64 * Bit(m, 1) + 32 * Bit(m, 2) + 16 * Bit(m, 3) + 8 * Bit(m, 4) + 4 * Bit(m, 5) + 2 * Bit(m, 6)
  }

  /** The mask as the receiver takes it. */
  function MaskIn(v: nat, nsb: nat): nat {
    if nsb == 4 then 4 * Bit(v, 1) + 2 * Bit(v, 2) + Bit(v, 3)
    else 64 * Bit(v, 1) + 32 * Bit(v, 2) + 16 * Bit(v, 3) + 8 * Bit(v, 4) + 4 * Bit(v, 5) + 2 * Bit(v, 6) + Bit(v, 7)
  }

  lemma Halved(v: nat, x: nat)
    requires v / 2 == x
    ensures v == 2 * x + Bit(v, 0) && forall j: nat | j > 0 :: BitAt(v, j) == BitAt(x, j - 1)
  {
  }

  lemma BitsMakeNumber(m: nat)
    requires m < 128
    ensures m == 64 * Bit(m, 6) + 32 * Bit(m, 5) + 16 * Bit(m, 4) + 8 * Bit(m, 3) + 4 * Bit(m, 2) + 2 * Bit(m, 1) + Bit(m, 0)
  {
    var m1: nat, m2: nat, m3: nat := m / 2, m / 2 / 2, m / 2 / 2 / 2;
    var m4: nat, m5: nat, m6: nat := m3 / 2, m3 / 2 / 2, m3 / 2 / 2 / 2;
    Halved(m, m1);
    Halved(m1, m2);
    Halved(m2, m3);
    Halved(m3, m4);
    Halved(m4, m5);
    Halved(m5, m6);
    assert m3 == 8 * m6 + 4 * Bit(m, 5) + 2 * Bit(m, 4) + Bit(m, 3);
  }

  /** What is sent, bit by bit. */
  lemma BitsOf8(b7: nat, b6: nat, b5: nat, b4: nat, b3: nat, b2: nat, b1: nat)
    requires b7 <= 1 && b6 <= 1 && b5 <= 1 && b4 <= 1 && b3 <= 1 && b2 <= 1 && b1 <= 1
    ensures var v := 128 * b7 + 64 * b6 + 32 * b5 + 16 * b4 + 8 * b3 + 4 * b2 + 2 * b1;
            Bit(v, 1) == b1 && Bit(v, 2) == b2 && Bit(v, 3) == b3 && Bit(v, 4) == b4 && Bit(v, 5) == b5 &&
            Bit(v, 6) == b6 && Bit(v, 7) == b7
  {
    var v7: nat := b7;
    var v6: nat := 2 * v7 + b6;
    var v5: nat := 2 * v6 + b5;
    var v4: nat := 2 * v5 + b4;
    var v3: nat := 2 * v4 + b3;
    var v2: nat := 2 * v3 + b2;
    var v1: nat := 2 * v2 + b1;
    var v: nat := 2 * v1;
    Halved(v, v1);
    Halved(v1, v2);
    Halved(v2, v3);
    Halved(v3, v4);
    Halved(v4, v5);
    Halved(v5, v6);
    Halved(v6, v7);
  }

  lemma MaskArrives(m: nat, nsb: nat)
    requires nsb == 4 || nsb == 8
    requires m < Pow2(nsb - 1)
    ensures MaskIn(MaskOut(m, nsb), nsb) == m && MaskOut(m, nsb) < Pow2(nsb)
  {
    Pow2At8And16();
    assert Pow2(3) == 8 && Pow2(7) == 128;
    BitsMakeNumber(m);
    if nsb == 4 {
      assert m < 8;
      BitsOf8(0, 0, 0, 0, Bit(m, 0), Bit(m, 1), Bit(m, 2));
    } else {
      BitsOf8(Bit(m, 0), Bit(m, 1), Bit(m, 2), Bit(m, 3), Bit(m, 4), Bit(m, 5), Bit(m, 6));
    }
  }

  // ----- writing

  /** The bits are open for writing and all of this has been written. */
  ghost predicate Wrote(bits: Writer, all: seq<bool>)
    reads bits, bits.data
  {
    bits.Valid() && !bits.error && bits.Written() == all
  }

  method PutField(bits: Writer, value: nat, n: nat, ghost before: seq<bool>, ghost done: seq<bool>)
    requires Wrote(bits, before + done) && n <= MAX_WIDTH && |before + done| + n <= 8 * bits.maxBytes
    modifies bits, bits.data
    ensures Wrote(bits, before + (done + Digits(value, n)))
  {
    bits.PutBits(value, n);
    assert before + done + Digits(value, n) == before + (done + Digits(value, n));
  }

  method PutScaleRow(bits: Writer, row: seq<nat>, ghost w: seq<nat>, ghost before: seq<bool>)
    requires w == seq(|row|, _ => 4) && Wrote(bits, before) && |before| + Sum(w) <= 8 * bits.maxBytes
    modifies bits, bits.data
    ensures Wrote(bits, before + Fields(row, w))
  {
    assert before + Fields(row[..0], w[..0]) == before;
    for sb := 0 to |row|
      invariant Wrote(bits, before + Fields(row[..sb], w[..sb]))
    {
      FieldNext(row, w, sb);
      PutField(bits, row[sb], 4, before, Fields(row[..sb], w[..sb]));
    }
    assert row[..|row|] == row && w[..|row|] == w;
  }

  method PutScaleFactors(bits: Writer, nsb: nat, scf: seq<seq<nat>>, ghost before: seq<bool>)
    requires Shape(scf, |scf|, nsb) && Wrote(bits, before) && |before| + RowsSum(Fours(|scf|, nsb)) <= 8 * bits.maxBytes
    modifies bits, bits.data
    ensures Wrote(bits, before + RowsBits(scf, Fours(|scf|, nsb)))
  {
    ghost var w := Fours(|scf|, nsb);
    assert before + RowsBits(scf[..0], w[..0]) == before;
    for ch := 0 to |scf|
      invariant Wrote(bits, before + RowsBits(scf[..ch], w[..ch]))
    {
      ghost var done := RowsBits(scf[..ch], w[..ch]);
      RowNext(scf, w, ch, before);
      PutScaleRow(bits, scf[ch], w[ch], before + done);
    }
    assert scf[..|scf|] == scf && w[..|scf|] == w;
  }

  /** The coupled samples, and the scale factors and widths they are quantised with. */
  ghost predicate Ready(f: Frame, samples: seq<seq<int>>, mixed: seq<seq<int>>, scf: seq<seq<nat>>, w: seq<seq<nat>>) {
    Input(f, samples) && |mixed| == 2 && scf == ScalesOf(f, samples) && |w| == f.Channels() && AllAtMost16(w) &&
    (forall c | 0 <= c < |w| :: |w[c]| == f.subbands) &&
    forall c: nat | c < 2 :: Mixing(f, samples, c, mixed[c], f.subbands, 0)
  }

  /** The quantiser, on what the samples have become. */
  method Quantise(f: Frame, mixed: seq<seq<int>>, scf: seq<seq<nat>>, nbit: nat, blk: nat, ch: nat, sb: nat,
                  ghost samples: seq<seq<int>>, ghost w: seq<seq<nat>>)
    returns (quantized: nat)
    requires Ready(f, samples, mixed, scf, w) && blk < f.blocks && ch < f.Channels() && sb < f.subbands
    requires nbit == w[ch][sb] > 0
    ensures quantized == CodesOf(f, samples, w)[blk][ch][sb]
  {
    var idx := Index(f.subbands, f.blocks, blk, sb);
    assert Mixing(f, samples, ch, mixed[ch], f.subbands, 0);
    var sample := mixed[ch][idx];
    assert sample == Mixed(f, samples, ch, blk, sb);
    MixedWithin(f, samples, ch, blk, sb);
    var range: nat := Pow2(nbit) - 1;
    CodeBounds(sample, range, Pow2(scf[ch][sb] + 1));
    quantized := ((sample * range) / Pow2(scf[ch][sb] + 1) + range) / 2;
  }

  method PutCodeRow(bits: Writer, f: Frame, mixed: seq<seq<int>>, scf: seq<seq<nat>>, nbits: seq<seq<nat>>, blk: nat,
                    ch: nat, ghost samples: seq<seq<int>>, ghost before: seq<bool>)
    requires Ready(f, samples, mixed, scf, nbits) && blk < f.blocks && ch < f.Channels()
    requires Wrote(bits, before) && |before| + Sum(nbits[ch]) <= 8 * bits.maxBytes
    modifies bits, bits.data
    ensures Wrote(bits, before + Fields(CodesOf(f, samples, nbits)[blk][ch], nbits[ch]))
  {
    ghost var row, w := CodesOf(f, samples, nbits)[blk][ch], nbits[ch];
    assert before + Fields(row[..0], w[..0]) == before;
    for sb := 0 to f.subbands
      invariant Wrote(bits, before + Fields(row[..sb], w[..sb]))
    {
      FieldNext(row, w, sb);
      var nbit := nbits[ch][sb];
      if nbit != 0 {
        var quantized := Quantise(f, mixed, scf, nbit, blk, ch, sb, samples, nbits);
        PutField(bits, quantized, nbit, before, Fields(row[..sb], w[..sb]));
      } else {
        assert Fields(row[..sb], w[..sb]) + Digits(row[sb], 0) == Fields(row[..sb], w[..sb]);
      }
    }
    assert row[..f.subbands] == row && w[..f.subbands] == w;
  }

  method PutCodeBlock(bits: Writer, f: Frame, mixed: seq<seq<int>>, scf: seq<seq<nat>>, nbits: seq<seq<nat>>, blk: nat,
                      ghost samples: seq<seq<int>>, ghost before: seq<bool>)
    requires Ready(f, samples, mixed, scf, nbits) && blk < f.blocks
    requires Wrote(bits, before) && |before| + RowsSum(nbits) <= 8 * bits.maxBytes
    modifies bits, bits.data
    ensures Wrote(bits, before + RowsBits(CodesOf(f, samples, nbits)[blk], nbits))
  {
    ghost var block, w := CodesOf(f, samples, nbits)[blk], nbits;
    assert before + RowsBits(block[..0], w[..0]) == before;
    for ch := 0 to f.Channels()
      invariant Wrote(bits, before + RowsBits(block[..ch], w[..ch]))
    {
      ghost var done := RowsBits(block[..ch], w[..ch]);
      RowNext(block, w, ch, before);
      PutCodeRow(bits, f, mixed, scf, nbits, blk, ch, samples, before + done);
    }
    assert block[..f.Channels()] == block && w[..f.Channels()] == w;
  }

  method PutCodes(bits: Writer, f: Frame, mixed: seq<seq<int>>, scf: seq<seq<nat>>, nbits: seq<seq<nat>>,
                  ghost samples: seq<seq<int>>, ghost before: seq<bool>)
    requires Ready(f, samples, mixed, scf, nbits)
    requires Wrote(bits, before) && |before| + f.blocks * RowsSum(nbits) <= 8 * bits.maxBytes
    modifies bits, bits.data
    ensures Wrote(bits, before + BlocksBits(CodesOf(f, samples, nbits), nbits))
  {
    ghost var codes, w := CodesOf(f, samples, nbits), nbits;
    assert before + BlocksBits(codes[..0], w) == before;
    for blk := 0 to f.blocks
      invariant Wrote(bits, before + BlocksBits(codes[..blk], w))
    {
      ghost var done := BlocksBits(codes[..blk], w);
      BlockNext(codes, w, blk, before);
      PutCodeBlock(bits, f, mixed, scf, nbits, blk, samples, before + done);
    }
    assert codes[..f.blocks] == codes;
  }

  // ----- the frame

  /** What a frame of these samples is to carry. */
  function BodyOf(f: Frame, samples: seq<seq<int>>): (body: Body)
    requires Input(f, samples) && Usable(f) && f.mode != DualChannel
    ensures Formed(f, body)
  {
    var scf := ScalesOf(f, samples);
    Body(if f.mode == JointStereo then MaskOut(Joint(Flags(f, samples)), f.subbands) else 0, scf,
         CodesOf(f, samples, WidthsOf(f, scf)))
  }

  /** The mask, the scale factors and the codes all fit their fields, if and only if no scale factor
      needs more than four bits. */
  lemma FourBitsHold(row: seq<nat>, w: seq<nat>)
    requires |row| == |w| && (forall sb | 0 <= sb < |w| :: w[sb] == 4) && forall sb | 0 <= sb < |row| :: row[sb] < 16
    ensures Fits(row, w)
  {
    assert Pow2(4) == 16;
  }

  lemma {:induction false} BodyFits(f: Frame, samples: seq<seq<int>>)
    requires Input(f, samples) && Usable(f) && f.mode != DualChannel
    ensures InRange(f, BodyOf(f, samples)) <==>
            forall c, sb | 0 <= c < f.Channels() && 0 <= sb < f.subbands :: ScalesOf(f, samples)[c][sb] < 16
  {
    var body, scf, flags := BodyOf(f, samples), ScalesOf(f, samples), Flags(f, samples);
    assert Pow2(4) == 16;
    if f.mode == JointStereo {
      JointFits(flags);
      MaskArrives(Joint(flags), f.subbands);
    }
    var fours := Fours(f.Channels(), f.subbands);
    if InRange(f, body) {
      forall c, sb | 0 <= c < f.Channels() && 0 <= sb < f.subbands ensures scf[c][sb] < 16 {
        assert Fits(scf[c], fours[c]);
      }
    }
    if forall c, sb | 0 <= c < f.Channels() && 0 <= sb < f.subbands :: scf[c][sb] < 16 {
      forall c | 0 <= c < f.Channels() ensures Fits(scf[c], fours[c]) { FourBitsHold(scf[c], fours[c]); }
    }
  }

  /** The last subband is never coupled. */
  lemma JointFits(flags: seq<bool>)
    requires |flags| > 0 && !flags[|flags| - 1]
    ensures Joint(flags) < Pow2(|flags| - 1)
  {
  }

  method PutMask(bits: Writer, f: Frame, mjoint: nat, ghost before: seq<bool>)
    requires f.mode == JointStereo && (f.subbands == 4 || f.subbands == 8)
    requires Wrote(bits, before) && |before| + f.subbands <= 8 * bits.maxBytes
    modifies bits, bits.data
    ensures Wrote(bits, before + Digits(MaskOut(mjoint, f.subbands), f.subbands))
  {
    bits.PutBits(MaskOut(mjoint, f.subbands), f.subbands);
  }

  /** The mask and the scale factors. */
  method PutSide(bits: Writer, f: Frame, mjoint: nat, scf: seq<seq<nat>>, ghost mask: nat, ghost before: seq<bool>)
    requires (f.subbands == 4 || f.subbands == 8) && Shape(scf, f.Channels(), f.subbands)
    requires mask == if f.mode == JointStereo then MaskOut(mjoint, f.subbands) else 0
    requires Wrote(bits, before) && |before| + CoveredBits(f) <= 8 * bits.maxBytes
    modifies bits, bits.data
    ensures Wrote(bits, before + Digits(mask, MaskWidth(f)) + RowsBits(scf, Fours(f.Channels(), f.subbands)))
  {
    if f.mode == JointStereo {
      PutMask(bits, f, mjoint, before);
    } else {
      assert before + Digits(mask, 0) == before;
    }
    FoursSum(f.Channels(), f.subbands);
    PutScaleFactors(bits, f.subbands, scf, before + Digits(mask, MaskWidth(f)));
  }

  /** The number of zeros up to the next byte boundary. */
  function Padding(n: nat): nat { (8 - n % 8) % 8 }

  method Pad(bits: Writer, ghost before: seq<bool>)
    requires Wrote(bits, before) && |before| <= 8 * bits.maxBytes
    modifies bits, bits.data
    ensures Wrote(bits, before + Digits(0, Padding(|before|)))
  {
    var paddingBits := 8 - bits.BitPosition() % 8;
    if paddingBits < 8 {
      bits.PutBits(0, paddingBits);
    } else {
      assert before + Digits(0, 0) == before;
    }
  }

  ghost function Side(f: Frame, body: Body, before: seq<bool>): seq<bool>
    requires Usable(f) && Formed(f, body)
  {
    before + Digits(body.mask, MaskWidth(f)) + RowsBits(body.scf, Fours(f.Channels(), f.subbands))
  }

  /** There is room for everything. */
  lemma Room(f: Frame, body: Body, before: seq<bool>)
    requires Usable(f) && Formed(f, body) && |before| == 32
    ensures var w := WidthsOf(f, body.scf);
            32 + CoveredBits(f) <= 8 * f.FrameSize() && |before + BodyBits(f, body)| <= 8 * f.FrameSize() &&
            |Side(f, body, before)| + f.blocks * RowsSum(w) <= 8 * f.FrameSize() &&
            Side(f, body, before) + BlocksBits(body.codes, w) == before + BodyBits(f, body)
  {
    BodySize(f, body);
    FrameHolds(f);
    BlocksSize(body.codes, WidthsOf(f, body.scf));
    assert Side(f, body, before) + BlocksBits(body.codes, WidthsOf(f, body.scf)) == before + BodyBits(f, body);
  }

  /** The mask, the scale factors, and the widths of the codes. */
  method Prepare(f: Frame, samples: seq<seq<int>>) returns (mjoint: nat, scf: seq<seq<nat>>, nbits: seq<seq<nat>>)
    requires Usable(f) && Input(f, samples)
    ensures mjoint == Joint(Flags(f, samples)) && scf == ScalesOf(f, samples) && nbits == WidthsOf(f, scf)
  {
    var left, right := new nat[8], new nat[8];
    var scaleFactors := [left, right];
    mjoint := ScaleFactors(f, samples, scaleFactors);
    scf := Trim(Rows(scaleFactors), f.Channels(), f.subbands);
    nbits := BitWidths(f, scaleFactors);
  }

  /** The frame up to the codes, and what the codes will need. */
  method PutFirst(bits: Writer, f: Frame, samples: seq<seq<int>>, ghost body: Body, ghost before: seq<bool>)
    returns (mjoint: nat, scf: seq<seq<nat>>, nbits: seq<seq<nat>>)
    requires Usable(f) && f.mode != DualChannel && Input(f, samples) && body == BodyOf(f, samples)
    requires Wrote(bits, before) && |before| == 32 && bits.maxBytes == f.FrameSize()
    modifies bits, bits.data
    ensures Wrote(bits, Side(f, body, before)) && mjoint == Joint(Flags(f, samples))
    ensures scf == body.scf == ScalesOf(f, samples) && nbits == WidthsOf(f, scf)
  {
    mjoint, scf, nbits := Prepare(f, samples);
    Room(f, body, before);
    PutSide(bits, f, mjoint, scf, body.mask, before);
  }

  /** The codes and the padding. */
  method PutSecond(bits: Writer, f: Frame, mixed: seq<seq<int>>, scf: seq<seq<nat>>, nbits: seq<seq<nat>>,
                   ghost samples: seq<seq<int>>, ghost body: Body, ghost before: seq<bool>)
    requires Usable(f) && f.mode != DualChannel && Input(f, samples) && body == BodyOf(f, samples)
    requires Ready(f, samples, mixed, scf, nbits) && nbits == WidthsOf(f, scf)
    requires Wrote(bits, Side(f, body, before)) && |before| == 32 && bits.maxBytes == f.FrameSize()
    modifies bits, bits.data
    ensures Wrote(bits, before + BodyBits(f, body) + Digits(0, Padding(|before + BodyBits(f, body)|)))
  {
    Room(f, body, before);
    PutCodes(bits, f, mixed, scf, nbits, samples, Side(f, body, before));
    Pad(bits, before + BodyBits(f, body));
  }

  method Mix(f: Frame, mjoint: nat, sbSamples: seq<array<int>>, ghost samples: seq<seq<int>>,
             ghost scf: seq<seq<nat>>, ghost w: seq<seq<nat>>)
    requires |sbSamples| == 2 && sbSamples[0] != sbSamples[1] && samples == Rows(sbSamples) && Input(f, samples) && Usable(f)
    requires mjoint == Joint(Flags(f, samples)) && scf == ScalesOf(f, samples) && w == WidthsOf(f, scf)
    modifies sbSamples
    ensures Ready(f, samples, Rows(sbSamples), scf, w)
  {
    Couple(f, mjoint, sbSamples, samples);
    BlockTakes(f, scf);
  }

  /** The frame after the header; the samples are coupled in place. */
  method EncodeFrameData(bits: Writer, f: Frame, sbSamples: seq<array<int>>, ghost before: seq<bool>)
    requires Usable(f) && f.mode != DualChannel
    requires |sbSamples| == 2 && sbSamples[0] != sbSamples[1] && Input(f, Rows(sbSamples))
    requires Wrote(bits, before) && |before| == 32 && bits.maxBytes == f.FrameSize()
    requires forall c | 0 <= c < 2 :: sbSamples[c] as object != bits.data
    modifies bits, bits.data, sbSamples
    ensures var body := BodyOf(f, old(Rows(sbSamples)));
            Wrote(bits, before + BodyBits(f, body) + Digits(0, Padding(|before + BodyBits(f, body)|)))
  {
    ghost var samples := Rows(sbSamples);
    ghost var body := BodyOf(f, samples);
    var mjoint, scf, nbits := PutFirst(bits, f, Rows(sbSamples), body, before);
    Mix(f, mjoint, sbSamples, samples, scf, nbits);
    PutSecond(bits, f, Rows(sbSamples), scf, nbits, samples, body, before);
  }

  // ----- the header

  /** The header with a zero in place of the CRC. */
  ghost function HeaderBits(f: Frame): (bits: seq<bool>)
    requires f.isMsbc || Expressible(f)
    ensures |bits| == 32
  {
    if f.isMsbc then Digits(SYNC_MSBC, 8) + Digits(0, 16) + Digits(0, 8)
    else
      FieldsSize(HeaderValues(f), HEADER_WIDTHS);
      HeaderWidths();
      Fields(HeaderValues(f), HEADER_WIDTHS) + Digits(0, 8)
  }

  /** The header is open, this has been written, and what is beyond it is as it was. */
  ghost predicate Heading(bits: Writer, all: seq<bool>, was: seq<byte>)
    reads bits, bits.data
  {
    Wrote(bits, all) && bits.maxBytes == 4 && bits.data.Length == |was| && bits.data[bits.bytePosition..] == was[bits.bytePosition..]
  }

  method PutHeading(bits: Writer, value: nat, n: nat, ghost all: seq<bool>, ghost was: seq<byte>)
    requires Heading(bits, all, was) && |all| + n <= 32 && n <= 16
    modifies bits, bits.data
    ensures Heading(bits, all + Digits(value, n), was)
  {
    ghost var pos := bits.bytePosition;
    bits.PutBits(value, n);
    assert was[pos..][bits.bytePosition - pos..] == was[bits.bytePosition..];
  }

  method PutHeaderField(bits: Writer, f: Frame, value: nat, n: nat, ghost k: nat, ghost was: seq<byte>)
    requires Expressible(f) && k < 7 && value == HeaderValues(f)[k] && n == HEADER_WIDTHS[k]
    requires Heading(bits, Fields(HeaderValues(f)[..k], HEADER_WIDTHS[..k]), was)
    modifies bits, bits.data
    ensures Heading(bits, Fields(HeaderValues(f)[..k + 1], HEADER_WIDTHS[..k + 1]), was)
  {
    FieldNext(HeaderValues(f), HEADER_WIDTHS, k);
    HeaderWidths();
    assert HEADER_WIDTHS[k] <= 8;
    PutHeading(bits, value, n, Fields(HeaderValues(f)[..k], HEADER_WIDTHS[..k]), was);
  }

  method PutFourFields(bits: Writer, f: Frame, ghost was: seq<byte>)
    requires Expressible(f) && Heading(bits, [], was)
    modifies bits, bits.data
    ensures Heading(bits, Fields(HeaderValues(f)[..4], HEADER_WIDTHS[..4]), was)
  {
    PutHeaderField(bits, f, SYNC, 8, 0, was);
    PutHeaderField(bits, f, f.frequency, 2, 1, was);
    PutHeaderField(bits, f, f.blocks / 4 - 1, 2, 2, was);
    PutHeaderField(bits, f, ModeNumber(f.mode), 2, 3, was);
  }

  method PutHeaderFields(bits: Writer, f: Frame, ghost was: seq<byte>)
    requires Expressible(f) && Heading(bits, [], was)
    modifies bits, bits.data
    ensures Heading(bits, Fields(HeaderValues(f), HEADER_WIDTHS), was)
  {
    PutFourFields(bits, f, was);
    PutHeaderField(bits, f, if f.method_ == Loudness then 0 else 1, 1, 4, was);
    PutHeaderField(bits, f, f.subbands / 4 - 1, 1, 5, was);
    PutHeaderField(bits, f, f.bitpool, 8, 6, was);
    ghost var v, w := HeaderValues(f), HEADER_WIDTHS;
    assert v[..7] == v && w[..7] == w;
  }

  method EncodeHeader(bits: Writer, f: Frame, ghost was: seq<byte>)
    requires f.isMsbc || Expressible(f)
    requires Heading(bits, [], was)
    modifies bits, bits.data
    ensures Heading(bits, HeaderBits(f), was)
  {
    if !f.isMsbc {
      HeaderWidths();
      PutHeaderFields(bits, f, was);
      FieldsSize(HeaderValues(f), HEADER_WIDTHS);
      PutHeading(bits, 0, 8, Fields(HeaderValues(f), HEADER_WIDTHS), was);
    } else {
      PutHeading(bits, SYNC_MSBC, 8, [], was);
      assert [] + Digits(SYNC_MSBC, 8) == Digits(SYNC_MSBC, 8);
      PutHeading(bits, 0, 16, Digits(SYNC_MSBC, 8), was);
      PutHeading(bits, 0, 8, Digits(SYNC_MSBC, 8) + Digits(0, 16), was);
    }
  }

  // ----- encode

  datatype Encoded = Frames(data: seq<byte>) | Refused

  /** The parameters that are used: mSBC has its own. */
  function Signaled(f: Frame): (g: Frame)
    ensures g.isMsbc ==> g == Frame.Msbc()
  {
    if f.isMsbc then Frame.Msbc() else f
  }

  lemma HeaderSaid(f: Frame, head: seq<byte>, rest: seq<byte>)
    requires f.isMsbc || Expressible(f)
    requires f.isMsbc ==> f == Frame.Msbc()
    requires |head| == 3 && |rest| == 1 && BytesBits(head + rest) == HeaderBits(f)
    ensures HeaderIs(f, head)
  {
    BytesBitsConcat(head, rest);
    if f.isMsbc {
      Cut(BytesBits(head), BytesBits(rest), Digits(SYNC_MSBC, 8) + Digits(0, 16), Digits(0, 8));
    } else {
      FieldsSize(HeaderValues(f), HEADER_WIDTHS);
      HeaderWidths();
      Cut(BytesBits(head), BytesBits(rest), Fields(HeaderValues(f), HEADER_WIDTHS), Digits(0, 8));
    }
  }

  /** A valid frame can be said in its header. */
  lemma ValidExpressible(f: Frame)
    requires Usable(f) && !f.isMsbc
    ensures Expressible(f)
  {
    assert f.MaxBits() < 256 * f.blocks;
    QuotientBelow(f.MaxBits(), f.blocks * (if f.mode == DualChannel then 2 else 1));
  }

  lemma QuotientBelow(n: int, d: nat)
    requires d > 0 && n < 256 * d
    ensures n / d < 256
  {
    FactorLess(d, n / d, 256);
  }

  /** The reserved header and the data fill the frame exactly. */
  lemma FillsFrame(f: Frame, body: Body, data: seq<byte>, pos: nat)
    requires Usable(f) && Formed(f, body) && pos <= |data| == f.FrameSize()
    requires var n := |Digits(0, 32) + BodyBits(f, body)|;
             BytesBits(data[..pos]) == Digits(0, 32) + BodyBits(f, body) + Digits(0, Padding(n))
    ensures pos == |data| && BodyBits(f, body) <= BytesBits(data[4..])
  {
    BodySize(f, body);
    FrameHolds(f);
    assert data[..pos] == data && data == data[..4] + data[4..];
    BytesBitsConcat(data[..4], data[4..]);
    var pad := Digits(0, Padding(|Digits(0, 32) + BodyBits(f, body)|));
    Follows(BytesBits(data[..4]), BytesBits(data[4..]), Digits(0, 32), BodyBits(f, body), pad);
  }

  lemma Follows(a: seq<bool>, s: seq<bool>, b: seq<bool>, t: seq<bool>, pad: seq<bool>)
    requires |a| == |b| && a + s == b + t + pad
    ensures t <= s
  {
    assert b + t + pad == b + (t + pad);
    Cut(a, s, b, t + pad);
  }

  method ReserveHeader(bits: Writer)
    requires Wrote(bits, []) && bits.accumulator == 0 && bits.maxBytes >= 4
    modifies bits, bits.data
    ensures Wrote(bits, Digits(0, 32))
  {
    bits.PutBits(0, 32);
    assert [] + Digits(0, 32) == Digits(0, 32);
  }

  /** Nothing is left to flush. */
  method FlushWhole(bits: Writer, ghost all: seq<bool>)
    requires Wrote(bits, all) && |all| % 8 == 0 && |all| <= 8 * bits.maxBytes
    modifies bits, bits.data
    ensures Wrote(bits, all) && BytesBits(bits.data[..bits.bytePosition]) == all
    ensures bits.data[bits.bytePosition..] == old(bits.data[..])[bits.bytePosition..]
  {
    bits.Flush();
    assert all + Digits(0, 0) == all;
  }

  lemma PaddedSize(n: nat, size: nat)
    requires n <= 8 * size
    ensures (n + Padding(n)) % 8 == 0 && n + Padding(n) <= 8 * size
  {
    var q, r := n / 8, n % 8;
    assert n == 8 * q + r;
    if r == 0 { assert Padding(n) == 0; } else { assert Padding(n) == 8 - r && n + Padding(n) == 8 * (q + 1); }
  }

  lemma WholeBytes(f: Frame, body: Body)
    requires Usable(f) && Formed(f, body)
    ensures var start := Digits(0, 32) + BodyBits(f, body); var all := start + Digits(0, Padding(|start|));
            |all| % 8 == 0 && |all| <= 8 * f.FrameSize()
  {
    BodySize(f, body);
    FrameHolds(f);
    PaddedSize(32 + f.DataBits(), f.FrameSize());
  }

  /** The data behind the header, which is left zero. */
  method EncodeData(f: Frame, sbSamples: seq<array<int>>) returns (output: array<byte>)
    requires Usable(f) && f.mode != DualChannel
    requires |sbSamples| == 2 && sbSamples[0] != sbSamples[1] && Input(f, Rows(sbSamples))
    modifies sbSamples
    ensures fresh(output) && output.Length == f.FrameSize() >= 4
    ensures BodyBits(f, BodyOf(f, old(Rows(sbSamples)))) <= BytesBits(output[..][4..])
  {
    output := new byte[f.FrameSize()](_ => 0);
    var dataBits := new Writer(output, f.FrameSize());
    ghost var body := BodyOf(f, Rows(sbSamples));
    FrameHolds(f);
    ReserveHeader(dataBits);
    EncodeFrameData(dataBits, f, sbSamples, Digits(0, 32));
    ghost var all := Digits(0, 32) + BodyBits(f, body);
    WholeBytes(f, body);
    FlushWhole(dataBits, all + Digits(0, Padding(|all|)));
    FillsFrame(f, body, output[..], dataBits.bytePosition);
  }

  lemma CrcElsewhere(f: Frame, before: seq<byte>, crc: byte)
    requires f.IsValid() && 4 <= |before| == f.FrameSize()
    ensures Crc(before[3 := crc], f) == Crc(before, f)
  {
    FrameHolds(f);
    var n, after := CoveredBits(f), before[3 := crc];
    assert after[4..4 + n / 8] == before[4..4 + n / 8];
  }

  /** With its CRC in place the frame is complete. */
  lemma Completed(f: Frame, body: Body, before: seq<byte>, crc: byte)
    requires Usable(f) && Formed(f, body) && 4 <= |before| == f.FrameSize()
    requires HeaderIs(f, before[..3]) && crc as int == Crc(before, f)
    requires BodyBits(f, body) <= BytesBits(before[4..])
    ensures LaidOut(f, body, before[3 := crc])
  {
    var after := before[3 := crc];
    CrcElsewhere(f, before, crc);
    assert after[..3] == before[..3] && after[4..f.FrameSize()] == before[4..];
  }

  method WriteHeader(f: Frame, output: array<byte>)
    requires f.isMsbc || Expressible(f)
    requires (f.isMsbc ==> f == Frame.Msbc()) && output.Length >= 4
    modifies output
    ensures HeaderIs(f, output[..3]) && output[4..] == old(output[..])[4..]
  {
    var headerBits := new Writer(output, 4);
    ghost var was := output[..];
    EncodeHeader(headerBits, f, was);
    FlushWhole(headerBits, HeaderBits(f));
    assert output[..4] == output[..3] + [output[3]];
    HeaderSaid(f, output[..3], [output[3]]);
  }

  /** The encoder after the analysis: the samples of all valid parameters become a frame of exactly
      the size they give. */
  method Encode(frame: Frame, sbSamples: seq<array<int>>) returns (r: Encoded)
    requires frame.frequency < 4 && Signaled(frame).mode != DualChannel
    requires |sbSamples| == 2 && sbSamples[0] != sbSamples[1]
    requires Signaled(frame).IsValid() ==> Input(Signaled(frame), Rows(sbSamples))
    modifies sbSamples
    ensures r.Refused? <==> !Signaled(frame).IsValid()
    ensures r.Frames? ==>
      var f := Signaled(frame);
      |r.data| == f.FrameSize() && LaidOut(f, BodyOf(f, old(Rows(sbSamples))), r.data)
  {
    var f := Signaled(frame);
    if !f.IsValid() { return Refused; }
    ghost var body := BodyOf(f, Rows(sbSamples));
    var output := EncodeData(f, sbSamples);
    if !f.isMsbc { ValidExpressible(f); }
    ghost var data := output[4..];
    WriteHeader(f, output);
    assert output[..][4..] == output[4..] == data;
    FrameHolds(f);
    var crc := Crcs.ComputeCrc(output[..], CoveredBits(f));
    if crc < 0 { return Refused; }
    ghost var before := output[..];
    assert before[..3] == output[..3] && before[4..] == data;
    output[3] := crc;
    Completed(f, body, before, crc);
    assert output[..] == before[3 := crc];
    r := Frames(output[..]);
  }
}
