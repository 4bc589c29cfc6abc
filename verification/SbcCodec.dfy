/** SBC's encoder and decoder together: what a frame carries is what the decoder finds. */
module SbcCodec {
  import opened Bits
  import opened SbcFrames
  import opened SbcAllocation
  import opened SbcLayout
  import opened SbcSamples
  import opened SbcEncoder
  import opened SbcDecoder

  /** Every scale factor can be said in four bits. */
  ghost predicate FourBitScales(f: Frame, samples: seq<seq<int>>)
    requires Input(f, samples)
  {
    forall c, sb | 0 <= c < f.Channels() && 0 <= sb < f.subbands :: ScalesOf(f, samples)[c][sb] < 16
  }

  /** Data that starts with what the encoder made is decoded, with the encoder's parameters, and the
      body is the encoder's if and only if every scale factor can be said in four bits. */
  lemma Agreement(f: Frame, samples: seq<seq<int>>, data: seq<byte>, g: Frame, body: Body)
    requires Input(f, samples) && Usable(f) && f.mode != DualChannel && LaidOut(f, BodyOf(f, samples), data)
    requires LaidOut(g, body, data) && InRange(g, body)
    ensures g == f && (body == BodyOf(f, samples) <==> FourBitScales(f, samples))
  {
    BodyFits(f, samples);
    CarriesOne(f, BodyOf(f, samples), g, body, data);
  }

  /** Two samples at the negative end. */
  ghost predicate LowPair(f: Frame, samples: seq<seq<int>>, sb: nat)
    requires Input(f, samples) && sb < f.subbands
  {
    exists blk: nat | blk < f.blocks ::
      samples[0][Index(f.subbands, f.blocks, blk, sb)] == -0x8000 && samples[1][Index(f.subbands, f.blocks, blk, sb)] == -0x8000
  }

  lemma PlainScaleFits(f: Frame, samples: seq<seq<int>>, c: nat, sb: nat)
    requires Input(f, samples) && c < 2 && sb < f.subbands
    ensures Scales(f, samples[c])[sb] < 16
  {
    var xs := Column(samples[c], f.subbands, f.blocks, sb);
    assert Pow2(16) == 0x1_0000 by { Pow2At8And16(); }
    forall k | 0 <= k < |xs| ensures Abs(xs[k]) <= Pow2(16) - 1 {
      assert Sample(samples[c][Index(f.subbands, f.blocks, k, sb)]);
    }
    ScaleBelow(xs, 16);
  }

  lemma DifferenceFits(f: Frame, samples: seq<seq<int>>, sb: nat)
    requires Input(f, samples) && sb < f.subbands
    ensures DifferenceScale(f, samples, sb) < 16
  {
    var xs, ys := Column(samples[0], f.subbands, f.blocks, sb), Column(samples[1], f.subbands, f.blocks, sb);
    var ds := Minus(xs, ys);
    assert Pow2(16) == 0x1_0000 by { Pow2At8And16(); }
    forall k | 0 <= k < |ds| ensures Abs(ds[k]) <= Pow2(16) - 1 {
      var i := Index(f.subbands, f.blocks, k, sb);
      assert Sample(samples[0][i]) && Sample(samples[1][i]);
    }
    ScaleBelow(ds, 16);
  }

  lemma SumFits(f: Frame, samples: seq<seq<int>>, sb: nat)
    requires Input(f, samples) && sb < f.subbands
    ensures SumScale(f, samples, sb) >= 16 <==> LowPair(f, samples, sb)
  {
    var xs, ys := Column(samples[0], f.subbands, f.blocks, sb), Column(samples[1], f.subbands, f.blocks, sb);
    var ps := Plus(xs, ys);
    assert Pow2(16) == 0x1_0000 by { Pow2At8And16(); }
    ScaleIs(ps);
    forall k: nat | k < f.blocks
      ensures Abs(ps[k]) > Pow2(16) - 1 <==> xs[k] == ys[k] == -0x8000
    {
      var i := Index(f.subbands, f.blocks, k, sb);
      assert Sample(samples[0][i]) && Sample(samples[1][i]);
    }
    if SumScale(f, samples, sb) >= 16 {
      Pow2Monotone(16, SumScale(f, samples, sb));
      var k :| 0 <= k < |ps| && Abs(ps[k]) >= Pow2(Scale(ps));
      assert xs[k] == ys[k] == -0x8000;
    }
    if LowPair(f, samples, sb) {
      var blk: nat :| blk < f.blocks && samples[0][Index(f.subbands, f.blocks, blk, sb)] == -0x8000 &&
        samples[1][Index(f.subbands, f.blocks, blk, sb)] == -0x8000;
      assert xs[blk] == ys[blk] == -0x8000;
      if SumScale(f, samples, sb) < 16 { Pow2Monotone(SumScale(f, samples, sb) + 1, 16); }
    }
  }

  /** A scale factor needs a fifth bit exactly where two channels are coupled that are both at the
      negative end in the same block. */
  lemma ScalesFit(f: Frame, samples: seq<seq<int>>)
    requires Input(f, samples)
    ensures FourBitScales(f, samples) <==>
            forall sb: nat | sb < f.subbands :: !(Coupled(f, samples, sb) && LowPair(f, samples, sb))
  {
    forall c: nat, sb: nat | c < f.Channels() && sb < f.subbands
      ensures ScalesOf(f, samples)[c][sb] >= 16 <==> c == 0 && Coupled(f, samples, sb) && LowPair(f, samples, sb)
    {
      PlainScaleFits(f, samples, c, sb);
      DifferenceFits(f, samples, sb);
      SumFits(f, samples, sb);
    }
    if FourBitScales(f, samples) {
      forall sb: nat | sb < f.subbands ensures !(Coupled(f, samples, sb) && LowPair(f, samples, sb)) {
        assert ScalesOf(f, samples)[0][sb] < 16;
      }
    }
  }

  lemma {:induction false} ScaleOfConstant(xs: seq<int>, x: int)
    requires |xs| > 0 && forall k | 0 <= k < |xs| :: xs[k] == x
    ensures Scale(xs) == TopBit(Abs(x))
  {
    if |xs| > 1 { ScaleOfConstant(xs[..|xs| - 1], x); } else { assert Scale(xs[..0]) == 0; }
  }

  const LOUD: seq<seq<int>> := [seq(16, _ => -0x8000), seq(16, _ => -0x8000)]

  /** It does happen: two channels that stay at the negative end. */
  lemma LoudestPair(f: Frame)
    requires f == Frame(false, 0, JointStereo, Loudness, 4, 4, 16)
    ensures Usable(f) && Input(f, LOUD) && Coupled(f, LOUD, 0) && LowPair(f, LOUD, 0) && !FourBitScales(f, LOUD)
  {
    var xs := Column(LOUD[0], 4, 4, 0);
    ScaleOfConstant(xs, -0x8000);
    ScaleOfConstant(Plus(xs, xs), -0x1_0000);
    ScaleOfConstant(Minus(xs, xs), 0);
    Pow2At8And16();
    assert Pow2(17) == 0x2_0000;
    TopBitOnly(0x8000, 15);
    TopBitOnly(0x1_0000, 16);
    assert LOUD[0][Index(4, 4, 0, 0)] == -0x8000;
    ScalesFit(f, LOUD);
  }

  /** Encoding and decoding, with anything at all behind the frame. */
  method Exchange(frame: Frame, sbSamples: seq<array<int>>, behind: seq<byte>) returns (r: Decoded)
    requires frame.frequency < 4 && Signaled(frame).mode != DualChannel && Signaled(frame).IsValid()
    requires |sbSamples| == 2 && sbSamples[0] != sbSamples[1] && Input(Signaled(frame), Rows(sbSamples))
    modifies sbSamples
    ensures r.Contents? && r.frame == Signaled(frame)
    ensures var f, samples := Signaled(frame), old(Rows(sbSamples));
            r.body == BodyOf(f, samples) <==>
            forall sb: nat | sb < f.subbands :: !(Coupled(f, samples, sb) && LowPair(f, samples, sb))
  {
    ghost var f, samples := Signaled(frame), Rows(sbSamples);
    var sent := Encode(frame, sbSamples);
    var data := sent.data + behind;
    Behind(f, BodyOf(f, samples), sent.data, behind);
    r := Decode(data);
    Agreement(f, samples, data, r.frame, r.body);
    ScalesFit(f, samples);
  }

  lemma Behind(f: Frame, body: Body, data: seq<byte>, behind: seq<byte>)
    requires LaidOut(f, body, data) && |data| == f.FrameSize()
    ensures LaidOut(f, body, data + behind)
  {
    var all, n := data + behind, CoveredBits(f);
    FrameHolds(f);
    assert all[..3] == data[..3] && all[4..f.FrameSize()] == data[4..f.FrameSize()];
    assert all[4..4 + n / 8] == data[4..4 + n / 8];
  }
}
