/** What the bits of an SBC frame say: the header, then the joint stereo mask, the scale factors and
    the codes, whose widths follow from the scale factors. */
module SbcLayout {
  import opened Bits
  import opened Binary
  import opened Sums
  import opened SbcFrames
  import opened SbcAllocation
  import Crcs
  import CrcTables
  import Polynomials

  /** The joint stereo mask as it is sent, the scale factors by channel and subband, and the codes by
      block, channel and subband. */
  datatype Body = Body(mask: nat, scf: seq<seq<nat>>, codes: seq<seq<seq<nat>>>)

  // ----- rows of fields

  /** Rows of nch channels of n entries. */
  ghost predicate Shape<T>(rows: seq<seq<T>>, nch: nat, n: nat) {
    |rows| == nch && forall c | 0 <= c < nch :: |rows[c]| == n
  }

  ghost predicate Fits(values: seq<nat>, widths: seq<nat>) {
    |values| == |widths| && forall k | 0 <= k < |values| :: values[k] < Pow2(widths[k])
  }

  ghost predicate RowsFit(rows: seq<seq<nat>>, widths: seq<seq<nat>>) {
    |rows| == |widths| && forall c | 0 <= c < |rows| :: Fits(rows[c], widths[c])
  }

  ghost predicate Alike(rows: seq<seq<nat>>, widths: seq<seq<nat>>) {
    |rows| == |widths| && forall c | 0 <= c < |rows| :: |rows[c]| == |widths[c]|
  }

  function RowsBits(rows: seq<seq<nat>>, widths: seq<seq<nat>>): (bits: seq<bool>)
    requires Alike(rows, widths)
  {
    if rows == [] then [] else Fields(rows[0], widths[0]) + RowsBits(rows[1..], widths[1..])
  }

  function BlocksBits(blocks: seq<seq<seq<nat>>>, widths: seq<seq<nat>>): (bits: seq<bool>)
    requires forall b | 0 <= b < |blocks| :: Alike(blocks[b], widths)
  {
    if blocks == [] then [] else RowsBits(blocks[0], widths) + BlocksBits(blocks[1..], widths)
  }

  function RowsSum(widths: seq<seq<nat>>): nat {
    if widths == [] then 0 else Sum(widths[0]) + RowsSum(widths[1..])
  }

  lemma {:induction false} FieldsSize(v: seq<nat>, w: seq<nat>)
    requires |v| == |w|
    ensures |Fields(v, w)| == Sum(w)
  {
    if v != [] { FieldsSize(v[1..], w[1..]); }
  }

  lemma {:induction false} RowsSize(v: seq<seq<nat>>, w: seq<seq<nat>>)
    requires Alike(v, w)
    ensures |RowsBits(v, w)| == RowsSum(w)
  {
    if v != [] {
      FieldsSize(v[0], w[0]);
      RowsSize(v[1..], w[1..]);
    }
  }

  lemma {:induction false} BlocksSize(v: seq<seq<seq<nat>>>, w: seq<seq<nat>>)
    requires forall b | 0 <= b < |v| :: Alike(v[b], w)
    ensures |BlocksBits(v, w)| == |v| * RowsSum(w)
  {
    if v != [] {
      RowsSize(v[0], w);
      BlocksSize(v[1..], w);
      assert |v| * RowsSum(w) == RowsSum(w) + (|v| - 1) * RowsSum(w);
    }
  }

  lemma {:induction false} RowsBitsConcat(v: seq<seq<nat>>, w: seq<seq<nat>>, v': seq<seq<nat>>, w': seq<seq<nat>>)
    requires Alike(v, w) && Alike(v', w')
    ensures Alike(v + v', w + w') && RowsBits(v + v', w + w') == RowsBits(v, w) + RowsBits(v', w')
  {
    if v == [] {
      assert v + v' == v' && w + w' == w';
    } else {
      assert (v + v')[1..] == v[1..] + v' && (w + w')[1..] == w[1..] + w';
      RowsBitsConcat(v[1..], w[1..], v', w');
    }
  }

  lemma {:induction false} BlocksBitsSnoc(v: seq<seq<seq<nat>>>, block: seq<seq<nat>>, w: seq<seq<nat>>)
    requires (forall b | 0 <= b < |v| :: Alike(v[b], w)) && Alike(block, w)
    ensures BlocksBits(v + [block], w) == BlocksBits(v, w) + RowsBits(block, w)
  {
    if v == [] {
      assert v + [block] == [block];
      assert BlocksBits([block], w) == RowsBits(block, w) + BlocksBits([], w);
    } else {
      assert (v + [block])[1..] == v[1..] + [block];
      BlocksBitsSnoc(v[1..], block, w);
    }
  }

  /** The bits of the first k + 1 fields, and the room they take. */
  lemma FieldNext(v: seq<nat>, w: seq<nat>, k: nat)
    requires |v| == |w| && k < |v|
    ensures Fields(v[..k + 1], w[..k + 1]) == Fields(v[..k], w[..k]) + Digits(v[k], w[k])
    ensures |Fields(v[..k], w[..k])| + w[k] <= Sum(w)
  {
    assert v[..k + 1] == v[..k] + [v[k]] && w[..k + 1] == w[..k] + [w[k]];
    FieldsConcat(v[..k], w[..k], [v[k]], [w[k]]);
    assert Fields([v[k]], [w[k]]) == Digits(v[k], w[k]) + Fields([], []);
    FieldsSize(v[..k], w[..k]);
    SumConcat(w[..k], [w[k]]);
    SumConcat(w[..k + 1], w[k + 1..]);
    assert w == w[..k + 1] + w[k + 1..];
  }

  lemma {:induction false} RowsSumConcat(w: seq<seq<nat>>, w': seq<seq<nat>>)
    ensures RowsSum(w + w') == RowsSum(w) + RowsSum(w')
  {
    if w == [] {
      assert w + w' == w';
    } else {
      assert (w + w')[1..] == w[1..] + w';
      RowsSumConcat(w[1..], w');
    }
  }

  lemma {:induction false} RowNext(v: seq<seq<nat>>, w: seq<seq<nat>>, k: nat, before: seq<bool>)
    requires Alike(v, w) && k < |v|
    ensures var done := RowsBits(v[..k], w[..k]);
            before + RowsBits(v[..k + 1], w[..k + 1]) == before + done + Fields(v[k], w[k]) &&
            |done| + Sum(w[k]) <= RowsSum(w)
  {
    assert v[..k + 1] == v[..k] + [v[k]] && w[..k + 1] == w[..k] + [w[k]];
    RowsBitsConcat(v[..k], w[..k], [v[k]], [w[k]]);
    assert RowsBits([v[k]], [w[k]]) == Fields(v[k], w[k]) + RowsBits([], []);
    RowsSize(v[..k], w[..k]);
    RowsSumConcat(w[..k], [w[k]]);
    RowsSumConcat(w[..k + 1], w[k + 1..]);
    assert RowsSum([w[k]]) == Sum(w[k]) + RowsSum([]);
    assert w == w[..k + 1] + w[k + 1..];
  }

  lemma BlockNext(v: seq<seq<seq<nat>>>, w: seq<seq<nat>>, k: nat, before: seq<bool>)
    requires (forall b | 0 <= b < |v| :: Alike(v[b], w)) && k < |v|
    ensures var done := BlocksBits(v[..k], w);
            before + BlocksBits(v[..k + 1], w) == before + done + RowsBits(v[k], w) &&
            |done| + RowsSum(w) <= |v| * RowsSum(w)
  {
    assert v[..k + 1] == v[..k] + [v[k]];
    BlocksBitsSnoc(v[..k], v[k], w);
    BlocksSize(v[..k], w);
    BlocksLeft(|v|, k, RowsSum(w));
  }

  lemma BlocksLeft(n: nat, k: nat, r: nat)
    requires k < n
    ensures k * r + r <= n * r
  {
    assert n * r == k * r + r + (n - k - 1) * r;
  }

  // ----- values are what their bits say

  lemma {:induction false} FieldsOnce(v: seq<nat>, v': seq<nat>, w: seq<nat>, r: seq<bool>, r': seq<bool>)
    requires Fits(v, w) && Fits(v', w) && Fields(v, w) + r == Fields(v', w) + r'
    ensures v == v' && r == r'
  {
    if v == [] {
      assert r == Fields(v, w) + r && r' == Fields(v', w) + r';
    } else {
      var a, b := Digits(v[0], w[0]), Digits(v'[0], w[0]);
      var s, s' := Fields(v[1..], w[1..]) + r, Fields(v'[1..], w[1..]) + r';
      assert a + s == Fields(v, w) + r && b + s' == Fields(v', w) + r';
      assert (a + s)[..w[0]] == a && (b + s')[..w[0]] == b && (a + s)[w[0]..] == s && (b + s')[w[0]..] == s';
      DigitsDetermine(v[0], v'[0], w[0]);
      FieldsOnce(v[1..], v'[1..], w[1..], r, r');
      assert v == [v[0]] + v[1..] && v' == [v'[0]] + v'[1..];
    }
  }

  lemma {:induction false} RowsOnce(v: seq<seq<nat>>, v': seq<seq<nat>>, w: seq<seq<nat>>, r: seq<bool>, r': seq<bool>)
    requires RowsFit(v, w) && RowsFit(v', w) && RowsBits(v, w) + r == RowsBits(v', w) + r'
    ensures v == v' && r == r'
  {
    if v == [] {
      assert r == RowsBits(v, w) + r && r' == RowsBits(v', w) + r';
    } else {
      var s, s' := RowsBits(v[1..], w[1..]) + r, RowsBits(v'[1..], w[1..]) + r';
      assert Fields(v[0], w[0]) + s == RowsBits(v, w) + r && Fields(v'[0], w[0]) + s' == RowsBits(v', w) + r';
      FieldsOnce(v[0], v'[0], w[0], s, s');
      RowsOnce(v[1..], v'[1..], w[1..], r, r');
      assert v == [v[0]] + v[1..] && v' == [v'[0]] + v'[1..];
    }
  }

  lemma {:induction false} BlocksOnce(v: seq<seq<seq<nat>>>, v': seq<seq<seq<nat>>>, w: seq<seq<nat>>, r: seq<bool>,
                                      r': seq<bool>)
    requires |v| == |v'| && (forall b | 0 <= b < |v| :: RowsFit(v[b], w) && RowsFit(v'[b], w))
    requires (forall b | 0 <= b < |v| :: Alike(v[b], w)) && (forall b | 0 <= b < |v| :: Alike(v'[b], w))
    requires BlocksBits(v, w) + r == BlocksBits(v', w) + r'
    ensures v == v' && r == r'
  {
    if v == [] {
      assert r == BlocksBits(v, w) + r && r' == BlocksBits(v', w) + r';
    } else {
      var s, s' := BlocksBits(v[1..], w) + r, BlocksBits(v'[1..], w) + r';
      assert RowsBits(v[0], w) + s == BlocksBits(v, w) + r && RowsBits(v'[0], w) + s' == BlocksBits(v', w) + r';
      RowsOnce(v[0], v'[0], w, s, s');
      BlocksOnce(v[1..], v'[1..], w, r, r');
      assert v == [v[0]] + v[1..] && v' == [v'[0]] + v'[1..];
    }
  }

  // ----- the widths of the codes

  /** The bits given to each subband of the channels that one allocation is made for. */
  function Split(bits: seq<nat>, nch: nat, nsb: nat): (w: seq<seq<nat>>)
    requires 1 <= nch <= 2 && |bits| == nch * nsb
    ensures |w| == nch && forall c | 0 <= c < nch :: |w[c]| == nsb
  {
    if nch == 1 then [bits] else [seq(nsb, sb requires 0 <= sb < nsb => bits[2 * sb]),
                                  seq(nsb, sb requires 0 <= sb < nsb => bits[2 * sb + 1])]
  }

  ghost predicate Usable(frame: Frame) {
    frame.IsValid() && frame.frequency < 4
  }

  function WidthsOf(frame: Frame, scf: seq<seq<nat>>): (w: seq<seq<nat>>)
    requires Usable(frame) && Shape(scf, frame.Channels(), frame.subbands)
    ensures |w| == frame.Channels() && forall c | 0 <= c < |w| :: |w[c]| == frame.subbands
  {
    if frame.mode == DualChannel then [AllocationOf(frame, [scf[0]]), AllocationOf(frame, [scf[1]])]
    else Split(AllocationOf(frame, scf), frame.Channels(), frame.subbands)
  }

  lemma {:induction false} SumOfPairs(bits: seq<nat>, nsb: nat)
    requires |bits| == 2 * nsb
    ensures var w := Split(bits, 2, nsb); Sum(w[0]) + Sum(w[1]) == Sum(bits)
  {
    var w := Split(bits, 2, nsb);
    if nsb > 0 {
      var w' := Split(bits[2..], 2, nsb - 1);
      assert w[0][1..] == w'[0] && w[1][1..] == w'[1] && bits[1..][1..] == bits[2..];
      SumOfPairs(bits[2..], nsb - 1);
      assert Sum(bits) == bits[0] + (bits[1] + Sum(bits[2..]));
    }
  }

  lemma RowsSumIs(w: seq<seq<nat>>)
    requires 1 <= |w| <= 2
    ensures RowsSum(w) == Sum(w[0]) + if |w| == 2 then Sum(w[1]) else 0
  {
    assert RowsSum(w) == Sum(w[0]) + RowsSum(w[1..]);
    if |w| == 2 { assert RowsSum(w[1..]) == Sum(w[1]) + RowsSum(w[1..][1..]); }
  }

  ghost predicate AllAtMost16(w: seq<seq<nat>>) {
    forall c | 0 <= c < |w| :: AtMost16(w[c])
  }

  lemma AllocationSum(frame: Frame, scf: seq<seq<nat>>)
    requires Usable(frame) && frame.AllocatedChannels() <= |scf| && forall c | 0 <= c < |scf| :: |scf[c]| >= frame.subbands
    ensures Sum(AllocationOf(frame, scf)) == frame.bitpool && AtMost16(AllocationOf(frame, scf))
  {
    AllocationIs(frame, scf, Highest(NeedsOf(frame, scf)));
  }

  /** The codes of one block take exactly bitpool bits per allocation. */
  lemma BlockTakes(frame: Frame, scf: seq<seq<nat>>)
    requires Usable(frame) && Shape(scf, frame.Channels(), frame.subbands)
    ensures RowsSum(WidthsOf(frame, scf)) == frame.bitpool * (if frame.mode == DualChannel then 2 else 1)
    ensures AllAtMost16(WidthsOf(frame, scf))
  {
    var w := WidthsOf(frame, scf);
    RowsSumIs(w);
    if frame.mode == DualChannel {
      AllocationSum(frame, [scf[0]]);
      AllocationSum(frame, [scf[1]]);
    } else {
      AllocationSum(frame, scf);
      if frame.Channels() == 2 { SumOfPairs(AllocationOf(frame, scf), frame.subbands); }
    }
  }

  // ----- the bits after the header

  function Fours(nch: nat, nsb: nat): (w: seq<seq<nat>>)
    ensures |w| == nch && forall c | 0 <= c < nch :: w[c] == seq(nsb, _ => 4)
  {
    seq(nch, _ => seq(nsb, _ => 4))
  }

  function MaskWidth(frame: Frame): nat { if frame.mode == JointStereo then frame.subbands else 0 }

  ghost predicate Formed(frame: Frame, body: Body) {
    Shape(body.scf, frame.Channels(), frame.subbands) && |body.codes| == frame.blocks &&
    forall b | 0 <= b < |body.codes| :: Shape(body.codes[b], frame.Channels(), frame.subbands)
  }

  /** Every value can be said in its field. */
  ghost predicate InRange(frame: Frame, body: Body)
    requires Usable(frame) && Formed(frame, body)
  {
    body.mask < Pow2(MaskWidth(frame)) && RowsFit(body.scf, Fours(frame.Channels(), frame.subbands)) &&
    forall b | 0 <= b < |body.codes| :: RowsFit(body.codes[b], WidthsOf(frame, body.scf))
  }

  function BodyBits(frame: Frame, body: Body): (bits: seq<bool>)
    requires Usable(frame) && Formed(frame, body)
  {
    Digits(body.mask, MaskWidth(frame)) + RowsBits(body.scf, Fours(frame.Channels(), frame.subbands)) +
    BlocksBits(body.codes, WidthsOf(frame, body.scf))
  }

  lemma FoursSum(nch: nat, nsb: nat)
    requires 1 <= nch <= 2
    ensures RowsSum(Fours(nch, nsb)) == 4 * nsb * nch
  {
    RowsSumIs(Fours(nch, nsb));
    SumOfSame(seq(nsb, _ => 4), 4);
  }

  lemma BodyParts(frame: Frame, body: Body, w: seq<seq<nat>>)
    requires Usable(frame) && Formed(frame, body) && w == WidthsOf(frame, body.scf)
    ensures |BodyBits(frame, body)| ==
            MaskWidth(frame) + RowsSum(Fours(frame.Channels(), frame.subbands)) + frame.blocks * RowsSum(w)
  {
    RowsSize(body.scf, Fours(frame.Channels(), frame.subbands));
    BlocksSize(body.codes, w);
  }

  lemma DataBitsAre(frame: Frame, sum: nat)
    requires sum == frame.bitpool * (if frame.mode == DualChannel then 2 else 1)
    ensures MaskWidth(frame) + 4 * frame.subbands * frame.Channels() + frame.blocks * sum == frame.DataBits()
  {
    if frame.mode == DualChannel {
      assert frame.blocks * (frame.bitpool * 2) == frame.blocks * frame.bitpool * 2;
    }
  }

  /** They are as many as the frame size allows for. */
  lemma BodySize(frame: Frame, body: Body)
    requires Usable(frame) && Formed(frame, body)
    ensures |BodyBits(frame, body)| == frame.DataBits()
  {
    var w := WidthsOf(frame, body.scf);
    BodyParts(frame, body, w);
    FoursSum(frame.Channels(), frame.subbands);
    BlockTakes(frame, body.scf);
    DataBitsAre(frame, RowsSum(w));
  }

  lemma InThree(frame: Frame, x: Body, r: seq<bool>)
    requires Usable(frame) && Formed(frame, x)
    ensures BodyBits(frame, x) + r ==
            Digits(x.mask, MaskWidth(frame)) +
            (RowsBits(x.scf, Fours(frame.Channels(), frame.subbands)) + (BlocksBits(x.codes, WidthsOf(frame, x.scf)) + r))
  {
  }

  /** The bits say the mask, the scale factors and the codes: no two bodies have the same. */
  lemma BodyOnce(frame: Frame, x: Body, y: Body, r: seq<bool>, r': seq<bool>)
    requires Usable(frame) && Formed(frame, x) && Formed(frame, y) && InRange(frame, x) && InRange(frame, y)
    requires BodyBits(frame, x) + r == BodyBits(frame, y) + r'
    ensures x == y && r == r'
  {
    var n, fours, w := MaskWidth(frame), Fours(frame.Channels(), frame.subbands), WidthsOf(frame, x.scf);
    var cx, cy := BlocksBits(x.codes, w) + r, BlocksBits(y.codes, WidthsOf(frame, y.scf)) + r';
    var tx, ty := RowsBits(x.scf, fours) + cx, RowsBits(y.scf, fours) + cy;
    InThree(frame, x, r);
    InThree(frame, y, r');
    Cut(Digits(x.mask, n), tx, Digits(y.mask, n), ty);
    DigitsDetermine(x.mask, y.mask, n);
    RowsOnce(x.scf, y.scf, fours, cx, cy);
    BlocksOnce(x.codes, y.codes, w, r, r');
  }

  lemma Cut(a: seq<bool>, s: seq<bool>, b: seq<bool>, t: seq<bool>)
    requires |a| == |b| && a + s == b + t
    ensures a == b && s == t
  {
    assert (a + s)[..|a|] == a && (b + t)[..|a|] == b && (a + s)[|a|..] == s && (b + t)[|a|..] == t;
  }

  // ----- the allocator's widths

  /** The first n entries of the first nch rows. */
  function Trim(rows: seq<seq<nat>>, nch: nat, n: nat): (t: seq<seq<nat>>)
    requires nch <= |rows| && forall c | 0 <= c < nch :: n <= |rows[c]|
    ensures |t| == nch && forall c | 0 <= c < nch :: |t[c]| == n
  {
    seq(nch, c requires 0 <= c < nch => rows[c][..n])
  }

  lemma SplitFlat(rows: seq<seq<nat>>, nch: nat, nsb: nat)
    requires 1 <= nch <= 2 && nch <= |rows| && forall c | 0 <= c < |rows| :: nsb <= |rows[c]|
    ensures Split(Flat(rows, nch, nsb), nch, nsb) == Trim(rows, nch, nsb)
  {
    var w, t := Split(Flat(rows, nch, nsb), nch, nsb), Trim(rows, nch, nsb);
    forall c: nat, sb: nat | c < nch && sb < nsb ensures w[c][sb] == t[c][sb] { FlatAt(rows, nch, nsb, c, sb); }
    forall c: nat | c < nch ensures w[c] == t[c] {}
  }

  /** The entries beyond the subbands do not matter. */
  lemma AllocationTrimmed(f: Frame, rows: seq<seq<nat>>, t: seq<seq<nat>>)
    requires Usable(f) && f.AllocatedChannels() <= |rows| && f.AllocatedChannels() <= |t|
    requires forall c | 0 <= c < |rows| :: |rows[c]| >= f.subbands
    requires forall c | 0 <= c < |t| :: |t[c]| >= f.subbands
    requires forall c | 0 <= c < f.AllocatedChannels() :: rows[c][..f.subbands] == t[c][..f.subbands]
    ensures AllocationOf(f, rows) == AllocationOf(f, t)
  {
    var nch, nsb := f.AllocatedChannels(), f.subbands;
    var a, b := Flat(rows, nch, nsb), Flat(t, nch, nsb);
    forall k: nat | k < nch * nsb ensures a[k] == b[k] {
      assert rows[k % nch][..nsb][k / nch] == t[k % nch][..nsb][k / nch];
    }
    assert NeedsOf(f, rows) == NeedsOf(f, t);
  }

  method AllocateOnce(f: Frame, scaleFactors: seq<array<nat>>, nbits: seq<array<nat>>, ghost scf: seq<seq<nat>>)
    requires Usable(f) && Shaped(f, scaleFactors) && Shaped(f, nbits) && Disjoint(scaleFactors, nbits)
    requires f.AllocatedChannels() <= |scf| && forall c | 0 <= c < |scf| :: |scf[c]| == f.subbands
    requires forall c | 0 <= c < f.AllocatedChannels() :: scaleFactors[c][..f.subbands] == scf[c]
    modifies nbits
    ensures Trim(Rows(nbits), f.AllocatedChannels(), f.subbands) ==
            Split(AllocationOf(f, scf), f.AllocatedChannels(), f.subbands)
  {
    AllocationTrimmed(f, Rows(scaleFactors), scf);
    ComputeBitAllocation(f, scaleFactors, nbits);
    SplitFlat(Rows(nbits), f.AllocatedChannels(), f.subbands);
  }

  /** Two channels on their own. */
  method AllocateBoth(f: Frame, scaleFactors: seq<array<nat>>, nbits: seq<array<nat>>, ghost scf: seq<seq<nat>>)
    requires Usable(f) && f.mode == DualChannel && Shaped(f, scaleFactors) && Shaped(f, nbits)
    requires Disjoint(scaleFactors, nbits) && |scaleFactors| == |nbits| == 2 && Shape(scf, 2, f.subbands)
    requires forall c | 0 <= c < 2 :: scaleFactors[c][..f.subbands] == scf[c]
    modifies nbits
    ensures Trim(Rows(nbits), 2, f.subbands) == WidthsOf(f, scf)
  {
    AllocateOnce(f, scaleFactors, nbits, [scf[0]]);
    ghost var first := Trim(Rows(nbits), 1, f.subbands);
    assert first[0] == nbits[0][..f.subbands];
    AllocateOnce(f, [scaleFactors[1]], [nbits[1]], [scf[1]]);
    ghost var second := Trim(Rows([nbits[1]]), 1, f.subbands);
    assert second[0] == nbits[1][..f.subbands];
  }

  /** The widths of the codes, from scale factors on arrays. */
  method Allocate(f: Frame, scaleFactors: seq<array<nat>>, nbits: seq<array<nat>>, ghost scf: seq<seq<nat>>)
    requires Usable(f) && Shaped(f, scaleFactors) && Shaped(f, nbits) && Disjoint(scaleFactors, nbits)
    requires |scaleFactors| == |nbits| == 2 && Shape(scf, f.Channels(), f.subbands)
    requires forall c | 0 <= c < f.Channels() :: scaleFactors[c][..f.subbands] == scf[c]
    modifies nbits
    ensures Trim(Rows(nbits), f.Channels(), f.subbands) == WidthsOf(f, scf)
  {
    if f.mode == DualChannel {
      AllocateBoth(f, scaleFactors, nbits, scf);
    } else {
      AllocateOnce(f, scaleFactors, nbits, scf);
    }
  }

  method BitWidths(f: Frame, scaleFactors: seq<array<nat>>) returns (w: seq<seq<nat>>)
    requires Usable(f) && Shaped(f, scaleFactors) && |scaleFactors| == 2
    ensures w == WidthsOf(f, Trim(Rows(scaleFactors), f.Channels(), f.subbands))
  {
    var left, right := new nat[8], new nat[8];
    var nbits := [left, right];
    Allocate(f, scaleFactors, nbits, Trim(Rows(scaleFactors), f.Channels(), f.subbands));
    w := Trim(Rows(nbits), f.Channels(), f.subbands);
  }

  // ----- the header

  const SYNC: nat := 0x9C
  const SYNC_MSBC: nat := 0xAD

  function ModeNumber(mode: Mode): (n: nat)
    ensures n < 4
  {
    match mode
    case Mono => 0
    case DualChannel => 1
    case Stereo => 2
    case JointStereo => 3
  }

  function ModeOf(n: nat): (mode: Mode)
    requires n < 4
    ensures ModeNumber(mode) == n
  {
    if n == 0 then Mono else if n == 1 then DualChannel else if n == 2 then Stereo else JointStereo
  }

  /** The parameters a header can say. */
  predicate Expressible(f: Frame) {
    !f.isMsbc && f.frequency < 4 && f.blocks in {4, 8, 12, 16} && f.subbands in {4, 8} && f.bitpool < 256
  }

  const HEADER_WIDTHS: seq<nat> := [8, 2, 2, 2, 1, 1, 8]

  function HeaderValues(f: Frame): (v: seq<nat>)
    requires Expressible(f)
    ensures |v| == 7
  {
    [SYNC, f.frequency, f.blocks / 4 - 1, ModeNumber(f.mode), if f.method_ == Loudness then 0 else 1, f.subbands / 4 - 1,
     f.bitpool]
  }

  lemma HeaderWidths()
    ensures Sum(HEADER_WIDTHS) == 24
  {
    SumConcat([8, 2, 2, 2], [1, 1, 8]);
    assert HEADER_WIDTHS == [8, 2, 2, 2] + [1, 1, 8];
    assert Sum([8, 2, 2, 2]) == 8 + Sum([2, 2, 2]);
    assert Sum([1, 1, 8]) == 1 + Sum([1, 8]);
  }

  lemma HeaderFits(f: Frame)
    requires Expressible(f)
    ensures Fits(HeaderValues(f), HEADER_WIDTHS)
  {
    Pow2At8And16();
    assert Pow2(1) == 2 && Pow2(2) == 4;
  }

  /** What the header says in its first three bytes; the last two of an mSBC header are reserved. */
  ghost predicate HeaderIs(f: Frame, head: seq<byte>)
    requires |head| == 3
  {
    if f.isMsbc then f == Frame.Msbc() && BytesBits(head)[..8] == Digits(SYNC_MSBC, 8)
    else Expressible(f) && BytesBits(head) == Fields(HeaderValues(f), HEADER_WIDTHS)
  }

  lemma SyncFirst(f: Frame, head: seq<byte>)
    requires |head| == 3 && HeaderIs(f, head) && !f.isMsbc
    ensures BytesBits(head)[..8] == Digits(SYNC, 8)
  {
    assert Fields(HeaderValues(f), HEADER_WIDTHS) ==
           Digits(SYNC, 8) + Fields(HeaderValues(f)[1..], HEADER_WIDTHS[1..]);
  }

  lemma SyncsDiffer()
    ensures Digits(SYNC, 8) != Digits(SYNC_MSBC, 8)
  {
    Pow2At8And16();
    if Digits(SYNC, 8) == Digits(SYNC_MSBC, 8) { DigitsDetermine(SYNC, SYNC_MSBC, 8); }
  }

  lemma HeaderOnce(f: Frame, g: Frame, head: seq<byte>)
    requires |head| == 3 && HeaderIs(f, head) && HeaderIs(g, head)
    ensures f == g
  {
    SyncsDiffer();
    if !f.isMsbc { SyncFirst(f, head); }
    if !g.isMsbc { SyncFirst(g, head); }
    if !f.isMsbc && !g.isMsbc {
      HeaderFits(f);
      HeaderFits(g);
      FieldsOnce(HeaderValues(f), HeaderValues(g), HEADER_WIDTHS, [], []);
      SameHeader(f, g);
    }
  }

  lemma SameHeader(f: Frame, g: Frame)
    requires Expressible(f) && Expressible(g) && HeaderValues(f) == HeaderValues(g)
    ensures f == g
  {
    var v, w := HeaderValues(f), HeaderValues(g);
    assert v[1] == w[1] && v[2] == w[2] && v[3] == w[3] && v[4] == w[4] && v[5] == w[5] && v[6] == w[6];
    assert ModeOf(v[3]) == f.mode && ModeOf(w[3]) == g.mode;
  }

  // ----- the whole frame

  /** The number of bits after the header that the CRC covers. */
  function CoveredBits(f: Frame): nat {
    4 * f.subbands * f.Channels() + MaskWidth(f)
  }

  lemma FrameHolds(f: Frame)
    requires f.IsValid()
    ensures CoveredBits(f) % 4 == 0 && CoveredBits(f) <= f.DataBits() <= 8 * (f.FrameSize() - 4) < f.DataBits() + 8
  {
    assert f.blocks * f.bitpool >= 0;
  }

  function Crc(data: seq<byte>, f: Frame): nat
    requires f.IsValid() && f.FrameSize() <= |data|
  {
    FrameHolds(f);
    Polynomials.Serial(0x0F, Crcs.Covered(data, CoveredBits(f)), 8, CrcTables.POLY_8)
  }

  /** The data starts with a frame of these parameters that carries this body, and its CRC is right. */
  ghost predicate LaidOut(f: Frame, body: Body, data: seq<byte>) {
    Usable(f) && Formed(f, body) && f.FrameSize() <= |data| && 4 <= |data| && HeaderIs(f, data[..3]) &&
    data[3] as int == Crc(data, f) && BodyBits(f, body) <= BytesBits(data[4..f.FrameSize()])
  }

  lemma SameBody(f: Frame, x: Body, y: Body, bits: seq<bool>)
    requires Usable(f) && Formed(f, x) && InRange(f, x) && Formed(f, y) && InRange(f, y)
    requires BodyBits(f, x) <= bits && BodyBits(f, y) <= bits
    ensures x == y
  {
    BodyOnce(f, x, y, bits[|BodyBits(f, x)|..], bits[|BodyBits(f, y)|..]);
  }

  /** Data carries one set of parameters, and one body of values that are all in range: a body that was
      written is the one that is read if and only if it is in range. */
  lemma CarriesOne(f: Frame, x: Body, g: Frame, y: Body, data: seq<byte>)
    requires LaidOut(f, x, data) && LaidOut(g, y, data) && InRange(g, y)
    ensures f == g && (x == y <==> InRange(f, x))
  {
    HeaderOnce(f, g, data[..3]);
    if InRange(f, x) { SameBody(f, x, y, BytesBits(data[4..f.FrameSize()])); }
  }
}
