/** SBC's decoder, from the bytes of a frame to its parameters, mask, scale factors and codes. */
module SbcDecoder {
  import opened Bits
  import opened Binary
  import opened Sums
  import opened SbcFrames
  import opened SbcAllocation
  import opened SbcLayout
  import opened SbcBitStream
  import Crcs

  // ----- reading fields

  /** No read has failed, and these fields have been read. */
  ghost predicate Took(bits: Reader, all: seq<bool>, v: seq<nat>, w: seq<nat>)
    reads bits
  {
    bits.Valid() && !bits.error && Fits(v, w) && all == Fields(v, w) + bits.Rest()
  }

  lemma FieldTaken(all: seq<bool>, v: seq<nat>, w: seq<nat>, x: nat, n: nat, rest: seq<bool>, end: seq<bool>)
    requires |v| == |w| && all == Fields(v, w) + rest && rest == Digits(x, n) + end
    ensures all == Fields(v + [x], w + [n]) + end
  {
    FieldsConcat(v, w, [x], [n]);
    OneField(x, n);
    Regroup(Fields(v, w), Digits(x, n), end);
  }

  lemma Regroup(a: seq<bool>, b: seq<bool>, c: seq<bool>)
    ensures a + (b + c) == a + b + c
  {
  }

  lemma OneField(x: nat, n: nat)
    ensures Fields([x], [n]) == Digits(x, n)
  {
    assert [x][1..] == [] && Fields([x], [n]) == Digits(x, n) + Fields([x][1..], [n][1..]);
  }

  lemma OneFits(x: nat, n: nat)
    requires Fits([x], [n])
    ensures x < Pow2(n)
  {
    assert [x][0] < Pow2([n][0]);
  }

  method Take(bits: Reader, n: nat, ghost all: seq<bool>, ghost v: seq<nat>, ghost w: seq<nat>) returns (x: nat)
    requires Took(bits, all, v, w) && n <= MAX_WIDTH && Sum(w) + n <= |all|
    modifies bits
    ensures Took(bits, all, v + [x], w + [n])
  {
    ghost var rest := bits.Rest();
    FieldsSize(v, w);
    x := bits.GetBits(n);
    assert rest == Digits(x, n) + bits.Rest();
    FieldTaken(all, v, w, x, n, rest, bits.Rest());
  }

  /** Between two states of the reader, these bits were read. */
  ghost predicate Left(bits: Reader, all: seq<bool>, read: seq<bool>)
    reads bits
  {
    bits.Valid() && !bits.error && all == read + bits.Rest()
  }

  lemma {:induction false} SumNext(w: seq<nat>, k: nat)
    requires k < |w|
    ensures w[..k + 1] == w[..k] + [w[k]] && Sum(w[..k]) + w[k] <= Sum(w)
  {
    SumConcat(w[..k], [w[k]]);
    SumConcat(w[..k + 1], w[k + 1..]);
    assert w[..k + 1] == w[..k] + [w[k]] && w == w[..k + 1] + w[k + 1..];
  }

  /** The next code of a row; one of no bits is not read. */
  method TakeCode(bits: Reader, nbit: nat, ghost all: seq<bool>, ghost v: seq<nat>, ghost w: seq<nat>) returns (code: nat)
    requires Took(bits, all, v, w) && nbit <= MAX_WIDTH && Sum(w) + nbit <= |all|
    modifies bits
    ensures Took(bits, all, v + [code], w + [nbit])
  {
    code := 0;
    if nbit == 0 {
      assert Digits(0, 0) == [];
      FieldTaken(all, v, w, 0, 0, bits.Rest(), bits.Rest());
    } else {
      code := Take(bits, nbit, all, v, w);
    }
  }

  method TakeRow(bits: Reader, w: seq<nat>, ghost all: seq<bool>) returns (row: seq<nat>)
    requires Left(bits, all, []) && Sum(w) <= |all| && AtMost16(w)
    modifies bits
    ensures Fits(row, w) && Left(bits, all, Fields(row, w))
  {
    row := [];
    for sb := 0 to |w|
      invariant |row| == sb && Took(bits, all, row, w[..sb])
    {
      SumNext(w, sb);
      var code := TakeCode(bits, w[sb], all, row, w[..sb]);
      row := row + [code];
    }
    assert w[..|w|] == w;
  }

  lemma {:induction false} RowTaken(all: seq<bool>, v: seq<seq<nat>>, w: seq<seq<nat>>, k: nat, row: seq<nat>, rest: seq<bool>, end: seq<bool>)
    requires k < |w| && Alike(v, w[..k]) && |row| == |w[k]|
    requires all == RowsBits(v, w[..k]) + rest && rest == Fields(row, w[k]) + end
    ensures Alike(v + [row], w[..k + 1]) && all == RowsBits(v + [row], w[..k + 1]) + end
  {
    assert w[..k + 1] == w[..k] + [w[k]];
    RowsBitsConcat(v, w[..k], [row], [w[k]]);
    assert RowsBits([row], [w[k]]) == Fields(row, w[k]) + RowsBits([], []);
  }

  lemma RowRoom(all: seq<bool>, v: seq<seq<nat>>, w: seq<seq<nat>>, k: nat, rest: seq<bool>)
    requires k < |w| && Alike(v, w[..k]) && all == RowsBits(v, w[..k]) + rest && RowsSum(w) <= |all|
    ensures Sum(w[k]) <= |rest|
  {
    RowsSize(v, w[..k]);
    RowsSumConcat(w[..k], [w[k]]);
    RowsSumConcat(w[..k + 1], w[k + 1..]);
    assert RowsSum([w[k]]) == Sum(w[k]) + RowsSum([]);
    assert w[..k + 1] == w[..k] + [w[k]] && w == w[..k + 1] + w[k + 1..];
  }

  /** These rows have been read. */
  ghost predicate TookRows(bits: Reader, all: seq<bool>, rows: seq<seq<nat>>, w: seq<seq<nat>>)
    reads bits
  {
    RowsFit(rows, w) && Alike(rows, w) && Left(bits, all, RowsBits(rows, w))
  }

  method TakeNextRow(bits: Reader, w: seq<seq<nat>>, ch: nat, ghost all: seq<bool>, ghost rows: seq<seq<nat>>)
    returns (row: seq<nat>)
    requires ch < |w| && TookRows(bits, all, rows, w[..ch]) && RowsSum(w) <= |all| && AllAtMost16(w)
    modifies bits
    ensures TookRows(bits, all, rows + [row], w[..ch + 1])
  {
    ghost var rest := bits.Rest();
    RowRoom(all, rows, w, ch, rest);
    row := TakeRow(bits, w[ch], rest);
    RowTaken(all, rows, w, ch, row, rest, bits.Rest());
  }

  method TakeRows(bits: Reader, w: seq<seq<nat>>, ghost all: seq<bool>) returns (rows: seq<seq<nat>>)
    requires Left(bits, all, []) && RowsSum(w) <= |all| && AllAtMost16(w)
    modifies bits
    ensures RowsFit(rows, w) && Alike(rows, w) && Left(bits, all, RowsBits(rows, w))
  {
    rows := [];
    for ch := 0 to |w|
      invariant |rows| == ch && TookRows(bits, all, rows, w[..ch])
    {
      var row := TakeNextRow(bits, w, ch, all, rows);
      rows := rows + [row];
    }
    assert w[..|w|] == w;
  }

  ghost predicate BlocksFit(blocks: seq<seq<seq<nat>>>, w: seq<seq<nat>>) {
    forall b | 0 <= b < |blocks| :: RowsFit(blocks[b], w) && Alike(blocks[b], w)
  }

  lemma BlockRoom(all: seq<bool>, v: seq<seq<seq<nat>>>, w: seq<seq<nat>>, n: nat, rest: seq<bool>)
    requires BlocksFit(v, w) && |v| < n && all == BlocksBits(v, w) + rest && n * RowsSum(w) <= |all|
    ensures RowsSum(w) <= |rest|
  {
    BlocksSize(v, w);
    BlocksLeft(n, |v|, RowsSum(w));
  }

  lemma BlockTaken(all: seq<bool>, v: seq<seq<seq<nat>>>, w: seq<seq<nat>>, block: seq<seq<nat>>, rest: seq<bool>,
                   end: seq<bool>)
    requires BlocksFit(v, w) && RowsFit(block, w) && Alike(block, w)
    requires all == BlocksBits(v, w) + rest && rest == RowsBits(block, w) + end
    ensures BlocksFit(v + [block], w) && all == BlocksBits(v + [block], w) + end
  {
    BlocksBitsSnoc(v, block, w);
  }

  method TakeBlocks(bits: Reader, w: seq<seq<nat>>, n: nat, ghost all: seq<bool>) returns (blocks: seq<seq<seq<nat>>>)
    requires Left(bits, all, []) && n * RowsSum(w) <= |all| && AllAtMost16(w)
    modifies bits
    ensures |blocks| == n && BlocksFit(blocks, w) && Left(bits, all, BlocksBits(blocks, w))
  {
    blocks := [];
    for blk := 0 to n
      invariant |blocks| == blk && BlocksFit(blocks, w) && Left(bits, all, BlocksBits(blocks, w))
    {
      ghost var rest := bits.Rest();
      BlockRoom(all, blocks, w, n, rest);
      var block := TakeRows(bits, w, rest);
      BlockTaken(all, blocks, w, block, rest, bits.Rest());
      blocks := blocks + [block];
    }
  }

  // ----- the header

  datatype Header = Header(frame: Frame, crc: nat) | NoHeader

  /** No parameters are said by these bytes. */
  ghost predicate SaysNothing(head: seq<byte>)
    requires |head| == 3
  {
    forall f :: !HeaderIs(f, head)
  }

  lemma WrongSync(head: seq<byte>, sync: nat)
    requires |head| == 3 && sync < 256 && sync != SYNC && sync != SYNC_MSBC && BytesBits(head)[..8] == Digits(sync, 8)
    ensures SaysNothing(head)
  {
    Pow2At8And16();
    forall f ensures !HeaderIs(f, head) {
      if HeaderIs(f, head) {
        if f.isMsbc {
          DigitsDetermine(sync, SYNC_MSBC, 8);
        } else {
          SyncFirst(f, head);
          DigitsDetermine(sync, SYNC, 8);
        }
      }
    }
  }

  method TakeParameter(bits: Reader, n: nat, ghost all: seq<bool>, ghost v: seq<nat>) returns (x: nat)
    requires |v| < 7 && n == HEADER_WIDTHS[|v|] && Took(bits, all, v, HEADER_WIDTHS[..|v|]) && |all| == 32
    modifies bits
    ensures Took(bits, all, v + [x], HEADER_WIDTHS[..|v| + 1])
  {
    ghost var w, k := HEADER_WIDTHS, |v|;
    HeaderWidths();
    SumNext(w, k);
    assert n <= MAX_WIDTH;
    x := Take(bits, n, all, v, w[..k]);
  }

  method TakeFirst(bits: Reader, ghost all: seq<bool>, sync: nat) returns (freq: nat, blocks: nat, mode: nat)
    requires Took(bits, all, [sync], HEADER_WIDTHS[..1]) && |all| == 32
    modifies bits
    ensures Took(bits, all, [sync, freq, blocks, mode], HEADER_WIDTHS[..4])
  {
    freq := TakeParameter(bits, 2, all, [sync]);
    assert [sync] + [freq] == [sync, freq];
    blocks := TakeParameter(bits, 2, all, [sync, freq]);
    assert [sync, freq] + [blocks] == [sync, freq, blocks];
    mode := TakeParameter(bits, 2, all, [sync, freq, blocks]);
    assert [sync, freq, blocks] + [mode] == [sync, freq, blocks, mode];
  }

  /** The parameters of a frame that is not mSBC. */
  method TakeParameters(bits: Reader, ghost all: seq<bool>) returns (frame: Frame)
    requires Took(bits, all, [SYNC], HEADER_WIDTHS[..1]) && |all| == 32
    modifies bits
    ensures Expressible(frame) && Took(bits, all, HeaderValues(frame), HEADER_WIDTHS)
  {
    var freq, blocks, mode := TakeFirst(bits, all, SYNC);
    ghost var v := [SYNC, freq, blocks, mode];
    var bam := TakeParameter(bits, 1, all, v);
    var subbands := TakeParameter(bits, 1, all, v + [bam]);
    var bitpool := TakeParameter(bits, 8, all, v + [bam] + [subbands]);
    ghost var all7 := v + [bam] + [subbands] + [bitpool];
    assert HEADER_WIDTHS[..7] == HEADER_WIDTHS;
    frame := Said(freq, blocks, mode, bam, subbands, bitpool, all7);
  }

  method Said(freq: nat, blocks: nat, mode: nat, bam: nat, subbands: nat, bitpool: nat, ghost v: seq<nat>)
    returns (frame: Frame)
    requires v == [SYNC, freq, blocks, mode, bam, subbands, bitpool] && Fits(v, HEADER_WIDTHS)
    ensures Expressible(frame) && HeaderValues(frame) == v
  {
    Pow2At8And16();
    assert Pow2(1) == 2 && Pow2(2) == 4;
    assert v[1] < Pow2(HEADER_WIDTHS[1]) && v[2] < Pow2(HEADER_WIDTHS[2]) && v[3] < Pow2(HEADER_WIDTHS[3]);
    assert v[4] < Pow2(HEADER_WIDTHS[4]) && v[5] < Pow2(HEADER_WIDTHS[5]) && v[6] < Pow2(HEADER_WIDTHS[6]);
    frame := Frame(false, freq, ModeOf(mode), if bam == 0 then Loudness else Snr, 4 * (1 + blocks), 4 * (1 + subbands),
                   bitpool);
  }

  /** The header: the parameters it says, or nothing if it starts with neither sync word. */
  method DecodeHeader(bits: Reader, ghost head: seq<byte>, ghost last: byte) returns (r: Header)
    requires |head| == 3 && bits.Holds(BytesBits(head) + ByteBits(last))
    modifies bits
    ensures !bits.error
    ensures r.Header? ==> HeaderIs(r.frame, head) && r.crc == last
    ensures r.NoHeader? ==> SaysNothing(head)
  {
    ghost var all := bits.Rest();
    assert all == Fields([], []) + bits.Rest();
    var sync := Take(bits, 8, all, [], []);
    assert [] + [sync] == [sync] && [] + [8] == [8] == HEADER_WIDTHS[..1];
    Started(sync, head, last, bits.Rest());
    var frame;
    if sync == SYNC_MSBC {
      ghost var rest := bits.Rest();
      var reserved := bits.GetBits(16);
      frame := Frame.Msbc();
      Reserved(head, last, sync, rest, bits.Rest());
    } else if sync == SYNC {
      frame := TakeParameters(bits, all);
      FieldsSize(HeaderValues(frame), HEADER_WIDTHS);
      HeaderWidths();
      Cut(BytesBits(head), ByteBits(last), Fields(HeaderValues(frame), HEADER_WIDTHS), bits.Rest());
    } else {
      WrongSync(head, sync);
      return NoHeader;
    }
    var crc := TakeByte(bits, last, 8);
    r := Header(frame, crc);
  }

  method TakeByte(bits: Reader, ghost last: byte, n: nat) returns (x: nat)
    requires n == 8 && bits.Holds(ByteBits(last))
    modifies bits
    ensures !bits.error && x == last
  {
    ghost var end := bits.Rest();
    x := bits.GetBits(n);
    Pow2At8And16();
    assert end[..n] == end;
    DigitsDetermine(x, last, n);
  }

  lemma Started(sync: nat, head: seq<byte>, last: byte, rest: seq<bool>)
    requires |head| == 3 && Fits([sync], [8]) && BytesBits(head) + ByteBits(last) == Fields([sync], [8]) + rest
    ensures sync < 256 && BytesBits(head)[..8] == Digits(sync, 8)
  {
    Pow2At8And16();
    OneField(sync, 8);
    OneFits(sync, 8);
    assert (BytesBits(head) + ByteBits(last))[..8] == BytesBits(head)[..8];
    assert (Fields([sync], [8]) + rest)[..8] == Digits(sync, 8);
  }

  lemma Reserved(head: seq<byte>, last: byte, sync: nat, rest: seq<bool>, end: seq<bool>)
    requires |head| == 3 && BytesBits(head) + ByteBits(last) == Fields([sync], [8]) + rest
    requires |rest| >= 16 && end == rest[16..]
    ensures end == ByteBits(last)
  {
    FieldsSize([sync], [8]);
    assert Sum([8]) == 8 + Sum([]);
    Cut(BytesBits(head), ByteBits(last), Fields([sync], [8]) + rest[..16], end);
  }

  // ----- the frame after the header

  /** The mask of a joint stereo frame. */
  method TakeMask(bits: Reader, f: Frame, ghost all: seq<bool>) returns (mask: nat)
    requires f.subbands == 4 || f.subbands == 8
    requires Left(bits, all, []) && MaskWidth(f) <= |all|
    modifies bits
    ensures mask < Pow2(MaskWidth(f)) && Left(bits, all, Digits(mask, MaskWidth(f)))
  {
    mask := 0;
    if f.mode == JointStereo {
      mask := bits.GetBits(f.subbands);
      assert all == all[..f.subbands] + all[f.subbands..];
    } else {
      assert Digits(0, 0) == [];
    }
  }

  /** A scale factor row goes to its array. */
  method TakeScaleRow(bits: Reader, f: Frame, scaleFactors: seq<array<nat>>, ch: nat, ghost all: seq<bool>)
    requires Shaped(f, scaleFactors) && |scaleFactors| == 2 && ch < 2
    requires Left(bits, all, []) && 4 * f.subbands <= |all|
    modifies bits, scaleFactors[ch]
    ensures var row, w := scaleFactors[ch][..f.subbands], seq(f.subbands, _ => 4);
            Fits(row, w) && Left(bits, all, Fields(row, w))
  {
    ghost var w := seq(f.subbands, _ => 4);
    for sb := 0 to f.subbands
      invariant Took(bits, all, scaleFactors[ch][..sb], w[..sb])
    {
      SumOfSame(w[..sb], 4);
      ghost var row := scaleFactors[ch][..sb];
      var x := Take(bits, 4, all, row, w[..sb]);
      scaleFactors[ch][sb] := x;
      assert scaleFactors[ch][..sb + 1] == row + [x] && w[..sb + 1] == w[..sb] + [4];
    }
    assert w[..f.subbands] == w;
  }

  lemma TrimNext(rows: seq<seq<nat>>, k: nat, n: nat)
    requires k < |rows| && forall c | 0 <= c < |rows| :: n <= |rows[c]|
    ensures Trim(rows, k + 1, n) == Trim(rows, k, n) + [rows[k][..n]]
  {
  }

  method TakeNextScales(bits: Reader, f: Frame, scaleFactors: seq<array<nat>>, ch: nat,
                        ghost rows: seq<seq<nat>>, ghost w: seq<seq<nat>>, ghost all: seq<bool>)
    requires Shaped(f, scaleFactors) && |scaleFactors| == 2 && ch < f.Channels() && w == Fours(f.Channels(), f.subbands)
    requires RowsFit(rows, w[..ch]) && Alike(rows, w[..ch]) && Left(bits, all, RowsBits(rows, w[..ch])) && RowsSum(w) <= |all|
    modifies bits, scaleFactors[ch]
    ensures var more := rows + [scaleFactors[ch][..f.subbands]];
            RowsFit(more, w[..ch + 1]) && Alike(more, w[..ch + 1]) && Left(bits, all, RowsBits(more, w[..ch + 1]))
  {
    ghost var rest := bits.Rest();
    RowRoom(all, rows, w, ch, rest);
    SumOfSame(w[ch], 4);
    TakeScaleRow(bits, f, scaleFactors, ch, rest);
    RowTaken(all, rows, w, ch, scaleFactors[ch][..f.subbands], rest, bits.Rest());
  }

  method TakeScaleFactors(bits: Reader, f: Frame, scaleFactors: seq<array<nat>>, ghost all: seq<bool>)
    requires Shaped(f, scaleFactors) && |scaleFactors| == 2
    requires Left(bits, all, []) && 4 * f.subbands * f.Channels() <= |all|
    modifies bits, scaleFactors
    ensures var rows, w := Trim(Rows(scaleFactors), f.Channels(), f.subbands), Fours(f.Channels(), f.subbands);
            RowsFit(rows, w) && Alike(rows, w) && Left(bits, all, RowsBits(rows, w))
  {
    ghost var w := Fours(f.Channels(), f.subbands);
    FoursSum(f.Channels(), f.subbands);
    ghost var rows: seq<seq<nat>> := [];
    for ch := 0 to f.Channels()
      invariant rows == Trim(Rows(scaleFactors), ch, f.subbands)
      invariant RowsFit(rows, w[..ch]) && Alike(rows, w[..ch]) && Left(bits, all, RowsBits(rows, w[..ch]))
    {
      TakeNextScales(bits, f, scaleFactors, ch, rows, w, all);
      ghost var row: seq<nat> := scaleFactors[ch][..f.subbands];
      rows := rows + [row];
      TrimNext(Rows(scaleFactors), ch, f.subbands);
    }
    assert w[..f.Channels()] == w;
  }

  /** The padding is skipped. */
  method SkipPadding(bits: Reader, ghost all: seq<bool>)
    requires Left(bits, all, []) && |all| < 8
    modifies bits
    ensures !bits.error
  {
    var paddingBits := 8 - bits.BitPosition() % 8;
    if paddingBits < 8 {
      var _ := bits.GetBits(paddingBits);
    }
  }

  lemma BodyTaken(f: Frame, body: Body, all: seq<bool>, a: seq<bool>, b: seq<bool>, end: seq<bool>)
    requires Usable(f) && Formed(f, body)
    requires all == Digits(body.mask, MaskWidth(f)) + a
    requires a == RowsBits(body.scf, Fours(f.Channels(), f.subbands)) + b
    requires b == BlocksBits(body.codes, WidthsOf(f, body.scf)) + end
    ensures all == BodyBits(f, body) + end
  {
    InThree(f, body, end);
  }

  /** The room for each part of the body. */
  lemma PartsRoom(f: Frame, scf: seq<seq<nat>>)
    requires Usable(f) && Shape(scf, f.Channels(), f.subbands)
    ensures f.DataBits() == CoveredBits(f) + f.blocks * RowsSum(WidthsOf(f, scf)) && AllAtMost16(WidthsOf(f, scf))
    ensures |RowsBits(scf, Fours(f.Channels(), f.subbands))| == 4 * f.subbands * f.Channels()
  {
    BlockTakes(f, scf);
    DataBitsAre(f, RowsSum(WidthsOf(f, scf)));
    FoursSum(f.Channels(), f.subbands);
    RowsSize(scf, Fours(f.Channels(), f.subbands));
  }

  /** The mask, the scale factors, and the widths the codes must have. */
  method TakeFront(bits: Reader, f: Frame, ghost all: seq<bool>)
    returns (mask: nat, scf: seq<seq<nat>>, nbits: seq<seq<nat>>, ghost middle: seq<bool>)
    requires Usable(f) && Left(bits, all, []) && f.DataBits() <= |all|
    modifies bits
    ensures mask < Pow2(MaskWidth(f)) && Shape(scf, f.Channels(), f.subbands) && nbits == WidthsOf(f, scf)
    ensures RowsFit(scf, Fours(f.Channels(), f.subbands))
    ensures all == Digits(mask, MaskWidth(f)) + middle && bits.Valid() && !bits.error
    ensures middle == RowsBits(scf, Fours(f.Channels(), f.subbands)) + bits.Rest()
  {
    FrameHolds(f);
    mask := TakeMask(bits, f, all);
    middle := bits.Rest();
    var left, right := new nat[8], new nat[8];
    var scaleFactors := [left, right];
    TakeScaleFactors(bits, f, scaleFactors, middle);
    scf := Trim(Rows(scaleFactors), f.Channels(), f.subbands);
    nbits := BitWidths(f, scaleFactors);
  }

  /** The frame after the header. */
  method DecodeFrameData(bits: Reader, f: Frame, ghost all: seq<bool>) returns (body: Body)
    requires Usable(f) && Left(bits, all, []) && f.DataBits() <= |all| < f.DataBits() + 8
    modifies bits
    ensures !bits.error && Formed(f, body) && InRange(f, body) && BodyBits(f, body) <= all
  {
    var mask, scf, nbits;
    ghost var middle;
    mask, scf, nbits, middle := TakeFront(bits, f, all);
    PartsRoom(f, scf);
    ghost var last := bits.Rest();
    var codes := TakeBlocks(bits, nbits, f.blocks, last);
    body := Body(mask, scf, codes);
    assert Formed(f, body);
    BodyTaken(f, body, all, middle, last, bits.Rest());
    BodySize(f, body);
    SkipPadding(bits, bits.Rest());
  }

  // ----- decode

  datatype Decoded = Contents(frame: Frame, body: Body) | NotAFrame

  lemma OnlyThese(f: Frame, data: seq<byte>, g: Frame, body: Body)
    requires |data| >= 4 && HeaderIs(f, data[..3]) && LaidOut(g, body, data)
    ensures f == g
  {
    HeaderOnce(f, g, data[..3]);
  }

  lemma HeaderUsable(f: Frame, head: seq<byte>)
    requires |head| == 3 && HeaderIs(f, head)
    ensures f.frequency < 4
  {
  }

  method ReadHeader(data: seq<byte>) returns (r: Header)
    requires |data| >= 4
    ensures r.Header? ==> HeaderIs(r.frame, data[..3]) && r.crc == data[3]
    ensures r.NoHeader? ==> SaysNothing(data[..3])
  {
    var headerBits := new Reader(data, 4);
    assert data[..4] == data[..3] + [data[3]];
    BytesBitsConcat(data[..3], [data[3]]);
    OneByte(data[3]);
    r := DecodeHeader(headerBits, data[..3], data[3]);
  }

  method ReadBody(data: seq<byte>, f: Frame) returns (body: Body)
    requires Usable(f) && 4 <= f.FrameSize() <= |data|
    ensures Formed(f, body) && InRange(f, body) && BodyBits(f, body) <= BytesBits(data[4..f.FrameSize()])
  {
    var dataBits := new Reader(data, f.FrameSize());
    var size := f.FrameSize();
    ghost var all := BytesBits(data[4..size]);
    assert data[..size] == data[..4] + data[4..size];
    BytesBitsConcat(data[..4], data[4..size]);
    var _ := dataBits.GetBits(32);
    FrameHolds(f);
    assert dataBits.Rest() == all == [] + all;
    body := DecodeFrameData(dataBits, f, all);
  }

  /** The decoder up to the synthesis: for all data, it finds the parameters and the body that the data
      carries with a right CRC, and nothing if there are none. */
  method Decode(data: seq<byte>) returns (r: Decoded)
    ensures r.Contents? ==> LaidOut(r.frame, r.body, data) && InRange(r.frame, r.body)
    ensures r.NotAFrame? ==> forall f, body :: !LaidOut(f, body, data)
  {
    if |data| < 4 { return NotAFrame; }
    var h := ReadHeader(data);
    if h.NoHeader? { return NotAFrame; }
    var f := h.frame;
    forall g, body | LaidOut(g, body, data) ensures f == g { OnlyThese(f, data, g, body); }
    HeaderUsable(f, data[..3]);
    if !f.IsValid() { return NotAFrame; }
    if |data| < f.FrameSize() { return NotAFrame; }
    FrameHolds(f);
    var computedCrc := Crcs.ComputeCrc(data, CoveredBits(f));
    if computedCrc != h.crc { return NotAFrame; }
    var body := ReadBody(data, f);
    r := Contents(f, body);
  }
}
