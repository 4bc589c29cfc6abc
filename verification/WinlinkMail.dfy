/** A mail on its way: serialized, compressed, packed into blocks, and back. */
module WinlinkMail {
  import opened Bits
  import opened Crc
  import opened Lzss
  import Codec
  import Encoder
  import Decoder
  import MailText
  import MailFormat
  import MailContainer

  // ----- the size that the payload announces

  lemma {:induction false} ShiftRightTwice(x: nat, a: nat, b: nat)
    ensures ShiftRight(ShiftRight(x, a), b) == ShiftRight(x, a + b)
    decreases a
  {
    if a > 0 { ShiftRightTwice(x / 2, a - 1, b); }
  }

  lemma ByteApart(n: nat)
    ensures n == Lo(n) + 256 * ShiftRight(n, 8)
  {
    Pow2At8And16();
    LowAndRest(n, 8);
  }

  /** The sum of the shifted size bytes is the size. */
  lemma SizeRead(n: nat)
    requires n < 0x8000_0000
    ensures var d := Lo(ShiftRight(n, 24));
            d < 128 && Lo(n) + 0x100 * Lo(ShiftRight(n, 8)) + 0x1_0000 * Lo(ShiftRight(n, 16)) + 0x100_0000 * d == n
  {
    var n1, n2, n3 := ShiftRight(n, 8), ShiftRight(n, 16), ShiftRight(n, 24);
    ByteApart(n);
    ByteApart(n1);
    ByteApart(n2);
    ShiftRightTwice(n, 8, 8);
    ShiftRightTwice(n, 16, 8);
    Pow2At8And16();
    Pow2At31();
    ShiftRightBound(n, 24, 7);
    assert Pow2(7) == 128;
    LowBitsFit(n3, 8);
  }

  lemma HeaderRead(n: nat, head: seq<byte>)
    requires n < 0x8000_0000 && head == Header(n)
    ensures head[3] < 128 && SumOf(head) == n
  {
    SizeRead(n);
  }

  function SumOf(head: seq<byte>): int
    requires |head| == 4
  {
    var a: int, b: int, c: int, d: int := head[0], head[1], head[2], head[3];
    a + 0x100 * b + 0x1_0000 * c + 0x100_0000 * d
  }

  /** What decodeBlocksToEmail computes from the third to the sixth byte; a missing byte shifts to zero,
      but without a third byte there is no number. */
  function Announced(payload: seq<byte>): (size: MailText.Option<int>) {
    if |payload| < 3 then MailText.None
    else
      var a: int := payload[2];
      var b: int := if |payload| > 3 then payload[3] else 0;
      var c: int := if |payload| > 4 then payload[4] else 0;
      var d: int := if |payload| > 5 then payload[5] else 0;
      MailText.Some(a + 0x100 * b + 0x1_0000 * c + 0x100_0000 * (if d < 128 then d else d - 256))
  }

  lemma FrontOf(body: seq<byte>, crc: nat, head: seq<byte>)
    requires |body| >= 4 && |head| == 4 && body[..4] == head
    ensures var p := Encoder.Framed(body, crc, true);
            |p| >= 6 && p[2] == head[0] && p[3] == head[1] && p[4] == head[2] && p[5] == head[3]
  {
    var p := Encoder.Framed(body, crc, true);
    assert p[2..] == body;
    assert p[2] == p[2..][0] && p[3] == p[2..][1] && p[4] == p[2..][2] && p[5] == p[2..][3];
  }

  lemma SizeAnnounced(body: seq<byte>, x: seq<byte>, toks: seq<Token>, crc: nat)
    requires Encodes(body, x, toks) && |x| < 0x8000_0000
    ensures Announced(Encoder.Framed(body, crc, true)) == MailText.Some(|x|)
  {
    var head := Header(|x|);
    HeaderRead(|x|, head);
    FrontOf(body, crc, head);
    AnnouncedIs(Encoder.Framed(body, crc, true), head, |x|);
  }

  lemma AnnouncedIs(p: seq<byte>, head: seq<byte>, n: nat)
    requires |p| >= 6 && |head| == 4 && p[2] == head[0] && p[3] == head[1] && p[4] == head[2] && p[5] == head[3]
    requires head[3] < 128 && SumOf(head) == n
    ensures Announced(p) == MailText.Some(n)
  {
  }

  // ----- sending

  /** The payload is a compressed form of the mail, with its CRC. */
  ghost predicate Compressed(table: CrcTable, payload: seq<byte>, x: seq<byte>, toks: seq<Token>) {
    exists body: seq<byte> ::
      Encodes(body, x, toks) && payload == Encoder.Framed(body, Swap(CrcOf(table, body)), true)
  }

  method EncodeMailToBlocks(table: CrcTable, m: MailFormat.Mail)
    returns (blocks: seq<seq<byte>>, uncompressedSize: nat, compressedSize: nat, ghost payload: seq<byte>,
             ghost toks: seq<Token>)
    requires MailFormat.Unbroken(m)
    ensures var x := MailFormat.Serialize(m);
            uncompressedSize == |x| && x != [] && Spell(x, toks) && AllCodable(toks) &&
            (Short(toks) ==> Compressed(table, payload, x, toks))
    ensures MailContainer.Joined(blocks) == MailContainer.Output(MailText.ToBytes(m.subject), payload)
    ensures forall k | 0 <= k < |blocks| ::
              0 < |blocks[k]| <= MailContainer.BLOCK && (k < |blocks| - 1 ==> |blocks[k]| == MailContainer.BLOCK)
    ensures compressedSize == |MailContainer.Joined(blocks)|
  {
    var uncompressedMail := MailFormat.SerializeMail(m);
    uncompressedSize := |uncompressedMail|;
    var compResult;
    compResult, toks := Encoder.Encode(table, uncompressedMail, true);
    payload := compResult.data;
    blocks, compressedSize := MailContainer.EncodeToBlocks(MailText.ToBytes(m.subject), compResult.data);
    if Short(toks) {
      var body: seq<byte> :| Encodes(body, uncompressedMail, toks) && compResult.crc == Swap(CrcOf(table, body)) &&
        compResult.data == Encoder.Framed(body, compResult.crc, true);
      assert Compressed(table, payload, uncompressedMail, toks);
    }
  }

  // ----- receiving

  /** Exceptions and an endless loop are outcomes, too. */
  datatype Received = Waiting | Failed | Got(mail: MailFormat.Mail, consumed: nat) | Thrown | Hanging

  function Outcome(r: MailFormat.Read, consumed: nat): Received {
    match r
    case NoHeader => Failed
    case Threw => Thrown
    case Mailed(m) => Got(m, consumed)
  }

  /** Decompression: the mail's bytes come out if the payload is their compressed form. */
  method Decompress(table: CrcTable, payload: seq<byte>, ghost x: seq<byte>, ghost toks: seq<Token>)
    returns (failed: bool, data: seq<byte>)
    ensures Compressed(table, payload, x, toks) && 0 < |x| < 0x8000_0000 ==> !failed && data == x
  {
    failed, data := true, [];
    var size := Announced(payload);
    ghost var good := Compressed(table, payload, x, toks) && 0 < |x| < 0x8000_0000;
    ghost var body: seq<byte> := [];
    if good {
      body :| Encodes(body, x, toks) && payload == Encoder.Framed(body, Swap(CrcOf(table, body)), true);
      SizeAnnounced(body, x, toks, Swap(CrcOf(table, body)));
      Codec.SwapBound(CrcOf(table, body));
      Codec.CrcFramed(body, Swap(CrcOf(table, body)));
    }
    if size.None? || size.value < 0 { return; }
    var decResult := Decoder.Decode(table, payload, true, size.value, x, toks);
    if decResult.size != size.value { return; }
    failed, data := false, decResult.data;
  }

  /** The result for the bytes that have come, if a payload in them can only be the compressed form of x. */
  ghost predicate Understood(table: CrcTable, block: seq<byte>, x: seq<byte>, toks: seq<Token>, r: Received) {
    match MailContainer.Unpack(block)
    case Nothing => r == Waiting
    case Unpacked(end) => Concluded(end, r) && (end.Payload? ==> ReadBack(table, end.payload, end.consumed, x, toks, r))
  }

  ghost predicate Concluded(end: MailContainer.Outcome, r: Received) {
    match end
    case BadChecksum => r == Failed
    case Hangs => r == Hanging
    case Payload(_, _) => true
  }

  ghost predicate ReadBack(table: CrcTable, payload: seq<byte>, n: nat, x: seq<byte>, toks: seq<Token>, r: Received) {
    Compressed(table, payload, x, toks) && 0 < |x| < 0x8000_0000 ==> r == Outcome(MailFormat.Deserialize(x), n)
  }

  method DecodeBlocksToEmail(table: CrcTable, block: seq<byte>, ghost x: seq<byte>, ghost toks: seq<Token>)
    returns (r: Received)
    ensures Understood(table, block, x, toks, r)
  {
    var u := MailContainer.UnpackBlocks(block);
    if u.Nothing? { return Waiting; }
    match u.outcome
    case BadChecksum => r := Failed;
    case Hangs => r := Hanging;
    case Payload(payload, n) =>
      var failed, data := Decompress(table, payload, x, toks);
      if failed { return Failed; }
      var read := MailFormat.DeserializeMail(data);
      r := Outcome(read, n);
  }

  // ----- the round trip

  lemma FewTokens(x: seq<byte>, toks: seq<Token>)
    requires Spell(x, toks) && AllCodable(toks) && |x| <= 3867
    ensures Short(toks)
  {
    Codec.TokensBelow(x, toks);
    Codec.SmallFits(x, toks);
  }

  /** What becomes of a mail whose container is followed by other bytes. */
  ghost predicate Comes(m: MailFormat.Mail, r: Received, size: nat, way: MailContainer.Way)
    requires MailFormat.Unbroken(m)
  {
    Arrives(MailFormat.Deserialize(MailFormat.Serialize(m)), r, size, way)
  }

  ghost predicate Arrives(read: MailFormat.Read, r: Received, size: nat, way: MailContainer.Way) {
    match way
    case Through(k) => r == Outcome(read, size + k)
    case Disagrees => r == Failed
    case Unknown => r == Hanging
  }

  lemma ComesWhole(m: MailFormat.Mail, r: Received, size: nat, way: MailContainer.Way)
    requires MailFormat.Unbroken(m) && Comes(m, r, size, way)
    ensures r.Got? && r.mail == m <==> way.Through? && MailFormat.Survives(m)
  {
    MailFormat.MailArrives(m);
  }

  /** A mail that is at most 3867 bytes long, or shorter than 2^31 with codes that all fit, is sent with any
      bytes behind its joined blocks. If its subject has at most 252 bytes, the way through the bytes behind
      decides whether it is got, with all bytes up to there consumed. If no byte of the subject is the type
      of a record, it is got as it was sent if and only if the subject has at most 252 bytes, the way leads
      through to the end, and the mail survives its own text form. */
  method Send(table: CrcTable, m: MailFormat.Mail, behind: seq<byte>)
    returns (block: seq<byte>, r: Received, ghost payload: seq<byte>, ghost toks: seq<Token>)
    requires MailFormat.Unbroken(m) && |MailFormat.Serialize(m)| < 0x8000_0000
    ensures Spell(MailFormat.Serialize(m), toks) && AllCodable(toks)
    ensures block == MailContainer.Output(MailText.ToBytes(m.subject), payload)
    ensures (|MailFormat.Serialize(m)| <= 3867 || Short(toks)) && |m.subject| <= 252 ==>
              Compressed(table, payload, MailFormat.Serialize(m), toks) &&
              Comes(m, r, |block|, MailContainer.Walk(behind, MailContainer.Checksum(payload), 0))
    ensures (|MailFormat.Serialize(m)| <= 3867 || Short(toks)) && MailContainer.NoTypes(MailText.ToBytes(m.subject)) ==>
              (r.Got? && r.mail == m <==>
               |m.subject| <= 252 && MailFormat.Survives(m) &&
               MailContainer.Walk(behind, MailContainer.Checksum(payload), 0).Through?)
  {
    var blocks, size, compressedSize;
    blocks, size, compressedSize, payload, toks := EncodeMailToBlocks(table, m);
    ghost var x := MailFormat.Serialize(m);
    block := MailContainer.Joined(blocks);
    if |x| <= 3867 { FewTokens(x, toks); }
    r := DecodeBlocksToEmail(table, block + behind, x, toks);
    if Short(toks) { Judged(table, m, payload, toks, behind, r); }
  }

  lemma ShortJudged(table: CrcTable, m: MailFormat.Mail, payload: seq<byte>, toks: seq<Token>, behind: seq<byte>, r: Received)
    requires MailFormat.Unbroken(m) && 0 < |MailFormat.Serialize(m)| < 0x8000_0000 && |m.subject| <= 252
    requires Compressed(table, payload, MailFormat.Serialize(m), toks)
    requires Understood(table, MailContainer.Output(MailText.ToBytes(m.subject), payload) + behind, MailFormat.Serialize(m), toks, r)
    ensures var size := |MailContainer.Output(MailText.ToBytes(m.subject), payload)|;
            Comes(m, r, size, MailContainer.Walk(behind, MailContainer.Checksum(payload), 0))
  {
    var subject, way := MailText.ToBytes(m.subject), MailContainer.Walk(behind, MailContainer.Checksum(payload), 0);
    var size := |MailContainer.Output(subject, payload)|;
    MailContainer.Behind(subject, payload, behind);
    var end := MailContainer.Ending(way, payload, size);
    assert Concluded(end, r) && (end.Payload? ==> ReadBack(table, end.payload, end.consumed, MailFormat.Serialize(m), toks, r));
    WayJudged(MailFormat.Deserialize(MailFormat.Serialize(m)), payload, way, size, r);
  }

  lemma WayJudged(read: MailFormat.Read, payload: seq<byte>, way: MailContainer.Way, size: nat, r: Received)
    requires var end := MailContainer.Ending(way, payload, size);
             Concluded(end, r) && (end.Payload? ==> r == Outcome(read, end.consumed))
    ensures Arrives(read, r, size, way)
  {
  }

  lemma LongJudged(table: CrcTable, subject: seq<byte>, x: seq<byte>, payload: seq<byte>, toks: seq<Token>,
                   behind: seq<byte>, r: Received)
    requires |subject| > 252 && MailContainer.NoTypes(subject)
    requires Understood(table, MailContainer.Output(subject, payload) + behind, x, toks, r)
    ensures r == Waiting
  {
    MailContainer.LongSubject(subject, payload, behind);
  }

  lemma Judged(table: CrcTable, m: MailFormat.Mail, payload: seq<byte>, toks: seq<Token>, behind: seq<byte>, r: Received)
    requires MailFormat.Unbroken(m) && 0 < |MailFormat.Serialize(m)| < 0x8000_0000
    requires Compressed(table, payload, MailFormat.Serialize(m), toks)
    requires Understood(table, MailContainer.Output(MailText.ToBytes(m.subject), payload) + behind, MailFormat.Serialize(m), toks, r)
    ensures var size, way := |MailContainer.Output(MailText.ToBytes(m.subject), payload)|,
                             MailContainer.Walk(behind, MailContainer.Checksum(payload), 0);
            (|m.subject| <= 252 ==> Comes(m, r, size, way)) &&
            (MailContainer.NoTypes(MailText.ToBytes(m.subject)) ==>
              (r.Got? && r.mail == m <==> |m.subject| <= 252 && MailFormat.Survives(m) && way.Through?))
  {
    var subject, way := MailText.ToBytes(m.subject), MailContainer.Walk(behind, MailContainer.Checksum(payload), 0);
    if |m.subject| <= 252 {
      ShortJudged(table, m, payload, toks, behind, r);
      ComesWhole(m, r, |MailContainer.Output(subject, payload)|, way);
    } else if MailContainer.NoTypes(subject) {
      LongJudged(table, subject, MailFormat.Serialize(m), payload, toks, behind, r);
    }
  }
}
