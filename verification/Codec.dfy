/** The round trip through encode and decode. */
module Codec {
  import opened Bits
  import opened Crc
  import opened Lzss
  import Encoder
  import Decoder

  /** A message of at most 3867 bytes parses into at most that many tokens, whose codes all fit. */
  lemma SmallFits(x: seq<byte>, toks: seq<Token>)
    requires Spell(x, toks) && AllCodable(toks) && |toks| <= 3867
    ensures Short(toks)
  {
    FewAreShort(toks);
  }

  lemma TokensBelow(x: seq<byte>, toks: seq<Token>)
    requires Spell(x, toks)
    ensures |toks| <= |x|
  {
    ParsesCodable(History(x), toks);
  }

  /** The CRC that encode puts in front is the one decode takes off. */
  lemma CrcFramed(body: seq<byte>, crc: nat)
    requires crc < 0x10000
    ensures Decoder.Payload(Encoder.Framed(body, crc, true), true) == body
    ensures Decoder.SuppliedCrc(Encoder.Framed(body, crc, true)) == crc
  {
    TwoBytes(crc);
  }

  /** Compressing and decompressing with the CRC in front. For every message of at most 3867 bytes,
      and for every longer one below 2^31 bytes whose codes all fit the 16-bit register, the CRC
      check passes and the message comes back. */
  method RoundTrip(table: CrcTable, x: seq<byte>) returns (res: Decoder.Outcome, ghost toks: seq<Token>)
    requires 0 < |x| < 0x8000_0000
    ensures Spell(x, toks) && GreedyParse(History(x), toks) && AllCodable(toks)
    ensures |x| <= 3867 || Short(toks) ==> res.data == x && res.size == |x|
  {
    var enc;
    enc, toks := Encoder.Encode(table, x, true);
    TokensBelow(x, toks);
    if |x| <= 3867 { SmallFits(x, toks); }
    ghost var body: seq<byte> := [];
    if Short(toks) {
      body :| Encodes(body, x, toks) && enc.crc == Swap(CrcOf(table, body)) &&
              enc.data == Encoder.Framed(body, enc.crc, true) && enc.size == |enc.data|;
      SwapBound(CrcOf(table, body));
      CrcFramed(body, enc.crc);
    }
    res := Decoder.Decode(table, enc.data, true, |x|, x, toks);
  }

  lemma SwapBound(x: nat)
    ensures Swap(x) < 0x10000
  {
    Pow2At8And16();
  }
}
