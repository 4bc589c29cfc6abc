/** The CRC that covers every byte of the compressed stream, over any 256-entry table. */
module Crc {
  import opened Bits

  type CrcTable = t: seq<nat> | |t| == 256 witness seq(256, _ => 0)

  /** One table step over byte c. */
  function Step(table: CrcTable, crc: nat, c: byte): nat {
    Mask16(BitXor(ShiftLeft(crc, 8), table[Lo(BitXor(ShiftRight(crc, 8), c))]))
  }

  /** The register after the bytes of s, starting from zero. */
  function CrcOf(table: CrcTable, s: seq<byte>): nat {
    if s == [] then 0 else Step(table, CrcOf(table, s[..|s| - 1]), s[|s| - 1])
  }
}
