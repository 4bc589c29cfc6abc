/** The CRC tables of the mail compressor, of its CRC class and of SBC, and that each of their entries is
    eight steps of a bit-serial division. */
module CrcTables {
  import opened Bits
  import opened Polynomials

  /** X^16 + X^12 + X^5 + 1, and X^8 + X^4 + X^3 + X^2 + 1, without their first terms. */
  const POLY_16: nat := 0x1021
  const POLY_8: nat := 0x1D

  function CrcRow0(): (row: seq<nat>) ensures |row| == 16 {
    [0x0000, 0x1021, 0x2042, 0x3063, 0x4084, 0x50A5, 0x60C6, 0x70E7, 0x8108, 0x9129, 0xA14A, 0xB16B, 0xC18C, 0xD1AD, 0xE1CE, 0xF1EF]
  }

  function CrcRow1(): (row: seq<nat>) ensures |row| == 16 {
    [0x1231, 0x0210, 0x3273, 0x2252, 0x52B5, 0x4294, 0x72F7, 0x62D6, 0x9339, 0x8318, 0xB37B, 0xA35A, 0xD3BD, 0xC39C, 0xF3FF, 0xE3DE]
  }

  function CrcRow2(): (row: seq<nat>) ensures |row| == 16 {
    [0x2462, 0x3443, 0x0420, 0x1401, 0x64E6, 0x74C7, 0x44A4, 0x5485, 0xA56A, 0xB54B, 0x8528, 0x9509, 0xE5EE, 0xF5CF, 0xC5AC, 0xD58D]
  }

  function CrcRow3(): (row: seq<nat>) ensures |row| == 16 {
    [0x3653, 0x2672, 0x1611, 0x0630, 0x76D7, 0x66F6, 0x5695, 0x46B4, 0xB75B, 0xA77A, 0x9719, 0x8738, 0xF7DF, 0xE7FE, 0xD79D, 0xC7BC]
  }

  function CrcRow4(): (row: seq<nat>) ensures |row| == 16 {
    [0x48C4, 0x58E5, 0x6886, 0x78A7, 0x0840, 0x1861, 0x2802, 0x3823, 0xC9CC, 0xD9ED, 0xE98E, 0xF9AF, 0x8948, 0x9969, 0xA90A, 0xB92B]
  }

  function CrcRow5(): (row: seq<nat>) ensures |row| == 16 {
    [0x5AF5, 0x4AD4, 0x7AB7, 0x6A96, 0x1A71, 0x0A50, 0x3A33, 0x2A12, 0xDBFD, 0xCBDC, 0xFBBF, 0xEB9E, 0x9B79, 0x8B58, 0xBB3B, 0xAB1A]
  }

  function CrcRow6(): (row: seq<nat>) ensures |row| == 16 {
    [0x6CA6, 0x7C87, 0x4CE4, 0x5CC5, 0x2C22, 0x3C03, 0x0C60, 0x1C41, 0xEDAE, 0xFD8F, 0xCDEC, 0xDDCD, 0xAD2A, 0xBD0B, 0x8D68, 0x9D49]
  }

  function CrcRow7(): (row: seq<nat>) ensures |row| == 16 {
    [0x7E97, 0x6EB6, 0x5ED5, 0x4EF4, 0x3E13, 0x2E32, 0x1E51, 0x0E70, 0xFF9F, 0xEFBE, 0xDFDD, 0xCFFC, 0xBF1B, 0xAF3A, 0x9F59, 0x8F78]
  }

  function CrcRow8(): (row: seq<nat>) ensures |row| == 16 {
    [0x9188, 0x81A9, 0xB1CA, 0xA1EB, 0xD10C, 0xC12D, 0xF14E, 0xE16F, 0x1080, 0x00A1, 0x30C2, 0x20E3, 0x5004, 0x4025, 0x7046, 0x6067]
  }

  function CrcRow9(): (row: seq<nat>) ensures |row| == 16 {
    [0x83B9, 0x9398, 0xA3FB, 0xB3DA, 0xC33D, 0xD31C, 0xE37F, 0xF35E, 0x02B1, 0x1290, 0x22F3, 0x32D2, 0x4235, 0x5214, 0x6277, 0x7256]
  }

  function CrcRow10(): (row: seq<nat>) ensures |row| == 16 {
    [0xB5EA, 0xA5CB, 0x95A8, 0x8589, 0xF56E, 0xE54F, 0xD52C, 0xC50D, 0x34E2, 0x24C3, 0x14A0, 0x0481, 0x7466, 0x6447, 0x5424, 0x4405]
  }

  function CrcRow11(): (row: seq<nat>) ensures |row| == 16 {
    [0xA7DB, 0xB7FA, 0x8799, 0x97B8, 0xE75F, 0xF77E, 0xC71D, 0xD73C, 0x26D3, 0x36F2, 0x0691, 0x16B0, 0x6657, 0x7676, 0x4615, 0x5634]
  }

  function CrcRow12(): (row: seq<nat>) ensures |row| == 16 {
    [0xD94C, 0xC96D, 0xF90E, 0xE92F, 0x99C8, 0x89E9, 0xB98A, 0xA9AB, 0x5844, 0x4865, 0x7806, 0x6827, 0x18C0, 0x08E1, 0x3882, 0x28A3]
  }

  function CrcRow13(): (row: seq<nat>) ensures |row| == 16 {
    [0xCB7D, 0xDB5C, 0xEB3F, 0xFB1E, 0x8BF9, 0x9BD8, 0xABBB, 0xBB9A, 0x4A75, 0x5A54, 0x6A37, 0x7A16, 0x0AF1, 0x1AD0, 0x2AB3, 0x3A92]
  }

  function CrcRow14(): (row: seq<nat>) ensures |row| == 16 {
    [0xFD2E, 0xED0F, 0xDD6C, 0xCD4D, 0xBDAA, 0xAD8B, 0x9DE8, 0x8DC9, 0x7C26, 0x6C07, 0x5C64, 0x4C45, 0x3CA2, 0x2C83, 0x1CE0, 0x0CC1]
  }

  function CrcRow15(): (row: seq<nat>) ensures |row| == 16 {
    [0xEF1F, 0xFF3E, 0xCF5D, 0xDF7C, 0xAF9B, 0xBFBA, 0x8FD9, 0x9FF8, 0x6E17, 0x7E36, 0x4E55, 0x5E74, 0x2E93, 0x3EB2, 0x0ED1, 0x1EF0]
  }

  /** The compressor's table, in rows of sixteen. */
  function CrcRow(r: nat): (row: seq<nat>)
    requires r < 16
    ensures |row| == 16
  {
    match r
    case 0 => CrcRow0()
    case 1 => CrcRow1()
    case 2 => CrcRow2()
    case 3 => CrcRow3()
    case 4 => CrcRow4()
    case 5 => CrcRow5()
    case 6 => CrcRow6()
    case 7 => CrcRow7()
    case 8 => CrcRow8()
    case 9 => CrcRow9()
    case 10 => CrcRow10()
    case 11 => CrcRow11()
    case 12 => CrcRow12()
    case 13 => CrcRow13()
    case 14 => CrcRow14()
    case _ => CrcRow15()
  }

  /** The table of the CRC class. */
  function Crc16Row(r: nat): (row: seq<nat>)
    requires r < 16
    ensures |row| == 16
  {
    match r
    case 0 => [0x0000, 0x1021, 0x2042, 0x3063, 0x4084, 0x50A5, 0x60C6, 0x70E7, 0x8108, 0x9129, 0xA14A, 0xB16B, 0xC18C, 0xD1AD, 0xE1CE, 0xF1EF]
    case 1 => [0x1231, 0x0210, 0x3273, 0x2252, 0x52B5, 0x4294, 0x72F7, 0x62D6, 0x9339, 0x8318, 0xB37B, 0xA35A, 0xD3BD, 0xC39C, 0xF3FF, 0xE3DE]
    case 2 => [0x2462, 0x3443, 0x0420, 0x1401, 0x64E6, 0x74C7, 0x44A4, 0x5485, 0xA56A, 0xB54B, 0x8528, 0x9509, 0xE5EE, 0xF5CF, 0xC5AC, 0xD58D]
    case 3 => [0x3653, 0x2672, 0x1611, 0x0630, 0x76D7, 0x66F6, 0x5695, 0x46B4, 0xB75B, 0xA77A, 0x9719, 0x8738, 0xF7DF, 0xE7FE, 0xD79D, 0xC7BC]
    case 4 => [0x48C4, 0x58E5, 0x6886, 0x78A7, 0x0840, 0x1861, 0x2802, 0x3823, 0xC9CC, 0xD9ED, 0xE98E, 0xF9AF, 0x8948, 0x9969, 0xA90A, 0xB92B]
    case 5 => [0x5AF5, 0x4AD4, 0x7AB7, 0x6A96, 0x1A71, 0x0A50, 0x3A33, 0x2A12, 0xDBFD, 0xCBDC, 0xFBBF, 0xEB9E, 0x9B79, 0x8B58, 0xBB3B, 0xAB1A]
    case 6 => [0x6CA6, 0x7C87, 0x4CE4, 0x5CC5, 0x2C22, 0x3C03, 0x0C60, 0x1C41, 0xEDAE, 0xFD8F, 0xCDEC, 0xDDCD, 0xAD2A, 0xBD0B, 0x8D68, 0x9D49]
    case 7 => [0x7E97, 0x6EB6, 0x5ED5, 0x4EF4, 0x3E13, 0x2E32, 0x1E51, 0x0E70, 0xFF9F, 0xEFBE, 0xDFDD, 0xCFFC, 0xBF1B, 0xAF3A, 0x9F59, 0x8F78]
    case 8 => [0x9188, 0x81A9, 0xB1CA, 0xA1EB, 0xD10C, 0xC12D, 0xF14E, 0xE16F, 0x1080, 0x00A1, 0x30C2, 0x20E3, 0x5004, 0x4025, 0x7046, 0x6067]
    case 9 => [0x83B9, 0x9398, 0xA3FB, 0xB3DA, 0xC33D, 0xD31C, 0xE37F, 0xF35E, 0x02B1, 0x1290, 0x22F3, 0x32D2, 0x4235, 0x5214, 0x6277, 0x7256]
    case 10 => [0xB5EA, 0xA5CB, 0x95A8, 0x8589, 0xF56E, 0xE54F, 0xD52C, 0xC50D, 0x34E2, 0x24C3, 0x14A0, 0x0481, 0x7466, 0x6447, 0x5424, 0x4405]
    case 11 => [0xA7DB, 0xB7FA, 0x8799, 0x97B8, 0xE75F, 0xF77E, 0xC71D, 0xD73C, 0x26D3, 0x36F2, 0x0691, 0x16B0, 0x6657, 0x7676, 0x4615, 0x5634]
    case 12 => [0xD94C, 0xC96D, 0xF90E, 0xE92F, 0x99C8, 0x89E9, 0xB98A, 0xA9AB, 0x5844, 0x4865, 0x7806, 0x6827, 0x18C0, 0x08E1, 0x3882, 0x28A3]
    case 13 => [0xCB7D, 0xDB5C, 0xEB3F, 0xFB1E, 0x8BF9, 0x9BD8, 0xABBB, 0xBB9A, 0x4A75, 0x5A54, 0x6A37, 0x7A16, 0x0AF1, 0x1AD0, 0x2AB3, 0x3A92]
    case 14 => [0xFD2E, 0xED0F, 0xDD6C, 0xCD4D, 0xBDAA, 0xAD8B, 0x9DE8, 0x8DC9, 0x7C26, 0x6C07, 0x5C64, 0x4C45, 0x3CA2, 0x2C83, 0x1CE0, 0x0CC1]
    case _ => [0xEF1F, 0xFF3E, 0xCF5D, 0xDF7C, 0xAF9B, 0xBFBA, 0x8FD9, 0x9FF8, 0x6E17, 0x7E36, 0x4E55, 0x5E74, 0x2E93, 0x3EB2, 0x0ED1, 0x1EF0]
  }

  function Crc8Row0(): (row: seq<nat>) ensures |row| == 16 {
    [0x00, 0x1D, 0x3A, 0x27, 0x74, 0x69, 0x4E, 0x53, 0xE8, 0xF5, 0xD2, 0xCF, 0x9C, 0x81, 0xA6, 0xBB]
  }

  function Crc8Row1(): (row: seq<nat>) ensures |row| == 16 {
    [0xCD, 0xD0, 0xF7, 0xEA, 0xB9, 0xA4, 0x83, 0x9E, 0x25, 0x38, 0x1F, 0x02, 0x51, 0x4C, 0x6B, 0x76]
  }

  function Crc8Row2(): (row: seq<nat>) ensures |row| == 16 {
    [0x87, 0x9A, 0xBD, 0xA0, 0xF3, 0xEE, 0xC9, 0xD4, 0x6F, 0x72, 0x55, 0x48, 0x1B, 0x06, 0x21, 0x3C]
  }

  function Crc8Row3(): (row: seq<nat>) ensures |row| == 16 {
    [0x4A, 0x57, 0x70, 0x6D, 0x3E, 0x23, 0x04, 0x19, 0xA2, 0xBF, 0x98, 0x85, 0xD6, 0xCB, 0xEC, 0xF1]
  }

  function Crc8Row4(): (row: seq<nat>) ensures |row| == 16 {
    [0x13, 0x0E, 0x29, 0x34, 0x67, 0x7A, 0x5D, 0x40, 0xFB, 0xE6, 0xC1, 0xDC, 0x8F, 0x92, 0xB5, 0xA8]
  }

  function Crc8Row5(): (row: seq<nat>) ensures |row| == 16 {
    [0xDE, 0xC3, 0xE4, 0xF9, 0xAA, 0xB7, 0x90, 0x8D, 0x36, 0x2B, 0x0C, 0x11, 0x42, 0x5F, 0x78, 0x65]
  }

  function Crc8Row6(): (row: seq<nat>) ensures |row| == 16 {
    [0x94, 0x89, 0xAE, 0xB3, 0xE0, 0xFD, 0xDA, 0xC7, 0x7C, 0x61, 0x46, 0x5B, 0x08, 0x15, 0x32, 0x2F]
  }

  function Crc8Row7(): (row: seq<nat>) ensures |row| == 16 {
    [0x59, 0x44, 0x63, 0x7E, 0x2D, 0x30, 0x17, 0x0A, 0xB1, 0xAC, 0x8B, 0x96, 0xC5, 0xD8, 0xFF, 0xE2]
  }

  function Crc8Row8(): (row: seq<nat>) ensures |row| == 16 {
    [0x26, 0x3B, 0x1C, 0x01, 0x52, 0x4F, 0x68, 0x75, 0xCE, 0xD3, 0xF4, 0xE9, 0xBA, 0xA7, 0x80, 0x9D]
  }

  function Crc8Row9(): (row: seq<nat>) ensures |row| == 16 {
    [0xEB, 0xF6, 0xD1, 0xCC, 0x9F, 0x82, 0xA5, 0xB8, 0x03, 0x1E, 0x39, 0x24, 0x77, 0x6A, 0x4D, 0x50]
  }

  function Crc8Row10(): (row: seq<nat>) ensures |row| == 16 {
    [0xA1, 0xBC, 0x9B, 0x86, 0xD5, 0xC8, 0xEF, 0xF2, 0x49, 0x54, 0x73, 0x6E, 0x3D, 0x20, 0x07, 0x1A]
  }

  function Crc8Row11(): (row: seq<nat>) ensures |row| == 16 {
    [0x6C, 0x71, 0x56, 0x4B, 0x18, 0x05, 0x22, 0x3F, 0x84, 0x99, 0xBE, 0xA3, 0xF0, 0xED, 0xCA, 0xD7]
  }

  function Crc8Row12(): (row: seq<nat>) ensures |row| == 16 {
    [0x35, 0x28, 0x0F, 0x12, 0x41, 0x5C, 0x7B, 0x66, 0xDD, 0xC0, 0xE7, 0xFA, 0xA9, 0xB4, 0x93, 0x8E]
  }

  function Crc8Row13(): (row: seq<nat>) ensures |row| == 16 {
    [0xF8, 0xE5, 0xC2, 0xDF, 0x8C, 0x91, 0xB6, 0xAB, 0x10, 0x0D, 0x2A, 0x37, 0x64, 0x79, 0x5E, 0x43]
  }

  function Crc8Row14(): (row: seq<nat>) ensures |row| == 16 {
    [0xB2, 0xAF, 0x88, 0x95, 0xC6, 0xDB, 0xFC, 0xE1, 0x5A, 0x47, 0x60, 0x7D, 0x2E, 0x33, 0x14, 0x09]
  }

  function Crc8Row15(): (row: seq<nat>) ensures |row| == 16 {
    [0x7F, 0x62, 0x45, 0x58, 0x0B, 0x16, 0x31, 0x2C, 0x97, 0x8A, 0xAD, 0xB0, 0xE3, 0xFE, 0xD9, 0xC4]
  }

  /** SBC's table. */
  function Crc8Row(r: nat): (row: seq<nat>)
    requires r < 16
    ensures |row| == 16
  {
    match r
    case 0 => Crc8Row0()
    case 1 => Crc8Row1()
    case 2 => Crc8Row2()
    case 3 => Crc8Row3()
    case 4 => Crc8Row4()
    case 5 => Crc8Row5()
    case 6 => Crc8Row6()
    case 7 => Crc8Row7()
    case 8 => Crc8Row8()
    case 9 => Crc8Row9()
    case 10 => Crc8Row10()
    case 11 => Crc8Row11()
    case 12 => Crc8Row12()
    case 13 => Crc8Row13()
    case 14 => Crc8Row14()
    case _ => Crc8Row15()
  }

  /** What the exchange of bit p / 2 of a number adds to it. */
  function Change(y: nat, p: nat): int
    requires p > 0
  {
    if y % (2 * p) >= p then 0 - p else p
  }

  lemma {:induction false} FlipBit(y: nat, k: nat)
    ensures BitXor(y, Pow2(k)) == y + if BitAt(y, k) then 0 - Pow2(k) else Pow2(k)
  {
    if k == 0 {
      XorZero(y / 2);
    } else {
      FlipBit(y / 2, k - 1);
    }
  }

  lemma {:induction false} BitIs(y: nat, k: nat)
    ensures BitAt(y, k) <==> LowBits(y, k + 1) >= Pow2(k)
  {
    if k > 0 {
      BitIs(y / 2, k - 1);
    } else {
      assert LowBits(y, 1) == 2 * LowBits(y / 2, 0) + y % 2;
    }
  }

  lemma FlipIs(y: nat, k: nat)
    ensures BitXor(y, Pow2(k)) == y + Change(y, Pow2(k))
  {
    FlipBit(y, k);
    BitIs(y, k);
    LowBitsRemain(y, k + 1);
  }

  /** Only bit k changes. */
  lemma OthersStay(y: nat, k: nat, m: nat)
    requires k != m
    ensures Change(BitXor(y, Pow2(k)), Pow2(m)) == Change(y, Pow2(m))
  {
    var x := BitXor(y, Pow2(k));
    BitXorBit(y, Pow2(k), m);
    OnlyBit(k, m);
    BitIs(x, m);
    BitIs(y, m);
    LowBitsRemain(x, m + 1);
    LowBitsRemain(y, m + 1);
  }

  /** The generators, bit by bit. */
  lemma Xor16(y: nat)
    ensures BitXor(y, POLY_16) == y + Change(y, 1) + Change(y, 32) + Change(y, 4096)
  {
    assert Pow2(0) == 1 && Pow2(5) == 32 && Pow2(12) == 4096;
    var y1 := BitXor(y, 1);
    var y2 := BitXor(y1, 32);
    FlipIs(y, 0);
    FlipIs(y1, 5);
    FlipIs(y2, 12);
    OthersStay(y, 0, 5);
    OthersStay(y, 0, 12);
    OthersStay(y1, 5, 12);
    XorAssociates(y, 1, 32);
    XorAssociates(y, BitXor(1, 32), 4096);
    FlipIs(1, 5);
    FlipIs(33, 12);
  }

  lemma Xor8(y: nat)
    ensures BitXor(y, POLY_8) == y + Change(y, 1) + Change(y, 4) + Change(y, 8) + Change(y, 16)
  {
    assert Pow2(0) == 1 && Pow2(2) == 4 && Pow2(3) == 8 && Pow2(4) == 16;
    var y1 := BitXor(y, 1);
    var y2 := BitXor(y1, 4);
    var y3 := BitXor(y2, 8);
    FlipIs(y, 0);
    FlipIs(y1, 2);
    FlipIs(y2, 3);
    FlipIs(y3, 4);
    OthersStay(y, 0, 2);
    OthersStay(y, 0, 3);
    OthersStay(y, 0, 4);
    OthersStay(y1, 2, 3);
    OthersStay(y1, 2, 4);
    OthersStay(y2, 3, 4);
    XorAssociates(y, 1, 4);
    XorAssociates(y, BitXor(1, 4), 8);
    XorAssociates(y, BitXor(BitXor(1, 4), 8), 16);
    FlipIs(1, 2);
    FlipIs(5, 3);
    FlipIs(13, 4);
  }

  /** The exclusive or of y and the generator is z; in arithmetic. */
  predicate Xors16(y: nat, z: nat) {
    z == y + (if y % 2 >= 1 then -1 else 1) + (if y % 64 >= 32 then -32 else 32) +
         (if y % 8192 >= 4096 then -4096 else 4096)
  }

  predicate Xors8(y: nat, z: nat) {
    z == y + (if y % 2 >= 1 then -1 else 1) + (if y % 8 >= 4 then -4 else 4) + (if y % 16 >= 8 then -8 else 8) +
         (if y % 32 >= 16 then -16 else 16)
  }

  /** Two entries follow from the one of half their index. */
  predicate Follow16(a: nat, b: nat, c: nat) {
    a < 0x10000 && Xors16(b, c) && if a < 0x8000 then b == 2 * a else Xors16(2 * a - 0x10000, b)
  }

  predicate Follow8(a: nat, b: nat, c: nat) {
    a < 0x100 && Xors8(b, c) && if a < 0x80 then b == 2 * a else Xors8(2 * a - 0x100, b)
  }

  lemma Follows16(a: nat, b: nat, c: nat)
    requires Follow16(a, b, c)
    ensures b == Times(a, 16, POLY_16) && c == BitXor(b, POLY_16)
  {
    Pow2At8And16();
    TopOf(a, 15);
    LowOfDouble(a, 16);
    TimesIs(a, 16, POLY_16);
    Xor16(b);
    Xor16(if a < 0x8000 then 2 * a else 2 * a - 0x10000);
  }

  lemma Follows8(a: nat, b: nat, c: nat)
    requires Follow8(a, b, c)
    ensures b == Times(a, 8, POLY_8) && c == BitXor(b, POLY_8)
  {
    Pow2At8And16();
    assert Pow2(7) == 128;
    TopOf(a, 7);
    LowOfDouble(a, 8);
    TimesIs(a, 8, POLY_8);
    Xor8(b);
    Xor8(if a < 0x80 then 2 * a else 2 * a - 0x100);
  }

  lemma {:induction false} TopOf(a: nat, k: nat)
    requires a < Pow2(k + 1)
    ensures BitAt(a, k) <==> a >= Pow2(k)
  {
    if k > 0 { TopOf(a / 2, k - 1); }
  }

  lemma TimesIs(a: nat, w: nat, poly: nat)
    requires w > 0
    ensures Times(a, w, poly) == if BitAt(a, w - 1) then BitXor(LowBits(2 * a, w), poly) else LowBits(2 * a, w)
  {
    XorZero(LowBits(2 * a, w));
  }

  lemma LowOfDouble(a: nat, w: nat)
    requires a < Pow2(w)
    ensures LowBits(2 * a, w) == if 2 * a < Pow2(w) then 2 * a else 2 * a - Pow2(w)
  {
    LowAndRest(2 * a, w);
    AtMostOnce(Pow2(w), ShiftRight(2 * a, w), 2 * a);
  }

  lemma AtMostOnce(p: nat, s: nat, x: nat)
    requires p * s <= x < 2 * p
    ensures s <= 1
  {
    assert p * (s - 2) == p * s - 2 * p;
  }

  // ----- the tables

  /** The width and the generator of a CRC. */
  function Width(wide: bool): nat { if wide then 16 else 8 }

  function Poly(wide: bool): nat { if wide then POLY_16 else POLY_8 }

  /** The entries of a row follow from the eight of an earlier row that have half their indices. */
  predicate RowFollows16(u: seq<nat>, o: nat, v: seq<nat>)
    requires o + 8 <= |u| && |v| == 16
  {
    Follow16(u[o], v[0], v[1]) && Follow16(u[o + 1], v[2], v[3]) && Follow16(u[o + 2], v[4], v[5]) &&
    Follow16(u[o + 3], v[6], v[7]) && Follow16(u[o + 4], v[8], v[9]) && Follow16(u[o + 5], v[10], v[11]) &&
    Follow16(u[o + 6], v[12], v[13]) && Follow16(u[o + 7], v[14], v[15])
  }

  predicate RowFollows8(u: seq<nat>, o: nat, v: seq<nat>)
    requires o + 8 <= |u| && |v| == 16
  {
    Follow8(u[o], v[0], v[1]) && Follow8(u[o + 1], v[2], v[3]) && Follow8(u[o + 2], v[4], v[5]) &&
    Follow8(u[o + 3], v[6], v[7]) && Follow8(u[o + 4], v[8], v[9]) && Follow8(u[o + 5], v[10], v[11]) &&
    Follow8(u[o + 6], v[12], v[13]) && Follow8(u[o + 7], v[14], v[15])
  }

  /** The same, in terms of multiplication with X. */
  ghost predicate RowDoubles(wide: bool, u: seq<nat>, o: nat, v: seq<nat>)
    requires o + 8 <= |u| && |v| == 16
  {
    forall j | 0 <= j < 8 ::
      v[2 * j] == Times(u[o + j], Width(wide), Poly(wide)) && v[2 * j + 1] == BitXor(v[2 * j], Poly(wide))
  }

  lemma RowMeans16(u: seq<nat>, o: nat, v: seq<nat>)
    requires o + 8 <= |u| && |v| == 16 && RowFollows16(u, o, v)
    ensures RowDoubles(true, u, o, v)
  {
    forall j | 0 <= j < 8
      ensures v[2 * j] == Times(u[o + j], 16, POLY_16) && v[2 * j + 1] == BitXor(v[2 * j], POLY_16)
    {
      RowPair16(u, o, v, j);
    }
  }

  lemma RowPair16(u: seq<nat>, o: nat, v: seq<nat>, j: nat)
    requires j < 8 && o + 8 <= |u| && |v| == 16 && RowFollows16(u, o, v)
    ensures v[2 * j] == Times(u[o + j], 16, POLY_16) && v[2 * j + 1] == BitXor(v[2 * j], POLY_16)
  {
    assert Follow16(u[o + j], v[2 * j], v[2 * j + 1]);
    Follows16(u[o + j], v[2 * j], v[2 * j + 1]);
  }

  lemma RowMeans8(u: seq<nat>, o: nat, v: seq<nat>)
    requires o + 8 <= |u| && |v| == 16 && RowFollows8(u, o, v)
    ensures RowDoubles(false, u, o, v)
  {
    forall j | 0 <= j < 8
      ensures v[2 * j] == Times(u[o + j], 8, POLY_8) && v[2 * j + 1] == BitXor(v[2 * j], POLY_8)
    {
      RowPair8(u, o, v, j);
    }
  }

  lemma RowPair8(u: seq<nat>, o: nat, v: seq<nat>, j: nat)
    requires j < 8 && o + 8 <= |u| && |v| == 16 && RowFollows8(u, o, v)
    ensures v[2 * j] == Times(u[o + j], 8, POLY_8) && v[2 * j + 1] == BitXor(v[2 * j], POLY_8)
  {
    assert Follow8(u[o + j], v[2 * j], v[2 * j + 1]);
    Follows8(u[o + j], v[2 * j], v[2 * j + 1]);
  }

  ghost predicate Square(rows: seq<seq<nat>>) {
    |rows| == 16 && forall r | 0 <= r < 16 :: |rows[r]| == 16
  }

  /** Each of the first eight rows gives two rows. */
  ghost predicate RowsFollow(wide: bool, rows: seq<seq<nat>>)
    requires Square(rows)
  {
    forall r | 0 <= r < 8 :: GivesTwo(wide, rows, r)
  }

  ghost predicate GivesTwo(wide: bool, rows: seq<seq<nat>>, r: nat)
    requires Square(rows) && r < 8
  {
    match wide
    case true => Gives(true, rows, r, 0) && Gives(true, rows, r, 1)
    case false => Gives(false, rows, r, 0) && Gives(false, rows, r, 1)
  }

  ghost predicate Gives(wide: bool, rows: seq<seq<nat>>, r: nat, h: nat)
    requires Square(rows) && r < 8 && h < 2
  {
    match wide
    case true => RowDoubles(true, rows[r], 8 * h, rows[2 * r + h])
    case false => RowDoubles(false, rows[r], 8 * h, rows[2 * r + h])
  }

  function FromRows(rows: seq<seq<nat>>): (t: seq<nat>)
    requires Square(rows)
    ensures |t| == 256
  {
    seq(256, i requires 0 <= i < 256 => rows[i / 16][i % 16])
  }

  /** Where the entries of index x, 2 x and 2 x + 1 are. */
  lemma Places(x: nat, r: nat, h: nat, j: nat)
    requires x == 16 * r + 8 * h + j && h < 2 && j < 8
    ensures x / 16 == r && x % 16 == 8 * h + j
    ensures (2 * x) / 16 == 2 * r + h && (2 * x) % 16 == 2 * j
    ensures (2 * x + 1) / 16 == 2 * r + h && (2 * x + 1) % 16 == 2 * j + 1
  {
  }

  lemma EntriesAt(rows: seq<seq<nat>>, x: nat, r: nat, h: nat, j: nat)
    requires Square(rows) && x == 16 * r + 8 * h + j && r < 8 && h < 2 && j < 8
    ensures FromRows(rows)[x] == rows[r][8 * h + j]
    ensures FromRows(rows)[2 * x] == rows[2 * r + h][2 * j] && FromRows(rows)[2 * x + 1] == rows[2 * r + h][2 * j + 1]
  {
    Places(x, r, h, j);
  }

  lemma PairFrom(wide: bool, table: seq<nat>, x: nat, u: seq<nat>, o: nat, v: seq<nat>, j: nat)
    requires |table| == 256 && x < 128 && o + 8 <= |u| && |v| == 16 && j < 8 && RowDoubles(wide, u, o, v)
    requires table[x] == u[o + j] && table[2 * x] == v[2 * j] && table[2 * x + 1] == v[2 * j + 1]
    ensures PairOk(table, Width(wide), Poly(wide), x)
  {
  }

  lemma PairGiven(wide: bool, rows: seq<seq<nat>>, x: nat)
    requires Square(rows) && x < 128 && GivesTwo(wide, rows, x / 16)
    ensures PairOk(FromRows(rows), Width(wide), Poly(wide), x)
  {
    var r, h, j := x / 16, x % 16 / 8, x % 8;
    PairAt(wide, rows, x, r, h, j);
  }

  lemma PairAt(wide: bool, rows: seq<seq<nat>>, x: nat, r: nat, h: nat, j: nat)
    requires Square(rows) && x == 16 * r + 8 * h + j && r < 8 && h < 2 && j < 8 && GivesTwo(wide, rows, r)
    ensures PairOk(FromRows(rows), Width(wide), Poly(wide), x)
  {
    EntriesAt(rows, x, r, h, j);
    assert Gives(wide, rows, r, h);
    PairFrom(wide, FromRows(rows), x, rows[r], 8 * h, rows[2 * r + h], j);
  }

  lemma RowsGenerate(wide: bool, rows: seq<seq<nat>>)
    requires Square(rows) && RowsFollow(wide, rows) && rows[0][0] == 0
    ensures Generated(FromRows(rows), Width(wide), Poly(wide))
  {
    forall x: nat | x < 128 ensures PairOk(FromRows(rows), Width(wide), Poly(wide), x) { PairGiven(wide, rows, x); }
  }

  lemma CrcRow0Follows()
    ensures RowDoubles(true, CrcRow0(), 0, CrcRow0())
  {
    RowMeans16(CrcRow0(), 0, CrcRow0());
  }

  lemma CrcRow1Follows()
    ensures RowDoubles(true, CrcRow0(), 8, CrcRow1())
  {
    RowMeans16(CrcRow0(), 8, CrcRow1());
  }

  lemma CrcRow2Follows()
    ensures RowDoubles(true, CrcRow1(), 0, CrcRow2())
  {
    RowMeans16(CrcRow1(), 0, CrcRow2());
  }

  lemma CrcRow3Follows()
    ensures RowDoubles(true, CrcRow1(), 8, CrcRow3())
  {
    RowMeans16(CrcRow1(), 8, CrcRow3());
  }

  lemma CrcRow4Follows()
    ensures RowDoubles(true, CrcRow2(), 0, CrcRow4())
  {
    RowMeans16(CrcRow2(), 0, CrcRow4());
  }

  lemma CrcRow5Follows()
    ensures RowDoubles(true, CrcRow2(), 8, CrcRow5())
  {
    RowMeans16(CrcRow2(), 8, CrcRow5());
  }

  lemma CrcRow6Follows()
    ensures RowDoubles(true, CrcRow3(), 0, CrcRow6())
  {
    RowMeans16(CrcRow3(), 0, CrcRow6());
  }

  lemma CrcRow7Follows()
    ensures RowDoubles(true, CrcRow3(), 8, CrcRow7())
  {
    RowMeans16(CrcRow3(), 8, CrcRow7());
  }

  lemma CrcRow8Follows()
    ensures RowDoubles(true, CrcRow4(), 0, CrcRow8())
  {
    RowMeans16(CrcRow4(), 0, CrcRow8());
  }

  lemma CrcRow9Follows()
    ensures RowDoubles(true, CrcRow4(), 8, CrcRow9())
  {
    RowMeans16(CrcRow4(), 8, CrcRow9());
  }

  lemma CrcRow10Follows()
    ensures RowDoubles(true, CrcRow5(), 0, CrcRow10())
  {
    RowMeans16(CrcRow5(), 0, CrcRow10());
  }

  lemma CrcRow11Follows()
    ensures RowDoubles(true, CrcRow5(), 8, CrcRow11())
  {
    RowMeans16(CrcRow5(), 8, CrcRow11());
  }

  lemma CrcRow12Follows()
    ensures RowDoubles(true, CrcRow6(), 0, CrcRow12())
  {
    RowMeans16(CrcRow6(), 0, CrcRow12());
  }

  lemma CrcRow13Follows()
    ensures RowDoubles(true, CrcRow6(), 8, CrcRow13())
  {
    RowMeans16(CrcRow6(), 8, CrcRow13());
  }

  lemma CrcRow14Follows()
    ensures RowDoubles(true, CrcRow7(), 0, CrcRow14())
  {
    RowMeans16(CrcRow7(), 0, CrcRow14());
  }

  lemma CrcRow15Follows()
    ensures RowDoubles(true, CrcRow7(), 8, CrcRow15())
  {
    RowMeans16(CrcRow7(), 8, CrcRow15());
  }

  lemma CrcGives0(rows: seq<seq<nat>>)
    requires Square(rows) && rows[0] == CrcRow(0) && rows[1] == CrcRow(1)
    ensures GivesTwo(true, rows, 0)
  {
    CrcRow0Follows();
    CrcRow1Follows();
  }

  lemma CrcGives1(rows: seq<seq<nat>>)
    requires Square(rows) && rows[1] == CrcRow(1) && rows[2] == CrcRow(2) && rows[3] == CrcRow(3)
    ensures GivesTwo(true, rows, 1)
  {
    CrcRow2Follows();
    CrcRow3Follows();
  }

  lemma CrcGives2(rows: seq<seq<nat>>)
    requires Square(rows) && rows[2] == CrcRow(2) && rows[4] == CrcRow(4) && rows[5] == CrcRow(5)
    ensures GivesTwo(true, rows, 2)
  {
    CrcRow4Follows();
    CrcRow5Follows();
  }

  lemma CrcGives3(rows: seq<seq<nat>>)
    requires Square(rows) && rows[3] == CrcRow(3) && rows[6] == CrcRow(6) && rows[7] == CrcRow(7)
    ensures GivesTwo(true, rows, 3)
  {
    CrcRow6Follows();
    CrcRow7Follows();
  }

  lemma CrcGives4(rows: seq<seq<nat>>)
    requires Square(rows) && rows[4] == CrcRow(4) && rows[8] == CrcRow(8) && rows[9] == CrcRow(9)
    ensures GivesTwo(true, rows, 4)
  {
    CrcRow8Follows();
    CrcRow9Follows();
  }

  lemma CrcGives5(rows: seq<seq<nat>>)
    requires Square(rows) && rows[5] == CrcRow(5) && rows[10] == CrcRow(10) && rows[11] == CrcRow(11)
    ensures GivesTwo(true, rows, 5)
  {
    CrcRow10Follows();
    CrcRow11Follows();
  }

  lemma CrcGives6(rows: seq<seq<nat>>)
    requires Square(rows) && rows[6] == CrcRow(6) && rows[12] == CrcRow(12) && rows[13] == CrcRow(13)
    ensures GivesTwo(true, rows, 6)
  {
    CrcRow12Follows();
    CrcRow13Follows();
  }

  lemma CrcGives7(rows: seq<seq<nat>>)
    requires Square(rows) && rows[7] == CrcRow(7) && rows[14] == CrcRow(14) && rows[15] == CrcRow(15)
    ensures GivesTwo(true, rows, 7)
  {
    CrcRow14Follows();
    CrcRow15Follows();
  }

  lemma CrcGives(rows: seq<seq<nat>>, r: nat)
    requires Square(rows) && r < 8 && forall i | 0 <= i < 16 :: rows[i] == CrcRow(i)
    ensures GivesTwo(true, rows, r)
  {
    match r
    case 0 => CrcGives0(rows);
    case 1 => CrcGives1(rows);
    case 2 => CrcGives2(rows);
    case 3 => CrcGives3(rows);
    case 4 => CrcGives4(rows);
    case 5 => CrcGives5(rows);
    case 6 => CrcGives6(rows);
    case _ => CrcGives7(rows);
  }

  lemma Crc8Row0Follows()
    ensures RowDoubles(false, Crc8Row0(), 0, Crc8Row0())
  {
    RowMeans8(Crc8Row0(), 0, Crc8Row0());
  }

  lemma Crc8Row1Follows()
    ensures RowDoubles(false, Crc8Row0(), 8, Crc8Row1())
  {
    RowMeans8(Crc8Row0(), 8, Crc8Row1());
  }

  lemma Crc8Row2Follows()
    ensures RowDoubles(false, Crc8Row1(), 0, Crc8Row2())
  {
    RowMeans8(Crc8Row1(), 0, Crc8Row2());
  }

  lemma Crc8Row3Follows()
    ensures RowDoubles(false, Crc8Row1(), 8, Crc8Row3())
  {
    RowMeans8(Crc8Row1(), 8, Crc8Row3());
  }

  lemma Crc8Row4Follows()
    ensures RowDoubles(false, Crc8Row2(), 0, Crc8Row4())
  {
    RowMeans8(Crc8Row2(), 0, Crc8Row4());
  }

  lemma Crc8Row5Follows()
    ensures RowDoubles(false, Crc8Row2(), 8, Crc8Row5())
  {
    RowMeans8(Crc8Row2(), 8, Crc8Row5());
  }

  lemma Crc8Row6Follows()
    ensures RowDoubles(false, Crc8Row3(), 0, Crc8Row6())
  {
    RowMeans8(Crc8Row3(), 0, Crc8Row6());
  }

  lemma Crc8Row7Follows()
    ensures RowDoubles(false, Crc8Row3(), 8, Crc8Row7())
  {
    RowMeans8(Crc8Row3(), 8, Crc8Row7());
  }

  lemma Crc8Row8Follows()
    ensures RowDoubles(false, Crc8Row4(), 0, Crc8Row8())
  {
    RowMeans8(Crc8Row4(), 0, Crc8Row8());
  }

  lemma Crc8Row9Follows()
    ensures RowDoubles(false, Crc8Row4(), 8, Crc8Row9())
  {
    RowMeans8(Crc8Row4(), 8, Crc8Row9());
  }

  lemma Crc8Row10Follows()
    ensures RowDoubles(false, Crc8Row5(), 0, Crc8Row10())
  {
    RowMeans8(Crc8Row5(), 0, Crc8Row10());
  }

  lemma Crc8Row11Follows()
    ensures RowDoubles(false, Crc8Row5(), 8, Crc8Row11())
  {
    RowMeans8(Crc8Row5(), 8, Crc8Row11());
  }

  lemma Crc8Row12Follows()
    ensures RowDoubles(false, Crc8Row6(), 0, Crc8Row12())
  {
    RowMeans8(Crc8Row6(), 0, Crc8Row12());
  }

  lemma Crc8Row13Follows()
    ensures RowDoubles(false, Crc8Row6(), 8, Crc8Row13())
  {
    RowMeans8(Crc8Row6(), 8, Crc8Row13());
  }

  lemma Crc8Row14Follows()
    ensures RowDoubles(false, Crc8Row7(), 0, Crc8Row14())
  {
    RowMeans8(Crc8Row7(), 0, Crc8Row14());
  }

  lemma Crc8Row15Follows()
    ensures RowDoubles(false, Crc8Row7(), 8, Crc8Row15())
  {
    RowMeans8(Crc8Row7(), 8, Crc8Row15());
  }

  lemma Crc8Gives0(rows: seq<seq<nat>>)
    requires Square(rows) && rows[0] == Crc8Row(0) && rows[1] == Crc8Row(1)
    ensures GivesTwo(false, rows, 0)
  {
    Crc8Row0Follows();
    Crc8Row1Follows();
  }

  lemma Crc8Gives1(rows: seq<seq<nat>>)
    requires Square(rows) && rows[1] == Crc8Row(1) && rows[2] == Crc8Row(2) && rows[3] == Crc8Row(3)
    ensures GivesTwo(false, rows, 1)
  {
    Crc8Row2Follows();
    Crc8Row3Follows();
  }

  lemma Crc8Gives2(rows: seq<seq<nat>>)
    requires Square(rows) && rows[2] == Crc8Row(2) && rows[4] == Crc8Row(4) && rows[5] == Crc8Row(5)
    ensures GivesTwo(false, rows, 2)
  {
    Crc8Row4Follows();
    Crc8Row5Follows();
  }

  lemma Crc8Gives3(rows: seq<seq<nat>>)
    requires Square(rows) && rows[3] == Crc8Row(3) && rows[6] == Crc8Row(6) && rows[7] == Crc8Row(7)
    ensures GivesTwo(false, rows, 3)
  {
    Crc8Row6Follows();
    Crc8Row7Follows();
  }

  lemma Crc8Gives4(rows: seq<seq<nat>>)
    requires Square(rows) && rows[4] == Crc8Row(4) && rows[8] == Crc8Row(8) && rows[9] == Crc8Row(9)
    ensures GivesTwo(false, rows, 4)
  {
    Crc8Row8Follows();
    Crc8Row9Follows();
  }

  lemma Crc8Gives5(rows: seq<seq<nat>>)
    requires Square(rows) && rows[5] == Crc8Row(5) && rows[10] == Crc8Row(10) && rows[11] == Crc8Row(11)
    ensures GivesTwo(false, rows, 5)
  {
    Crc8Row10Follows();
    Crc8Row11Follows();
  }

  lemma Crc8Gives6(rows: seq<seq<nat>>)
    requires Square(rows) && rows[6] == Crc8Row(6) && rows[12] == Crc8Row(12) && rows[13] == Crc8Row(13)
    ensures GivesTwo(false, rows, 6)
  {
    Crc8Row12Follows();
    Crc8Row13Follows();
  }

  lemma Crc8Gives7(rows: seq<seq<nat>>)
    requires Square(rows) && rows[7] == Crc8Row(7) && rows[14] == Crc8Row(14) && rows[15] == Crc8Row(15)
    ensures GivesTwo(false, rows, 7)
  {
    Crc8Row14Follows();
    Crc8Row15Follows();
  }

  lemma Crc8Gives(rows: seq<seq<nat>>, r: nat)
    requires Square(rows) && r < 8 && forall i | 0 <= i < 16 :: rows[i] == Crc8Row(i)
    ensures GivesTwo(false, rows, r)
  {
    match r
    case 0 => Crc8Gives0(rows);
    case 1 => Crc8Gives1(rows);
    case 2 => Crc8Gives2(rows);
    case 3 => Crc8Gives3(rows);
    case 4 => Crc8Gives4(rows);
    case 5 => Crc8Gives5(rows);
    case 6 => Crc8Gives6(rows);
    case _ => Crc8Gives7(rows);
  }

  lemma CrcStart()
    ensures CrcRow(0)[0] == 0
  {
  }

  lemma CrcFollows(rows: seq<seq<nat>>)
    requires Square(rows) && forall i | 0 <= i < 16 :: rows[i] == CrcRow(i)
    ensures RowsFollow(true, rows) && rows[0][0] == 0
  {
    forall r | 0 <= r < 8 ensures GivesTwo(true, rows, r) { CrcGives(rows, r); }
    CrcStart();
  }

  lemma Crc8Start()
    ensures Crc8Row(0)[0] == 0
  {
  }

  lemma Crc8Follows(rows: seq<seq<nat>>)
    requires Square(rows) && forall i | 0 <= i < 16 :: rows[i] == Crc8Row(i)
    ensures RowsFollow(false, rows) && rows[0][0] == 0
  {
    forall r | 0 <= r < 8 ensures GivesTwo(false, rows, r) { Crc8Gives(rows, r); }
    Crc8Start();
  }

  // ----- the three tables

  function CompressorTable(): (t: seq<nat>)
    ensures |t| == 256
  {
    FromRows(seq(16, r requires 0 <= r < 16 => CrcRow(r)))
  }

  function Crc16Table(): (t: seq<nat>)
    ensures |t| == 256
  {
    FromRows(seq(16, r requires 0 <= r < 16 => Crc16Row(r)))
  }

  function Crc8Table(): (t: seq<nat>)
    ensures |t| == 256
  {
    FromRows(seq(16, r requires 0 <= r < 16 => Crc8Row(r)))
  }

  /** The compressor's table is generated by X^16 + X^12 + X^5 + 1. */
  lemma CompressorTableGenerated()
    ensures Generated(CompressorTable(), 16, POLY_16)
  {
    var rows := seq(16, r requires 0 <= r < 16 => CrcRow(r));
    CrcFollows(rows);
    RowsGenerate(true, rows);
  }

  /** SBC's by X^8 + X^4 + X^3 + X^2 + 1. */
  lemma Crc8TableGenerated()
    ensures Generated(Crc8Table(), 8, POLY_8)
  {
    var rows := seq(16, r requires 0 <= r < 16 => Crc8Row(r));
    Crc8Follows(rows);
    RowsGenerate(false, rows);
  }

  lemma SameRow(r: nat)
    requires r < 16
    ensures Crc16Row(r) == CrcRow(r)
  {
  }

  /** The table of the CRC class has the entries of the compressor's. */
  lemma SameTable()
    ensures Crc16Table() == CompressorTable()
  {
    forall i | 0 <= i < 256 ensures Crc16Table()[i] == CompressorTable()[i] { SameRow(i / 16); }
  }
}
