/** The static prefix code for match positions: its four tables, sixteen entries to a row. */
module PositionTables {

  const P_LEN: seq<seq<nat>> := [
    [3, 4, 4, 4, 5, 5, 5, 5, 5, 5, 5, 5, 6, 6, 6, 6],
    [6, 6, 6, 6, 6, 6, 6, 6, 7, 7, 7, 7, 7, 7, 7, 7],
    [7, 7, 7, 7, 7, 7, 7, 7, 7, 7, 7, 7, 7, 7, 7, 7],
    [8, 8, 8, 8, 8, 8, 8, 8, 8, 8, 8, 8, 8, 8, 8, 8]
  ]

  const P_CODE: seq<seq<nat>> := [
    [0x00, 0x20, 0x30, 0x40, 0x50, 0x58, 0x60, 0x68, 0x70, 0x78, 0x80, 0x88, 0x90, 0x94, 0x98, 0x9C],
    [0xA0, 0xA4, 0xA8, 0xAC, 0xB0, 0xB4, 0xB8, 0xBC, 0xC0, 0xC2, 0xC4, 0xC6, 0xC8, 0xCA, 0xCC, 0xCE],
    [0xD0, 0xD2, 0xD4, 0xD6, 0xD8, 0xDA, 0xDC, 0xDE, 0xE0, 0xE2, 0xE4, 0xE6, 0xE8, 0xEA, 0xEC, 0xEE],
    [0xF0, 0xF1, 0xF2, 0xF3, 0xF4, 0xF5, 0xF6, 0xF7, 0xF8, 0xF9, 0xFA, 0xFB, 0xFC, 0xFD, 0xFE, 0xFF]
  ]

  const D_CODE: seq<seq<nat>> := [
    [0x00, 0x00, 0x00, 0x00, 0x00, 0x00, 0x00, 0x00, 0x00, 0x00, 0x00, 0x00, 0x00, 0x00, 0x00, 0x00],
    [0x00, 0x00, 0x00, 0x00, 0x00, 0x00, 0x00, 0x00, 0x00, 0x00, 0x00, 0x00, 0x00, 0x00, 0x00, 0x00],
    [0x01, 0x01, 0x01, 0x01, 0x01, 0x01, 0x01, 0x01, 0x01, 0x01, 0x01, 0x01, 0x01, 0x01, 0x01, 0x01],
    [0x02, 0x02, 0x02, 0x02, 0x02, 0x02, 0x02, 0x02, 0x02, 0x02, 0x02, 0x02, 0x02, 0x02, 0x02, 0x02],
    [0x03, 0x03, 0x03, 0x03, 0x03, 0x03, 0x03, 0x03, 0x03, 0x03, 0x03, 0x03, 0x03, 0x03, 0x03, 0x03],
    [0x04, 0x04, 0x04, 0x04, 0x04, 0x04, 0x04, 0x04, 0x05, 0x05, 0x05, 0x05, 0x05, 0x05, 0x05, 0x05],
    [0x06, 0x06, 0x06, 0x06, 0x06, 0x06, 0x06, 0x06, 0x07, 0x07, 0x07, 0x07, 0x07, 0x07, 0x07, 0x07],
    [0x08, 0x08, 0x08, 0x08, 0x08, 0x08, 0x08, 0x08, 0x09, 0x09, 0x09, 0x09, 0x09, 0x09, 0x09, 0x09],
    [0x0A, 0x0A, 0x0A, 0x0A, 0x0A, 0x0A, 0x0A, 0x0A, 0x0B, 0x0B, 0x0B, 0x0B, 0x0B, 0x0B, 0x0B, 0x0B],
    [0x0C, 0x0C, 0x0C, 0x0C, 0x0D, 0x0D, 0x0D, 0x0D, 0x0E, 0x0E, 0x0E, 0x0E, 0x0F, 0x0F, 0x0F, 0x0F],
    [0x10, 0x10, 0x10, 0x10, 0x11, 0x11, 0x11, 0x11, 0x12, 0x12, 0x12, 0x12, 0x13, 0x13, 0x13, 0x13],
    [0x14, 0x14, 0x14, 0x14, 0x15, 0x15, 0x15, 0x15, 0x16, 0x16, 0x16, 0x16, 0x17, 0x17, 0x17, 0x17],
    [0x18, 0x18, 0x19, 0x19, 0x1A, 0x1A, 0x1B, 0x1B, 0x1C, 0x1C, 0x1D, 0x1D, 0x1E, 0x1E, 0x1F, 0x1F],
    [0x20, 0x20, 0x21, 0x21, 0x22, 0x22, 0x23, 0x23, 0x24, 0x24, 0x25, 0x25, 0x26, 0x26, 0x27, 0x27],
    [0x28, 0x28, 0x29, 0x29, 0x2A, 0x2A, 0x2B, 0x2B, 0x2C, 0x2C, 0x2D, 0x2D, 0x2E, 0x2E, 0x2F, 0x2F],
    [0x30, 0x31, 0x32, 0x33, 0x34, 0x35, 0x36, 0x37, 0x38, 0x39, 0x3A, 0x3B, 0x3C, 0x3D, 0x3E, 0x3F]
  ]

  const D_LEN: seq<seq<nat>> := [
    [3, 3, 3, 3, 3, 3, 3, 3, 3, 3, 3, 3, 3, 3, 3, 3],
    [3, 3, 3, 3, 3, 3, 3, 3, 3, 3, 3, 3, 3, 3, 3, 3],
    [4, 4, 4, 4, 4, 4, 4, 4, 4, 4, 4, 4, 4, 4, 4, 4],
    [4, 4, 4, 4, 4, 4, 4, 4, 4, 4, 4, 4, 4, 4, 4, 4],
    [4, 4, 4, 4, 4, 4, 4, 4, 4, 4, 4, 4, 4, 4, 4, 4],
    [5, 5, 5, 5, 5, 5, 5, 5, 5, 5, 5, 5, 5, 5, 5, 5],
    [5, 5, 5, 5, 5, 5, 5, 5, 5, 5, 5, 5, 5, 5, 5, 5],
    [5, 5, 5, 5, 5, 5, 5, 5, 5, 5, 5, 5, 5, 5, 5, 5],
    [5, 5, 5, 5, 5, 5, 5, 5, 5, 5, 5, 5, 5, 5, 5, 5],
    [6, 6, 6, 6, 6, 6, 6, 6, 6, 6, 6, 6, 6, 6, 6, 6],
    [6, 6, 6, 6, 6, 6, 6, 6, 6, 6, 6, 6, 6, 6, 6, 6],
    [6, 6, 6, 6, 6, 6, 6, 6, 6, 6, 6, 6, 6, 6, 6, 6],
    [7, 7, 7, 7, 7, 7, 7, 7, 7, 7, 7, 7, 7, 7, 7, 7],
    [7, 7, 7, 7, 7, 7, 7, 7, 7, 7, 7, 7, 7, 7, 7, 7],
    [7, 7, 7, 7, 7, 7, 7, 7, 7, 7, 7, 7, 7, 7, 7, 7],
    [8, 8, 8, 8, 8, 8, 8, 8, 8, 8, 8, 8, 8, 8, 8, 8]
  ]

  // ----- the tables in closed form

  /** The length of the code for the upper bits i of a position. */
  function Len(i: nat): nat {
    if i < 1 then 3 else if i < 4 then 4 else if i < 12 then 5 else if i < 24 then 6 else if i < 48 then 7 else 8
  }

  /** That code, left-aligned in a byte. */
  function Word(i: nat): nat {
    if i < 1 then 0
    else if i < 4 then 0x20 + 16 * (i - 1)
    else if i < 12 then 0x50 + 8 * (i - 4)
    else if i < 24 then 0x90 + 4 * (i - 12)
    else if i < 48 then 0xC0 + 2 * (i - 24)
    else 0xF0 + (i - 48)
  }

  /** The upper bits whose code a byte starts with. */
  function Group(b: nat): nat {
    if b < 0x20 then 0
    else if b < 0x50 then 1 + (b - 0x20) / 16
    else if b < 0x90 then 4 + (b - 0x50) / 8
    else if b < 0xC0 then 12 + (b - 0x90) / 4
    else if b < 0xF0 then 24 + (b - 0xC0) / 2
    else 48 + (b - 0xF0)
  }

  lemma Shapes()
    ensures |P_LEN| == |P_CODE| == 4 && |D_CODE| == |D_LEN| == 16
    ensures forall r | 0 <= r < 4 :: |P_LEN[r]| == |P_CODE[r]| == 16
    ensures forall r | 0 <= r < 16 :: |D_CODE[r]| == |D_LEN[r]| == 16
  {
  }

  function PLen(i: nat): nat requires i < 64 { Shapes(); P_LEN[i / 16][i % 16] }
  function PCode(i: nat): nat requires i < 64 { Shapes(); P_CODE[i / 16][i % 16] }
  function DCode(b: nat): nat requires b < 256 { Shapes(); D_CODE[b / 16][b % 16] }
  function DLen(b: nat): nat requires b < 256 { Shapes(); D_LEN[b / 16][b % 16] }

  lemma EncoderRows(r: nat, k: nat)
    requires r < 4 && k < 16
    ensures |P_LEN| == |P_CODE| == 4 && |P_LEN[r]| == |P_CODE[r]| == 16
    ensures P_LEN[r][k] == Len(16 * r + k) && P_CODE[r][k] == Word(16 * r + k)
  {
  }

  lemma CodeRows0(r: nat, k: nat)
    requires 0 <= r < 4 && k < 16
    ensures |D_CODE| == 16 && |D_CODE[r]| == 16 && D_CODE[r][k] == Group(16 * r + k)
  {
  }

  lemma LenRows0(r: nat, k: nat)
    requires 0 <= r < 4 && k < 16
    ensures |D_LEN| == 16 && |D_LEN[r]| == 16 && D_LEN[r][k] == Len(Group(16 * r + k))
  {
  }

  lemma CodeRows1(r: nat, k: nat)
    requires 4 <= r < 8 && k < 16
    ensures |D_CODE| == 16 && |D_CODE[r]| == 16 && D_CODE[r][k] == Group(16 * r + k)
  {
  }

  lemma LenRows1(r: nat, k: nat)
    requires 4 <= r < 8 && k < 16
    ensures |D_LEN| == 16 && |D_LEN[r]| == 16 && D_LEN[r][k] == Len(Group(16 * r + k))
  {
  }

  lemma CodeRows2(r: nat, k: nat)
    requires 8 <= r < 12 && k < 16
    ensures |D_CODE| == 16 && |D_CODE[r]| == 16 && D_CODE[r][k] == Group(16 * r + k)
  {
  }

  lemma LenRows2(r: nat, k: nat)
    requires 8 <= r < 12 && k < 16
    ensures |D_LEN| == 16 && |D_LEN[r]| == 16 && D_LEN[r][k] == Len(Group(16 * r + k))
  {
  }

  lemma CodeRows3(r: nat, k: nat)
    requires 12 <= r < 16 && k < 16
    ensures |D_CODE| == 16 && |D_CODE[r]| == 16 && D_CODE[r][k] == Group(16 * r + k)
  {
  }

  lemma LenRows3(r: nat, k: nat)
    requires 12 <= r < 16 && k < 16
    ensures |D_LEN| == 16 && |D_LEN[r]| == 16 && D_LEN[r][k] == Len(Group(16 * r + k))
  {
  }

  lemma EncoderTables(i: nat)
    requires i < 64
    ensures PLen(i) == Len(i) && PCode(i) == Word(i)
  {
    EncoderRows(i / 16, i % 16);
  }

  lemma DecoderTables(b: nat)
    requires b < 256
    ensures DCode(b) == Group(b) && DLen(b) == Len(Group(b))
  {
    var r, k := b / 16, b % 16;
    if r < 4 { CodeRows0(r, k); LenRows0(r, k); }
    else if r < 8 { CodeRows1(r, k); LenRows1(r, k); }
    else if r < 12 { CodeRows2(r, k); LenRows2(r, k); }
    else { CodeRows3(r, k); LenRows3(r, k); }
  }
}
