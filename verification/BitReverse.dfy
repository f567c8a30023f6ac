/** bit_reverse_table of libs/libsacd/dsf.c. */
module BitReverse {
  import opened Bits

  /** The table, a row for each value of the high nibble. */
  const TABLE: seq<seq<Byte>> := [
    [0x00, 0x80, 0x40, 0xc0, 0x20, 0xa0, 0x60, 0xe0, 0x10, 0x90, 0x50, 0xd0, 0x30, 0xb0, 0x70, 0xf0],
    [0x08, 0x88, 0x48, 0xc8, 0x28, 0xa8, 0x68, 0xe8, 0x18, 0x98, 0x58, 0xd8, 0x38, 0xb8, 0x78, 0xf8],
    [0x04, 0x84, 0x44, 0xc4, 0x24, 0xa4, 0x64, 0xe4, 0x14, 0x94, 0x54, 0xd4, 0x34, 0xb4, 0x74, 0xf4],
    [0x0c, 0x8c, 0x4c, 0xcc, 0x2c, 0xac, 0x6c, 0xec, 0x1c, 0x9c, 0x5c, 0xdc, 0x3c, 0xbc, 0x7c, 0xfc],
    [0x02, 0x82, 0x42, 0xc2, 0x22, 0xa2, 0x62, 0xe2, 0x12, 0x92, 0x52, 0xd2, 0x32, 0xb2, 0x72, 0xf2],
    [0x0a, 0x8a, 0x4a, 0xca, 0x2a, 0xaa, 0x6a, 0xea, 0x1a, 0x9a, 0x5a, 0xda, 0x3a, 0xba, 0x7a, 0xfa],
    [0x06, 0x86, 0x46, 0xc6, 0x26, 0xa6, 0x66, 0xe6, 0x16, 0x96, 0x56, 0xd6, 0x36, 0xb6, 0x76, 0xf6],
    [0x0e, 0x8e, 0x4e, 0xce, 0x2e, 0xae, 0x6e, 0xee, 0x1e, 0x9e, 0x5e, 0xde, 0x3e, 0xbe, 0x7e, 0xfe],
    [0x01, 0x81, 0x41, 0xc1, 0x21, 0xa1, 0x61, 0xe1, 0x11, 0x91, 0x51, 0xd1, 0x31, 0xb1, 0x71, 0xf1],
    [0x09, 0x89, 0x49, 0xc9, 0x29, 0xa9, 0x69, 0xe9, 0x19, 0x99, 0x59, 0xd9, 0x39, 0xb9, 0x79, 0xf9],
    [0x05, 0x85, 0x45, 0xc5, 0x25, 0xa5, 0x65, 0xe5, 0x15, 0x95, 0x55, 0xd5, 0x35, 0xb5, 0x75, 0xf5],
    [0x0d, 0x8d, 0x4d, 0xcd, 0x2d, 0xad, 0x6d, 0xed, 0x1d, 0x9d, 0x5d, 0xdd, 0x3d, 0xbd, 0x7d, 0xfd],
    [0x03, 0x83, 0x43, 0xc3, 0x23, 0xa3, 0x63, 0xe3, 0x13, 0x93, 0x53, 0xd3, 0x33, 0xb3, 0x73, 0xf3],
    [0x0b, 0x8b, 0x4b, 0xcb, 0x2b, 0xab, 0x6b, 0xeb, 0x1b, 0x9b, 0x5b, 0xdb, 0x3b, 0xbb, 0x7b, 0xfb],
    [0x07, 0x87, 0x47, 0xc7, 0x27, 0xa7, 0x67, 0xe7, 0x17, 0x97, 0x57, 0xd7, 0x37, 0xb7, 0x77, 0xf7],
    [0x0f, 0x8f, 0x4f, 0xcf, 0x2f, 0xaf, 0x6f, 0xef, 0x1f, 0x9f, 0x5f, 0xdf, 0x3f, 0xbf, 0x7f, 0xff]
  ]

  /** The bits of a byte in reverse order. */
  function Reversed(b: Byte): Byte {
    128 * (b % 2) + 64 * (b / 2 % 2) + 32 * (b / 4 % 2) + 16 * (b / 8 % 2) + 8 * (b / 16 % 2) + 4 * (b / 32 % 2) + 2 * (b / 64 % 2) + b / 128 % 2
  }

  /** Reversed nibble. */
  function Nibble(x: nat): nat { 8 * (x % 2) + 4 * (x / 2 % 2) + 2 * (x / 4 % 2) + x / 8 % 2 }

  lemma RowReverses(row: seq<Byte>, n: nat, l: nat)
    requires l < 16 && |row| == 16
    requires row[0] == n && row[1] == 128 + n && row[2] == 64 + n && row[3] == 192 + n && row[4] == 32 + n && row[5] == 160 + n && row[6] == 96 + n && row[7] == 224 + n
    requires row[8] == 16 + n && row[9] == 144 + n && row[10] == 80 + n && row[11] == 208 + n && row[12] == 48 + n && row[13] == 176 + n && row[14] == 112 + n && row[15] == 240 + n
    ensures row[l] == 16 * Nibble(l) + n
  {
  }

  lemma Rows0(h: nat, l: nat)
    requires 0 <= h <= 1 && l < 16
    ensures |TABLE[h]| == 16 && TABLE[h][l] == 16 * Nibble(l) + Nibble(h)
  {
    if h == 0 { RowReverses(TABLE[0], 0, l); } else { RowReverses(TABLE[1], 8, l); }
  }

  lemma Rows2(h: nat, l: nat)
    requires 2 <= h <= 3 && l < 16
    ensures |TABLE[h]| == 16 && TABLE[h][l] == 16 * Nibble(l) + Nibble(h)
  {
    if h == 2 { RowReverses(TABLE[2], 4, l); } else { RowReverses(TABLE[3], 12, l); }
  }

  lemma Rows4(h: nat, l: nat)
    requires 4 <= h <= 5 && l < 16
    ensures |TABLE[h]| == 16 && TABLE[h][l] == 16 * Nibble(l) + Nibble(h)
  {
    if h == 4 { RowReverses(TABLE[4], 2, l); } else { RowReverses(TABLE[5], 10, l); }
  }

  lemma Rows6(h: nat, l: nat)
    requires 6 <= h <= 7 && l < 16
    ensures |TABLE[h]| == 16 && TABLE[h][l] == 16 * Nibble(l) + Nibble(h)
  {
    if h == 6 { RowReverses(TABLE[6], 6, l); } else { RowReverses(TABLE[7], 14, l); }
  }

  lemma Rows8(h: nat, l: nat)
    requires 8 <= h <= 9 && l < 16
    ensures |TABLE[h]| == 16 && TABLE[h][l] == 16 * Nibble(l) + Nibble(h)
  {
    if h == 8 { RowReverses(TABLE[8], 1, l); } else { RowReverses(TABLE[9], 9, l); }
  }

  lemma Rows10(h: nat, l: nat)
    requires 10 <= h <= 11 && l < 16
    ensures |TABLE[h]| == 16 && TABLE[h][l] == 16 * Nibble(l) + Nibble(h)
  {
    if h == 10 { RowReverses(TABLE[10], 5, l); } else { RowReverses(TABLE[11], 13, l); }
  }

  lemma Rows12(h: nat, l: nat)
    requires 12 <= h <= 13 && l < 16
    ensures |TABLE[h]| == 16 && TABLE[h][l] == 16 * Nibble(l) + Nibble(h)
  {
    if h == 12 { RowReverses(TABLE[12], 3, l); } else { RowReverses(TABLE[13], 11, l); }
  }

  lemma Rows14(h: nat, l: nat)
    requires 14 <= h <= 15 && l < 16
    ensures |TABLE[h]| == 16 && TABLE[h][l] == 16 * Nibble(l) + Nibble(h)
  {
    if h == 14 { RowReverses(TABLE[14], 7, l); } else { RowReverses(TABLE[15], 15, l); }
  }

  /** The bits of a number of four bits. */
  lemma FourBits(b3: Bit, b2: Bit, b1: Bit, b0: Bit)
    ensures var x := 8 * b3 + 4 * b2 + 2 * b1 + b0; x % 2 == b0 && x / 2 % 2 == b1 && x / 4 % 2 == b2 && x / 8 % 2 == b3
  {
    var x := 8 * b3 + 4 * b2 + 2 * b1 + b0;
    assert x / 2 == 4 * b3 + 2 * b2 + b1 && x / 4 == 2 * b3 + b2 && x / 8 == b3;
  }

  lemma EightBits(h: nat, b3: Bit, b2: Bit, b1: Bit, b0: Bit)
    requires h < 16
    ensures var x := 16 * h + 8 * b3 + 4 * b2 + 2 * b1 + b0;
            && x % 2 == b0 && x / 2 % 2 == b1 && x / 4 % 2 == b2 && x / 8 % 2 == b3
            && x / 16 % 2 == h % 2 && x / 32 % 2 == h / 2 % 2 && x / 64 % 2 == h / 4 % 2 && x / 128 % 2 == h / 8 % 2
  {
    var x := 16 * h + 8 * b3 + 4 * b2 + 2 * b1 + b0;
    assert x / 2 == 8 * h + 4 * b3 + 2 * b2 + b1 && x / 4 == 4 * h + 2 * b3 + b2 && x / 8 == 2 * h + b3 && x / 16 == h;
    assert x / 32 == h / 2 && x / 64 == h / 4 && x / 128 == h / 8;
  }

  lemma TwoNibbles(h: nat, l: nat)
    requires h < 16 && l < 16
    ensures Reversed(16 * h + l) == 16 * Nibble(l) + Nibble(h)
  {
    var b3, b2, b1, b0 := l / 8 % 2, l / 4 % 2, l / 2 % 2, l % 2;
    assert l == 8 * b3 + 4 * b2 + 2 * b1 + b0;
    EightBits(h, b3, b2, b1, b0);
  }

  lemma Row(h: nat, l: nat)
    requires h < 16 && l < 16
    ensures |TABLE[h]| == 16 && TABLE[h][l] == 16 * Nibble(l) + Nibble(h)
  {
    if h < 2 { Rows0(h, l); }
    else if h < 4 { Rows2(h, l); }
    else if h < 6 { Rows4(h, l); }
    else if h < 8 { Rows6(h, l); }
    else if h < 10 { Rows8(h, l); }
    else if h < 12 { Rows10(h, l); }
    else if h < 14 { Rows12(h, l); }
    else { Rows14(h, l); }
  }

  /** The table reverses the bits of every byte. */
  lemma TableReverses(b: Byte)
    ensures |TABLE| == 16 && |TABLE[b / 16]| == 16 && TABLE[b / 16][b % 16] == Reversed(b)
  {
    Row(b / 16, b % 16);
    TwoNibbles(b / 16, b % 16);
  }

  /** bit_reverse_table[b] */
  function Reverse(b: Byte): Byte {
    TableReverses(b);
    TABLE[b / 16][b % 16]
  }

  lemma ReverseNibbles(h: nat, l: nat)
    requires h < 16 && l < 16
    ensures Nibble(h) < 16 && Nibble(l) < 16 && Reverse(16 * h + l) == 16 * Nibble(l) + Nibble(h)
  {
    var b := 16 * h + l;
    assert b / 16 == h && b % 16 == l;
    Row(h, l);
  }

  lemma NibbleTwice(x: nat)
    requires x < 16
    ensures Nibble(x) < 16 && Nibble(Nibble(x)) == x
  {
    var b3, b2, b1, b0 := x / 8 % 2, x / 4 % 2, x / 2 % 2, x % 2;
    assert x == 8 * b3 + 4 * b2 + 2 * b1 + b0;
    FourBits(b0, b1, b2, b3);
  }

  /** Reversing twice changes nothing: no byte is lost. */
  lemma ReverseTwice(b: Byte)
    ensures Reverse(Reverse(b)) == b
  {
    var h, l := b / 16, b % 16;
    assert b == 16 * h + l;
    var nh, nl := Nibble(h), Nibble(l);
    ReverseNibbles(h, l);
    ReverseNibbles(nl, nh);
    NibbleTwice(h);
    NibbleTwice(l);
  }
}
