/** The checksum table of crc16/main.go, and the proof that each of its 256 entries is right. */
module Crc16Table {
  import opened Folds

  type word = bv16

  const ROW_0: seq<word> := [0x0000, 0x1021, 0x2042, 0x3063, 0x4084, 0x50a5, 0x60c6, 0x70e7,
    0x8108, 0x9129, 0xa14a, 0xb16b, 0xc18c, 0xd1ad, 0xe1ce, 0xf1ef]
  const ROW_1: seq<word> := [0x1231, 0x0210, 0x3273, 0x2252, 0x52b5, 0x4294, 0x72f7, 0x62d6,
    0x9339, 0x8318, 0xb37b, 0xa35a, 0xd3bd, 0xc39c, 0xf3ff, 0xe3de]
  const ROW_2: seq<word> := [0x2462, 0x3443, 0x0420, 0x1401, 0x64e6, 0x74c7, 0x44a4, 0x5485,
    0xa56a, 0xb54b, 0x8528, 0x9509, 0xe5ee, 0xf5cf, 0xc5ac, 0xd58d]
  const ROW_3: seq<word> := [0x3653, 0x2672, 0x1611, 0x0630, 0x76d7, 0x66f6, 0x5695, 0x46b4,
    0xb75b, 0xa77a, 0x9719, 0x8738, 0xf7df, 0xe7fe, 0xd79d, 0xc7bc]
  const ROW_4: seq<word> := [0x48c4, 0x58e5, 0x6886, 0x78a7, 0x0840, 0x1861, 0x2802, 0x3823,
    0xc9cc, 0xd9ed, 0xe98e, 0xf9af, 0x8948, 0x9969, 0xa90a, 0xb92b]
  const ROW_5: seq<word> := [0x5af5, 0x4ad4, 0x7ab7, 0x6a96, 0x1a71, 0x0a50, 0x3a33, 0x2a12,
    0xdbfd, 0xcbdc, 0xfbbf, 0xeb9e, 0x9b79, 0x8b58, 0xbb3b, 0xab1a]
  const ROW_6: seq<word> := [0x6ca6, 0x7c87, 0x4ce4, 0x5cc5, 0x2c22, 0x3c03, 0x0c60, 0x1c41,
    0xedae, 0xfd8f, 0xcdec, 0xddcd, 0xad2a, 0xbd0b, 0x8d68, 0x9d49]
  const ROW_7: seq<word> := [0x7e97, 0x6eb6, 0x5ed5, 0x4ef4, 0x3e13, 0x2e32, 0x1e51, 0x0e70,
    0xff9f, 0xefbe, 0xdfdd, 0xcffc, 0xbf1b, 0xaf3a, 0x9f59, 0x8f78]
  const ROW_8: seq<word> := [0x9188, 0x81a9, 0xb1ca, 0xa1eb, 0xd10c, 0xc12d, 0xf14e, 0xe16f,
    0x1080, 0x00a1, 0x30c2, 0x20e3, 0x5004, 0x4025, 0x7046, 0x6067]
  const ROW_9: seq<word> := [0x83b9, 0x9398, 0xa3fb, 0xb3da, 0xc33d, 0xd31c, 0xe37f, 0xf35e,
    0x02b1, 0x1290, 0x22f3, 0x32d2, 0x4235, 0x5214, 0x6277, 0x7256]
  const ROW_A: seq<word> := [0xb5ea, 0xa5cb, 0x95a8, 0x8589, 0xf56e, 0xe54f, 0xd52c, 0xc50d,
    0x34e2, 0x24c3, 0x14a0, 0x0481, 0x7466, 0x6447, 0x5424, 0x4405]
  const ROW_B: seq<word> := [0xa7db, 0xb7fa, 0x8799, 0x97b8, 0xe75f, 0xf77e, 0xc71d, 0xd73c,
    0x26d3, 0x36f2, 0x0691, 0x16b0, 0x6657, 0x7676, 0x4615, 0x5634]
  const ROW_C: seq<word> := [0xd94c, 0xc96d, 0xf90e, 0xe92f, 0x99c8, 0x89e9, 0xb98a, 0xa9ab,
    0x5844, 0x4865, 0x7806, 0x6827, 0x18c0, 0x08e1, 0x3882, 0x28a3]
  const ROW_D: seq<word> := [0xcb7d, 0xdb5c, 0xeb3f, 0xfb1e, 0x8bf9, 0x9bd8, 0xabbb, 0xbb9a,
    0x4a75, 0x5a54, 0x6a37, 0x7a16, 0x0af1, 0x1ad0, 0x2ab3, 0x3a92]
  const ROW_E: seq<word> := [0xfd2e, 0xed0f, 0xdd6c, 0xcd4d, 0xbdaa, 0xad8b, 0x9de8, 0x8dc9,
    0x7c26, 0x6c07, 0x5c64, 0x4c45, 0x3ca2, 0x2c83, 0x1ce0, 0x0cc1]
  const ROW_F: seq<word> := [0xef1f, 0xff3e, 0xcf5d, 0xdf7c, 0xaf9b, 0xbfba, 0x8fd9, 0x9ff8,
    0x6e17, 0x7e36, 0x4e55, 0x5e74, 0x2e93, 0x3eb2, 0x0ed1, 0x1ef0]

  /** The 256-entry table, row after row. */
  const CRC16TAB: seq<word> := QUARTER_0 + QUARTER_1 + QUARTER_2 + QUARTER_3
  const QUARTER_0: seq<word> := ROW_0 + ROW_1 + ROW_2 + ROW_3
  const QUARTER_1: seq<word> := ROW_4 + ROW_5 + ROW_6 + ROW_7
  const QUARTER_2: seq<word> := ROW_8 + ROW_9 + ROW_A + ROW_B
  const QUARTER_3: seq<word> := ROW_C + ROW_D + ROW_E + ROW_F

  /** Multiply by x, and subtract the polynomial x^16 + x^12 + x^5 + 1 (0x1021) if a term of degree 16 appears. */
  function ZeroStep(c: word): word {
    var carry := c >> 15;
    (c << 1) ^ (carry << 12) ^ (carry << 5) ^ carry
  }

  /** Eight zero bits after the index i in the high byte, in closed form. */
  function Entry(i: word): word {
    var t := i ^ (i >> 4);
    (t << 12) ^ (t << 5) ^ t
  }

  /** The sixteen table indices of a row. */
  function Keys(first: word): (r: seq<word>)
    ensures |r| == 16
  {
    [first, first + 1, first + 2, first + 3, first + 4, first + 5, first + 6, first + 7,
     first + 8, first + 9, first + 10, first + 11, first + 12, first + 13, first + 14, first + 15]
  }

  /** row lists the values of f at the keys. */
  predicate Tabulates(row: seq<word>, keys: seq<word>, f: word -> word) {
    && |row| == 16 == |keys|
    && row[0] == f(keys[0]) && row[1] == f(keys[1]) && row[2] == f(keys[2]) && row[3] == f(keys[3])
    && row[4] == f(keys[4]) && row[5] == f(keys[5]) && row[6] == f(keys[6]) && row[7] == f(keys[7])
    && row[8] == f(keys[8]) && row[9] == f(keys[9]) && row[10] == f(keys[10]) && row[11] == f(keys[11])
    && row[12] == f(keys[12]) && row[13] == f(keys[13]) && row[14] == f(keys[14]) && row[15] == f(keys[15])
  }

  predicate Lists(row: seq<word>, keys: seq<word>, f: word -> word) {
    |row| == 16 == |keys| && forall k :: 0 <= k < 16 ==> row[k] == f(keys[k])
  }

  lemma TabulatesLists(row: seq<word>, keys: seq<word>, f: word -> word)
    requires Tabulates(row, keys, f)
    ensures Lists(row, keys, f)
  {
  }

  lemma KeyAt(first: word, j: word)
    requires j < 16
    ensures 0 <= j as int < 16 && Keys(first)[j as int] == first + j
  {
  }

  lemma Row0() ensures Lists(ROW_0, Keys(0x00), Entry) { TabulatesLists(ROW_0, Keys(0x00), Entry); }
  lemma Row1() ensures Lists(ROW_1, Keys(0x10), Entry) { TabulatesLists(ROW_1, Keys(0x10), Entry); }
  lemma Row2() ensures Lists(ROW_2, Keys(0x20), Entry) { TabulatesLists(ROW_2, Keys(0x20), Entry); }
  lemma Row3() ensures Lists(ROW_3, Keys(0x30), Entry) { TabulatesLists(ROW_3, Keys(0x30), Entry); }
  lemma Row4() ensures Lists(ROW_4, Keys(0x40), Entry) { TabulatesLists(ROW_4, Keys(0x40), Entry); }
  lemma Row5() ensures Lists(ROW_5, Keys(0x50), Entry) { TabulatesLists(ROW_5, Keys(0x50), Entry); }
  lemma Row6() ensures Lists(ROW_6, Keys(0x60), Entry) { TabulatesLists(ROW_6, Keys(0x60), Entry); }
  lemma Row7() ensures Lists(ROW_7, Keys(0x70), Entry) { TabulatesLists(ROW_7, Keys(0x70), Entry); }
  lemma Row8() ensures Lists(ROW_8, Keys(0x80), Entry) { TabulatesLists(ROW_8, Keys(0x80), Entry); }
  lemma Row9() ensures Lists(ROW_9, Keys(0x90), Entry) { TabulatesLists(ROW_9, Keys(0x90), Entry); }
  lemma RowA() ensures Lists(ROW_A, Keys(0xA0), Entry) { TabulatesLists(ROW_A, Keys(0xA0), Entry); }
  lemma RowB() ensures Lists(ROW_B, Keys(0xB0), Entry) { TabulatesLists(ROW_B, Keys(0xB0), Entry); }
  lemma RowC() ensures Lists(ROW_C, Keys(0xC0), Entry) { TabulatesLists(ROW_C, Keys(0xC0), Entry); }
  lemma RowD() ensures Lists(ROW_D, Keys(0xD0), Entry) { TabulatesLists(ROW_D, Keys(0xD0), Entry); }
  lemma RowE() ensures Lists(ROW_E, Keys(0xE0), Entry) { TabulatesLists(ROW_E, Keys(0xE0), Entry); }
  lemma RowF() ensures Lists(ROW_F, Keys(0xF0), Entry) { TabulatesLists(ROW_F, Keys(0xF0), Entry); }

  /** A value found by its row and its place in the row. */
  lemma ValueInRow(table: seq<word>, f: word -> word, i: word, row: seq<word>, first: word, n: int)
    requires i & 0xf0 == first && ((i & 0x3f) >> 4) as int == n
    requires 0 <= n < 4 && |table| == 64 && table[16 * n..16 * n + 16] == row && Lists(row, Keys(first), f) && i <= 0xff
    ensures 0 <= (i & 0x3f) as int < 64 && table[(i & 0x3f) as int] == f(i)
  {
    var j := i & 0x0f;
    KeyAt(first, j);
    assert (i & 0x3f) as int == 16 * (((i & 0x3f) >> 4) as int) + (j as int);
    assert first + j == i;
    assert row[j as int] == table[16 * n + j as int];
  }

  lemma FourRows(a: seq<word>, b: seq<word>, c: seq<word>, d: seq<word>, t: seq<word>)
    requires |a| == |b| == |c| == |d| == 16 && t == a + b + c + d
    ensures |t| == 64 && t[0..16] == a && t[16..32] == b && t[32..48] == c && t[48..64] == d
  {
  }

  lemma Quarter0(i: word)
    requires i & 0xc0 == 0x00 && i <= 0xff
    ensures |QUARTER_0| == 64 && 0 <= (i & 0x3f) as int < 64 && QUARTER_0[(i & 0x3f) as int] == Entry(i)
  {
    FourRows(ROW_0, ROW_1, ROW_2, ROW_3, QUARTER_0);
    if i & 0xf0 == 0x00 {
      Row0();
      ValueInRow(QUARTER_0, Entry, i, ROW_0, 0x00, 0);
    } else if i & 0xf0 == 0x10 {
      Row1();
      ValueInRow(QUARTER_0, Entry, i, ROW_1, 0x10, 1);
    } else if i & 0xf0 == 0x20 {
      Row2();
      ValueInRow(QUARTER_0, Entry, i, ROW_2, 0x20, 2);
    } else {
      Row3();
      ValueInRow(QUARTER_0, Entry, i, ROW_3, 0x30, 3);
    }
  }

  lemma Quarter1(i: word)
    requires i & 0xc0 == 0x40 && i <= 0xff
    ensures |QUARTER_1| == 64 && 0 <= (i & 0x3f) as int < 64 && QUARTER_1[(i & 0x3f) as int] == Entry(i)
  {
    FourRows(ROW_4, ROW_5, ROW_6, ROW_7, QUARTER_1);
    if i & 0xf0 == 0x40 {
      Row4();
      ValueInRow(QUARTER_1, Entry, i, ROW_4, 0x40, 0);
    } else if i & 0xf0 == 0x50 {
      Row5();
      ValueInRow(QUARTER_1, Entry, i, ROW_5, 0x50, 1);
    } else if i & 0xf0 == 0x60 {
      Row6();
      ValueInRow(QUARTER_1, Entry, i, ROW_6, 0x60, 2);
    } else {
      Row7();
      ValueInRow(QUARTER_1, Entry, i, ROW_7, 0x70, 3);
    }
  }

  lemma Quarter2(i: word)
    requires i & 0xc0 == 0x80 && i <= 0xff
    ensures |QUARTER_2| == 64 && 0 <= (i & 0x3f) as int < 64 && QUARTER_2[(i & 0x3f) as int] == Entry(i)
  {
    FourRows(ROW_8, ROW_9, ROW_A, ROW_B, QUARTER_2);
    if i & 0xf0 == 0x80 {
      Row8();
      ValueInRow(QUARTER_2, Entry, i, ROW_8, 0x80, 0);
    } else if i & 0xf0 == 0x90 {
      Row9();
      ValueInRow(QUARTER_2, Entry, i, ROW_9, 0x90, 1);
    } else if i & 0xf0 == 0xa0 {
      RowA();
      ValueInRow(QUARTER_2, Entry, i, ROW_A, 0xa0, 2);
    } else {
      RowB();
      ValueInRow(QUARTER_2, Entry, i, ROW_B, 0xb0, 3);
    }
  }

  lemma Quarter3(i: word)
    requires i & 0xc0 == 0xc0 && i <= 0xff
    ensures |QUARTER_3| == 64 && 0 <= (i & 0x3f) as int < 64 && QUARTER_3[(i & 0x3f) as int] == Entry(i)
  {
    FourRows(ROW_C, ROW_D, ROW_E, ROW_F, QUARTER_3);
    if i & 0xf0 == 0xc0 {
      RowC();
      ValueInRow(QUARTER_3, Entry, i, ROW_C, 0xc0, 0);
    } else if i & 0xf0 == 0xd0 {
      RowD();
      ValueInRow(QUARTER_3, Entry, i, ROW_D, 0xd0, 1);
    } else if i & 0xf0 == 0xe0 {
      RowE();
      ValueInRow(QUARTER_3, Entry, i, ROW_E, 0xe0, 2);
    } else {
      RowF();
      ValueInRow(QUARTER_3, Entry, i, ROW_F, 0xf0, 3);
    }
  }

  /** A value found by its quarter of the table. */
  lemma ValueInQuarter(t0: seq<word>, t1: seq<word>, t2: seq<word>, t3: seq<word>, i: word, v: word)
    requires |t0| == |t1| == |t2| == |t3| == 64 && i <= 0xff && 0 <= (i & 0x3f) as int < 64
    requires i & 0xc0 == 0x00 ==> t0[(i & 0x3f) as int] == v
    requires i & 0xc0 == 0x40 ==> t1[(i & 0x3f) as int] == v
    requires i & 0xc0 == 0x80 ==> t2[(i & 0x3f) as int] == v
    requires i & 0xc0 == 0xc0 ==> t3[(i & 0x3f) as int] == v
    ensures 0 <= i as int < 256 && (t0 + t1 + t2 + t3)[i as int] == v
  {
    assert i as int == 64 * ((i >> 6) as int) + ((i & 0x3f) as int);
    if i & 0xc0 == 0x00 { assert (i >> 6) as int == 0; }
    else if i & 0xc0 == 0x40 { assert (i >> 6) as int == 1; }
    else if i & 0xc0 == 0x80 { assert (i >> 6) as int == 2; }
    else { assert (i >> 6) as int == 3; }
  }

  lemma EightSteps(i: word, a: word, b: word, c: word, d: word, e: word, f: word, g: word, h: word)
    requires a == ZeroStep(i) && b == ZeroStep(a) && c == ZeroStep(b) && d == ZeroStep(c)
    requires e == ZeroStep(d) && f == ZeroStep(e) && g == ZeroStep(f) && h == ZeroStep(g)
    ensures h == (i << 8) ^ Entry(i >> 8)
  {
  }

  /** Eight zero bits move the low byte up and replace the high byte by its table entry. */
  lemma ZeroByte(c: word)
    ensures Iterate(ZeroStep, 8, c) == (c << 8) ^ Entry(c >> 8)
  {
    var d := ZeroStep(c);
    var e := ZeroStep(d);
    var f := ZeroStep(e);
    var g := ZeroStep(f);
    var h := ZeroStep(g);
    var i := ZeroStep(h);
    var j := ZeroStep(i);
    var k := ZeroStep(j);
    EightSteps(c, d, e, f, g, h, i, j, k);
    Iterate8(ZeroStep, c);
  }

  /** Every entry of the table is the register after eight zero bits, starting from the index in its high byte. */
  lemma TableCorrect(i: word)
    requires i <= 0xff
    ensures |CRC16TAB| == 256 && 0 <= i as int < 256
    ensures CRC16TAB[i as int] == Iterate(ZeroStep, 8, i << 8)
  {
    TableHolds(i);
    ZeroByte(i << 8);
    HighByteOnly(i);
  }

  lemma HighByteOnly(i: word)
    requires i <= 0xff
    ensures ((i << 8) << 8) ^ Entry((i << 8) >> 8) == Entry(i)
  {
  }

  lemma TableHolds(i: word)
    requires i <= 0xff
    ensures |CRC16TAB| == 256 && 0 <= i as int < 256 && CRC16TAB[i as int] == Entry(i)
  {
    var e := Entry(i);
    assert 0 <= (i & 0x3f) as int < 64;
    if i & 0xc0 == 0x00 { Quarter0(i); }
    if i & 0xc0 == 0x40 { Quarter1(i); }
    if i & 0xc0 == 0x80 { Quarter2(i); }
    if i & 0xc0 == 0xc0 { Quarter3(i); }
    ValueInQuarter(QUARTER_0, QUARTER_1, QUARTER_2, QUARTER_3, i, e);
  }
}
