/**
 The checksum of smartbus/crc16.go: the table-driven code computes the remainder of
 bit-serial division from register 0, and a frame passes the receiver's check
 exactly when dividing all of it leaves no remainder.
 */
module Crc16 {
  import opened BigEndian
  import opened BitDivision

  // ----- the table, sixteen entries (two source lines) a row -----

  const ROW_0: seq<bv16> := [
    0x0000, 0x1021, 0x2042, 0x3063, 0x4084, 0x50a5, 0x60c6, 0x70e7,
    0x8108, 0x9129, 0xa14a, 0xb16b, 0xc18c, 0xd1ad, 0xe1ce, 0xf1ef
  ]
  const ROW_1: seq<bv16> := [
    0x1231, 0x0210, 0x3273, 0x2252, 0x52b5, 0x4294, 0x72f7, 0x62d6,
    0x9339, 0x8318, 0xb37b, 0xa35a, 0xd3bd, 0xc39c, 0xf3ff, 0xe3de
  ]
  const ROW_2: seq<bv16> := [
    0x2462, 0x3443, 0x0420, 0x1401, 0x64e6, 0x74c7, 0x44a4, 0x5485,
    0xa56a, 0xb54b, 0x8528, 0x9509, 0xe5ee, 0xf5cf, 0xc5ac, 0xd58d
  ]
  const ROW_3: seq<bv16> := [
    0x3653, 0x2672, 0x1611, 0x0630, 0x76d7, 0x66f6, 0x5695, 0x46b4,
    0xb75b, 0xa77a, 0x9719, 0x8738, 0xf7df, 0xe7fe, 0xd79d, 0xc7bc
  ]
  const ROW_4: seq<bv16> := [
    0x48c4, 0x58e5, 0x6886, 0x78a7, 0x0840, 0x1861, 0x2802, 0x3823,
    0xc9cc, 0xd9ed, 0xe98e, 0xf9af, 0x8948, 0x9969, 0xa90a, 0xb92b
  ]
  const ROW_5: seq<bv16> := [
    0x5af5, 0x4ad4, 0x7ab7, 0x6a96, 0x1a71, 0x0a50, 0x3a33, 0x2a12,
    0xdbfd, 0xcbdc, 0xfbbf, 0xeb9e, 0x9b79, 0x8b58, 0xbb3b, 0xab1a
  ]
  const ROW_6: seq<bv16> := [
    0x6ca6, 0x7c87, 0x4ce4, 0x5cc5, 0x2c22, 0x3c03, 0x0c60, 0x1c41,
    0xedae, 0xfd8f, 0xcdec, 0xddcd, 0xad2a, 0xbd0b, 0x8d68, 0x9d49
  ]
  const ROW_7: seq<bv16> := [
    0x7e97, 0x6eb6, 0x5ed5, 0x4ef4, 0x3e13, 0x2e32, 0x1e51, 0x0e70,
    0xff9f, 0xefbe, 0xdfdd, 0xcffc, 0xbf1b, 0xaf3a, 0x9f59, 0x8f78
  ]
  const ROW_8: seq<bv16> := [
    0x9188, 0x81a9, 0xb1ca, 0xa1eb, 0xd10c, 0xc12d, 0xf14e, 0xe16f,
    0x1080, 0x00a1, 0x30c2, 0x20e3, 0x5004, 0x4025, 0x7046, 0x6067
  ]
  const ROW_9: seq<bv16> := [
    0x83b9, 0x9398, 0xa3fb, 0xb3da, 0xc33d, 0xd31c, 0xe37f, 0xf35e,
    0x02b1, 0x1290, 0x22f3, 0x32d2, 0x4235, 0x5214, 0x6277, 0x7256
  ]
  const ROW_A: seq<bv16> := [
    0xb5ea, 0xa5cb, 0x95a8, 0x8589, 0xf56e, 0xe54f, 0xd52c, 0xc50d,
    0x34e2, 0x24c3, 0x14a0, 0x0481, 0x7466, 0x6447, 0x5424, 0x4405
  ]
  const ROW_B: seq<bv16> := [
    0xa7db, 0xb7fa, 0x8799, 0x97b8, 0xe75f, 0xf77e, 0xc71d, 0xd73c,
    0x26d3, 0x36f2, 0x0691, 0x16b0, 0x6657, 0x7676, 0x4615, 0x5634
  ]
  const ROW_C: seq<bv16> := [
    0xd94c, 0xc96d, 0xf90e, 0xe92f, 0x99c8, 0x89e9, 0xb98a, 0xa9ab,
    0x5844, 0x4865, 0x7806, 0x6827, 0x18c0, 0x08e1, 0x3882, 0x28a3
  ]
  const ROW_D: seq<bv16> := [
    0xcb7d, 0xdb5c, 0xeb3f, 0xfb1e, 0x8bf9, 0x9bd8, 0xabbb, 0xbb9a,
    0x4a75, 0x5a54, 0x6a37, 0x7a16, 0x0af1, 0x1ad0, 0x2ab3, 0x3a92
  ]
  const ROW_E: seq<bv16> := [
    0xfd2e, 0xed0f, 0xdd6c, 0xcd4d, 0xbdaa, 0xad8b, 0x9de8, 0x8dc9,
    0x7c26, 0x6c07, 0x5c64, 0x4c45, 0x3ca2, 0x2c83, 0x1ce0, 0x0cc1
  ]
  const ROW_F: seq<bv16> := [
    0xef1f, 0xff3e, 0xcf5d, 0xdf7c, 0xaf9b, 0xbfba, 0x8fd9, 0x9ff8,
    0x6e17, 0x7e36, 0x4e55, 0x5e74, 0x2e93, 0x3eb2, 0x0ed1, 0x1ef0
  ]

  const QUARTER_0: seq<bv16> := ROW_0 + ROW_1 + ROW_2 + ROW_3
  const QUARTER_1: seq<bv16> := ROW_4 + ROW_5 + ROW_6 + ROW_7
  const QUARTER_2: seq<bv16> := ROW_8 + ROW_9 + ROW_A + ROW_B
  const QUARTER_3: seq<bv16> := ROW_C + ROW_D + ROW_E + ROW_F
  const CRC16_TAB: seq<bv16> := QUARTER_0 + QUARTER_1 + QUARTER_2 + QUARTER_3

  lemma TableSize()
    ensures |CRC16_TAB| == 256
  {}

  function TableIndex(b: bv8, prev: bv16): (i: nat)
    ensures i < 256
  {
    ((prev >> 8) ^ (b as bv16)) as int
  }

  // One table step: the register after one more byte.
  function UpdateCrc16(b: bv8, prev: bv16): bv16 {
    TableSize();
    Xor(prev << 8, CRC16_TAB[TableIndex(b, prev)])
  }

  function Shift8(c: bv16): bv16 {
    Shift(Shift(Shift(Shift(Shift(Shift(Shift(Shift(c))))))))
  }

  // ----- the table, entry by entry -----

  ghost predicate RowOk(row: seq<bv16>, hi: bv8) {
    |row| == 16 &&
    forall lo: bv8 {:trigger row[lo as int]} :: lo < 16 ==> row[lo as int] == Shift8((((hi << 4) | lo) as bv16) << 8)
  }

  lemma Row0Ok() ensures RowOk(ROW_0, 0x0) {}
  lemma Row1Ok() ensures RowOk(ROW_1, 0x1) {}
  lemma Row2Ok() ensures RowOk(ROW_2, 0x2) {}
  lemma Row3Ok() ensures RowOk(ROW_3, 0x3) {}
  lemma Row4Ok() ensures RowOk(ROW_4, 0x4) {}
  lemma Row5Ok() ensures RowOk(ROW_5, 0x5) {}
  lemma Row6Ok() ensures RowOk(ROW_6, 0x6) {}
  lemma Row7Ok() ensures RowOk(ROW_7, 0x7) {}
  lemma Row8Ok() ensures RowOk(ROW_8, 0x8) {}
  lemma Row9Ok() ensures RowOk(ROW_9, 0x9) {}
  lemma RowAOk() ensures RowOk(ROW_A, 0xa) {}
  lemma RowBOk() ensures RowOk(ROW_B, 0xb) {}
  lemma RowCOk() ensures RowOk(ROW_C, 0xc) {}
  lemma RowDOk() ensures RowOk(ROW_D, 0xd) {}
  lemma RowEOk() ensures RowOk(ROW_E, 0xe) {}
  lemma RowFOk() ensures RowOk(ROW_F, 0xf) {}

  lemma Index4<T>(a: seq<T>, b: seq<T>, c: seq<T>, d: seq<T>, n: nat, i: nat)
    requires |a| == |b| == |c| == |d| == n && i < n
    ensures |a + b + c + d| == 4 * n
    ensures (a + b + c + d)[i] == a[i] && (a + b + c + d)[n + i] == b[i]
    ensures (a + b + c + d)[2 * n + i] == c[i] && (a + b + c + d)[3 * n + i] == d[i]
  {}

  ghost predicate QuarterOk(quarter: seq<bv16>, top: bv8) {
    |quarter| == 64 &&
    forall lo: bv8 {:trigger quarter[lo as int]} ::
      lo < 64 ==> quarter[lo as int] == Shift8((((top << 6) | lo) as bv16) << 8)
  }

  lemma Nibbles(b: bv8)
    ensures b as int == 16 * ((b >> 4) as int) + (b & 0xf) as int
    ensures (b & 0xf) as int < 16
    ensures ((b >> 4) << 4) | (b & 0xf) == b && b & 0xf < 16
  {}

  lemma QuarterFromRows(r0: seq<bv16>, r1: seq<bv16>, r2: seq<bv16>, r3: seq<bv16>, top: bv8)
    requires RowOk(r0, top << 2) && RowOk(r1, (top << 2) | 1) && RowOk(r2, (top << 2) | 2) && RowOk(r3, (top << 2) | 3)
    ensures QuarterOk(r0 + r1 + r2 + r3, top)
  {
    var quarter := r0 + r1 + r2 + r3;
    forall b: bv8 {:trigger quarter[b as int]} | b < 64
      ensures quarter[b as int] == Shift8((((top << 6) | b) as bv16) << 8)
    {
      var hi, lo := b >> 4, b & 0xf;
      Nibbles(b);
      Index4(r0, r1, r2, r3, 16, lo as int);
      assert (((top << 2) | hi) << 4) | lo == (top << 6) | b;
      if hi == 0 {} else if hi == 1 {} else if hi == 2 {} else { assert hi == 3; }
    }
  }

  lemma TopBits(b: bv8)
    ensures b as int == 64 * ((b >> 6) as int) + (b & 0x3f) as int
    ensures (b & 0x3f) as int < 64
    ensures ((b >> 6) << 6) | (b & 0x3f) == b && b & 0x3f < 64
  {}

  lemma Quarters()
    ensures QuarterOk(QUARTER_0, 0) && QuarterOk(QUARTER_1, 1) && QuarterOk(QUARTER_2, 2) && QuarterOk(QUARTER_3, 3)
  {
    Row0Ok(); Row1Ok(); Row2Ok(); Row3Ok(); Row4Ok(); Row5Ok(); Row6Ok(); Row7Ok();
    Row8Ok(); Row9Ok(); RowAOk(); RowBOk(); RowCOk(); RowDOk(); RowEOk(); RowFOk();
    QuarterFromRows(ROW_0, ROW_1, ROW_2, ROW_3, 0);
    QuarterFromRows(ROW_4, ROW_5, ROW_6, ROW_7, 1);
    QuarterFromRows(ROW_8, ROW_9, ROW_A, ROW_B, 2);
    QuarterFromRows(ROW_C, ROW_D, ROW_E, ROW_F, 3);
  }

  lemma TableEntry(b: bv8)
    ensures |CRC16_TAB| == 256 && CRC16_TAB[b as int] == Shift8(High(b))
  {
    TopBits(b);
    Quarters();
    var q, lo := b >> 6, b & 0x3f;
    Index4(QUARTER_0, QUARTER_1, QUARTER_2, QUARTER_3, 64, lo as int);
    if q == 0 {} else if q == 1 {} else if q == 2 {} else { assert q == 3; }
  }

  // ----- the table step is eight bit steps -----

  lemma Shift8IsShifts(c: bv16)
    ensures Shift8(c) == Shifts(8, c)
  {
    hide Shift;
    var c4 := Shift(Shift(Shift(Shift(c))));
    assert Shifts(4, c4) == Shifts(0, Shift(Shift(Shift(Shift(c4)))));
  }

  // The byte that indexes the table, and the part of the register that stays.
  function Index(b: bv8, prev: bv16): bv8 { ((prev >> 8) ^ (b as bv16)) as bv8 }

  function Low(prev: bv16): bv16 { prev & 0xff }

  lemma SplitWords(b: bv8, prev: bv16, i: bv8, top: bv16, mid: bv16, low: bv16, sum: bv16, sum': bv16)
    requires i == Index(b, prev) && top == High(i) && mid == High(b) && low == Low(prev)
    requires sum == Xor(prev, mid) && sum' == Xor(top, low)
    ensures sum == sum'
  {}

  lemma SplitRegister(b: bv8, prev: bv16)
    ensures Xor(prev, High(b)) == Xor(High(Index(b, prev)), Low(prev))
  {
    hide *;
    var i := Index(b, prev);
    SplitWords(b, prev, i, High(i), High(b), Low(prev), Xor(prev, High(b)), Xor(High(i), Low(prev)));
  }

  lemma Shift8Low(prev: bv16)
    ensures Shift8(Low(prev)) == prev << 8
  {}

  lemma IndexIsIndex(b: bv8, prev: bv16)
    ensures TableIndex(b, prev) == Index(b, prev) as int
  {}

  lemma UpdateIsShifts(b: bv8, prev: bv16)
    ensures UpdateCrc16(b, prev) == Shifts(8, Xor(prev, High(b)))
  {
    hide Shift, Shift8, Shifts, Xor, High, Index, Low, TableIndex, CRC16_TAB;
    var top, low := High(Index(b, prev)), Low(prev);
    TableEntry(Index(b, prev));
    IndexIsIndex(b, prev);
    XorComm(prev << 8, Shift8(top));
    SplitRegister(b, prev);
    ShiftsLinear(8, top, low);
    Shift8IsShifts(top);
    Shift8IsShifts(low);
    Shift8Low(prev);
  }

  lemma UpdateIsDivide(b: bv8, prev: bv16)
    ensures UpdateCrc16(b, prev) == Divide(prev, ByteBits(b))
  {
    hide Shifts, UpdateCrc16, Divide, Xor, Top, High;
    UpdateIsShifts(b, prev);
    DivideIsShifts(prev, ByteBits(b));
    TopOfByte(b);
  }

  // ----- the code computes the division -----

  // The checksum, by its definition.
  function Crc(bs: seq<bv8>): bv16 { Divide(0, Bits(bs)) }

  // The loop of crc16: the table-driven register is the remainder of the division.
  method ComputeCrc16(bs: seq<bv8>) returns (crc: bv16)
    ensures crc == Crc(bs)
  {
    hide UpdateCrc16, Divide, ByteBits;
    crc := 0;
    assert Divide(0, []) == 0 by { DivideNone(0); }
    for i := 0 to |bs|
      invariant crc == Divide(0, Bits(bs[..i]))
    {
      UpdateIsDivide(bs[i], crc);
      BitsOne(bs[i]);
      BitsSplit(bs[..i], [bs[i]]);
      assert bs[..i + 1] == bs[..i] + [bs[i]];
      DivideSplit(0, Bits(bs[..i]), ByteBits(bs[i]));
      crc := UpdateCrc16(bs[i], crc);
    }
    assert bs[..|bs|] == bs;
  }

  // ----- what a receiver checks -----

  // The last two bytes hold the checksum of the others.
  predicate CrcOk(frame: seq<bv8>)
    requires |frame| >= 2
  {
    Crc(frame[..|frame| - 2]) == Word(frame[|frame| - 2], frame[|frame| - 1])
  }

  lemma WordSum(hi: bv8, lo: bv8)
    ensures Word(hi, lo) == Xor(High(hi), Low(lo as bv16))
    ensures (lo as bv16) << 8 == High(lo)
  {}

  lemma CrcLast(bs: seq<bv8>, b: bv8)
    ensures Crc(bs + [b]) == Shifts(8, Xor(Crc(bs), High(b)))
  {
    hide Divide, Shifts, ByteBits, Bits, Xor, High, Top;
    BitsSplit(bs, [b]);
    BitsOne(b);
    DivideSplit(0, Bits(bs), ByteBits(b));
    DivideIsShifts(Crc(bs), ByteBits(b));
    TopOfByte(b);
  }

  lemma CrcLastTwo(bs: seq<bv8>, hi: bv8, lo: bv8)
    ensures Crc(bs + [hi, lo]) == Shifts(8, Shifts(8, Xor(Crc(bs), Word(hi, lo))))
  {
    hide *;
    var c, low := Crc(bs), Low(lo as bv16);
    assert bs + [hi, lo] == (bs + [hi]) + [lo];
    CrcLast(bs, hi);
    CrcLast(bs + [hi], lo);
    WordSum(hi, lo);
    Shift8Low(lo as bv16);
    Shift8IsShifts(low);
    ShiftsLinear(8, Xor(c, High(hi)), low);
    XorAssoc(c, High(hi), low);
  }

  // A frame passes the check exactly when dividing all of it, checksum included,
  // leaves no remainder.
  lemma CrcOkIffNoRemainder(frame: seq<bv8>)
    requires |frame| >= 2
    ensures CrcOk(frame) <==> Crc(frame) == 0
  {
    hide Crc, Word, Shifts, Xor;
    var n := |frame| - 2;
    var data, hi, lo := frame[..n], frame[n], frame[n + 1];
    assert frame == data + [hi, lo];
    CrcLastTwo(data, hi, lo);
    var rest := Xor(Crc(data), Word(hi, lo));
    if rest == 0 {
      XorEqual(Crc(data), Word(hi, lo));
      ShiftsZero(8);
    } else {
      ShiftsNonzero(8, rest);
      ShiftsNonzero(8, Shifts(8, rest));
      XorZero(Crc(data));
    }
  }
}
