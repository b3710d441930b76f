/**
 The CRC-8 of the serial link (src/transmission/bidib_transmission_crc.c): the
 256-entry table, the bitwise definition it tabulates, and what the check byte
 at the end of a packet detects.
 */
module Crc {
  import opened Bytes

  // ---------------------------------------------------------------- the table

  /** One of eight values, by index: a row of the table. */
  function Pick(k: bv8, v0: bv8, v1: bv8, v2: bv8, v3: bv8, v4: bv8, v5: bv8, v6: bv8, v7: bv8): bv8 {
    if k == 0 then v0 else if k == 1 then v1 else if k == 2 then v2 else if k == 3 then v3
    else if k == 4 then v4 else if k == 5 then v5 else if k == 6 then v6 else v7
  }

  /** The constant table, eight entries a row as in the source file. */
  function Table(b: bv8): bv8 {
    var k := b & 7;
    match b >> 3
    case 0 => Pick(k, 0x00, 0x5e, 0xbc, 0xe2, 0x61, 0x3f, 0xdd, 0x83)
    case 1 => Pick(k, 0xc2, 0x9c, 0x7e, 0x20, 0xa3, 0xfd, 0x1f, 0x41)
    case 2 => Pick(k, 0x9d, 0xc3, 0x21, 0x7f, 0xfc, 0xa2, 0x40, 0x1e)
    case 3 => Pick(k, 0x5f, 0x01, 0xe3, 0xbd, 0x3e, 0x60, 0x82, 0xdc)
    case 4 => Pick(k, 0x23, 0x7d, 0x9f, 0xc1, 0x42, 0x1c, 0xfe, 0xa0)
    case 5 => Pick(k, 0xe1, 0xbf, 0x5d, 0x03, 0x80, 0xde, 0x3c, 0x62)
    case 6 => Pick(k, 0xbe, 0xe0, 0x02, 0x5c, 0xdf, 0x81, 0x63, 0x3d)
    case 7 => Pick(k, 0x7c, 0x22, 0xc0, 0x9e, 0x1d, 0x43, 0xa1, 0xff)
    case 8 => Pick(k, 0x46, 0x18, 0xfa, 0xa4, 0x27, 0x79, 0x9b, 0xc5)
    case 9 => Pick(k, 0x84, 0xda, 0x38, 0x66, 0xe5, 0xbb, 0x59, 0x07)
    case 10 => Pick(k, 0xdb, 0x85, 0x67, 0x39, 0xba, 0xe4, 0x06, 0x58)
    case 11 => Pick(k, 0x19, 0x47, 0xa5, 0xfb, 0x78, 0x26, 0xc4, 0x9a)
    case 12 => Pick(k, 0x65, 0x3b, 0xd9, 0x87, 0x04, 0x5a, 0xb8, 0xe6)
    case 13 => Pick(k, 0xa7, 0xf9, 0x1b, 0x45, 0xc6, 0x98, 0x7a, 0x24)
    case 14 => Pick(k, 0xf8, 0xa6, 0x44, 0x1a, 0x99, 0xc7, 0x25, 0x7b)
    case 15 => Pick(k, 0x3a, 0x64, 0x86, 0xd8, 0x5b, 0x05, 0xe7, 0xb9)
    case 16 => Pick(k, 0x8c, 0xd2, 0x30, 0x6e, 0xed, 0xb3, 0x51, 0x0f)
    case 17 => Pick(k, 0x4e, 0x10, 0xf2, 0xac, 0x2f, 0x71, 0x93, 0xcd)
    case 18 => Pick(k, 0x11, 0x4f, 0xad, 0xf3, 0x70, 0x2e, 0xcc, 0x92)
    case 19 => Pick(k, 0xd3, 0x8d, 0x6f, 0x31, 0xb2, 0xec, 0x0e, 0x50)
    case 20 => Pick(k, 0xaf, 0xf1, 0x13, 0x4d, 0xce, 0x90, 0x72, 0x2c)
    case 21 => Pick(k, 0x6d, 0x33, 0xd1, 0x8f, 0x0c, 0x52, 0xb0, 0xee)
    case 22 => Pick(k, 0x32, 0x6c, 0x8e, 0xd0, 0x53, 0x0d, 0xef, 0xb1)
    case 23 => Pick(k, 0xf0, 0xae, 0x4c, 0x12, 0x91, 0xcf, 0x2d, 0x73)
    case 24 => Pick(k, 0xca, 0x94, 0x76, 0x28, 0xab, 0xf5, 0x17, 0x49)
    case 25 => Pick(k, 0x08, 0x56, 0xb4, 0xea, 0x69, 0x37, 0xd5, 0x8b)
    case 26 => Pick(k, 0x57, 0x09, 0xeb, 0xb5, 0x36, 0x68, 0x8a, 0xd4)
    case 27 => Pick(k, 0x95, 0xcb, 0x29, 0x77, 0xf4, 0xaa, 0x48, 0x16)
    case 28 => Pick(k, 0xe9, 0xb7, 0x55, 0x0b, 0x88, 0xd6, 0x34, 0x6a)
    case 29 => Pick(k, 0x2b, 0x75, 0x97, 0xc9, 0x4a, 0x14, 0xf6, 0xa8)
    case 30 => Pick(k, 0x74, 0x2a, 0xc8, 0x96, 0x15, 0x4b, 0xa9, 0xf7)
    case _ => Pick(k, 0xb6, 0xe8, 0x0a, 0x54, 0xd7, 0x89, 0x6b, 0x35)
  }

  // ------------------------------------------------- the bitwise definition

  /** One bit of the reflected division by the polynomial 0x8C. */
  function ShiftOut(c: bv8): bv8 {
    if c & 1 == 1 then (c >> 1) ^ 0x8C else c >> 1
  }

  function FourShifts(c: bv8): bv8 {
    ShiftOut(ShiftOut(ShiftOut(ShiftOut(c))))
  }

  function EightShifts(c: bv8): bv8 {
    FourShifts(FourShifts(c))
  }

  lemma FirstQuarter(b: bv8)
    requires b >> 6 == 0
    ensures Table(b) == EightShifts(b)
  {}

  lemma SecondQuarter(b: bv8)
    requires b >> 6 == 1
    ensures Table(b) == EightShifts(b)
  {}

  lemma ThirdQuarter(b: bv8)
    requires b >> 6 == 2
    ensures Table(b) == EightShifts(b)
  {}

  lemma FourthQuarter(b: bv8)
    requires b >> 6 == 3
    ensures Table(b) == EightShifts(b)
  {}

  /** Every entry of the table is eight steps of the bitwise division. */
  lemma TableIsBitwise(b: bv8)
    ensures Table(b) == EightShifts(b)
  {
    hide Table;
    hide EightShifts;
    if b >> 6 == 0 {
      FirstQuarter(b);
    } else if b >> 6 == 1 {
      SecondQuarter(b);
    } else if b >> 6 == 2 {
      ThirdQuarter(b);
    } else {
      FourthQuarter(b);
    }
  }

  lemma ShiftOutLinear(a: bv8, b: bv8)
    ensures ShiftOut(Plus(a, b)) == Plus(ShiftOut(a), ShiftOut(b))
  {}

  lemma FourShiftsLinear(a: bv8, b: bv8)
    ensures FourShifts(Plus(a, b)) == Plus(FourShifts(a), FourShifts(b))
  {
    hide Plus;
    hide ShiftOut;
    var a1, b1 := ShiftOut(a), ShiftOut(b);
    var a2, b2 := ShiftOut(a1), ShiftOut(b1);
    var a3, b3 := ShiftOut(a2), ShiftOut(b2);
    ShiftOutLinear(a, b);
    ShiftOutLinear(a1, b1);
    ShiftOutLinear(a2, b2);
    ShiftOutLinear(a3, b3);
  }

  lemma EightShiftsLinear(a: bv8, b: bv8)
    ensures EightShifts(Plus(a, b)) == Plus(EightShifts(a), EightShifts(b))
  {
    hide Plus;
    hide FourShifts;
    FourShiftsLinear(a, b);
    FourShiftsLinear(FourShifts(a), FourShifts(b));
  }

  /** The table is linear: the entry of a sum is the sum of the entries. */
  lemma TableLinear(a: bv8, b: bv8)
    ensures Table(Plus(a, b)) == Plus(Table(a), Table(b))
  {
    hide Plus;
    hide Table;
    hide EightShifts;
    TableIsBitwise(a);
    TableIsBitwise(b);
    TableIsBitwise(Plus(a, b));
    EightShiftsLinear(a, b);
  }

  lemma EightShiftsInjective(a: bv8, b: bv8)
    requires EightShifts(a) == EightShifts(b)
    ensures a == b
  {}

  /** The table is one-to-one, so on 256 entries a bijection. */
  lemma TableInjective(a: bv8, b: bv8)
    ensures Table(a) == Table(b) <==> a == b
  {
    hide Table;
    hide EightShifts;
    TableIsBitwise(a);
    TableIsBitwise(b);
    if Table(a) == Table(b) {
      EightShiftsInjective(a, b);
    }
  }

  lemma TableOfZero()
    ensures Table(0) == 0
  {}

  /** A window of eight bits across two bytes leaves a remainder: the second byte never cancels the first. */
  lemma EightShiftsSeparatesWindow(w: bv8, s: bv8)
    requires w != 0 && s < 8
    ensures EightShifts(w << s) != w >> (8 - s)
  {}

  /** A burst that ends inside its byte is visible in that byte. */
  lemma WindowNotLost(w: bv8, s: bv8)
    requires w != 0 && s < 8 && w >> (8 - s) == 0
    ensures w << s != 0
  {}

  // --------------------------------------------------------- running checksum

  /** One step of the running checksum: the table at the new byte plus the checksum so far. */
  function Step(crc: byte, b: byte): byte {
    Num(Table(Plus(Bits(b), Bits(crc))))
  }

  lemma TableIsZero(x: bv8)
    ensures Table(x) == 0 <==> x == 0
  {
    hide Table;
    TableOfZero();
    TableInjective(x, 0);
  }

  /** The step reaches zero exactly when the new byte equals the checksum so far. */
  lemma StepZero(crc: byte, b: byte)
    ensures Step(crc, b) == 0 <==> b == crc
  {
    hide Table;
    hide Plus;
    hide Bits;
    hide Num;
    var x := Plus(Bits(b), Bits(crc));
    TableIsZero(x);
    BitsNum(Table(x));
    ZeroBits();
    PlusIsZero(Bits(b), Bits(crc));
    NumBits(b);
    NumBits(crc);
  }

  lemma PlusSwapInner(a: bv8, b: bv8, c: bv8)
    ensures Plus(Plus(a, b), c) == Plus(Plus(a, c), b) == Plus(a, Plus(b, c))
  {}

  lemma PlusExchange(a: bv8, b: bv8, c: bv8, d: bv8)
    ensures Plus(Plus(a, b), Plus(c, d)) == Plus(Plus(a, c), Plus(b, d))
  {
    hide Plus;
    PlusSwapInner(Plus(a, b), c, d);
    PlusSwapInner(a, b, c);
    PlusSwapInner(Plus(a, c), b, d);
  }

  /** Checksums add: stepping a sum of checksums by a sum of bytes is the sum of the steps. */
  lemma StepLinear(c: byte, d: byte, a: byte, b: byte)
    ensures Step(Xor(c, d), Xor(a, b)) == Xor(Step(c, a), Step(d, b))
  {
    hide Table;
    hide Plus;
    hide Bits;
    hide Num;
    var x, y := Plus(Bits(a), Bits(c)), Plus(Bits(b), Bits(d));
    BitsNum(Plus(Bits(a), Bits(b)));
    BitsNum(Plus(Bits(c), Bits(d)));
    PlusExchange(Bits(a), Bits(b), Bits(c), Bits(d));
    TableLinear(x, y);
    BitsNum(Table(x));
    BitsNum(Table(y));
  }

  /** The checksum of a byte string, one table step a byte. */
  function CrcOf(s: seq<byte>): byte {
    if s == [] then 0 else Step(CrcOf(s[..|s| - 1]), s[|s| - 1])
  }

  lemma CrcAppend(s: seq<byte>, b: byte)
    ensures CrcOf(s + [b]) == Step(CrcOf(s), b)
  {
    hide Step;
    assert (s + [b])[..|s|] == s;
  }

  /** A packet followed by one more byte checks to zero exactly when that byte is the packet's checksum. */
  lemma CheckByteUnique(s: seq<byte>, b: byte)
    ensures CrcOf(s + [b]) == 0 <==> b == CrcOf(s)
  {
    hide CrcOf;
    hide Step;
    CrcAppend(s, b);
    StepZero(CrcOf(s), b);
  }

  lemma {:induction false} CrcLinear(s: seq<byte>, e: seq<byte>)
    requires |s| == |e|
    ensures CrcOf(XorSeq(s, e)) == Xor(CrcOf(s), CrcOf(e))
  {
    hide Step;
    hide Xor;
    if s == [] {
      XorIsZero(0, 0);
    } else {
      var n := |s| - 1;
      assert XorSeq(s, e)[..n] == XorSeq(s[..n], e[..n]);
      CrcLinear(s[..n], e[..n]);
      StepLinear(CrcOf(s[..n]), CrcOf(e[..n]), s[n], e[n]);
    }
  }

  // -------------------------------------------------------- burst detection

  /**
   The error pattern e flips at most eight consecutive bits, counted least
   significant first: the non-zero window w, shifted up by s, lies across the
   bytes i and i + 1 and every other byte is zero.
   */
  ghost predicate IsBurst(e: seq<byte>, i: nat, s: bv8, w: bv8) {
    && i < |e| && s < 8 && w != 0
    && Bits(e[i]) == w << s
    && (if i + 1 < |e| then Bits(e[i + 1]) == w >> (8 - s) else w >> (8 - s) == 0)
    && forall k :: 0 <= k < |e| && k != i && k != i + 1 ==> e[k] == 0
  }

  lemma {:induction false} CrcOfZeros(e: seq<byte>)
    requires forall k :: 0 <= k < |e| ==> e[k] == 0
    ensures CrcOf(e) == 0
  {
    hide Step;
    if e != [] {
      CrcOfZeros(e[..|e| - 1]);
      StepZero(0, 0);
    }
  }

  lemma StepFromZero(b: byte)
    ensures Bits(Step(0, b)) == Table(Bits(b))
  {
    hide Table;
    hide Bits;
    hide Num;
    ZeroBits();
    assert Plus(Bits(b), 0) == Bits(b);
    BitsNum(Table(Bits(b)));
  }

  /** The second byte of a burst never cancels the first. */
  lemma WindowSurvives(w: bv8, s: bv8)
    requires w != 0 && s < 8
    ensures Table(w << s) != w >> (8 - s)
  {
    hide Table;
    hide EightShifts;
    TableIsBitwise(w << s);
    EightShiftsSeparatesWindow(w, s);
  }

  /** A burst leaves a non-zero checksum. */
  lemma {:induction false} CrcOfBurst(e: seq<byte>, i: nat, s: bv8, w: bv8)
    requires IsBurst(e, i, s, w)
    ensures CrcOf(e) != 0
  {
    hide Step;
    hide Table;
    hide Bits;
    var n := |e| - 1;
    ZeroBits();
    if n == i {
      CrcOfZeros(e[..n]);
      WindowNotLost(w, s);
      StepZero(0, e[i]);
    } else if n == i + 1 {
      CrcOfZeros(e[..n][..i]);
      WindowSurvives(w, s);
      StepFromZero(e[i]);
      StepZero(Step(0, e[i]), e[n]);
    } else {
      CrcOfBurst(e[..n], i, s, w);
      StepZero(CrcOf(e[..n]), 0);
    }
  }

  /** No packet that checks to zero still does after a burst of at most eight flipped bits. */
  lemma BurstsAreDetected(p: seq<byte>, e: seq<byte>, i: nat, s: bv8, w: bv8)
    requires |p| == |e| && CrcOf(p) == 0 && IsBurst(e, i, s, w)
    ensures CrcOf(XorSeq(p, e)) != 0
  {
    hide CrcOf;
    hide Xor;
    CrcLinear(p, e);
    CrcOfBurst(e, i, s, w);
    XorIsZero(CrcOf(p), CrcOf(e));
  }
}
