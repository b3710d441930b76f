/** Unsigned bytes as numbers, their bit patterns, and exclusive-or. */
module Bytes {

  type byte = x: int | 0 <= x < 256

  function Bits(b: byte): bv8 {
    b as bv8
  }

  function Num(x: bv8): byte {
    x as int
  }

  lemma BitsNum(x: bv8)
    ensures Bits(Num(x)) == x
  {}

  lemma NumSuccessor(x: bv8)
    requires x != 255
    ensures Num(x + 1) == Num(x) + 1
  {}

  /** Every byte has a bit pattern, found by counting up. */
  lemma {:induction false} PatternOf(b: byte) returns (x: bv8)
    ensures Num(x) == b
  {
    x := 0;
    if b > 0 {
      var y := PatternOf(b - 1);
      assert Num(255) == 255;
      NumSuccessor(y);
      x := y + 1;
    }
  }

  lemma NumBits(b: byte)
    ensures Num(Bits(b)) == b
  {
    hide Bits;
    hide Num;
    var x := PatternOf(b);
    BitsNum(x);
  }

  /** Exclusive-or of bit patterns. */
  function Plus(x: bv8, y: bv8): bv8 {
    x ^ y
  }

  /** Exclusive-or of bytes. */
  function Xor(a: byte, b: byte): byte {
    Num(Plus(Bits(a), Bits(b)))
  }

  lemma PlusIsZero(x: bv8, y: bv8)
    ensures Plus(x, y) == 0 <==> x == y
  {}

  lemma XorIsZero(a: byte, b: byte)
    ensures Xor(a, b) == 0 <==> a == b
  {
    hide Plus;
    hide Bits;
    hide Num;
    NumBits(a);
    NumBits(b);
    BitsNum(Plus(Bits(a), Bits(b)));
    PlusIsZero(Bits(a), Bits(b));
    ZeroBits();
  }

  lemma ZeroBits()
    ensures Bits(0) == 0 && Num(0) == 0
  {}

  lemma PlusCancels(x: bv8, y: bv8)
    ensures Plus(Plus(x, y), y) == x
  {}

  lemma XorInvolutive(a: byte, b: byte)
    ensures Xor(Xor(a, b), b) == a
  {
    hide Plus;
    hide Bits;
    hide Num;
    NumBits(a);
    BitsNum(Plus(Bits(a), Bits(b)));
    PlusCancels(Bits(a), Bits(b));
  }

  lemma PlusZero(x: bv8)
    ensures Plus(x, 0) == x
  {}

  lemma XorWithZero(a: byte)
    ensures Xor(a, 0) == a
  {
    hide Plus;
    hide Bits;
    hide Num;
    ZeroBits();
    NumBits(a);
    PlusZero(Bits(a));
  }

  /** Byte-wise exclusive-or of two byte strings of one length. */
  function XorSeq(s: seq<byte>, e: seq<byte>): (r: seq<byte>)
    requires |s| == |e|
    ensures |r| == |s|
    ensures forall k :: 0 <= k < |s| ==> r[k] == Xor(s[k], e[k])
  {
    seq(|s|, k requires 0 <= k < |s| => Xor(s[k], e[k]))
  }
}
