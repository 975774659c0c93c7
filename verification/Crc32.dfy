/**
  CRC-32 as section 8 of RFC 1952 defines it, and the combination of two
  checksums that dmg/attribution.c uses to put an image's checksum together
  from the checksums of its parts.
 */
module Crc32 {
  import opened Common

  type Word = bv32

  function Xor(a: Word, b: Word): Word { a ^ b }

  function Not(a: Word): Word { !a }

  // One bit through the shift register, polynomial 0xEDB88320.
  function Bit(c: Word): Word {
    if c & 1 == 1 then (c >> 1) ^ 0xEDB8_8320 else c >> 1
  }

  function Byte(c: Word): Word {
    Bit(Bit(Bit(Bit(Bit(Bit(Bit(Bit(c))))))))
  }

  function Widen(b: bv8): Word { b as bv32 }

  // The register after some bytes.
  function Register(c: Word, data: Bytes): Word
    decreases |data|
  {
    if data == [] then c else Register(Byte(Xor(c, Widen(data[0]))), data[1..])
  }

  // crc32 of zlib: extend a checksum by some bytes; CRC32Checksum and CRCProxy call it on a token.
  function Extend(crc: Word, data: Bytes): Word {
    Not(Register(Not(crc), data))
  }

  function Crc(data: Bytes): Word { Extend(0, data) }

  // The register after n zero bytes.
  function Skip(c: Word, n: nat): Word
    decreases n
  {
    if n == 0 then c else Skip(Byte(c), n - 1)
  }

  // crc32_combine of zlib: the first checksum carried over the second part's length.
  function Combine(crc1: Word, crc2: Word, len2: nat): Word {
    Xor(Skip(crc1, len2), crc2)
  }

  /* ----- The register is linear ----- */

  lemma {:induction false} ShiftXor(a: Word, b: Word)
    ensures (a ^ b) >> 1 == (a >> 1) ^ (b >> 1)
    ensures (a ^ b) & 1 == (a & 1) ^ (b & 1)
    ensures (a & 1 == 0 || a & 1 == 1) && (b & 1 == 0 || b & 1 == 1)
  {
  }

  lemma {:induction false} XorThree(a: Word, b: Word, p: Word)
    ensures (a ^ p) ^ b == (a ^ b) ^ p
    ensures (a ^ p) ^ (b ^ p) == a ^ b
    ensures a ^ (b ^ p) == (a ^ b) ^ p
  {
  }

  lemma {:induction false} LowBits(x: Word, y: Word)
    ensures x == 0 && y == 0 ==> x ^ y == 0
    ensures x == 1 && y == 0 ==> x ^ y == 1
    ensures x == 0 && y == 1 ==> x ^ y == 1
    ensures x == 1 && y == 1 ==> x ^ y == 0
  {
  }

  lemma {:induction false} BitLinear(a: Word, b: Word)
    ensures Bit(Xor(a, b)) == Xor(Bit(a), Bit(b))
  {
    ShiftXor(a, b);
    LowBits(a & 1, b & 1);
    XorThree(a >> 1, b >> 1, 0xEDB8_8320);
  }

  lemma {:induction false} ByteLinear(a: Word, b: Word)
    ensures Byte(Xor(a, b)) == Xor(Byte(a), Byte(b))
  {
    hide Bit, Xor;
    BitLinear(a, b);
    var a1, b1 := Bit(a), Bit(b); BitLinear(a1, b1);
    var a2, b2 := Bit(a1), Bit(b1); BitLinear(a2, b2);
    var a3, b3 := Bit(a2), Bit(b2); BitLinear(a3, b3);
    var a4, b4 := Bit(a3), Bit(b3); BitLinear(a4, b4);
    var a5, b5 := Bit(a4), Bit(b4); BitLinear(a5, b5);
    var a6, b6 := Bit(a5), Bit(b5); BitLinear(a6, b6);
    var a7, b7 := Bit(a6), Bit(b6); BitLinear(a7, b7);
  }

  lemma {:induction false} XorAssociative(a: Word, b: Word, d: Word)
    ensures Xor(Xor(a, b), d) == Xor(a, Xor(b, d))
  {
  }

  lemma {:induction false} XorCommutes(a: Word, b: Word)
    ensures Xor(a, b) == Xor(b, a)
  {
  }

  lemma {:induction false} XorSwap(a: Word, b: Word, d: Word)
    ensures Xor(Xor(a, b), d) == Xor(Xor(a, d), b)
  {
    hide Xor;
    XorAssociative(a, b, d);
    XorCommutes(b, d);
    XorAssociative(a, d, b);
  }

  // Two starting values that differ by b end up apart by b carried over the bytes.
  lemma {:induction false} RegisterLinear(a: Word, b: Word, data: Bytes)
    ensures Register(Xor(a, b), data) == Xor(Register(a, data), Skip(b, |data|))
    decreases |data|
  {
    hide Byte, Xor, Widen;
    if data != [] {
      var d := Widen(data[0]);
      XorSwap(a, b, d);
      ByteLinear(Xor(a, d), b);
      RegisterLinear(Byte(Xor(a, d)), Byte(b), data[1..]);
    }
  }

  lemma {:induction false} RegisterConcat(c: Word, a: Bytes, b: Bytes)
    ensures Register(c, a + b) == Register(Register(c, a), b)
    decreases |a|
  {
    hide Byte, Xor, Widen;
    if a == [] {
      assert a + b == b;
    } else {
      assert (a + b)[1..] == a[1..] + b;
      RegisterConcat(Byte(Xor(c, Widen(a[0]))), a[1..], b);
    }
  }

  lemma {:induction false} NotNot(x: Word)
    ensures Not(Not(x)) == x
  {
  }

  lemma {:induction false} OnesXorNot(x: Word)
    ensures Xor(Not(0), Not(x)) == x
  {
  }

  lemma {:induction false} NotXor(x: Word, y: Word)
    ensures Not(Xor(x, y)) == Xor(x, Not(y))
  {
  }

  // A token extended piece by piece is the checksum of the whole.
  lemma {:induction false} ExtendConcat(crc: Word, a: Bytes, b: Bytes)
    ensures Extend(Extend(crc, a), b) == Extend(crc, a + b)
  {
    hide Register, Not;
    NotNot(Register(Not(crc), a));
    RegisterConcat(Not(crc), a, b);
  }

  // The checksum of two parts from the checksums of the parts.
  lemma {:induction false} CombineLaw(a: Bytes, b: Bytes)
    ensures Combine(Crc(a), Crc(b), |b|) == Crc(a + b)
  {
    hide Register, Skip, Not, Xor;
    var ones := Not(0);
    var r := Register(ones, a);
    RegisterConcat(ones, a, b);
    OnesXorNot(r);
    RegisterLinear(ones, Not(r), b);
    var x, y := Skip(Not(r), |b|), Register(ones, b);
    XorCommutes(x, y);
    NotXor(x, y);
  }

  lemma {:induction false} CombineThree(a: Bytes, b: Bytes, c: Bytes)
    ensures Combine(Combine(Crc(a), Crc(b), |b|), Crc(c), |c|) == Crc(a + b + c)
  {
    hide Combine, Crc;
    CombineLaw(a, b);
    CombineLaw(a + b, c);
  }

  /* ----- The polynomial and the byte order ----- */

  function LowByte(w: Word): bv8 { (w & 255) as bv8 }

  function Down(w: Word): Word { w >> 8 }

  // A number's bytes, the lowest first.
  function LowFirst(w: Word): (b: Bytes)
    ensures |b| == 4
  {
    [LowByte(w), LowByte(Down(w)), LowByte(Down(Down(w))), LowByte(Down(Down(Down(w))))]
  }

  // With its low byte clear the register only moves by one byte.
  lemma {:induction false} ByteMoves(w: Word)
    requires w & 255 == 0
    ensures Byte(w) == w >> 8
  {
    BitMoves(w);
    BitMoves(w >> 1);
    BitMoves(w >> 2);
    BitMoves(w >> 3);
    BitMoves(w >> 4);
    BitMoves(w >> 5);
    BitMoves(w >> 6);
    BitMoves(w >> 7);
    hide Bit;
    Shifts(w);
  }

  lemma {:induction false} BitMoves(w: Word)
    ensures w & 1 == 0 ==> Bit(w) == w >> 1
  {
  }

  lemma {:induction false} Shifts(w: Word)
    requires w & 255 == 0
    ensures w & 1 == 0 && (w >> 1) & 1 == 0 && (w >> 2) & 1 == 0 && (w >> 3) & 1 == 0
    ensures (w >> 4) & 1 == 0 && (w >> 5) & 1 == 0 && (w >> 6) & 1 == 0 && (w >> 7) & 1 == 0
    ensures (w >> 1) >> 1 == w >> 2 && (w >> 2) >> 1 == w >> 3 && (w >> 3) >> 1 == w >> 4 && (w >> 4) >> 1 == w >> 5
    ensures (w >> 5) >> 1 == w >> 6 && (w >> 6) >> 1 == w >> 7 && (w >> 7) >> 1 == w >> 8
  {
  }

  // Feeding a word, lowest byte first, is adding it to the register and shifting four bytes through.
  lemma {:induction false} ByteFed(r: Word, w: Word)
    ensures Byte(Xor(r, w)) == Xor(Fed(r, LowByte(w)), Down(w))
  {
    var low, high := Widen(LowByte(w)), w & 0xFFFF_FF00;
    LowHigh(r, w);
    ByteLinear(Xor(r, low), high);
    ByteMoves(high);
    hide Byte, Xor, Widen, LowByte;
  }

  lemma {:induction false} LowHigh(r: Word, w: Word)
    ensures Xor(r, w) == Xor(Xor(r, Widen(LowByte(w))), w & 0xFFFF_FF00)
    ensures (w & 0xFFFF_FF00) & 255 == 0 && (w & 0xFFFF_FF00) >> 8 == w >> 8
  {
    LowPart(w);
    TwoParts(r, w);
    hide Widen, LowByte;
  }

  lemma {:induction false} LowPart(w: Word)
    ensures Widen(LowByte(w)) == w & 255
  {
  }

  lemma {:induction false} TwoParts(r: Word, w: Word)
    ensures r ^ w == (r ^ (w & 255)) ^ (w & 0xFFFF_FF00)
    ensures (w & 0xFFFF_FF00) & 255 == 0 && (w & 0xFFFF_FF00) >> 8 == w >> 8
  {
  }

  lemma {:induction false} WordFed(r: Word, w: Word)
    ensures Register(r, LowFirst(w)) == Skip(Xor(r, w), 4)
  {
    var w1 := Down(w);
    var w2 := Down(w1);
    var w3 := Down(w2);
    AllMoved(w);
    hide Register, Skip, Xor, Fed, LowByte, Down, Byte;
    var r1 := Fed(r, LowByte(w));
    var r2 := Fed(r1, LowByte(w1));
    var r3 := Fed(r2, LowByte(w2));
    ByteFed(r, w);
    ByteFed(r1, w1);
    ByteFed(r2, w2);
    ByteFed(r3, w3);
    XorNone(Fed(r3, LowByte(w3)));
    FourFed(r, LowFirst(w));
    FourSkipped(Xor(r, w));
  }

  lemma {:induction false} AllMoved(w: Word)
    ensures Down(Down(Down(Down(w)))) == 0
  {
  }

  // The register after one byte.
  function Fed(c: Word, b: bv8): Word { Byte(Xor(c, Widen(b))) }

  lemma {:induction false} RegisterStep(c: Word, b: Bytes)
    ensures Register(c, b) == if b == [] then c else Register(Fed(c, b[0]), b[1..])
  {
    hide Byte, Xor, Widen;
  }

  lemma {:induction false} FourFed(r: Word, b: Bytes)
    requires |b| == 4
    ensures Register(r, b) == Fed(Fed(Fed(Fed(r, b[0]), b[1]), b[2]), b[3])
  {
    hide *;
    var r1 := Fed(r, b[0]);
    var r2 := Fed(r1, b[1]);
    var r3 := Fed(r2, b[2]);
    assert b[1..][1..] == b[2..] && b[2..][1..] == b[3..] && b[3..][1..] == [];
    RegisterStep(r, b);
    RegisterStep(r1, b[1..]);
    RegisterStep(r2, b[2..]);
    RegisterStep(r3, b[3..]);
    RegisterStep(Fed(r3, b[3]), []);
  }

  lemma {:induction false} FourSkipped(c: Word)
    ensures Skip(c, 4) == Byte(Byte(Byte(Byte(c))))
  {
    hide Byte;
    assert Skip(c, 4) == Skip(Byte(c), 3);
    assert Skip(Byte(c), 3) == Skip(Byte(Byte(c)), 2);
    assert Skip(Byte(Byte(c)), 2) == Skip(Byte(Byte(Byte(c))), 1);
  }

  lemma {:induction false} XorNone(x: Word)
    ensures Xor(x, 0) == x
  {
  }

  lemma {:induction false} XorNot(x: Word)
    ensures Xor(x, Not(x)) == 0xFFFF_FFFF
  {
  }

  // Section 8 of RFC 1952 in one number: whatever has its own checksum behind it, lowest byte first, has this one.
  lemma {:induction false} Residue(data: Bytes)
    ensures Crc(data + LowFirst(Crc(data))) == 0x2144_DF1C
  {
    var r := Register(Not(0), data);
    XorNot(r);
    OnesShifted();
    NotNot(r);
    hide Register, Skip, Not, Xor, LowFirst;
    RegisterConcat(Not(0), data, LowFirst(Not(r)));
    WordFed(r, Not(r));
  }

  lemma {:induction false} OnesShifted()
    ensures Not(Skip(0xFFFF_FFFF, 4)) == 0x2144_DF1C
  {
    assert Byte(0xFFFF_FFFF) == 0x2DFD_1072 && Byte(0x2DFD_1072) == 0xBE26_ED00 && Byte(0xBE26_ED00) == 0x00BE_26ED && Byte(0x00BE_26ED) == 0xDEBB_20E3;
    hide Byte;
    FourSkipped(0xFFFF_FFFF);
  }

  // The check value of the digits from one to nine.
  lemma {:induction false} NineDigits()
    ensures Crc([0x31, 0x32, 0x33, 0x34, 0x35, 0x36, 0x37, 0x38, 0x39]) == 0xCBF4_3926
  {
    var b: Bytes := [0x31, 0x32, 0x33, 0x34, 0x35, 0x36, 0x37, 0x38, 0x39];
    NineFed();
    hide Register, Fed;
    NextDigits(b);
    RegisterStep(0xFFFF_FFFF, b[0..]);
    RegisterStep(0x7C23_1048, b[1..]);
    RegisterStep(0xB0AC_BB32, b[2..]);
    RegisterStep(0x77B7_9C2D, b[3..]);
    RegisterStep(0x641C_1F5C, b[4..]);
    RegisterStep(0x340A_C5E3, b[5..]);
    RegisterStep(0xF68D_2C9E, b[6..]);
    RegisterStep(0xAFFC_9660, b[7..]);
    RegisterStep(0x651F_2550, b[8..]);
    RegisterStep(0x340B_C6D9, b[9..]);
  }

  lemma {:induction false} NextDigits(b: Bytes)
    requires |b| == 9
    ensures b[0..] == b && forall k :: 0 <= k < 9 ==> b[k..] != [] && b[k..][0] == b[k] && b[k..][1..] == b[k + 1..]
    ensures b[9..] == []
  {
  }

  lemma {:induction false} NineFed()
    ensures Fed(0xFFFF_FFFF, 0x31) == 0x7C23_1048
    ensures Fed(0x7C23_1048, 0x32) == 0xB0AC_BB32
    ensures Fed(0xB0AC_BB32, 0x33) == 0x77B7_9C2D
    ensures Fed(0x77B7_9C2D, 0x34) == 0x641C_1F5C
    ensures Fed(0x641C_1F5C, 0x35) == 0x340A_C5E3
    ensures Fed(0x340A_C5E3, 0x36) == 0xF68D_2C9E
    ensures Fed(0xF68D_2C9E, 0x37) == 0xAFFC_9660
    ensures Fed(0xAFFC_9660, 0x38) == 0x651F_2550
    ensures Fed(0x651F_2550, 0x39) == 0x340B_C6D9
  {
  }
}
