/**
  Allocation bitmaps: one bit a unit, most significant bit first, and the
  count of the clear ones that the headers keep beside them.
 */
module Bitmap {

  function CountFree(s: seq<bool>): nat {
    if s == [] then 0 else (if s[0] then 0 else 1) + CountFree(s[1..])
  }

  lemma {:induction false} CountFlip(s: seq<bool>, i: nat, b: bool)
    requires i < |s| && s[i] != b
    ensures CountFree(s[i := b]) == CountFree(s) + (if b then -1 else 1)
  {
    if i == 0 {
      assert s[i := b][1..] == s[1..];
    } else {
      CountFlip(s[1..], i - 1, b);
      assert s[i := b][1..] == s[1..][i - 1 := b];
    }
  }

  lemma {:induction false} SomeFree(s: seq<bool>) returns (i: nat)
    requires CountFree(s) > 0
    ensures i < |s| && !s[i]
  {
    if !s[0] {
      i := 0;
    } else {
      var j := SomeFree(s[1..]);
      i := j + 1;
    }
  }

  lemma {:induction false} AllFree(s: seq<bool>)
    requires forall i :: 0 <= i < |s| ==> !s[i]
    ensures CountFree(s) == |s|
  {
    if s != [] {
      AllFree(s[1..]);
    }
  }

  // A map in which only the first unit is in use.
  lemma {:induction false} FreshMap(s: seq<bool>)
    requires s != [] && s[0] && forall i :: 0 < i < |s| ==> !s[i]
    ensures CountFree(s) == |s| - 1
  {
    AllFree(s[1..]);
  }

  /* ----- Bits in bytes ----- */

  function Mask(i: nat): bv8
    requires i < 8
  {
    match i
    case 0 => 0x80 case 1 => 0x40 case 2 => 0x20 case 3 => 0x10
    case 4 => 0x08 case 5 => 0x04 case 6 => 0x02 case _ => 0x01
  }

  function WithMask(byte: bv8, mask: bv8): bv8 { byte | mask }

  function LessMask(byte: bv8, mask: bv8): bv8 { byte & !mask }

  function UnderMask(byte: bv8, mask: bv8): bv8 { byte & mask }

  predicate Bit(bytes: seq<bv8>, n: nat)
    requires n / 8 < |bytes|
  {
    UnderMask(bytes[n / 8], Mask(n % 8)) != 0
  }

  function SetBit(bytes: seq<bv8>, n: nat, b: bool): (r: seq<bv8>)
    requires n / 8 < |bytes|
    ensures |r| == |bytes|
  {
    var byte := bytes[n / 8];
    bytes[n / 8 := if b then WithMask(byte, Mask(n % 8)) else LessMask(byte, Mask(n % 8))]
  }

  lemma {:induction false} BitSet(byte: bv8, mask: bv8)
    ensures UnderMask(WithMask(byte, mask), mask) == mask
  {
  }

  lemma {:induction false} BitCleared(byte: bv8, mask: bv8)
    ensures UnderMask(LessMask(byte, mask), mask) == 0
  {
  }

  lemma {:induction false} OtherBit(byte: bv8, mask: bv8, other: bv8)
    requires UnderMask(mask, other) == 0
    ensures UnderMask(WithMask(byte, mask), other) == UnderMask(byte, other)
    ensures UnderMask(LessMask(byte, mask), other) == UnderMask(byte, other)
  {
  }

  lemma {:induction false} MasksApart(i: nat, j: nat)
    requires i < 8 && j < 8
    ensures Mask(i) != 0
    ensures i != j ==> UnderMask(Mask(i), Mask(j)) == 0
  {
  }

  // A byte's value is the binary numeral of its bits, unit 8k being the highest bit of byte k.
  lemma {:induction false} ByteOfBits(bytes: seq<bv8>, k: nat)
    requires k < |bytes|
    ensures bytes[k] as nat ==
      (if Bit(bytes, 8 * k) then 128 else 0) + (if Bit(bytes, 8 * k + 1) then 64 else 0)
      + (if Bit(bytes, 8 * k + 2) then 32 else 0) + (if Bit(bytes, 8 * k + 3) then 16 else 0)
      + (if Bit(bytes, 8 * k + 4) then 8 else 0) + (if Bit(bytes, 8 * k + 5) then 4 else 0)
      + (if Bit(bytes, 8 * k + 6) then 2 else 0) + (if Bit(bytes, 8 * k + 7) then 1 else 0)
  {
    ByteSum(bytes[k]);
    hide UnderMask;
  }

  lemma {:induction false} ByteSum(b: bv8)
    ensures b as nat ==
      (if UnderMask(b, 0x80) != 0 then 128 else 0) + (if UnderMask(b, 0x40) != 0 then 64 else 0)
      + (if UnderMask(b, 0x20) != 0 then 32 else 0) + (if UnderMask(b, 0x10) != 0 then 16 else 0)
      + (if UnderMask(b, 0x08) != 0 then 8 else 0) + (if UnderMask(b, 0x04) != 0 then 4 else 0)
      + (if UnderMask(b, 0x02) != 0 then 2 else 0) + (if UnderMask(b, 0x01) != 0 then 1 else 0)
  {
  }

  // Setting one bit leaves all others as they are.
  lemma {:induction false} SetBitIs(bytes: seq<bv8>, n: nat, b: bool, m: nat)
    requires n / 8 < |bytes| && m / 8 < |bytes|
    ensures Bit(SetBit(bytes, n, b), m) == if m == n then b else Bit(bytes, m)
  {
    hide Mask, WithMask, LessMask, UnderMask;
    var byte, mask, other := bytes[n / 8], Mask(n % 8), Mask(m % 8);
    MasksApart(n % 8, m % 8);
    BitSet(byte, mask);
    BitCleared(byte, mask);
    if n % 8 != m % 8 {
      OtherBit(byte, mask, other);
    }
  }

  // The first bits as truth values.
  function Bits(bytes: seq<bv8>, total: nat): (r: seq<bool>)
    requires total <= 8 * |bytes|
    ensures |r| == total && forall i :: 0 <= i < total ==> r[i] == Bit(bytes, i)
  {
    seq(total, i requires 0 <= i < total => Bit(bytes, i))
  }

  lemma {:induction false} BitsFlip(bytes: seq<bv8>, total: nat, n: nat, b: bool)
    requires n < total <= 8 * |bytes| && Bit(bytes, n) != b
    ensures Bits(SetBit(bytes, n, b), total) == Bits(bytes, total)[n := b]
    ensures CountFree(Bits(SetBit(bytes, n, b), total)) == CountFree(Bits(bytes, total)) + (if b then -1 else 1)
  {
    hide SetBit, Bit;
    var x, y := Bits(SetBit(bytes, n, b), total), Bits(bytes, total)[n := b];
    forall i | 0 <= i < total ensures x[i] == y[i] {
      SetBitIs(bytes, n, b, i);
    }
    CountFlip(Bits(bytes, total), n, b);
  }
}
