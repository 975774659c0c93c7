/**
  Streaming checksums (dmg/checksum.c): the rotating block checksum, and SHA-1 with its
  compression function left abstract.
 */
module Checksums {
  import opened Common

  const WORD: nat := 0x1_0000_0000

  /* ----- The block checksum ----- */

  function BigEndian(b: Bytes): bv32
    requires |b| == 4
  {
    ((b[0] as bv32) << 24) | ((b[1] as bv32) << 16) | ((b[2] as bv32) << 8) | (b[3] as bv32)
  }

  function Rotated(x: bv32): bv32 { (x >> 31) | (x << 1) }

  // The next word added to the sum rotated by one bit.
  function Mixed(sum: bv32, word: Bytes): bv32
    requires |word| == 4
  {
    BigEndian(word) + Rotated(sum)
  }

  // The checksum of whole words.
  function WordSum(sum: bv32, words: Bytes): bv32
    requires |words| % 4 == 0
    decreases |words|
  {
    if words == [] then sum else WordSum(Mixed(sum, words[..4]), words[4..])
  }

  // The length the loop covers: masked to 32 bits, rounded down to words.
  function Whole(len: nat): (n: nat)
    ensures n <= len && n % 4 == 0
  {
    len % 0x1_0000_0000 - len % 0x1_0000_0000 % 4
  }

  // The greatest multiple of four up to the length, which counts modulo 2^32.
  lemma {:induction false} WholeLast(len: nat, n: nat)
    requires n % 4 == 0
    ensures n <= Whole(len) <==> n <= len % 0x1_0000_0000
    ensures Whole(len + 0x1_0000_0000) == Whole(len)
  {
    var m := len % 0x1_0000_0000;
    assert (len + 0x1_0000_0000) % 0x1_0000_0000 == m;
    assert Whole(len) == m - m % 4;
  }

  method MKBlockChecksum(ckSum: bv32, data: Bytes) returns (sum: bv32)
    ensures sum == WordSum(ckSum, data[..Whole(|data|)])
    ensures var words := data[..Whole(|data|)];
      Value(ckSum) * Power(|words| / 4) + Weighted(words) < WORD ==> Value(sum) == Value(ckSum) * Power(|words| / 4) + Weighted(words)
  {
    hide *;
    sum := ckSum;
    var p := 0;
    var end := Whole(|data|);
    while p < end
      invariant p <= end && p % 4 == 0
      invariant WordSum(ckSum, data[..end]) == WordSum(sum, data[p..end])
    {
      WordSumStep(sum, data, p, end);
      sum := Mixed(sum, data[p..p + 4]);
      p := p + 4;
    }
    NoWords(sum, data, end);
    SumInNumbers(ckSum, data[..end]);
  }

  lemma {:induction false} NoWords(sum: bv32, data: Bytes, end: nat)
    requires end <= |data|
    ensures WordSum(sum, data[end..end]) == sum
  {
  }

  lemma {:induction false} WordSumStep(sum: bv32, data: Bytes, p: nat, end: nat)
    requires p < end <= |data| && p % 4 == 0 && end % 4 == 0
    ensures p + 4 <= end
    ensures WordSum(sum, data[p..end]) == WordSum(Mixed(sum, data[p..p + 4]), data[p + 4..end])
  {
    hide Mixed;
    assert data[p..end][..4] == data[p..p + 4] && data[p..end][4..] == data[p + 4..end];
  }

  lemma {:induction false} WordSumConcat(sum: bv32, a: Bytes, b: Bytes)
    requires |a| % 4 == 0 && |b| % 4 == 0
    ensures WordSum(sum, a + b) == WordSum(WordSum(sum, a), b)
    decreases |a|
  {
    hide Mixed;
    if a == [] {
      assert a + b == b;
    } else {
      assert (a + b)[..4] == a[..4] && (a + b)[4..] == a[4..] + b;
      WordSumConcat(Mixed(sum, a[..4]), a[4..], b);
    }
  }

  // Feeding the parts one after the other is feeding the whole, when the parts before the last are whole words.
  lemma {:induction false} BlockChecksumInParts(sum: bv32, a: Bytes, b: Bytes)
    requires |a| % 4 == 0 && |a| + |b| < WORD
    ensures WordSum(sum, (a + b)[..Whole(|a + b|)]) == WordSum(WordSum(sum, a[..Whole(|a|)]), b[..Whole(|b|)])
  {
    WholeOf(|a|, |b|);
    hide *;
    assert a[..Whole(|a|)] == a && (a + b)[..Whole(|a + b|)] == a + b[..Whole(|b|)];
    WordSumConcat(sum, a, b[..Whole(|b|)]);
  }

  lemma {:induction false} WholeOf(n: nat, m: nat)
    requires n % 4 == 0 && n + m < WORD
    ensures Whole(n) == n && Whole(n + m) == n + Whole(m)
  {
    assert n % WORD == n && m % WORD == m && (n + m) % WORD == n + m;
    assert (n + m) % 4 == m % 4;
  }

  /* ----- The block checksum in numbers ----- */

  // The value of four bytes, the highest first.
  function Quad(b: Bytes): nat
    requires |b| >= 4
  {
    0x100_0000 * (b[0] as nat) + 0x1_0000 * (b[1] as nat) + 0x100 * (b[2] as nat) + (b[3] as nat)
  }

  function Power(n: nat): (p: nat)
    ensures p >= 1
  {
    if n == 0 then 1 else 2 * Power(n - 1)
  }

  function Scaled(a: nat, n: nat): nat { a * Power(n) }

  // Each word counts twice as much as the one behind it.
  function Weighted(words: Bytes): nat
    requires |words| % 4 == 0
    decreases |words|
  {
    if words == [] then 0 else Scaled(Quad(words), |words| / 4 - 1) + Weighted(words[4..])
  }

  function Value(x: bv32): nat { x as nat }

  function Doubled(x: bv32): bv32 { x << 1 }

  function DoubledPlus(x: bv32): bv32 { (x << 1) | 1 }

  function Half(x: bv32): bv32 { x >> 1 }

  function Next(x: bv32): bv32 { x + 1 }

  predicate High(x: bv32) { x >> 31 == 1 }

  lemma {:induction false} DoubledValue(x: bv32)
    requires !High(x)
    ensures Value(Doubled(x)) == 2 * Value(x)
  {
    assert x >> 31 == 0;
  }

  lemma {:induction false} DoubledPlusValue(x: bv32)
    requires !High(x)
    ensures Value(DoubledPlus(x)) == 2 * Value(x) + 1
  {
    assert x >> 31 == 0;
  }

  lemma {:induction false} Bounds(x: bv32)
    ensures Value(x) < WORD && Value(0) == 0 && Value(0xFFFF_FFFF) == WORD - 1
  {
  }

  lemma {:induction false} EvenHalf(x: bv32)
    requires x & 1 == 0
    ensures x == Doubled(Half(x))
  {
  }

  lemma {:induction false} EvenNext(x: bv32)
    requires x & 1 == 0
    ensures Next(x) == DoubledPlus(Half(x))
  {
  }

  lemma {:induction false} HalfLow(x: bv32)
    ensures !High(Half(x))
  {
  }

  lemma {:induction false} OddParts(x: bv32)
    requires x & 1 != 0 && x != 0xFFFF_FFFF
    ensures x == DoubledPlus(Half(x)) && !High(Half(x))
    ensures Next(x) == Doubled(Next(Half(x))) && !High(Next(Half(x))) && Half(x) != 0xFFFF_FFFF
  {
    OddHalf(x);
    OddNext(x);
    OddHigh(x);
  }

  lemma {:induction false} OddHalf(x: bv32)
    requires x & 1 != 0
    ensures x == DoubledPlus(Half(x)) && !High(Half(x))
  {
    assert x & 1 == 1;
  }

  lemma {:induction false} OddNext(x: bv32)
    requires x & 1 != 0
    ensures Next(x) == Doubled(Next(Half(x)))
  {
    assert x & 1 == 1;
  }

  lemma {:induction false} OddHigh(x: bv32)
    requires x & 1 != 0 && x != 0xFFFF_FFFF
    ensures !High(Next(Half(x))) && Half(x) != 0xFFFF_FFFF
  {
    assert x & 1 == 1;
  }

  lemma {:induction false} NextValue(x: bv32)
    requires x != 0xFFFF_FFFF
    ensures Value(Next(x)) == Value(x) + 1
    decreases Value(x)
  {
    var even := x & 1 == 0;
    if even {
      EvenHalf(x);
      EvenNext(x);
      HalfLow(x);
      hide *;
      DoubledValue(Half(x));
      DoubledPlusValue(Half(x));
    } else {
      OddParts(x);
      hide *;
      DoubledPlusValue(Half(x));
      NextValue(Half(x));
      DoubledValue(Next(Half(x)));
    }
  }

  function Added(a: bv32, b: bv32): bv32 { a + b }

  function Before(x: bv32): bv32 { x - 1 }

  lemma {:induction false} AddedNext(a: bv32, b: bv32)
    ensures Value(Added(a, b)) == Value(Next(Added(a, Before(b))))
  {
    hide *;
    AddedIs(a, b);
    OneAfter(a, b);
    NextIs(a, b);
    BeforeIs(b);
  }

  lemma {:induction false} AddedIs(a: bv32, b: bv32)
    ensures Value(Added(a, b)) == Value(a + b)
  {
    hide Value;
  }

  lemma {:induction false} OneAfter(a: bv32, b: bv32)
    ensures Value(a + b) == Value((a + (b - 1)) + 1)
  {
    hide Value;
  }

  lemma {:induction false} NextIs(a: bv32, b: bv32)
    ensures Value(Next(Added(a, b - 1))) == Value((a + (b - 1)) + 1)
  {
    hide Value;
  }

  lemma {:induction false} BeforeIs(b: bv32)
    ensures Before(b) == b - 1
  {
  }

  lemma {:induction false} BeforeNext(b: bv32)
    requires b != 0
    ensures Before(b) != 0xFFFF_FFFF && b == Next(Before(b))
  {
    NotLast(b);
  }

  lemma {:induction false} NotLast(b: bv32)
    requires b != 0
    ensures Before(b) != 0xFFFF_FFFF
  {
  }

  lemma {:induction false} AddedNone(a: bv32)
    ensures Added(a, 0) == a && Next(0xFFFF_FFFF) == 0
  {
  }

  lemma {:induction false} ModuloNext(s: nat, t: nat)
    requires s == t % WORD
    ensures (t + 1) % WORD == if s == WORD - 1 then 0 else s + 1
  {
  }

  // Addition of words is addition modulo 2^32.
  lemma {:induction false} AddedValue(a: bv32, b: bv32)
    ensures Value(Added(a, b)) == (Value(a) + Value(b)) % WORD
    decreases Value(b)
  {
    hide *;
    if b == 0 {
      NothingAdded(a);
    } else {
      BeforeNext(b);
      AddedNext(a, b);
      NextValue(Before(b));
      AddedValue(a, Before(b));
      NextModulo(Added(a, Before(b)), Value(a) + Value(Before(b)));
    }
  }

  lemma {:induction false} NothingAdded(a: bv32)
    ensures Value(Added(a, 0)) == (Value(a) + Value(0)) % WORD
  {
    Bounds(a);
    AddedNone(a);
    hide Value, Added, Next;
    assert Value(a) % WORD == Value(a);
  }

  lemma {:induction false} NextModulo(s: bv32, t: nat)
    requires Value(s) == t % WORD
    ensures Value(Next(s)) == (t + 1) % WORD
  {
    ModuloNext(Value(s), t);
    if s == 0xFFFF_FFFF {
      Bounds(s);
      AddedNone(s);
    } else {
      TopOnly(s);
      NextValue(s);
    }
    hide Value, Next;
  }

  lemma {:induction false} TopOnly(s: bv32)
    requires s != 0xFFFF_FFFF
    ensures Value(s) != WORD - 1
  {
    Bounds(s);
    NextValue(s);
    Bounds(Next(s));
    hide Value, Next;
  }

  lemma {:induction false} RotatedIs(x: bv32)
    ensures !High(x) ==> Rotated(x) == Doubled(x)
  {
  }

  lemma {:induction false} RotatedHigh(x: bv32)
    requires High(x)
    ensures Value(Rotated(x)) == 2 * Value(x) - WORD + 1
  {
  }

  lemma {:induction false} HighValue(x: bv32)
    ensures High(x) <==> Value(x) >= 0x8000_0000
  {
  }

  lemma {:induction false} BigEndianValue(b: Bytes)
    requires |b| == 4
    ensures Value(BigEndian(b)) == Quad(b)
  {
  }

  // One word more, in numbers.
  lemma {:induction false} MixedValue(sum: bv32, word: Bytes)
    requires |word| == 4
    ensures Value(Mixed(sum, word)) == (Quad(word) + Turned(Value(sum))) % WORD
  {
    MixedIs(sum, word);
    hide *;
    AddedValue(BigEndian(word), Rotated(sum));
    BigEndianValue(word);
    RotatedValue(sum);
  }

  lemma {:induction false} MixedIs(sum: bv32, word: Bytes)
    requires |word| == 4
    ensures Mixed(sum, word) == Added(BigEndian(word), Rotated(sum))
  {
    hide BigEndian, Rotated;
  }

  // The sum turned left by one bit.
  function Turned(v: nat): int { if v < 0x8000_0000 then 2 * v else 2 * v - WORD + 1 }

  lemma {:induction false} RotatedValue(x: bv32)
    ensures Value(Rotated(x)) == Turned(Value(x))
  {
    HighValue(x);
    if High(x) {
      RotatedHigh(x);
    } else {
      RotatedIs(x);
      DoubledValue(x);
    }
    hide Value, Rotated, Doubled, High;
  }

  // As long as nothing is carried out of 32 bits, the checksum is the token and the words as one number, each
  // counting twice as much as the next.
  lemma {:induction false} SumIsWeighted(sum: bv32, words: Bytes)
    requires |words| % 4 == 0 && Value(sum) * Power(|words| / 4) + Weighted(words) < WORD
    ensures Value(WordSum(sum, words)) == Value(sum) * Power(|words| / 4) + Weighted(words)
    decreases |words|
  {
    hide Value, Mixed, Quad;
    if words != [] {
      var n, w, v := |words| / 4 - 1, Quad(words), Value(sum);
      assert |words[4..]| / 4 == n;
      QuadHead(words);
      MixedValue(sum, words[..4]);
      NoCarry(v, w, Power(n), Weighted(words[4..]));
      SumIsWeighted(Mixed(sum, words[..4]), words[4..]);
    }
  }

  lemma {:induction false} SumInNumbers(sum: bv32, words: Bytes)
    requires |words| % 4 == 0
    ensures Value(sum) * Power(|words| / 4) + Weighted(words) < WORD ==>
      Value(WordSum(sum, words)) == Value(sum) * Power(|words| / 4) + Weighted(words)
  {
    if Value(sum) * Power(|words| / 4) + Weighted(words) < WORD {
      hide *;
      SumIsWeighted(sum, words);
    }
  }

  lemma {:induction false} QuadHead(words: Bytes)
    requires |words| >= 4
    ensures Quad(words[..4]) == Quad(words)
  {
  }

  lemma {:induction false} NoCarry(v: nat, w: nat, p: nat, rest: nat)
    requires v * (2 * p) + (w * p + rest) < WORD && p >= 1
    ensures (w + Turned(v)) % WORD == w + 2 * v
    ensures (w + 2 * v) * p + rest == v * (2 * p) + (w * p + rest) < WORD
  {
    assert (w + 2 * v) * p == v * (2 * p) + w * p;
    AtLeastOnce(w + 2 * v, p);
  }

  lemma {:induction false} AtLeastOnce(a: nat, p: nat)
    requires p >= 1
    ensures a <= a * p
  {
  }

  // A zero word turns the highest bit of a token round to the lowest.
  lemma {:induction false} TurnsRound(sum: bv32)
    requires Value(sum) >= 0x8000_0000
    ensures Value(WordSum(sum, [0, 0, 0, 0])) == 2 * Value(sum) - WORD + 1
  {
    hide *;
    OneWord(sum, [0, 0, 0, 0]);
    MixedValue(sum, [0, 0, 0, 0]);
    ZeroTurned(sum);
  }

  lemma {:induction false} OneWord(sum: bv32, word: Bytes)
    requires |word| == 4
    ensures WordSum(sum, word) == Mixed(sum, word)
  {
    hide Mixed;
    assert word[..4] == word && word[4..] == [];
    assert WordSum(Mixed(sum, word), []) == Mixed(sum, word);
  }

  lemma {:induction false} ZeroTurned(sum: bv32)
    requires Value(sum) >= 0x8000_0000
    ensures (Quad([0, 0, 0, 0]) + Turned(Value(sum))) % WORD == 2 * Value(sum) - WORD + 1
  {
    Bounds(sum);
    hide Value;
  }

  /* ----- SHA-1 ----- */

  type State = s: seq<bv32> | |s| == 5 witness [0, 0, 0, 0, 0]

  const INITIAL: State := [0x67452301, 0xEFCDAB89, 0x98BADCFE, 0x10325476, 0xC3D2E1F0]

  // One pass over whole 64-byte blocks.
  function Absorb(transform: (State, Bytes) -> State, state: State, blocks: Bytes): State
    requires |blocks| % 64 == 0
    decreases |blocks|
  {
    if blocks == [] then state else Absorb(transform, transform(state, blocks[..64]), blocks[64..])
  }

  lemma {:induction false} AbsorbConcat(transform: (State, Bytes) -> State, state: State, a: Bytes, b: Bytes)
    requires |a| % 64 == 0 && |b| % 64 == 0
    ensures Absorb(transform, state, a + b) == Absorb(transform, Absorb(transform, state, a), b)
    decreases |a|
  {
    if a == [] {
      assert a + b == b;
    } else {
      assert (a + b)[..64] == a[..64] && (a + b)[64..] == a[64..] + b;
      AbsorbConcat(transform, transform(state, a[..64]), a[64..], b);
    }
  }

  lemma {:induction false} AbsorbBlock(transform: (State, Bytes) -> State, state: State, a: Bytes, block: Bytes)
    requires |a| % 64 == 0 && |block| == 64
    ensures Absorb(transform, state, a + block) == transform(Absorb(transform, state, a), block)
  {
    AbsorbConcat(transform, state, a, block);
    assert block[..64] == block && block[64..] == [];
  }

  function Full(n: nat): (f: nat)
    ensures f <= n && f % 64 == 0 && n - f < 64
  {
    n - n % 64
  }

  function ByteOf(x: nat): bv8 { (x % 256) as bv8 }

  function CountByte(word: nat, k: nat): bv8 {
    ByteOf(word / (if k == 0 then 0x100_0000 else if k == 1 then 0x1_0000 else if k == 2 then 0x100 else 1))
  }

  // The bit count as eight bytes, the highest first.
  function CountBytes(high: nat, low: nat): (b: Bytes)
    ensures |b| == 8
  {
    [CountByte(high, 0), CountByte(high, 1), CountByte(high, 2), CountByte(high, 3),
     CountByte(low, 0), CountByte(low, 1), CountByte(low, 2), CountByte(low, 3)]
  }

  // How full the last block is after the message, the one bit and k zero bytes.
  function LastBlock(n: nat, k: nat): nat { (n + 1 + k) % 64 }

  // Section 5.1.1 of FIPS 180-4: one bit, the fewest zeros that leave 64 bits of the last block, the length.
  function ZeroCount(n: nat): (k: nat)
    ensures k < 64 && LastBlock(n, k) == 56
    ensures forall j: nat :: j < k ==> LastBlock(n, j) != 56
  {
    (119 - n % 64) % 64
  }

  function Padded(message: Bytes): Bytes {
    var bits := 8 * |message| % (WORD * WORD);
    message + ([0x80] + Zeros(ZeroCount(|message|)) + CountBytes(bits / WORD, bits % WORD))
  }

  lemma {:induction false} PaddedBlocks(message: Bytes)
    ensures |Padded(message)| % 64 == 0
  {
    PaddedLength(message);
    hide *;
    BlockEnd(|message|, ZeroCount(|message|));
  }

  lemma {:induction false} PaddedLength(message: Bytes)
    ensures |Padded(message)| == |message| + 1 + ZeroCount(|message|) + 8
  {
    hide ZeroCount, CountBytes;
  }

  lemma {:induction false} BlockEnd(n: nat, k: nat)
    requires LastBlock(n, k) == 56
    ensures (n + 1 + k + 8) % 64 == 0
  {
  }

  function WordByte(w: bv32, k: nat): bv8 {
    if k == 0 then (w >> 24) as bv8 else if k == 1 then ((w >> 16) & 255) as bv8 else if k == 2 then ((w >> 8) & 255) as bv8 else (w & 255) as bv8
  }

  function DigestOf(state: State): (d: Bytes)
    ensures |d| == 20
  {
    seq(20, i requires 0 <= i < 20 => WordByte(state[i / 4], i % 4))
  }

  // Section 6.1 of FIPS 180-4: the padded message, block after block.
  function Sha1Of(transform: (State, Bytes) -> State, message: Bytes): Bytes {
    PaddedBlocks(message);
    DigestOf(Absorb(transform, INITIAL, Padded(message)))
  }

  // The blocks of the bytes fed are absorbed, the rest of them is in the buffer.
  ghost predicate Filled(transform: (State, Bytes) -> State, state: State, buffer: Bytes, fed: Bytes) {
    && |buffer| == 64
    && state == Absorb(transform, INITIAL, fed[..Full(|fed|)])
    && buffer[..|fed| - Full(|fed|)] == fed[Full(|fed|)..]
  }

  ghost predicate Exact(count1: nat, count0: nat, n: nat) {
    count1 * WORD + count0 == 8 * n % (WORD * WORD)
  }

  class Sha1 {
    const transform: (State, Bytes) -> State
    var state: State
    var count0: nat
    var count1: nat
    var buffer: Bytes
    ghost var fed: Bytes

    ghost predicate Valid() reads this {
      Filled(transform, state, buffer, fed) && count0 == 8 * |fed| % WORD && count1 < WORD
    }

    // The two words are the number of bits fed, as 64 bits hold it.
    ghost predicate CountExact() reads this { Exact(count1, count0, |fed|) }

    constructor (transform: (State, Bytes) -> State)
      ensures Valid() && CountExact() && fed == [] && this.transform == transform
    {
      this.transform := transform;
      state := INITIAL;
      count0, count1 := 0, 0;
      buffer := Zeros(64);
      fed := [];
    }

    method SHA1Update(data: Bytes)
      requires Valid() && |data| < 0x2000_0000_0000_0000
      modifies this
      ensures Valid() && fed == old(fed) + data
      ensures old(CountExact()) ==>
        (CountExact() <==> |data| < 0x2000_0000 || old(count0) + 8 * |data| % WORD >= WORD)
    {
      hide *;
      Opened();
      var j: nat := count0 / 8 % 64;
      BufferPlace(count0, |fed|);
      count0, count1 := CountBits(count0, count1, |data|, |fed|);
      state, buffer := TakeData(transform, state, buffer, j, data, fed);
      fed := fed + data;
      Closed();
    }

    // One set bit, zeros up to the last eight bytes of a block, the bit count; then the context is wiped.
    method SHA1Final() returns (digest: Bytes)
      requires Valid() && CountExact()
      modifies this
      ensures digest == Sha1Of(transform, old(fed))
      ensures buffer == Zeros(64) && state == transform([0, 0, 0, 0, 0], buffer) && count0 == 0 && count1 == 0
    {
      hide *;
      Opened();
      ghost var n := |fed|;
      var finalcount := FinalCount(count1, count0);
      CountIsLength(count1, count0, n);
      SHA1Update([0x80]);
      ghost var z: nat := 0;
      NoZeros(old(fed));
      Opened();
      while count0 % 512 - count0 % 8 != 448
        invariant Valid() && fed == old(fed) + ([0x80] + Zeros(z)) && z <= ZeroCount(n)
        invariant count0 == 8 * |fed| % WORD && |fed| == n + 1 + z
        decreases ZeroCount(n) - z
      {
        MoreZeros(n, z, count0);
        SHA1Update([0]);
        Opened();
        OneMoreZero(old(fed), z);
        z := z + 1;
      }
      LastZero(n, z, count0);
      ghost var before := fed;
      SHA1Update(finalcount);
      PaddedIs(old(fed), before, fed, finalcount);
      Opened();
      AllAbsorbed(transform, state, buffer, old(fed));
      digest := Digest(state);
      buffer := Zeros(64);
      state := [0, 0, 0, 0, 0];
      count0, count1 := 0, 0;
      state := transform(state, buffer);
    }

    lemma {:induction false} Opened()
      requires Valid()
      ensures Filled(transform, state, buffer, fed) && count1 < WORD && count0 == 8 * |fed| % WORD && |buffer| == 64
      ensures CountExact() <==> Exact(count1, count0, |fed|)
    {
    }

    lemma {:induction false} Closed()
      requires Filled(transform, state, buffer, fed) && count1 < WORD && count0 == 8 * |fed| % WORD
      ensures Valid() && (CountExact() <==> Exact(count1, count0, |fed|))
    {
    }
  }

  // len << 3 is a 64-bit number here, compared with a 32-bit count: above 2^29 bytes a carry is always counted.
  method CountBits(count0: nat, count1: nat, len: nat, ghost n: nat) returns (c0: nat, c1: nat)
    requires count0 == 8 * n % WORD && count1 < WORD
    ensures c0 == 8 * (n + len) % WORD && c1 < WORD
    ensures Exact(count1, count0, n) ==> (Exact(c1, c0, n + len) <==> len < 0x2000_0000 || count0 + 8 * len % WORD >= WORD)
  {
    hide *;
    c0, c1 := (count0 + 8 * len) % WORD, count1;
    if c0 < 8 * len {
      c1 := (c1 + 1) % WORD;
    }
    c1 := (c1 + len / 0x2000_0000) % WORD;
    Counted(count0, count1, n, len, c0, c1);
  }

  // A first chunk of 2^29 bytes is counted twice in the high word.
  method HalfGigabyte() returns (c0: nat, c1: nat)
    ensures c0 == 0 && !Exact(c1, c0, 0x2000_0000)
  {
    c0, c1 := CountBits(0, 0, 0x2000_0000, 0);
  }

  method TakeData(transform: (State, Bytes) -> State, state: State, buffer: Bytes, j: nat, data: Bytes, ghost fed: Bytes)
    returns (next: State, rest: Bytes)
    requires Filled(transform, state, buffer, fed) && j == |fed| % 64
    ensures Filled(transform, next, rest, fed + data)
  {
    hide *;
    next := state;
    if j + |data| > 63 {
      var i: nat := 64 - j;
      FirstBlock(transform, state, buffer, fed, data);
      rest := Splice(buffer, j, data[..i]);
      next := transform(state, rest);
      while i + 63 < |data|
        invariant Upto(transform, next, fed, data, i)
        decreases |data| - i
      {
        NextBlock(transform, next, fed, data, i);
        next := transform(next, data[i..i + 64]);
        i := i + 64;
      }
      TailKept(transform, next, rest, fed, data, i);
      rest := Splice(rest, 0, data[i..]);
    } else {
      ShortKept(transform, state, buffer, fed, data);
      rest := Splice(buffer, j, data[0..]);
    }
  }

  lemma {:induction false} BufferPlace(count0: nat, n: nat)
    requires count0 == 8 * n % WORD
    ensures count0 / 8 % 64 == n % 64 == n - Full(n)
  {
    var q := 8 * n / WORD;
    assert 8 * n == q * WORD + count0;
    var m := n - q * 0x2000_0000;
    assert count0 == 8 * m;
    EighthPart(m);
    assert n == q * 0x80_0000 * 64 + m;
    SameRemainder(m, q * 0x80_0000);
  }

  lemma {:induction false} EighthPart(m: nat)
    ensures 8 * m / 8 == m
  {
  }

  lemma {:induction false} SameRemainder(m: nat, k: nat)
    ensures (k * 64 + m) % 64 == m % 64
  {
  }

  // The blocks up to a place in the new data are absorbed.
  ghost predicate Upto(transform: (State, Bytes) -> State, state: State, fed: Bytes, data: Bytes, i: nat) {
    && i <= |data| && |fed + data[..i]| % 64 == 0
    && state == Absorb(transform, INITIAL, fed + data[..i])
  }

  lemma {:induction false} FirstBlock(transform: (State, Bytes) -> State, state: State, buffer: Bytes, fed: Bytes, data: Bytes)
    requires Filled(transform, state, buffer, fed) && |fed| % 64 + |data| > 63
    ensures |buffer| == 64 && |data| >= 64 - |fed| % 64
    ensures |Splice(buffer, |fed| % 64, data[..64 - |fed| % 64])| == 64
    ensures Upto(transform, transform(state, Splice(buffer, |fed| % 64, data[..64 - |fed| % 64])), fed, data, 64 - |fed| % 64)
  {
    var j := |fed| % 64;
    var i, f := 64 - j, Full(|fed|);
    var block := Splice(buffer, j, data[..i]);
    assert block == buffer[..j] + data[..i];
    assert fed + data[..i] == fed[..f] + block;
    AbsorbBlock(transform, INITIAL, fed[..f], block);
  }

  lemma {:induction false} NextBlock(transform: (State, Bytes) -> State, state: State, fed: Bytes, data: Bytes, i: nat)
    requires i + 64 <= |data| && Upto(transform, state, fed, data, i)
    ensures Upto(transform, transform(state, data[i..i + 64]), fed, data, i + 64)
  {
    assert fed + data[..i + 64] == (fed + data[..i]) + data[i..i + 64];
    AbsorbBlock(transform, INITIAL, fed + data[..i], data[i..i + 64]);
  }

  lemma {:induction false} TailKept(transform: (State, Bytes) -> State, state: State, buffer: Bytes, fed: Bytes, data: Bytes, i: nat)
    requires |data| < i + 64 && |buffer| == 64 && Upto(transform, state, fed, data, i)
    ensures i <= |data|
    ensures Filled(transform, state, Splice(buffer, 0, data[i..]), fed + data)
  {
    hide Absorb;
    var f := Full(|fed + data|);
    assert f == |fed| + i;
    assert (fed + data)[..f] == fed + data[..i] && (fed + data)[f..] == data[i..];
    assert Splice(buffer, 0, data[i..])[..|data| - i] == data[i..];
  }

  lemma {:induction false} ShortKept(transform: (State, Bytes) -> State, state: State, buffer: Bytes, fed: Bytes, data: Bytes)
    requires Filled(transform, state, buffer, fed) && |fed| % 64 + |data| <= 63
    ensures |buffer| == 64 && Filled(transform, state, Splice(buffer, |fed| % 64, data[0..]), fed + data)
  {
    hide Absorb;
    var f, j := Full(|fed|), |fed| % 64;
    assert Full(|fed + data|) == f && (fed + data)[..f] == fed[..f];
    assert (fed + data)[f..] == fed[f..] + data;
    assert Splice(buffer, j, data[0..])[..j + |data|] == buffer[..j] + data;
  }

  /* ----- The padding ----- */

  method FinalCount(high: nat, low: nat) returns (finalcount: Bytes)
    ensures finalcount == CountBytes(high, low)
  {
    hide *;
    finalcount := [];
    for i := 0 to 8
      invariant finalcount == CountBytes(high, low)[..i]
    {
      CountBytesAt(high, low, i);
      finalcount := finalcount + [CountByte(if i >= 4 then low else high, i % 4)];
    }
    assert CountBytes(high, low)[..8] == CountBytes(high, low);
  }

  method Digest(state: State) returns (digest: Bytes)
    ensures digest == DigestOf(state)
  {
    hide WordByte;
    digest := [];
    for i := 0 to 20
      invariant digest == DigestOf(state)[..i]
    {
      digest := digest + [WordByte(state[i / 4], i % 4)];
    }
  }

  lemma {:induction false} CountBytesAt(high: nat, low: nat, i: nat)
    requires i < 8
    ensures CountBytes(high, low)[i] == CountByte(if i >= 4 then low else high, i % 4)
    ensures CountBytes(high, low)[..i + 1] == CountBytes(high, low)[..i] + [CountBytes(high, low)[i]]
  {
    hide CountByte;
  }

  lemma {:induction false} CountIsLength(high: nat, low: nat, n: nat)
    requires Exact(high, low, n) && high < WORD && low == 8 * n % WORD
    ensures high == 8 * n % (WORD * WORD) / WORD && low == 8 * n % (WORD * WORD) % WORD
  {
  }

  lemma {:induction false} NoZeros(fed: Bytes)
    ensures fed + [0x80] == fed + ([0x80] + Zeros(0))
  {
    assert Zeros(0) == [];
  }

  lemma {:induction false} OneMoreZero(fed: Bytes, z: nat)
    ensures fed + ([0x80] + Zeros(z)) + [0] == fed + ([0x80] + Zeros(z + 1))
  {
    hide Zeros;
    assert Zeros(z) + [0] == Zeros(z + 1);
  }

  // The masked bit count says how full the last block is.
  lemma {:induction false} CountPlace(n: nat, z: nat, count0: nat)
    requires count0 == 8 * (n + 1 + z) % WORD
    ensures count0 % 512 - count0 % 8 == 8 * LastBlock(n, z)
  {
    EighthOf(n + 1 + z, count0);
  }

  lemma {:induction false} EighthOf(m: nat, count0: nat)
    requires count0 == 8 * m % WORD
    ensures count0 % 512 - count0 % 8 == 8 * (m % 64)
  {
    var k := 8 * m / WORD;
    var e := m - k * 0x2000_0000;
    assert count0 == 8 * e;
    WholeBlocksLess(m, k * 0x80_0000);
    EightTimes(e);
  }

  lemma {:induction false} WholeBlocksLess(m: int, k: nat)
    requires m >= k * 64
    ensures (m - k * 64) % 64 == m % 64
  {
  }

  lemma {:induction false} EightTimes(e: nat)
    ensures 8 * e % 512 == 8 * (e % 64) && 8 * e % 8 == 0
  {
  }

  lemma {:induction false} MoreZeros(n: nat, z: nat, count0: nat)
    requires count0 == 8 * (n + 1 + z) % WORD && count0 % 512 - count0 % 8 != 448 && z <= ZeroCount(n)
    ensures z < ZeroCount(n)
  {
    CountPlace(n, z, count0);
    hide LastBlock;
  }

  lemma {:induction false} LastZero(n: nat, z: nat, count0: nat)
    requires count0 == 8 * (n + 1 + z) % WORD && count0 % 512 - count0 % 8 == 448 && z <= ZeroCount(n)
    ensures z == ZeroCount(n)
  {
    CountPlace(n, z, count0);
    hide LastBlock, ZeroCount;
  }

  lemma {:induction false} PaddedIs(message: Bytes, before: Bytes, fed: Bytes, count: Bytes)
    requires before == message + ([0x80] + Zeros(ZeroCount(|message|))) && fed == before + count
    requires var bits := 8 * |message| % (WORD * WORD); count == CountBytes(bits / WORD, bits % WORD)
    ensures fed == Padded(message)
  {
    hide CountBytes, ZeroCount, Zeros;
  }

  lemma {:induction false} AllAbsorbed(transform: (State, Bytes) -> State, state: State, buffer: Bytes, message: Bytes)
    requires Filled(transform, state, buffer, Padded(message))
    ensures DigestOf(state) == Sha1Of(transform, message)
  {
    PaddedBlocks(message);
    hide Absorb, Padded, DigestOf;
    assert Padded(message)[..Full(|Padded(message)|)] == Padded(message);
  }

  /* ----- Digest and padding as numbers ----- */

  lemma {:induction false} WordBack(w: bv32)
    ensures BigEndian([WordByte(w, 0), WordByte(w, 1), WordByte(w, 2), WordByte(w, 3)]) == w
  {
  }

  // Four bytes of a digest, read as a number, are a word of the state.
  lemma {:induction false} DigestWord(state: State, i: nat)
    requires i < 5
    ensures Quad(DigestOf(state)[4 * i..4 * i + 4]) == Value(state[i])
  {
    var w, d := state[i], DigestOf(state)[4 * i..4 * i + 4];
    WordBack(w);
    BigEndianValue([WordByte(w, 0), WordByte(w, 1), WordByte(w, 2), WordByte(w, 3)]);
    hide WordByte, BigEndian, Quad, Value;
    assert d == [WordByte(w, 0), WordByte(w, 1), WordByte(w, 2), WordByte(w, 3)];
  }

  lemma {:induction false} ByteOfValue(x: nat)
    ensures ByteOf(x) as nat == x % 256
  {
    ByteBack(x % 256);
  }

  lemma {:induction false} NextByte(b: bv8)
    requires b != 255
    ensures (b + 1) as nat == b as nat + 1
  {
  }

  lemma {:induction false} ByteAgain(b: bv8)
    ensures (b as nat) as bv8 == b
  {
  }

  lemma {:induction false} LastByte()
    ensures (0 as bv8) as nat == 0 && (255 as bv8) as nat == 255
  {
  }

  // Every number below 256 is the value of a byte.
  lemma {:induction false} SomeByte(y: nat) returns (b: bv8)
    requires y < 256
    ensures b as nat == y
  {
    LastByte();
    if y == 0 {
      b := 0;
    } else {
      var c := SomeByte(y - 1);
      NextByte(c);
      b := c + 1;
    }
  }

  lemma {:induction false} ByteBack(y: nat)
    requires y < 256
    ensures (y as bv8) as nat == y
  {
    var b := SomeByte(y);
    ByteAgain(b);
  }

  lemma {:induction false} WordOfCount(w: nat)
    requires w < WORD
    ensures Quad([CountByte(w, 0), CountByte(w, 1), CountByte(w, 2), CountByte(w, 3)]) == w
  {
    ByteOfValue(w / 0x100_0000);
    ByteOfValue(w / 0x1_0000);
    ByteOfValue(w / 0x100);
    ByteOfValue(w);
    hide ByteOf;
    FourParts(w);
  }

  lemma {:induction false} FourParts(w: nat)
    requires w < WORD
    ensures w == 0x100_0000 * (w / 0x100_0000 % 256) + 0x1_0000 * (w / 0x1_0000 % 256) + 0x100 * (w / 0x100 % 256) + w % 256
  {
    var a, b, c := w / 0x100, w / 0x1_0000, w / 0x100_0000;
    assert w == a * 0x100 + w % 0x100;
    assert a == b * 0x100 + a % 0x100;
    assert b == c * 0x100 + b % 0x100;
    assert c % 0x100 == c;
  }

  // The padded message ends with the number of its bits, as 64 bits hold it.
  lemma {:induction false} PaddedCount(message: Bytes)
    ensures var p := Padded(message);
      |p| >= 8 && Quad(p[|p| - 8..|p| - 4]) * WORD + Quad(p[|p| - 4..]) == 8 * |message| % (WORD * WORD)
  {
    var bits := 8 * |message| % (WORD * WORD);
    var high, low := bits / WORD, bits % WORD;
    PaddedEnd(message);
    CountHalves(high, low);
    TwoHalves(bits);
    WordOfCount(high);
    WordOfCount(low);
    hide Quad, CountByte, CountBytes, Padded;
  }

  lemma {:induction false} TwoHalves(bits: nat)
    requires bits < WORD * WORD
    ensures bits / WORD < WORD && bits / WORD * WORD + bits % WORD == bits
  {
  }

  lemma {:induction false} CountHalves(high: nat, low: nat)
    ensures CountBytes(high, low)[..4] == [CountByte(high, 0), CountByte(high, 1), CountByte(high, 2), CountByte(high, 3)]
    ensures CountBytes(high, low)[4..] == [CountByte(low, 0), CountByte(low, 1), CountByte(low, 2), CountByte(low, 3)]
  {
    hide CountByte;
  }

  lemma {:induction false} PaddedEnd(message: Bytes)
    ensures var p, bits := Padded(message), 8 * |message| % (WORD * WORD);
      && |p| >= 8 && p[|p| - 8..|p| - 4] == CountBytes(bits / WORD, bits % WORD)[..4]
      && p[|p| - 4..] == CountBytes(bits / WORD, bits % WORD)[4..]
  {
    hide CountBytes, ZeroCount, Zeros;
  }

  // With a compression function that changes nothing, the digest is the initial state of section 5.3.1 of FIPS 180-4.
  lemma {:induction false} NothingTransformed(message: Bytes)
    ensures Sha1Of((s: State, b: Bytes) => s, message) == [
      0x67, 0x45, 0x23, 0x01, 0xEF, 0xCD, 0xAB, 0x89, 0x98, 0xBA, 0xDC, 0xFE, 0x10, 0x32, 0x54, 0x76, 0xC3, 0xD2, 0xE1, 0xF0]
  {
    PaddedBlocks(message);
    hide Padded;
    AbsorbNothing((s: State, b: Bytes) => s, INITIAL, Padded(message));
    InitialDigest();
  }

  lemma {:induction false} AbsorbNothing(transform: (State, Bytes) -> State, state: State, blocks: Bytes)
    requires |blocks| % 64 == 0 && forall s: State, b: Bytes :: transform(s, b) == s
    ensures Absorb(transform, state, blocks) == state
    decreases |blocks|
  {
    if blocks != [] {
      AbsorbNothing(transform, state, blocks[64..]);
    }
  }

  lemma {:induction false} InitialDigest()
    ensures DigestOf(INITIAL) == [
      0x67, 0x45, 0x23, 0x01, 0xEF, 0xCD, 0xAB, 0x89, 0x98, 0xBA, 0xDC, 0xFE, 0x10, 0x32, 0x54, 0x76, 0xC3, 0xD2, 0xE1, 0xF0]
  {
  }

  /* ----- The bit count ----- */

  // A 64-bit number in two words.
  lemma {:induction false} TwoWords(high: nat, x: nat)
    requires high < WORD
    ensures high * WORD + x % WORD == x % (WORD * WORD) <==> high == x / WORD % WORD
  {
    var q := x / WORD;
    assert x == q * WORD + x % WORD;
    assert q == q / WORD * WORD + q % WORD;
    ModOfParts(q / WORD, q % WORD, x % WORD, x);
  }

  lemma {:induction false} ModOfParts(k: nat, h: nat, l: nat, x: nat)
    requires h < WORD && l < WORD && x == (k * WORD + h) * WORD + l
    ensures x % (WORD * WORD) == h * WORD + l
  {
    var m := WORD * WORD;
    var r := h * WORD + l;
    assert x == k * m + r && 0 <= r < m;
    ModIs(x, k, m, r);
  }

  lemma {:induction false} Counted(c0: nat, c1: nat, n: nat, len: nat, c0': nat, c1': nat)
    requires c0 == 8 * n % WORD && c1 < WORD && c0' == (c0 + 8 * len) % WORD
    requires c1' == ((if c0' < 8 * len then (c1 + 1) % WORD else c1) + len / 0x2000_0000) % WORD
    ensures c1' < WORD && c0' == 8 * (n + len) % WORD
    ensures Exact(c1, c0, n) ==> (Exact(c1', c0', n + len) <==> len < 0x2000_0000 || c0 + 8 * len % WORD >= WORD)
  {
    var high, q := 8 * n / WORD, len / 0x2000_0000;
    var carry := if c0' < 8 * len then 1 else 0;
    var bit := if c0 + 8 * len % WORD >= WORD then 1 else 0;
    SumWords(c0, n, len);
    CarryIs(c0, len);
    TwoWords(c1, 8 * n);
    TwoWords(c1', 8 * (n + len));
    HighWord(c1, high, carry, q, bit, c1');
  }

  lemma {:induction false} SumWords(c0: nat, n: nat, len: nat)
    requires c0 == 8 * n % WORD
    ensures 8 * (n + len) % WORD == (c0 + 8 * len) % WORD
    ensures 8 * (n + len) / WORD == 8 * n / WORD + len / 0x2000_0000 + (if c0 + 8 * len % WORD >= WORD then 1 else 0)
  {
    var high, q, l := 8 * n / WORD, len / 0x2000_0000, 8 * len % WORD;
    assert 8 * n == high * WORD + c0;
    assert 8 * len == q * WORD + l;
    assert 8 * (n + len) == (high + q) * WORD + (c0 + l);
  }

  // The carry the code counts is the true one just in these cases.
  lemma {:induction false} CarryIs(c0: nat, len: nat)
    requires c0 < WORD
    ensures ((c0 + 8 * len) % WORD < 8 * len <==> c0 + 8 * len % WORD >= WORD) <==>
      (len < 0x2000_0000 || c0 + 8 * len % WORD >= WORD)
  {
  }

  lemma {:induction false} HighWord(c1: nat, high: nat, carry: nat, q: nat, bit: nat, c1': nat)
    requires c1 < WORD && carry <= 1 && bit <= 1 && c1' == ((if carry == 1 then (c1 + 1) % WORD else c1) + q) % WORD
    ensures c1 == high % WORD ==> (c1' == (high + q + bit) % WORD <==> carry == bit)
  {
    assert c1' == (c1 + carry + q) % WORD;
  }

  /* ----- Any split of a message ----- */

  function Joined(chunks: seq<Bytes>): Bytes {
    if chunks == [] then [] else Joined(chunks[..|chunks| - 1]) + chunks[|chunks| - 1]
  }

  // A message fed in chunks, as the checksum tokens feed it block by block, hashes as one piece.
  method HashInChunks(transform: (State, Bytes) -> State, chunks: seq<Bytes>) returns (digest: Bytes)
    requires forall i :: 0 <= i < |chunks| ==> |chunks[i]| < 0x2000_0000
    ensures digest == Sha1Of(transform, Joined(chunks))
  {
    hide *;
    var context := new Sha1(transform);
    NothingJoined(chunks);
    for i := 0 to |chunks|
      invariant context.Valid() && context.CountExact() && context.transform == transform && fresh(context)
      invariant context.fed == Joined(chunks[..i])
    {
      OneMoreJoined(chunks, i);
      context.SHA1Update(chunks[i]);
    }
    digest := context.SHA1Final();
  }

  lemma {:induction false} NothingJoined(chunks: seq<Bytes>)
    ensures Joined(chunks[..0]) == [] && chunks[..|chunks|] == chunks
  {
  }

  lemma {:induction false} OneMoreJoined(chunks: seq<Bytes>, i: nat)
    requires i < |chunks|
    ensures Joined(chunks[..i + 1]) == Joined(chunks[..i]) + chunks[i]
  {
    assert chunks[..i + 1][..i] == chunks[..i];
  }
}
