/**
  The keys of the extents file as bytes (hfs/extents.c): all of one size, written from and read into
  the fields that the comparison looks at.
 */
module ExtentPages {
  import opened BTreeModel
  import opened KeyOrder
  import opened NodeLayout
  import opened NodePages
  import opened Regions

  // The fields' widths.
  predicate InWidths(k: ExtentKey) { k.keyLength < 0x1_0000 && k.forkType < 256 && k.fileID < WORD && k.startBlock < WORD }

  // extentKeyWrite; the byte behind the fork type is padding.
  function WriteKey(k: ExtentKey): (b: Octets)
    ensures |b| == 12
  {
    WordBytes(k.keyLength) + [k.forkType, 0] + Four(k.fileID) + Four(k.startBlock)
  }

  predicate IsKey(b: Octets) { |b| == 12 && forall i :: 0 <= i < 12 ==> b[i] >= 0 }

  // extentKeyRead.
  function ReadKey(b: Octets): ExtentKey
    requires IsKey(b)
  {
    ExtentKey(Word(b, 0), b[2], Quad(b, 4), Quad(b, 8))
  }

  // A key that is written is read back.
  lemma {:induction false} KeyReadBack(k: ExtentKey)
    requires InWidths(k)
    ensures IsKey(WriteKey(k)) && ReadKey(WriteKey(k)) == k
  {
    hide Quad;
    var b := WriteKey(k);
    WordOf(k.keyLength);
    assert b[0] == WordBytes(k.keyLength)[0] && b[1] == WordBytes(k.keyLength)[1];
    assert Region(b, 4, Four(k.fileID));
    assert Region(b, 8, Four(k.startBlock));
    QuadOf(b, 4, k.fileID);
    QuadOf(b, 8, k.startBlock);
  }

  // The key of a rank; the code always writes the length 10.
  function OfRank(r: nat): ExtentKey { ExtentKey(10, r / WORD / WORD, r / WORD % WORD, r % WORD) }

  lemma {:induction false} RankBack(r: nat)
    requires r < 256 * WORD * WORD
    ensures InWidths(OfRank(r)) && Is32Bit(OfRank(r)) && Rank(OfRank(r)) == r
  {
    var q := r / WORD;
    assert r == q * WORD + r % WORD && q == q / WORD * WORD + q % WORD;
  }

  function CompareKeys(a: Octets, b: Octets): int { if IsKey(a) && IsKey(b) then ExtentCompare(ReadKey(a), ReadKey(b)) else 0 }

  function EncodeRank(r: int): Octets { if r < 0 then [] else WriteKey(OfRank(r)) }

  function ExtentFormat(): KeyFormat { KeyFormat(256 * WORD * WORD, (r: int) => EncodeRank(r), (a: Octets, b: Octets) => CompareKeys(a, b)) }

  // Every key of the code's length is the key of a number that the format has.
  lemma {:induction false} HasRank(k: ExtentKey)
    requires InWidths(k) && k.keyLength == 10
    ensures 0 <= Rank(k) < ExtentFormat().limit && EncodeRank(Rank(k)) == WriteKey(k)
  {
    hide WriteKey;
    var q := k.forkType * WORD + k.fileID;
    assert Rank(k) == q * WORD + k.startBlock;
    assert Rank(k) / WORD == q && Rank(k) % WORD == k.startBlock && q / WORD == k.forkType && q % WORD == k.fileID;
    assert OfRank(Rank(k)) == k;
  }

  lemma {:induction false} CompareRanks(a: nat, b: nat)
    requires a < 256 * WORD * WORD && b < 256 * WORD * WORD
    ensures CompareKeys(EncodeRank(a), EncodeRank(b)) == Sign(a, b)
  {
    hide *;
    RankBack(a);
    RankBack(b);
    RanksRead(a, b);
    RankIsOrder(OfRank(a), OfRank(b));
    SameLength(a, b);
  }

  lemma {:induction false} RanksRead(a: nat, b: nat)
    requires InWidths(OfRank(a)) && InWidths(OfRank(b))
    ensures CompareKeys(EncodeRank(a), EncodeRank(b)) == ExtentCompare(OfRank(a), OfRank(b))
  {
    hide WriteKey, ReadKey, IsKey, OfRank, InWidths, ExtentCompare;
    KeyReadBack(OfRank(a));
    KeyReadBack(OfRank(b));
  }

  lemma {:induction false} SameLength(a: nat, b: nat)
    ensures OfRank(a).keyLength == OfRank(b).keyLength == 10
  {
  }

  lemma {:induction false} LengthWord(r: nat)
    ensures KeyBytes(EncodeRank(r), 12)
  {
    hide Four;
    WordOf(10);
    assert EncodeRank(r)[0] == WordBytes(10)[0] && EncodeRank(r)[1] == WordBytes(10)[1];
  }

  lemma {:induction false} SignOrders(c: int, a: int, b: int)
    requires c == Sign(a, b)
    ensures OrderedAs(c, a, b)
  {
  }

  // The pages of the extents file are pages in this format.
  lemma {:induction false} ExtentFormatOk(g: Geometry)
    requires g.keySize == 12 && 16 <= g.nodeSize < 0x1_0000
    ensures FormatOk(ExtentFormat(), g)
  {
    hide EncodeRank, CompareKeys, KeyBytes, OrderedAs, Sign;
    var f := ExtentFormat();
    forall k: int | 0 <= k < f.limit ensures KeyBytes(f.encode(k), g.keySize) {
      LengthWord(k);
    }
    forall a: int, b: int | 0 <= a < f.limit && 0 <= b < f.limit ensures OrderedAs(f.compare(f.encode(a), f.encode(b)), a, b) {
      CompareRanks(a, b);
      SignOrders(f.compare(f.encode(a), f.encode(b)), a, b);
    }
  }
}
