/**
  Small tree files on which a scan misses a record and a removal goes astray.
 */
module BTreeExamples {
  import opened BTreeMap
  import opened BTreeModel
  import opened BTreeRemove
  import opened BTreeScan
  import opened BTreeFile
  import NodeLayout
  import opened NodePages
  import opened Regions
  import ExtentPages
  import KeyOrder

  lemma {:induction false} TwoOwners(a: KeyOrder.NameKey, b: KeyOrder.NameKey, x: int, y: int)
    requires KeyedBy(a, x) && KeyedBy(b, y) && a.owner < b.owner && b.name != []
    ensures x < KeyOrder.OwnerKey(b.owner) < y
  {
    hide KeyOrder.OwnerKey, KeyOrder.KeyRank, KeyedBy;
    EarlierKey(a, x, b.owner);
    EarlierKey(b, y, b.owner);
    ThreadKey(b, y, b.owner);
  }

  /* ----- Keys of one size for numbers of any width, highest byte first ----- */

  function Power(w: nat): nat { if w == 0 then 1 else 256 * Power(w - 1) }

  function Digits(k: nat, w: nat): (b: Octets)
    ensures |b| == w
  {
    if w == 0 then [] else Digits(k / 256, w - 1) + [k % 256]
  }

  function ValueOf(b: Octets): int { if b == [] then 0 else ValueOf(b[..|b| - 1]) * 256 + b[|b| - 1] }

  lemma {:induction false} DigitsBack(k: nat, w: nat)
    requires k < Power(w)
    ensures ValueOf(Digits(k, w)) == k
    decreases w
  {
    if w > 0 {
      DigitsBack(k / 256, w - 1);
      assert Digits(k, w)[..w - 1] == Digits(k / 256, w - 1);
    }
  }

  function WideKey(k: int, w: nat): Octets { if k < 0 then [] else NodeLayout.WordBytes(w) + Digits(k, w) }

  function CompareWide(a: Octets, b: Octets): int { if |a| < 2 || |b| < 2 then 0 else ValueOf(a[2..]) - ValueOf(b[2..]) }

  function WideFormat(w: nat): KeyFormat { KeyFormat(Power(w), (k: int) => WideKey(k, w), (a: Octets, b: Octets) => CompareWide(a, b)) }

  lemma {:induction false} WideLength(k: nat, w: nat)
    requires w < 0x1_0000
    ensures KeyBytes(WideKey(k, w), w + 2)
  {
    NodeLayout.WordOf(w);
    assert WideKey(k, w)[0] == NodeLayout.WordBytes(w)[0] && WideKey(k, w)[1] == NodeLayout.WordBytes(w)[1];
  }

  lemma {:induction false} WideOrder(a: nat, b: nat, w: nat)
    requires a < Power(w) && b < Power(w)
    ensures OrderedAs(CompareWide(WideKey(a, w), WideKey(b, w)), a, b)
  {
    hide Power, Digits, ValueOf, NodeLayout.WordBytes;
    DigitsBack(a, w);
    DigitsBack(b, w);
    assert WideKey(a, w)[2..] == Digits(a, w) && WideKey(b, w)[2..] == Digits(b, w);
  }

  lemma {:induction false} WideFormatOk(g: Geometry)
    requires g.Roomy() && 2 <= g.keySize && 16 <= g.nodeSize < 0x1_0000
    ensures FormatOk(WideFormat(g.keySize - 2), g)
  {
    KeyFits(g);
    hide WideKey, CompareWide, KeyBytes, OrderedAs, Power, Geometry.Roomy;
    var w := g.keySize - 2;
    var f := WideFormat(w);
    forall k: int | 0 <= k < f.limit ensures KeyBytes(f.encode(k), g.keySize) {
      WideLength(k, w);
    }
    forall a: int, b: int | 0 <= a < f.limit && 0 <= b < f.limit ensures OrderedAs(f.compare(f.encode(a), f.encode(b)), a, b) {
      WideOrder(a, b, w);
    }
  }

  lemma {:induction false} KeyFits(g: Geometry)
    requires g.Roomy() && g.nodeSize < 0x1_0000
    ensures g.keySize < 0x1_0000
  {
  }

  lemma {:induction false} TwoNames()
    ensures KeyedBy(KeyOrder.NameKey(1, ['v' as nat]), KeyOrder.KeyRank(1, ['v' as nat]))
    ensures KeyedBy(KeyOrder.NameKey(2, ['c' as nat]), KeyOrder.KeyRank(2, ['c' as nat]))
    ensures KeyOrder.KeyRank(1, ['v' as nat]) < KeyOrder.OwnerKey(2) < KeyOrder.KeyRank(2, ['c' as nat])
  {
    TwoOwners(KeyOrder.NameKey(1, ['v' as nat]), KeyOrder.NameKey(2, ['c' as nat]),
              KeyOrder.KeyRank(1, ['v' as nat]), KeyOrder.KeyRank(2, ['c' as nat]));
  }

  // A file's record in folder 1 and one in folder 2, and no thread of folder 2.
  method TwoFiles(g: Geometry, volume: Data, child: Data) returns (tree: BTree, ghost names: seq<KeyOrder.NameKey>)
    requires g.Roomy() && 2 <= g.keySize && 16 <= g.nodeSize < 0x1_0000 && |volume| == |child| == g.dataSize
    requires KeyOrder.KeyRank(2, ['c' as nat]) < Power(g.keySize - 2)
    ensures names == [KeyOrder.NameKey(1, ['v' as nat]), KeyOrder.NameKey(2, ['c' as nat])]
    ensures fresh(tree) && tree.Valid() && Keyed(names, tree.Bindings()) && |tree.Bindings()| == 2
    ensures tree.rootNode == 1 && tree.tree == Leaf(1, tree.Bindings())
    ensures tree.Bindings()[0].key < KeyOrder.OwnerKey(2) < tree.Bindings()[1].key
  {
    TwoNames();
    hide KeyOrder.OwnerKey, KeyOrder.KeyRank, KeyedBy, FormatOk, Typed, PagesOk, HeaderOk, BitmapOk, OnlyUses, WideKey, CompareWide, Power;
    names := [KeyOrder.NameKey(1, ['v' as nat]), KeyOrder.NameKey(2, ['c' as nat])];
    var ents := [Entry(KeyOrder.KeyRank(1, ['v' as nat]), volume), Entry(KeyOrder.KeyRank(2, ['c' as nat]), child)];
    WideFormatOk(g);
    AllKept(g, WideFormat(g.keySize - 2), ents);
    tree := new BTree.OneLeaf(g, WideFormat(g.keySize - 2), 10, ents);
  }

  // A folder's only child, and no thread of the folder: the scan steps over the child.
  method LostChild(g: Geometry, volume: Data, child: Data)
    returns (tree: BTree, list: seq<Entry>, panicked: bool, ghost names: seq<KeyOrder.NameKey>)
    requires g.Roomy() && 2 <= g.keySize && 16 <= g.nodeSize < 0x1_0000 && |volume| == |child| == g.dataSize
    requires KeyOrder.KeyRank(2, ['c' as nat]) < Power(g.keySize - 2)
    ensures names == [KeyOrder.NameKey(1, ['v' as nat]), KeyOrder.NameKey(2, ['c' as nat])]
    ensures fresh(tree) && tree.Valid() && Keyed(names, tree.Bindings()) && |tree.Bindings()| == 2 && !panicked
    ensures Listed(names, tree.Bindings(), 2, false) == [tree.Bindings()[1]] && list != [tree.Bindings()[1]]
  {
    hide KeyOrder.OwnerKey, KeyOrder.KeyRank, KeyedBy, Power, BTree.Valid, BTree.Bindings;
    tree, names := TwoFiles(g, volume, child);
    BothListed(names, tree.Bindings());
    NotPastEnd(tree.Bindings(), KeyOrder.OwnerKey(2));
    list, panicked := tree.GetFolderContents(2, names);
  }

  lemma {:induction false} BothListed(names: seq<KeyOrder.NameKey>, s: seq<Entry>)
    requires |names| == |s| == 2 && names[0].owner == 1 && names[1].owner == 2 && names[1].name != []
    ensures Listed(names, s, 2, false) == [s[1]]
  {
    assert Listed(names[1..][1..], s[1..][1..], 2, false) == [];
    assert Listed(names[1..], s[1..], 2, false) == [s[1]];
  }

  lemma {:induction false} NotPastEnd(ents: seq<Entry>, key: int)
    requires |ents| == 2 && ents[0].key < key < ents[1].key
    ensures !PastEnd(Leaf(1, ents), key)
  {
    assert Rank(ents[1..], key) == 0;
  }

  lemma {:induction false} AllKept(g: Geometry, f: KeyFormat, ents: seq<Entry>)
    requires forall i :: 0 <= i < |ents| ==> 0 <= ents[i].key < f.limit && |ents[i].data| == g.dataSize
    ensures Typed(g, f, LeafNode, EntryRecs(ents))
  {
  }

  // The removal of a key above the only one, in an extents file.
  method StrayRemoval(g: Geometry, data: Data) returns (tree: BTree, stray: bool)
    requires g.Roomy() && g.keySize == 12 && |data| == g.dataSize && 16 <= g.nodeSize < 0x1_0000
    ensures fresh(tree) && tree.Valid() && stray
  {
    var ents := [Entry(5, data)];
    ExtentPages.ExtentFormatOk(g);
    AllKept(g, ExtentPages.ExtentFormat(), ents);
    hide FormatOk;
    tree := new BTree.OneLeaf(g, ExtentPages.ExtentFormat(), 10, ents);
    OnePastEnd(ents, 7);
    stray := tree.RemoveFromBTree(7);
  }

  lemma {:induction false} OnePastEnd(ents: seq<Entry>, key: int)
    requires |ents| == 1 && ents[0].key < key
    ensures PastEnd(Leaf(1, ents), key) && key !in MapOf(ents)
  {
    MapOfKeys(ents, key);
    assert Rank(ents[1..], key) == 0;
  }
}
