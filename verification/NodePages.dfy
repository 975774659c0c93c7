/**
  The nodes of a B-tree file with keys of one size, as bytes (hfs/btree.c): the
  descriptor, the records with their keys in the file's key format, and the table of
  offsets.  Each change of a node is a change of its bytes by the operations of NodeLayout.
 */
module NodePages {
  import opened Common
  import opened Regions
  import opened BTreeModel
  import opened NodeLayout

  /* ----- Keys and records as bytes ----- */

  // How keys are written and compared: each number below limit has a key of its own.
  datatype KeyFormat = KeyFormat(limit: nat, encode: int -> Octets, compare: (Octets, Octets) -> int)

  // Keys have one size, start with their length, and compare as their numbers do.
  ghost predicate FormatOk(f: KeyFormat, g: Geometry) {
    && 16 <= g.nodeSize < 0x1_0000
    && (forall k: int :: 0 <= k < f.limit ==> KeyBytes(f.encode(k), g.keySize))
    && (forall a: int, b: int :: 0 <= a < f.limit && 0 <= b < f.limit ==> OrderedAs(f.compare(f.encode(a), f.encode(b)), a, b))
  }

  predicate KeyBytes(b: Octets, size: nat) { |b| == size >= 2 && Word(b, 0) == size - 2 }

  predicate OrderedAs(c: int, a: int, b: int) { (c < 0 <==> a < b) && (c == 0 <==> a == b) }

  function Four(v: int): (r: Octets)
    ensures |r| == 4
  {
    WordBytes(v / 0x1_0000) + WordBytes(v)
  }

  const WORD: nat := 0x1_0000_0000

  function Quad(b: Octets, p: nat): int
    requires p + 4 <= |b|
  {
    Word(b, p) * 0x1_0000 + Word(b, p + 2)
  }

  lemma {:induction false} QuadOf(b: Octets, p: nat, v: nat)
    requires v < WORD && Region(b, p, Four(v))
    ensures p + 4 <= |b| && Quad(b, p) == v
    ensures forall i :: p <= i < p + 4 ==> b[i] >= 0
  {
    var x := b[p..p + 4];
    assert b[p] == x[0] && b[p + 1] == x[1] && b[p + 2] == x[2] && b[p + 3] == x[3];
    WordOf(v / 0x1_0000);
    WordBytesWrap(v);
    WordOf(v % 0x1_0000);
  }

  // Of two numbers the bytes of the smaller come first.
  lemma {:induction false} FoursRise(a: nat, b: nat)
    requires a < b < 0x1_0000_0000
    ensures var x, y := Four(a), Four(b);
      exists i :: 0 <= i < 4 && x[..i] == y[..i] && x[i] < y[i]
  {
    var x, y := Four(a), Four(b);
    var p, q := a / 0x1_0000, b / 0x1_0000;
    WordBytesWrap(a);
    WordBytesWrap(b);
    assert x == WordBytes(p) + WordBytes(a % 0x1_0000) && y == WordBytes(q) + WordBytes(b % 0x1_0000);
    if p < q {
      WordsRise(p, q);
      if x[0] < y[0] {
        assert x[..0] == y[..0];
      } else {
        assert x[..1] == y[..1];
      }
    } else {
      assert p == q;
      WordsRise(a % 0x1_0000, b % 0x1_0000);
      if x[2] < y[2] {
        assert x[..2] == y[..2];
      } else {
        assert x[..3] == y[..3];
      }
    }
  }

  // What follows the key: the data of a leaf's record, or a node number.
  function Payload(rec: Rec): Octets {
    match rec
    case LeafRec(_, data) => seq(|data|, i requires 0 <= i < |data| => data[i] as int)
    case PtrRec(_, node) => Four(node)
  }

  function RecBytes(f: KeyFormat, rec: Rec): Octets { f.encode(rec.key) + Payload(rec) }

  function Encoded(f: KeyFormat, recs: seq<Rec>): (r: seq<Octets>)
    ensures |r| == |recs| && forall i :: 0 <= i < |recs| ==> r[i] == RecBytes(f, recs[i])
  {
    seq(|recs|, i requires 0 <= i < |recs| => RecBytes(f, recs[i]))
  }

  // A record of a node of this kind.
  predicate Keeps(g: Geometry, f: KeyFormat, kind: Kind, rec: Rec) {
    && 0 <= rec.key < f.limit
    && match kind
       case LeafNode => rec.LeafRec? && |rec.data| == g.dataSize
       case IndexNode => rec.PtrRec?
       case HeaderNode => false
  }

  ghost predicate Typed(g: Geometry, f: KeyFormat, kind: Kind, recs: seq<Rec>) {
    forall i :: 0 <= i < |recs| ==> Keeps(g, f, kind, recs[i])
  }

  function SizeOf(g: Geometry, kind: Kind): nat { if kind == LeafNode then g.LeafRecSize() else g.IndexRecSize() }

  function CapOf(g: Geometry, kind: Kind): nat { g.Cap(SizeOf(g, kind)) }

  /* ----- A node as bytes ----- */

  function KindByte(kind: Kind): int {
    match kind
    case LeafNode => 0xFF case IndexNode => 0 case HeaderNode => 1
  }

  // BTNodeDescriptor as writeBTNodeDescriptor writes it, up to the reserved word; each field is cut to its width.
  function Descriptor(node: Node): (r: Octets)
    ensures |r| == 12
  {
    Four(node.fLink) + Four(node.bLink) + [KindByte(node.kind), node.height % 256] + WordBytes(|node.recs|)
  }

  lemma {:induction false} DescriptorBytes(node: Node)
    ensures forall i :: 0 <= i < 12 ==> 0 <= Descriptor(node)[i] < 0x100
  {
    var d := Descriptor(node);
    assert d[..8] == Four(node.fLink) + Four(node.bLink);
    assert d[8..] == [KindByte(node.kind), node.height % 256] + WordBytes(|node.recs|);
    assert forall i :: 0 <= i < 4 ==> d[i] == Four(node.fLink)[i] && d[i + 4] == Four(node.bLink)[i];
    assert d[8] == KindByte(node.kind) && d[9] == node.height % 256 && d[10] == WordBytes(|node.recs|)[0] && d[11] == WordBytes(|node.recs|)[1];
  }

  // The page holds the node; what a page that is no leaf or index node holds is not looked at.
  ghost predicate PageOk(g: Geometry, f: KeyFormat, node: Node, page: Octets) {
    && |page| == g.nodeSize
    && (node.kind != HeaderNode ==> Region(page, 0, Descriptor(node)) && RecordsOk(g, f, node.kind, node.recs, page))
  }

  ghost predicate RecordsOk(g: Geometry, f: KeyFormat, kind: Kind, recs: seq<Rec>, page: Octets) {
    |page| == g.nodeSize && Typed(g, f, kind, recs) && Layout(page, Encoded(f, recs))
  }

  ghost predicate PagesOk(g: Geometry, f: KeyFormat, nodes: seq<Node>, pages: seq<Octets>) {
    && FormatOk(f, g) && |pages| == |nodes|
    && forall n :: 0 < n < |nodes| ==> PageOk(g, f, nodes[n], pages[n])
  }

  lemma {:induction false} PagesSet(g: Geometry, f: KeyFormat, nodes: seq<Node>, pages: seq<Octets>, n: nat, node: Node, page: Octets)
    requires PagesOk(g, f, nodes, pages) && 0 < n < |nodes| && PageOk(g, f, node, page)
    ensures |pages| == |nodes| && PagesOk(g, f, nodes[n := node], pages[n := page])
  {
    hide FormatOk, PageOk;
  }

  /* ----- Sizes ----- */

  lemma {:induction false} RecordIs(g: Geometry, f: KeyFormat, kind: Kind, rec: Rec)
    requires FormatOk(f, g) && Keeps(g, f, kind, rec)
    ensures var r := RecBytes(f, rec);
      |r| == SizeOf(g, kind) && Keyed(r) && KeyOf(r) == f.encode(rec.key) && r[|KeyOf(r)|..] == Payload(rec)
  {
    assert KeyBytes(f.encode(rec.key), g.keySize);
    assert |Payload(rec)| == SizeOf(g, kind) - g.keySize;
    hide FormatOk, Payload;
    var k, r := f.encode(rec.key), RecBytes(f, rec);
    assert r[..|k|] == k && r[0] == k[0] && r[1] == k[1];
  }

  lemma {:induction false} EncodedKeyed(g: Geometry, f: KeyFormat, kind: Kind, recs: seq<Rec>)
    requires FormatOk(f, g) && Typed(g, f, kind, recs)
    ensures AllKeyed(Encoded(f, recs))
    ensures forall i :: 0 <= i < |recs| ==> KeyOf(Encoded(f, recs)[i]) == f.encode(recs[i].key)
  {
    hide FormatOk, RecBytes, KeyOf, Keyed, Keeps;
    var e := Encoded(f, recs);
    forall i | 0 <= i < |recs| ensures Keyed(e[i]) && KeyOf(e[i]) == f.encode(recs[i].key) {
      RecordIs(g, f, kind, recs[i]);
    }
  }

  lemma {:induction false} EncodedSize(g: Geometry, f: KeyFormat, kind: Kind, recs: seq<Rec>)
    requires FormatOk(f, g) && Typed(g, f, kind, recs)
    ensures |Concat(Encoded(f, recs))| == |recs| * SizeOf(g, kind)
    decreases |recs|
  {
    hide FormatOk, RecBytes, Keeps, SizeOf;
    if recs != [] {
      RecordIs(g, f, kind, recs[0]);
      assert Encoded(f, recs)[1..] == Encoded(f, recs[1..]);
      EncodedSize(g, f, kind, recs[1..]);
      OneMoreTimes(|recs| - 1, SizeOf(g, kind));
    }
  }

  lemma {:induction false} OneMoreTimes(n: nat, size: nat)
    ensures n * size + size == (n + 1) * size
  {
  }

  // A node that is not full has room for one record more.
  lemma {:induction false} RoomFor(g: Geometry, f: KeyFormat, kind: Kind, recs: seq<Rec>, rec: Rec, page: Octets)
    requires FormatOk(f, g) && Typed(g, f, kind, recs) && Keeps(g, f, kind, rec) && |page| == g.nodeSize
    requires |recs| < CapOf(g, kind)
    ensures InsertFits(page, Encoded(f, recs), RecBytes(f, rec), [])
  {
    g.SplitTestIsFull(|recs| + 1, SizeOf(g, kind));
    EncodedSize(g, f, kind, recs);
    RecordIs(g, f, kind, rec);
    OneMoreTimes(|recs|, SizeOf(g, kind));
    hide FormatOk, Typed, Keeps, Encoded, RecBytes, SizeOf;
    assert Concat([]) == [];
  }

  lemma {:induction false} EncodedInsert(f: KeyFormat, recs: seq<Rec>, i: nat, rec: Rec)
    requires i <= |recs|
    ensures Encoded(f, recs)[..i] + [RecBytes(f, rec)] + Encoded(f, recs)[i..] == Encoded(f, recs[..i] + [rec] + recs[i..])
  {
    hide RecBytes;
  }

  lemma {:induction false} EncodedRemove(f: KeyFormat, recs: seq<Rec>, i: nat)
    requires i < |recs|
    ensures Encoded(f, recs)[..i] + Encoded(f, recs)[i + 1..] == Encoded(f, recs[..i] + recs[i + 1..])
  {
    hide RecBytes;
  }

  lemma {:induction false} EncodedUpdate(f: KeyFormat, recs: seq<Rec>, i: nat, rec: Rec)
    requires i < |recs|
    ensures Encoded(f, recs)[i := RecBytes(f, rec)] == Encoded(f, recs[i := rec])
  {
    hide RecBytes;
  }

  lemma {:induction false} EncodedHalves(f: KeyFormat, recs: seq<Rec>, m: nat)
    requires m <= |recs|
    ensures Encoded(f, recs)[..m] == Encoded(f, recs[..m]) && Encoded(f, recs)[m..] == Encoded(f, recs[m..])
  {
    hide RecBytes;
  }

  /* ----- A page determines its node ----- */

  // Numbers that the descriptor and the pointers have room for.
  ghost predicate InWidth(node: Node) {
    && node.fLink < WORD && node.bLink < WORD && node.height < 256
    && forall i :: 0 <= i < |node.recs| ==> node.recs[i].PtrRec? ==> node.recs[i].node < WORD
  }

  lemma {:induction false} DescriptorRead(node: Node, page: Octets)
    requires Region(page, 0, Descriptor(node))
    requires node.fLink < WORD && node.bLink < WORD && node.height < 256 && |node.recs| < 0x1_0000
    ensures 12 <= |page| && Quad(page, 0) == node.fLink && Quad(page, 4) == node.bLink
    ensures page[8] == KindByte(node.kind) && page[9] == node.height && Word(page, 10) == |node.recs|
  {
    hide Quad, Four, WordBytes, Word;
    var rest := [KindByte(node.kind), node.height % 256] + WordBytes(|node.recs|);
    assert Descriptor(node) == Four(node.fLink) + (Four(node.bLink) + rest);
    RegionParts(page, 0, Four(node.fLink), Four(node.bLink) + rest);
    RegionParts(page, 4, Four(node.bLink), rest);
    QuadOf(page, 0, node.fLink);
    QuadOf(page, 4, node.bLink);
    KindRead(node, page, rest);
  }

  lemma {:induction false} KindRead(node: Node, page: Octets, rest: Octets)
    requires rest == [KindByte(node.kind), node.height % 256] + WordBytes(|node.recs|)
    requires Region(page, 8, rest) && node.height < 256 && |node.recs| < 0x1_0000
    ensures 12 <= |page| && page[8] == KindByte(node.kind) && page[9] == node.height && Word(page, 10) == |node.recs|
  {
    hide KindByte;
    var x := page[8..8 + |rest|];
    assert page[8] == x[0] && page[9] == x[1] && page[10] == x[2] && page[11] == x[3];
    WordOf(|node.recs|);
  }

  // The ninth byte of a leaf is -1, that of an index node 0.
  lemma {:induction false} KindOnPage(g: Geometry, f: KeyFormat, node: Node, page: Octets)
    requires PageOk(g, f, node, page) && node.kind != HeaderNode
    ensures |page| > 8 && page[8] == if node.kind == LeafNode then 0xFF else 0
  {
    hide RecordsOk;
    assert page[0..12][8] == page[8];
  }

  // The table of offsets lies in the page.
  lemma {:induction false} CountFits(g: Geometry, f: KeyFormat, kind: Kind, recs: seq<Rec>, page: Octets)
    requires RecordsOk(g, f, kind, recs, page) && g.nodeSize < 0x1_0000
    ensures |recs| < 0x1_0000
  {
    RecordsAre(g, f, kind, recs, page);
    hide RecordsOk, Layout, Encoded, Typed;
    OffsetWord(page, Encoded(f, recs), |recs|);
  }

  lemma {:induction false} SameRecord(g: Geometry, f: KeyFormat, kind: Kind, a: Rec, b: Rec)
    requires FormatOk(f, g) && Keeps(g, f, kind, a) && Keeps(g, f, kind, b) && RecBytes(f, a) == RecBytes(f, b)
    requires (a.PtrRec? ==> a.node < WORD) && (b.PtrRec? ==> b.node < WORD)
    ensures a == b
  {
    RecordIs(g, f, kind, a);
    RecordIs(g, f, kind, b);
    assert OrderedAs(f.compare(f.encode(a.key), f.encode(b.key)), a.key, b.key);
    assert OrderedAs(f.compare(f.encode(a.key), f.encode(a.key)), a.key, a.key);
    hide FormatOk, RecBytes, KeyOf, Keyed, SizeOf;
    SamePayload(g, f, kind, a, b);
  }

  lemma {:induction false} SamePayload(g: Geometry, f: KeyFormat, kind: Kind, a: Rec, b: Rec)
    requires Keeps(g, f, kind, a) && Keeps(g, f, kind, b) && a.key == b.key && Payload(a) == Payload(b)
    requires (a.PtrRec? ==> a.node < WORD) && (b.PtrRec? ==> b.node < WORD)
    ensures a == b
  {
    if a.PtrRec? {
      QuadOf(Four(a.node), 0, a.node);
      QuadOf(Four(b.node), 0, b.node);
    } else {
      assert |a.data| == |b.data|;
      assert forall i :: 0 <= i < |a.data| ==> Payload(a)[i] == a.data[i] as int && Payload(b)[i] == b.data[i] as int;
      assert a.data == b.data;
    }
  }

  // Two nodes on one page are the same: whoever reads the page gets this node.
  lemma {:induction false} PageUnique(g: Geometry, f: KeyFormat, a: Node, b: Node, page: Octets)
    requires FormatOk(f, g) && PageOk(g, f, a, page) && PageOk(g, f, b, page)
    requires a.kind != HeaderNode && b.kind != HeaderNode && InWidth(a) && InWidth(b)
    ensures a == b
  {
    hide FormatOk, RecordsOk, Descriptor, Quad, Word, Region;
    FormatSize(g, f);
    CountFits(g, f, a.kind, a.recs, page);
    CountFits(g, f, b.kind, b.recs, page);
    DescriptorRead(a, page);
    DescriptorRead(b, page);
    RecordsAre(g, f, a.kind, a.recs, page);
    RecordsAre(g, f, b.kind, b.recs, page);
    SameRecords(g, f, a.kind, a.recs, b.recs, page);
  }

  lemma {:induction false} FormatSize(g: Geometry, f: KeyFormat)
    requires FormatOk(f, g)
    ensures g.nodeSize < 0x1_0000
  {
  }

  lemma {:induction false} SameRecords(g: Geometry, f: KeyFormat, kind: Kind, a: seq<Rec>, b: seq<Rec>, page: Octets)
    requires FormatOk(f, g) && RecordsOk(g, f, kind, a, page) && RecordsOk(g, f, kind, b, page) && |a| == |b|
    requires forall i :: 0 <= i < |a| ==> a[i].PtrRec? ==> a[i].node < WORD
    requires forall i :: 0 <= i < |b| ==> b[i].PtrRec? ==> b[i].node < WORD
    ensures a == b
  {
    hide FormatOk, Layout, RecBytes, Keeps;
    RecordsUnique(page, Encoded(f, a), Encoded(f, b));
    forall i | 0 <= i < |a| ensures a[i] == b[i] {
      assert Encoded(f, a)[i] == Encoded(f, b)[i];
      SameRecord(g, f, kind, a[i], b[i]);
    }
  }

  // The bytes of a file determine its leaves and index nodes.
  lemma {:induction false} PagesUnique(g: Geometry, f: KeyFormat, nodes: seq<Node>, nodes': seq<Node>, pages: seq<Octets>)
    requires PagesOk(g, f, nodes, pages) && PagesOk(g, f, nodes', pages)
    requires forall n :: 0 < n < |nodes| ==> InWidth(nodes[n])
    requires forall n :: 0 < n < |nodes'| ==> InWidth(nodes'[n])
    ensures |nodes| == |nodes'|
    ensures forall n :: 0 < n < |nodes| && nodes[n].kind != HeaderNode && nodes'[n].kind != HeaderNode ==> nodes[n] == nodes'[n]
  {
    hide FormatOk, PageOk, InWidth;
    forall n | 0 < n < |nodes| && nodes[n].kind != HeaderNode && nodes'[n].kind != HeaderNode ensures nodes[n] == nodes'[n] {
      PageUnique(g, f, nodes[n], nodes'[n], pages[n]);
    }
  }

  /* ----- The operations on a page ----- */

  // writeBTNodeDescriptor: the records stay.
  lemma {:induction false} DescriptorWritten(page: Octets, recs: seq<Octets>, d: Octets)
    requires Layout(page, recs) && |d| <= DESCRIPTOR
    ensures DESCRIPTOR <= |page| && Layout(Splice(page, 0, d), recs) && Region(Splice(page, 0, d), 0, d)
  {
    hide Splice, TableBytes, Offsets, Concat, Region;
    RegionSet(page, 0, d);
    RegionKeep(page, 0, d, DESCRIPTOR, Concat(recs));
    RegionKeep(page, 0, d, |page| - 2 * (|recs| + 1), TableBytes(Offsets(DESCRIPTOR, recs)));
  }

  // The page with the node's descriptor written over the old one.
  function Described(page: Octets, node: Node): (r: Octets)
    ensures |r| == |page|
  {
    if DESCRIPTOR <= |page| then Splice(page, 0, Descriptor(node)) else page
  }

  lemma {:induction false} DescribedOk(g: Geometry, f: KeyFormat, node: Node, page: Octets)
    requires node.kind != HeaderNode ==> RecordsOk(g, f, node.kind, node.recs, page)
    requires |page| == g.nodeSize
    ensures PageOk(g, f, node, Described(page, node))
  {
    hide Descriptor, Layout, Typed, Splice, Region;
    if node.kind != HeaderNode {
      DescriptorWritten(page, Encoded(f, node.recs), Descriptor(node));
    }
  }

  lemma {:induction false} RecordsAre(g: Geometry, f: KeyFormat, kind: Kind, recs: seq<Rec>, page: Octets)
    requires RecordsOk(g, f, kind, recs, page)
    ensures Layout(page, Encoded(f, recs)) && |page| == g.nodeSize && Typed(g, f, kind, recs)
  {
  }

  // getFreeSpace: what the offsets of the page leave is what the number of records leaves.
  method PageFreeSpace(g: Geometry, f: KeyFormat, kind: Kind, page: Octets, numRecords: nat, ghost recs: seq<Rec>) returns (free: int)
    requires FormatOk(f, g) && RecordsOk(g, f, kind, recs, page) && numRecords == |recs|
    ensures free == g.FreeSpace(|recs|, SizeOf(g, kind))
  {
    RecordsAre(g, f, kind, recs, page);
    hide *;
    var node := new NodeBytes(page, numRecords, Encoded(f, recs));
    free := node.GetFreeSpace();
    FreeIs(g, f, kind, recs, free);
  }

  lemma {:induction false} FreeIs(g: Geometry, f: KeyFormat, kind: Kind, recs: seq<Rec>, free: int)
    requires FormatOk(f, g) && Typed(g, f, kind, recs)
    requires DESCRIPTOR + |Concat(Encoded(f, recs))| + free + 2 * (|recs| + 1) == g.nodeSize
    ensures free == g.FreeSpace(|recs|, SizeOf(g, kind))
  {
    EncodedSize(g, f, kind, recs);
    hide FormatOk, Typed, Encoded, SizeOf, Concat;
  }

  // doAddRecord on the page: the place is the one that the numbers give.
  method PageAdd(g: Geometry, f: KeyFormat, kind: Kind, page: Octets, numRecords: nat, rec: Rec, ghost recs: seq<Rec>)
    returns (ok: bool, page': Octets, ghost at: nat)
    requires FormatOk(f, g) && RecordsOk(g, f, kind, recs, page) && numRecords == |recs|
    requires Keeps(g, f, kind, rec) && |recs| < CapOf(g, kind)
    ensures at <= |recs| && (forall j :: 0 <= j < at ==> recs[j].key < rec.key) && (at < |recs| ==> rec.key <= recs[at].key)
    ensures ok <==> !(at < |recs| && recs[at].key == rec.key)
    ensures RecordsOk(g, f, kind, if ok then recs[..at] + [rec] + recs[at..] else recs, page')
    ensures !ok ==> page' == page
  {
    RoomFor(g, f, kind, recs, rec, page);
    EncodedKeyed(g, f, kind, recs);
    RecordsAre(g, f, kind, recs, page);
    assert RecBytes(f, rec) == f.encode(rec.key) + Payload(rec);
    hide *;
    var node := new NodeBytes(page, numRecords, Encoded(f, recs));
    ok, at := node.AddRecord(f.encode(rec.key), Payload(rec), f.compare);
    page' := node.bytes;
    Placed(g, f, kind, recs, rec, at);
    if ok {
      AddedOk(g, f, kind, recs, rec, at, page');
    }
  }

  lemma {:induction false} Placed(g: Geometry, f: KeyFormat, kind: Kind, recs: seq<Rec>, rec: Rec, at: nat)
    requires FormatOk(f, g) && Typed(g, f, kind, recs) && Keeps(g, f, kind, rec) && AllKeyed(Encoded(f, recs))
    requires Position(Encoded(f, recs), f.encode(rec.key), f.compare, at)
    ensures at <= |recs| && (forall j :: 0 <= j < at ==> recs[j].key < rec.key) && (at < |recs| ==> rec.key <= recs[at].key)
    ensures at < |recs| ==> (f.compare(KeyOf(Encoded(f, recs)[at]), f.encode(rec.key)) == 0 <==> recs[at].key == rec.key)
  {
    EncodedKeyed(g, f, kind, recs);
    hide KeyOf, Keyed, RecBytes, Encoded;
    forall j | 0 <= j < |recs| ensures OrderedAs(f.compare(KeyOf(Encoded(f, recs)[j]), f.encode(rec.key)), recs[j].key, rec.key) {
      assert Keeps(g, f, kind, recs[j]);
    }
  }

  lemma {:induction false} AddedOk(g: Geometry, f: KeyFormat, kind: Kind, recs: seq<Rec>, rec: Rec, at: nat, page: Octets)
    requires Typed(g, f, kind, recs) && Keeps(g, f, kind, rec) && at <= |recs| && |page| == g.nodeSize
    requires Layout(page, Encoded(f, recs)[..at] + [RecBytes(f, rec)] + Encoded(f, recs)[at..])
    ensures RecordsOk(g, f, kind, recs[..at] + [rec] + recs[at..], page)
  {
    hide Layout, Encoded, RecBytes, Keeps;
    EncodedInsert(f, recs, at, rec);
  }

  // A record taken out of the page.
  method PageRemove(g: Geometry, f: KeyFormat, kind: Kind, page: Octets, numRecords: nat, i: nat, ghost recs: seq<Rec>)
    returns (page': Octets)
    requires FormatOk(f, g) && RecordsOk(g, f, kind, recs, page) && numRecords == |recs| && i < |recs|
    ensures RecordsOk(g, f, kind, recs[..i] + recs[i + 1..], page')
  {
    RecordsAre(g, f, kind, recs, page);
    hide *;
    var node := new NodeBytes(page, numRecords, Encoded(f, recs));
    node.RemoveRecord(i);
    page' := node.bytes;
    RemovedOk(g, f, kind, recs, i, page');
  }

  lemma {:induction false} RemovedOk(g: Geometry, f: KeyFormat, kind: Kind, recs: seq<Rec>, i: nat, page: Octets)
    requires Typed(g, f, kind, recs) && i < |recs| && |page| == g.nodeSize
    requires Layout(page, Encoded(f, recs)[..i] + Encoded(f, recs)[i + 1..])
    ensures RecordsOk(g, f, kind, recs[..i] + recs[i + 1..], page)
  {
    hide Layout, Encoded, RecBytes, Keeps;
    EncodedRemove(f, recs, i);
  }

  // An index record's key rewritten in the page.
  method PageSetKey(g: Geometry, f: KeyFormat, page: Octets, numRecords: nat, i: nat, key: int, ghost recs: seq<Rec>)
    returns (page': Octets)
    requires FormatOk(f, g) && RecordsOk(g, f, IndexNode, recs, page) && numRecords == |recs| && i < |recs| && 0 <= key < f.limit
    ensures recs[i].PtrRec? && RecordsOk(g, f, IndexNode, recs[i := PtrRec(key, recs[i].node)], page')
  {
    RecordsAre(g, f, IndexNode, recs, page);
    SetReady(g, f, page, recs, i, key);
    hide *;
    var node := new NodeBytes(page, numRecords, Encoded(f, recs));
    node.ReplaceKey(i, f.encode(key));
    page' := node.bytes;
    SetOk(g, f, recs, i, key, page');
  }

  lemma {:induction false} SetReady(g: Geometry, f: KeyFormat, page: Octets, recs: seq<Rec>, i: nat, key: int)
    requires FormatOk(f, g) && RecordsOk(g, f, IndexNode, recs, page) && i < |recs| && 0 <= key < f.limit
    ensures recs[i].PtrRec?
    ensures var r := Encoded(f, recs)[i];
      && Keyed(r) && |r| == |KeyOf(r)| + 4 && f.encode(key) + r[|KeyOf(r)|..] == RecBytes(f, PtrRec(key, recs[i].node))
      && InsertFits(page, Encoded(f, recs)[..i], f.encode(key) + r[|KeyOf(r)|..], Encoded(f, recs)[i + 1..])
  {
    assert Keeps(g, f, IndexNode, recs[i]);
    var new' := PtrRec(key, recs[i].node);
    RecordIs(g, f, IndexNode, recs[i]);
    RecordIs(g, f, IndexNode, new');
    assert Payload(new') == Payload(recs[i]);
    assert |KeyOf(Encoded(f, recs)[i])| == g.keySize by { assert KeyBytes(f.encode(recs[i].key), g.keySize); }
    hide FormatOk, Layout, Typed, Keeps, KeyOf, Keyed, Payload;
    SameRoom(page, Encoded(f, recs), i, RecBytes(f, new'));
  }

  // A record of the same length fits in its place.
  lemma {:induction false} SameRoom(page: Octets, recs: seq<Octets>, i: nat, r: Octets)
    requires Layout(page, recs) && i < |recs| && |r| == |recs[i]|
    ensures InsertFits(page, recs[..i], r, recs[i + 1..])
  {
    hide Region, TableBytes, Offsets;
    var a, x, b := recs[..i], [recs[i]], recs[i + 1..];
    assert recs == a + x + b;
    ConcatConcat(a + x, b);
    ConcatConcat(a, x);
    assert x[1..] == [] && Concat(x) == recs[i] + Concat(x[1..]);
  }

  lemma {:induction false} SetOk(g: Geometry, f: KeyFormat, recs: seq<Rec>, i: nat, key: int, page: Octets)
    requires Typed(g, f, IndexNode, recs) && i < |recs| && 0 <= key < f.limit && |page| == g.nodeSize && recs[i].PtrRec?
    requires Layout(page, Encoded(f, recs)[i := RecBytes(f, PtrRec(key, recs[i].node))])
    ensures RecordsOk(g, f, IndexNode, recs[i := PtrRec(key, recs[i].node)], page)
  {
    hide Layout, Encoded, RecBytes;
    EncodedUpdate(f, recs, i, PtrRec(key, recs[i].node));
  }

  // splitNode on two pages.
  method PageSplit(g: Geometry, f: KeyFormat, kind: Kind, page: Octets, numRecords: nat, other: Octets, ghost recs: seq<Rec>)
    returns (page': Octets, other': Octets)
    requires FormatOk(f, g) && RecordsOk(g, f, kind, recs, page) && numRecords == |recs| && |other| == g.nodeSize
    ensures RecordsOk(g, f, kind, recs[..|recs| / 2], page') && RecordsOk(g, f, kind, recs[|recs| / 2..], other')
  {
    RecordsAre(g, f, kind, recs, page);
    hide *;
    var node := new NodeBytes(page, numRecords, Encoded(f, recs));
    var second := new NodeBytes.OfBytes(other);
    node.SplitNode(second);
    page', other' := node.bytes, second.bytes;
    SplitOk(g, f, kind, recs, page', other');
  }

  lemma {:induction false} SplitOk(g: Geometry, f: KeyFormat, kind: Kind, recs: seq<Rec>, page: Octets, other: Octets)
    requires Typed(g, f, kind, recs) && |page| == |other| == g.nodeSize
    requires Layout(page, Encoded(f, recs)[..|recs| / 2]) && Layout(other, Encoded(f, recs)[|recs| / 2..])
    ensures RecordsOk(g, f, kind, recs[..|recs| / 2], page) && RecordsOk(g, f, kind, recs[|recs| / 2..], other)
  {
    hide Layout, Encoded, RecBytes, Keeps;
    EncodedHalves(f, recs, |recs| / 2);
  }

  // A node written anew: its records one behind the other, and their offsets with the free one.
  function NewPage(page: Octets, recs: seq<Octets>): (r: Octets)
    requires DESCRIPTOR + |Concat(recs)| + 2 * (|recs| + 1) <= |page|
    ensures |r| == |page|
  {
    Splice(Splice(page, DESCRIPTOR, Concat(recs)), |page| - 2 * (|recs| + 1), TableBytes(Offsets(DESCRIPTOR, recs)))
  }

  lemma {:induction false} NewLaidOut(page: Octets, recs: seq<Octets>)
    requires DESCRIPTOR + |Concat(recs)| + 2 * (|recs| + 1) <= |page| < 0x1_0000
    ensures Layout(NewPage(page, recs), recs)
  {
    hide Splice, TableBytes, Offsets, Concat, Region;
    var p1 := Splice(page, DESCRIPTOR, Concat(recs));
    RegionSet(page, DESCRIPTOR, Concat(recs));
    RegionSet(p1, |page| - 2 * (|recs| + 1), TableBytes(Offsets(DESCRIPTOR, recs)));
    RegionKeep(p1, |page| - 2 * (|recs| + 1), TableBytes(Offsets(DESCRIPTOR, recs)), DESCRIPTOR, Concat(recs));
  }

  lemma {:induction false} NewOk(g: Geometry, f: KeyFormat, kind: Kind, page: Octets, recs: seq<Rec>)
    requires FormatOk(f, g) && Typed(g, f, kind, recs) && |recs| <= CapOf(g, kind) && |page| == g.nodeSize
    ensures DESCRIPTOR + |Concat(Encoded(f, recs))| + 2 * (|recs| + 1) <= |page|
    ensures RecordsOk(g, f, kind, recs, NewPage(page, Encoded(f, recs)))
  {
    g.SplitTestIsFull(|recs|, SizeOf(g, kind));
    EncodedSize(g, f, kind, recs);
    hide Typed, Encoded, SizeOf, Layout;
    NewLaidOut(page, Encoded(f, recs));
  }

  /* ----- The pages of a file, changed as its nodes are ----- */

  lemma {:induction false} PageHolds(g: Geometry, f: KeyFormat, nodes: seq<Node>, pages: seq<Octets>, n: nat)
    requires PagesOk(g, f, nodes, pages) && 0 < n < |nodes|
    ensures FormatOk(f, g) && |pages| == |nodes| && |pages[n]| == g.nodeSize
    ensures nodes[n].kind != HeaderNode ==> RecordsOk(g, f, nodes[n].kind, nodes[n].recs, pages[n])
  {
    hide FormatOk, RecordsOk;
  }

  // A node with other records of its kind: the page with those records, and the descriptor.
  lemma {:induction false} Rewrite(g: Geometry, f: KeyFormat, nodes: seq<Node>, pages: seq<Octets>, n: nat, node: Node, page: Octets)
    requires PagesOk(g, f, nodes, pages) && 0 < n < |nodes| && |page| == g.nodeSize
    requires node.kind != HeaderNode ==> RecordsOk(g, f, node.kind, node.recs, page)
    ensures |pages| == |nodes| && PagesOk(g, f, nodes[n := node], pages[n := Described(page, node)])
  {
    hide *;
    DescribedOk(g, f, node, page);
    PagesSet(g, f, nodes, pages, n, node, Described(page, node));
  }

  // writeBTNodeDescriptor with other links.
  method LinkPages(g: Geometry, f: KeyFormat, nodes: seq<Node>, pages: seq<Octets>, n: nat, fLink: nat, bLink: nat)
    returns (pages': seq<Octets>)
    requires PagesOk(g, f, nodes, pages) && 0 < n < |nodes|
    ensures PagesOk(g, f, nodes[n := nodes[n].(fLink := fLink, bLink := bLink)], pages')
  {
    hide PagesOk, RecordsOk, FormatOk;
    PageHolds(g, f, nodes, pages, n);
    var node := nodes[n].(fLink := fLink, bLink := bLink);
    Rewrite(g, f, nodes, pages, n, node, pages[n]);
    pages' := pages[n := Described(pages[n], node)];
  }

  method AddPages(g: Geometry, f: KeyFormat, nodes: seq<Node>, pages: seq<Octets>, n: nat, rec: Rec, i: nat)
    returns (pages': seq<Octets>)
    requires PagesOk(g, f, nodes, pages) && 0 < n < |nodes|
    requires Keeps(g, f, nodes[n].kind, rec) && |nodes[n].recs| < CapOf(g, nodes[n].kind)
    requires i <= |nodes[n].recs| && (forall j :: 0 <= j < i ==> nodes[n].recs[j].key < rec.key)
    requires i < |nodes[n].recs| ==> rec.key < nodes[n].recs[i].key
    ensures PagesOk(g, f, nodes[n := nodes[n].(recs := nodes[n].recs[..i] + [rec] + nodes[n].recs[i..])], pages')
  {
    assert nodes[n].kind != HeaderNode;
    hide PagesOk, RecordsOk, FormatOk, Keeps, CapOf;
    PageHolds(g, f, nodes, pages, n);
    var ok, page, at := PageAdd(g, f, nodes[n].kind, pages[n], |nodes[n].recs|, rec, nodes[n].recs);
    assert at == i && ok;
    var node := nodes[n].(recs := nodes[n].recs[..i] + [rec] + nodes[n].recs[i..]);
    SizeIs(g, f, node.kind, node.recs, page);
    Rewrite(g, f, nodes, pages, n, node, page);
    pages' := pages[n := Described(page, node)];
  }

  lemma {:induction false} SizeIs(g: Geometry, f: KeyFormat, kind: Kind, recs: seq<Rec>, page: Octets)
    requires RecordsOk(g, f, kind, recs, page)
    ensures |page| == g.nodeSize
  {
  }

  method RemovePages(g: Geometry, f: KeyFormat, nodes: seq<Node>, pages: seq<Octets>, n: nat, i: nat) returns (pages': seq<Octets>)
    requires PagesOk(g, f, nodes, pages) && 0 < n < |nodes| && nodes[n].kind != HeaderNode && i < |nodes[n].recs|
    ensures PagesOk(g, f, nodes[n := nodes[n].(recs := nodes[n].recs[..i] + nodes[n].recs[i + 1..])], pages')
  {
    hide PagesOk, RecordsOk, FormatOk;
    PageHolds(g, f, nodes, pages, n);
    var page := PageRemove(g, f, nodes[n].kind, pages[n], |nodes[n].recs|, i, nodes[n].recs);
    var node := nodes[n].(recs := nodes[n].recs[..i] + nodes[n].recs[i + 1..]);
    SizeIs(g, f, node.kind, node.recs, page);
    Rewrite(g, f, nodes, pages, n, node, page);
    pages' := pages[n := Described(page, node)];
  }

  method SetKeyPages(g: Geometry, f: KeyFormat, nodes: seq<Node>, pages: seq<Octets>, n: nat, i: nat, key: int)
    returns (pages': seq<Octets>)
    requires PagesOk(g, f, nodes, pages) && 0 < n < |nodes| && nodes[n].kind == IndexNode && i < |nodes[n].recs|
    requires 0 <= key < f.limit
    ensures nodes[n].recs[i].PtrRec?
    ensures PagesOk(g, f, nodes[n := nodes[n].(recs := nodes[n].recs[i := PtrRec(key, nodes[n].recs[i].node)])], pages')
  {
    hide PagesOk, RecordsOk, FormatOk;
    PageHolds(g, f, nodes, pages, n);
    var page := PageSetKey(g, f, pages[n], |nodes[n].recs|, i, key, nodes[n].recs);
    var node := nodes[n].(recs := nodes[n].recs[i := PtrRec(key, nodes[n].recs[i].node)]);
    SizeIs(g, f, node.kind, node.recs, page);
    Rewrite(g, f, nodes, pages, n, node, page);
    pages' := pages[n := Described(page, node)];
  }

  method SplitPages(g: Geometry, f: KeyFormat, nodes: seq<Node>, pages: seq<Octets>, n: nat, added: nat) returns (pages': seq<Octets>)
    requires PagesOk(g, f, nodes, pages) && 0 < n < |nodes| && 0 < added < |nodes| && n != added
    requires nodes[n].kind != HeaderNode && nodes[n].fLink < |nodes|
    ensures PagesOk(g, f, SplitNodes(nodes, n, added), pages')
  {
    hide PagesOk, RecordsOk, FormatOk;
    PageHolds(g, f, nodes, pages, n);
    PageHolds(g, f, nodes, pages, added);
    var d := nodes[n];
    var m := |d.recs| / 2;
    var left, right := PageSplit(g, f, d.kind, pages[n], |d.recs|, pages[added], d.recs);
    var second := Node(d.kind, d.height, d.fLink, n, d.recs[m..]);
    SizeIs(g, f, d.kind, d.recs[..m], left);
    SizeIs(g, f, d.kind, d.recs[m..], right);
    Rewrite(g, f, nodes, pages, added, second, right);
    var nodes' := nodes[added := second];
    pages' := pages[added := Described(right, second)];
    if d.fLink != 0 {
      pages' := LinkPages(g, f, nodes', pages', d.fLink, nodes'[d.fLink].fLink, added);
      nodes' := nodes'[d.fLink := nodes'[d.fLink].(bLink := added)];
    }
    var first := nodes'[n].(fLink := added, recs := d.recs[..m]);
    Rewrite(g, f, nodes', pages', n, first, left);
    pages' := pages'[n := Described(left, first)];
  }

  // A node written anew, as increaseHeight and the first insertion do.
  function Page(g: Geometry, f: KeyFormat, node: Node, page: Octets): Octets {
    if DESCRIPTOR + |Concat(Encoded(f, node.recs))| + 2 * (|node.recs| + 1) <= |page| then
      Described(NewPage(page, Encoded(f, node.recs)), node)
    else page
  }

  lemma {:induction false} PageIs(g: Geometry, f: KeyFormat, node: Node, page: Octets)
    requires FormatOk(f, g) && Typed(g, f, node.kind, node.recs) && |node.recs| <= CapOf(g, node.kind) && |page| == g.nodeSize
    ensures PageOk(g, f, node, Page(g, f, node, page))
  {
    NewOk(g, f, node.kind, page, node.recs);
    hide FormatOk, Typed, CapOf, RecordsOk, NewPage, Encoded, Concat;
    DescribedOk(g, f, node, NewPage(page, Encoded(f, node.recs)));
  }

  method NewPages(g: Geometry, f: KeyFormat, nodes: seq<Node>, pages: seq<Octets>, n: nat, node: Node) returns (pages': seq<Octets>)
    requires PagesOk(g, f, nodes, pages) && 0 < n < |nodes|
    requires Typed(g, f, node.kind, node.recs) && |node.recs| <= CapOf(g, node.kind)
    ensures PagesOk(g, f, nodes[n := node], pages')
  {
    hide *;
    PageHolds(g, f, nodes, pages, n);
    PageIs(g, f, node, pages[n]);
    PagesSet(g, f, nodes, pages, n, node, Page(g, f, node, pages[n]));
    pages' := pages[n := Page(g, f, node, pages[n])];
  }

  // The key of any record can be written.
  lemma {:induction false} KeyInRange(g: Geometry, f: KeyFormat, nodes: seq<Node>, pages: seq<Octets>, n: nat, i: nat)
    requires PagesOk(g, f, nodes, pages) && 0 < n < |nodes| && nodes[n].kind != HeaderNode && i < |nodes[n].recs|
    ensures 0 <= nodes[n].recs[i].key < f.limit
  {
    assert PageOk(g, f, nodes[n], pages[n]);
    hide FormatOk, Layout;
    assert Keeps(g, f, nodes[n].kind, nodes[n].recs[i]);
  }

  function Blank(g: Geometry): (r: Octets)
    ensures |r| == g.nodeSize
  {
    seq(g.nodeSize, i => 0)
  }

  lemma {:induction false} BlankPages(g: Geometry, f: KeyFormat, total: nat)
    requires FormatOk(f, g)
    ensures PagesOk(g, f, seq(total, _ => Node(HeaderNode, 0, 0, 0, [])), seq(total, _ => Blank(g)))
  {
    hide FormatOk, Blank;
  }
}
