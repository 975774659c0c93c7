/**
  hfs/btree.c: search, insertion with splits, removal with index-key repair,
  and the node bitmap, over a store of nodes and their bytes that the methods rewrite in place.
 */
module BTreeFile {
  import opened BTreeModel
  import opened BTreeInsert
  import opened BTreeMap
  import opened BTreeRemove
  import opened BTreeScan
  import opened Bitmap
  import opened NodePages
  import opened Regions
  import KeyOrder

  ghost predicate HeaderOk(g: Geometry, nodes: seq<Node>, total: nat) {
    g.Roomy() && g.nodeSize >= 16 && |nodes| == total && 0 < total && nodes[0].fLink == 0 && nodes[0].height == 0
  }

  // The allocated nodes are node 0 and these.
  ghost predicate OnlyUses(used: seq<bool>, ids: set<nat>, total: nat) {
    total <= |used| && forall n :: 0 <= n < total ==> (used[n] <==> (n == 0 || n in ids))
  }

  // freeNodes counts the clear bits below totalNodes.
  ghost predicate BitmapOk(used: seq<bool>, freeNodes: nat, total: nat) {
    0 < total <= |used| && used[0] && freeNodes == CountFree(used[..total])
  }

  lemma {:induction false} BitFreed(used: seq<bool>, freeNodes: nat, total: nat, n: nat)
    requires BitmapOk(used, freeNodes, total) && 0 < n < total && used[n]
    ensures BitmapOk(used[n := false], freeNodes + 1, total)
  {
    CountFlip(used[..total], n, false);
    assert used[n := false][..total] == used[..total][n := false];
  }

  lemma {:induction false} DoneParts(s: Store, s': Store, g: Geometry, id: nat, kids: seq<Tree>, kids': seq<Tree>, h: nat,
                       left: seq<seq<nat>>, right: seq<seq<nat>>, i: nat, p: nat, e: Entry, newChild: nat)
    requires ChildDone(s, s', g, id, kids, kids', h, left, right, i, p, e, newChild)
    ensures Mid(s, s', g, id, kids, kids', h, left, right) && id < |s'.nodes|
    ensures |kids'| == |kids| + (if newChild == 0 then 0 else 1)
    ensures newChild == 0 ==> s'.nodes[id].recs == RecsOf(kids')
    ensures newChild != 0 ==> MissesOne(s'.nodes[id].recs, kids', Chosen(i) + 1) && Chosen(i) + 1 < |kids'| && kids'[Chosen(i) + 1].id == newChild
    ensures GapAt(ContentsF(kids), p, e.key) && ContentsF(kids') == InsertAt(ContentsF(kids), p, e)
  {
  }

  lemma {:induction false} KindOf(g: Geometry, f: KeyFormat, kind: Kind, rec: Rec)
    requires Keeps(g, f, kind, rec)
    ensures kind != HeaderNode
  {
  }

  // Half of a full node is not full.
  lemma {:induction false} HalfFits(n: nat, at: nat, inLeft: bool, cap: nat)
    requires HalfOk(n, at, inLeft) && n <= cap
    ensures n / 2 < cap && n - n / 2 < cap
  {
  }

  lemma {:induction false} HalfIs(node: nat, added: nat, inLeft: bool)
    ensures HalfOf(node, added, inLeft) == if inLeft then node else added
  {
  }

  // The half of a split node that a record goes to, and its place there.
  function HalfOf(node: nat, added: nat, inLeft: bool): nat { if inLeft then node else added }

  function PlaceIn(n: nat, at: nat, inLeft: bool): int { if inLeft then at else at - n / 2 }

  ghost predicate Between(recs: seq<Rec>, at: int, key: int) {
    && SortedRecs(recs) && 0 <= at <= |recs|
    && (at > 0 ==> recs[at - 1].key < key) && (at < |recs| ==> key < recs[at].key)
  }

  lemma {:induction false} HalfBetween(recs: seq<Rec>, n: nat, at: nat, inLeft: bool, key: int)
    requires Between(recs, at, key) && |recs| == n && HalfOk(n, at, inLeft)
    ensures Between(if inLeft then recs[..n / 2] else recs[n / 2..], PlaceIn(n, at, inLeft), key)
  {
    HalfSorted(recs, n, at, inLeft, key);
    hide SortedRecs;
  }

  lemma {:induction false} SplitHalf(nodes: seq<Node>, node: nat, added: nat, inLeft: bool)
    requires 0 < node < |nodes| && 0 < added < |nodes| && node != added && nodes[node].fLink < |nodes|
    ensures var split, n := SplitNodes(nodes, node, added), |nodes[node].recs|;
      && |split| == |nodes| && |split[node].recs| == n / 2 && |split[added].recs| == n - n / 2
      && split[HalfOf(node, added, inLeft)].recs == (if inLeft then nodes[node].recs[..n / 2] else nodes[node].recs[n / 2..])
      && split[HalfOf(node, added, inLeft)].height == nodes[node].height
      && split[HalfOf(node, added, inLeft)].kind == nodes[node].kind
  {
  }

  lemma {:induction false} SplitWithIs(split: seq<Node>, id: nat, added: nat, n: nat, at: nat, inLeft: bool, rec: Rec)
    requires id < |split| && added < |split| && HalfOk(n, at, inLeft)
    requires |split[id].recs| == n / 2 && |split[added].recs| == n - n / 2
    ensures 0 <= PlaceIn(n, at, inLeft) <= |split[HalfOf(id, added, inLeft)].recs|
    ensures SplitWith(split, id, added, n, at, inLeft, rec)
         == WithRecord(split, HalfOf(id, added, inLeft), PlaceIn(n, at, inLeft), rec)
  {
  }

  lemma {:induction false} PlaceBetween(recs: seq<Rec>, key: int, at: int, p: nat)
    requires Between(recs, at, key) && p <= |recs|
    requires (forall j :: 0 <= j < p ==> recs[j].key < key) && (p < |recs| ==> key <= recs[p].key)
    ensures p == at && (p < |recs| ==> recs[p].key != key)
  {
    PlaceIsUnique(recs, key, at, p);
  }

  // The free-space test tells whether a leaf is full; a full one has two halves.
  lemma {:induction false} LeafFits(g: Geometry, n: nat, i: nat)
    requires g.Roomy() && n <= g.LeafCap() && i <= n
    ensures CapOf(g, LeafNode) == g.LeafCap() && SizeOf(g, LeafNode) == g.LeafRecSize()
    ensures g.FreeSpace(n, g.LeafRecSize()) < g.LeafRecSize() + 2 <==> n >= g.LeafCap()
    ensures n >= g.LeafCap() ==> HalfOk(n, i, i < n / 2)
  {
    g.SplitTestIsFull(n, g.LeafRecSize());
  }

  lemma {:induction false} LeafBetween(ents: seq<Entry>, i: nat, key: int)
    requires Sorted(ents) && GapAt(ents, i, key)
    ensures |EntryRecs(ents)| == |ents| && i <= |ents| && Between(EntryRecs(ents), i, key)
  {
    LeafRecsSorted(ents, i, key);
  }

  lemma {:induction false} IndexRoom(g: Geometry, f: KeyFormat, rec: Rec)
    requires rec.PtrRec? && 0 <= rec.key < f.limit
    ensures CapOf(g, IndexNode) == g.IndexCap() == g.Cap(g.IndexRecSize()) && SizeOf(g, IndexNode) == g.IndexRecSize() && Keeps(g, f, IndexNode, rec)
  {
  }

  lemma {:induction false} TwoPointers(g: Geometry, f: KeyFormat, a: Rec, b: Rec)
    requires a.PtrRec? && b.PtrRec? && 0 <= a.key < f.limit && 0 <= b.key < f.limit && g.Roomy()
    ensures Typed(g, f, IndexNode, [a, b]) && 2 <= CapOf(g, IndexNode)
  {
  }

  lemma {:induction false} OneRecord(g: Geometry, f: KeyFormat, a: Rec)
    requires Keeps(g, f, LeafNode, a) && g.Roomy()
    ensures Typed(g, f, LeafNode, [a]) && 1 <= CapOf(g, LeafNode)
  {
  }

  lemma {:induction false} SameNodes(nodes: seq<Node>, n: nat)
    requires n < |nodes|
    ensures nodes[n := nodes[n].(recs := nodes[n].recs)] == nodes
  {
  }

  lemma {:induction false} HalfOrWhole(g: Geometry, nodes: seq<Node>, total: nat, id: nat, p: nat, rec: Rec, n: nat, i: nat)
    requires HeaderOk(g, nodes, total) && 0 < id < |nodes| && p <= |nodes[id].recs| && i <= n
    ensures |nodes| == total
    ensures WithRecord(nodes, id, p, rec)
         == nodes[id := nodes[id].(recs := nodes[id].recs[..p] + [rec] + nodes[id].recs[p..])]
    ensures n >= 2 ==> HalfOk(n, Chosen(i) + 1, i < n / 2)
    ensures g.FreeSpace(n, g.IndexRecSize()) < g.IndexRecSize() + 2 <==> n >= g.IndexCap()
    ensures g.IndexCap() >= 2
  {
    g.SplitTestIsFull(n, g.IndexRecSize());
  }

  lemma {:induction false} OneLeafMap(g: Geometry, totalNodes: nat, ents: seq<Entry>)
    requires totalNodes > 1 && Sorted(ents) && 1 <= |ents| <= g.LeafCap()
    ensures var s := Store(seq(totalNodes, _ => Node(HeaderNode, 0, 0, 0, []))[1 := Node(LeafNode, 1, 0, 0, EntryRecs(ents))],
                           seq(totalNodes, i => i == 0)[1 := true]);
      && BitmapOk(s.used, totalNodes - 2, totalNodes)
      && Before(s, g, Leaf(1, ents), 1, NoRows(1), NoRows(1)) && Level(Leaf(1, ents), 1, 1) == [1]
      && Contents(Leaf(1, ents)) == ents && Ids(Leaf(1, ents)) == {1} && OnlyUses(s.used, {1}, totalNodes)
  {
    hide EntryRecs, Before, Level, NoRows, Sorted;
    var nodes, used := seq(totalNodes, _ => Node(HeaderNode, 0, 0, 0, [])), seq(totalNodes, i => i == 0);
    FreshMap(used);
    CountFlip(used, 1, true);
    assert used[..totalNodes] == used && used[1 := true][..totalNodes] == used[1 := true];
    var s', t := FirstLeaf(Store(nodes, used), g, 1, ents);
  }

  class BTree {
    const g: Geometry
    const format: KeyFormat
    const totalNodes: nat
    // The nodes as they are read, and their bytes.
    var nodes: seq<Node>
    var pages: seq<Octets>
    var used: seq<bool>
    var freeNodes: nat
    var rootNode: nat
    var treeDepth: nat
    var leafRecords: int
    var firstLeafNode: nat
    var lastLeafNode: nat
    ghost var tree: Tree

    // A tree file with no node but the header.
    constructor (g: Geometry, format: KeyFormat, totalNodes: nat)
      requires g.Roomy() && FormatOk(format, g) && totalNodes > 0
      ensures Valid() && rootNode == 0 && Bindings() == [] && freeNodes == totalNodes - 1
      ensures this.g == g && this.format == format && this.totalNodes == totalNodes
    {
      this.g, this.format, this.totalNodes := g, format, totalNodes;
      nodes := seq(totalNodes, _ => Node(HeaderNode, 0, 0, 0, []));
      pages := seq(totalNodes, _ => Blank(g));
      used := seq(totalNodes, i => i == 0);
      freeNodes := totalNodes - 1;
      rootNode, treeDepth, leafRecords, firstLeafNode, lastLeafNode := 0, 0, 0, 0, 0;
      tree := Leaf(0, []);
      new;
      FreshMap(used[..totalNodes]);
      hide FormatOk;
    }

    // A tree file with one leaf.
    constructor OneLeaf(g: Geometry, format: KeyFormat, totalNodes: nat, ents: seq<Entry>)
      requires g.Roomy() && FormatOk(format, g) && totalNodes > 1 && Sorted(ents) && 1 <= |ents| <= g.LeafCap()
      requires Typed(g, format, LeafNode, EntryRecs(ents))
      ensures Valid() && rootNode == 1 && Bindings() == ents && tree == Leaf(1, ents)
      ensures this.g == g && this.format == format && this.totalNodes == totalNodes
    {
      this.g, this.format, this.totalNodes := g, format, totalNodes;
      pages := seq(totalNodes, _ => Blank(g))[1 := Page(g, format, Node(LeafNode, 1, 0, 0, EntryRecs(ents)), Blank(g))];
      nodes := seq(totalNodes, _ => Node(HeaderNode, 0, 0, 0, []))[1 := Node(LeafNode, 1, 0, 0, EntryRecs(ents))];
      used := seq(totalNodes, i => i == 0)[1 := true];
      freeNodes := totalNodes - 2;
      rootNode, treeDepth, leafRecords, firstLeafNode, lastLeafNode := 1, 1, |ents|, 1, 1;
      tree := Leaf(1, ents);
      new;
      OneLeafMap(g, totalNodes, ents);
      PageIs(g, format, Node(LeafNode, 1, 0, 0, EntryRecs(ents)), Blank(g));
      BlankPages(g, format, totalNodes);
      hide FormatOk, PagesOk, PageOk, Typed, EntryRecs, Page, Blank, Before, Contents, Ids, Level, OnlyUses, BitmapOk;
      PagesSet(g, format, seq(totalNodes, _ => Node(HeaderNode, 0, 0, 0, [])), seq(totalNodes, _ => Blank(g)), 1,
               Node(LeafNode, 1, 0, 0, EntryRecs(ents)), pages[1]);
    }

    function St(): Store
      reads this
    {
      Store(nodes, used)
    }

    // The header node and its bitmap; the map has no further nodes.
    ghost predicate MapOk()
      reads this`nodes, this`pages, this`used, this`freeNodes
    {
      && HeaderOk(g, nodes, totalNodes) && BitmapOk(used, freeNodes, totalNodes)
      && PagesOk(g, format, nodes, pages)
    }

    // A binding that a leaf of this file can hold.
    predicate CanHold(key: int, data: Data) { Keeps(g, format, LeafNode, LeafRec(key, data)) }

    // The whole file: an allocated node is the header or a node of the tree, the header's
    // counts and links are exact, and the tree hangs below rootNode.
    ghost predicate Valid()
      reads this
    {
      && MapOk()
      && (rootNode == 0 ==>
        && firstLeafNode == 0 && lastLeafNode == 0 && leafRecords == 0
        && OnlyUses(used, {}, totalNodes))
      && (rootNode != 0 ==>
        && treeDepth >= 1 && tree.id == rootNode
        && Before(St(), g, tree, treeDepth, NoRows(treeDepth), NoRows(treeDepth))
        && Ends(Level(tree, treeDepth, 1))
        && leafRecords == |Contents(tree)|
        && OnlyUses(used, Ids(tree), totalNodes))
    }

    // The bindings the tree holds, in key order.
    ghost function Bindings(): seq<Entry>
      reads this
    {
      if rootNode == 0 then [] else Contents(tree)
    }

    ghost function Model(): map<int, Data>
      reads this
    {
      MapOf(Bindings())
    }

    // findFree: take the first clear bit of the map in the header node, 0 when there is none.
    method FindFree() returns (r: nat)
      requires MapOk()
      modifies this`used, this`freeNodes
      ensures old(freeNodes) > 0 ==>
        && MapOk() && 0 < r < totalNodes && !old(used)[r]
        && (forall m :: 0 <= m < r ==> old(used)[m])
        && used == old(used)[r := true] && freeNodes == old(freeNodes) - 1
    {
      ghost var u := used[..totalNodes];
      ghost var f := 0;
      if freeNodes > 0 {
        f := SomeFree(u);
      }
      hide PagesOk;
      var n := 0;
      while n < |used|
        invariant n <= |used|
        invariant forall m :: 0 <= m < n ==> used[m]
        invariant used == old(used) && freeNodes == old(freeNodes)
        invariant freeNodes > 0 ==> n <= f
      {
        if !used[n] {
          if old(freeNodes) > 0 {
            CountFlip(u, n, true);
            assert used[n := true][..totalNodes] == u[n := true];
          }
          freeNodes := if freeNodes > 0 then freeNodes - 1 else 0xFFFF_FFFF;
          used := used[n := true];
          return n;
        }
        n := n + 1;
      }
      return 0;
    }

    // getNewNode: there is a clear bit, so the file is not grown.
    method GetNewNode() returns (r: nat)
      requires MapOk() && freeNodes > 0
      modifies this`used, this`freeNodes
      ensures MapOk() && 0 < r < totalNodes && !old(used)[r]
      ensures used == old(used)[r := true] && freeNodes == old(freeNodes) - 1
    {
      r := FindFree();
    }

    method SplitNode(node: nat) returns (added: nat)
      requires MapOk() && freeNodes > 0
      requires 0 < node < totalNodes && nodes[node].fLink < totalNodes && used[node] && nodes[node].kind != HeaderNode
      modifies this`nodes, this`pages, this`used, this`freeNodes, this`lastLeafNode
      ensures MapOk() && 0 < added < totalNodes && !old(used)[added] && added != node
      ensures used == old(used)[added := true] && freeNodes == old(freeNodes) - 1
      ensures nodes == SplitNodes(old(nodes), node, added)
      ensures lastLeafNode ==
        if old(nodes)[node].kind == LeafNode && node == old(lastLeafNode) then added else old(lastLeafNode)
    {
      hide PagesOk;
      var d := nodes[node];
      var m := |d.recs| / 2;
      added := GetNewNode();
      pages := SplitPages(g, format, nodes, pages, node, added);
      nodes := nodes[added := Node(d.kind, d.height, d.fLink, node, d.recs[m..])];
      if d.fLink != 0 {
        nodes := nodes[d.fLink := nodes[d.fLink].(bLink := added)];
      }
      nodes := nodes[node := nodes[node].(fLink := added, recs := d.recs[..m])];
      if d.kind == LeafNode && node == lastLeafNode {
        lastLeafNode := added;
      }
    }

    // doAddRecord: insert before the first larger key; refuse a key that is there.
    method DoAddRecord(node: nat, rec: Rec) returns (ok: bool, ghost p: nat)
      requires MapOk() && 0 < node < totalNodes
      requires Keeps(g, format, nodes[node].kind, rec) && |nodes[node].recs| < CapOf(g, nodes[node].kind)
      modifies this`nodes, this`pages, this`leafRecords
      ensures MapOk() && p <= |old(nodes)[node].recs|
      ensures forall j :: 0 <= j < p ==> old(nodes)[node].recs[j].key < rec.key
      ensures p < |old(nodes)[node].recs| ==> rec.key <= old(nodes)[node].recs[p].key
      ensures ok == !(p < |old(nodes)[node].recs| && old(nodes)[node].recs[p].key == rec.key)
      ensures nodes == if ok then WithRecord(old(nodes), node, p, rec) else old(nodes)
      ensures leafRecords == old(leafRecords) + (if ok && old(nodes)[node].height == 1 then 1 else 0)
    {
      hide PagesOk, Keeps;
      var recs := nodes[node].recs;
      var i := 0;
      while i < |recs|
        invariant i <= |recs|
        invariant forall j :: 0 <= j < i ==> recs[j].key < rec.key
      {
        if recs[i].key == rec.key {
          return false, i;
        } else if recs[i].key > rec.key {
          break;
        }
        i := i + 1;
      }
      pages := AddPages(g, format, nodes, pages, node, rec, i);
      nodes := nodes[node := nodes[node].(recs := recs[..i] + [rec] + recs[i..])];
      if nodes[node].height == 1 {
        leafRecords := leafRecords + 1;
      }
      return true, i;
    }

    lemma {:induction false} MapIs()
      requires MapOk()
      ensures |nodes| == totalNodes && |used| >= totalNodes && PagesOk(g, format, nodes, pages) && g.Roomy()
    {
      hide PagesOk, CountFree, Geometry.Roomy;
    }

    lemma {:induction false} MapParts()
      requires MapOk()
      ensures HeaderOk(g, nodes, totalNodes) && BitmapOk(used, freeNodes, totalNodes) && PagesOk(g, format, nodes, pages)
    {
    }

    lemma {:induction false} MapWhole()
      requires HeaderOk(g, nodes, totalNodes) && BitmapOk(used, freeNodes, totalNodes) && PagesOk(g, format, nodes, pages)
      ensures MapOk()
    {
    }

    lemma {:induction false} KeyFits(key: int, data: Data)
      requires CanHold(key, data)
      ensures 0 <= key < format.limit
    {
    }

    // Split a full node, then add the record to the half that search position i points into.
    method SplitAndAdd(node: nat, rec: Rec, i: nat, ghost at: nat) returns (added: nat)
      requires MapOk() && freeNodes > 0
      requires 0 < node < totalNodes && nodes[node].fLink < totalNodes && used[node]
      requires Between(nodes[node].recs, at, rec.key) && HalfOk(|nodes[node].recs|, at, i < |nodes[node].recs| / 2)
      requires Keeps(g, format, nodes[node].kind, rec) && |nodes[node].recs| <= CapOf(g, nodes[node].kind)
      modifies this`nodes, this`pages, this`used, this`freeNodes, this`leafRecords, this`lastLeafNode
      ensures MapOk() && 0 < added < totalNodes && !old(used)[added] && added != node
      ensures used == old(used)[added := true] && freeNodes == old(freeNodes) - 1
      ensures var n, split := |old(nodes)[node].recs|, SplitNodes(old(nodes), node, added);
        && |split[node].recs| == n / 2 && |split[added].recs| == n - n / 2
        && nodes == SplitWith(split, node, added, n, at, i < n / 2, rec)
      ensures leafRecords == old(leafRecords) + (if old(nodes)[node].height == 1 then 1 else 0)
      ensures lastLeafNode ==
        if old(nodes)[node].kind == LeafNode && node == old(lastLeafNode) then added else old(lastLeafNode)
    {
      hide *;
      MapIs();
      ghost var recs := nodes[node].recs;
      ghost var n := |recs|;
      KindOf(g, format, nodes[node].kind, rec);
      HalfFits(n, at, i < n / 2, CapOf(g, nodes[node].kind));
      HalfBetween(recs, n, at, i < n / 2, rec.key);
      added := SplitNode(node);
      SplitHalf(old(nodes), node, added, i < n / 2);
      SplitHalf(old(nodes), node, added, !(i < n / 2));
      SplitWithIs(nodes, node, added, n, at, i < n / 2, rec);
      var half := if i < |nodes[node].recs| then node else added;
      HalfIs(node, added, i < n / 2);
      ghost var split := nodes;
      var ok, p := DoAddRecord(half, rec);
      PlaceBetween(split[half].recs, rec.key, PlaceIn(n, at, i < n / 2), p);
    }

    method GetFreeSpace(node: nat) returns (free: int)
      requires MapOk() && 0 < node < totalNodes && nodes[node].kind != HeaderNode
      ensures free == g.FreeSpace(|nodes[node].recs|, SizeOf(g, nodes[node].kind))
    {
      hide *;
      MapIs();
      PageHolds(g, format, nodes, pages, node);
      free := PageFreeSpace(g, format, nodes[node].kind, pages[node], |nodes[node].recs|, nodes[node].recs);
    }

    // A page's key written over another, its node number kept.
    method SetKey(node: nat, i: nat, key: int)
      requires MapOk() && 0 < node < totalNodes && nodes[node].kind == IndexNode && i < |nodes[node].recs|
      requires 0 <= key < format.limit
      modifies this`nodes, this`pages
      ensures MapOk() && old(nodes)[node].recs[i].PtrRec?
      ensures nodes == old(nodes)[node := old(nodes)[node].(recs := old(nodes)[node].recs[i := PtrRec(key, old(nodes)[node].recs[i].node)])]
    {
      hide PagesOk, FormatOk;
      pages := SetKeyPages(g, format, nodes, pages, node, i, key);
      nodes := nodes[node := nodes[node].(recs := nodes[node].recs[i := PtrRec(key, nodes[node].recs[i].node)])];
    }

    // A record taken out of a node.
    method TakeRecord(node: nat, i: nat)
      requires MapOk() && 0 < node < totalNodes && nodes[node].kind != HeaderNode && i < |nodes[node].recs|
      modifies this`nodes, this`pages
      ensures MapOk() && nodes == old(nodes)[node := old(nodes)[node].(recs := Without(old(nodes)[node].recs, i))]
    {
      hide PagesOk, FormatOk;
      pages := RemovePages(g, format, nodes, pages, node, i);
      nodes := nodes[node := nodes[node].(recs := Without(nodes[node].recs, i))];
    }

    // A node written anew.
    method PutNode(node: nat, n: Node)
      requires MapOk() && 0 < node < totalNodes && Typed(g, format, n.kind, n.recs) && |n.recs| <= CapOf(g, n.kind)
      modifies this`nodes, this`pages
      ensures MapOk() && nodes == old(nodes)[node := n]
    {
      hide PagesOk, FormatOk, Typed, CapOf;
      pages := NewPages(g, format, nodes, pages, node, n);
      nodes := nodes[node := n];
    }

    // A node's links.
    method Relink(node: nat, fLink: nat, bLink: nat)
      requires MapOk() && 0 < node < totalNodes
      modifies this`nodes, this`pages
      ensures MapOk() && nodes == old(nodes)[node := old(nodes)[node].(fLink := fLink, bLink := bLink)]
    {
      hide PagesOk, FormatOk;
      pages := LinkPages(g, format, nodes, pages, node, fLink, bLink);
      nodes := nodes[node := nodes[node].(fLink := fLink, bLink := bLink)];
    }

    // Leaf level of what lies left of, in and right of a forest of height h.
    ghost function Leaves(left: seq<seq<nat>>, ts: seq<Tree>, right: seq<seq<nat>>, h: nat): seq<nat>
      requires |left| == |right| == h + 1 && h >= 1
    {
      left[1] + LevelF(ts, h, 1) + right[1]
    }

    ghost predicate Ends(c: seq<nat>)
      reads this`firstLeafNode, this`lastLeafNode
    {
      firstLeafNode == First(c) && lastLeafNode == Last(c)
    }

    // The leaf branch of addRecord.
    method AddToLeaf(root: nat, key: int, data: Data, i: nat, ghost ents: seq<Entry>,
                     ghost left: seq<seq<nat>>, ghost right: seq<seq<nat>>)
      returns (newNode: nat, ghost ts: seq<Tree>)
      requires MapOk() && freeNodes > 0
      requires Before(St(), g, Leaf(root, ents), 1, left, right)
      requires Ends(Leaves(left, [Leaf(root, ents)], right, 1))
      requires GapAt(ents, i, key) && CanHold(key, data)
      modifies this`nodes, this`pages, this`used, this`freeNodes, this`leafRecords, this`lastLeafNode
      ensures MapOk()
      ensures Inserted(old(St()), St(), g, Leaf(root, ents), 1, ts, i, Entry(key, data), newNode)
      ensures Chains(St(), left, ts, right, 1)
      ensures Ends(Leaves(left, ts, right, 1))
      ensures leafRecords == old(leafRecords) + 1
      ensures freeNodes == old(freeNodes) - (if newNode == 0 then 0 else 1)
    {
      hide MapOk, PagesOk, Keeps, Before, Chains, Chain, Inserted, SortedRecs, EntryRecs, LevelF, SplitNodes, SplitWith, WithRecord, GapAt, HalfOk,
        IdsOk, Sorted, Between, CapOf, SizeOf, Geometry.FreeSpace, Geometry.LeafRecSize, Geometry.Cap, Geometry.LeafCap, Geometry.Roomy;
      MapIs();
      ghost var s := St();
      ghost var e := Entry(key, data);
      LeafBefore(s, g, root, ents, left, right);
      LeafBetween(ents, i, key);
      EndsSplit(nodes, used, left[1], root, right[1], 0, 1);
      var n := |nodes[root].recs|;
      LeafFits(g, n, i);
      var freeSpace := GetFreeSpace(root);
      if freeSpace < g.LeafRecSize() + 2 {
        newNode := SplitAndAdd(root, LeafRec(key, data), i, i);
        ghost var s1, s2;
        s1, s2, ts := LeafTwo(s, g, root, ents, left, right, i, e, newNode, i < n / 2);
        EndsSplit(s.nodes, s.used, left[1], root, right[1], newNode, 1);
      } else {
        ghost var s1;
        s1, ts := LeafOne(s, g, root, ents, left, right, i, e);
        var ok, p := DoAddRecord(root, LeafRec(key, data));
        PlaceBetween(s.nodes[root].recs, key, i, p);
        newNode := 0;
      }
    }

    // addRecord: the subtree at root gains the binding, or already has the key and stays as it is.
    method AddRecord(root: nat, key: int, data: Data, ghost t: Tree, ghost h: nat,
                     ghost left: seq<seq<nat>>, ghost right: seq<seq<nat>>)
      returns (newNode: nat, ghost ts: seq<Tree>, ghost p: nat)
      requires MapOk() && h >= 1 && freeNodes >= h && t.id == root && CanHold(key, data)
      requires Before(St(), g, t, h, left, right)
      requires Ends(Leaves(left, [t], right, h))
      modifies this`nodes, this`pages, this`used, this`freeNodes, this`leafRecords, this`lastLeafNode
      decreases h, 2
      ensures MapOk()
      ensures HasKey(Contents(t), key) ==> newNode == 0 && ts == [t] && unchanged(this)
      ensures !HasKey(Contents(t), key) ==>
        && Inserted(old(St()), St(), g, t, h, ts, p, Entry(key, data), newNode)
        && Chains(St(), left, ts, right, h)
        && Ends(Leaves(left, ts, right, h))
        && leafRecords == old(leafRecords) + 1
        && freeNodes >= old(freeNodes) - (if newNode == 0 then h - 1 else h)
    {
      hide MapOk, CanHold, Chains, Inserted, LevelF, ContentsF;
      NodeAt(St(), g, t, h);
      var recs := nodes[root].recs;
      var i := 0;
      while i < |recs|
        invariant i <= |recs|
        invariant forall j :: 0 <= j < i ==> recs[j].key < key
        invariant unchanged(this)
      {
        if recs[i].key == key {
          KeyFound(St(), g, t, h, i);
          return 0, [t], 0;
        } else if recs[i].key > key {
          break;
        }
        i := i + 1;
      }
      if nodes[root].kind == LeafNode {
        LeafGap(St(), g, t, h, i, key);
        p := i;
        newNode, ts := AddToLeaf(root, key, data, i, t.ents, left, right);
      } else {
        newNode, ts, p := AddToIndex(root, key, data, i, t.kids, h, left, right);
      }
    }

    // A key below all others becomes the first key of the node.
    method LowerKey(root: nat, i: nat, key: int)
      requires MapOk() && 0 < root < totalNodes && nodes[root].kind == IndexNode && nodes[root].recs != [] && 0 <= key < format.limit
      modifies this`nodes, this`pages
      ensures MapOk() && old(|nodes|) == totalNodes && St() == WithRecs(old(St()), root, Lowered(old(nodes)[root].recs, i, key))
      ensures i > 0 ==> unchanged(this)
    {
      hide MapOk;
      MapIs();
      SameNodes(nodes, root);
      if i == 0 {
        SetKey(root, 0, key);
      }
    }

    // The index branch of addRecord, down to the child and back.
    method AddBelow(root: nat, key: int, data: Data, i: nat, ghost kids: seq<Tree>, ghost h: nat,
                    ghost left: seq<seq<nat>>, ghost right: seq<seq<nat>>)
      returns (newChild: nat, ghost kids': seq<Tree>, ghost p: nat)
      requires MapOk() && h >= 2 && freeNodes >= h && CanHold(key, data)
      requires Before(St(), g, Index(root, kids), h, left, right)
      requires Ends(Leaves(left, [Index(root, kids)], right, h))
      requires root < |nodes| && SearchedTo(nodes[root].recs, i, key)
      modifies this`nodes, this`pages, this`used, this`freeNodes, this`leafRecords, this`lastLeafNode
      decreases h, 0
      ensures MapOk()
      ensures HasKey(ContentsF(kids), key) ==> newChild == 0 && unchanged(this)
      ensures !HasKey(ContentsF(kids), key) ==>
        && |left| == |right| == h + 1 && ChildDone(old(St()), St(), g, root, kids, kids', h, left, right, i, p, Entry(key, data), newChild)
        && Ends(left[1] + LevelF(kids', h - 1, 1) + right[1])
        && leafRecords == old(leafRecords) + 1
        && freeNodes >= old(freeNodes) - (if newChild == 0 then h - 2 else h - 1)
    {
      ghost var s := St();
      ghost var e := Entry(key, data);
      hide MapOk, CanHold, Before, Chains, Mid, MissesOne, LevelF, Contents, ContentsF, HasKey, RecsOf, RecOf, FirstKey, DownLeft, DownRight,
        SearchedTo, Keeps, Lowered, WithRecs, Inserted, ChildDone, Ends;
      MapIs();
      KeyFits(key, data);
      DownReady(s, g, root, kids, h, left, right, i, key);
      var c := if i == 0 then 0 else i - 1;
      assert c == Chosen(i);
      hide *;
      var child := nodes[root].recs[c].node;
      ghost var dl, dr := DownLeft(left, kids, c, h), DownRight(right, kids, c, h);
      LowerKey(root, i, key);
      ghost var s0 := St();
      ghost var ts, q;
      newChild, ts, q := AddRecord(child, key, data, kids[c], h - 1, dl, dr);
      kids', p := kids, 0;
      if !HasKey(ContentsF(kids), key) {
        kids', p := ChildBack(s, s0, St(), g, root, kids, h, left, right, i, ts, q, e, newChild);
      }
    }

    // The index branch of addRecord: after the child, make room for a node the child split off.
    method AddToIndex(root: nat, key: int, data: Data, i: nat, ghost kids: seq<Tree>, ghost h: nat,
                      ghost left: seq<seq<nat>>, ghost right: seq<seq<nat>>)
      returns (newNode: nat, ghost ts: seq<Tree>, ghost p: nat)
      requires MapOk() && h >= 2 && freeNodes >= h && CanHold(key, data)
      requires Before(St(), g, Index(root, kids), h, left, right)
      requires Ends(Leaves(left, [Index(root, kids)], right, h))
      requires root < |nodes| && SearchedTo(nodes[root].recs, i, key)
      modifies this`nodes, this`pages, this`used, this`freeNodes, this`leafRecords, this`lastLeafNode
      decreases h, 1
      ensures MapOk()
      ensures HasKey(ContentsF(kids), key) ==> newNode == 0 && ts == [Index(root, kids)] && unchanged(this)
      ensures !HasKey(ContentsF(kids), key) ==>
        && Inserted(old(St()), St(), g, Index(root, kids), h, ts, p, Entry(key, data), newNode)
        && Chains(St(), left, ts, right, h)
        && Ends(Leaves(left, ts, right, h))
        && leafRecords == old(leafRecords) + 1
        && freeNodes >= old(freeNodes) - (if newNode == 0 then h - 1 else h)
    {
      ghost var s := St();
      BeforeIndex(s, g, root, kids, h, left, right);
      RecsAt(kids);
      var n := |nodes[root].recs|;
      assert i <= n;
      hide *;
      var newChild;
      ghost var kids';
      newChild, kids', p := AddBelow(root, key, data, i, kids, h, left, right);
      ghost var s1 := St();
      if !HasKey(ContentsF(kids), key) {
        DoneParts(s, s1, g, root, kids, kids', h, left, right, i, p, Entry(key, data), newChild);
      }
      newNode := 0;
      ts := [Index(root, kids)];
      if newChild == 0 {
        if !HasKey(ContentsF(kids), key) {
          ts := IndexOne(s, s1, g, root, kids, kids', h, left, right, p, Entry(key, data));
        }
      } else {
        newNode, ts := AddChild(s, root, newChild, key, i, n, kids, kids', h, left, right, p, Entry(key, data));
      }
    }

    // A child split off newChild: its record goes into the node, splitting it when it is full.
    method AddChild(ghost s: Store, root: nat, newChild: nat, key: int, i: nat, n: nat,
                    ghost kids: seq<Tree>, ghost kids': seq<Tree>, ghost h: nat,
                    ghost left: seq<seq<nat>>, ghost right: seq<seq<nat>>, ghost p: nat, ghost e: Entry)
      returns (newNode: nat, ghost ts: seq<Tree>)
      requires MapOk() && h >= 2 && freeNodes > 0 && newChild != 0
      requires Mid(s, St(), g, root, kids, kids', h, left, right) && |left| == |right| == h + 1
      requires root < |nodes| && n == |kids| == |kids'| - 1 <= g.IndexCap() && i <= n
      requires MissesOne(nodes[root].recs, kids', Chosen(i) + 1) && kids'[Chosen(i) + 1].id == newChild
      requires GapAt(ContentsF(kids), p, e.key) && ContentsF(kids') == InsertAt(ContentsF(kids), p, e)
      requires Ends(left[1] + LevelF(kids', h - 1, 1) + right[1])
      modifies this`nodes, this`pages, this`used, this`freeNodes, this`leafRecords, this`lastLeafNode
      ensures MapOk()
      ensures Inserted(s, St(), g, Index(root, kids), h, ts, p, e, newNode)
      ensures Chains(St(), left, ts, right, h)
      ensures Ends(Leaves(left, ts, right, h))
      ensures leafRecords == old(leafRecords)
      ensures freeNodes >= old(freeNodes) - (if newNode == 0 then 0 else 1)
    {
      hide HeaderOk, BitmapOk, PagesOk, Mid, MissesOne, Inserted, Chains, LevelF, ContentsF, GapAt, InsertAt, SortedRecs, RecsOf, SplitNodes,
        SplitWith, WithRecord, HalfOk, RecOf, FirstKey, Geometry.FreeSpace, Geometry.IndexRecSize, Geometry.Cap, Geometry.Roomy, Chosen, CapOf, Keeps;
      ghost var s1 := St();
      ghost var at := Chosen(i) + 1;
      MidParts(s, s1, g, root, kids, kids', h, left, right);
      MissesParts(nodes[root].recs, kids', at);
      NewChildRec(s, s1, g, root, kids, kids', h, left, right, at);
      var rec := PtrRec(nodes[newChild].recs[0].key, newChild);
      KeyInRange(g, format, nodes, pages, newChild, 0);
      IndexRoom(g, format, rec);
      HalfOrWhole(g, nodes, totalNodes, root, at, rec, n, i);
      var freeSpace := GetFreeSpace(root);
      if freeSpace < g.IndexRecSize() + 2 {
        newNode := SplitAndAdd(root, rec, i, at);
        ghost var s2, s3;
        s2, s3, ts := IndexTwo(s, s1, g, root, kids, kids', h, left, right, p, e, n, at, i < n / 2, newNode);
        assert St() == s3;
      } else {
        var ok, place := DoAddRecord(root, rec);
        PlaceIsUnique(s1.nodes[root].recs, rec.key, at, place);
        ghost var s2 := MidRecs(s, s1, g, root, kids, kids', h, left, right, RecsOf(kids'));
        ts := IndexOne(s, s2, g, root, kids, kids', h, left, right, p, e);
        newNode := 0;
        assert St() == s2;
      }
    }

    // increaseHeight: the old root and the node split off it get a new root.
    method IncreaseHeight(newNode: nat)
      requires MapOk() && freeNodes > 0
      requires 0 < rootNode < totalNodes && nodes[rootNode].recs != [] && nodes[rootNode].kind != HeaderNode
      requires 0 < newNode < totalNodes && nodes[newNode].recs != [] && nodes[newNode].kind != HeaderNode
      modifies this`nodes, this`pages, this`used, this`freeNodes, this`rootNode, this`treeDepth
      ensures MapOk() && 0 < rootNode < totalNodes && !old(used)[rootNode]
      ensures treeDepth == old(treeDepth) + 1 && freeNodes == old(freeNodes) - 1
      ensures used == old(used)[rootNode := true]
      ensures nodes == old(nodes)[rootNode := Node(IndexNode, old(treeDepth) + 1, 0, 0,
        [PtrRec(old(nodes)[old(rootNode)].recs[0].key, old(rootNode)), PtrRec(old(nodes)[newNode].recs[0].key, newNode)])]
    {
      KeyInRange(g, format, nodes, pages, rootNode, 0);
      KeyInRange(g, format, nodes, pages, newNode, 0);
      hide PagesOk, FormatOk, Typed, CapOf;
      var oldRoot := rootNode;
      var oldRootKey := nodes[oldRoot].recs[0].key;
      var newNodeKey := nodes[newNode].recs[0].key;
      var newRoot := GetNewNode();
      var height := treeDepth + 1;
      rootNode := newRoot;
      treeDepth := height;
      TwoPointers(g, format, PtrRec(oldRootKey, oldRoot), PtrRec(newNodeKey, newNode));
      PutNode(newRoot, Node(IndexNode, height, 0, 0, [PtrRec(oldRootKey, oldRoot), PtrRec(newNodeKey, newNode)]));
    }

    // addToBTree: an absent key gains its binding, a present key changes nothing.
    method AddToBTree(key: int, data: Data)
      requires Valid() && 0 <= key < format.limit && |data| == g.dataSize
      requires freeNodes > (if rootNode == 0 then 0 else treeDepth)
      modifies this
      ensures Valid()
      ensures key in old(Model()) ==> Bindings() == old(Bindings()) && St() == old(St())
      ensures key !in old(Model()) ==> Model() == old(Model())[key := data]
    {
      MapOfKeys(Bindings(), key);
      if rootNode != 0 {
        AddBelowRoot(key, data);
      } else {
        AddFirstLeaf(key, data);
      }
    }

    method AddFirstLeaf(key: int, data: Data)
      requires Valid() && rootNode == 0 && freeNodes > 0 && CanHold(key, data)
      modifies this
      ensures Valid() && Bindings() == [Entry(key, data)]
      ensures Model() == map[key := data]
    {
      var root := GetNewNode();
      ghost var s';
      s', tree := FirstLeaf(Store(old(nodes), old(used)), g, root, [Entry(key, data)]);
      assert EntryRecs([Entry(key, data)]) == [LeafRec(key, data)];
      rootNode := root;
      firstLeafNode := rootNode;
      lastLeafNode := rootNode;
      leafRecords := 1;
      treeDepth := 1;
      MapOfOne(Entry(key, data));
      OneRecord(g, format, LeafRec(key, data));
      hide PagesOk, FormatOk, Typed, CapOf, Before, Contents, Ids, Level, MapOf;
      PutNode(root, Node(LeafNode, 1, 0, 0, [LeafRec(key, data)]));
    }

    method AddBelowRoot(key: int, data: Data)
      requires Valid() && rootNode != 0 && freeNodes > treeDepth && CanHold(key, data)
      modifies this
      ensures Valid()
      ensures HasKey(old(Bindings()), key) ==> Bindings() == old(Bindings()) && St() == old(St())
      ensures !HasKey(old(Bindings()), key) ==> Model() == old(Model())[key := data]
    {
      hide Before, HeaderOk, BitmapOk, PagesOk, OnlyUses, Contents, ContentsF, Ids, IdsF, Level, LevelF, NoRows, Holds, Chains, Inserted, MapOf, HasKey,
        RecsOf, CanHold;
      ghost var h, none, e, old_t := treeDepth, NoRows(treeDepth), Entry(key, data), tree;
      RootStart(St(), g, tree, h);
      var newNode;
      ghost var ts, p;
      newNode, ts, p := AddRecord(rootNode, key, data, tree, h, none, none);
      ghost var s1 := St();
      if newNode != 0 {
        RootPair(old(St()), s1, g, old_t, h, ts, p, e, newNode);
        BitmapBound(g, nodes, used, freeNodes, totalNodes);
        IncreaseHeight(newNode);
        ghost var s2;
        s2, tree := RootUp(s1, g, ts, h, rootNode);
        assert St() == s2;
        RootPairDone(old(St()), s1, s2, g, old_t, h, ts, p, e, newNode, rootNode, totalNodes);
      } else {
        if !HasKey(Contents(old_t), key) {
          RootOneDone(old(St()), s1, g, old_t, h, ts, p, e, totalNodes);
        }
        tree := ts[0];
      }
    }

    // removeNode: the bit is cleared, the neighbours are linked to each other, the header stops naming the node.
    method RemoveNode(node: nat)
      requires MapOk() && 0 < node < totalNodes && used[node]
      requires nodes[node].fLink < totalNodes && nodes[node].bLink < totalNodes
      modifies this`nodes, this`pages, this`used, this`freeNodes, this`firstLeafNode, this`lastLeafNode, this`rootNode
      ensures MapOk() && freeNodes == old(freeNodes) + 1
      ensures St() == Freed(old(St()), node)
      ensures firstLeafNode == if old(firstLeafNode) == node then old(nodes)[node].fLink else old(firstLeafNode)
      ensures lastLeafNode == if old(lastLeafNode) == node then old(nodes)[node].bLink else old(lastLeafNode)
      ensures rootNode == if old(rootNode) == node then 0 else old(rootNode)
    {
      hide MapOk, HeaderOk, BitmapOk, PagesOk, Unlink;
      MapIs();
      if firstLeafNode == node {
        firstLeafNode := nodes[node].fLink;
      }
      if lastLeafNode == node {
        lastLeafNode := nodes[node].bLink;
      }
      if node == rootNode {
        rootNode := 0;
      }
      UnlinkNode(node);
      MapParts();
      BitFreed(used, freeNodes, totalNodes, node);
      used := used[node := false];
      freeNodes := freeNodes + 1;
      MapWhole();
    }

    // The neighbours of a node, linked to each other.
    method UnlinkNode(node: nat)
      requires MapOk() && 0 < node < totalNodes
      requires nodes[node].fLink < totalNodes && nodes[node].bLink < totalNodes
      modifies this`nodes, this`pages
      ensures MapOk() && nodes == Unlink(old(nodes), node)
    {
      hide MapOk;
      MapIs();
      var d := nodes[node];
      if d.bLink != 0 {
        Relink(d.bLink, d.fLink, nodes[d.bLink].bLink);
      }
      MapIs();
      if d.fLink != 0 {
        Relink(d.fLink, nodes[d.fLink].fLink, d.bLink);
      }
    }

    // The leaf branch of removeRecord, its record found at i.
    method RemoveFromLeaf(root: nat, i: nat, ghost ents: seq<Entry>, ghost left: seq<seq<nat>>, ghost right: seq<seq<nat>>)
      returns (gone: bool, ghost ts: seq<Tree>)
      requires MapOk()
      requires Before(St(), g, Leaf(root, ents), 1, left, right)
      requires Ends(Leaves(left, [Leaf(root, ents)], right, 1))
      requires i < |ents|
      modifies this
      ensures MapOk() && freeNodes >= old(freeNodes)
      ensures Removed(old(St()), St(), g, Leaf(root, ents), 1, ts, i, ents[i].key)
      ensures Chains(St(), left, ts, right, 1)
      ensures Ends(Leaves(left, ts, right, 1))
      ensures gone == (ts == [])
      ensures leafRecords == old(leafRecords) - 1
      ensures rootNode == if gone && root == old(rootNode) then 0 else old(rootNode)
      ensures treeDepth == old(treeDepth)
    {
      hide Before, HeaderOk, BitmapOk, PagesOk, Chains, Removed, LevelF, Freed;
      ghost var s := St();
      LeafBefore(s, g, root, ents, left, right);
      if |ents| == 1 {
        ghost var s1, s2;
        s1, s2 := LeafGone(s, g, root, ents, left, right);
      } else {
        ghost var s1;
        s1, ts := LeafLess(s, g, root, ents, left, right, i);
      }
      MapIs();
      TakeRecord(root, i);
      leafRecords := leafRecords - 1;
      if |nodes[root].recs| >= 1 {
        return false, ts;
      } else {
        ts := [];
        RemoveNode(root);
        gone := true;
      }
    }

    // removeRecord.  A key that is absent leaves everything as it is; stray tells that the search
    // ran past the last record of a leaf, where the code goes on to read record data as a node number.
    method RemoveRecord(root: nat, key: int, ghost t: Tree, ghost h: nat, ghost left: seq<seq<nat>>, ghost right: seq<seq<nat>>)
      returns (gone: bool, stray: bool, ghost ts: seq<Tree>, ghost p: nat)
      requires MapOk() && h >= 1 && t.id == root
      requires Before(St(), g, t, h, left, right)
      requires Ends(Leaves(left, [t], right, h))
      requires rootNode == root || rootNode !in Ids(t)
      modifies this
      decreases h, 1
      ensures MapOk() && treeDepth == old(treeDepth) && freeNodes >= old(freeNodes)
      ensures !HasKey(Contents(t), key) ==> !gone && unchanged(this) && (stray <==> PastEnd(t, key))
      ensures HasKey(Contents(t), key) ==>
        && !stray && gone == (ts == [])
        && Removed(old(St()), St(), g, t, h, ts, p, key)
        && Chains(St(), left, ts, right, h)
        && Ends(Leaves(left, ts, right, h))
        && leafRecords == old(leafRecords) - 1
        && rootNode == (if gone && root == old(rootNode) then 0 else old(rootNode))
    {
      hide HeaderOk, BitmapOk, PagesOk, Chains, Removed, LevelF, Contents, ContentsF, IdsF, HasKey, PastEnd, Freed, RemoveAt;
      NodeAt(St(), g, t, h);
      NodeRecs(St(), g, t, h);
      var recs := nodes[root].recs;
      var i := 0;
      var child, check := 0, false;
      gone, stray, ts, p := false, false, [t], 0;
      while i < |recs|
        invariant i <= |recs|
        invariant forall j :: 0 <= j < i ==> recs[j].key < key
        invariant child == 0 && !check
        invariant unchanged(this)
      {
        if recs[i].key == key {
          KeyFound(St(), g, t, h, i);
          if nodes[root].kind == LeafNode {
            LeafRecAt(St(), g, t, h, i);
            gone, ts := RemoveFromLeaf(root, i, t.ents, left, right);
            p := i;
            return;
          } else {
            child := recs[i].node;
            check := true;
            break;
          }
        } else if recs[i].key > key {
          if i == 0 || nodes[root].kind == LeafNode {
            NotThere(St(), g, t, h, i, key);
            return;
          } else {
            child := recs[i - 1].node;
            break;
          }
        }
        i := i + 1;
      }
      if child == 0 {
        if nodes[root].kind == LeafNode {
          LeafPast(St(), g, t, h, key);
          stray := true;
          return;
        }
        child := recs[|recs| - 1].node;
      }
      if i == |recs| {
        i := |recs| - 1;
      }
      ghost var c := if check || (i == |recs| - 1 && recs[i].key < key) then i else i - 1;
      GoesToChild(St(), g, t, h, c, key);
      gone, stray, ts, p := RemoveBelow(root, key, i, child, check, t.kids, c, h, left, right);
    }

    // The index branch of removeRecord, its child chosen: i is the record of that child when the
    // key was met there or the search ran off the end, and the record after it otherwise.
    method RemoveBelow(root: nat, key: int, i: nat, child: nat, check: bool, ghost kids: seq<Tree>, ghost c: nat, ghost h: nat,
                       ghost left: seq<seq<nat>>, ghost right: seq<seq<nat>>)
      returns (gone: bool, stray: bool, ghost ts: seq<Tree>, ghost p: nat)
      requires MapOk()
      requires Before(St(), g, Index(root, kids), h, left, right)
      requires Ends(Leaves(left, [Index(root, kids)], right, h))
      requires rootNode == root || rootNode !in Ids(Index(root, kids))
      requires GoesTo(kids, c, key) && child == kids[c].id && i < |kids|
      requires check <==> FirstKey(kids[c]) == key
      requires check ==> i == c
      modifies this
      decreases h, 0
      ensures MapOk() && treeDepth == old(treeDepth) && freeNodes >= old(freeNodes)
      ensures !HasKey(ContentsF(kids), key) ==>
        !gone && unchanged(this) && (stray <==> PastEnd(Index(root, kids), key))
      ensures HasKey(ContentsF(kids), key) ==>
        && !stray && gone == (ts == [])
        && Removed(old(St()), St(), g, Index(root, kids), h, ts, p, key)
        && Chains(St(), left, ts, right, h)
        && Ends(Leaves(left, ts, right, h))
        && leafRecords == old(leafRecords) - 1
        && rootNode == (if gone && root == old(rootNode) then 0 else old(rootNode))
    {
      hide Before, HeaderOk, BitmapOk, PagesOk, Chains, Removed, LevelF, ContentsF, Contents, Ids, IdsF, HasKey, PastEnd, RecsOf, FirstKey,
        Below, MidR, Freed, RemoveAt, DownLeft, DownRight, GoesTo;
      ghost var s := St();
      RemoveDown(s, g, root, kids, h, left, right, c, key);
      ghost var dl, dr := DownLeft(left, kids, c, h), DownRight(right, kids, c, h);
      var childGone;
      ghost var cts, q, kids';
      childGone, stray, cts, q := RemoveRecord(child, key, kids[c], h - 1, dl, dr);
      gone, ts, p := false, [Index(root, kids)], 0;
      if stray {
        return;
      }
      ghost var s1 := St();
      if HasKey(ContentsF(kids), key) {
        kids', p := UpAndRecs(s, s1, g, root, kids, h, left, right, c, cts, q, key);
      } else {
        CheckMeansThere(s, g, root, kids, h, left, right, c, key);
      }
      MapIs();
      if childGone {
        TakeRecord(root, i);
      } else if check {
        KeyInRange(g, format, nodes, pages, child, 0);
        SetKey(root, i, nodes[child].recs[0].key);
      }
      if HasKey(ContentsF(kids), key) {
        assert St() == WithRecs(s1, root, RecsOf(kids'));
        MidRRecs(s, s1, g, root, kids, kids', h, left, right, RecsOf(kids'));
        if kids' != [] {
          ts := IndexLess(s, St(), g, root, kids, kids', h, left, right, p, key);
        } else {
          ts := [];
          IndexGone(s, St(), g, root, kids, h, left, right, p, key);
        }
      }
      if |nodes[root].recs| == 0 {
        RemoveNode(root);
        gone := true;
      }
    }

    // removeFromBTree: a present key loses its binding.  An absent key changes nothing, except that
    // the code goes astray exactly when the search ends behind the last record of a leaf.
    method RemoveFromBTree(key: int) returns (stray: bool)
      requires Valid() && rootNode != 0
      modifies this
      ensures Valid() && freeNodes >= old(freeNodes)
      ensures key in old(Model()) ==> !stray && Model() == old(Model()) - {key}
      ensures key !in old(Model()) ==> Bindings() == old(Bindings()) && St() == old(St())
      ensures key !in old(Model()) ==> (stray <==> PastEnd(old(tree), key))
    {
      hide Before, HeaderOk, BitmapOk, PagesOk, OnlyUses, Contents, ContentsF, Ids, IdsF, Level, LevelF, NoRows, Holds, Chains, Removed, MapOf, HasKey, PastEnd;
      ghost var h, none, old_t := treeDepth, NoRows(treeDepth), tree;
      MapOfKeys(Bindings(), key);
      RootStart(St(), g, tree, h);
      ghost var ts, p;
      var gone;
      gone, stray, ts, p := RemoveRecord(rootNode, key, tree, h, none, none);
      if HasKey(Contents(old_t), key) {
        RootRemoved(old(St()), St(), g, old_t, h, ts, p, key, totalNodes);
        if ts != [] {
          tree := ts[0];
        }
      }
    }

    // searchNode: down to the leaf, taking at each node the last record that is not larger.
    method SearchNode(root: nat, key: int, ghost t: Tree, ghost h: nat) returns (r: SearchResult)
      requires Holds(St(), g, [t], h) && h >= 1 && t.id == root
      decreases h
      ensures Reports(t, key, r)
    {
      NodeAt(St(), g, t, h);
      NodeRecs(St(), g, t, h);
      var recs := nodes[root].recs;
      var i := 0;
      while i < |recs|
        invariant i <= |recs|
        invariant forall j :: 0 <= j < i ==> recs[j].key < key
      {
        if recs[i].key == key {
          if nodes[root].kind == LeafNode {
            r := Found(true, root, i, recs[i].data);
            LeafReport(St(), g, t, h, i, key, r);
            return;
          } else {
            DescendTo(St(), g, t, h, i, key);
            r := SearchNode(recs[i].node, key, t.kids[i], h - 1);
            IndexReport(St(), g, t, h, i, key, r);
            return;
          }
        } else if recs[i].key > key {
          break;
        }
        i := i + 1;
      }
      if i == 0 {
        BelowFirst(St(), g, t, h, key);
        return Panic;
      }
      if nodes[root].kind == LeafNode {
        r := Found(false, root, i, recs[i - 1].data);
        LeafReport(St(), g, t, h, i, key, r);
      } else {
        DescendTo(St(), g, t, h, i - 1, key);
        r := SearchNode(recs[i - 1].node, key, t.kids[i - 1], h - 1);
        IndexReport(St(), g, t, h, i - 1, key, r);
      }
    }

    method Search(key: int) returns (r: SearchResult)
      requires Valid() && rootNode != 0
      ensures Reports(tree, key, r)
      ensures r.Panic? <==> forall i :: 0 <= i < |Bindings()| ==> key < Bindings()[i].key
      ensures r.Found? ==> (r.exact <==> key in Model())
      ensures r.Found? && r.exact ==> Model()[key] == r.data
    {
      r := SearchNode(rootNode, key, tree, treeDepth);
      ReportsBindings(St(), g, tree, treeDepth, key, r);
      assert Bindings() == Contents(tree);
    }

    // getAllExtendedAttributes: search for the file's first key, then follow the leaf chain while the keys
    // are the file's.  The search panics when no record is at or before that key.
    method GetAllExtendedAttributes(fileID: nat, ghost names: seq<KeyOrder.NameKey>) returns (list: seq<Entry>, panicked: bool)
      requires Valid() && rootNode != 0 && Keyed(names, Bindings())
      ensures panicked <==>
        forall i :: 0 <= i < |names| ==> fileID <= names[i].owner && names[i] != KeyOrder.NameKey(fileID, [])
      ensures |names| == |Bindings()|
      ensures !panicked ==> list == Listed(names, Bindings(), fileID, true)
    {
      hide *;
      KeyedLength(names, Bindings());
      var r := Search(KeyOrder.OwnerKey(fileID));
      BeforeAll(names, Bindings(), fileID);
      list, panicked := [], r.Panic?;
      if !panicked {
        ghost var c, j, p, a := Start(fileID, r);
        list := ScanLeaves(nodes, r.nodeNumber, r.recordNumber, fileID, c, Bindings(), j);
        ScansList(names, Bindings(), fileID, p, a, PastEnd(tree, KeyOrder.OwnerKey(fileID)));
      }
    }

    // getFolderContents: the same, from the record behind the one that the search reports, which is the
    // folder's thread if there is one.
    method GetFolderContents(folderID: nat, ghost names: seq<KeyOrder.NameKey>) returns (list: seq<Entry>, panicked: bool)
      requires Valid() && rootNode != 0 && Keyed(names, Bindings())
      ensures panicked <==>
        forall i :: 0 <= i < |names| ==> folderID <= names[i].owner && names[i] != KeyOrder.NameKey(folderID, [])
      ensures |names| == |Bindings()|
      ensures !panicked && KeyOrder.NameKey(folderID, []) in names ==> list == Listed(names, Bindings(), folderID, false)
      ensures !panicked && KeyOrder.NameKey(folderID, []) !in names ==>
        (list == Listed(names, Bindings(), folderID, false) <==>
          Listed(names, Bindings(), folderID, false) == [] || PastEnd(tree, KeyOrder.OwnerKey(folderID)))
    {
      hide *;
      KeyedLength(names, Bindings());
      var r := Search(KeyOrder.OwnerKey(folderID));
      BeforeAll(names, Bindings(), folderID);
      list, panicked := [], r.Panic?;
      if !panicked {
        ghost var c, j, p, a := Start(folderID, r);
        list := ScanLeaves(nodes, r.nodeNumber, r.recordNumber + 1, folderID, c, Bindings(), j);
        ScansList(names, Bindings(), folderID, p, a, PastEnd(tree, KeyOrder.OwnerKey(folderID)));
      }
    }

    // The chain of leaves and the position in it that a search for the owner's first key reports.
    lemma {:induction false} Start(owner: nat, r: SearchResult) returns (c: seq<nat>, j: nat, p: nat, a: nat)
      requires Valid() && rootNode != 0 && r.Found? && Reports(tree, KeyOrder.OwnerKey(owner), r)
      ensures LeafChainOf(nodes, c, Bindings()) && j < |c| && c[j] == r.nodeNumber
      ensures forall i :: 0 <= i < |c| ==> c[i] < |nodes|
      ensures StartsOwner(Bindings(), owner, p) && ScanStart(nodes, c, j, r.recordNumber) == p
      ensures ScanStart(nodes, c, j, r.recordNumber + 1) == a
      ensures a == (if PastEnd(tree, KeyOrder.OwnerKey(owner)) then p else p + 1) <= |Bindings()|
      ensures ThreadAt(Bindings(), owner, p) ==> !PastEnd(tree, KeyOrder.OwnerKey(owner))
    {
      hide KeyOrder.OwnerKey, MapOk, StartsOwner, ThreadAt, PastEnd, Landing, Rank, HasKey, FlatRecs, EntryRecs, Linked;
      var key := KeyOrder.OwnerKey(owner);
      ChainOfLeaves(St(), g, tree, treeDepth);
      c := Level(tree, treeDepth, 1);
      var o;
      j, o := SearchPosition(nodes, g, tree, treeDepth, key);
      p, a := o + r.recordNumber, ScanStart(nodes, c, j, r.recordNumber + 1);
      SearchStarts(nodes, tree, Bindings(), c, owner, r, j, o);
    }
  }

  // A whole tree is the work of addRecord with nothing beside it.
  lemma {:induction false} RootStart(s: Store, g: Geometry, t: Tree, h: nat)
    requires h >= 1 && Before(s, g, t, h, NoRows(h), NoRows(h))
    ensures |NoRows(h)| == h + 1 && NoRows(h)[1] + LevelF([t], h, 1) + NoRows(h)[1] == Level(t, h, 1)
    ensures Sorted(Contents(t)) && 0 !in Ids(t)
  {
    RootRows([t], h, 1);
    LevelOne(t, h, 1);
    HoldsOne(s, g, t, h);
  }

  lemma {:induction false} BitmapBound(g: Geometry, nodes: seq<Node>, used: seq<bool>, freeNodes: nat, total: nat)
    requires HeaderOk(g, nodes, total) && BitmapOk(used, freeNodes, total)
    ensures |nodes| == total <= |used| && g.IndexCap() >= 2
  {
  }

  // The two halves of a split root: what increaseHeight reads.
  lemma {:induction false} RootPair(s: Store, s1: Store, g: Geometry, t: Tree, h: nat, ts: seq<Tree>, p: nat, e: Entry, newNode: nat)
    requires h >= 1 && newNode != 0 && Inserted(s, s1, g, t, h, ts, p, e, newNode)
    ensures |ts| == 2 && ts[0].id == t.id && ts[1].id == newNode && Holds(s1, g, ts, h)
    ensures 0 < t.id < |s1.nodes| && 0 < newNode < |s1.nodes|
    ensures s1.nodes[t.id].recs != [] && s1.nodes[newNode].recs != []
    ensures s1.nodes[t.id].kind != HeaderNode && s1.nodes[newNode].kind != HeaderNode
    ensures RecsOf(ts) == [PtrRec(s1.nodes[t.id].recs[0].key, t.id), PtrRec(s1.nodes[newNode].recs[0].key, newNode)]
  {
    FirstRecKey(s1, g, ts, h, 0);
    FirstRecKey(s1, g, ts, h, 1);
    KidIdsIn(ts, 0);
    KidIdsIn(ts, 1);
    HoldsSorted(s1, g, ts, h);
    assert ts[0].id in Ids(ts[0]) && ts[1].id in Ids(ts[1]);
  }

  lemma {:induction false} RootPairDone(s: Store, s1: Store, s2: Store, g: Geometry, t: Tree, h: nat, ts: seq<Tree>, p: nat, e: Entry,
                     newNode: nat, root: nat, total: nat)
    requires h >= 1 && newNode != 0 && Inserted(s, s1, g, t, h, ts, p, e, newNode) && Sorted(Contents(t))
    requires OnlyUses(s.used, Ids(t), total) && 0 < root < |s1.used| && s2.used == s1.used[root := true]
    ensures Contents(Index(root, ts)) == InsertAt(Contents(t), p, e)
    ensures MapOf(Contents(Index(root, ts))) == MapOf(Contents(t))[e.key := e.data]
    ensures OnlyUses(s2.used, Ids(Index(root, ts)), total)
    ensures |Contents(Index(root, ts))| == |Contents(t)| + 1
    ensures |NoRows(h)| == h + 1 && NoRows(h)[1] + LevelF(ts, h, 1) + NoRows(h)[1] == LevelF(ts, h, 1)
  {
    RootRows(ts, h, 1);
    hide Contents, ContentsF, Ids, IdsF, MapOf, Holds, Frame;
    IndexContents(root, ts);
    GapNew(Contents(t), p, e.key);
    MapOfInsert(Contents(t), p, e);
  }

  lemma {:induction false} GapNew(s: seq<Entry>, p: nat, key: int)
    requires Sorted(s) && GapAt(s, p, key)
    ensures forall i :: 0 <= i < p ==> s[i].key != key
  {
  }

  lemma {:induction false} RootOneDone(s: Store, s1: Store, g: Geometry, t: Tree, h: nat, ts: seq<Tree>, p: nat, e: Entry, total: nat)
    requires h >= 1 && Inserted(s, s1, g, t, h, ts, p, e, 0) && Sorted(Contents(t))
    requires Chains(s1, NoRows(h), ts, NoRows(h), h)
    requires OnlyUses(s.used, Ids(t), total)
    ensures |ts| == 1 && ts[0].id == t.id
    ensures Before(s1, g, ts[0], h, NoRows(h), NoRows(h))
    ensures |NoRows(h)| == h + 1 && NoRows(h)[1] + LevelF(ts, h, 1) + NoRows(h)[1] == Level(ts[0], h, 1)
    ensures Contents(ts[0]) == InsertAt(Contents(t), p, e)
    ensures MapOf(Contents(ts[0])) == MapOf(Contents(t))[e.key := e.data]
    ensures OnlyUses(s1.used, Ids(ts[0]), total)
    ensures |Contents(ts[0])| == |Contents(t)| + 1
  {
    assert ts == [ts[0]];
    hide Contents, ContentsF, Ids, IdsF, MapOf, Holds, Frame, Chains, LevelF, Level;
    One(ts[0]);
    RootRows(ts, h, 1);
    LevelOne(ts[0], h, 1);
    GapNew(Contents(t), p, e.key);
    MapOfInsert(Contents(t), p, e);
  }

  lemma {:induction false} RootRemoved(s: Store, s1: Store, g: Geometry, t: Tree, h: nat, ts: seq<Tree>, p: nat, key: int, total: nat)
    requires h >= 1 && Removed(s, s1, g, t, h, ts, p, key) && Sorted(Contents(t))
    requires Chains(s1, NoRows(h), ts, NoRows(h), h)
    requires OnlyUses(s.used, Ids(t), total) && 0 !in Ids(t)
    ensures |NoRows(h)| == h + 1 && NoRows(h)[1] + LevelF(ts, h, 1) + NoRows(h)[1] == LevelF(ts, h, 1)
    ensures ts != [] ==>
      && ts[0].id == t.id && Before(s1, g, ts[0], h, NoRows(h), NoRows(h))
      && LevelF(ts, h, 1) == Level(ts[0], h, 1)
      && MapOf(Contents(ts[0])) == MapOf(Contents(t)) - {key}
      && OnlyUses(s1.used, Ids(ts[0]), total)
      && |Contents(ts[0])| == |Contents(t)| - 1
    ensures ts == [] ==>
      && LevelF(ts, h, 1) == [] && map[] == MapOf(Contents(t)) - {key} && MapOf([]) == map[]
      && OnlyUses(s1.used, {}, total) && |Contents(t)| == 1
  {
    hide Contents, ContentsF, Ids, IdsF, MapOf, Frame, Chains, LevelF, Level, Holds, OnlyUses, Released;
    RootRows(ts, h, 1);
    ContentsHead(ts);
    MapOfRemove(Contents(t), p);
    UsesReleased(s.used, s1.used, Ids(t), IdsF(ts), total);
    EmptyForest(h);
    MapOfNone();
    if ts != [] {
      assert ts == [ts[0]];
      One(ts[0]);
      LevelOne(ts[0], h, 1);
    }
  }

  lemma {:induction false} UsesReleased(used: seq<bool>, used': seq<bool>, ids: set<nat>, ids': set<nat>, total: nat)
    requires OnlyUses(used, ids, total) && Released(used, used', ids, ids') && 0 !in ids
    ensures OnlyUses(used', ids', total)
  {
  }

  lemma {:induction false} EmptyForest(h: nat)
    ensures LevelF([], h, 1) == [] && IdsF([]) == {} && ContentsF([]) == []
  {
  }
}
