/**
  The on-disk B-tree of hfs/btree.c as mathematics: what a node stores, the
  tree of nodes a root number stands for, and the facts about both that the
  class in BTree.dfy relies on.

  Keys are integers: KeyOrder.dfy shows that the extents tree's comparator is
  the integer order on ranks.  All keys, and all leaf records, have one size.
 */
module BTreeModel {

  type Data = seq<bv8>

  datatype Kind = LeafNode | IndexNode | HeaderNode

  // One record of a node: a key followed by data, or by a node number.
  datatype Rec = LeafRec(key: int, data: Data) | PtrRec(key: int, node: nat)

  // A node: its descriptor fields and its records in offset order.
  datatype Node = Node(kind: Kind, height: nat, fLink: nat, bLink: nat, recs: seq<Rec>)

  datatype Entry = Entry(key: int, data: Data)

  // What a node number stands for once pointers are followed.
  datatype Tree = Leaf(id: nat, ents: seq<Entry>) | Index(id: nat, kids: seq<Tree>)

  /* ----- Room in a node ----- */

  // Sizes in bytes: keySize includes the length field, as does every record.
  datatype Geometry = Geometry(nodeSize: nat, keySize: nat, dataSize: nat) {

    function LeafRecSize(): nat { keySize + dataSize }

    function IndexRecSize(): nat { keySize + 4 }

    // The gap between the last record and the offset table of a node of n records.
    function FreeSpace(n: nat, recSize: nat): int {
      (nodeSize - 2 * (n + 1)) - (14 + n * recSize)
    }

    function Cap(recSize: nat): nat {
      if nodeSize < 16 then 0 else (nodeSize - 16) / (recSize + 2)
    }

    function LeafCap(): nat { Cap(LeafRecSize()) }

    function IndexCap(): nat { Cap(IndexRecSize()) }

    // At least two records of either sort fit in a node.
    predicate Roomy() { LeafCap() >= 2 && IndexCap() >= 2 }

    // The split test of addRecord fires exactly when the node is full.
    lemma {:induction false} SplitTestIsFull(n: nat, recSize: nat)
      requires nodeSize >= 16
      ensures FreeSpace(n, recSize) < recSize + 2 <==> n >= Cap(recSize)
      ensures n <= Cap(recSize) ==> FreeSpace(n, recSize) >= 0
    {
      var room, slot := nodeSize - 16, recSize + 2;
      var cap := room / slot;
      assert cap * slot <= room < (cap + 1) * slot;
      assert FreeSpace(n, recSize) == room - n * slot;
      if n >= cap {
        assert (n + 1) * slot >= (cap + 1) * slot by { MulMono(cap + 1, n + 1, slot); }
      } else {
        assert (n + 1) * slot <= cap * slot by { MulMono(n + 1, cap, slot); }
      }
      if n <= cap {
        MulMono(n, cap, slot);
      }
    }
  }

  lemma {:induction false} MulMono(a: int, b: int, c: nat)
    requires a <= b
    ensures a * c <= b * c
  {
  }

  /* ----- Contents, node numbers, levels ----- */

  function Contents(t: Tree): seq<Entry> {
    match t
    case Leaf(_, ents) => ents
    case Index(_, kids) => ContentsF(kids)
  }

  function ContentsF(ts: seq<Tree>): seq<Entry> {
    if ts == [] then [] else Contents(ts[0]) + ContentsF(ts[1..])
  }

  function FirstKey(t: Tree): int {
    match t
    case Leaf(_, ents) => if ents == [] then 0 else ents[0].key
    case Index(_, kids) => if kids == [] then 0 else FirstKey(kids[0])
  }

  function Ids(t: Tree): set<nat> {
    match t
    case Leaf(id, _) => {id}
    case Index(id, kids) => {id} + IdsF(kids)
  }

  function IdsF(ts: seq<Tree>): set<nat> {
    if ts == [] then {} else Ids(ts[0]) + IdsF(ts[1..])
  }

  // No node number occurs twice.
  ghost predicate Uniq(t: Tree) {
    match t
    case Leaf(_, _) => true
    case Index(id, kids) => id !in IdsF(kids) && UniqF(kids)
  }

  ghost predicate UniqF(ts: seq<Tree>) {
    ts != [] ==> Uniq(ts[0]) && UniqF(ts[1..]) && Ids(ts[0]) !! IdsF(ts[1..])
  }

  // The node numbers at height k, left to right, of trees of height h.
  function Level(t: Tree, h: nat, k: nat): seq<nat> {
    if h == k then [t.id]
    else if t.Leaf? || h == 0 then []
    else LevelF(t.kids, h - 1, k)
  }

  function LevelF(ts: seq<Tree>, h: nat, k: nat): seq<nat> {
    if ts == [] then [] else Level(ts[0], h, k) + LevelF(ts[1..], h, k)
  }

  // Uniform height, no empty node, no overfull node.
  ghost predicate WF(g: Geometry, t: Tree, h: nat)
    decreases h, 0
  {
    match t
    case Leaf(_, ents) => h == 1 && 1 <= |ents| <= g.LeafCap()
    case Index(_, kids) => h >= 2 && 1 <= |kids| <= g.IndexCap() && WFF(g, kids, h - 1)
  }

  ghost predicate WFF(g: Geometry, ts: seq<Tree>, h: nat)
    decreases h, 1
  {
    forall i :: 0 <= i < |ts| ==> WF(g, ts[i], h)
  }

  predicate Sorted(s: seq<Entry>) {
    forall i, j :: 0 <= i < j < |s| ==> s[i].key < s[j].key
  }

  predicate SortedRecs(s: seq<Rec>) {
    forall i, j :: 0 <= i < j < |s| ==> s[i].key < s[j].key
  }

  ghost predicate HasKey(s: seq<Entry>, key: int) {
    exists i :: 0 <= i < |s| && s[i].key == key
  }

  /* ----- How nodes store a tree ----- */

  // An index record carries the first key of the child it points to.
  function RecOf(t: Tree): Rec { PtrRec(FirstKey(t), t.id) }

  function RecsOf(ts: seq<Tree>): (r: seq<Rec>)
    ensures |r| == |ts|
    ensures forall i :: 0 <= i < |ts| ==> r[i] == RecOf(ts[i])
  {
    seq(|ts|, i requires 0 <= i < |ts| => RecOf(ts[i]))
  }

  function EntryRecs(ents: seq<Entry>): (r: seq<Rec>)
    ensures |r| == |ents|
    ensures forall i :: 0 <= i < |ents| ==> r[i] == LeafRec(ents[i].key, ents[i].data)
  {
    seq(|ents|, i requires 0 <= i < |ents| => LeafRec(ents[i].key, ents[i].data))
  }

  ghost predicate Repr(nodes: seq<Node>, t: Tree, h: nat)
    decreases h, 0
  {
    && t.id < |nodes|
    && nodes[t.id].height == h
    && match t
       case Leaf(_, ents) => nodes[t.id].kind == LeafNode && nodes[t.id].recs == EntryRecs(ents)
       case Index(_, kids) =>
         nodes[t.id].kind == IndexNode && nodes[t.id].recs == RecsOf(kids) && h >= 1 && ReprF(nodes, kids, h - 1)
  }

  ghost predicate ReprF(nodes: seq<Node>, ts: seq<Tree>, h: nat)
    decreases h, 1
  {
    forall i :: 0 <= i < |ts| ==> Repr(nodes, ts[i], h)
  }

  // Siblings at one height: allocated, linked both ways, ending in zero both ways.
  ghost predicate Chain(nodes: seq<Node>, used: seq<bool>, c: seq<nat>, k: nat) {
    && |nodes| <= |used|
    && (forall i :: 0 <= i < |c| ==> 0 < c[i] < |nodes| && used[c[i]] && nodes[c[i]].height == k)
    && (forall i, j :: 0 <= i < j < |c| ==> c[i] != c[j])
    && (forall i :: 0 <= i < |c| ==> Linked(nodes, c, i))
  }

  ghost predicate Linked(nodes: seq<Node>, c: seq<nat>, i: nat)
    requires i < |c|
  {
    c[i] < |nodes| && nodes[c[i]].fLink == Right(c, i) && nodes[c[i]].bLink == Left(c, i)
  }

  function Right(c: seq<nat>, i: nat): nat
    requires i < |c|
  {
    if i + 1 < |c| then c[i + 1] else 0
  }

  function Left(c: seq<nat>, i: nat): nat
    requires i < |c|
  {
    if i > 0 then c[i - 1] else 0
  }

  function First(c: seq<nat>): nat { if c == [] then 0 else c[0] }

  function Last(c: seq<nat>): nat { if c == [] then 0 else c[|c| - 1] }

  /* ----- Concatenation ----- */

  lemma {:induction false} ContentsHead(ts: seq<Tree>)
    ensures ts == [] ==> ContentsF(ts) == []
    ensures ts != [] ==> ContentsF(ts) == Contents(ts[0]) + ContentsF(ts[1..])
  {
  }

  lemma {:induction false} LevelHead(ts: seq<Tree>, h: nat, k: nat)
    ensures ts == [] ==> LevelF(ts, h, k) == []
    ensures ts != [] ==> LevelF(ts, h, k) == Level(ts[0], h, k) + LevelF(ts[1..], h, k)
  {
  }

  lemma {:induction false} ContentsConcat(a: seq<Tree>, b: seq<Tree>)
    ensures ContentsF(a + b) == ContentsF(a) + ContentsF(b)
  {
    hide *;
    ContentsHead(a);
    if a == [] {
      assert a + b == b;
    } else {
      ContentsHead(a + b);
      ContentsConcat(a[1..], b);
      assert (a + b)[0] == a[0] && (a + b)[1..] == a[1..] + b;
      assert (Contents(a[0]) + ContentsF(a[1..])) + ContentsF(b) == Contents(a[0]) + (ContentsF(a[1..]) + ContentsF(b));
    }
  }

  lemma {:induction false} LevelConcat(a: seq<Tree>, b: seq<Tree>, h: nat, k: nat)
    ensures LevelF(a + b, h, k) == LevelF(a, h, k) + LevelF(b, h, k)
  {
    hide *;
    LevelHead(a, h, k);
    if a == [] {
      assert a + b == b;
    } else {
      LevelHead(a + b, h, k);
      LevelConcat(a[1..], b, h, k);
      assert (a + b)[0] == a[0] && (a + b)[1..] == a[1..] + b;
      var x, y, z := Level(a[0], h, k), LevelF(a[1..], h, k), LevelF(b, h, k);
      assert (x + y) + z == x + (y + z);
    }
  }

  lemma {:induction false} IdsConcat(a: seq<Tree>, b: seq<Tree>)
    ensures IdsF(a + b) == IdsF(a) + IdsF(b)
  {
    hide Ids;
    if a == [] {
      assert a + b == b;
    } else {
      IdsConcat(a[1..], b);
      assert (a + b)[1..] == a[1..] + b;
    }
  }

  lemma {:induction false} UniqConcat(a: seq<Tree>, b: seq<Tree>)
    ensures UniqF(a + b) <==> UniqF(a) && UniqF(b) && IdsF(a) !! IdsF(b)
  {
    hide Uniq, Ids;
    if a == [] {
      assert a + b == b;
    } else {
      UniqConcat(a[1..], b);
      IdsConcat(a[1..], b);
      assert (a + b)[1..] == a[1..] + b;
    }
  }

  // All four at once, around the child at position c.
  lemma {:induction false} Around(ts: seq<Tree>, c: nat)
    requires c < |ts|
    ensures ts == ts[..c] + [ts[c]] + ts[c + 1..]
    ensures ContentsF(ts) == ContentsF(ts[..c]) + Contents(ts[c]) + ContentsF(ts[c + 1..])
    ensures IdsF(ts) == IdsF(ts[..c]) + Ids(ts[c]) + IdsF(ts[c + 1..])
    ensures UniqF(ts) <==>
      (UniqF(ts[..c]) && Uniq(ts[c]) && UniqF(ts[c + 1..])
       && IdsF(ts[..c]) !! Ids(ts[c]) && (IdsF(ts[..c]) + Ids(ts[c])) !! IdsF(ts[c + 1..]))
  {
    hide *;
    var a, x, b := ts[..c], [ts[c]], ts[c + 1..];
    assert ts == a + x + b;
    One(ts[c]);
    Spliced(a, x, b);
  }

  lemma {:induction false} One(t: Tree)
    ensures ContentsF([t]) == Contents(t) && IdsF([t]) == Ids(t) && UniqF([t]) == Uniq(t)
  {
    hide Contents, Ids, Uniq;
    var ts := [t];
    assert ts[1..] == [] && ts[0] == t;
    assert ContentsF(ts) == Contents(t) + ContentsF(ts[1..]);
  }

  // The same with any number of trees in the middle.
  lemma {:induction false} Spliced(a: seq<Tree>, x: seq<Tree>, b: seq<Tree>)
    ensures ContentsF(a + x + b) == ContentsF(a) + ContentsF(x) + ContentsF(b)
    ensures IdsF(a + x + b) == IdsF(a) + IdsF(x) + IdsF(b)
    ensures UniqF(a + x + b) <==>
      (UniqF(a) && UniqF(x) && UniqF(b) && IdsF(a) !! IdsF(x) && (IdsF(a) + IdsF(x)) !! IdsF(b))
  {
    hide *;
    ContentsConcat(a + x, b); ContentsConcat(a, x);
    IdsConcat(a + x, b); IdsConcat(a, x);
    UniqConcat(a + x, b); UniqConcat(a, x);
  }

  lemma {:induction false} LevelSpliced(a: seq<Tree>, x: seq<Tree>, b: seq<Tree>, h: nat, k: nat)
    ensures LevelF(a + x + b, h, k) == LevelF(a, h, k) + LevelF(x, h, k) + LevelF(b, h, k)
  {
    hide *;
    LevelConcat(a + x, b, h, k); LevelConcat(a, x, h, k);
  }

  /* ----- Node numbers ----- */

  lemma {:induction false} KidIdsIn(ts: seq<Tree>, i: nat)
    requires i < |ts|
    ensures Ids(ts[i]) <= IdsF(ts)
  {
    Around(ts, i);
  }

  lemma {:induction false} IdsFAt(ts: seq<Tree>, n: nat) returns (i: nat)
    requires n in IdsF(ts)
    ensures i < |ts| && n in Ids(ts[i])
  {
    if n in Ids(ts[0]) {
      i := 0;
    } else {
      var j := IdsFAt(ts[1..], n);
      i := j + 1;
    }
  }

  // Two stores agree on what a tree's own nodes hold (links aside).
  ghost predicate SameBody(m: seq<Node>, n: seq<Node>, s: set<nat>) {
    |m| == |n| && forall x :: x in s && x < |m| ==> m[x].kind == n[x].kind && m[x].height == n[x].height && m[x].recs == n[x].recs
  }

  lemma {:induction false} ReprFrame(m: seq<Node>, n: seq<Node>, t: Tree, h: nat)
    requires Repr(m, t, h)
    requires SameBody(m, n, Ids(t))
    ensures Repr(n, t, h)
    decreases h
  {
    assert t.id in Ids(t);
    match t
    case Leaf(_, _) =>
    case Index(_, kids) =>
      forall i | 0 <= i < |kids| ensures Repr(n, kids[i], h - 1) {
        KidIdsIn(kids, i);
        ReprFrame(m, n, kids[i], h - 1);
      }
  }

  lemma {:induction false} ReprFFrame(m: seq<Node>, n: seq<Node>, ts: seq<Tree>, h: nat)
    requires ReprF(m, ts, h)
    requires SameBody(m, n, IdsF(ts))
    ensures ReprF(n, ts, h)
  {
    forall i | 0 <= i < |ts| ensures Repr(n, ts[i], h) {
      KidIdsIn(ts, i);
      ReprFrame(m, n, ts[i], h);
    }
  }

  /* ----- Order ----- */

  lemma {:induction false} FirstIsFirst(g: Geometry, t: Tree, h: nat)
    requires WF(g, t, h)
    ensures Contents(t) != [] && Contents(t)[0].key == FirstKey(t)
    decreases h
  {
    match t
    case Leaf(_, _) =>
    case Index(_, kids) =>
      FirstIsFirst(g, kids[0], h - 1);
  }

  // The child whose key range holds a position splits the contents around it.
  lemma {:induction false} KidOrder(g: Geometry, ts: seq<Tree>, h: nat, c: nat)
    requires WFF(g, ts, h) && c < |ts| && Sorted(ContentsF(ts))
    ensures Sorted(Contents(ts[c])) && Contents(ts[c]) != []
    ensures forall j :: 0 <= j < |ContentsF(ts[..c])| ==> ContentsF(ts[..c])[j].key < FirstKey(ts[c])
    ensures c + 1 < |ts| ==> ContentsF(ts[c + 1..]) != [] && ContentsF(ts[c + 1..])[0].key == FirstKey(ts[c + 1])
    ensures c + 1 >= |ts| ==> ContentsF(ts[c + 1..]) == []
    ensures Contents(ts[c])[0].key == FirstKey(ts[c])
  {
    hide WF, Contents, ContentsF, FirstKey, Ids, IdsF, Uniq, UniqF;
    Around(ts, c);
    FirstIsFirst(g, ts[c], h);
    ContentsHead(ts[c + 1..]);
    var a, x, b := ContentsF(ts[..c]), Contents(ts[c]), ContentsF(ts[c + 1..]);
    PartSorted(a, x, b);
    if c + 1 < |ts| {
      FirstIsFirst(g, ts[c + 1], h);
    }
  }

  lemma {:induction false} PartSorted(a: seq<Entry>, x: seq<Entry>, b: seq<Entry>)
    requires Sorted(a + x + b)
    ensures Sorted(x)
    ensures forall i, j :: 0 <= i < |a| && 0 <= j < |x| ==> a[i].key < x[j].key
    ensures forall i, j :: 0 <= i < |x| && 0 <= j < |b| ==> x[i].key < b[j].key
  {
    var s := a + x + b;
    forall i, j | 0 <= i < |a| && 0 <= j < |x| ensures a[i].key < x[j].key {
      assert s[i] == a[i] && s[|a| + j] == x[j];
    }
    forall i, j | 0 <= i < |x| && 0 <= j < |b| ensures x[i].key < b[j].key {
      assert s[|a| + i] == x[i] && s[|a| + |x| + j] == b[j];
    }
    forall i, j | 0 <= i < j < |x| ensures x[i].key < x[j].key {
      assert s[|a| + i] == x[i] && s[|a| + j] == x[j];
    }
  }

  lemma {:induction false} KidKeysSorted(g: Geometry, ts: seq<Tree>, h: nat)
    requires WFF(g, ts, h) && Sorted(ContentsF(ts))
    ensures SortedRecs(RecsOf(ts))
  {
    forall i, j | 0 <= i < j < |ts| ensures FirstKey(ts[i]) < FirstKey(ts[j]) {
      KidOrder(g, ts, h, j);
      Around(ts[..j], i);
      FirstIsFirst(g, ts[i], h);
      var a, x := ContentsF(ts[..j][..i]), Contents(ts[i]);
      assert ContentsF(ts[..j])[|a|] == x[0];
    }
  }

  /* ----- One binding more, one binding less ----- */

  // e belongs at position p of s: all keys before are smaller, all from p on larger.
  predicate GapAt(s: seq<Entry>, p: nat, key: int) {
    p <= |s| && (p > 0 ==> s[p - 1].key < key) && (p < |s| ==> key < s[p].key)
  }

  function InsertAt(s: seq<Entry>, p: nat, e: Entry): seq<Entry>
    requires p <= |s|
  {
    s[..p] + [e] + s[p..]
  }

  function RemoveAt(s: seq<Entry>, p: nat): seq<Entry>
    requires p < |s|
  {
    s[..p] + s[p + 1..]
  }

  lemma {:induction false} InsertKeepsSorted(s: seq<Entry>, p: nat, e: Entry)
    requires Sorted(s) && GapAt(s, p, e.key)
    ensures Sorted(InsertAt(s, p, e))
    ensures !HasKey(s, e.key)
  {
    var r := InsertAt(s, p, e);
    assert forall i :: 0 <= i < |r| ==> r[i] == if i < p then s[i] else if i == p then e else s[i - 1];
  }

  lemma {:induction false} RemoveKeepsSorted(s: seq<Entry>, p: nat)
    requires Sorted(s) && p < |s|
    ensures Sorted(RemoveAt(s, p))
    ensures !HasKey(RemoveAt(s, p), s[p].key)
  {
    var r := RemoveAt(s, p);
    assert forall i :: 0 <= i < |r| ==> r[i] == if i < p then s[i] else s[i + 1];
  }

  lemma {:induction false} InsertInMiddle(a: seq<Entry>, x: seq<Entry>, b: seq<Entry>, p: nat, e: Entry)
    requires p <= |x|
    ensures InsertAt(a + x + b, |a| + p, e) == a + InsertAt(x, p, e) + b
  {
    var s := a + x + b;
    assert s[..|a| + p] == a + x[..p];
    assert s[|a| + p..] == x[p..] + b;
  }

  lemma {:induction false} RemoveInMiddle(a: seq<Entry>, x: seq<Entry>, b: seq<Entry>, p: nat)
    requires p < |x|
    ensures RemoveAt(a + x + b, |a| + p) == a + RemoveAt(x, p) + b
  {
    var s := a + x + b;
    assert s[..|a| + p] == a + x[..p];
    assert s[|a| + p + 1..] == x[p + 1..] + b;
  }

  /* ----- A store of nodes ----- */

  datatype Store = Store(nodes: seq<Node>, used: seq<bool>)

  ghost predicate IdsOk(s: Store, ids: set<nat>) {
    |s.nodes| <= |s.used| && forall n :: n in ids ==> 0 < n < |s.nodes| && s.used[n]
  }

  lemma {:induction false} IdsOkParts(s: Store, a: set<nat>, b: set<nat>)
    ensures IdsOk(s, a + b) <==> (IdsOk(s, a) && IdsOk(s, b))
  {
  }

  // The store holds these trees of height h, side by side.
  ghost predicate Holds(s: Store, g: Geometry, ts: seq<Tree>, h: nat) {
    && WFF(g, ts, h)
    && UniqF(ts)
    && ReprF(s.nodes, ts, h)
    && Sorted(ContentsF(ts))
    && IdsOk(s, IdsF(ts))
  }

  // The chain of every level is what lies to the left, the trees' own nodes, what lies to the right.
  ghost predicate Chains(s: Store, left: seq<seq<nat>>, ts: seq<Tree>, right: seq<seq<nat>>, h: nat) {
    && |left| == |right| == h + 1
    && forall k :: 1 <= k <= h ==> Chain(s.nodes, s.used, left[k] + LevelF(ts, h, k) + right[k], k)
  }

  // From s to s' only the records of these nodes, and links of nodes of heights 1 to h, changed.
  ghost predicate Frame(s: Store, s': Store, ids: set<nat>, h: nat) {
    && |s'.nodes| == |s.nodes| <= |s.used| == |s'.used|
    && (forall n :: 0 <= n < |s.nodes| && s.used[n] && n !in ids ==>
          s'.nodes[n].kind == s.nodes[n].kind && s'.nodes[n].height == s.nodes[n].height && s'.nodes[n].recs == s.nodes[n].recs)
    && (forall n :: 0 <= n < |s.nodes| && s.used[n] && (s.nodes[n].height > h || s.nodes[n].height == 0) ==>
          s'.nodes[n] == s.nodes[n])
  }

  /* ----- What the node operations do to the store ----- */

  // splitNode: the second half of the records moves to the node added, linked in after node.
  function SplitNodes(nodes: seq<Node>, node: nat, added: nat): seq<Node>
    requires node < |nodes| && added < |nodes| && nodes[node].fLink < |nodes|
  {
    var d := nodes[node];
    var m := |d.recs| / 2;
    var n1 := nodes[added := Node(d.kind, d.height, d.fLink, node, d.recs[m..])];
    var n2 := if d.fLink != 0 then n1[d.fLink := n1[d.fLink].(bLink := added)] else n1;
    n2[node := n2[node].(fLink := added, recs := d.recs[..m])]
  }

  // Node numbers c become c', with added after position j, and the links are set to match.
  lemma {:induction false} ChainGains(nodes: seq<Node>, used: seq<bool>, c: seq<nat>, k: nat,
                   nodes': seq<Node>, used': seq<bool>, c': seq<nat>, j: nat, added: nat)
    requires Chain(nodes, used, c, k) && j < |c|
    requires |c'| == |c| + 1
    requires forall i {:trigger c'[i]} :: 0 <= i < |c'| ==> c'[i] == if i <= j then c[i] else if i == j + 1 then added else c[i - 1]
    requires |nodes'| == |nodes| && |used'| == |used| && 0 < added < |nodes| && !used[added]
    requires forall x :: 0 <= x < |used| ==> used'[x] == (used[x] || x == added)
    requires forall x :: 0 <= x < |nodes| ==> nodes'[x].height == if x == added then k else nodes[x].height
    requires forall x :: 0 <= x < |nodes| ==>
      nodes'[x].fLink == if x == c[j] then added else if x == added then Right(c, j) else nodes[x].fLink
    requires forall x :: 0 <= x < |nodes| ==>
      nodes'[x].bLink == if x == added then c[j] else if x == Right(c, j) && x != 0 then added else nodes[x].bLink
    ensures Chain(nodes', used', c', k)
  {
    assert Linked(nodes, c, j);
    forall i | 0 <= i < |c'|
      ensures 0 < c'[i] < |nodes'| && used'[c'[i]] && nodes'[c'[i]].height == k
      ensures i != j + 1 ==> c'[i] != added
    {
      var m := if i <= j then i else i - 1;
      assert 0 < c[m] < |nodes|;
    }
    forall i | 0 <= i < |c'| ensures Linked(nodes', c', i) {
      if i < j {
        assert Linked(nodes, c, i) && c[i] != c[j] && c'[i + 1] == c[i + 1];
        assert i > 0 ==> c'[i - 1] == c[i - 1];
        assert j + 1 < |c| ==> c[i] != c[j + 1];
      } else if i == j {
        assert i > 0 ==> c'[i - 1] == c[i - 1];
        assert j + 1 < |c| ==> c[j] != c[j + 1];
      } else if i == j + 1 {
        assert c'[i] == added && c'[i - 1] == c[j];
        assert i + 1 < |c'| ==> c'[i + 1] == c[i];
      } else {
        assert Linked(nodes, c, i - 1) && c'[i] == c[i - 1] && c[j] != c[i - 1];
        assert i + 1 < |c'| ==> c'[i + 1] == c[i];
        assert i > j + 2 ==> c'[i - 1] == c[i - 2] && c[j + 1] != c[i - 1];
      }
    }
    forall i, i' | 0 <= i < i' < |c'| ensures c'[i] != c'[i'] {
      var m, m' := if i <= j then i else i - 1, if i' <= j then i' else i' - 1;
      assert m == m' || c[m] != c[m'];
    }
  }

  lemma {:induction false} ChainSplit(nodes: seq<Node>, used: seq<bool>, a: seq<nat>, node: nat, b: seq<nat>, added: nat, k: nat)
    requires Chain(nodes, used, a + [node] + b, k)
    requires 0 < added < |nodes| && !used[added]
    ensures node < |nodes| && nodes[node].fLink < |nodes|
    ensures Chain(SplitNodes(nodes, node, added), used[added := true], a + [node, added] + b, k)
  {
    var c := a + [node] + b;
    var j := |a|;
    assert c[j] == node && Linked(nodes, c, j) && nodes[c[j]].height == k;
    assert j + 1 < |c| ==> 0 < c[j + 1] < |nodes| && used[c[j + 1]] && c[j] != c[j + 1];
    ChainGains(nodes, used, c, k, SplitNodes(nodes, node, added), used[added := true], a + [node, added] + b, j, added);
  }

  // The chain of another height does not see a split.
  lemma {:induction false} ChainSplitOther(nodes: seq<Node>, used: seq<bool>, c: seq<nat>, k: nat, node: nat, added: nat)
    requires node < |nodes| && added < |nodes| && nodes[node].fLink < |nodes|
    requires Chain(nodes, used, c, k) && nodes[node].height != k
    requires nodes[node].fLink != 0 ==> nodes[nodes[node].fLink].height != k
    requires !used[added]
    ensures Chain(SplitNodes(nodes, node, added), used[added := true], c, k)
  {
    var nodes' := SplitNodes(nodes, node, added);
    assert forall i :: 0 <= i < |c| ==> nodes'[c[i]] == nodes[c[i]];
    forall i | 0 <= i < |c| ensures Linked(nodes', c, i) {
      assert Linked(nodes, c, i);
    }
  }

  // doAddRecord: one more record in a node.
  function WithRecord(nodes: seq<Node>, node: nat, p: nat, rec: Rec): seq<Node>
    requires node < |nodes| && p <= |nodes[node].recs|
  {
    nodes[node := nodes[node].(recs := nodes[node].recs[..p] + [rec] + nodes[node].recs[p..])]
  }

  // removeNode: the neighbours of node are linked to each other.
  function Unlink(nodes: seq<Node>, node: nat): seq<Node>
    requires node < |nodes| && nodes[node].fLink < |nodes| && nodes[node].bLink < |nodes|
  {
    var d := nodes[node];
    var n1 := if d.bLink != 0 then nodes[d.bLink := nodes[d.bLink].(fLink := d.fLink)] else nodes;
    if d.fLink != 0 then n1[d.fLink := n1[d.fLink].(bLink := d.bLink)] else n1
  }

  // Node numbers c become c', without position j, and the links are set to match.
  lemma {:induction false} ChainLoses(nodes: seq<Node>, used: seq<bool>, c: seq<nat>, k: nat,
                   nodes': seq<Node>, used': seq<bool>, c': seq<nat>, j: nat)
    requires Chain(nodes, used, c, k) && j < |c|
    requires |c'| == |c| - 1
    requires forall i {:trigger c'[i]} :: 0 <= i < |c'| ==> c'[i] == if i < j then c[i] else c[i + 1]
    requires |nodes'| == |nodes| && |used'| == |used|
    requires forall x :: 0 <= x < |used| ==> used'[x] == (used[x] && x != c[j])
    requires forall x :: 0 <= x < |nodes| ==> nodes'[x].height == nodes[x].height
    requires forall x :: 0 <= x < |nodes| ==>
      nodes'[x].fLink == if x == Left(c, j) && x != 0 then Right(c, j) else nodes[x].fLink
    requires forall x :: 0 <= x < |nodes| ==>
      nodes'[x].bLink == if x == Right(c, j) && x != 0 then Left(c, j) else nodes[x].bLink
    ensures Chain(nodes', used', c', k)
  {
    assert Linked(nodes, c, j);
    forall i | 0 <= i < |c'|
      ensures 0 < c'[i] < |nodes'| && used'[c'[i]] && nodes'[c'[i]].height == k
    {
      var m := if i < j then i else i + 1;
      assert 0 < c[m] < |nodes| && c[m] != c[j];
    }
    forall i | 0 <= i < |c'| ensures Linked(nodes', c', i) {
      if i < j {
        assert Linked(nodes, c, i) && c'[i] == c[i];
        assert i > 0 ==> c'[i - 1] == c[i - 1];
        assert j + 1 < |c| ==> c[i] != c[j + 1];
        assert i + 1 < j ==> c'[i + 1] == c[i + 1] && c[i] != c[j - 1];
        assert i + 1 == j && i + 1 < |c'| ==> c'[i + 1] == c[j + 1];
      } else {
        assert Linked(nodes, c, i + 1) && c'[i] == c[i + 1];
        assert i + 1 < |c'| ==> c'[i + 1] == c[i + 2];
        assert j > 0 ==> c[j - 1] != c[i + 1];
        assert i > j ==> c'[i - 1] == c[i] && c[j + 1] != c[i + 1];
        assert i == j && i > 0 ==> c'[i - 1] == c[j - 1];
      }
    }
    forall i, i' | 0 <= i < i' < |c'| ensures c'[i] != c'[i'] {
      var m, m' := if i < j then i else i + 1, if i' < j then i' else i' + 1;
      assert c[m] != c[m'];
    }
  }

  lemma {:induction false} ChainUnlink(nodes: seq<Node>, used: seq<bool>, a: seq<nat>, node: nat, b: seq<nat>, k: nat)
    requires Chain(nodes, used, a + [node] + b, k)
    ensures 0 < node < |nodes| && nodes[node].fLink < |nodes| && nodes[node].bLink < |nodes|
    ensures Chain(Unlink(nodes, node), used[node := false], a + b, k)
  {
    var c := a + [node] + b;
    var j := |a|;
    assert c[j] == node && Linked(nodes, c, j);
    assert j + 1 < |c| ==> 0 < c[j + 1] < |nodes| && c[j] != c[j + 1];
    assert j > 0 ==> 0 < c[j - 1] < |nodes| && c[j - 1] != c[j];
    assert 0 < j < |c| - 1 ==> c[j - 1] != c[j + 1];
    ChainLoses(nodes, used, c, k, Unlink(nodes, node), used[node := false], a + b, j);
  }

  lemma {:induction false} ChainUnlinkOther(nodes: seq<Node>, used: seq<bool>, c: seq<nat>, k: nat, node: nat)
    requires node < |nodes| && nodes[node].fLink < |nodes| && nodes[node].bLink < |nodes|
    requires Chain(nodes, used, c, k) && nodes[node].height != k
    requires nodes[node].fLink != 0 ==> nodes[nodes[node].fLink].height != k
    requires nodes[node].bLink != 0 ==> nodes[nodes[node].bLink].height != k
    ensures Chain(Unlink(nodes, node), used[node := false], c, k)
  {
    var nodes' := Unlink(nodes, node);
    assert forall i :: 0 <= i < |c| ==> nodes'[c[i]] == nodes[c[i]];
    forall i | 0 <= i < |c| ensures Linked(nodes', c, i) {
      assert Linked(nodes, c, i);
    }
  }

  ghost predicate SameLinks(m: seq<Node>, n: seq<Node>) {
    |m| == |n| && forall i :: 0 <= i < |m| ==>
      n[i].height == m[i].height && n[i].kind == m[i].kind && n[i].fLink == m[i].fLink && n[i].bLink == m[i].bLink
  }

  // Chains look at heights and links only.
  lemma {:induction false} ChainSame(nodes: seq<Node>, nodes': seq<Node>, used: seq<bool>, c: seq<nat>, k: nat)
    requires Chain(nodes, used, c, k) && SameLinks(nodes, nodes')
    ensures Chain(nodes', used, c, k)
  {
    forall i | 0 <= i < |c| ensures Linked(nodes', c, i) {
      assert Linked(nodes, c, i);
    }
  }

  /* ----- Going down into one child and coming back ----- */

  // Insertion claims node numbers that were clear and gives none back.
  ghost predicate Claimed(u: seq<bool>, u': seq<bool>, ids: set<nat>, ids': set<nat>) {
    && |u| == |u'|
    && ids <= ids'
    && (forall n :: 0 <= n < |u| ==> (u'[n] <==> (u[n] || n in ids')))
    && (forall n :: n in ids' && n !in ids ==> n < |u| && !u[n])
  }

  // Removal gives node numbers back and claims none.
  ghost predicate Released(u: seq<bool>, u': seq<bool>, ids: set<nat>, ids': set<nat>) {
    && |u| == |u'|
    && ids' <= ids
    && (forall n :: 0 <= n < |u| ==> (u'[n] <==> (u[n] && (n in ids ==> n in ids'))))
  }

  function DownLeft(left: seq<seq<nat>>, kids: seq<Tree>, c: nat, h: nat): seq<seq<nat>>
    requires |left| == h + 1 && c < |kids| && h >= 1
  {
    seq(h, k requires 0 <= k < h => left[k] + LevelF(kids[..c], h - 1, k))
  }

  function DownRight(right: seq<seq<nat>>, kids: seq<Tree>, c: nat, h: nat): seq<seq<nat>>
    requires |right| == h + 1 && c < |kids| && h >= 1
  {
    seq(h, k requires 0 <= k < h => LevelF(kids[c + 1..], h - 1, k) + right[k])
  }

  lemma {:induction false} LevelOne(t: Tree, h: nat, k: nat)
    ensures LevelF([t], h, k) == Level(t, h, k)
  {
    assert [t][1..] == [];
  }

  lemma {:induction false} RowSplice(left: seq<seq<nat>>, right: seq<seq<nat>>, kids: seq<Tree>, c: nat, ts: seq<Tree>, h: nat, k: nat)
    requires |left| == |right| == h + 1 && c < |kids| && 1 <= k < h
    ensures DownLeft(left, kids, c, h)[k] + LevelF(ts, h - 1, k) + DownRight(right, kids, c, h)[k]
         == left[k] + LevelF(kids[..c] + ts + kids[c + 1..], h - 1, k) + right[k]
  {
    LevelSpliced(kids[..c], ts, kids[c + 1..], h - 1, k);
  }

  lemma {:induction false} ChainsDown(s: Store, left: seq<seq<nat>>, right: seq<seq<nat>>, id: nat, kids: seq<Tree>, c: nat, h: nat)
    requires h >= 2 && c < |kids|
    requires Chains(s, left, [Index(id, kids)], right, h)
    ensures Chains(s, DownLeft(left, kids, c, h), [kids[c]], DownRight(right, kids, c, h), h - 1)
    ensures Chain(s.nodes, s.used, left[h] + [id] + right[h], h)
    ensures left[1] + LevelF([Index(id, kids)], h, 1) + right[1]
         == DownLeft(left, kids, c, h)[1] + LevelF([kids[c]], h - 1, 1) + DownRight(right, kids, c, h)[1]
  {
    assert kids == kids[..c] + [kids[c]] + kids[c + 1..];
    forall k | 1 <= k <= h - 1
      ensures left[k] + LevelF([Index(id, kids)], h, k) + right[k]
           == DownLeft(left, kids, c, h)[k] + LevelF([kids[c]], h - 1, k) + DownRight(right, kids, c, h)[k]
    {
      LevelOne(Index(id, kids), h, k);
      RowSplice(left, right, kids, c, [kids[c]], h, k);
    }
    LevelOne(Index(id, kids), h, h);
  }

  // The lower chains, seen from above again.
  ghost predicate LowChains(s: Store, left: seq<seq<nat>>, kids: seq<Tree>, right: seq<seq<nat>>, h: nat)
    requires |left| == |right| == h + 1
  {
    forall k :: 1 <= k < h ==> Chain(s.nodes, s.used, left[k] + LevelF(kids, h - 1, k) + right[k], k)
  }

  lemma {:induction false} ChainsUp(s: Store, left: seq<seq<nat>>, right: seq<seq<nat>>, kids: seq<Tree>, c: nat, ts: seq<Tree>, h: nat)
    requires h >= 2 && c < |kids| && |left| == |right| == h + 1
    requires Chains(s, DownLeft(left, kids, c, h), ts, DownRight(right, kids, c, h), h - 1)
    ensures LowChains(s, left, kids[..c] + ts + kids[c + 1..], right, h)
    ensures left[1] + LevelF(kids[..c] + ts + kids[c + 1..], h - 1, 1) + right[1]
         == DownLeft(left, kids, c, h)[1] + LevelF(ts, h - 1, 1) + DownRight(right, kids, c, h)[1]
  {
    forall k | 1 <= k < h
      ensures Chain(s.nodes, s.used, left[k] + LevelF(kids[..c] + ts + kids[c + 1..], h - 1, k) + right[k], k)
    {
      RowSplice(left, right, kids, c, ts, h, k);
    }
    RowSplice(left, right, kids, c, ts, h, 1);
  }

  lemma {:induction false} HoldsOne(s: Store, g: Geometry, t: Tree, h: nat)
    ensures Holds(s, g, [t], h) <==>
      (WF(g, t, h) && Uniq(t) && Repr(s.nodes, t, h) && Sorted(Contents(t)) && IdsOk(s, Ids(t)))
    ensures ContentsF([t]) == Contents(t) && IdsF([t]) == Ids(t)
  {
    hide WF, Repr, Uniq, UniqF, Ids, IdsF, Contents, ContentsF, Sorted, IdsOk;
    One(t);
    assert WFF(g, [t], h) <==> WF(g, [t][0], h);
    assert ReprF(s.nodes, [t], h) <==> Repr(s.nodes, [t][0], h);
  }

  lemma {:induction false} KidsHeld(s: Store, g: Geometry, id: nat, kids: seq<Tree>, h: nat)
    requires Holds(s, g, [Index(id, kids)], h)
    ensures h >= 2 && Holds(s, g, kids, h - 1)
    ensures id !in IdsF(kids) && IdsOk(s, {id}) && s.nodes[id].height == h
    ensures s.nodes[id].kind == IndexNode && s.nodes[id].recs == RecsOf(kids) && 1 <= |kids| <= g.IndexCap()
  {
    hide *;
    HoldsOne(s, g, Index(id, kids), h);
    IndexParts(s, g, id, kids, h);
    IdsOkParts(s, {id}, IdsF(kids));
    IdBound(s, id);
    HoldsIntro(s, g, kids, h - 1);
  }

  lemma {:induction false} IdBound(s: Store, id: nat)
    ensures IdsOk(s, {id}) <==> (|s.nodes| <= |s.used| && 0 < id < |s.nodes| && s.used[id])
  {
  }

  // What the predicates say of an index node, one step down.
  lemma {:induction false} IndexParts(s: Store, g: Geometry, id: nat, kids: seq<Tree>, h: nat)
    ensures Contents(Index(id, kids)) == ContentsF(kids) && Ids(Index(id, kids)) == {id} + IdsF(kids)
    ensures Uniq(Index(id, kids)) <==> (id !in IdsF(kids) && UniqF(kids))
    ensures WF(g, Index(id, kids), h) <==> (h >= 2 && 1 <= |kids| <= g.IndexCap() && WFF(g, kids, h - 1))
    ensures Repr(s.nodes, Index(id, kids), h) <==>
      (id < |s.nodes| && s.nodes[id].height == h && s.nodes[id].kind == IndexNode
       && s.nodes[id].recs == RecsOf(kids) && h >= 1 && ReprF(s.nodes, kids, h - 1))
  {
    hide WFF, ReprF, UniqF, IdsF, ContentsF, RecsOf;
  }

  lemma {:induction false} HoldsIntro(s: Store, g: Geometry, ts: seq<Tree>, h: nat)
    requires WFF(g, ts, h) && UniqF(ts) && ReprF(s.nodes, ts, h) && Sorted(ContentsF(ts)) && IdsOk(s, IdsF(ts))
    ensures Holds(s, g, ts, h)
  {
  }

  lemma {:induction false} HoldsIndex(s: Store, g: Geometry, id: nat, kids: seq<Tree>, h: nat)
    requires h >= 2 && Holds(s, g, kids, h - 1)
    requires id !in IdsF(kids) && IdsOk(s, {id}) && s.nodes[id].height == h
    requires s.nodes[id].kind == IndexNode && s.nodes[id].recs == RecsOf(kids) && 1 <= |kids| <= g.IndexCap()
    ensures Holds(s, g, [Index(id, kids)], h)
  {
    hide WF, WFF, Repr, ReprF, Uniq, UniqF, Sorted, Ids, IdsF, Contents, ContentsF, IdsOk, RecsOf;
    HoldsOne(s, g, Index(id, kids), h);
    IndexParts(s, g, id, kids, h);
    IdsOkParts(s, {id}, IdsF(kids));
    IdBound(s, id);
  }

  lemma {:induction false} KidOf(s: Store, g: Geometry, kids: seq<Tree>, h: nat, c: nat)
    requires Holds(s, g, kids, h) && c < |kids|
    ensures Holds(s, g, [kids[c]], h)
    ensures s.nodes[kids[c].id].height == h
  {
    Around(kids, c);
    KidOrder(g, kids, h, c);
    HoldsOne(s, g, kids[c], h);
  }

  // Trees besides the child the work went into are still held.
  lemma {:induction false} Beside(s: Store, s': Store, g: Geometry, ts: seq<Tree>, h: nat, ids: set<nat>, ids': set<nat>)
    requires WFF(g, ts, h) && UniqF(ts) && ReprF(s.nodes, ts, h) && IdsOk(s, IdsF(ts)) && IdsF(ts) !! ids
    requires Frame(s, s', ids, h)
    requires Claimed(s.used, s'.used, ids, ids') || Released(s.used, s'.used, ids, ids')
    ensures ReprF(s'.nodes, ts, h) && IdsOk(s', IdsF(ts)) && IdsF(ts) !! ids'
  {
    ReprFFrame(s.nodes, s'.nodes, ts, h);
  }

  lemma {:induction false} JoinForest(s: Store, g: Geometry, a: seq<Tree>, b: seq<Tree>, h: nat)
    requires WFF(g, a, h) && ReprF(s.nodes, a, h)
    requires WFF(g, b, h) && ReprF(s.nodes, b, h)
    ensures WFF(g, a + b, h) && ReprF(s.nodes, a + b, h)
  {
    forall i | 0 <= i < |a + b| ensures WF(g, (a + b)[i], h) && Repr(s.nodes, (a + b)[i], h) {
      if i < |a| {
        assert (a + b)[i] == a[i];
      } else {
        assert (a + b)[i] == b[i - |a|];
      }
    }
  }

  lemma {:induction false} AfterKid(s: Store, s': Store, g: Geometry, id: nat, kids: seq<Tree>, c: nat, ts: seq<Tree>, h: nat)
    requires h >= 2 && c < |kids| && Holds(s, g, kids, h - 1) && IdsOk(s, {id}) && id !in IdsF(kids)
    requires s.nodes[id].height == h
    requires Holds(s', g, ts, h - 1)
    requires Frame(s, s', Ids(kids[c]), h - 1)
    requires Claimed(s.used, s'.used, Ids(kids[c]), IdsF(ts)) || Released(s.used, s'.used, Ids(kids[c]), IdsF(ts))
    requires Sorted(ContentsF(kids[..c] + ts + kids[c + 1..]))
    ensures Holds(s', g, kids[..c] + ts + kids[c + 1..], h - 1)
  {
    hide WFF, ReprF, UniqF, IdsOk, Frame, Claimed, Released, IdsF, Ids, ContentsF, Sorted;
    Sides(s, s', g, kids, c, h - 1, IdsF(ts));
    JoinThree(s', g, kids[..c], ts, kids[c + 1..], h - 1);
  }

  lemma {:induction false} JoinThree(s: Store, g: Geometry, a: seq<Tree>, x: seq<Tree>, b: seq<Tree>, h: nat)
    requires WFF(g, a, h) && UniqF(a) && ReprF(s.nodes, a, h) && IdsOk(s, IdsF(a))
    requires WFF(g, x, h) && UniqF(x) && ReprF(s.nodes, x, h) && IdsOk(s, IdsF(x))
    requires WFF(g, b, h) && UniqF(b) && ReprF(s.nodes, b, h) && IdsOk(s, IdsF(b))
    requires IdsF(a) !! IdsF(b) && (IdsF(a) + IdsF(b)) !! IdsF(x)
    requires Sorted(ContentsF(a + x + b))
    ensures Holds(s, g, a + x + b, h)
  {
    JoinForest(s, g, a, x, h);
    JoinForest(s, g, a + x, b, h);
    Spliced(a, x, b);
  }

  lemma {:induction false} Sides(s: Store, s': Store, g: Geometry, kids: seq<Tree>, c: nat, h: nat, ids': set<nat>)
    requires c < |kids| && WFF(g, kids, h) && UniqF(kids) && ReprF(s.nodes, kids, h) && IdsOk(s, IdsF(kids))
    requires Frame(s, s', Ids(kids[c]), h)
    requires Claimed(s.used, s'.used, Ids(kids[c]), ids') || Released(s.used, s'.used, Ids(kids[c]), ids')
    ensures WFF(g, kids[..c], h) && UniqF(kids[..c]) && ReprF(s'.nodes, kids[..c], h) && IdsOk(s', IdsF(kids[..c]))
    ensures WFF(g, kids[c + 1..], h) && UniqF(kids[c + 1..]) && ReprF(s'.nodes, kids[c + 1..], h) && IdsOk(s', IdsF(kids[c + 1..]))
    ensures IdsF(kids[..c]) !! IdsF(kids[c + 1..]) && (IdsF(kids[..c]) + IdsF(kids[c + 1..])) !! ids'
  {
    Around(kids, c);
    Part(s, g, kids, h, 0, c);
    Part(s, g, kids, h, c + 1, |kids|);
    assert kids[c + 1..] == kids[c + 1..|kids|] && kids[..c] == kids[0..c];
    Beside(s, s', g, kids[..c], h, Ids(kids[c]), ids');
    Beside(s, s', g, kids[c + 1..], h, Ids(kids[c]), ids');
  }

  lemma {:induction false} AfterKidIds(s: Store, s': Store, id: nat, kids: seq<Tree>, c: nat, ts: seq<Tree>)
    requires c < |kids| && IdsOk(s, IdsF(kids)) && UniqF(kids) && IdsOk(s, {id}) && id !in IdsF(kids)
    ensures Claimed(s.used, s'.used, Ids(kids[c]), IdsF(ts)) ==>
      && Claimed(s.used, s'.used, IdsF(kids), IdsF(kids[..c] + ts + kids[c + 1..]))
      && id !in IdsF(kids[..c] + ts + kids[c + 1..]) && s'.used[id]
    ensures Released(s.used, s'.used, Ids(kids[c]), IdsF(ts)) ==>
      && Released(s.used, s'.used, IdsF(kids), IdsF(kids[..c] + ts + kids[c + 1..]))
      && id !in IdsF(kids[..c] + ts + kids[c + 1..]) && s'.used[id]
  {
    var a, b := kids[..c], kids[c + 1..];
    Around(kids, c);
    Spliced(a, ts, b);
  }

  lemma {:induction false} Part(s: Store, g: Geometry, ts: seq<Tree>, h: nat, i: nat, j: nat)
    requires WFF(g, ts, h) && ReprF(s.nodes, ts, h) && i <= j <= |ts|
    ensures WFF(g, ts[i..j], h) && ReprF(s.nodes, ts[i..j], h)
  {
    forall m | 0 <= m < |ts[i..j]| ensures WF(g, ts[i..j][m], h) && Repr(s.nodes, ts[i..j][m], h) {
      assert ts[i..j][m] == ts[i + m];
    }
  }

  /* ----- Putting a node back together ----- */

  lemma {:induction false} EntryRecsInsert(ents: seq<Entry>, i: nat, e: Entry)
    requires i <= |ents|
    ensures EntryRecs(InsertAt(ents, i, e)) == EntryRecs(ents)[..i] + [LeafRec(e.key, e.data)] + EntryRecs(ents)[i..]
  {
  }

  lemma {:induction false} EntryRecsSlice(ents: seq<Entry>, i: nat, j: nat)
    requires i <= j <= |ents|
    ensures EntryRecs(ents[i..j]) == EntryRecs(ents)[i..j]
  {
  }

  lemma {:induction false} RecsOfSlice(ts: seq<Tree>, i: nat, j: nat)
    requires i <= j <= |ts|
    ensures RecsOf(ts[i..j]) == RecsOf(ts)[i..j]
  {
  }

  lemma {:induction false} LeafParts(id: nat, ents: seq<Entry>)
    ensures Contents(Leaf(id, ents)) == ents && Ids(Leaf(id, ents)) == {id}
  {
  }

  lemma {:induction false} HoldsLeaf(s: Store, g: Geometry, id: nat, ents: seq<Entry>)
    requires IdsOk(s, {id}) && s.nodes[id].height == 1 && s.nodes[id].kind == LeafNode
    requires s.nodes[id].recs == EntryRecs(ents) && 1 <= |ents| <= g.LeafCap() && Sorted(ents)
    ensures Holds(s, g, [Leaf(id, ents)], 1)
  {
    HoldsOne(s, g, Leaf(id, ents), 1);
    assert Ids(Leaf(id, ents)) == {id};
  }

  lemma {:induction false} LeafHeld(s: Store, g: Geometry, id: nat, ents: seq<Entry>, h: nat)
    requires Holds(s, g, [Leaf(id, ents)], h)
    ensures h == 1 && IdsOk(s, {id}) && s.nodes[id].height == 1 && s.nodes[id].kind == LeafNode
    ensures s.nodes[id].recs == EntryRecs(ents) && 1 <= |ents| <= g.LeafCap() && Sorted(ents)
  {
    HoldsOne(s, g, Leaf(id, ents), h);
    assert Ids(Leaf(id, ents)) == {id};
  }

  lemma {:induction false} HoldsPair(s: Store, g: Geometry, t: Tree, u: Tree, h: nat)
    requires Holds(s, g, [t], h) && Holds(s, g, [u], h) && Ids(t) !! Ids(u)
    requires Sorted(Contents(t) + Contents(u))
    ensures Holds(s, g, [t, u], h)
    ensures ContentsF([t, u]) == Contents(t) + Contents(u) && IdsF([t, u]) == Ids(t) + Ids(u)
  {
    hide Contents, Ids, Uniq, WF, Repr, Sorted, IdsOk, UniqF, IdsF, ContentsF, WFF, ReprF;
    assert [t] + [u] == [t, u];
    One(t); One(u);
    ContentsConcat([t], [u]); IdsConcat([t], [u]); UniqConcat([t], [u]);
    JoinForest(s, g, [t], [u], h);
    IdsOkParts(s, Ids(t), Ids(u));
  }

  lemma {:induction false} LevelPair(t: Tree, u: Tree, h: nat, k: nat)
    ensures LevelF([t, u], h, k) == Level(t, h, k) + Level(u, h, k)
  {
    assert [t] + [u] == [t, u];
    LevelConcat([t], [u], h, k);
    LevelOne(t, h, k);
    LevelOne(u, h, k);
  }

  /* ----- Frames ----- */

  lemma {:induction false} FrameTrans(s: Store, m: Store, s': Store, ids: set<nat>, ids': set<nat>, h: nat, h': nat)
    requires Frame(s, m, ids, h) && Frame(m, s', ids', h')
    requires forall n :: 0 <= n < |s.used| && s.used[n] ==> m.used[n]
    requires h <= h'
    requires forall n :: n in ids' && n !in ids ==> n >= |s.used| || !s.used[n]
    ensures Frame(s, s', ids, h')
  {
    forall n | 0 <= n < |s.nodes| && s.used[n] && (s.nodes[n].height > h' || s.nodes[n].height == 0)
      ensures s'.nodes[n] == s.nodes[n]
    {
      assert m.nodes[n] == s.nodes[n];
    }
  }

  // Rewriting the records of one node.
  lemma {:induction false} FrameRecs(s: Store, id: nat, recs: seq<Rec>, h: nat)
    requires |s.nodes| <= |s.used| && id < |s.nodes| && 0 < s.nodes[id].height <= h
    ensures Frame(s, Store(s.nodes[id := s.nodes[id].(recs := recs)], s.used), {id}, h)
  {
  }

  lemma {:induction false} FrameSplit(s: Store, a: seq<nat>, id: nat, b: seq<nat>, added: nat, h: nat)
    requires h > 0 && Chain(s.nodes, s.used, a + [id] + b, h)
    requires 0 < added < |s.nodes| && !s.used[added]
    ensures id < |s.nodes| && s.nodes[id].fLink < |s.nodes| && s.nodes[id].height == h
    ensures s.nodes[id].fLink != 0 ==> s.nodes[s.nodes[id].fLink].height == h
    ensures Frame(s, Store(SplitNodes(s.nodes, id, added), s.used[added := true]), {id}, h)
  {
    var c := a + [id] + b;
    assert c[|a|] == id && Linked(s.nodes, c, |a|);
    assert |a| + 1 < |c| ==> 0 < c[|a| + 1] < |s.nodes|;
  }
}
