/**
  Search and leaf-chain scans: what a search reports in terms of the tree, how a
  position in the chain of leaves is a position in the contents, and what a scan
  for one owner's keys lists.
 */
module BTreeScan {
  import opened BTreeModel
  import opened BTreeInsert
  import opened BTreeRemove
  import opened BTreeMap
  import KeyOrder

  // What search hands back: hfs_panic, or the leaf, the record number and the data it read.
  datatype SearchResult = Panic | Found(exact: bool, nodeNumber: nat, recordNumber: nat, data: Data)

  // The report of a search: hfs_panic below the first key; else the landing leaf, how many of its
  // keys are smaller, whether the key is there, and the data of that record or of the one before.
  ghost predicate Reports(t: Tree, key: int, r: SearchResult) {
    var l := Landing(t, key);
    && (r.Panic? <==> key < FirstKey(t))
    && (r.Found? ==>
      && l.Leaf? && r.nodeNumber == l.id
      && r.recordNumber == Rank(l.ents, key)
      && (r.exact <==> HasKey(Contents(t), key))
      && (r.exact ==> r.recordNumber < |l.ents| && l.ents[r.recordNumber] == Entry(key, r.data))
      && (!r.exact ==> 0 < r.recordNumber <= |l.ents| && l.ents[r.recordNumber - 1].data == r.data))
  }

  lemma {:induction false} LeafReport(s: Store, g: Geometry, t: Tree, h: nat, i: nat, key: int, r: SearchResult)
    requires t.Leaf? && Holds(s, g, [t], h) && t.id < |s.nodes|
    requires var recs := s.nodes[t.id].recs;
      && i <= |recs| && (forall j :: 0 <= j < |recs| ==> recs[j].LeafRec?)
      && (forall j :: 0 <= j < i ==> recs[j].key < key)
      && (i < |recs| ==> key <= recs[i].key)
      && r == (if i < |recs| && recs[i].key == key then Found(true, t.id, i, recs[i].data)
               else if i == 0 then Panic else Found(false, t.id, i, recs[i - 1].data))
    ensures Reports(t, key, r)
  {
    NodeRecs(s, g, t, h);
    LeafHeld(s, g, t.id, t.ents, h);
    var recs := s.nodes[t.id].recs;
    assert forall j :: 0 <= j < |t.ents| ==> recs[j] == LeafRec(t.ents[j].key, t.ents[j].data);
    RankIs(t.ents, key, i);
    if i < |recs| && recs[i].key == key {
      assert t.ents[i].key == key;
    } else {
      LeafGap(s, g, t, h, i, key);
    }
  }

  lemma {:induction false} IndexReport(s: Store, g: Geometry, t: Tree, h: nat, c: nat, key: int, r: SearchResult)
    requires t.Index? && Holds(s, g, [t], h) && GoesTo(t.kids, c, key)
    requires Reports(t.kids[c], key, r)
    ensures Reports(t, key, r)
  {
    hide Holds, Landing, FirstKey, HasKey, Contents, ContentsF, Rank;
    KidsHeld(s, g, t.id, t.kids, h);
    HoldsParts(s, g, t.kids, h - 1);
    GoesToLanding(g, t.id, t.kids, h - 1, c, key);
    KeyWithin(g, t.kids, h - 1, c, key);
    IndexContents(t.id, t.kids);
  }

  lemma {:induction false} DescendTo(s: Store, g: Geometry, t: Tree, h: nat, c: nat, key: int)
    requires t.Index? && Holds(s, g, [t], h) && t.id < |s.nodes| && c < |s.nodes[t.id].recs|
    requires s.nodes[t.id].recs[c].key <= key
    requires c + 1 < |s.nodes[t.id].recs| ==> key < s.nodes[t.id].recs[c + 1].key
    ensures GoesTo(t.kids, c, key) && s.nodes[t.id].recs[c] == PtrRec(FirstKey(t.kids[c]), t.kids[c].id)
    ensures h >= 2 && Holds(s, g, [t.kids[c]], h - 1)
  {
    GoesToChild(s, g, t, h, c, key);
    KidsHeld(s, g, t.id, t.kids, h);
    KidOf(s, g, t.kids, h - 1, c);
  }

  // Below the first key nothing is reported.
  lemma {:induction false} BelowFirst(s: Store, g: Geometry, t: Tree, h: nat, key: int)
    requires Holds(s, g, [t], h) && t.id < |s.nodes| && s.nodes[t.id].recs != [] && key < s.nodes[t.id].recs[0].key
    ensures key < FirstKey(t) && !HasKey(Contents(t), key)
  {
    NodeRecs(s, g, t, h);
    NotThereFirst(s, g, t, h, key);
  }

  lemma {:induction false} NotThereFirst(s: Store, g: Geometry, t: Tree, h: nat, key: int)
    requires Holds(s, g, [t], h) && key < FirstKey(t)
    ensures !HasKey(Contents(t), key)
    ensures forall i :: 0 <= i < |Contents(t)| ==> key < Contents(t)[i].key
  {
    HoldsOne(s, g, t, h);
    FirstIsFirst(g, t, h);
  }

  /* ----- The chain of leaves ----- */

  function FlatRecs(nodes: seq<Node>, c: seq<nat>): seq<Rec>
    requires forall i :: 0 <= i < |c| ==> c[i] < |nodes|
  {
    if c == [] then [] else nodes[c[0]].recs + FlatRecs(nodes, c[1..])
  }

  lemma {:induction false} FlatConcat(nodes: seq<Node>, a: seq<nat>, b: seq<nat>)
    requires forall i :: 0 <= i < |a| ==> a[i] < |nodes|
    requires forall i :: 0 <= i < |b| ==> b[i] < |nodes|
    ensures forall i :: 0 <= i < |a + b| ==> (a + b)[i] < |nodes|
    ensures FlatRecs(nodes, a + b) == FlatRecs(nodes, a) + FlatRecs(nodes, b)
  {
    if a == [] {
      assert a + b == b;
    } else {
      FlatConcat(nodes, a[1..], b);
      assert (a + b)[1..] == a[1..] + b;
    }
  }

  // The records of the leaves, left to right, are the contents.
  lemma {:induction false} LeavesAreContents(nodes: seq<Node>, g: Geometry, t: Tree, h: nat)
    requires Repr(nodes, t, h) && WF(g, t, h)
    ensures forall i :: 0 <= i < |Level(t, h, 1)| ==> Level(t, h, 1)[i] < |nodes|
    ensures FlatRecs(nodes, Level(t, h, 1)) == EntryRecs(Contents(t))
    decreases h, 0
  {
    match t
    case Leaf(id, ents) =>
      assert Level(t, h, 1) == [id] && [id][1..] == [];
      assert FlatRecs(nodes, [id][1..]) == [];
    case Index(id, kids) =>
      LeavesAreContentsF(nodes, g, kids, h - 1);
  }

  lemma {:induction false} LeavesAreContentsF(nodes: seq<Node>, g: Geometry, ts: seq<Tree>, h: nat)
    requires ReprF(nodes, ts, h) && WFF(g, ts, h)
    ensures forall i :: 0 <= i < |LevelF(ts, h, 1)| ==> LevelF(ts, h, 1)[i] < |nodes|
    ensures FlatRecs(nodes, LevelF(ts, h, 1)) == EntryRecs(ContentsF(ts))
    decreases h, 1, |ts|
  {
    LevelHead(ts, h, 1);
    ContentsHead(ts);
    if ts != [] {
      assert WF(g, ts[0], h) && Repr(nodes, ts[0], h);
      assert forall i :: 0 <= i < |ts[1..]| ==> ts[1..][i] == ts[i + 1];
      LeavesAreContents(nodes, g, ts[0], h);
      LeavesAreContentsF(nodes, g, ts[1..], h);
      FlatConcat(nodes, Level(ts[0], h, 1), LevelF(ts[1..], h, 1));
    }
  }

  // Where the landing leaf sits in the chain: before it only smaller keys, behind it only larger ones.
  ghost predicate Sits(nodes: seq<Node>, c: seq<nat>, s: seq<Entry>, key: int, l: Tree, j: nat, o: nat) {
    && l.Leaf? && j < |c| && c[j] == l.id
    && (forall i :: 0 <= i < |c| ==> c[i] < |nodes|)
    && |nodes[c[j]].recs| == |l.ents|
    && o == |FlatRecs(nodes, c[..j])|
    && o + |l.ents| <= |s| && s[o..o + |l.ents|] == l.ents
    && (forall i :: 0 <= i < o ==> s[i].key < key)
    && (forall i :: o + |l.ents| <= i < |s| ==> key < s[i].key)
  }

  lemma {:induction false} LandingSits(nodes: seq<Node>, g: Geometry, t: Tree, h: nat, key: int) returns (j: nat, o: nat)
    requires Repr(nodes, t, h) && WF(g, t, h) && Sorted(Contents(t)) && FirstKey(t) <= key
    ensures Sits(nodes, Level(t, h, 1), Contents(t), key, Landing(t, key), j, o)
    decreases h
  {
    hide Sits, FlatRecs, LevelF, ContentsF, Sorted, EntryRecs, RecsOf;
    match t
    case Leaf(id, ents) =>
      j, o := 0, 0;
      LeafSits(nodes, g, id, ents, h, key);
    case Index(id, kids) =>
      var c := ChildOf(g, kids, h - 1, key);
      GoesToLanding(g, id, kids, h - 1, c, key);
      KidOrder(g, kids, h - 1, c);
      j, o := LandingSits(nodes, g, kids[c], h - 1, key);
      SitsUp(nodes, g, kids, h - 1, c, key, Landing(kids[c], key), j, o);
      j, o := |LevelF(kids[..c], h - 1, 1)| + j, |ContentsF(kids[..c])| + o;
  }

  lemma {:induction false} LeafSits(nodes: seq<Node>, g: Geometry, id: nat, ents: seq<Entry>, h: nat, key: int)
    requires Repr(nodes, Leaf(id, ents), h) && WF(g, Leaf(id, ents), h)
    ensures Sits(nodes, Level(Leaf(id, ents), h, 1), ents, key, Leaf(id, ents), 0, 0)
  {
    assert [id][..0] == [];
  }

  lemma {:induction false} ChildOf(g: Geometry, kids: seq<Tree>, h: nat, key: int) returns (c: nat)
    requires WFF(g, kids, h) && kids != [] && Sorted(ContentsF(kids)) && FirstKey(kids[0]) <= key
    ensures GoesTo(kids, c, key)
  {
    c := 0;
    while c + 1 < |kids| && FirstKey(kids[c + 1]) <= key
      invariant c < |kids| && FirstKey(kids[c]) <= key
    {
      c := c + 1;
    }
  }

  lemma {:induction false} SitsUp(nodes: seq<Node>, g: Geometry, kids: seq<Tree>, h: nat, c: nat, key: int, l: Tree, j: nat, o: nat)
    requires ReprF(nodes, kids, h) && WFF(g, kids, h) && Sorted(ContentsF(kids)) && GoesTo(kids, c, key)
    requires Sits(nodes, Level(kids[c], h, 1), Contents(kids[c]), key, l, j, o)
    ensures Sits(nodes, LevelF(kids, h, 1), ContentsF(kids), key, l,
                 |LevelF(kids[..c], h, 1)| + j, |ContentsF(kids[..c])| + o)
  {
    hide ReprF, WFF, FlatRecs, LevelF, Level, ContentsF, Contents, Sorted, FirstKey, EntryRecs, IdsF, Ids, Uniq, UniqF;
    var a, x, b := kids[..c], kids[c], kids[c + 1..];
    var la, lx, lb := LevelF(a, h, 1), Level(x, h, 1), LevelF(b, h, 1);
    var ca, cx, cb := ContentsF(a), Contents(x), ContentsF(b);
    LeavesAreContentsF(nodes, g, kids, h);
    Part(Store(nodes, []), g, kids, h, 0, c);
    assert kids[0..c] == a;
    LeavesAreContentsF(nodes, g, a, h);
    KidOrder(g, kids, h, c);
    Around(kids, c);
    LevelSpliced(a, [x], b, h, 1);
    LevelOne(x, h, 1);
    assert LevelF(kids, h, 1) == la + lx + lb;
    assert (la + lx + lb)[..|la| + j] == la + lx[..j];
    FlatConcat(nodes, la, lx[..j]);
    SitsMiddle(ca, cx, cb, l.ents, o, key, FirstKey(kids[c]), if c + 1 < |kids| then FirstKey(kids[c + 1]) else key + 1);
  }

  lemma {:induction false} SitsMiddle(a: seq<Entry>, x: seq<Entry>, b: seq<Entry>, ents: seq<Entry>, o: nat, key: int, lo: int, hi: int)
    requires Sorted(a + x + b) && lo <= key < hi
    requires forall i :: 0 <= i < |a| ==> a[i].key < lo
    requires b != [] ==> b[0].key == hi
    requires o + |ents| <= |x| && x[o..o + |ents|] == ents
    requires forall i :: 0 <= i < o ==> x[i].key < key
    requires forall i :: o + |ents| <= i < |x| ==> key < x[i].key
    ensures var s, p := a + x + b, |a| + o;
      && p + |ents| <= |s| && s[p..p + |ents|] == ents
      && (forall i :: 0 <= i < p ==> s[i].key < key)
      && (forall i :: p + |ents| <= i < |s| ==> key < s[i].key)
  {
    var s, p := a + x + b, |a| + o;
    InMiddle(a, x, b, o, |ents|);
    forall i | 0 <= i < p ensures s[i].key < key {
      if i < |a| {
        assert s[i] == a[i];
      } else {
        assert s[i] == x[i - |a|];
      }
    }
    BehindMiddle(a, x, b, o + |ents|, key, hi);
  }

  lemma {:induction false} InMiddle(a: seq<Entry>, x: seq<Entry>, b: seq<Entry>, o: nat, n: nat)
    requires o + n <= |x|
    ensures (a + x + b)[|a| + o..|a| + o + n] == x[o..o + n]
  {
  }

  lemma {:induction false} BehindMiddle(a: seq<Entry>, x: seq<Entry>, b: seq<Entry>, n: nat, key: int, hi: int)
    requires Sorted(a + x + b) && key < hi && n <= |x|
    requires b != [] ==> b[0].key == hi
    requires forall i :: n <= i < |x| ==> key < x[i].key
    ensures forall i :: |a| + n <= i < |a + x + b| ==> key < (a + x + b)[i].key
  {
    var s := a + x + b;
    forall i | |a| + n <= i < |s| ensures key < s[i].key {
      var m := |a| + |x|;
      if i < m {
        assert s[i] == x[i - |a|];
      } else {
        assert s[m] == b[0] && s[m].key == hi;
        assert i == m || s[m].key < s[i].key;
      }
    }
  }

  lemma {:induction false} RankSplits(ents: seq<Entry>, key: int)
    requires Sorted(ents)
    ensures Rank(ents, key) <= |ents|
    ensures forall j :: 0 <= j < Rank(ents, key) ==> ents[j].key < key
    ensures forall j :: Rank(ents, key) <= j < |ents| ==> key <= ents[j].key
  {
    if ents != [] && ents[0].key < key {
      assert forall j, k :: 0 <= j < k < |ents[1..]| ==> ents[1..][j] == ents[j + 1] && ents[1..][k] == ents[k + 1];
      RankSplits(ents[1..], key);
      forall j | 0 <= j < |ents|
        ensures j < Rank(ents, key) ==> ents[j].key < key
        ensures j >= Rank(ents, key) ==> key <= ents[j].key
      {
        if j > 0 {
          assert ents[j] == ents[1..][j - 1];
        }
      }
    }
  }

  // The position a search reports, as a position in the contents.
  lemma {:induction false} SearchPosition(nodes: seq<Node>, g: Geometry, t: Tree, h: nat, key: int) returns (j: nat, o: nat)
    requires Repr(nodes, t, h) && WF(g, t, h) && Sorted(Contents(t)) && FirstKey(t) <= key
    ensures var l := Landing(t, key);
      && Sits(nodes, Level(t, h, 1), Contents(t), key, l, j, o)
      && Rank(l.ents, key) <= |l.ents|
      && (forall i :: 0 <= i < o + Rank(l.ents, key) ==> Contents(t)[i].key < key)
      && (forall i :: o + Rank(l.ents, key) <= i < |Contents(t)| ==> key <= Contents(t)[i].key)
  {
    j, o := LandingSits(nodes, g, t, h, key);
    var l := Landing(t, key);
    hide Landing, Contents, Repr, WF, FirstKey, Level, Sorted, FlatRecs, Rank;
    Position(Contents(t), l.ents, o, key);
  }

  lemma {:induction false} Position(s: seq<Entry>, ents: seq<Entry>, o: nat, key: int)
    requires Sorted(s) && o + |ents| <= |s| && s[o..o + |ents|] == ents
    requires forall i :: 0 <= i < o ==> s[i].key < key
    requires forall i :: o + |ents| <= i < |s| ==> key < s[i].key
    ensures var p := o + Rank(ents, key);
      && Rank(ents, key) <= |ents|
      && (forall i :: 0 <= i < p ==> s[i].key < key)
      && (forall i :: p <= i < |s| ==> key <= s[i].key)
  {
    hide Rank;
    assert forall i {:trigger ents[i]} :: 0 <= i < |ents| ==> ents[i] == s[o + i];
    RankSplits(ents, key);
    forall i | 0 <= i < |s|
      ensures i < o + Rank(ents, key) ==> s[i].key < key
      ensures i >= o + Rank(ents, key) ==> key <= s[i].key
    {
      if o <= i < o + |ents| {
        assert ents[i - o] == s[i];
      }
    }
  }

  // The records of the leaf at chain position j, as entries.
  lemma {:induction false} LeafSlice(nodes: seq<Node>, c: seq<nat>, s: seq<Entry>, j: nat)
    requires forall i :: 0 <= i < |c| ==> c[i] < |nodes|
    requires FlatRecs(nodes, c) == EntryRecs(s) && j < |c|
    ensures var o, recs := |FlatRecs(nodes, c[..j])|, nodes[c[j]].recs;
      && o + |recs| <= |s| && |FlatRecs(nodes, c[..j + 1])| == o + |recs|
      && forall i :: 0 <= i < |recs| ==> recs[i] == LeafRec(s[o + i].key, s[o + i].data)
  {
    hide FlatRecs;
    var a, x, b := c[..j], [c[j]], c[j + 1..];
    assert c == a + x + b && c[..j + 1] == a + x;
    FlatConcat(nodes, a, x);
    FlatConcat(nodes, a + x, b);
    FlatOne(nodes, c[j]);
    var f, recs, e := FlatRecs(nodes, a), nodes[c[j]].recs, EntryRecs(s);
    assert e == f + recs + FlatRecs(nodes, b);
    forall i | 0 <= i < |recs| ensures recs[i] == e[|f| + i] {
    }
  }

  lemma {:induction false} FlatOne(nodes: seq<Node>, id: nat)
    requires id < |nodes|
    ensures FlatRecs(nodes, [id]) == nodes[id].recs
  {
    var x := [id];
    assert x[1..] == [] && FlatRecs(nodes, x[1..]) == [];
  }

  /* ----- The keys of one owner ----- */

  // In a tree of names: the key is one of this owner's, and the one without a name only when threads are wanted.
  predicate Wanted(key: int, owner: nat, threads: bool) {
    Belongs(key, owner) && (threads || key != KeyOrder.OwnerKey(owner))
  }

  predicate Belongs(key: int, owner: nat) {
    KeyOrder.OwnerKey(owner) <= key < KeyOrder.OwnerKey(owner + 1)
  }

  function Owned(s: seq<Entry>, owner: nat, threads: bool): seq<Entry> {
    if s == [] then []
    else (if Wanted(s[0].key, owner, threads) then [s[0]] else []) + Owned(s[1..], owner, threads)
  }

  // Each key of the tree is the rank of an owner and a treated name.
  ghost predicate Keyed(names: seq<KeyOrder.NameKey>, s: seq<Entry>) {
    && |names| == |s|
    && forall i :: 0 <= i < |s| ==> KeyedBy(names[i], s[i].key)
  }

  ghost predicate KeyedBy(k: KeyOrder.NameKey, key: int) {
    KeyOrder.Chars(k.name) && |k.name| <= KeyOrder.NAME_UNITS && key == KeyOrder.KeyRank(k.owner, k.name)
  }

  lemma {:induction false} KeyedLength(names: seq<KeyOrder.NameKey>, s: seq<Entry>)
    requires Keyed(names, s)
    ensures |names| == |s|
  {
  }

  // What is asked for: the bindings of this owner, in order; without threads, those that have a name.
  function Listed(names: seq<KeyOrder.NameKey>, s: seq<Entry>, owner: nat, threads: bool): seq<Entry>
    requires |names| == |s|
  {
    if s == [] then []
    else (if names[0].owner == owner && (threads || names[0].name != []) then [s[0]] else [])
         + Listed(names[1..], s[1..], owner, threads)
  }

  lemma {:induction false} WantedIs(k: KeyOrder.NameKey, key: int, owner: nat, threads: bool)
    requires KeyedBy(k, key)
    ensures Wanted(key, owner, threads) <==> k.owner == owner && (threads || k.name != [])
  {
    hide KeyOrder.OwnerKey, KeyOrder.KeyRank, KeyOrder.Chars;
    KeyOrder.OwnersRange(k.owner, k.name, owner);
  }

  lemma {:induction false} ThreadKey(k: KeyOrder.NameKey, key: int, owner: nat)
    requires KeyedBy(k, key)
    ensures key == KeyOrder.OwnerKey(owner) <==> k == KeyOrder.NameKey(owner, [])
  {
    hide KeyOrder.OwnerKey, KeyOrder.KeyRank, KeyOrder.Chars, KeyOrder.Span;
    KeyOrder.OwnersRange(k.owner, k.name, owner);
    KeyOrder.OwnerKeys(owner, owner + 1);
  }

  lemma {:induction false} EarlierKey(k: KeyOrder.NameKey, key: int, owner: nat)
    requires KeyedBy(k, key)
    ensures key < KeyOrder.OwnerKey(owner) <==> k.owner < owner
  {
    hide KeyOrder.OwnerKey, KeyOrder.KeyRank, KeyOrder.Chars, KeyOrder.Span;
    KeyOrder.OwnersRange(k.owner, k.name, k.owner);
    if k.owner < owner {
      NextOwner(k.owner, owner);
    } else if owner < k.owner {
      NextOwner(owner, k.owner);
      KeyOrder.OwnerKeys(owner, k.owner);
    }
  }

  lemma {:induction false} NextOwner(a: nat, b: nat)
    requires a < b
    ensures KeyOrder.OwnerKey(a + 1) <= KeyOrder.OwnerKey(b)
  {
    if a + 1 < b {
      KeyOrder.OwnerKeys(a + 1, b);
    }
  }

  lemma {:induction false} ListedIsOwned(names: seq<KeyOrder.NameKey>, s: seq<Entry>, owner: nat, threads: bool)
    requires Keyed(names, s)
    ensures Listed(names, s, owner, threads) == Owned(s, owner, threads)
  {
    hide KeyedBy, Wanted;
    if s != [] {
      WantedIs(names[0], s[0].key, owner, threads);
      ListedIsOwned(names[1..], s[1..], owner, threads);
    }
  }

  // The wanted keys are those between two positions.
  ghost predicate Only(s: seq<Entry>, owner: nat, threads: bool, a: nat, b: nat) {
    a <= b <= |s| && forall i :: 0 <= i < |s| ==> (a <= i < b <==> Wanted(s[i].key, owner, threads))
  }

  lemma {:induction false} OnlyTail(s: seq<Entry>, owner: nat, threads: bool, a: nat, b: nat)
    requires s != [] && Only(s, owner, threads, a, b)
    ensures Only(s[1..], owner, threads, if a == 0 then 0 else a - 1, if b == 0 then 0 else b - 1)
    ensures a == 0 < b <==> Wanted(s[0].key, owner, threads)
  {
    hide Wanted;
    var t := s[1..];
    assert forall i {:trigger t[i]} :: 0 <= i < |t| ==> t[i] == s[i + 1];
  }

  lemma {:induction false} OnlyThese(s: seq<Entry>, owner: nat, threads: bool, a: nat, b: nat)
    requires Only(s, owner, threads, a, b)
    ensures a <= b <= |s| && Owned(s, owner, threads) == s[a..b]
    decreases |s|
  {
    hide Wanted;
    if s != [] {
      OnlyTail(s, owner, threads, a, b);
      OnlyThese(s[1..], owner, threads, if a == 0 then 0 else a - 1, if b == 0 then 0 else b - 1);
      hide Only;
      if a == 0 < b {
        TailSlice(s, 1, b);
        assert s[0..b] == [s[0]] + s[1..b];
      } else if b > 0 {
        TailSlice(s, a, b);
      }
    }
  }

  lemma {:induction false} TailSlice(s: seq<Entry>, a: nat, b: nat)
    requires 1 <= a <= b <= |s|
    ensures s[1..][a - 1..b - 1] == s[a..b]
  {
  }

  // In sorted bindings the owner's lie together, and its thread, if there is one, is the first of them.
  lemma {:induction false} OwnedTogether(s: seq<Entry>, owner: nat, p: nat, b: nat, threads: bool)
    requires Sorted(s) && p <= b <= |s|
    requires forall i :: 0 <= i < p ==> s[i].key < KeyOrder.OwnerKey(owner)
    requires forall i :: p <= i < b ==> Belongs(s[i].key, owner)
    requires b < |s| ==> KeyOrder.OwnerKey(owner) <= s[b].key && !Belongs(s[b].key, owner)
    ensures var q := if !threads && p < b && s[p].key == KeyOrder.OwnerKey(owner) then p + 1 else p;
      Owned(s, owner, threads) == s[q..b]
  {
    hide KeyOrder.OwnerKey;
    var q := if !threads && p < b && s[p].key == KeyOrder.OwnerKey(owner) then p + 1 else p;
    forall i | 0 <= i < |s| ensures q <= i < b <==> Wanted(s[i].key, owner, threads) {
      if i > p {
        assert s[p].key < s[i].key;
      }
      if i > b {
        assert s[b].key < s[i].key;
      }
    }
    OnlyThese(s, owner, threads, q, b);
  }

  // A search of the whole tree, said of its bindings.
  lemma {:induction false} ReportsBindings(s: Store, g: Geometry, t: Tree, h: nat, key: int, r: SearchResult)
    requires Holds(s, g, [t], h) && Reports(t, key, r)
    ensures r.Panic? <==> forall i :: 0 <= i < |Contents(t)| ==> key < Contents(t)[i].key
    ensures r.Found? ==> (r.exact <==> key in MapOf(Contents(t)))
    ensures r.Found? && r.exact ==> MapOf(Contents(t))[key] == r.data
  {
    hide Holds, Landing, FirstKey, Contents, MapOf, Rank, WF, Sorted, Repr, HasKey;
    HoldsOne(s, g, t, h);
    FirstIsFirst(g, t, h);
    MapOfKeys(Contents(t), key);
    if key < FirstKey(t) {
      NotThereFirst(s, g, t, h, key);
    } else {
      var j, o := SearchPosition(s.nodes, g, t, h, key);
      if r.exact {
        assert Contents(t)[o + r.recordNumber] == Landing(t, key).ents[r.recordNumber];
        MapOfRemove(Contents(t), o + r.recordNumber);
      }
    }
  }

  // The position in the contents where a scan starts.
  function ScanStart(nodes: seq<Node>, c: seq<nat>, j: nat, rec: nat): nat
    requires j < |c| && forall i :: 0 <= i < |c| ==> c[i] < |nodes|
  {
    |FlatRecs(nodes, c[..j])| + (if rec <= |nodes[c[j]].recs| then rec else |nodes[c[j]].recs|)
  }

  ghost predicate LeafChainOf(nodes: seq<Node>, c: seq<nat>, s: seq<Entry>) {
    && (forall i :: 0 <= i < |c| ==> 0 < c[i] < |nodes|)
    && (forall i :: 0 <= i < |c| ==> Linked(nodes, c, i))
    && FlatRecs(nodes, c) == EntryRecs(s)
  }

  lemma {:induction false} ChainOfLeaves(s: Store, g: Geometry, t: Tree, h: nat)
    requires Before(s, g, t, h, NoRows(h), NoRows(h)) && h >= 1
    ensures LeafChainOf(s.nodes, Level(t, h, 1), Contents(t))
    ensures Repr(s.nodes, t, h) && WF(g, t, h) && Sorted(Contents(t))
  {
    HoldsOne(s, g, t, h);
    LeavesAreContents(s.nodes, g, t, h);
    LevelOne(t, h, 1);
    RootRows([t], h, 1);
    assert Chain(s.nodes, s.used, Level(t, h, 1), 1);
  }

  // The bindings from position a on, as long as they are the owner's.
  function Stretch(s: seq<Entry>, a: nat, owner: nat): seq<Entry>
    requires a <= |s|
    decreases |s| - a
  {
    if a < |s| && Belongs(s[a].key, owner) then [s[a]] + Stretch(s, a + 1, owner) else []
  }

  lemma {:induction false} StretchIs(s: seq<Entry>, a: nat, b: nat, owner: nat)
    requires a <= b <= |s| && (forall i :: a <= i < b ==> Belongs(s[i].key, owner)) && (b < |s| ==> !Belongs(s[b].key, owner))
    ensures Stretch(s, a, owner) == s[a..b]
    decreases b - a
  {
    if a < b {
      StretchIs(s, a + 1, b, owner);
      assert s[a..b] == [s[a]] + s[a + 1..b];
    }
  }

  lemma {:induction false} StretchEnds(s: seq<Entry>, a: nat, owner: nat) returns (b: nat)
    requires a <= |s|
    ensures a <= b <= |s| && Stretch(s, a, owner) == s[a..b]
    ensures (forall i :: a <= i < b ==> Belongs(s[i].key, owner)) && (b < |s| ==> !Belongs(s[b].key, owner))
    decreases |s| - a
  {
    hide Belongs;
    b := a;
    if a < |s| && Belongs(s[a].key, owner) {
      b := StretchEnds(s, a + 1, owner);
      assert s[a..b] == [s[a]] + s[a + 1..b];
    }
  }

  // The loop of getAllExtendedAttributes and getFolderContents: from a record of a leaf, along the
  // forward links, while the keys are the owner's.
  method ScanLeaves(nodes: seq<Node>, start: nat, recordNumber: nat, owner: nat,
                    ghost c: seq<nat>, ghost s: seq<Entry>, ghost j0: nat)
    returns (list: seq<Entry>)
    requires LeafChainOf(nodes, c, s) && j0 < |c| && c[j0] == start
    ensures j0 < |c| && (forall i :: 0 <= i < |c| ==> c[i] < |nodes|)
    ensures ScanStart(nodes, c, j0, recordNumber) <= |s|
    ensures list == Stretch(s, ScanStart(nodes, c, j0, recordNumber), owner)
  {
    hide FlatRecs, EntryRecs, Stretch, Belongs;
    var nodeNumber, rec := start, recordNumber;
    ghost var j := j0;
    LeafSlice(nodes, c, s, j0);
    ghost var a := ScanStart(nodes, c, j0, recordNumber);
    ghost var b := a;
    list := [];
    while nodeNumber != 0
      invariant 0 <= rec && j <= |c| && nodeNumber == if j < |c| then c[j] else 0
      invariant a <= b <= |s| && list == s[a..b]
      invariant forall i :: a <= i < b ==> Belongs(s[i].key, owner)
      invariant b == if j < |c| then ScanStart(nodes, c, j, rec) else |s|
      decreases |c| - j
    {
      LeafSlice(nodes, c, s, j);
      var recs := nodes[nodeNumber].recs;
      ghost var o := |FlatRecs(nodes, c[..j])|;
      while rec < |recs|
        invariant 0 <= rec && b == o + if rec <= |recs| then rec else |recs|
        invariant a <= b <= |s| && list == s[a..b]
        invariant forall i :: a <= i < b ==> Belongs(s[i].key, owner)
      {
        var r := recs[rec];
        if Belongs(r.key, owner) {
          list := list + [Entry(r.key, r.data)];
          b := b + 1;
        } else {
          StretchIs(s, a, b, owner);
          return;
        }
        rec := rec + 1;
      }
      assert Linked(nodes, c, j);
      nodeNumber := nodes[nodeNumber].fLink;
      rec := 0;
      j := j + 1;
      assert j == |c| ==> c[..j] == c;
    }
    StretchIs(s, a, b, owner);
  }

  // The first position whose key is not before the owner's keys.
  ghost predicate StartsOwner(s: seq<Entry>, owner: nat, p: nat) {
    && Sorted(s) && p <= |s|
    && (forall i :: 0 <= i < p ==> s[i].key < KeyOrder.OwnerKey(owner))
    && (forall i :: p <= i < |s| ==> KeyOrder.OwnerKey(owner) <= s[i].key)
  }

  ghost predicate ThreadAt(s: seq<Entry>, owner: nat, p: nat) {
    p < |s| && s[p].key == KeyOrder.OwnerKey(owner)
  }

  // From the owner's first position a scan lists all of the owner's bindings.
  lemma {:induction false} ScanIsOwned(s: seq<Entry>, owner: nat, p: nat)
    requires StartsOwner(s, owner, p)
    ensures Stretch(s, p, owner) == Owned(s, owner, true)
  {
    hide KeyOrder.OwnerKey, Belongs, Sorted, Owned, Stretch;
    var b := StretchEnds(s, p, owner);
    OwnedTogether(s, owner, p, b, true);
  }

  // One step behind it, all but the thread; without a thread the first binding is lost.
  lemma {:induction false} StepIsOwned(s: seq<Entry>, owner: nat, p: nat)
    requires StartsOwner(s, owner, p) && p < |s|
    ensures s[p].key == KeyOrder.OwnerKey(owner) ==> Stretch(s, p + 1, owner) == Owned(s, owner, false)
    ensures s[p].key != KeyOrder.OwnerKey(owner) ==>
      (Stretch(s, p + 1, owner) == Owned(s, owner, false) <==> Owned(s, owner, false) == [])
  {
    KeyOrder.OwnerKeys(owner, owner + 1);
    hide KeyOrder.OwnerKey, Owned, KeyOrder.Span;
    var b := StretchEnds(s, p, owner);
    OwnedTogether(s, owner, p, b, false);
    if b > p {
      StretchIs(s, p + 1, b, owner);
      assert |s[p..b]| == |s[p + 1..b]| + 1;
    } else {
      assert !Belongs(s[p].key, owner);
      assert p + 1 < |s| ==> s[p].key < s[p + 1].key;
      StretchIs(s, p + 1, p + 1, owner);
    }
  }

  // The thread is in the tree exactly when it is the record the search finds.
  lemma {:induction false} ThreadIsFound(names: seq<KeyOrder.NameKey>, s: seq<Entry>, owner: nat, p: nat)
    requires Keyed(names, s) && StartsOwner(s, owner, p)
    ensures KeyOrder.NameKey(owner, []) in names <==> ThreadAt(s, owner, p)
  {
    hide KeyOrder.OwnerKey, KeyedBy, Wanted;
    forall i | 0 <= i < |s| ensures s[i].key == KeyOrder.OwnerKey(owner) <==> names[i] == KeyOrder.NameKey(owner, []) {
      ThreadKey(names[i], s[i].key, owner);
    }
    assert forall i :: p < i < |s| ==> s[p].key < s[i].key;
  }

  // A search below every key is one that no record is at or before.
  lemma {:induction false} BeforeAll(names: seq<KeyOrder.NameKey>, s: seq<Entry>, owner: nat)
    requires Keyed(names, s)
    ensures (forall i :: 0 <= i < |s| ==> KeyOrder.OwnerKey(owner) < s[i].key) <==>
      (forall i :: 0 <= i < |names| ==> owner <= names[i].owner && names[i] != KeyOrder.NameKey(owner, []))
  {
    hide KeyOrder.OwnerKey, KeyedBy, Wanted;
    forall i | 0 <= i < |s|
      ensures KeyOrder.OwnerKey(owner) < s[i].key <==> owner <= names[i].owner && names[i] != KeyOrder.NameKey(owner, [])
    {
      ThreadKey(names[i], s[i].key, owner);
      EarlierKey(names[i], s[i].key, owner);
    }
  }

  // The search for the owner's first key leads to the owner's first position; the record behind it is one
  // position on, unless the search ended behind the last record of its leaf.
  lemma {:induction false} SearchStarts(nodes: seq<Node>, t: Tree, s: seq<Entry>, c: seq<nat>, owner: nat, r: SearchResult, j: nat, o: nat)
    requires r.Found? && Reports(t, KeyOrder.OwnerKey(owner), r)
    requires Sorted(s) && Sits(nodes, c, s, KeyOrder.OwnerKey(owner), Landing(t, KeyOrder.OwnerKey(owner)), j, o)
    requires forall i :: 0 <= i < o + r.recordNumber ==> s[i].key < KeyOrder.OwnerKey(owner)
    requires forall i :: o + r.recordNumber <= i < |s| ==> KeyOrder.OwnerKey(owner) <= s[i].key
    ensures var p := o + r.recordNumber;
      && StartsOwner(s, owner, p)
      && ScanStart(nodes, c, j, r.recordNumber) == p
      && ScanStart(nodes, c, j, r.recordNumber + 1) == (if PastEnd(t, KeyOrder.OwnerKey(owner)) then p else p + 1) <= |s|
      && (ThreadAt(s, owner, p) ==> !PastEnd(t, KeyOrder.OwnerKey(owner)))
  {
    hide FlatRecs, KeyOrder.OwnerKey, Landing, Rank, Contents, HasKey, FirstKey;
  }

  // What getAllExtendedAttributes and getFolderContents list.
  lemma {:induction false} ScansList(names: seq<KeyOrder.NameKey>, s: seq<Entry>, owner: nat, p: nat, a: nat, pastEnd: bool)
    requires Keyed(names, s) && StartsOwner(s, owner, p)
    requires a == (if pastEnd then p else p + 1) <= |s| && (ThreadAt(s, owner, p) ==> !pastEnd)
    ensures |names| == |s| && p <= |s|
    ensures Stretch(s, p, owner) == Listed(names, s, owner, true)
    ensures KeyOrder.NameKey(owner, []) in names ==> Stretch(s, a, owner) == Listed(names, s, owner, false)
    ensures KeyOrder.NameKey(owner, []) !in names ==>
      (Stretch(s, a, owner) == Listed(names, s, owner, false) <==> Listed(names, s, owner, false) == [] || pastEnd)
  {
    hide KeyOrder.OwnerKey, KeyedBy, Stretch, Owned, Listed, Sorted;
    ListedIsOwned(names, s, owner, true);
    ListedIsOwned(names, s, owner, false);
    ThreadIsFound(names, s, owner, p);
    ScanIsOwned(s, owner, p);
    if pastEnd {
      NoThread(s, owner, p);
    } else {
      StepIsOwned(s, owner, p);
    }
  }

  lemma {:induction false} NoThread(s: seq<Entry>, owner: nat, p: nat)
    requires StartsOwner(s, owner, p) && !ThreadAt(s, owner, p)
    ensures Owned(s, owner, false) == Owned(s, owner, true)
  {
    hide KeyOrder.OwnerKey, Belongs, Owned, Stretch;
    var b := StretchEnds(s, p, owner);
    OwnedTogether(s, owner, p, b, true);
    OwnedTogether(s, owner, p, b, false);
  }
}
