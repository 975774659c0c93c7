/**
  What one call of removeRecord does to the subtree it is given.
 */
module BTreeRemove {
  import opened BTreeModel
  import opened BTreeInsert

  // The subtree t became ts, which is empty or one tree, and lost the binding at position p.
  ghost predicate Removed(s: Store, s': Store, g: Geometry, t: Tree, h: nat, ts: seq<Tree>, p: nat, key: int) {
    && |ts| <= 1 && (ts != [] ==> ts[0].id == t.id)
    && Holds(s', g, ts, h)
    && p < |Contents(t)| && Contents(t)[p].key == key && ContentsF(ts) == RemoveAt(Contents(t), p)
    && Frame(s, s', Ids(t), h)
    && Released(s.used, s'.used, Ids(t), IdsF(ts))
  }

  function Without(recs: seq<Rec>, i: nat): seq<Rec>
    requires i < |recs|
  {
    recs[..i] + recs[i + 1..]
  }

  lemma {:induction false} EntryRecsRemove(ents: seq<Entry>, i: nat)
    requires i < |ents|
    ensures EntryRecs(RemoveAt(ents, i)) == Without(EntryRecs(ents), i)
  {
  }

  // A leaf that keeps some records.
  lemma {:induction false} LeafLess(s: Store, g: Geometry, id: nat, ents: seq<Entry>, left: seq<seq<nat>>, right: seq<seq<nat>>, i: nat)
    returns (s': Store, ts: seq<Tree>)
    requires Before(s, g, Leaf(id, ents), 1, left, right) && i < |ents| && |ents| > 1
    ensures id < |s.nodes| && |s.nodes[id].recs| == |ents|
    ensures s' == WithRecs(s, id, Without(s.nodes[id].recs, i))
    ensures Removed(s, s', g, Leaf(id, ents), 1, ts, i, ents[i].key)
    ensures |ts| == 1 && Chains(s', left, ts, right, 1)
    ensures LevelF(ts, 1, 1) == [id]
  {
    LeafBefore(s, g, id, ents, left, right);
    s' := WithRecs(s, id, Without(s.nodes[id].recs, i));
    ts := [Leaf(id, RemoveAt(ents, i))];
    EntryRecsRemove(ents, i);
    RemoveKeepsSorted(ents, i);
    HoldsLeaf(s', g, id, RemoveAt(ents, i));
    One(ts[0]);
    LevelOne(ts[0], 1, 1);
    ChainSame(s.nodes, s'.nodes, s.used, left[1] + [id] + right[1], 1);
    LeafChain(s', left, ts, right);
  }

  // What removeNode leaves of the store.
  function Freed(s: Store, id: nat): Store
    requires id < |s.nodes| && id < |s.used| && s.nodes[id].fLink < |s.nodes| && s.nodes[id].bLink < |s.nodes|
  {
    Store(Unlink(s.nodes, id), s.used[id := false])
  }

  lemma {:induction false} FrameFreed(s: Store, a: seq<nat>, id: nat, b: seq<nat>, h: nat)
    requires h >= 1 && Chain(s.nodes, s.used, a + [id] + b, h)
    ensures 0 < id < |s.nodes| <= |s.used| && s.used[id] && s.nodes[id].height == h
    ensures s.nodes[id].fLink < |s.nodes| && s.nodes[id].bLink < |s.nodes| && s.nodes[id].fLink != id && s.nodes[id].bLink != id
    ensures s.nodes[id].fLink != 0 ==> s.nodes[s.nodes[id].fLink].height == h
    ensures s.nodes[id].bLink != 0 ==> s.nodes[s.nodes[id].bLink].height == h
    ensures Frame(s, Freed(s, id), {id}, h)
    ensures Chain(Freed(s, id).nodes, Freed(s, id).used, a + b, h)
    ensures First(a + b) == if First(a + [id] + b) == id then s.nodes[id].fLink else First(a + [id] + b)
    ensures Last(a + b) == if Last(a + [id] + b) == id then s.nodes[id].bLink else Last(a + [id] + b)
  {
    ChainAt(s.nodes, s.used, a, id, b, h);
    ChainUnlink(s.nodes, s.used, a, id, b, h);
    var c := a + [id] + b;
    assert c[|a|] == id;
    assert a != [] ==> c[0] == a[0] && c[0] != c[|a|] && c[|a| - 1] != c[|a|];
    assert b != [] ==> c[|c| - 1] == b[|b| - 1] && c[|a|] != c[|c| - 1];
  }

  lemma {:induction false} HoldsNone(s: Store, g: Geometry, h: nat)
    requires |s.nodes| <= |s.used|
    ensures Holds(s, g, [], h) && ContentsF([]) == [] && IdsF([]) == {} && LevelF([], h, 1) == []
  {
  }

  // A leaf that loses its only record.
  lemma {:induction false} LeafGone(s: Store, g: Geometry, id: nat, ents: seq<Entry>, left: seq<seq<nat>>, right: seq<seq<nat>>)
    returns (s1: Store, s2: Store)
    requires Before(s, g, Leaf(id, ents), 1, left, right) && |ents| == 1
    ensures 0 < id < |s.nodes| <= |s.used| && s.used[id] && |s.nodes[id].recs| == 1
    ensures s.nodes[id].fLink < |s.nodes| && s.nodes[id].bLink < |s.nodes| && s.nodes[id].fLink != id && s.nodes[id].bLink != id
    ensures s1 == WithRecs(s, id, []) && s2 == Freed(s1, id)
    ensures Removed(s, s2, g, Leaf(id, ents), 1, [], 0, ents[0].key)
    ensures Chains(s2, left, [], right, 1)
    ensures |left| == |right| == 2
    ensures var c, c' := left[1] + LevelF([Leaf(id, ents)], 1, 1) + right[1], left[1] + LevelF([], 1, 1) + right[1];
      && First(c') == (if First(c) == id then s.nodes[id].fLink else First(c))
      && Last(c') == (if Last(c) == id then s.nodes[id].bLink else Last(c))
  {
    hide Before, Holds, Chain, Chains, Frame, EntryRecs, Unlink, Sorted;
    LeafBefore(s, g, id, ents, left, right);
    s1 := WithRecs(s, id, []);
    ChainSame(s.nodes, s1.nodes, s.used, left[1] + [id] + right[1], 1);
    FrameFreed(s1, left[1], id, right[1], 1);
    s2 := Freed(s1, id);
    FreedSize(s1, id);
    HoldsNone(s2, g, 1);
    assert left[1] + LevelF([], 1, 1) + right[1] == left[1] + right[1];
    LeafChain(s2, left, [], right);
    FrameRecs(s, id, [], 1);
    LeafParts(id, ents);
    FrameTrans(s, s1, s2, {id}, {id}, 1, 1);
  }

  /* ----- Index nodes ----- */

  ghost predicate MidR(s: Store, s': Store, g: Geometry, id: nat, kids: seq<Tree>, kids': seq<Tree>, h: nat,
                       left: seq<seq<nat>>, right: seq<seq<nat>>) {
    && h >= 2 && Holds(s', g, kids', h - 1)
    && id !in IdsF(kids') && IdsOk(s', {id}) && id < |s'.nodes|
    && s'.nodes[id].height == h && s'.nodes[id].kind == IndexNode
    && |left| == |right| == h + 1
    && LowChains(s', left, kids', right, h)
    && Chain(s'.nodes, s'.used, left[h] + [id] + right[h], h)
    && Frame(s, s', {id} + IdsF(kids), h)
    && Released(s.used, s'.used, {id} + IdsF(kids), {id} + IdsF(kids'))
  }

  // No node of a tree is above its root.
  lemma {:induction false} IdsHeight(nodes: seq<Node>, g: Geometry, t: Tree, h: nat, n: nat)
    requires Repr(nodes, t, h) && WF(g, t, h) && n in Ids(t)
    ensures n < |nodes| && 1 <= nodes[n].height <= h
    decreases h
  {
    if n != t.id {
      var i := IdsFAt(t.kids, n);
      IdsHeight(nodes, g, t.kids[i], h - 1, n);
    }
  }

  ghost predicate Below(nodes: seq<Node>, ids: set<nat>, h: nat) {
    forall n :: n in ids ==> n < |nodes| && 1 <= nodes[n].height <= h
  }

  lemma {:induction false} KidsBelow(s: Store, g: Geometry, kids: seq<Tree>, h: nat)
    requires Holds(s, g, kids, h)
    ensures Below(s.nodes, IdsF(kids), h)
  {
    forall n | n in IdsF(kids) ensures n < |s.nodes| && 1 <= s.nodes[n].height <= h {
      var i := IdsFAt(kids, n);
      IdsHeight(s.nodes, g, kids[i], h, n);
    }
  }

  lemma {:induction false} RowSurvives(s: Store, s': Store, row: seq<nat>, t: Tree, ids': set<nat>, h: nat)
    requires h >= 2 && Chain(s.nodes, s.used, row, h) && Below(s.nodes, Ids(t), h - 1)
    requires Frame(s, s', Ids(t), h - 1) && Released(s.used, s'.used, Ids(t), ids')
    ensures Chain(s'.nodes, s'.used, row, h)
  {
    forall i | 0 <= i < |row|
      ensures s'.nodes[row[i]] == s.nodes[row[i]] && s'.used[row[i]]
    {
      assert row[i] !in Ids(t);
    }
    forall i | 0 <= i < |row| ensures Linked(s'.nodes, row, i) {
      assert Linked(s.nodes, row, i);
    }
  }

  lemma {:induction false} UpFrameR(s: Store, s': Store, id: nat, kids: seq<Tree>, c: nat, h: nat, ids': set<nat>)
    requires h >= 2 && c < |kids| && 0 < id < |s.nodes| <= |s.used| && s.used[id] && s.nodes[id].height == h
    requires id !in IdsF(kids) && IdsOk(s, IdsF(kids))
    requires Frame(s, s', Ids(kids[c]), h - 1)
    requires Released(s.used, s'.used, IdsF(kids), ids')
    ensures Frame(s, s', {id} + IdsF(kids), h)
    ensures Released(s.used, s'.used, {id} + IdsF(kids), {id} + ids')
    ensures s'.nodes[id] == s.nodes[id] && IdsOk(s', {id})
  {
    KidIdsIn(kids, c);
    assert id !in Ids(kids[c]);
  }

  lemma {:induction false} UpRemoved(kids: seq<Tree>, c: nat, ts: seq<Tree>, q: nat) returns (p: nat)
    requires c < |kids| && Sorted(ContentsF(kids))
    requires q < |Contents(kids[c])| && ContentsF(ts) == RemoveAt(Contents(kids[c]), q)
    ensures p < |ContentsF(kids)| && ContentsF(kids)[p].key == Contents(kids[c])[q].key
    ensures ContentsF(kids[..c] + ts + kids[c + 1..]) == RemoveAt(ContentsF(kids), p)
    ensures Sorted(ContentsF(kids[..c] + ts + kids[c + 1..]))
  {
    hide Contents, ContentsF, IdsF, UniqF;
    var a, x, b := ContentsF(kids[..c]), Contents(kids[c]), ContentsF(kids[c + 1..]);
    Around(kids, c);
    Spliced(kids[..c], ts, kids[c + 1..]);
    RemoveInMiddle(a, x, b, q);
    p := |a| + q;
    assert (a + x + b)[p] == x[q];
    RemoveKeepsSorted(ContentsF(kids), p);
  }

  lemma {:induction false} IndexUpR(s: Store, s': Store, g: Geometry, id: nat, kids: seq<Tree>, h: nat, left: seq<seq<nat>>, right: seq<seq<nat>>,
                 c: nat, ts: seq<Tree>, q: nat, key: int) returns (kids': seq<Tree>, p: nat)
    requires Before(s, g, Index(id, kids), h, left, right) && h >= 2 && id < |s.nodes| && |left| == |right| == h + 1
    requires c < |kids| && Removed(s, s', g, kids[c], h - 1, ts, q, key)
    requires Chains(s', DownLeft(left, kids, c, h), ts, DownRight(right, kids, c, h), h - 1)
    ensures kids' == kids[..c] + ts + kids[c + 1..]
    ensures MidR(s, s', g, id, kids, kids', h, left, right)
    ensures id < |s'.nodes| && s'.nodes[id] == s.nodes[id]
    ensures p < |ContentsF(kids)| && ContentsF(kids)[p].key == key && ContentsF(kids') == RemoveAt(ContentsF(kids), p)
    ensures left[1] + LevelF(kids', h - 1, 1) + right[1]
         == DownLeft(left, kids, c, h)[1] + LevelF(ts, h - 1, 1) + DownRight(right, kids, c, h)[1]
  {
    hide Holds, Chain, LevelF, IdsF, Ids, IdsOk, DownLeft, DownRight, Released, Claimed, Frame, ContentsF, Contents, RemoveAt, Sorted,
      Before, Chains, LowChains, RecsOf, Repr, WF;
    BeforeIndex(s, g, id, kids, h, left, right);
    HoldsParts(s, g, kids, h - 1);
    p := UpRemoved(kids, c, ts, q);
    kids' := kids[..c] + ts + kids[c + 1..];
    AfterKid(s, s', g, id, kids, c, ts, h);
    AfterKidIds(s, s', id, kids, c, ts);
    ChainsUp(s', left, right, kids, c, ts, h);
    UpFrameR(s, s', id, kids, c, h, IdsF(kids'));
    KidsBelow(s, g, kids, h - 1);
    KidIdsIn(kids, c);
    RowSurvives(s, s', left[h] + [id] + right[h], kids[c], IdsF(ts), h);
  }

  lemma {:induction false} MidRRecs(s: Store, s1: Store, g: Geometry, id: nat, kids: seq<Tree>, kids': seq<Tree>, h: nat,
                 left: seq<seq<nat>>, right: seq<seq<nat>>, recs: seq<Rec>)
    requires MidR(s, s1, g, id, kids, kids', h, left, right)
    ensures MidR(s, WithRecs(s1, id, recs), g, id, kids, kids', h, left, right)
  {
    hide Holds, Chain, Released, IdsF, LevelF, IdsOk;
    var s2 := WithRecs(s1, id, recs);
    assert SameLinks(s1.nodes, s2.nodes);
    ChainSame(s1.nodes, s2.nodes, s1.used, left[h] + [id] + right[h], h);
    forall k | 1 <= k < h
      ensures Chain(s2.nodes, s2.used, left[k] + LevelF(kids', h - 1, k) + right[k], k)
    {
      ChainSame(s1.nodes, s2.nodes, s1.used, left[k] + LevelF(kids', h - 1, k) + right[k], k);
    }
    HoldsSame(s1, s2, g, kids', h - 1, {id});
    IdsOkSame(s1, s2, {id});
  }

  // An index node that keeps some children.
  lemma {:induction false} IndexLess(s: Store, s': Store, g: Geometry, id: nat, kids: seq<Tree>, kids': seq<Tree>, h: nat,
                  left: seq<seq<nat>>, right: seq<seq<nat>>, p: nat, key: int) returns (ts: seq<Tree>)
    requires MidR(s, s', g, id, kids, kids', h, left, right)
    requires s'.nodes[id].recs == RecsOf(kids') && 1 <= |kids'| <= g.IndexCap()
    requires p < |ContentsF(kids)| && ContentsF(kids)[p].key == key && ContentsF(kids') == RemoveAt(ContentsF(kids), p)
    ensures ts == [Index(id, kids')]
    ensures Removed(s, s', g, Index(id, kids), h, ts, p, key)
    ensures Chains(s', left, ts, right, h)
    ensures LevelF(ts, h, 1) == LevelF(kids', h - 1, 1)
  {
    hide Holds, Chain, Released, Frame, IdsF, LevelF, IdsOk, ContentsF, Sorted, Chains, LowChains, RecsOf, RemoveAt, Level;
    ts := [Index(id, kids')];
    HoldsIndex(s', g, id, kids', h);
    IndexContents(id, kids);
    IndexContents(id, kids');
    One(ts[0]);
    forall k | 1 <= k <= h
      ensures LevelF(ts, h, k) == if k == h then [id] else LevelF(kids', h - 1, k)
    {
      LevelOne(ts[0], h, k);
      LevelIndex(id, kids', h, k);
    }
    IndexChains(s', left, right, kids', ts, h, [id]);
  }

  // An index node that has lost its last child.
  lemma {:induction false} IndexGone(s: Store, s1: Store, g: Geometry, id: nat, kids: seq<Tree>, h: nat,
                  left: seq<seq<nat>>, right: seq<seq<nat>>, p: nat, key: int)
    requires MidR(s, s1, g, id, kids, [], h, left, right) && Below(s.nodes, IdsF(kids), h) && |left| == |right| == h + 1 && h >= 2
    requires p < |ContentsF(kids)| && ContentsF(kids)[p].key == key && RemoveAt(ContentsF(kids), p) == []
    ensures 0 < id < |s1.nodes| <= |s1.used| && s1.used[id]
    ensures s1.nodes[id].fLink < |s1.nodes| && s1.nodes[id].bLink < |s1.nodes| && s1.nodes[id].fLink != id && s1.nodes[id].bLink != id
    ensures Removed(s, Freed(s1, id), g, Index(id, kids), h, [], p, key)
    ensures Chains(Freed(s1, id), left, [], right, h)
    ensures LevelF([], h, 1) == LevelF([], h - 1, 1) == []
    ensures First(left[1] + LevelF([], h, 1) + right[1]) != id && Last(left[1] + LevelF([], h, 1) + right[1]) != id
  {
    RowApart(s1, left[1] + LevelF([], h - 1, 1) + right[1], id);
    hide Holds, Chain, Chains, LowChains, IdsF, ContentsF, Sorted, RemoveAt, Level, Frame, Released, Freed, Contents, Ids;
    FrameFreed(s1, left[h], id, right[h], h);
    var s2 := Freed(s1, id);
    FreedSize(s1, id);
    HoldsNone(s2, g, h);
    IndexContents(id, kids);
    FreedFrame(s, s1, id, IdsF(kids), h);
    GoneChains(s1, id, left, right, h);
  }

  lemma {:induction false} GoneChains(s: Store, id: nat, left: seq<seq<nat>>, right: seq<seq<nat>>, h: nat)
    requires |left| == |right| == h + 1 && h >= 2 && LowChains(s, left, [], right, h)
    requires id < |s.nodes| <= |s.used| && s.nodes[id].height == h
    requires s.nodes[id].fLink < |s.nodes| && s.nodes[id].bLink < |s.nodes|
    requires s.nodes[id].fLink != 0 ==> s.nodes[s.nodes[id].fLink].height == h
    requires s.nodes[id].bLink != 0 ==> s.nodes[s.nodes[id].bLink].height == h
    requires Chain(Freed(s, id).nodes, Freed(s, id).used, left[h] + right[h], h)
    ensures Chains(Freed(s, id), left, [], right, h)
    ensures LevelF([], h, 1) == LevelF([], h - 1, 1) == []
  {
    hide Chain, Freed;
    var s2 := Freed(s, id);
    forall k | 1 <= k <= h
      ensures Chain(s2.nodes, s2.used, left[k] + LevelF([], h, k) + right[k], k)
    {
      assert left[k] + [] + right[k] == left[k] + right[k];
      if k < h {
        ChainFreedOther(s, left[k] + LevelF([], h - 1, k) + right[k], k, id, h);
      }
    }
  }

  lemma {:induction false} RowApart(s: Store, row: seq<nat>, id: nat)
    requires Chain(s.nodes, s.used, row, 1) && 0 < id < |s.nodes| && s.nodes[id].height != 1
    ensures First(row) != id && Last(row) != id
  {
  }

  lemma {:induction false} FreedSize(s: Store, id: nat)
    requires id < |s.nodes| <= |s.used| && s.nodes[id].fLink < |s.nodes| && s.nodes[id].bLink < |s.nodes|
    ensures |Freed(s, id).nodes| == |s.nodes| && |Freed(s, id).used| == |s.used|
  {
  }

  lemma {:induction false} ChainFreedOther(s: Store, c: seq<nat>, k: nat, id: nat, h: nat)
    requires id < |s.nodes| <= |s.used| && s.nodes[id].height == h != k
    requires s.nodes[id].fLink < |s.nodes| && s.nodes[id].bLink < |s.nodes|
    requires s.nodes[id].fLink != 0 ==> s.nodes[s.nodes[id].fLink].height == h
    requires s.nodes[id].bLink != 0 ==> s.nodes[s.nodes[id].bLink].height == h
    requires Chain(s.nodes, s.used, c, k)
    ensures Chain(Freed(s, id).nodes, Freed(s, id).used, c, k)
  {
    ChainUnlinkOther(s.nodes, s.used, c, k, id);
  }

  lemma {:induction false} FreedFrame(s: Store, s1: Store, id: nat, ids: set<nat>, h: nat)
    requires Frame(s, s1, {id} + ids, h) && Released(s.used, s1.used, {id} + ids, {id} + {})
    requires id < |s1.nodes| && id < |s1.used| && s1.nodes[id].fLink < |s1.nodes| && s1.nodes[id].bLink < |s1.nodes|
    requires Frame(s1, Freed(s1, id), {id}, h)
    requires Below(s.nodes, ids, h)
    ensures Frame(s, Freed(s1, id), {id} + ids, h)
    ensures Released(s.used, Freed(s1, id).used, {id} + ids, {})
  {
  }

  /* ----- The search of removeRecord ----- */

  // How many leading children start at or before the key.
  function Upto(kids: seq<Tree>, key: int): nat {
    if kids == [] || key < FirstKey(kids[0]) then 0 else 1 + Upto(kids[1..], key)
  }

  lemma {:induction false} UptoIs(kids: seq<Tree>, key: int, n: nat)
    requires n <= |kids|
    requires forall j :: 0 <= j < n ==> FirstKey(kids[j]) <= key
    requires n < |kids| ==> key < FirstKey(kids[n])
    ensures Upto(kids, key) == n
  {
    if n > 0 {
      assert FirstKey(kids[0]) <= key;
      assert forall j :: 0 <= j < n - 1 ==> kids[1..][j] == kids[j + 1];
      UptoIs(kids[1..], key, n - 1);
    }
  }

  lemma {:induction false} UptoBound(kids: seq<Tree>, key: int)
    ensures Upto(kids, key) <= |kids|
  {
    if kids != [] {
      UptoBound(kids[1..], key);
    }
  }

  // The leaf in which a search for the key ends, provided the key is not below all keys.
  function Landing(t: Tree, key: int): Tree {
    match t
    case Leaf(_, _) => t
    case Index(_, kids) =>
      var n := Upto(kids, key);
      if 1 <= n <= |kids| then Landing(kids[n - 1], key) else t
  }

  // How many keys of the leaf are smaller: the record number the search reports.
  function Rank(ents: seq<Entry>, key: int): nat {
    if ents == [] || key <= ents[0].key then 0 else 1 + Rank(ents[1..], key)
  }

  lemma {:induction false} RankIs(ents: seq<Entry>, key: int, n: nat)
    requires n <= |ents|
    requires forall j :: 0 <= j < n ==> ents[j].key < key
    requires n < |ents| ==> key <= ents[n].key
    ensures Rank(ents, key) == n
  {
    if n > 0 {
      assert ents[0].key < key;
      assert forall j :: 0 <= j < n - 1 ==> ents[1..][j] == ents[j + 1];
      RankIs(ents[1..], key, n - 1);
    }
  }

  // The search for the key ends behind the last record of its leaf.
  predicate PastEnd(t: Tree, key: int) {
    var l := Landing(t, key);
    FirstKey(t) <= key && l.Leaf? && Rank(l.ents, key) == |l.ents|
  }

  // Child c is where removeRecord goes for a key: the last child that starts at or before it.
  ghost predicate GoesTo(kids: seq<Tree>, c: nat, key: int) {
    && c < |kids| && FirstKey(kids[c]) <= key
    && (c + 1 < |kids| ==> key < FirstKey(kids[c + 1]))
  }

  lemma {:induction false} GoesToLanding(g: Geometry, id: nat, kids: seq<Tree>, h: nat, c: nat, key: int)
    requires WFF(g, kids, h) && Sorted(ContentsF(kids)) && GoesTo(kids, c, key)
    ensures Landing(Index(id, kids), key) == Landing(kids[c], key)
    ensures FirstKey(Index(id, kids)) <= key
    ensures PastEnd(Index(id, kids), key) <==> PastEnd(kids[c], key)
  {
    hide WFF, Sorted, ContentsF, FirstKey;
    KidKeysSorted(g, kids, h);
    RecsAt(kids);
    assert forall j :: 0 <= j < |kids| ==> FirstKey(kids[j]) == RecsOf(kids)[j].key;
    assert forall j :: 0 <= j < c ==> FirstKey(kids[j]) < FirstKey(kids[c]);
    UptoIs(kids, key, c + 1);
    FirstOfIndex(id, kids);
  }

  lemma {:induction false} FirstOfIndex(id: nat, kids: seq<Tree>)
    ensures kids != [] ==> FirstKey(Index(id, kids)) == FirstKey(kids[0])
  {
  }

  lemma {:induction false} IdAbove(s: Store, ids: set<nat>, n: nat)
    requires IdsOk(s, ids) && n in ids
    ensures n > 0
  {
  }

  lemma {:induction false} RemoveDown(s: Store, g: Geometry, id: nat, kids: seq<Tree>, h: nat, left: seq<seq<nat>>, right: seq<seq<nat>>, c: nat, key: int)
    requires Before(s, g, Index(id, kids), h, left, right) && GoesTo(kids, c, key)
    ensures h >= 2 && |left| == |right| == h + 1 && 0 < id < |s.nodes| && s.nodes[id].recs == RecsOf(kids)
    ensures s.nodes[id].kind == IndexNode && c < |kids| && s.nodes[id].recs[c] == PtrRec(FirstKey(kids[c]), kids[c].id) && kids[c].id > 0
    ensures Before(s, g, kids[c], h - 1, DownLeft(left, kids, c, h), DownRight(right, kids, c, h))
    ensures left[1] + LevelF([Index(id, kids)], h, 1) + right[1]
         == DownLeft(left, kids, c, h)[1] + LevelF([kids[c]], h - 1, 1) + DownRight(right, kids, c, h)[1]
    ensures HasKey(ContentsF(kids), key) <==> HasKey(Contents(kids[c]), key)
    ensures PastEnd(Index(id, kids), key) <==> PastEnd(kids[c], key)
    ensures c < |kids| && id !in Ids(kids[c]) && Ids(kids[c]) <= IdsF(kids) && kids[c].id in Ids(kids[c])
    ensures Ids(Index(id, kids)) == {id} + IdsF(kids) && Contents(Index(id, kids)) == ContentsF(kids)
    ensures Below(s.nodes, IdsF(kids), h) && |kids| <= g.IndexCap()
  {
    hide Before, Holds, Chain, Chains, LevelF, IdsF, ContentsF, Contents, HasKey, RecsOf, DownLeft, DownRight, FirstKey, PastEnd,
      Sorted, WFF, UniqF, ReprF, IdsOk, SortedRecs;
    BeforeIndex(s, g, id, kids, h, left, right);
    RecsAt(kids);
    HoldsParts(s, g, kids, h - 1);
    IndexDown(s, g, id, kids, h, left, right, c, s.nodes[id].recs);
    assert WithRecs(s, id, s.nodes[id].recs) == s;
    KeyWithin(g, kids, h - 1, c, key);
    GoesToLanding(g, id, kids, h - 1, c, key);
    KidIdsIn(kids, c);
    IdAbove(s, IdsF(kids), kids[c].id);
    KidsBelow(s, g, kids, h - 1);
    IndexContents(id, kids);
  }

  lemma {:induction false} RemoveRecs(s: Store, s': Store, g: Geometry, kids: seq<Tree>, c: nat, ts: seq<Tree>, h: nat, q: nat, key: int)
    requires c < |kids| && WFF(g, kids, h) && Sorted(ContentsF(kids)) && FirstKey(kids[c]) <= key
    requires Removed(s, s', g, kids[c], h, ts, q, key)
    ensures ts == [] ==> FirstKey(kids[c]) == key && RecsOf(kids[..c] + ts + kids[c + 1..]) == Without(RecsOf(kids), c)
    ensures ts != [] ==>
      && kids[c].id < |s'.nodes| && s'.nodes[kids[c].id].recs != [] && s'.nodes[kids[c].id].kind != HeaderNode
      && RecsOf(kids[..c] + ts + kids[c + 1..]) == RecsOf(kids)[c := PtrRec(s'.nodes[kids[c].id].recs[0].key, kids[c].id)]
    ensures ts != [] && FirstKey(kids[c]) != key ==> RecsOf(kids[..c] + ts + kids[c + 1..]) == RecsOf(kids)
  {
    hide WFF, WF, Sorted, ContentsF, Contents, FirstKey, Holds, Frame, Released, Ids, IdsF, RecsOf;
    KidOrder(g, kids, h, c);
    FirstRemains(s', g, kids[c], ts, h, q, key);
    RecsAt(kids);
    if ts != [] {
      FirstRecKey(s', g, ts, h, 0);
      RecsAfter(kids, c, ts);
    } else {
      RecsOfSlice(kids, 0, c);
      RecsOfSlice(kids, c + 1, |kids|);
      assert kids[..c] + ts + kids[c + 1..] == kids[0..c] + kids[c + 1..|kids|];
    }
  }

  lemma {:induction false} FirstRemains(s: Store, g: Geometry, t: Tree, ts: seq<Tree>, h: nat, q: nat, key: int)
    requires Sorted(Contents(t)) && Contents(t) != [] && Contents(t)[0].key == FirstKey(t)
    requires |ts| <= 1 && Holds(s, g, ts, h)
    requires q < |Contents(t)| && Contents(t)[q].key == key && ContentsF(ts) == RemoveAt(Contents(t), q)
    ensures ts == [] ==> FirstKey(t) == key
    ensures ts != [] && FirstKey(t) != key ==> FirstKey(ts[0]) == FirstKey(t)
  {
    ContentsHead(ts);
    if ts != [] {
      HoldsParts(s, g, ts, h);
      assert WF(g, ts[0], h);
      FirstIsFirst(g, ts[0], h);
      hide Contents, ContentsF, FirstKey, WF, WFF, Holds;
      assert ContentsF(ts)[0] == Contents(ts[0])[0];
    }
  }

  lemma {:induction false} NodeRecs(s: Store, g: Geometry, t: Tree, h: nat)
    requires Holds(s, g, [t], h) && t.id < |s.nodes|
    ensures SortedRecs(s.nodes[t.id].recs) && s.nodes[t.id].recs != [] && s.nodes[t.id].recs[0].key == FirstKey(t)
    ensures t.Index? ==> s.nodes[t.id].recs == RecsOf(t.kids) && forall i :: 0 <= i < |t.kids| ==> t.kids[i].id != 0
    ensures t.Leaf? ==> s.nodes[t.id].recs == EntryRecs(t.ents)
  {
    match t
    case Leaf(id, ents) =>
      LeafHeld(s, g, id, ents, h);
    case Index(id, kids) =>
      KidsHeld(s, g, id, kids, h);
      HoldsParts(s, g, kids, h - 1);
      KidKeysSorted(g, kids, h - 1);
      forall i | 0 <= i < |kids| ensures kids[i].id != 0 {
        KidIdsIn(kids, i);
        assert kids[i].id in Ids(kids[i]);
      }
  }

  lemma {:induction false} LeafRecAt(s: Store, g: Geometry, t: Tree, h: nat, i: nat)
    requires t.Leaf? && Holds(s, g, [t], h) && t.id < |s.nodes| && i < |s.nodes[t.id].recs|
    ensures h == 1 && t == Leaf(t.id, t.ents) && i < |t.ents| && t.ents[i].key == s.nodes[t.id].recs[i].key
  {
    LeafHeld(s, g, t.id, t.ents, h);
  }

  // removeRecord gives up: in a leaf at a larger record, or before the first record.
  lemma {:induction false} NotThere(s: Store, g: Geometry, t: Tree, h: nat, i: nat, key: int)
    requires Holds(s, g, [t], h) && t.id < |s.nodes| && i < |s.nodes[t.id].recs|
    requires forall j :: 0 <= j < i ==> s.nodes[t.id].recs[j].key < key
    requires key < s.nodes[t.id].recs[i].key && (i == 0 || t.Leaf?)
    ensures !HasKey(Contents(t), key) && !PastEnd(t, key)
  {
    hide *;
    NodeRecs(s, g, t, h);
    if t.Leaf? {
      LeafGap(s, g, t, h, i, key);
      LeafNotThere(t, i, key);
    } else {
      KidsHeld(s, g, t.id, t.kids, h);
      HoldsParts(s, g, t.kids, h - 1);
      RecsAt(t.kids);
      BelowAll(g, t.kids, h - 1, key);
      IndexNotThere(t.id, t.kids, key);
      assert t == Index(t.id, t.kids);
    }
  }

  lemma {:induction false} LeafNotThere(t: Tree, i: nat, key: int)
    requires t.Leaf? && GapAt(t.ents, i, key) && Sorted(t.ents) && i < |t.ents|
    ensures !HasKey(Contents(t), key) && !PastEnd(t, key)
  {
    RankIs(t.ents, key, i);
  }

  lemma {:induction false} IndexNotThere(id: nat, kids: seq<Tree>, key: int)
    requires kids != [] && key < FirstKey(kids[0]) && !HasKey(ContentsF(kids), key)
    ensures !HasKey(Contents(Index(id, kids)), key) && !PastEnd(Index(id, kids), key)
  {
    hide HasKey, FirstKey;
    FirstOfIndex(id, kids);
  }

  lemma {:induction false} LeafPast(s: Store, g: Geometry, t: Tree, h: nat, key: int)
    requires t.Leaf? && Holds(s, g, [t], h) && t.id < |s.nodes|
    requires forall j :: 0 <= j < |s.nodes[t.id].recs| ==> s.nodes[t.id].recs[j].key < key
    ensures !HasKey(Contents(t), key) && PastEnd(t, key)
  {
    NodeRecs(s, g, t, h);
    LeafHeld(s, g, t.id, t.ents, h);
    LeafGap(s, g, t, h, |t.ents|, key);
    assert forall j :: 0 <= j < |t.ents| ==> s.nodes[t.id].recs[j].key == t.ents[j].key;
    RankIs(t.ents, key, |t.ents|);
  }

  lemma {:induction false} GoesToChild(s: Store, g: Geometry, t: Tree, h: nat, c: nat, key: int)
    requires t.Index? && Holds(s, g, [t], h) && t.id < |s.nodes| && c < |s.nodes[t.id].recs|
    requires s.nodes[t.id].recs[c].key <= key
    requires c + 1 < |s.nodes[t.id].recs| ==> key < s.nodes[t.id].recs[c + 1].key
    ensures GoesTo(t.kids, c, key) && s.nodes[t.id].recs[c] == PtrRec(FirstKey(t.kids[c]), t.kids[c].id)
    ensures |s.nodes[t.id].recs| == |t.kids| && t == Index(t.id, t.kids) && Contents(t) == ContentsF(t.kids)
  {
    NodeRecs(s, g, t, h);
    RecsAt(t.kids);
  }

  // Back from the child, with what the node's records must become.
  lemma {:induction false} UpAndRecs(s: Store, s': Store, g: Geometry, id: nat, kids: seq<Tree>, h: nat, left: seq<seq<nat>>, right: seq<seq<nat>>,
                  c: nat, ts: seq<Tree>, q: nat, key: int) returns (kids': seq<Tree>, p: nat)
    requires Before(s, g, Index(id, kids), h, left, right) && h >= 2 && id < |s.nodes| && |left| == |right| == h + 1
    requires GoesTo(kids, c, key) && Removed(s, s', g, kids[c], h - 1, ts, q, key)
    requires Chains(s', DownLeft(left, kids, c, h), ts, DownRight(right, kids, c, h), h - 1)
    ensures MidR(s, s', g, id, kids, kids', h, left, right)
    ensures id < |s'.nodes| && s'.nodes[id] == s.nodes[id] && |s'.nodes[id].recs| == |kids|
    ensures p < |ContentsF(kids)| && ContentsF(kids)[p].key == key && ContentsF(kids') == RemoveAt(ContentsF(kids), p)
    ensures left[1] + LevelF(kids', h - 1, 1) + right[1]
         == DownLeft(left, kids, c, h)[1] + LevelF(ts, h - 1, 1) + DownRight(right, kids, c, h)[1]
    ensures |kids'| == |kids| - 1 + |ts|
    ensures |RecsOf(kids')| == |kids'|
    ensures kids' == [] ==> ContentsF(kids') == []
    ensures ts == [] ==> FirstKey(kids[c]) == key && RecsOf(kids') == Without(s'.nodes[id].recs, c)
    ensures ts != [] && FirstKey(kids[c]) == key ==>
      && kids[c].id < |s'.nodes| && s'.nodes[kids[c].id].recs != [] && s'.nodes[kids[c].id].kind != HeaderNode
      && RecsOf(kids') == s'.nodes[id].recs[c := PtrRec(s'.nodes[kids[c].id].recs[0].key, kids[c].id)]
    ensures ts != [] && FirstKey(kids[c]) != key ==> RecsOf(kids') == s'.nodes[id].recs
  {
    hide Before, Holds, Chain, Chains, LevelF, IdsF, ContentsF, Contents, RecsOf, DownLeft, DownRight, FirstKey, Sorted, WFF, UniqF, ReprF,
      IdsOk, RemoveAt, Frame, Released, Ids, MidR;
    BeforeIndex(s, g, id, kids, h, left, right);
    HoldsParts(s, g, kids, h - 1);
    kids', p := IndexUpR(s, s', g, id, kids, h, left, right, c, ts, q, key);
    RemoveRecs(s, s', g, kids, c, ts, h - 1, q, key);
    RecsAt(kids');
    RecsAt(kids);
    ContentsHead(kids');
  }

  lemma {:induction false} CheckMeansThere(s: Store, g: Geometry, id: nat, kids: seq<Tree>, h: nat, left: seq<seq<nat>>, right: seq<seq<nat>>, c: nat, key: int)
    requires Before(s, g, Index(id, kids), h, left, right) && c < |kids| && !HasKey(ContentsF(kids), key)
    ensures FirstKey(kids[c]) != key
    ensures id < |s.nodes| && s.nodes[id].recs != []
  {
    hide Before, Holds, WFF, Sorted, ContentsF, Contents, FirstKey, RecsOf, IdsF, UniqF, ReprF;
    BeforeIndex(s, g, id, kids, h, left, right);
    HoldsParts(s, g, kids, h - 1);
    RecsAt(kids);
    KidOrder(g, kids, h - 1, c);
    Around(kids, c);
    var a := ContentsF(kids[..c]);
    assert ContentsF(kids)[|a|] == Contents(kids[c])[0];
  }
}
