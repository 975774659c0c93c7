/**
  What one call of addRecord does to the subtree it is given: the store before
  and after, told apart by how the node at hand changed.
 */
module BTreeInsert {
  import opened BTreeModel

  // The subtree t became the one or two trees ts, whose contents gain e at position p.
  ghost predicate Inserted(s: Store, s': Store, g: Geometry, t: Tree, h: nat, ts: seq<Tree>, p: nat, e: Entry, newNode: nat) {
    && |ts| == (if newNode == 0 then 1 else 2)
    && ts[0].id == t.id && (newNode != 0 ==> ts[1].id == newNode)
    && Holds(s', g, ts, h)
    && GapAt(Contents(t), p, e.key) && ContentsF(ts) == InsertAt(Contents(t), p, e)
    && Frame(s, s', Ids(t), h)
    && Claimed(s.used, s'.used, Ids(t), IdsF(ts))
  }

  lemma {:induction false} InsertedIntro(s: Store, s': Store, g: Geometry, t: Tree, h: nat, ts: seq<Tree>, p: nat, e: Entry, newNode: nat)
    requires |ts| == 2 && newNode != 0 && ts[0].id == t.id && ts[1].id == newNode
    requires Holds(s', g, ts, h)
    requires GapAt(Contents(t), p, e.key) && ContentsF(ts) == InsertAt(Contents(t), p, e)
    requires Frame(s, s', Ids(t), h)
    requires Claimed(s.used, s'.used, Ids(t), IdsF(ts))
    ensures Inserted(s, s', g, t, h, ts, p, e, newNode)
  {
  }

  // What every step below starts from.
  ghost predicate Before(s: Store, g: Geometry, t: Tree, h: nat, left: seq<seq<nat>>, right: seq<seq<nat>>) {
    Holds(s, g, [t], h) && Chains(s, left, [t], right, h)
  }

  lemma {:induction false} LeafChain(s: Store, left: seq<seq<nat>>, ts: seq<Tree>, right: seq<seq<nat>>)
    requires |left| == |right| == 2
    requires Chain(s.nodes, s.used, left[1] + LevelF(ts, 1, 1) + right[1], 1)
    ensures Chains(s, left, ts, right, 1)
  {
  }

  lemma {:induction false} LeafBefore(s: Store, g: Geometry, id: nat, ents: seq<Entry>, left: seq<seq<nat>>, right: seq<seq<nat>>)
    requires Before(s, g, Leaf(id, ents), 1, left, right)
    ensures IdsOk(s, {id}) && s.nodes[id].height == 1 && s.nodes[id].kind == LeafNode
    ensures s.nodes[id].recs == EntryRecs(ents) && 1 <= |ents| <= g.LeafCap() && Sorted(ents)
    ensures |left| == |right| == 2 && 0 < id < |s.nodes| && s.used[id] && s.nodes[id].fLink < |s.nodes|
    ensures s.nodes[id].fLink != id
    ensures Chain(s.nodes, s.used, left[1] + [id] + right[1], 1)
    ensures left[1] + LevelF([Leaf(id, ents)], 1, 1) + right[1] == left[1] + [id] + right[1]
  {
    LeafHeld(s, g, id, ents, 1);
    LevelOne(Leaf(id, ents), 1, 1);
    ChainAt(s.nodes, s.used, left[1], id, right[1], 1);
  }

  lemma {:induction false} ChainAt(nodes: seq<Node>, used: seq<bool>, a: seq<nat>, id: nat, b: seq<nat>, h: nat)
    requires Chain(nodes, used, a + [id] + b, h)
    ensures 0 < id < |nodes| && used[id] && nodes[id].height == h
    ensures nodes[id].fLink < |nodes| && nodes[id].fLink == First(b) != id
    ensures nodes[id].bLink < |nodes| && nodes[id].bLink == Last(a)
    ensures b != [] ==> 0 < b[0] < |nodes| && nodes[b[0]].height == h
    ensures a != [] ==> 0 < Last(a) < |nodes| && nodes[Last(a)].height == h
  {
    var c := a + [id] + b;
    assert c[|a|] == id && Linked(nodes, c, |a|);
    assert b != [] ==> c[|a| + 1] == b[0] && c[|a|] != c[|a| + 1];
    assert a != [] ==> c[|a| - 1] == Last(a);
  }

  lemma {:induction false} EndsSplit(nodes: seq<Node>, used: seq<bool>, a: seq<nat>, id: nat, b: seq<nat>, added: nat, h: nat)
    requires Chain(nodes, used, a + [id] + b, h)
    ensures First(a + [id, added] + b) == First(a + [id] + b)
    ensures Last(a + [id, added] + b) == if Last(a + [id] + b) == id then added else Last(a + [id] + b)
  {
    var c := a + [id] + b;
    assert c[|a|] == id;
    if b != [] {
      assert c[|a|] != c[|c| - 1];
    }
  }

  lemma {:induction false} LeafRecsSorted(ents: seq<Entry>, i: nat, key: int)
    requires Sorted(ents) && GapAt(ents, i, key)
    ensures SortedRecs(EntryRecs(ents))
    ensures (i > 0 ==> EntryRecs(ents)[i - 1].key < key) && (i < |ents| ==> key < EntryRecs(ents)[i].key)
  {
  }

  // A sorted node has one place for a key it lacks.
  lemma {:induction false} PlaceIsUnique(recs: seq<Rec>, key: int, i: nat, p: nat)
    requires SortedRecs(recs) && i <= |recs| && p <= |recs|
    requires (i > 0 ==> recs[i - 1].key < key) && (i < |recs| ==> key < recs[i].key)
    requires (forall j :: 0 <= j < p ==> recs[j].key < key) && (p < |recs| ==> key <= recs[p].key)
    ensures p == i && (p < |recs| ==> recs[p].key != key)
  {
  }

  lemma {:induction false} HalfSorted(recs: seq<Rec>, n: nat, i: nat, inLeft: bool, key: int)
    requires SortedRecs(recs) && |recs| == n && HalfOk(n, i, inLeft)
    requires (i > 0 ==> recs[i - 1].key < key) && (i < |recs| ==> key < recs[i].key)
    ensures SortedRecs(recs[..n / 2]) && SortedRecs(recs[n / 2..])
    ensures inLeft ==> (i > 0 ==> recs[..n / 2][i - 1].key < key) && (i < n / 2 ==> key < recs[..n / 2][i].key)
    ensures !inLeft ==> (i > n / 2 ==> recs[n / 2..][i - n / 2 - 1].key < key) && (i < n ==> key < recs[n / 2..][i - n / 2].key)
  {
  }

  // A leaf with room.
  lemma {:induction false} LeafOne(s: Store, g: Geometry, id: nat, ents: seq<Entry>, left: seq<seq<nat>>, right: seq<seq<nat>>,
                i: nat, e: Entry) returns (s': Store, ts: seq<Tree>)
    requires Before(s, g, Leaf(id, ents), 1, left, right)
    requires GapAt(ents, i, e.key) && |ents| < g.LeafCap()
    ensures id < |s.nodes| && |s.nodes[id].recs| == |ents|
    ensures s' == Store(WithRecord(s.nodes, id, i, LeafRec(e.key, e.data)), s.used)
    ensures Inserted(s, s', g, Leaf(id, ents), 1, ts, i, e, 0)
    ensures Chains(s', left, ts, right, 1)
    ensures LevelF(ts, 1, 1) == [id]
  {
    LeafBefore(s, g, id, ents, left, right);
    var ents' := InsertAt(ents, i, e);
    s' := Store(WithRecord(s.nodes, id, i, LeafRec(e.key, e.data)), s.used);
    ts := [Leaf(id, ents')];
    EntryRecsInsert(ents, i, e);
    InsertKeepsSorted(ents, i, e);
    HoldsLeaf(s', g, id, ents');
    One(ts[0]);
    LevelOne(ts[0], 1, 1);
    ChainSame(s.nodes, s'.nodes, s.used, left[1] + [id] + right[1], 1);
    LeafChain(s', left, ts, right);
  }

  // The two halves of a node after splitNode, before the new record goes in.
  lemma {:induction false} SplitHalves(s: Store, a: seq<nat>, id: nat, b: seq<nat>, added: nat, h: nat) returns (s': Store)
    requires h > 0 && Chain(s.nodes, s.used, a + [id] + b, h)
    requires 0 < added < |s.nodes| && !s.used[added]
    ensures 0 < id < |s.nodes| && s.used[id] && id != added
    ensures s.nodes[id].fLink < |s.nodes| && s.nodes[id].height == h
    ensures s.nodes[id].fLink != 0 ==> s.nodes[s.nodes[id].fLink].height == h
    ensures s' == Store(SplitNodes(s.nodes, id, added), s.used[added := true])
    ensures Chain(s'.nodes, s'.used, a + [id, added] + b, h)
    ensures Frame(s, s', {id}, h)
    ensures var m := |s.nodes[id].recs| / 2;
      && s'.nodes[id].recs == s.nodes[id].recs[..m] && s'.nodes[added].recs == s.nodes[id].recs[m..]
      && s'.nodes[id].height == s'.nodes[added].height == h
      && s'.nodes[id].kind == s'.nodes[added].kind == s.nodes[id].kind
  {
    var c := a + [id] + b;
    assert c[|a|] == id;
    FrameSplit(s, a, id, b, added, h);
    ChainSplit(s.nodes, s.used, a, id, b, added, h);
    s' := Store(SplitNodes(s.nodes, id, added), s.used[added := true]);
  }

  // Where the cut falls once the record has gone to its half.
  function Cut(n: nat, inLeft: bool): nat {
    if inLeft then n / 2 + 1 else n / 2
  }

  // Of n records split in two, a record with position i can go into this half.
  predicate HalfOk(n: nat, i: nat, inLeft: bool) {
    2 <= n && i <= n && (if inLeft then i <= n / 2 else i >= n / 2)
  }

  function SplitWith(nodes: seq<Node>, id: nat, added: nat, n: nat, i: nat, inLeft: bool, rec: Rec): seq<Node>
    requires id < |nodes| && added < |nodes| && HalfOk(n, i, inLeft)
    requires |nodes[id].recs| == n / 2 && |nodes[added].recs| == n - n / 2
  {
    if inLeft then WithRecord(nodes, id, i, rec) else WithRecord(nodes, added, i - n / 2, rec)
  }

  lemma {:induction false} CutRecs(recs: seq<Rec>, i: nat, inLeft: bool, rec: Rec)
    requires HalfOk(|recs|, i, inLeft)
    ensures var n, m, all := |recs|, |recs| / 2, recs[..i] + [rec] + recs[i..];
      && (inLeft ==> all[..Cut(n, inLeft)] == recs[..m][..i] + [rec] + recs[..m][i..] && all[Cut(n, inLeft)..] == recs[m..])
      && (!inLeft ==> all[..Cut(n, inLeft)] == recs[..m])
      && (!inLeft ==> all[Cut(n, inLeft)..] == recs[m..][..i - m] + [rec] + recs[m..][i - m..])
  {
  }

  // The store after a split and the new record: two nodes share the records, cut at one place.
  ghost predicate Halves(s: Store, s': Store, id: nat, added: nat, recs: seq<Rec>, cut: nat, h: nat) {
    && |s'.nodes| == |s.nodes| <= |s.used| == |s'.used|
    && 0 < id < |s'.nodes| && 0 < added < |s'.nodes| && id != added && cut <= |recs|
    && IdsOk(s', {id}) && IdsOk(s', {added})
    && s'.nodes[id].recs == recs[..cut] && s'.nodes[added].recs == recs[cut..]
    && s'.nodes[id].height == s'.nodes[added].height == h
    && s'.nodes[id].kind == s'.nodes[added].kind == s.nodes[id].kind
    && s'.used == s.used[added := true]
    && Frame(s, s', {id}, h)
  }

  lemma {:induction false} SplitInTwo(s: Store, a: seq<nat>, id: nat, b: seq<nat>, added: nat, h: nat,
                                      n: nat, i: nat, inLeft: bool, rec: Rec) returns (s1: Store, s2: Store)
    requires h > 0 && Chain(s.nodes, s.used, a + [id] + b, h) && IdsOk(s, {id})
    requires |s.nodes[id].recs| == n && HalfOk(n, i, inLeft)
    requires 0 < added < |s.nodes| && !s.used[added]
    ensures id != added && s.nodes[id].fLink < |s.nodes| && s.nodes[id].height == h
    ensures s.nodes[id].fLink != 0 ==> s.nodes[s.nodes[id].fLink].height == h
    ensures s1 == Store(SplitNodes(s.nodes, id, added), s.used[added := true])
    ensures |s1.nodes| == |s.nodes| && |s1.nodes[id].recs| == n / 2 && |s1.nodes[added].recs| == n - n / 2
    ensures s2 == Store(SplitWith(s1.nodes, id, added, n, i, inLeft, rec), s1.used) && |s2.nodes| == |s.nodes|
    ensures Halves(s, s2, id, added, s.nodes[id].recs[..i] + [rec] + s.nodes[id].recs[i..], Cut(n, inLeft), h)
    ensures Chain(s1.nodes, s1.used, a + [id, added] + b, h)
    ensures SameLinks(s1.nodes, s2.nodes)
  {
    hide Chain, Frame, SplitNodes, SplitWith, SameLinks, Cut, Halves;
    s1 := SplitHalves(s, a, id, b, added, h);
    FrameSize(s, s1, {id}, h);
    s2 := Store(SplitWith(s1.nodes, id, added, n, i, inLeft, rec), s1.used);
    HalvesOf(s, s1, s2, id, added, h, n, i, inLeft, rec);
  }

  lemma {:induction false} HalvesOf(s: Store, s1: Store, s2: Store, id: nat, added: nat, h: nat, n: nat, i: nat, inLeft: bool, rec: Rec)
    requires IdsOk(s, {id}) && 0 < added < |s.nodes| == |s1.nodes| && !s.used[added] && id != added && 0 < s.nodes[id].height == h
    requires |s.nodes[id].recs| == n && HalfOk(n, i, inLeft) && Frame(s, s1, {id}, h)
    requires s1.used == s.used[added := true]
    requires s1.nodes[id].recs == s.nodes[id].recs[..n / 2] && s1.nodes[added].recs == s.nodes[id].recs[n / 2..]
    requires s1.nodes[id].height == s1.nodes[added].height == h
    requires s1.nodes[id].kind == s1.nodes[added].kind == s.nodes[id].kind
    requires s2 == Store(SplitWith(s1.nodes, id, added, n, i, inLeft, rec), s1.used)
    ensures Halves(s, s2, id, added, s.nodes[id].recs[..i] + [rec] + s.nodes[id].recs[i..], Cut(n, inLeft), h)
    ensures SameLinks(s1.nodes, s2.nodes) && |s2.nodes| == |s.nodes|
  {
    hide Frame, SplitWith, SameLinks, Cut;
    SplitWithLinks(s1.nodes, id, added, n, i, inLeft, rec);
    CutRecs(s.nodes[id].recs, i, inLeft, rec);
    CutBounds(n, inLeft);
    FrameTwo(s, s1, s2, id, added, h);
  }

  lemma {:induction false} FrameSize(s: Store, s': Store, ids: set<nat>, h: nat)
    requires Frame(s, s', ids, h)
    ensures |s'.nodes| == |s.nodes| <= |s.used| == |s'.used|
  {
  }

  // A full leaf.
  lemma {:induction false} LeafTwo(s: Store, g: Geometry, id: nat, ents: seq<Entry>, left: seq<seq<nat>>, right: seq<seq<nat>>,
                i: nat, e: Entry, added: nat, inLeft: bool) returns (s1: Store, s2: Store, ts: seq<Tree>)
    requires Before(s, g, Leaf(id, ents), 1, left, right)
    requires GapAt(ents, i, e.key) && HalfOk(|ents|, i, inLeft)
    requires 0 < added < |s.nodes| && !s.used[added]
    ensures 0 < id < |s.nodes| && |s.nodes[id].recs| == |ents| && s.nodes[id].fLink < |s.nodes| && s.used[id] && id != added
    ensures s1 == Store(SplitNodes(s.nodes, id, added), s.used[added := true])
    ensures |s1.nodes| == |s.nodes| && |s1.nodes[id].recs| == |ents| / 2 && |s1.nodes[added].recs| == |ents| - |ents| / 2
    ensures s2 == Store(SplitWith(s1.nodes, id, added, |ents|, i, inLeft, LeafRec(e.key, e.data)), s1.used)
    ensures Inserted(s, s2, g, Leaf(id, ents), 1, ts, i, e, added)
    ensures Chains(s2, left, ts, right, 1)
    ensures LevelF(ts, 1, 1) == [id, added]
  {
    hide Before, Chains, Chain, LevelF, Sorted, EntryRecs, SplitNodes, Cut, SameLinks, Inserted, SplitWith, GapAt, InsertAt, Halves;
    LeafBefore(s, g, id, ents, left, right);
    CutBounds(|ents|, inLeft);
    InsertLength(ents, i, e);
    EntryRecsInsert(ents, i, e);
    s1, s2 := SplitInTwo(s, left[1], id, right[1], added, 1, |ents|, i, inLeft, LeafRec(e.key, e.data));
    ts := LeafTwoHeld(s, s2, g, id, added, ents, i, e, Cut(|ents|, inLeft));
    LeafTwoChain(s1, s2, left, right, id, ts[0].ents, added, ts[1].ents);
  }

  lemma {:induction false} InsertLength(s: seq<Entry>, p: nat, e: Entry)
    requires p <= |s|
    ensures |InsertAt(s, p, e)| == |s| + 1
  {
  }

  lemma {:induction false} ClaimedTwo(s: Store, s': Store, id: nat, added: nat)
    requires IdsOk(s, {id}) && 0 < added < |s.nodes| && !s.used[added] && s'.used == s.used[added := true]
    ensures Claimed(s.used, s'.used, {id}, {id, added})
  {
  }

  lemma {:induction false} CutBounds(n: nat, inLeft: bool)
    requires 2 <= n
    ensures 1 <= Cut(n, inLeft) <= n && 1 <= n + 1 - Cut(n, inLeft) <= n
  {
  }

  lemma {:induction false} SplitWithLinks(nodes: seq<Node>, id: nat, added: nat, n: nat, i: nat, inLeft: bool, rec: Rec)
    requires id < |nodes| && added < |nodes| && HalfOk(n, i, inLeft)
    requires |nodes[id].recs| == n / 2 && |nodes[added].recs| == n - n / 2
    ensures SameLinks(nodes, SplitWith(nodes, id, added, n, i, inLeft, rec))
    ensures var w, recs, recs' := SplitWith(nodes, id, added, n, i, inLeft, rec), nodes[id].recs, nodes[added].recs;
      && |w| == |nodes|
      && (id != added ==> w[id].recs == if inLeft then recs[..i] + [rec] + recs[i..] else recs)
      && (id != added ==> w[added].recs == if inLeft then recs' else recs'[..i - n / 2] + [rec] + recs'[i - n / 2..])
      && w[id].height == nodes[id].height && w[id].kind == nodes[id].kind
      && w[added].height == nodes[added].height && w[added].kind == nodes[added].kind
      && forall x :: 0 <= x < |nodes| && x != id && x != added ==> w[x] == nodes[x]
  {
  }

  lemma {:induction false} LeafTwoChain(s1: Store, s2: Store, left: seq<seq<nat>>, right: seq<seq<nat>>,
                     id: nat, l: seq<Entry>, added: nat, r: seq<Entry>)
    requires |left| == |right| == 2
    requires Chain(s1.nodes, s1.used, left[1] + [id, added] + right[1], 1)
    requires s2.used == s1.used && |s2.nodes| == |s1.nodes|
    requires SameLinks(s1.nodes, s2.nodes)
    ensures Chains(s2, left, [Leaf(id, l), Leaf(added, r)], right, 1)
    ensures LevelF([Leaf(id, l), Leaf(added, r)], 1, 1) == [id, added]
  {
    LevelPair(Leaf(id, l), Leaf(added, r), 1, 1);
    assert [id] + [added] == [id, added];
    ChainSame(s1.nodes, s2.nodes, s1.used, left[1] + [id, added] + right[1], 1);
    LeafChain(s2, left, [Leaf(id, l), Leaf(added, r)], right);
  }

  lemma {:induction false} LeafTwoHeld(s: Store, s': Store, g: Geometry, id: nat, added: nat, ents: seq<Entry>, i: nat, e: Entry, cut: nat)
    returns (ts: seq<Tree>)
    requires IdsOk(s, {id}) && 0 < added < |s.nodes| && !s.used[added] && s.nodes[id].kind == LeafNode
    requires Sorted(ents) && i <= |ents| && GapAt(ents, i, e.key) && cut <= |ents| + 1 == |InsertAt(ents, i, e)|
    requires Halves(s, s', id, added, EntryRecs(InsertAt(ents, i, e)), cut, 1)
    requires 1 <= cut <= g.LeafCap() && 1 <= |ents| + 1 - cut <= g.LeafCap()
    ensures ts == [Leaf(id, InsertAt(ents, i, e)[..cut]), Leaf(added, InsertAt(ents, i, e)[cut..])]
    ensures Inserted(s, s', g, Leaf(id, ents), 1, ts, i, e, added)
  {
    hide Inserted, Holds, Sorted, EntryRecs, ContentsF, Contents, Ids, IdsF, InsertAt, Frame, Claimed, GapAt;
    var all := InsertAt(ents, i, e);
    var l, r := all[..cut], all[cut..];
    ts := [Leaf(id, l), Leaf(added, r)];
    InsertKeepsSorted(ents, i, e);
    assert all == l + r && [] + l + r == l + r && l + r + [] == l + r;
    PartSorted([], l, r);
    PartSorted(l, r, []);
    EntryRecsSlice(all, 0, cut);
    EntryRecsSlice(all, cut, |all|);
    assert all[0..cut] == l && all[cut..|all|] == r;
    LeafParts(id, l);
    LeafParts(added, r);
    LeafParts(id, ents);
    HoldsLeaf(s', g, id, l);
    HoldsLeaf(s', g, added, r);
    HoldsPair(s', g, Leaf(id, l), Leaf(added, r), 1);
    ClaimedTwo(s, s', id, added);
    assert {id} + {added} == {id, added};
    InsertedIntro(s, s', g, Leaf(id, ents), 1, ts, i, e, added);
  }

  lemma {:induction false} FrameTwo(s: Store, s1: Store, s2: Store, id: nat, added: nat, h: nat)
    requires Frame(s, s1, {id}, h) && 0 < added < |s.nodes| && !s.used[added] && id < |s.nodes| && 0 < s.nodes[id].height <= h
    requires s2.used == s1.used && |s2.nodes| == |s1.nodes|
    requires forall n :: 0 <= n < |s1.nodes| && n != id && n != added ==> s2.nodes[n] == s1.nodes[n]
    ensures Frame(s, s2, {id}, h)
  {
  }

  /* ----- Index nodes: back from one child ----- */

  // The children below index node id have become kids', its own records not yet.
  ghost predicate Mid(s: Store, s': Store, g: Geometry, id: nat, kids: seq<Tree>, kids': seq<Tree>, h: nat,
                      left: seq<seq<nat>>, right: seq<seq<nat>>) {
    && h >= 2 && Holds(s', g, kids', h - 1)
    && id !in IdsF(kids') && IdsOk(s', {id}) && id < |s'.nodes|
    && s'.nodes[id].height == h && s'.nodes[id].kind == IndexNode
    && |left| == |right| == h + 1
    && LowChains(s', left, kids', right, h)
    && Chain(s'.nodes, s'.used, left[h] + [id] + right[h], h)
    && Frame(s, s', {id} + IdsF(kids), h)
    && Claimed(s.used, s'.used, {id} + IdsF(kids), {id} + IdsF(kids'))
  }

  lemma {:induction false} MidRecs(s: Store, s1: Store, g: Geometry, id: nat, kids: seq<Tree>, kids': seq<Tree>, h: nat,
                left: seq<seq<nat>>, right: seq<seq<nat>>, recs: seq<Rec>) returns (s2: Store)
    requires Mid(s, s1, g, id, kids, kids', h, left, right)
    ensures s2 == Store(s1.nodes[id := s1.nodes[id].(recs := recs)], s1.used)
    ensures Mid(s, s2, g, id, kids, kids', h, left, right)
  {
    hide Holds, Chain, Claimed, IdsF, LevelF, IdsOk;
    s2 := Store(s1.nodes[id := s1.nodes[id].(recs := recs)], s1.used);
    assert SameLinks(s1.nodes, s2.nodes);
    ChainSame(s1.nodes, s2.nodes, s1.used, left[h] + [id] + right[h], h);
    forall k | 1 <= k < h
      ensures Chain(s2.nodes, s2.used, left[k] + LevelF(kids', h - 1, k) + right[k], k)
    {
      ChainSame(s1.nodes, s2.nodes, s1.used, left[k] + LevelF(kids', h - 1, k) + right[k], k);
    }
    HoldsSame(s1, s2, g, kids', h - 1, {id});
    IdsOkSame(s1, s2, {id});
  }

  lemma {:induction false} IdsOkSame(s: Store, s': Store, ids: set<nat>)
    requires IdsOk(s, ids) && |s'.nodes| == |s.nodes| <= |s.used| == |s'.used|
    requires forall n :: 0 <= n < |s.used| && s.used[n] ==> s'.used[n]
    ensures IdsOk(s', ids)
  {
  }

  // Trees are still held when only other nodes' records changed.
  lemma {:induction false} HoldsSame(s: Store, s': Store, g: Geometry, ts: seq<Tree>, h: nat, others: set<nat>)
    requires Holds(s, g, ts, h) && IdsF(ts) !! others
    requires |s'.nodes| == |s.nodes| && |s'.used| == |s.used|
    requires forall n :: 0 <= n < |s.used| && s.used[n] ==> s'.used[n]
    requires forall n :: 0 <= n < |s.nodes| && s.used[n] && n !in others ==>
      s'.nodes[n].kind == s.nodes[n].kind && s'.nodes[n].height == s.nodes[n].height && s'.nodes[n].recs == s.nodes[n].recs
    ensures Holds(s', g, ts, h)
  {
    hide WFF, UniqF, ReprF, Sorted;
    ReprFFrame(s.nodes, s'.nodes, ts, h);
  }

  // The whole level structure of an index node over kids'.
  lemma {:induction false} IndexChains(s: Store, left: seq<seq<nat>>, right: seq<seq<nat>>, kids': seq<Tree>, ts: seq<Tree>, h: nat, row: seq<nat>)
    requires h >= 2 && |left| == |right| == h + 1
    requires LowChains(s, left, kids', right, h)
    requires Chain(s.nodes, s.used, left[h] + row + right[h], h)
    requires LevelF(ts, h, h) == row
    requires forall k :: 1 <= k < h ==> LevelF(ts, h, k) == LevelF(kids', h - 1, k)
    ensures Chains(s, left, ts, right, h)
  {
    hide Chain, LevelF;
  }

  lemma {:induction false} LevelIndex(id: nat, kids: seq<Tree>, h: nat, k: nat)
    requires h >= 1
    ensures Level(Index(id, kids), h, k) == if k == h then [id] else LevelF(kids, h - 1, k)
  {
  }

  lemma {:induction false} IndexOne(s: Store, s': Store, g: Geometry, id: nat, kids: seq<Tree>, kids': seq<Tree>, h: nat,
                 left: seq<seq<nat>>, right: seq<seq<nat>>, p: nat, e: Entry) returns (ts: seq<Tree>)
    requires Mid(s, s', g, id, kids, kids', h, left, right)
    requires s'.nodes[id].recs == RecsOf(kids') && 1 <= |kids'| <= g.IndexCap()
    requires GapAt(ContentsF(kids), p, e.key) && ContentsF(kids') == InsertAt(ContentsF(kids), p, e)
    ensures ts == [Index(id, kids')]
    ensures Inserted(s, s', g, Index(id, kids), h, ts, p, e, 0)
    ensures Chains(s', left, ts, right, h)
    ensures LevelF(ts, h, 1) == LevelF(kids', h - 1, 1)
  {
    hide Holds, Chain, Claimed, Frame, IdsF, LevelF, IdsOk, ContentsF, Sorted, Chains, LowChains, RecsOf, GapAt, InsertAt, Level;
    ts := [Index(id, kids')];
    HoldsIndex(s', g, id, kids', h);
    IndexContents(id, kids);
    IndexContents(id, kids');
    One(ts[0]);
    forall k | 1 <= k <= h
      ensures LevelF(ts, h, k) == if k == h then [id] else LevelF(kids', h - 1, k)
    {
      LevelOne(ts[0], h, k);
      LevelIndex(id, kids', h, k);
    }
    IndexChains(s', left, right, kids', ts, h, [id]);
  }

  lemma {:induction false} IndexContents(id: nat, kids: seq<Tree>)
    ensures Contents(Index(id, kids)) == ContentsF(kids) && Ids(Index(id, kids)) == {id} + IdsF(kids)
  {
  }

  // A full index node, split to make room for one more child record at position i.
  lemma {:induction false} IndexTwo(s: Store, s1: Store, g: Geometry, id: nat, kids: seq<Tree>, kids': seq<Tree>, h: nat,
                 left: seq<seq<nat>>, right: seq<seq<nat>>, p: nat, e: Entry,
                 n: nat, i: nat, inLeft: bool, added: nat) returns (s2: Store, s3: Store, ts: seq<Tree>)
    requires Mid(s, s1, g, id, kids, kids', h, left, right)
    requires HalfOk(n, i, inLeft) && |kids'| == n + 1 && n <= g.IndexCap() && |s1.nodes[id].recs| == n
    requires RecsOf(kids') == s1.nodes[id].recs[..i] + [RecOf(kids'[i])] + s1.nodes[id].recs[i..]
    requires GapAt(ContentsF(kids), p, e.key) && ContentsF(kids') == InsertAt(ContentsF(kids), p, e)
    requires 0 < added < |s1.nodes| && !s1.used[added]
    ensures 0 < id < |s1.nodes| && s1.used[id] && id != added && s1.nodes[id].fLink < |s1.nodes|
    ensures s2 == Store(SplitNodes(s1.nodes, id, added), s1.used[added := true])
    ensures |s2.nodes[id].recs| == n / 2 && |s2.nodes[added].recs| == n - n / 2
    ensures s3 == Store(SplitWith(s2.nodes, id, added, n, i, inLeft, RecOf(kids'[i])), s2.used)
    ensures Inserted(s, s3, g, Index(id, kids), h, ts, p, e, added)
    ensures Chains(s3, left, ts, right, h)
    ensures LevelF(ts, h, 1) == LevelF(kids', h - 1, 1)
  {
    hide Holds, Chain, Claimed, Frame, IdsF, LevelF, ContentsF, Chains, LowChains, RecsOf, GapAt, InsertAt, Level,
      SplitNodes, SameLinks, Cut, Inserted, SplitWith, Halves;
    var rec, cut := RecOf(kids'[i]), Cut(n, inLeft);
    CutBounds(n, inLeft);
    s2, s3 := SplitInTwo(s1, left[h], id, right[h], added, h, n, i, inLeft, rec);
    ts := IndexTwoHeld(s, s1, s3, g, id, added, kids, kids', p, e, cut, h);
    IndexTwoChains(s1, s2, s3, id, added, kids', cut, h, left, right);
  }

  lemma {:induction false} HalfHeld(s: Store, g: Geometry, ts: seq<Tree>, cut: nat, h: nat)
    requires Holds(s, g, ts, h) && cut <= |ts|
    ensures Holds(s, g, ts[..cut], h) && Holds(s, g, ts[cut..], h)
    ensures IdsF(ts[..cut]) !! IdsF(ts[cut..]) && IdsF(ts) == IdsF(ts[..cut]) + IdsF(ts[cut..])
    ensures ContentsF(ts) == ContentsF(ts[..cut]) + ContentsF(ts[cut..])
  {
    hide WFF, UniqF, ReprF, Sorted, IdsF, ContentsF, IdsOk;
    var a, b := ts[..cut], ts[cut..];
    assert ts == a + b && a == ts[0..cut] && b == ts[cut..|ts|];
    ContentsConcat(a, b); IdsConcat(a, b); UniqConcat(a, b);
    Part(s, g, ts, h, 0, cut);
    Part(s, g, ts, h, cut, |ts|);
    IdsOkParts(s, IdsF(a), IdsF(b));
    var ca, cb := ContentsF(a), ContentsF(b);
    assert [] + ca + cb == ca + cb && ca + cb + [] == ca + cb;
    PartSorted([], ca, cb);
    PartSorted(ca, cb, []);
  }

  lemma {:induction false} IndexTwoHeld(s: Store, s1: Store, s': Store, g: Geometry, id: nat, added: nat, kids: seq<Tree>, kids': seq<Tree>,
                                        p: nat, e: Entry, cut: nat, h: nat) returns (ts: seq<Tree>)
    requires h >= 2 && Holds(s1, g, kids', h - 1) && 1 <= cut <= g.IndexCap() && 1 <= |kids'| - cut <= g.IndexCap()
    requires id !in IdsF(kids') && IdsOk(s1, {id}) && s1.nodes[id].height == h && s1.nodes[id].kind == IndexNode
    requires 0 < added < |s1.nodes| && !s1.used[added]
    requires Halves(s1, s', id, added, RecsOf(kids'), cut, h)
    requires Frame(s, s1, {id} + IdsF(kids), h) && Claimed(s.used, s1.used, {id} + IdsF(kids), {id} + IdsF(kids'))
    requires GapAt(ContentsF(kids), p, e.key) && ContentsF(kids') == InsertAt(ContentsF(kids), p, e)
    ensures ts == [Index(id, kids'[..cut]), Index(added, kids'[cut..])]
    ensures Inserted(s, s', g, Index(id, kids), h, ts, p, e, added)
  {
    hide Inserted, Holds, ContentsF, Contents, Ids, IdsF, InsertAt, Frame, Claimed, GapAt, RecsOf, Sorted;
    var a, b := kids'[..cut], kids'[cut..];
    ts := [Index(id, a), Index(added, b)];
    HoldsSorted(s1, g, kids', h - 1);
    IdApart(s1, IdsF(kids'), added);
    HoldsFramed(s1, s', g, kids', h - 1, {id}, h);
    HalfHeld(s', g, kids', cut, h - 1);
    RecsOfSlice(kids', 0, cut);
    RecsOfSlice(kids', cut, |kids'|);
    RecsAt(kids');
    assert kids'[0..cut] == a && kids'[cut..|kids'|] == b;
    HoldsIndex(s', g, id, a, h);
    HoldsIndex(s', g, added, b, h);
    IndexContents(id, a);
    IndexContents(added, b);
    IndexContents(id, kids);
    HoldsPair(s', g, Index(id, a), Index(added, b), h);
    IndexTwoFrame(s, s1, s', id, added, IdsF(kids), IdsF(kids'), h);
    assert ({id} + IdsF(a)) + ({added} + IdsF(b)) == {id, added} + IdsF(kids');
    InsertedIntro(s, s', g, Index(id, kids), h, ts, p, e, added);
  }

  lemma {:induction false} HoldsFramed(s: Store, s': Store, g: Geometry, ts: seq<Tree>, h: nat, others: set<nat>, k: nat)
    requires Holds(s, g, ts, h) && IdsF(ts) !! others && Frame(s, s', others, k)
    requires forall n :: 0 <= n < |s.used| && s.used[n] ==> s'.used[n]
    ensures Holds(s', g, ts, h)
  {
    hide Holds, IdsF;
    HoldsSame(s, s', g, ts, h, others);
  }

  lemma {:induction false} HoldsSorted(s: Store, g: Geometry, ts: seq<Tree>, h: nat)
    requires Holds(s, g, ts, h)
    ensures Sorted(ContentsF(ts)) && IdsOk(s, IdsF(ts))
  {
  }

  lemma {:induction false} IndexTwoFrame(s: Store, s1: Store, s3: Store, id: nat, added: nat, ids: set<nat>, ids': set<nat>, h: nat)
    requires Frame(s, s1, {id} + ids, h) && Claimed(s.used, s1.used, {id} + ids, {id} + ids')
    requires 0 < added < |s1.nodes| && !s1.used[added]
    requires s3.used == s1.used[added := true] && Frame(s1, s3, {id}, h)
    ensures Frame(s, s3, {id} + ids, h)
    ensures Claimed(s.used, s3.used, {id} + ids, {id, added} + ids')
  {
    assert forall n :: 0 <= n < |s.used| && s.used[n] ==> s1.used[n];
  }

  lemma {:induction false} IndexTwoChains(s1: Store, s2: Store, s3: Store, id: nat, added: nat, kids': seq<Tree>, cut: nat, h: nat,
                       left: seq<seq<nat>>, right: seq<seq<nat>>)
    requires h >= 2 && |left| == |right| == h + 1 && cut <= |kids'|
    requires LowChains(s1, left, kids', right, h)
    requires id < |s1.nodes| && s1.nodes[id].height == h && s1.nodes[id].fLink < |s1.nodes|
    requires s1.nodes[id].fLink != 0 ==> s1.nodes[s1.nodes[id].fLink].height == h
    requires 0 < added < |s1.nodes| <= |s1.used| && !s1.used[added]
    requires s2 == Store(SplitNodes(s1.nodes, id, added), s1.used[added := true])
    requires Chain(s2.nodes, s2.used, left[h] + [id, added] + right[h], h)
    requires SameLinks(s2.nodes, s3.nodes) && s3.used == s2.used
    ensures var ts := [Index(id, kids'[..cut]), Index(added, kids'[cut..])];
      && Chains(s3, left, ts, right, h) && LevelF(ts, h, 1) == LevelF(kids', h - 1, 1)
  {
    hide Chain, LevelF, Level, SplitNodes, SameLinks;
    var a, b := kids'[..cut], kids'[cut..];
    var ts := [Index(id, a), Index(added, b)];
    assert kids' == a + b;
    forall k | 1 <= k <= h
      ensures LevelF(ts, h, k) == if k == h then [id, added] else LevelF(kids', h - 1, k)
    {
      LevelPair(ts[0], ts[1], h, k);
      LevelIndex(id, a, h, k);
      LevelIndex(added, b, h, k);
      if k < h {
        LevelConcat(a, b, h - 1, k);
      } else {
        assert [id] + [added] == [id, added];
      }
    }
    forall k | 1 <= k < h
      ensures Chain(s3.nodes, s3.used, left[k] + LevelF(kids', h - 1, k) + right[k], k)
    {
      ChainSplitOther(s1.nodes, s1.used, left[k] + LevelF(kids', h - 1, k) + right[k], k, id, added);
      ChainSame(s2.nodes, s3.nodes, s2.used, left[k] + LevelF(kids', h - 1, k) + right[k], k);
    }
    ChainSame(s2.nodes, s3.nodes, s2.used, left[h] + [id, added] + right[h], h);
    IndexChains(s3, left, right, kids', ts, h, [id, added]);
  }

  /* ----- Index nodes: down into one child and back ----- */

  function WithRecs(s: Store, id: nat, recs: seq<Rec>): Store
    requires id < |s.nodes|
  {
    Store(s.nodes[id := s.nodes[id].(recs := recs)], s.used)
  }

  lemma {:induction false} BeforeIndex(s: Store, g: Geometry, id: nat, kids: seq<Tree>, h: nat, left: seq<seq<nat>>, right: seq<seq<nat>>)
    requires Before(s, g, Index(id, kids), h, left, right)
    ensures h >= 2 && Holds(s, g, kids, h - 1) && id !in IdsF(kids) && IdsOk(s, {id})
    ensures |s.nodes| <= |s.used| && 0 < id < |s.nodes| && s.used[id]
    ensures s.nodes[id].height == h && s.nodes[id].kind == IndexNode
    ensures s.nodes[id].recs == RecsOf(kids) && 1 <= |kids| <= g.IndexCap()
    ensures |left| == |right| == h + 1
    ensures Chain(s.nodes, s.used, left[h] + [id] + right[h], h)
    ensures s.nodes[id].fLink < |s.nodes| && s.nodes[id].fLink != id
  {
    KidsHeld(s, g, id, kids, h);
    ChainsDown(s, left, right, id, kids, 0, h);
    ChainAt(s.nodes, s.used, left[h], id, right[h], h);
  }

  lemma {:induction false} IndexDown(s: Store, g: Geometry, id: nat, kids: seq<Tree>, h: nat, left: seq<seq<nat>>, right: seq<seq<nat>>,
                  c: nat, recs: seq<Rec>)
    requires Before(s, g, Index(id, kids), h, left, right) && c < |kids| && id < |s.nodes|
    ensures h >= 2 && |left| == |right| == h + 1
    ensures Before(WithRecs(s, id, recs), g, kids[c], h - 1, DownLeft(left, kids, c, h), DownRight(right, kids, c, h))
    ensures Chain(s.nodes, s.used, left[h] + [id] + right[h], h)
    ensures left[1] + LevelF([Index(id, kids)], h, 1) + right[1]
         == DownLeft(left, kids, c, h)[1] + LevelF([kids[c]], h - 1, 1) + DownRight(right, kids, c, h)[1]
  {
    hide Holds, Chain, LevelF, IdsF, IdsOk, DownLeft, DownRight;
    KidsHeld(s, g, id, kids, h);
    KidOf(s, g, kids, h - 1, c);
    KidIdsIn(kids, c);
    One(kids[c]);
    ChainsDown(s, left, right, id, kids, c, h);
    var s0 := WithRecs(s, id, recs);
    HoldsSame(s, s0, g, [kids[c]], h - 1, {id});
    ChainsSame(s, s0, DownLeft(left, kids, c, h), [kids[c]], DownRight(right, kids, c, h), h - 1);
  }

  lemma {:induction false} ChainsSame(s: Store, s': Store, left: seq<seq<nat>>, ts: seq<Tree>, right: seq<seq<nat>>, h: nat)
    requires Chains(s, left, ts, right, h) && SameLinks(s.nodes, s'.nodes) && s.used == s'.used
    ensures Chains(s', left, ts, right, h)
  {
    hide Chain, LevelF;
    forall k | 1 <= k <= h
      ensures Chain(s'.nodes, s'.used, left[k] + LevelF(ts, h, k) + right[k], k)
    {
      ChainSame(s.nodes, s'.nodes, s.used, left[k] + LevelF(ts, h, k) + right[k], k);
    }
  }

  // Child c is where a key goes: not before its first key, unless it is the first child, and before the next child.
  ghost predicate Picks(kids: seq<Tree>, c: nat, key: int) {
    && c < |kids|
    && (c > 0 ==> FirstKey(kids[c]) < key)
    && (c + 1 < |kids| ==> key < FirstKey(kids[c + 1]))
  }

  lemma {:induction false} UpContents(g: Geometry, kids: seq<Tree>, h: nat, c: nat, ts: seq<Tree>, q: nat, e: Entry) returns (p: nat)
    requires WFF(g, kids, h) && Sorted(ContentsF(kids)) && Picks(kids, c, e.key)
    requires GapAt(Contents(kids[c]), q, e.key) && ContentsF(ts) == InsertAt(Contents(kids[c]), q, e)
    ensures p == |ContentsF(kids[..c])| + q
    ensures GapAt(ContentsF(kids), p, e.key)
    ensures ContentsF(kids[..c] + ts + kids[c + 1..]) == InsertAt(ContentsF(kids), p, e)
    ensures Sorted(ContentsF(kids[..c] + ts + kids[c + 1..]))
  {
    hide WFF, Contents, ContentsF, FirstKey, IdsF, UniqF;
    var a, x, b := ContentsF(kids[..c]), Contents(kids[c]), ContentsF(kids[c + 1..]);
    Around(kids, c);
    Spliced(kids[..c], ts, kids[c + 1..]);
    KidOrder(g, kids, h, c);
    ContentsHead(kids[..c]);
    InsertInMiddle(a, x, b, q, e);
    p := |a| + q;
    UpGap(a, x, b, q, e.key);
    InsertKeepsSorted(ContentsF(kids), p, e);
  }

  lemma {:induction false} UpGap(a: seq<Entry>, x: seq<Entry>, b: seq<Entry>, q: nat, key: int)
    requires GapAt(x, q, key) && x != []
    requires a != [] ==> x[0].key < key
    requires b != [] ==> key < b[0].key
    ensures GapAt(a + x + b, |a| + q, key)
  {
    var s, p := a + x + b, |a| + q;
    if p > 0 && q > 0 {
      assert s[p - 1] == x[q - 1];
    }
    if q < |x| {
      assert s[p] == x[q];
    } else if b != [] {
      assert s[p] == b[0];
    }
  }

  lemma {:induction false} IndexUp(s: Store, s': Store, g: Geometry, id: nat, kids: seq<Tree>, h: nat, left: seq<seq<nat>>, right: seq<seq<nat>>,
                c: nat, recs: seq<Rec>, ts: seq<Tree>, q: nat, e: Entry, newNode: nat) returns (kids': seq<Tree>, p: nat)
    requires Before(s, g, Index(id, kids), h, left, right) && h >= 2 && id < |s.nodes| && |left| == |right| == h + 1
    requires c < |kids| && Picks(kids, c, e.key)
    requires Inserted(WithRecs(s, id, recs), s', g, kids[c], h - 1, ts, q, e, newNode)
    requires Chains(s', DownLeft(left, kids, c, h), ts, DownRight(right, kids, c, h), h - 1)
    ensures kids' == kids[..c] + ts + kids[c + 1..]
    ensures Mid(s, s', g, id, kids, kids', h, left, right)
    ensures id < |s'.nodes| && s'.nodes[id] == WithRecs(s, id, recs).nodes[id]
    ensures GapAt(ContentsF(kids), p, e.key) && ContentsF(kids') == InsertAt(ContentsF(kids), p, e)
    ensures left[1] + LevelF(kids', h - 1, 1) + right[1]
         == DownLeft(left, kids, c, h)[1] + LevelF(ts, h - 1, 1) + DownRight(right, kids, c, h)[1]
  {
    hide Holds, Chain, LevelF, IdsF, Ids, IdsOk, DownLeft, DownRight, Claimed, Frame, ContentsF, Contents, GapAt, InsertAt, Sorted,
      Picks, Before, Chains, LowChains, RecsOf;
    var s0 := WithRecs(s, id, recs);
    BeforeIndex(s, g, id, kids, h, left, right);
    HoldsParts(s, g, kids, h - 1);
    p := UpContents(g, kids, h - 1, c, ts, q, e);
    kids' := kids[..c] + ts + kids[c + 1..];
    HoldsSame(s, s0, g, kids, h - 1, {id});
    HoldsParts(s0, g, kids, h - 1);
    IdsOkSame(s, s0, {id});
    AfterKid(s0, s', g, id, kids, c, ts, h);
    AfterKidIds(s0, s', id, kids, c, ts);
    ChainsUp(s', left, right, kids, c, ts, h);
    IndexUpFrame(s, s0, s', id, kids, c, h, recs, IdsF(kids'));
    UpTopChain(s0, s', left[h] + [id] + right[h], Ids(kids[c]), h, s);
  }

  lemma {:induction false} HoldsParts(s: Store, g: Geometry, ts: seq<Tree>, h: nat)
    requires Holds(s, g, ts, h)
    ensures WFF(g, ts, h) && UniqF(ts) && ReprF(s.nodes, ts, h) && Sorted(ContentsF(ts)) && IdsOk(s, IdsF(ts))
  {
  }

  lemma {:induction false} IndexUpFrame(s: Store, s0: Store, s': Store, id: nat, kids: seq<Tree>, c: nat, h: nat, recs: seq<Rec>, ids': set<nat>)
    requires h >= 2 && c < |kids| && 0 < id < |s.nodes| <= |s.used| && s.used[id] && s.nodes[id].height == h
    requires s0 == WithRecs(s, id, recs) && id !in IdsF(kids)
    requires IdsOk(s, IdsF(kids))
    requires Frame(s0, s', Ids(kids[c]), h - 1)
    requires Claimed(s0.used, s'.used, IdsF(kids), ids')
    ensures Frame(s, s', {id} + IdsF(kids), h)
    ensures Claimed(s.used, s'.used, {id} + IdsF(kids), {id} + ids')
    ensures s'.nodes[id] == s0.nodes[id] && IdsOk(s', {id})
  {
    KidIdsIn(kids, c);
    assert id !in Ids(kids[c]);
  }

  // The node's own level is above everything the child's work could touch.
  lemma {:induction false} UpTopChain(s0: Store, s': Store, row: seq<nat>, ids: set<nat>, h: nat, s: Store)
    requires h >= 2 && Chain(s.nodes, s.used, row, h) && SameLinks(s.nodes, s0.nodes) && s0.used == s.used
    requires Frame(s0, s', ids, h - 1)
    requires forall n :: 0 <= n < |s0.used| && s0.used[n] ==> s'.used[n]
    ensures Chain(s'.nodes, s'.used, row, h)
  {
    forall i | 0 <= i < |row| ensures Linked(s'.nodes, row, i) {
      assert Linked(s.nodes, row, i);
      assert s'.nodes[row[i]] == s0.nodes[row[i]];
    }
  }

  // A key found among a node's records is in the contents.
  lemma {:induction false} KeyFound(s: Store, g: Geometry, t: Tree, h: nat, i: nat)
    requires Holds(s, g, [t], h) && t.id < |s.nodes| && i < |s.nodes[t.id].recs|
    ensures HasKey(Contents(t), s.nodes[t.id].recs[i].key)
  {
    match t
    case Leaf(id, ents) =>
      LeafHeld(s, g, id, ents, h);
      assert Contents(t)[i].key == s.nodes[id].recs[i].key;
    case Index(id, kids) =>
      KidsHeld(s, g, id, kids, h);
      KidOrder(g, kids, h - 1, i);
      Around(kids, i);
      var a := ContentsF(kids[..i]);
      assert Contents(t)[|a|] == Contents(kids[i])[0];
  }

  // Keys of child c lie from its first key up to the next child's first key.
  ghost predicate Within(kids: seq<Tree>, c: nat, key: int) {
    && c < |kids|
    && (c > 0 ==> FirstKey(kids[c]) <= key)
    && (c + 1 < |kids| ==> key < FirstKey(kids[c + 1]))
  }

  // A key absent from the child it belongs to is absent altogether.
  lemma {:induction false} KeyWithin(g: Geometry, kids: seq<Tree>, h: nat, c: nat, key: int)
    requires WFF(g, kids, h) && Sorted(ContentsF(kids)) && Within(kids, c, key)
    ensures HasKey(ContentsF(kids), key) <==> HasKey(Contents(kids[c]), key)
  {
    hide WFF, Contents, ContentsF, FirstKey, IdsF, UniqF;
    Around(kids, c);
    KidOrder(g, kids, h, c);
    ContentsHead(kids[..c]);
    var a, x, b, s := ContentsF(kids[..c]), Contents(kids[c]), ContentsF(kids[c + 1..]), ContentsF(kids);
    if i :| 0 <= i < |x| && x[i].key == key {
      assert s[|a| + i].key == key;
    }
    forall i | 0 <= i < |a| ensures s[i].key < key {
      assert s[i] == a[i];
    }
    forall i | |a| + |x| <= i < |s| ensures key < s[i].key {
      assert s[i] == b[i - |a| - |x|] && s[|a| + |x|] == b[0];
    }
    if i :| 0 <= i < |s| && s[i].key == key {
      assert s[i] == x[i - |a|];
    }
  }

  // The search loop of addRecord picks a child.
  lemma {:induction false} SearchPicks(g: Geometry, kids: seq<Tree>, h: nat, recs: seq<Rec>, i: nat, key: int)
    requires WFF(g, kids, h) && Sorted(ContentsF(kids)) && kids != []
    requires recs == RecsOf(kids) && i <= |recs|
    requires forall j :: 0 <= j < i ==> recs[j].key < key
    requires i < |recs| ==> key < recs[i].key
    ensures Picks(kids, if i == 0 then 0 else i - 1, key)
    ensures SortedRecs(recs)
  {
    KidKeysSorted(g, kids, h);
    assert i < |recs| ==> recs[i] == RecOf(kids[i]);
    assert i > 0 ==> recs[i - 1] == RecOf(kids[i - 1]);
  }

  // The first key of the new child sits right after its left sibling.
  lemma {:induction false} NewChildPlace(g: Geometry, kids': seq<Tree>, h: nat, recs: seq<Rec>, at: nat)
    requires WFF(g, kids', h) && Sorted(ContentsF(kids')) && 0 < at < |kids'|
    requires recs == RecsOf(kids'[..at]) + RecsOf(kids'[at + 1..])
    ensures SortedRecs(recs) && |recs| == |kids'| - 1 && at <= |recs|
    ensures recs[at - 1].key < FirstKey(kids'[at])
    ensures at < |recs| ==> FirstKey(kids'[at]) < recs[at].key
    ensures RecsOf(kids') == recs[..at] + [RecOf(kids'[at])] + recs[at..]
  {
    hide *;
    KidKeysSorted(g, kids', h);
    var all := RecsOf(kids');
    RecsOfSlice(kids', 0, at);
    RecsOfSlice(kids', at + 1, |kids'|);
    assert kids'[..at] == kids'[0..at] && kids'[at + 1..] == kids'[at + 1..|kids'|];
    assert all[0..at] + all[at + 1..|all|] == all[..at] + all[at + 1..];
    WithoutOne(all, recs, at);
    assert all[at] == RecOf(kids'[at]);
    RecKey(kids'[at]);
  }

  lemma {:induction false} RecKey(t: Tree)
    ensures RecOf(t) == PtrRec(FirstKey(t), t.id)
  {
  }

  lemma {:induction false} WithoutOne(all: seq<Rec>, recs: seq<Rec>, at: nat)
    requires SortedRecs(all) && 0 < at < |all| && recs == all[..at] + all[at + 1..]
    ensures SortedRecs(recs) && |recs| == |all| - 1
    ensures recs[at - 1].key < all[at].key
    ensures at < |recs| ==> all[at].key < recs[at].key
    ensures all == recs[..at] + [all[at]] + recs[at..]
  {
    assert forall i {:trigger recs[i]} :: 0 <= i < |recs| ==> recs[i] == if i < at then all[i] else all[i + 1];
  }

  // What the records of a node say once its child c has been replaced by ts.
  lemma {:induction false} RecsAfter(kids: seq<Tree>, c: nat, ts: seq<Tree>)
    requires c < |kids| && 1 <= |ts| <= 2 && ts[0].id == kids[c].id
    ensures var kids' := kids[..c] + ts + kids[c + 1..];
      && |kids'| == |kids| + |ts| - 1
      && (|ts| == 1 ==> RecsOf(kids)[c := RecOf(ts[0])] == RecsOf(kids'))
      && (|ts| == 2 ==> RecsOf(kids)[c := RecOf(ts[0])] == RecsOf(kids'[..c + 1]) + RecsOf(kids'[c + 2..]) && kids'[c + 1] == ts[1])
  {
    var kids' := kids[..c] + ts + kids[c + 1..];
    if |ts| == 2 {
      assert kids'[..c + 1] == kids[..c] + [ts[0]];
      assert kids'[c + 2..] == kids[c + 1..];
    }
  }

  // After insertion the first key is the new key when it went in front, and the old one otherwise.
  lemma {:induction false} FirstAfter(s: Store, g: Geometry, t: Tree, h: nat, ts: seq<Tree>, q: nat, e: Entry)
    requires WF(g, t, h) && Sorted(Contents(t)) && Holds(s, g, ts, h) && 1 <= |ts|
    requires GapAt(Contents(t), q, e.key) && ContentsF(ts) == InsertAt(Contents(t), q, e)
    ensures FirstKey(ts[0]) == if e.key < FirstKey(t) then e.key else FirstKey(t)
  {
    HoldsParts(s, g, ts, h);
    assert WF(g, ts[0], h);
    hide WFF, WF, Holds, Contents, ContentsF, FirstKey;
    FirstIsFirst(g, t, h);
    FirstIsFirst(g, ts[0], h);
    ContentsHead(ts);
    assert ContentsF(ts)[0] == Contents(ts[0])[0];
  }

  // The child the search loop of addRecord settles on.
  function Chosen(i: nat): nat {
    if i == 0 then 0 else i - 1
  }

  // Below the first child's first key, addRecord rewrites that key before going down.
  function Lowered(recs: seq<Rec>, i: nat, key: int): seq<Rec>
  {
    if i == 0 && recs != [] && recs[0].PtrRec? then recs[0 := PtrRec(key, recs[0].node)] else recs
  }

  ghost predicate SearchedTo(recs: seq<Rec>, i: nat, key: int) {
    && i <= |recs|
    && (forall j :: 0 <= j < i ==> recs[j].key < key)
    && (i < |recs| ==> key < recs[i].key)
  }

  lemma {:induction false} BelowAll(g: Geometry, kids: seq<Tree>, h: nat, key: int)
    requires WFF(g, kids, h) && Sorted(ContentsF(kids)) && kids != [] && key < FirstKey(kids[0])
    ensures !HasKey(ContentsF(kids), key)
  {
    FirstIsFirst(g, kids[0], h);
    ContentsHead(kids);
    assert ContentsF(kids)[0] == Contents(kids[0])[0];
  }

  // The records lack just the child at position at, and have a place for it.
  ghost predicate MissesOne(recs: seq<Rec>, kids': seq<Tree>, at: nat) {
    && 0 < at < |kids'|
    && SortedRecs(recs) && |recs| == |kids'| - 1
    && recs[at - 1].key < FirstKey(kids'[at])
    && (at < |recs| ==> FirstKey(kids'[at]) < recs[at].key)
    && RecsOf(kids') == recs[..at] + [RecOf(kids'[at])] + recs[at..]
  }

  lemma {:induction false} IndexBack(s: Store, s': Store, g: Geometry, id: nat, kids: seq<Tree>, h: nat, left: seq<seq<nat>>, right: seq<seq<nat>>,
                  i: nat, ts: seq<Tree>, q: nat, e: Entry, newNode: nat) returns (kids': seq<Tree>, p: nat)
    requires Before(s, g, Index(id, kids), h, left, right) && h >= 2 && id < |s.nodes| && |left| == |right| == h + 1
    requires kids != [] && s.nodes[id].recs == RecsOf(kids) && SearchedTo(RecsOf(kids), i, e.key)
    requires Inserted(WithRecs(s, id, Lowered(RecsOf(kids), i, e.key)), s', g, kids[Chosen(i)], h - 1, ts, q, e, newNode)
    requires Chains(s', DownLeft(left, kids, Chosen(i), h), ts, DownRight(right, kids, Chosen(i), h), h - 1)
    ensures Mid(s, s', g, id, kids, kids', h, left, right)
    ensures id < |s'.nodes| && s'.nodes[id] == s.nodes[id].(recs := Lowered(RecsOf(kids), i, e.key))
    ensures GapAt(ContentsF(kids), p, e.key) && ContentsF(kids') == InsertAt(ContentsF(kids), p, e)
    ensures left[1] + LevelF(kids', h - 1, 1) + right[1]
         == DownLeft(left, kids, Chosen(i), h)[1] + LevelF(ts, h - 1, 1) + DownRight(right, kids, Chosen(i), h)[1]
    ensures |kids'| == |kids| + |ts| - 1
    ensures newNode == 0 ==> s'.nodes[id].recs == RecsOf(kids')
    ensures newNode != 0 ==> MissesOne(s'.nodes[id].recs, kids', Chosen(i) + 1) && kids'[Chosen(i) + 1] == ts[1]
  {
    hide Before, Chains, Chain, LevelF, IdsF, Ids, IdsOk, DownLeft, DownRight, Claimed, Frame, ContentsF, Contents, Sorted,
      Mid, RecsOf, WFF, WF, FirstKey, SortedRecs;
    var c, recs := Chosen(i), Lowered(RecsOf(kids), i, e.key);
    BeforeIndex(s, g, id, kids, h, left, right);
    HoldsParts(s, g, kids, h - 1);
    SearchPicks(g, kids, h - 1, RecsOf(kids), i, e.key);
    kids', p := IndexUp(s, s', g, id, kids, h, left, right, c, recs, ts, q, e, newNode);
    KidOf(s, g, kids, h - 1, c);
    HoldsOne(s, g, kids[c], h - 1);
    FirstAfter(s', g, kids[c], h - 1, ts, q, e);
    LoweredIs(kids, i, e.key, ts[0]);
    RecsAfter(kids, c, ts);
    if newNode != 0 {
      MidParts(s, s', g, id, kids, kids', h, left, right);
      NewChildPlace(g, kids', h - 1, recs, c + 1);
    }
  }

  lemma {:induction false} LoweredIs(kids: seq<Tree>, i: nat, key: int, t: Tree)
    requires kids != [] && SearchedTo(RecsOf(kids), i, key)
    requires t.id == kids[Chosen(i)].id
    requires FirstKey(t) == if key < FirstKey(kids[Chosen(i)]) then key else FirstKey(kids[Chosen(i)])
    ensures Lowered(RecsOf(kids), i, key) == RecsOf(kids)[Chosen(i) := RecOf(t)]
  {
    hide FirstKey;
    var recs := RecsOf(kids);
    assert recs[Chosen(i)] == RecOf(kids[Chosen(i)]);
  }

  lemma {:induction false} MidParts(s: Store, s': Store, g: Geometry, id: nat, kids: seq<Tree>, kids': seq<Tree>, h: nat,
                 left: seq<seq<nat>>, right: seq<seq<nat>>)
    requires Mid(s, s', g, id, kids, kids', h, left, right)
    ensures h >= 2 && WFF(g, kids', h - 1) && Sorted(ContentsF(kids'))
    ensures 0 < id < |s'.nodes| <= |s'.used| && s'.used[id] && s'.nodes[id].height == h && s'.nodes[id].kind == IndexNode
    ensures |left| == |right| == h + 1 && s'.nodes[id].fLink < |s'.nodes| && s'.nodes[id].fLink != id
  {
    ChainAt(s'.nodes, s'.used, left[h], id, right[h], h);
  }

  // What the insertion below the node id leaves behind: the child holds the binding, and the node's records
  // miss at most the one of a node that the child split off.
  ghost predicate ChildDone(s: Store, s': Store, g: Geometry, id: nat, kids: seq<Tree>, kids': seq<Tree>, h: nat,
                            left: seq<seq<nat>>, right: seq<seq<nat>>, i: nat, p: nat, e: Entry, newChild: nat) {
    && Mid(s, s', g, id, kids, kids', h, left, right)
    && id < |s.nodes| && id < |s'.nodes| && s'.nodes[id].recs == Lowered(s.nodes[id].recs, i, e.key)
    && |kids'| == |kids| + (if newChild == 0 then 0 else 1)
    && (newChild == 0 ==> s'.nodes[id].recs == RecsOf(kids'))
    && (newChild != 0 ==> Chosen(i) + 1 < |kids'| && MissesOne(s'.nodes[id].recs, kids', Chosen(i) + 1) && kids'[Chosen(i) + 1].id == newChild)
    && GapAt(ContentsF(kids), p, e.key) && ContentsF(kids') == InsertAt(ContentsF(kids), p, e)
  }

  lemma {:induction false} InsertedCount(s: Store, s': Store, g: Geometry, t: Tree, h: nat, ts: seq<Tree>, p: nat, e: Entry, newNode: nat)
    requires Inserted(s, s', g, t, h, ts, p, e, newNode)
    ensures if newNode == 0 then |ts| == 1 else |ts| == 2 && ts[1].id == newNode
  {
  }

  lemma {:induction false} MissesIndex(recs: seq<Rec>, kids: seq<Tree>, at: nat)
    requires MissesOne(recs, kids, at)
    ensures at < |kids|
  {
  }

  lemma {:induction false} ChildBack(s: Store, s0: Store, s': Store, g: Geometry, id: nat, kids: seq<Tree>, h: nat, left: seq<seq<nat>>, right: seq<seq<nat>>,
                  i: nat, ts: seq<Tree>, q: nat, e: Entry, newNode: nat) returns (kids': seq<Tree>, p: nat)
    requires Before(s, g, Index(id, kids), h, left, right) && h >= 2 && id < |s.nodes| && |left| == |right| == h + 1
    requires kids != [] && s.nodes[id].recs == RecsOf(kids) && SearchedTo(RecsOf(kids), i, e.key)
    requires s0 == WithRecs(s, id, Lowered(RecsOf(kids), i, e.key))
    requires Inserted(s0, s', g, kids[Chosen(i)], h - 1, ts, q, e, newNode)
    requires Chains(s', DownLeft(left, kids, Chosen(i), h), ts, DownRight(right, kids, Chosen(i), h), h - 1)
    ensures ChildDone(s, s', g, id, kids, kids', h, left, right, i, p, e, newNode)
    ensures left[1] + LevelF(kids', h - 1, 1) + right[1]
         == DownLeft(left, kids, Chosen(i), h)[1] + LevelF(ts, h - 1, 1) + DownRight(right, kids, Chosen(i), h)[1]
  {
    hide Before, Inserted, Chains, Mid, MissesOne, GapAt, InsertAt, RecsOf, Lowered, WithRecs, ContentsF, LevelF, DownLeft, DownRight;
    RecsAt(kids);
    InsertedCount(s0, s', g, kids[Chosen(i)], h - 1, ts, q, e, newNode);
    kids', p := IndexBack(s, s', g, id, kids, h, left, right, i, ts, q, e, newNode);
    if newNode != 0 {
      MissesIndex(s'.nodes[id].recs, kids', Chosen(i) + 1);
    }
  }

  lemma {:induction false} NodeAt(s: Store, g: Geometry, t: Tree, h: nat)
    requires Holds(s, g, [t], h)
    ensures t.id < |s.nodes| && (s.nodes[t.id].kind == LeafNode <==> t.Leaf?)
    ensures t.Leaf? ==> h == 1
    ensures t.Index? ==> h >= 2
  {
    HoldsOne(s, g, t, h);
  }

  lemma {:induction false} LeafGap(s: Store, g: Geometry, t: Tree, h: nat, i: nat, key: int)
    requires t.Leaf? && Holds(s, g, [t], h) && t.id < |s.nodes| && SearchedTo(s.nodes[t.id].recs, i, key)
    ensures GapAt(t.ents, i, key) && !HasKey(Contents(t), key)
  {
    LeafHeld(s, g, t.id, t.ents, h);
    assert forall j :: 0 <= j < |t.ents| ==> s.nodes[t.id].recs[j].key == t.ents[j].key;
    InsertKeepsSorted(t.ents, i, Entry(key, []));
  }

  // The key of a new child record is the first key of the node it points to.
  lemma {:induction false} FirstRecKey(s: Store, g: Geometry, ts: seq<Tree>, h: nat, i: nat)
    requires Holds(s, g, ts, h) && i < |ts|
    ensures ts[i].id < |s.nodes| && s.nodes[ts[i].id].recs != [] && s.nodes[ts[i].id].kind != HeaderNode
    ensures s.nodes[ts[i].id].recs[0].key == FirstKey(ts[i])
  {
    var t := ts[i];
    assert WF(g, t, h) && Repr(s.nodes, t, h);
  }

  // All that addRecord needs to go down into the child its search chose.
  lemma {:induction false} DownReady(s: Store, g: Geometry, id: nat, kids: seq<Tree>, h: nat, left: seq<seq<nat>>, right: seq<seq<nat>>, i: nat, key: int)
    requires Before(s, g, Index(id, kids), h, left, right) && id < |s.nodes| && SearchedTo(s.nodes[id].recs, i, key)
    ensures h >= 2 && |left| == |right| == h + 1 && kids != [] && Chosen(i) < |kids|
    ensures s.nodes[id].recs == RecsOf(kids) && SearchedTo(RecsOf(kids), i, key) && 0 < id && s.nodes[id].kind == IndexNode
    ensures s.nodes[id].recs[Chosen(i)] == PtrRec(FirstKey(kids[Chosen(i)]), kids[Chosen(i)].id)
    ensures Lowered(RecsOf(kids), i, key) ==
      if i == 0 then RecsOf(kids)[0 := PtrRec(key, kids[0].id)] else RecsOf(kids)
    ensures HasKey(ContentsF(kids), key) <==> HasKey(Contents(kids[Chosen(i)]), key)
    ensures i == 0 ==> !HasKey(ContentsF(kids), key)
    ensures Before(WithRecs(s, id, Lowered(RecsOf(kids), i, key)), g, kids[Chosen(i)], h - 1,
                   DownLeft(left, kids, Chosen(i), h), DownRight(right, kids, Chosen(i), h))
    ensures left[1] + LevelF([Index(id, kids)], h, 1) + right[1]
         == DownLeft(left, kids, Chosen(i), h)[1] + LevelF([kids[Chosen(i)]], h - 1, 1) + DownRight(right, kids, Chosen(i), h)[1]
  {
    hide Before, Holds, Chain, Chains, LevelF, IdsF, Ids, ContentsF, Contents, HasKey, RecsOf, DownLeft, DownRight, FirstKey, WithRecs,
      Sorted, WFF, UniqF, ReprF, IdsOk, SortedRecs;
    BeforeIndex(s, g, id, kids, h, left, right);
    HoldsParts(s, g, kids, h - 1);
    SearchPicks(g, kids, h - 1, s.nodes[id].recs, i, key);
    KeyWithin(g, kids, h - 1, Chosen(i), key);
    RecsAt(kids);
    if i == 0 {
      BelowAll(g, kids, h - 1, key);
    }
    IndexDown(s, g, id, kids, h, left, right, Chosen(i), Lowered(RecsOf(kids), i, key));
  }

  lemma {:induction false} RecsAt(kids: seq<Tree>)
    ensures |RecsOf(kids)| == |kids|
    ensures forall i :: 0 <= i < |kids| ==> RecsOf(kids)[i] == PtrRec(FirstKey(kids[i]), kids[i].id)
  {
  }

  // The new child's record, read back from the node that holds it.
  lemma {:induction false} NewChildRec(s: Store, s': Store, g: Geometry, id: nat, kids: seq<Tree>, kids': seq<Tree>, h: nat,
                    left: seq<seq<nat>>, right: seq<seq<nat>>, at: nat)
    requires Mid(s, s', g, id, kids, kids', h, left, right) && h >= 2 && at < |kids'|
    ensures var child := kids'[at].id;
      && child < |s'.nodes| && s'.nodes[child].recs != [] && s'.nodes[child].kind != HeaderNode
      && PtrRec(s'.nodes[child].recs[0].key, child) == RecOf(kids'[at])
  {
    FirstRecKey(s', g, kids', h - 1, at);
  }

  lemma {:induction false} MissesParts(recs: seq<Rec>, kids': seq<Tree>, at: nat)
    requires MissesOne(recs, kids', at)
    ensures 0 < at < |kids'| && SortedRecs(recs) && |recs| == |kids'| - 1
    ensures recs[at - 1].key < RecOf(kids'[at]).key
    ensures at < |recs| ==> RecOf(kids'[at]).key < recs[at].key
    ensures RecsOf(kids') == recs[..at] + [RecOf(kids'[at])] + recs[at..]
  {
  }

  /* ----- The root ----- */

  // A whole tree has nothing to its left or right.
  function NoRows(h: nat): seq<seq<nat>> {
    seq(h + 1, _ => [])
  }

  lemma {:induction false} RootRows(ts: seq<Tree>, h: nat, k: nat)
    requires k <= h
    ensures NoRows(h)[k] + LevelF(ts, h, k) + NoRows(h)[k] == LevelF(ts, h, k)
  {
  }

  lemma {:induction false} ChainLone(nodes: seq<Node>, used: seq<bool>, id: nat, k: nat)
    requires 0 < id < |nodes| <= |used| && used[id]
    requires nodes[id].height == k && nodes[id].fLink == nodes[id].bLink == 0
    ensures Chain(nodes, used, [id], k)
  {
    assert Linked(nodes, [id], 0);
  }

  // A node that was free joins no chain.
  lemma {:induction false} ChainApart(nodes: seq<Node>, used: seq<bool>, c: seq<nat>, k: nat, id: nat, node: Node)
    requires Chain(nodes, used, c, k) && id < |nodes| && !used[id]
    ensures Chain(nodes[id := node], used[id := true], c, k)
  {
    var nodes' := nodes[id := node];
    forall i | 0 <= i < |c| ensures Linked(nodes', c, i) {
      assert Linked(nodes, c, i);
    }
  }

  // increaseHeight: a new root over the old root and the node split off it.
  lemma {:induction false} RootUp(s: Store, g: Geometry, ts: seq<Tree>, h: nat, id: nat) returns (s': Store, t: Tree)
    requires h >= 1 && |ts| == 2 && g.IndexCap() >= 2
    requires Holds(s, g, ts, h) && Chains(s, NoRows(h), ts, NoRows(h), h)
    requires 0 < id < |s.nodes| <= |s.used| && !s.used[id]
    ensures s' == Store(s.nodes[id := Node(IndexNode, h + 1, 0, 0, RecsOf(ts))], s.used[id := true])
    ensures t == Index(id, ts)
    ensures Before(s', g, t, h + 1, NoRows(h + 1), NoRows(h + 1))
    ensures Contents(t) == ContentsF(ts) && Ids(t) == {id} + IdsF(ts)
    ensures Level(t, h + 1, 1) == LevelF(ts, h, 1)
  {
    hide Holds, Chain, LevelF, ContentsF, IdsF, IdsOk, RecsOf, Level;
    var node := Node(IndexNode, h + 1, 0, 0, RecsOf(ts));
    s' := Store(s.nodes[id := node], s.used[id := true]);
    t := Index(id, ts);
    IndexContents(id, ts);
    HoldsSorted(s, g, ts, h);
    IdApart(s, IdsF(ts), id);
    HoldsSame(s, s', g, ts, h, {id});
    IdBound(s', id);
    RecsAt(ts);
    HoldsIndex(s', g, id, ts, h + 1);
    var one, h1, none := [t], h + 1, NoRows(h + 1);
    forall k | 1 <= k <= h1
      ensures Chain(s'.nodes, s'.used, none[k] + LevelF(one, h1, k) + none[k], k)
    {
      RootRows([t], h + 1, k);
      LevelOne(t, h + 1, k);
      LevelIndex(id, ts, h + 1, k);
      if k <= h {
        RootRows(ts, h, k);
        ChainApart(s.nodes, s.used, LevelF(ts, h, k), k, id, node);
      } else {
        ChainLone(s'.nodes, s'.used, id, k);
      }
    }
    LevelIndex(id, ts, h + 1, 1);
  }

  lemma {:induction false} IdApart(s: Store, ids: set<nat>, id: nat)
    requires IdsOk(s, ids) && id < |s.nodes| && !s.used[id]
    ensures id !in ids
  {
  }

  // A tree of one leaf.
  lemma {:induction false} FirstLeaf(s: Store, g: Geometry, id: nat, ents: seq<Entry>) returns (s': Store, t: Tree)
    requires 0 < id < |s.nodes| <= |s.used| && !s.used[id] && 1 <= |ents| <= g.LeafCap() && Sorted(ents)
    ensures s' == Store(s.nodes[id := Node(LeafNode, 1, 0, 0, EntryRecs(ents))], s.used[id := true])
    ensures t == Leaf(id, ents)
    ensures Before(s', g, t, 1, NoRows(1), NoRows(1))
    ensures Contents(t) == ents && Ids(t) == {id} && Level(t, 1, 1) == [id]
  {
    hide EntryRecs;
    s' := Store(s.nodes[id := Node(LeafNode, 1, 0, 0, EntryRecs(ents))], s.used[id := true]);
    t := Leaf(id, ents);
    HoldsLeaf(s', g, id, ents);
    ChainLone(s'.nodes, s'.used, id, 1);
    LevelOne(t, 1, 1);
    RootRows([t], 1, 1);
    LeafChain(s', NoRows(1), [t], NoRows(1));
  }
}
