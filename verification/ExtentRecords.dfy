/**
  hfs/rawfile.c, writeExtents and readExtents: eight extents in the fork's own
  record, the others in groups of eight in the extents overflow tree, which is
  a map here: BTree.dfy shows that it behaves as one.
 */
module ExtentRecords {
  import opened Common
  import opened Extents

  const NONE := Extent(0, 0)

  function Empty(): seq<Extent> { [NONE, NONE, NONE, NONE, NONE, NONE, NONE, NONE] }

  // addToBTree of an absent key; a present key changes nothing.
  function Added(tree: map<nat, seq<Extent>>, key: nat, d: seq<Extent>): map<nat, seq<Extent>> {
    if key in tree then tree else tree[key := d]
  }

  // Where overflow groups start, and the start of the group an extent is in.
  predicate Starts(g: nat) { g >= 8 && g % 8 == 0 }

  function StartOf(n: nat): nat { n / 8 * 8 }

  lemma {:induction false} StartOfIs(n: nat)
    ensures StartOf(n) <= n < StartOf(n) + 8
    ensures n >= 8 ==> Starts(StartOf(n))
    ensures Starts(n) ==> StartOf(n) == n
  {
  }

  // What readExtents reads next after a list of extents: the record, then the group of the overflow tree
  // that is found under the file's own block number.
  function NextExtent(record: seq<Extent>, tree: map<nat, seq<Extent>>, list: seq<Extent>): Option<Extent>
    requires |record| == 8 && forall k :: k in tree ==> |tree[k]| == 8
  {
    var n := |list|;
    if n < 8 then Some(record[n])
    else
      StartOfIs(n);
      var g := StartOf(n);
      var key := Sum(list[..g]);
      if key in tree then Some(tree[key][n - g]) else None
  }

  // readExtents gets as far as this list.
  ghost predicate Follows(record: seq<Extent>, tree: map<nat, seq<Extent>>, totalBlocks: nat, list: seq<Extent>)
    requires |record| == 8 && forall k :: k in tree ==> |tree[k]| == 8
  {
    forall i :: 0 <= i < |list| ==> Sum(list[..i]) < totalBlocks && NextExtent(record, tree, list[..i]) == Some(list[i])
  }

  // readExtents comes to its end with this list.
  ghost predicate Reads(record: seq<Extent>, tree: map<nat, seq<Extent>>, totalBlocks: nat, list: seq<Extent>)
    requires |record| == 8 && forall k :: k in tree ==> |tree[k]| == 8
  {
    Sum(list) == totalBlocks && Follows(record, tree, totalBlocks, list)
  }

  // readExtents finds no group for what comes behind this list.
  ghost predicate Stuck(record: seq<Extent>, tree: map<nat, seq<Extent>>, totalBlocks: nat, list: seq<Extent>)
    requires |record| == 8 && forall k :: k in tree ==> |tree[k]| == 8
  {
    Sum(list) < totalBlocks && Follows(record, tree, totalBlocks, list) && NextExtent(record, tree, list) == None
  }

  // readExtents comes to a list with more blocks than there are.
  ghost predicate Over(record: seq<Extent>, tree: map<nat, seq<Extent>>, totalBlocks: nat, list: seq<Extent>)
    requires |record| == 8 && forall k :: k in tree ==> |tree[k]| == 8
  {
    Sum(list) > totalBlocks && Follows(record, tree, totalBlocks, list)
  }

  // readExtents reads n extents and has blocks left.
  ghost predicate GetsTo(record: seq<Extent>, tree: map<nat, seq<Extent>>, totalBlocks: nat, n: nat)
    requires |record| == 8 && forall k :: k in tree ==> |tree[k]| == 8
  {
    exists list :: |list| == n && Sum(list) < totalBlocks && Follows(record, tree, totalBlocks, list)
  }

  ghost predicate Endless(record: seq<Extent>, tree: map<nat, seq<Extent>>, totalBlocks: nat)
    requires |record| == 8 && forall k :: k in tree ==> |tree[k]| == 8
  {
    forall n: nat :: GetsTo(record, tree, totalBlocks, n)
  }

  ghost predicate Distinct(xs: seq<Extent>) {
    && (forall i :: 0 <= i < |xs| ==> xs[i].blockCount > 0)
    && forall i, j :: 0 <= i < j < |xs| ==> xs[i].startBlock != xs[j].startBlock
  }

  // The group of the overflow tree that starts at extent g holds the extents from there on. Behind the last one
  // it still has what the group before it held there.
  ghost predicate Holds(d: seq<Extent>, xs: seq<Extent>, g: nat) {
    && |d| == 8 && g < |xs|
    && forall j :: 0 <= j < 8 ==> d[j] == if g + j < |xs| then xs[g + j] else Stale(xs, g, j)
  }

  // What is in a place of the descriptor before the group that starts at g comes to it.
  ghost function Stale(xs: seq<Extent>, g: nat, j: nat): Extent
    requires j < 8 && g < |xs|
  {
    if g >= 16 then xs[g - 8 + j] else Extent(0, 0)
  }

  // Every group below n is in the tree under its first device block, and nothing else is.
  ghost predicate GroupsTo(tree: map<nat, seq<Extent>>, xs: seq<Extent>, n: nat) {
    && (forall g: nat :: Starts(g) && g < n && g < |xs| ==> xs[g].startBlock in tree && Holds(tree[xs[g].startBlock], xs, g))
    && (forall k :: k in tree ==> |tree[k]| == 8 && tree[k][0].startBlock == k && HasGroup(xs, n, k))
  }

  ghost predicate HasGroup(xs: seq<Extent>, n: nat, k: nat) {
    exists g: nat :: Starts(g) && g < n && g < |xs| && xs[g].startBlock == k
  }

  method WriteExtents(extents: seq<Extent>) returns (record: seq<Extent>, tree: map<nat, seq<Extent>>)
    requires Distinct(extents)
    ensures |record| == 8 && forall j :: 0 <= j < 8 ==> record[j] == if j < |extents| then extents[j] else Extent(0, 0)
    ensures GroupsTo(tree, extents, |extents|)
  {
    record := Empty();
    tree := map[];
    var i := 0;
    while i < |extents| && i < 8
      invariant i <= |extents| && i <= 8 && |record| == 8
      invariant forall j :: 0 <= j < 8 ==> record[j] == if j < i then extents[j] else NONE
    {
      record := record[i := extents[i]];
      i := i + 1;
    }
    if i < |extents| {
      tree := WriteOverflow(extents);
    }
  }

  // The extents behind the eighth, in groups of eight.
  method WriteOverflow(extents: seq<Extent>) returns (tree: map<nat, seq<Extent>>)
    requires Distinct(extents) && |extents| > 8
    ensures GroupsTo(tree, extents, |extents|)
  {
    hide Starts, GroupsTo, Holds, Distinct;
    tree := map[];
    NoGroups(extents);
    var i, currentExtent: nat, descriptor := 8, 0, Empty();
    // Where the group being filled starts.
    ghost var g: nat := 8;
    while i < |extents|
      invariant g <= i <= |extents| && |descriptor| == 8 && i == g + currentExtent && currentExtent <= 8
      invariant Starts(g) && (currentExtent == 0 ==> i == 8)
      invariant forall j :: 0 <= j < 8 ==> descriptor[j] == if j < currentExtent then extents[g + j] else Stale(extents, g, j)
      invariant GroupsTo(tree, extents, g)
    {
      if currentExtent == 0 {
        descriptor := Empty();
      }
      if currentExtent == 8 {
        Filled(extents, descriptor, g, 8);
        AddGroup(tree, extents, g, descriptor);
        tree := Added(tree, descriptor[0].startBlock, descriptor);
        currentExtent := 0;
        g := g + 8;
      }
      descriptor := descriptor[currentExtent := extents[i]];
      currentExtent := currentExtent + 1;
      i := i + 1;
    }
    Filled(extents, descriptor, g, currentExtent);
    AddGroup(tree, extents, g, descriptor);
    tree := Added(tree, descriptor[0].startBlock, descriptor);
  }

  lemma {:induction false} NoGroups(xs: seq<Extent>)
    ensures GroupsTo(map[], xs, 8) && Starts(8)
  {
  }

  lemma {:induction false} Filled(xs: seq<Extent>, d: seq<Extent>, g: nat, n: nat)
    requires |d| == 8 && g < |xs| && n <= 8 && g + n <= |xs| && (n == 8 || g + n == |xs|)
    requires forall j :: 0 <= j < 8 ==> d[j] == if j < n then xs[g + j] else Stale(xs, g, j)
    ensures Holds(d, xs, g)
  {
    hide Stale;
  }

  lemma {:induction false} AddGroup(tree: map<nat, seq<Extent>>, xs: seq<Extent>, g: nat, d: seq<Extent>)
    requires Distinct(xs) && GroupsTo(tree, xs, g) && Starts(g) && Holds(d, xs, g)
    ensures Starts(g + 8)
    ensures GroupsTo(Added(tree, d[0].startBlock, d), xs, g + 8)
    ensures g + 8 >= |xs| ==> GroupsTo(Added(tree, d[0].startBlock, d), xs, |xs|)
  {
    var k, tree' := d[0].startBlock, Added(tree, d[0].startBlock, d);
    assert d[0] == xs[g + 0];
    assert k !in tree;
    forall h: nat | Starts(h) && h < g + 8 && h < |xs|
      ensures xs[h].startBlock in tree' && Holds(tree'[xs[h].startBlock], xs, h)
    {
      assert h == g || h < g;
    }
    hide Holds;
    forall x | x in tree' ensures HasGroup(xs, g + 8, x) && (g + 8 >= |xs| ==> HasGroup(xs, |xs|, x)) {
      if x == k {
        assert Starts(g) && g < g + 8 && g < |xs| && xs[g].startBlock == k;
      } else {
        var h: nat :| Starts(h) && h < g && h < |xs| && xs[h].startBlock == x;
        assert Starts(h) && h < g + 8;
      }
    }
  }

  // How readExtents comes out: with a list; with hfs_panic; with a count of blocks left that passes zero and
  // wraps; or never, when it finds a group without blocks.
  datatype Outcome = Extents(list: seq<Extent>) | Panic | Wraps | Loops

  method ReadExtents(record: seq<Extent>, tree: map<nat, seq<Extent>>, totalBlocks: nat) returns (r: Outcome)
    requires |record| == 8 && forall k :: k in tree ==> |tree[k]| == 8
    ensures forall list :: Reads(record, tree, totalBlocks, list) <==> r == Extents(list)
    ensures r.Panic? <==> exists list :: Stuck(record, tree, totalBlocks, list)
    ensures r.Wraps? <==> exists list :: Over(record, tree, totalBlocks, list)
    ensures r.Loops? <==> Endless(record, tree, totalBlocks)
  {
    hide StartOf, Starts, NextExtent, Follows, Sum, Reads, Stuck, Over, Endless;
    NothingRead(record, tree, totalBlocks);
    var blocksLeft, extents: seq<Extent> := totalBlocks, [];
    var currentExtent: nat, currentBlock: nat, key := 0, 0, -1;
    var descriptor := record;
    // Where the group at hand starts.
    ghost var g: nat := 0;
    while blocksLeft > 0
      invariant Follows(record, tree, totalBlocks, extents)
      invariant currentBlock == Sum(extents) && blocksLeft == totalBlocks - currentBlock >= 0
      invariant |extents| == g + currentExtent && currentExtent <= 8 && key <= currentBlock && |descriptor| == 8
      invariant if g == 0 then key == -1 && descriptor == record
                else Starts(g) && key == Sum(extents[..g]) && key in tree && descriptor == tree[key]
      decreases blocksLeft, currentBlock > key, 8 - currentExtent
    {
      NextGiven(record, tree, extents, g, currentExtent, descriptor);
      if currentExtent == 8 {
        if currentBlock == key {
          Forever(record, tree, totalBlocks, extents, g);
          return Loops;
        }
        if currentBlock !in tree {
          LastRead(record, tree, totalBlocks, extents);
          return Panic;
        }
        descriptor, key, currentExtent := tree[currentBlock], currentBlock, 0;
        g := |extents|;
        assert extents[..g] == extents;
      } else {
        var extent := descriptor[currentExtent];
        OneMore(record, tree, totalBlocks, extents, extent, g);
        if extent.blockCount > blocksLeft {
          LastRead(record, tree, totalBlocks, extents + [extent]);
          return Wraps;
        }
        extents := extents + [extent];
        currentBlock := currentBlock + extent.blockCount;
        blocksLeft := blocksLeft - extent.blockCount;
        currentExtent := currentExtent + 1;
      }
    }
    LastRead(record, tree, totalBlocks, extents);
    r := Extents(extents);
  }

  lemma {:induction false} NothingRead(record: seq<Extent>, tree: map<nat, seq<Extent>>, totalBlocks: nat)
    requires |record| == 8 && forall k :: k in tree ==> |tree[k]| == 8
    ensures Follows(record, tree, totalBlocks, []) && Sum([]) == 0
  {
  }

  // What comes next, said of the group at hand.
  lemma {:induction false} NextGiven(record: seq<Extent>, tree: map<nat, seq<Extent>>, list: seq<Extent>, g: nat, n: nat, d: seq<Extent>)
    requires |record| == 8 && forall k :: k in tree ==> |tree[k]| == 8
    requires |list| == g + n && n <= 8 && |d| == 8
    requires if g == 0 then d == record else Starts(g) && Sum(list[..g]) in tree && d == tree[Sum(list[..g])]
    ensures n < 8 ==> NextExtent(record, tree, list) == Some(d[n])
    ensures n == 8 ==> Starts(|list|)
    ensures n == 8 && Sum(list) !in tree ==> NextExtent(record, tree, list) == None
  {
    StartOfIs(|list|);
    assert list[..|list|] == list;
  }

  lemma {:induction false} OneMore(record: seq<Extent>, tree: map<nat, seq<Extent>>, totalBlocks: nat, list: seq<Extent>, e: Extent, g: nat)
    requires |record| == 8 && forall k :: k in tree ==> |tree[k]| == 8
    requires Follows(record, tree, totalBlocks, list) && Sum(list) < totalBlocks && NextExtent(record, tree, list) == Some(e)
    requires g <= |list|
    ensures Follows(record, tree, totalBlocks, list + [e]) && Sum(list + [e]) == Sum(list) + e.blockCount
    ensures (list + [e])[..g] == list[..g]
  {
    hide NextExtent;
    SumSnoc(list, e);
    hide Sum;
    var more := list + [e];
    forall i | 0 <= i < |more| ensures Sum(more[..i]) < totalBlocks && NextExtent(record, tree, more[..i]) == Some(more[i]) {
      if i < |list| {
        assert more[..i] == list[..i];
      } else {
        assert more[..i] == list;
      }
    }
  }

  // Any two lists that are read so far begin alike.
  lemma {:induction false} Alike(record: seq<Extent>, tree: map<nat, seq<Extent>>, totalBlocks: nat, a: seq<Extent>, b: seq<Extent>, n: nat)
    requires |record| == 8 && forall k :: k in tree ==> |tree[k]| == 8
    requires Follows(record, tree, totalBlocks, a) && Follows(record, tree, totalBlocks, b) && n <= |a| && n <= |b|
    ensures a[..n] == b[..n]
  {
    hide NextExtent, Sum;
    if n > 0 {
      Alike(record, tree, totalBlocks, a, b, n - 1);
      assert a[..n] == a[..n - 1] + [a[n - 1]] && b[..n] == b[..n - 1] + [b[n - 1]];
    }
  }

  // Nothing is read behind this list.
  ghost predicate Final(record: seq<Extent>, tree: map<nat, seq<Extent>>, totalBlocks: nat, list: seq<Extent>)
    requires |record| == 8 && forall k :: k in tree ==> |tree[k]| == 8
  {
    && Follows(record, tree, totalBlocks, list)
    && (Sum(list) < totalBlocks ==> NextExtent(record, tree, list) == None)
  }

  lemma {:induction false} NoneBehind(record: seq<Extent>, tree: map<nat, seq<Extent>>, totalBlocks: nat, list: seq<Extent>, more: seq<Extent>)
    requires |record| == 8 && forall k :: k in tree ==> |tree[k]| == 8
    requires Final(record, tree, totalBlocks, list) && Follows(record, tree, totalBlocks, more)
    ensures |more| <= |list| && list[..|more|] == more
  {
    hide NextExtent, Sum;
    assert list[..|list|] == list && more[..|more|] == more;
    if |more| > |list| {
      Alike(record, tree, totalBlocks, list, more, |list|);
      assert false;
    }
    Alike(record, tree, totalBlocks, list, more, |more|);
  }

  lemma {:induction false} OneFinal(record: seq<Extent>, tree: map<nat, seq<Extent>>, totalBlocks: nat, list: seq<Extent>, other: seq<Extent>)
    requires |record| == 8 && forall k :: k in tree ==> |tree[k]| == 8
    requires Final(record, tree, totalBlocks, list) && Final(record, tree, totalBlocks, other)
    ensures list == other
  {
    hide NextExtent, Sum, Follows;
    NoneBehind(record, tree, totalBlocks, list, other);
    NoneBehind(record, tree, totalBlocks, other, list);
    assert list[..|list|] == list;
  }

  // A list behind which nothing is read settles how readExtents comes out.
  lemma {:induction false} LastRead(record: seq<Extent>, tree: map<nat, seq<Extent>>, totalBlocks: nat, list: seq<Extent>)
    requires |record| == 8 && forall k :: k in tree ==> |tree[k]| == 8
    requires Follows(record, tree, totalBlocks, list) && (Sum(list) < totalBlocks ==> NextExtent(record, tree, list) == None)
    ensures forall all :: Reads(record, tree, totalBlocks, all) <==> Sum(list) == totalBlocks && all == list
    ensures (exists all :: Stuck(record, tree, totalBlocks, all)) <==> Sum(list) < totalBlocks
    ensures (exists all :: Over(record, tree, totalBlocks, all)) <==> Sum(list) > totalBlocks
    ensures !Endless(record, tree, totalBlocks)
  {
    hide NextExtent, Sum, Follows;
    forall all | Final(record, tree, totalBlocks, all) ensures all == list {
      OneFinal(record, tree, totalBlocks, list, all);
    }
    Settled(record, tree, totalBlocks, list);
    assert Sum(list) < totalBlocks ==> Stuck(record, tree, totalBlocks, list);
    assert Sum(list) > totalBlocks ==> Over(record, tree, totalBlocks, list);
    if Endless(record, tree, totalBlocks) {
      assert GetsTo(record, tree, totalBlocks, |list| + 1);
      var more :| |more| == |list| + 1 && Follows(record, tree, totalBlocks, more);
      NoneBehind(record, tree, totalBlocks, list, more);
      assert false;
    }
  }

  lemma {:induction false} Settled(record: seq<Extent>, tree: map<nat, seq<Extent>>, totalBlocks: nat, list: seq<Extent>)
    requires |record| == 8 && forall k :: k in tree ==> |tree[k]| == 8
    requires forall all :: Final(record, tree, totalBlocks, all) ==> all == list
    ensures forall all :: Reads(record, tree, totalBlocks, all) || Stuck(record, tree, totalBlocks, all) || Over(record, tree, totalBlocks, all) ==> all == list
  {
    hide NextExtent, Sum, Follows;
    forall all | Reads(record, tree, totalBlocks, all) || Stuck(record, tree, totalBlocks, all) || Over(record, tree, totalBlocks, all)
      ensures all == list
    {
      assert Final(record, tree, totalBlocks, all);
    }
  }

  // A group without blocks is found again and again.
  lemma {:induction false} Forever(record: seq<Extent>, tree: map<nat, seq<Extent>>, totalBlocks: nat, list: seq<Extent>, g: nat)
    requires |record| == 8 && forall k :: k in tree ==> |tree[k]| == 8
    requires Follows(record, tree, totalBlocks, list) && Sum(list) < totalBlocks
    requires Starts(g) && |list| == g + 8 && Sum(list[..g]) == Sum(list) && Sum(list) in tree
    ensures Endless(record, tree, totalBlocks)
    ensures forall all :: !Reads(record, tree, totalBlocks, all) && !Stuck(record, tree, totalBlocks, all) && !Over(record, tree, totalBlocks, all)
  {
    hide NextExtent, Sum, Follows, Starts;
    NoBlocks(record, tree, totalBlocks, list, g);
    forall n: nat ensures GetsTo(record, tree, totalBlocks, n) {
      TurnsFollow(record, tree, totalBlocks, list, n);
      FirstFollow(record, tree, totalBlocks, Turns(list, tree[Sum(list)], n), n);
    }
    forall all ensures !Reads(record, tree, totalBlocks, all) && !Stuck(record, tree, totalBlocks, all) && !Over(record, tree, totalBlocks, all) {
      if Reads(record, tree, totalBlocks, all) || Stuck(record, tree, totalBlocks, all) || Over(record, tree, totalBlocks, all) {
        TurnsFollow(record, tree, totalBlocks, list, |all| + 1);
        NoneBehind(record, tree, totalBlocks, all, Turns(list, tree[Sum(list)], |all| + 1));
        assert false;
      }
    }
  }

  // The list with a group behind it over and over.
  ghost function Turns(list: seq<Extent>, d: seq<Extent>, n: nat): (t: seq<Extent>)
    requires |d| == 8
    ensures |t| == |list| + n && t[..|list|] == list
  {
    list + seq(n, j => d[j % 8])
  }

  lemma {:induction false} TurnsSum(list: seq<Extent>, d: seq<Extent>, n: nat)
    requires |d| == 8 && forall j :: 0 <= j < 8 ==> d[j].blockCount == 0
    ensures Sum(Turns(list, d, n)) == Sum(list)
  {
    hide Sum;
    if n == 0 {
      assert Turns(list, d, 0) == list;
    } else {
      TurnsSum(list, d, n - 1);
      SumSnoc(Turns(list, d, n - 1), d[(n - 1) % 8]);
      assert Turns(list, d, n) == Turns(list, d, n - 1) + [d[(n - 1) % 8]];
    }
  }

  lemma {:induction false} TurnsFollow(record: seq<Extent>, tree: map<nat, seq<Extent>>, totalBlocks: nat, list: seq<Extent>, n: nat)
    requires |record| == 8 && forall k :: k in tree ==> |tree[k]| == 8
    requires Follows(record, tree, totalBlocks, list) && Sum(list) < totalBlocks && Sum(list) in tree && Starts(|list|)
    requires forall j :: 0 <= j < 8 ==> tree[Sum(list)][j].blockCount == 0
    ensures Follows(record, tree, totalBlocks, Turns(list, tree[Sum(list)], n))
    ensures Sum(Turns(list, tree[Sum(list)], n)) < totalBlocks
  {
    hide Sum, NextExtent, Follows;
    var d := tree[Sum(list)];
    TurnsSum(list, d, n);
    if n == 0 {
      assert Turns(list, d, 0) == list;
    } else {
      TurnsFollow(record, tree, totalBlocks, list, n - 1);
      TurnsSum(list, d, n - 1);
      NextTurn(record, tree, list, n - 1);
      OneMore(record, tree, totalBlocks, Turns(list, d, n - 1), d[(n - 1) % 8], 0);
      assert Turns(list, d, n) == Turns(list, d, n - 1) + [d[(n - 1) % 8]];
    }
  }

  lemma {:induction false} NextTurn(record: seq<Extent>, tree: map<nat, seq<Extent>>, list: seq<Extent>, n: nat)
    requires |record| == 8 && forall k :: k in tree ==> |tree[k]| == 8
    requires Sum(list) in tree && Starts(|list|) && forall j :: 0 <= j < 8 ==> tree[Sum(list)][j].blockCount == 0
    ensures NextExtent(record, tree, Turns(list, tree[Sum(list)], n)) == Some(tree[Sum(list)][n % 8])
  {
    hide Sum;
    var d, t, m := tree[Sum(list)], Turns(list, tree[Sum(list)], n), n / 8 * 8;
    StartOfIs(|t|);
    assert StartOf(|t|) == |list| + m && |t| - StartOf(|t|) == n % 8;
    assert t[..|list| + m] == Turns(list, d, m);
    TurnsSum(list, d, m);
  }

  lemma {:induction false} FirstFollow(record: seq<Extent>, tree: map<nat, seq<Extent>>, totalBlocks: nat, list: seq<Extent>, n: nat)
    requires |record| == 8 && forall k :: k in tree ==> |tree[k]| == 8
    requires Follows(record, tree, totalBlocks, list) && Sum(list) < totalBlocks && n <= |list|
    ensures GetsTo(record, tree, totalBlocks, n)
  {
    hide Sum, NextExtent;
    var t := list[..n];
    assert forall i :: 0 <= i < n ==> t[..i] == list[..i];
    assert Follows(record, tree, totalBlocks, t);
    SumsRise(list, n, |list|);
    assert list[..|list|] == list;
  }

  lemma {:induction false} NoBlocks(record: seq<Extent>, tree: map<nat, seq<Extent>>, totalBlocks: nat, list: seq<Extent>, g: nat)
    requires |record| == 8 && forall k :: k in tree ==> |tree[k]| == 8
    requires Follows(record, tree, totalBlocks, list)
    requires Starts(g) && |list| == g + 8 && Sum(list[..g]) == Sum(list) && Sum(list) in tree
    ensures Starts(|list|) && forall j :: 0 <= j < 8 ==> tree[Sum(list)][j].blockCount == 0
  {
    hide NextExtent, Sum;
    assert list[..|list|] == list;
    forall j | 0 <= j < 8 ensures tree[Sum(list)][j].blockCount == 0 {
      SumsRise(list, g, g + j);
      SumsRise(list, g + j + 1, g + 8);
      PrefixSum(list, g + j);
      assert list[..g + j][..g] == list[..g];
      NextGiven(record, tree, list[..g + j], g, j, tree[Sum(list[..g])]);
    }
  }

  lemma {:induction false} SumsRise(list: seq<Extent>, i: nat, j: nat)
    requires i <= j <= |list|
    ensures Sum(list[..i]) <= Sum(list[..j])
  {
    hide Sum;
    if i < j {
      SumsRise(list, i, j - 1);
      PrefixSum(list, j - 1);
    }
  }

  lemma {:induction false} PrefixSum(xs: seq<Extent>, i: nat)
    requires i <= |xs|
    ensures i < |xs| ==> Sum(xs[..i + 1]) == Sum(xs[..i]) + xs[i].blockCount
    ensures i == |xs| ==> xs[..i] == xs
    ensures i == 0 ==> Sum(xs[..i]) == 0
  {
    if i < |xs| {
      SumSnoc(xs[..i], xs[i]);
      assert xs[..i] + [xs[i]] == xs[..i + 1];
    }
  }

  lemma {:induction false} PrefixLess(xs: seq<Extent>, i: nat)
    requires i < |xs| && forall j :: 0 <= j < |xs| ==> xs[j].blockCount > 0
    ensures Sum(xs[..i]) < Sum(xs)
    decreases |xs| - i
  {
    PrefixSum(xs, i);
    if i + 1 < |xs| {
      PrefixLess(xs, i + 1);
    } else {
      PrefixSum(xs, i + 1);
    }
  }

  // The device blocks at which overflow groups are written are the file blocks at which they are looked up.
  ghost predicate KeysAgree(xs: seq<Extent>) {
    forall g: nat :: Starts(g) && g < |xs| ==> xs[g].startBlock == Sum(xs[..g])
  }

  // What writeExtents wrote readExtents gives back, if and only if every overflow group starts at a device
  // block with the number of the file block it holds; with at most eight extents there is no such group.
  lemma {:induction false} RestoredIff(xs: seq<Extent>, record: seq<Extent>, tree: map<nat, seq<Extent>>)
    requires Distinct(xs) && |record| == 8 && (forall j :: 0 <= j < 8 ==> record[j] == if j < |xs| then xs[j] else NONE)
    requires GroupsTo(tree, xs, |xs|)
    ensures Reads(record, tree, Sum(xs), xs) <==> KeysAgree(xs)
    ensures |xs| <= 8 ==> KeysAgree(xs)
  {
    forall i | 0 <= i < |xs| ensures Sum(xs[..i]) < Sum(xs) {
      PrefixLess(xs, i);
    }
    hide StartOf, Starts, NextExtent, Sum;
    if Reads(record, tree, Sum(xs), xs) {
      forall g: nat | Starts(g) && g < |xs| ensures xs[g].startBlock == Sum(xs[..g]) {
        assert NextExtent(record, tree, xs[..g]) == Some(xs[g]);
        KeyRead(xs, record, tree, g);
      }
    }
    if KeysAgree(xs) {
      forall i | 0 <= i < |xs| ensures NextExtent(record, tree, xs[..i]) == Some(xs[i]) {
        NextIs(xs, record, tree, i);
      }
    }
    NoStart(|xs|);
  }

  // Written and read again.
  method WriteThenRead(extents: seq<Extent>) returns (r: Outcome)
    requires Distinct(extents)
    ensures r == Extents(extents) <==> KeysAgree(extents)
  {
    hide Distinct, Reads, KeysAgree, GroupsTo, Sum;
    var record, tree := WriteExtents(extents);
    GroupSizes(tree, extents);
    r := ReadExtents(record, tree, Sum(extents));
    RestoredIff(extents, record, tree);
  }

  lemma {:induction false} GroupSizes(tree: map<nat, seq<Extent>>, xs: seq<Extent>)
    requires GroupsTo(tree, xs, |xs|)
    ensures forall k :: k in tree ==> |tree[k]| == 8
  {
  }

  lemma {:induction false} NoStart(n: nat)
    ensures n <= 8 ==> forall g: nat :: g < n ==> !Starts(g)
  {
  }

  lemma {:induction false} KeyRead(xs: seq<Extent>, record: seq<Extent>, tree: map<nat, seq<Extent>>, g: nat)
    requires |record| == 8 && GroupsTo(tree, xs, |xs|) && Starts(g) && g < |xs|
    requires NextExtent(record, tree, xs[..g]) == Some(xs[g])
    ensures xs[g].startBlock == Sum(xs[..g])
  {
    hide Sum, Holds;
    StartOfIs(g);
    assert xs[..g][..g] == xs[..g];
  }

  lemma {:induction false} NextIs(xs: seq<Extent>, record: seq<Extent>, tree: map<nat, seq<Extent>>, i: nat)
    requires |record| == 8 && (forall j :: 0 <= j < 8 ==> record[j] == if j < |xs| then xs[j] else NONE)
    requires GroupsTo(tree, xs, |xs|) && KeysAgree(xs) && i < |xs|
    ensures NextExtent(record, tree, xs[..i]) == Some(xs[i])
  {
    hide Sum, HasGroup;
    StartOfIs(i);
    var g := StartOf(i);
    if i >= 8 {
      assert Starts(g);
      hide StartOf, Starts;
      assert xs[..i][..g] == xs[..g];
      assert Holds(tree[xs[g].startBlock], xs, g);
      assert g + (i - g) == i;
    }
  }

  // The extent lists that allocate makes are of this kind.
  lemma {:induction false} OkIsDistinct(xs: seq<Extent>, total: nat)
    requires ExtentsOk(xs, total)
    ensures Distinct(xs)
  {
    if xs != [] {
      OkIsDistinct(xs[1..], total);
      forall j | 1 <= j < |xs| ensures xs[j].blockCount > 0 && xs[0].startBlock != xs[j].startBlock {
        assert xs[j] == xs[1..][j - 1];
        OwnsIts(xs[1..], j - 1);
      }
      forall i, j | 1 <= i < j < |xs| ensures xs[i].startBlock != xs[j].startBlock {
        assert xs[i] == xs[1..][i - 1] && xs[j] == xs[1..][j - 1];
      }
    }
  }

  lemma {:induction false} OwnsIts(xs: seq<Extent>, i: nat)
    requires i < |xs| && xs[i].blockCount > 0
    ensures Owns(xs, xs[i].startBlock)
  {
    if i > 0 {
      OwnsIts(xs[1..], i - 1);
    }
  }

  // Nine one-block extents on every other block of the device: the ninth is not found again.
  lemma {:induction false} NinthIsLost(record: seq<Extent>, tree: map<nat, seq<Extent>>)
    requires |record| == 8 && (forall j :: 0 <= j < 8 ==> record[j] == Scattered(9)[j]) && GroupsTo(tree, Scattered(9), 9)
    ensures !Reads(record, tree, Sum(Scattered(9)), Scattered(9))
  {
    var xs := Scattered(9);
    ScatteredSum(8);
    assert xs[..8] == Scattered(8);
    assert Starts(8) && xs[8].startBlock != Sum(xs[..8]);
    RestoredIff(xs, record, tree);
  }

  function Scattered(n: nat): (r: seq<Extent>)
    ensures |r| == n && forall i :: 0 <= i < n ==> r[i] == Extent(2 * i + 1, 1)
  {
    if n == 0 then [] else Scattered(n - 1) + [Extent(2 * n - 1, 1)]
  }

  lemma {:induction false} ScatteredSum(n: nat)
    ensures Sum(Scattered(n)) == n
  {
    if n > 0 {
      ScatteredSum(n - 1);
      SumSnoc(Scattered(n - 1), Extent(2 * n - 1, 1));
    }
  }
}
