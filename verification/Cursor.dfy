/**
  Which blocks the allocator of hfs/rawfile.c takes: the block behind the last extent while it is free, else the
  first free one from the volume's cursor on, around the end of the volume.
 */
module Cursors {
  import opened Bitmap
  import opened Extents

  // The extent list while it grows: the last extent may still be empty.
  function Real(front: seq<Extent>, last: Extent): seq<Extent> {
    if last.blockCount == 0 then front else front + [last]
  }

  function Longer(last: Extent, b: nat): Extent {
    if last.blockCount == 0 then Extent(b, 1) else Extent(last.startBlock, last.blockCount + 1)
  }

  /* ----- The cursor comes to a free block ----- */

  ghost function FirstFree(s: seq<bool>, n: nat): nat
    requires n <= |s|
    decreases |s| - n
  {
    if n == |s| || !s[n] then n else FirstFree(s, n + 1)
  }

  // Steps of the cursor, around the end of the volume, to the next free block.
  ghost function Distance(s: seq<bool>, n: nat): nat
    requires n < |s|
  {
    FirstFreeBound(s, n);
    var f := FirstFree(s, n);
    if f < |s| then f - n else |s| - n + FirstFree(s, 0)
  }

  lemma {:induction false} FirstFreeBound(s: seq<bool>, n: nat)
    requires n <= |s|
    ensures n <= FirstFree(s, n) <= |s|
    ensures forall i :: n <= i < FirstFree(s, n) ==> s[i]
    ensures FirstFree(s, n) < |s| ==> !s[FirstFree(s, n)]
    decreases |s| - n
  {
    if n < |s| && s[n] {
      FirstFreeBound(s, n + 1);
    }
  }

  lemma {:induction false} CursorStep(s: seq<bool>, n: nat)
    requires n < |s| && CountFree(s) > 0
    ensures !s[n] ==> Distance(s, n) == 0
    ensures s[n] ==> Distance(s, if n + 1 >= |s| then 0 else n + 1) + 1 == Distance(s, n)
  {
    var i := SomeFree(s);
    FirstFreeBound(s, 0);
    FirstFreeBound(s, n);
    if n + 1 < |s| {
      FirstFreeBound(s, n + 1);
    }
  }

  // The first free block from the cursor on, around the end.
  ghost function FromCursor(s: seq<bool>, c: nat): nat
    requires c < |s|
  {
    var f := FirstFree(s, c);
    if f < |s| then f else FirstFree(s, 0)
  }

  // Block b is free, and all that the cursor passes on its way from c to b are used.
  ghost predicate NextFrom(s: seq<bool>, c: nat, b: nat) {
    && c < |s| && b < |s| && !s[b]
    && if c <= b then (forall i :: c <= i < b ==> s[i]) else (forall i :: c <= i < |s| || 0 <= i < b ==> s[i])
  }

  lemma {:induction false} FromCursorIs(s: seq<bool>, c: nat)
    requires c < |s| && CountFree(s) > 0
    ensures NextFrom(s, c, FromCursor(s, c))
  {
    var i := SomeFree(s);
    FirstFreeBound(s, 0);
    FirstFreeBound(s, c);
  }

  // There is only one such block.
  lemma {:induction false} NextIsFromCursor(s: seq<bool>, c: nat, b: nat)
    requires NextFrom(s, c, b)
    ensures FromCursor(s, c) == b
  {
    FirstFreeBound(s, 0);
    FirstFreeBound(s, c);
  }

  lemma {:induction false} CursorPasses(s: seq<bool>, c: nat)
    requires c < |s| && CountFree(s) > 0 && s[c]
    ensures FromCursor(s, c) == FromCursor(s, Next(c, |s|))
  {
    FromCursorIs(s, Next(c, |s|));
    var b := FromCursor(s, Next(c, |s|));
    hide FromCursor;
    assert NextFrom(s, c, b);
    NextIsFromCursor(s, c, b);
  }

  /* ----- The extents and the cursor after n blocks ----- */

  function Next(c: nat, total: nat): nat { if c + 1 >= total then 0 else c + 1 }

  // Where the code looks after taking block b.
  function Behind(b: nat, total: nat, c: nat): nat { if b + 1 >= total then c else b + 1 }

  // From the bits, the extents so far, the block to look at and the cursor.
  ghost function Steps(s: seq<bool>, front: seq<Extent>, last: Extent, p: nat, c: nat, n: nat): (seq<Extent>, nat)
    decreases n
  {
    if n == 0 || p >= |s| || c >= |s| then (Real(front, last), c)
    else if !s[p] then Steps(s[p := true], front, Longer(last, p), Behind(p, |s|, c), c, n - 1)
    else
      var b := FromCursor(s, c);
      if b >= |s| then (Real(front, last), c)
      else Steps(s[b := true], Real(front, last), Extent(b, 1), Behind(b, |s|, Next(b, |s|)), Next(b, |s|), n - 1)
  }

  // A fork without extents starts at the cursor.
  ghost function Grown(s: seq<bool>, xs: seq<Extent>, c: nat, n: nat): (seq<Extent>, nat) {
    if xs == [] then Steps(s, [], Extent(0, 0), c, c, n)
    else
      var last := xs[|xs| - 1];
      Steps(s, xs[..|xs| - 1], last, last.startBlock + last.blockCount, c, n)
  }

  // A free block is taken.
  lemma {:induction false} StepTakes(s: seq<bool>, front: seq<Extent>, last: Extent, p: nat, c: nat, n: nat)
    requires n > 0 && p < |s| && c < |s| && !s[p]
    ensures Steps(s, front, last, p, c, n) == Steps(s[p := true], front, Longer(last, p), Behind(p, |s|, c), c, n - 1)
  {
    hide Longer;
  }

  // A used block ends the extent, and the cursor is looked at and moved on.
  lemma {:induction false} StepTurns(s: seq<bool>, front: seq<Extent>, last: Extent, p: nat, c: nat, n: nat)
    requires n > 0 && p < |s| && c < |s| && s[p] && CountFree(s) > 0
    ensures Steps(s, front, last, p, c, n) == Steps(s, Real(front, last), Extent(0, 0), c, Next(c, |s|), n)
  {
    FromCursorIs(s, c);
    var b := FromCursor(s, c);
    if s[c] {
      CursorPasses(s, c);
    } else {
      NextIsFromCursor(s, c, c);
      StepTakes(s, Real(front, last), Extent(0, 0), c, Next(c, |s|), n);
    }
    hide FromCursor, NextFrom;
  }

  // What it says of a fork without extents: its first block is the first free one from the cursor on.
  lemma {:induction false} StartsAtCursor(s: seq<bool>, c: nat, n: nat)
    requires c < |s| && 0 < n <= CountFree(s)
    ensures var xs := Grown(s, [], c, n).0; xs != [] && NextFrom(s, c, xs[0].startBlock)
  {
    FromCursorIs(s, c);
    var b := FromCursor(s, c);
    if !s[c] {
      NextIsFromCursor(s, c, c);
      CountFlip(s, c, true);
      FirstStays(s[c := true], [], Extent(c, 1), Behind(c, |s|, c), c, n - 1);
    } else {
      CountFlip(s, b, true);
      FirstStays(s[b := true], [], Extent(b, 1), Behind(b, |s|, Next(b, |s|)), Next(b, |s|), n - 1);
    }
    hide FromCursor, NextFrom;
  }

  // Blocks that were there stay at the front.
  lemma {:induction false} FirstStays(s: seq<bool>, front: seq<Extent>, last: Extent, p: nat, c: nat, n: nat)
    requires last.blockCount > 0
    ensures var xs := Steps(s, front, last, p, c, n).0;
      && |front| < |xs| && xs[..|front|] == front
      && xs[|front|].startBlock == last.startBlock && last.blockCount <= xs[|front|].blockCount
    decreases n
  {
    if n == 0 || p >= |s| || c >= |s| {
    } else if !s[p] {
      FirstStays(s[p := true], front, Longer(last, p), Behind(p, |s|, c), c, n - 1);
    } else {
      var b := FromCursor(s, c);
      if b < |s| {
        var c' := Next(b, |s|);
        FirstStays(s[b := true], front + [last], Extent(b, 1), Behind(b, |s|, c'), c', n - 1);
        var xs := Steps(s[b := true], front + [last], Extent(b, 1), Behind(b, |s|, c'), c', n - 1).0;
        assert (front + [last])[..|front|] == front && (front + [last])[|front|] == last;
        assert xs[..|front| + 1][..|front|] == xs[..|front|] && xs[..|front| + 1][|front|] == xs[|front|];
      }
    }
  }

  // While the blocks behind an extent are free it grows, and the cursor stays.
  lemma {:induction false} GrowsInPlace(s: seq<bool>, front: seq<Extent>, last: Extent, c: nat, k: nat, n: nat)
    requires last.blockCount > 0 && k <= n && c < |s| && last.startBlock + last.blockCount + k < |s|
    requires forall i :: last.startBlock + last.blockCount <= i < last.startBlock + last.blockCount + k ==> !s[i]
    ensures var end := last.startBlock + last.blockCount;
      var t := Marked(s, end, k);
      Steps(s, front, last, end, c, n) == Steps(t, front, Extent(last.startBlock, last.blockCount + k), end + k, c, n - k)
    decreases k
  {
    var end := last.startBlock + last.blockCount;
    if k > 0 {
      StepTakes(s, front, last, end, c, n);
      GrowsInPlace(s[end := true], front, Longer(last, end), c, k - 1, n - 1);
    }
  }

  // The bits with k blocks from one on set.
  ghost function Marked(s: seq<bool>, from: nat, k: nat): (t: seq<bool>)
    requires from + k <= |s|
    ensures |t| == |s| && forall i :: 0 <= i < |s| ==> t[i] == (s[i] || from <= i < from + k)
    decreases k
  {
    if k == 0 then s else Marked(s[from := true], from + 1, k - 1)
  }

  // With room behind its last extent a fork only grows there.
  lemma {:induction false} GrowsBehind(s: seq<bool>, front: seq<Extent>, last: Extent, c: nat, n: nat)
    requires last.blockCount > 0 && c < |s| && last.startBlock + last.blockCount + n < |s|
    requires forall i :: last.startBlock + last.blockCount <= i < last.startBlock + last.blockCount + n ==> !s[i]
    ensures Grown(s, front + [last], c, n) == (front + [Extent(last.startBlock, last.blockCount + n)], c)
  {
    GrowsInPlace(s, front, last, c, n, n);
    assert (front + [last])[..|front|] == front;
  }

  // Where the block behind an extent is used, the next extent starts at the first free block from the cursor on,
  // and the cursor goes behind it.
  lemma {:induction false} StartsAnew(s: seq<bool>, front: seq<Extent>, last: Extent, p: nat, c: nat, n: nat)
    requires last.blockCount > 0 && p < |s| && c < |s| && s[p] && 0 < n <= CountFree(s)
    ensures exists b: nat :: (NextFrom(s, c, b)
      && Steps(s, front, last, p, c, n) == Steps(s[b := true], front + [last], Extent(b, 1), Behind(b, |s|, Next(b, |s|)), Next(b, |s|), n - 1))
  {
    FromCursorIs(s, c);
    hide FromCursor, NextFrom;
    assert NextFrom(s, c, FromCursor(s, c));
  }
}
