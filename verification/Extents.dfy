/**
  Extents of a fork as values: which blocks they hold, the bytes those blocks
  make up, and what writing one block does to the bytes of this and that fork.
 */
module Extents {
  import opened Bitmap
  import opened Common

  datatype Extent = Extent(startBlock: nat, blockCount: nat)

  predicate InExtent(e: Extent, b: nat) { e.startBlock <= b < e.startBlock + e.blockCount }

  predicate Owns(xs: seq<Extent>, b: nat) {
    xs != [] && (InExtent(xs[0], b) || Owns(xs[1..], b))
  }

  // No extent is empty, the last block of the volume is in none, and no two share a block.
  ghost predicate ExtentsOk(xs: seq<Extent>, total: nat) {
    xs != [] ==> ExtentOk(xs[0], total) && NotIn(xs[0], xs[1..]) && ExtentsOk(xs[1..], total)
  }

  predicate ExtentOk(e: Extent, total: nat) {
    e.blockCount > 0 && e.startBlock + e.blockCount < total
  }

  ghost predicate NotIn(e: Extent, xs: seq<Extent>) {
    forall b: nat :: InExtent(e, b) ==> !Owns(xs, b)
  }

  ghost predicate AllUsed(xs: seq<Extent>, bits: Bytes, total: nat)
    requires total <= 8 * |bits|
  {
    forall b: nat :: b < total && Owns(xs, b) ==> Bit(bits, b)
  }

  // Two forks share no block.
  ghost predicate Disjoint(xs: seq<Extent>, ys: seq<Extent>) {
    forall b: nat :: !(Owns(xs, b) && Owns(ys, b))
  }

  lemma {:induction false} OwnsSnoc(xs: seq<Extent>, e: Extent, b: nat)
    ensures Owns(xs + [e], b) <==> Owns(xs, b) || InExtent(e, b)
  {
    if xs == [] {
      assert xs + [e] == [e] && [e][1..] == [];
    } else {
      assert (xs + [e])[1..] == xs[1..] + [e];
      OwnsSnoc(xs[1..], e, b);
    }
  }

  lemma {:induction false} OkSnoc(xs: seq<Extent>, e: Extent, total: nat)
    ensures ExtentsOk(xs + [e], total) <==> ExtentsOk(xs, total) && ExtentOk(e, total) && NotIn(e, xs)
  {
    hide ExtentOk;
    if xs == [] {
      assert xs + [e] == [e] && [e][1..] == [];
    } else {
      assert (xs + [e])[1..] == xs[1..] + [e] && (xs + [e])[0] == xs[0];
      OkSnoc(xs[1..], e, total);
      forall b: nat ensures Owns(xs[1..] + [e], b) <==> Owns(xs[1..], b) || InExtent(e, b) {
        OwnsSnoc(xs[1..], e, b);
      }
    }
  }

  lemma {:induction false} OwnsConcat(a: seq<Extent>, b: seq<Extent>, x: nat)
    ensures Owns(a + b, x) <==> Owns(a, x) || Owns(b, x)
  {
    if a == [] {
      assert a + b == b;
    } else {
      assert (a + b)[1..] == a[1..] + b && (a + b)[0] == a[0];
      OwnsConcat(a[1..], b, x);
    }
  }

  lemma {:induction false} OkConcat(a: seq<Extent>, b: seq<Extent>, total: nat)
    requires ExtentsOk(a + b, total)
    ensures ExtentsOk(a, total) && ExtentsOk(b, total) && Disjoint(a, b)
  {
    hide ExtentOk;
    if a == [] {
      assert a + b == b;
    } else {
      assert (a + b)[1..] == a[1..] + b && (a + b)[0] == a[0];
      OkConcat(a[1..], b, total);
      forall x: nat
        ensures Owns(a[1..] + b, x) <==> Owns(a[1..], x) || Owns(b, x)
      {
        OwnsConcat(a[1..], b, x);
      }
      forall x: nat ensures !(Owns(a, x) && Owns(b, x)) {
        assert InExtent(a[0], x) ==> !Owns(a[1..] + b, x);
      }
    }
  }

  // Owned blocks are real blocks, and never the last one.
  lemma {:induction false} OwnedBelow(xs: seq<Extent>, total: nat, b: nat)
    requires ExtentsOk(xs, total) && Owns(xs, b)
    ensures b + 1 < total
  {
    if !InExtent(xs[0], b) {
      OwnedBelow(xs[1..], total, b);
    }
  }

  function Sum(xs: seq<Extent>): nat {
    if xs == [] then 0 else xs[0].blockCount + Sum(xs[1..])
  }

  lemma {:induction false} SumSnoc(xs: seq<Extent>, e: Extent)
    ensures Sum(xs + [e]) == Sum(xs) + e.blockCount
  {
    if xs == [] {
      assert xs + [e] == [e] && [e][1..] == [];
    } else {
      assert (xs + [e])[1..] == xs[1..] + [e];
      SumSnoc(xs[1..], e);
    }
  }

  /* ----- Bytes ----- */

  function Slice(image: Bytes, a: nat, b: nat): (r: Bytes)
    ensures a <= b <= |image| ==> |r| == b - a
  {
    if a <= b <= |image| then image[a..b] else []
  }

  function ExtentBytes(image: Bytes, bs: nat, e: Extent): Bytes {
    Slice(image, e.startBlock * bs, (e.startBlock + e.blockCount) * bs)
  }

  // All allocated bytes of a fork, in order.
  function Content(image: Bytes, bs: nat, xs: seq<Extent>): Bytes {
    if xs == [] then [] else ExtentBytes(image, bs, xs[0]) + Content(image, bs, xs[1..])
  }

  lemma {:induction false} ContentSnoc(image: Bytes, bs: nat, xs: seq<Extent>, e: Extent)
    ensures Content(image, bs, xs + [e]) == Content(image, bs, xs) + ExtentBytes(image, bs, e)
  {
    hide ExtentBytes;
    if xs == [] {
      assert xs + [e] == [e] && [e][1..] == [];
    } else {
      assert (xs + [e])[1..] == xs[1..] + [e] && (xs + [e])[0] == xs[0];
      ContentSnoc(image, bs, xs[1..], e);
    }
  }

  lemma {:induction false} ContentConcat(image: Bytes, bs: nat, a: seq<Extent>, b: seq<Extent>)
    ensures Content(image, bs, a + b) == Content(image, bs, a) + Content(image, bs, b)
    ensures Sum(a + b) == Sum(a) + Sum(b)
  {
    hide ExtentBytes;
    if a == [] {
      assert a + b == b;
    } else {
      assert (a + b)[1..] == a[1..] + b && (a + b)[0] == a[0];
      ContentConcat(image, bs, a[1..], b);
    }
  }

  lemma {:induction false} Mono(a: nat, b: nat, c: nat)
    requires a <= b
    ensures a * c <= b * c
  {
  }

  lemma {:induction false} Distribute(a: nat, b: nat, c: nat)
    ensures (a + b) * c == a * c + b * c
  {
  }

  lemma {:induction false} ExtentLength(image: Bytes, bs: nat, e: Extent, total: nat)
    requires ExtentOk(e, total) && total * bs <= |image|
    ensures |ExtentBytes(image, bs, e)| == e.blockCount * bs
    ensures e.startBlock * bs + e.blockCount * bs == (e.startBlock + e.blockCount) * bs <= |image|
  {
    Distribute(e.startBlock, e.blockCount, bs);
    Mono(e.startBlock + e.blockCount, total, bs);
  }

  lemma {:induction false} ContentLength(image: Bytes, bs: nat, xs: seq<Extent>, total: nat)
    requires ExtentsOk(xs, total) && total * bs <= |image|
    ensures |Content(image, bs, xs)| == Sum(xs) * bs
  {
    if xs != [] {
      hide ExtentBytes;
      ExtentLength(image, bs, xs[0], total);
      ContentLength(image, bs, xs[1..], total);
      Distribute(xs[0].blockCount, Sum(xs[1..]), bs);
    }
  }

  lemma {:induction false} SliceOutside(image: Bytes, at: nat, z: Bytes, a: nat, b: nat)
    requires at + |z| <= |image| && (b <= at || at + |z| <= a)
    ensures Slice(Splice(image, at, z), a, b) == Slice(image, a, b)
  {
    var s := Splice(image, at, z);
    if a <= b <= |image| {
      forall i | a <= i < b ensures s[i] == image[i] {
      }
    }
  }

  // Writing into blocks a fork does not own leaves its bytes as they are.
  lemma {:induction false} ContentOutside(image: Bytes, bs: nat, xs: seq<Extent>, at: nat, z: Bytes, lo: nat, hi: nat, total: nat)
    requires at + |z| <= |image| && lo * bs <= at && at + |z| <= hi * bs
    requires forall b: nat :: lo <= b < hi ==> !Owns(xs, b)
    requires ExtentsOk(xs, total)
    ensures Content(Splice(image, at, z), bs, xs) == Content(image, bs, xs)
  {
    if xs != [] {
      hide ExtentBytes, Splice;
      forall b: nat | lo <= b < hi ensures !Owns(xs[1..], b) && !InExtent(xs[0], b) {
        assert !Owns(xs, b);
      }
      ContentOutside(image, bs, xs[1..], at, z, lo, hi, total);
      ExtentOutside(image, bs, xs[0], at, z, lo, hi);
    }
  }

  lemma {:induction false} ExtentOutside(image: Bytes, bs: nat, e: Extent, at: nat, z: Bytes, lo: nat, hi: nat)
    requires at + |z| <= |image| && lo * bs <= at && at + |z| <= hi * bs
    requires forall b: nat :: lo <= b < hi ==> !InExtent(e, b)
    requires e.blockCount > 0
    ensures ExtentBytes(Splice(image, at, z), bs, e) == ExtentBytes(image, bs, e)
  {
    var end := e.startBlock + e.blockCount;
    if lo >= hi {
      Mono(hi, lo, bs);
      assert z == [] && Splice(image, at, z) == image;
    } else if end <= lo {
      Mono(end, lo, bs);
      SliceOutside(image, at, z, e.startBlock * bs, end * bs);
    } else {
      assert !InExtent(e, lo);
      assert e.startBlock > lo;
      assert e.startBlock < hi ==> InExtent(e, e.startBlock);
      Mono(hi, e.startBlock, bs);
      SliceOutside(image, at, z, e.startBlock * bs, end * bs);
    }
  }
}
