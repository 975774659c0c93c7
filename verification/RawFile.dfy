/**
  hfs/rawfile.c: the block allocator with its rotating cursor, and reading and
  writing a fork through its extents.
 */
module RawFiles {
  import opened Bitmap
  import opened Common
  import opened Cursors
  import opened Extents

  /* ----- What holds of a volume and of each fork on it ----- */

  // The volume header's counts and cursor.  Bytes of the volume stay below 2^32, and its last block is reserved.
  ghost predicate VolumeOk(bits: Bytes, image: Bytes, bs: nat, total: nat, freeBlocks: nat, next: nat) {
    && bs > 0 && total > 0 && total * bs <= |image| && total * bs < 0x1_0000_0000
    && total <= 8 * |bits| && next < total
    && Bit(bits, total - 1)
    && freeBlocks == CountFree(Bits(bits, total))
  }

  ghost predicate ForkOk(bits: Bytes, total: nat, xs: seq<Extent>) {
    total <= 8 * |bits| && ExtentsOk(xs, total) && AllUsed(xs, bits, total)
  }

  // The other forks of the volume: each in order, none sharing a block with this one.
  ghost predicate RestOk(bits: Bytes, total: nat, xs: seq<Extent>, others: seq<seq<Extent>>) {
    forall k :: 0 <= k < |others| ==> ForkOk(bits, total, others[k]) && Disjoint(xs, others[k])
  }

  ghost predicate SameContents(image: Bytes, image': Bytes, bs: nat, others: seq<seq<Extent>>) {
    forall k :: 0 <= k < |others| ==> Content(image', bs, others[k]) == Content(image, bs, others[k])
  }

  /* ----- Taking one block ----- */

  lemma {:induction false} BitTaken(bits: Bytes, total: nat, b: nat, used: bool, c: nat)
    requires b < total <= 8 * |bits| && c < total
    ensures total <= 8 * |SetBit(bits, b, used)|
    ensures Bit(SetBit(bits, b, used), c) == if c == b then used else Bit(bits, c)
  {
    SetBitIs(bits, b, used, c);
  }

  lemma {:induction false} VolumeTakes(bits: Bytes, image: Bytes, bs: nat, total: nat, freeBlocks: nat, next: nat, b: nat)
    requires VolumeOk(bits, image, bs, total, freeBlocks, next) && b < total && !Bit(bits, b)
    ensures b + 1 < total && freeBlocks > 0 && (b * bs) % 0x1_0000_0000 == b * bs && b * bs + bs == (b + 1) * bs <= |image|
    ensures VolumeOk(SetBit(bits, b, true), Splice(image, b * bs, Zeros(bs)), bs, total, freeBlocks - 1, next)
  {
    hide Bit, SetBit;
    Distribute(b, 1, bs);
    Mono(b + 1, total, bs);
    BitsFlip(bits, total, b, true);
    BitTaken(bits, total, b, true, total - 1);
  }

  // A fork whose blocks stay used, and that does not get the block, stays in order.
  lemma {:induction false} ForkKeeps(bits: Bytes, total: nat, xs: seq<Extent>, b: nat)
    requires ForkOk(bits, total, xs) && b < total
    ensures ForkOk(SetBit(bits, b, true), total, xs)
  {
    hide Bit, SetBit, ExtentsOk;
    forall c: nat | c < total && Owns(xs, c) ensures Bit(SetBit(bits, b, true), c) {
      BitTaken(bits, total, b, true, c);
    }
  }

  lemma {:induction false} ForkTakes(bits: Bytes, total: nat, front: seq<Extent>, last: Extent, b: nat)
    requires ForkOk(bits, total, Real(front, last)) && b + 1 < total && !Bit(bits, b)
    requires last.blockCount > 0 ==> b == last.startBlock + last.blockCount
    ensures var xs, ys := Real(front, last), Real(front, Longer(last, b));
      && ForkOk(SetBit(bits, b, true), total, ys)
      && Sum(ys) == Sum(xs) + 1
      && (forall c: nat :: Owns(ys, c) <==> Owns(xs, c) || c == b)
  {
    hide Bit, SetBit;
    var xs, e, new' := Real(front, last), last, Longer(last, b);
    assert !Owns(xs, b);
    OkSnoc(front, e, total);
    OkSnoc(front, new', total);
    SumSnoc(front, e);
    SumSnoc(front, new');
    forall c: nat
      ensures Owns(front + [e], c) <==> Owns(front, c) || InExtent(e, c)
      ensures Owns(front + [new'], c) <==> Owns(front, c) || InExtent(new', c)
    {
      OwnsSnoc(front, e, c);
      OwnsSnoc(front, new', c);
    }
    ForkKeeps(bits, total, xs, b);
    forall c: nat | c < total && Owns(front + [new'], c) ensures Bit(SetBit(bits, b, true), c) {
      BitTaken(bits, total, b, true, c);
    }
  }

  lemma {:induction false} SliceSplit(image: Bytes, a: nat, b: nat, c: nat)
    requires a <= b <= c <= |image|
    ensures Slice(image, a, c) == Slice(image, a, b) + Slice(image, b, c)
  {
  }

  lemma {:induction false} SliceSpliced(image: Bytes, at: nat, z: Bytes)
    requires at + |z| <= |image|
    ensures Slice(Splice(image, at, z), at, at + |z|) == z
  {
  }

  lemma {:induction false} ExtentTakes(image: Bytes, bs: nat, e: Extent, b: nat, total: nat, z: Bytes)
    requires ExtentOk(e, total) && b == e.startBlock + e.blockCount && b + 1 < total && total * bs <= |image| && |z| == bs
    ensures b * bs + bs <= |image|
    ensures ExtentBytes(Splice(image, b * bs, z), bs, Extent(e.startBlock, e.blockCount + 1)) == ExtentBytes(image, bs, e) + z
  {
    Distribute(b, 1, bs);
    Mono(b + 1, total, bs);
    Mono(e.startBlock, b, bs);
    hide Slice, Splice;
    SliceTakes(image, e.startBlock * bs, b * bs, z);
    assert e.startBlock + (e.blockCount + 1) == b + 1;
  }

  lemma {:induction false} SliceTakes(image: Bytes, a: nat, b: nat, z: Bytes)
    requires a <= b && b + |z| <= |image|
    ensures Slice(Splice(image, b, z), a, b + |z|) == Slice(image, a, b) + z
  {
    hide Splice;
    SliceOutside(image, b, z, a, b);
    SliceSplit(Splice(image, b, z), a, b, b + |z|);
    SliceSpliced(image, b, z);
  }

  lemma {:induction false} ContentTakes(bits: Bytes, image: Bytes, bs: nat, total: nat, front: seq<Extent>, last: Extent, b: nat, z: Bytes)
    requires ForkOk(bits, total, Real(front, last)) && b + 1 < total && !Bit(bits, b) && total * bs <= |image| && |z| == bs
    requires last.blockCount > 0 ==> b == last.startBlock + last.blockCount
    ensures b * bs + bs <= |image|
    ensures Content(Splice(image, b * bs, z), bs, Real(front, Longer(last, b))) == Content(image, bs, Real(front, last)) + z
  {
    hide Bit, Splice, ExtentBytes;
    Distribute(b, 1, bs);
    Mono(b + 1, total, bs);
    var image', xs := Splice(image, b * bs, z), Real(front, last);
    assert !Owns(xs, b);
    OkSnoc(front, last, total);
    OwnsSnoc(front, last, b);
    ContentOutside(image, bs, front, b * bs, z, b, b + 1, total);
    ContentSnoc(image, bs, front, last);
    ContentSnoc(image', bs, front, Longer(last, b));
    if last.blockCount == 0 {
      FirstBlock(image, bs, b, z);
    } else {
      ExtentTakes(image, bs, last, b, total, z);
      var x, y := Content(image, bs, front), ExtentBytes(image, bs, last);
      assert x + (y + z) == (x + y) + z;
    }
  }

  lemma {:induction false} FirstBlock(image: Bytes, bs: nat, b: nat, z: Bytes)
    requires b * bs + bs <= |image| && |z| == bs
    ensures ExtentBytes(Splice(image, b * bs, z), bs, Extent(b, 1)) == z
  {
    Distribute(b, 1, bs);
    SliceSpliced(image, b * bs, z);
  }

  // The other forks do not notice.
  lemma {:induction false} RestKeeps(bits: Bytes, image: Bytes, bs: nat, total: nat, xs: seq<Extent>, ys: seq<Extent>,
                                     others: seq<seq<Extent>>, b: nat, z: Bytes)
    requires b + 1 < total <= 8 * |bits| && RestOk(bits, total, xs, others) && !Bit(bits, b) && total * bs <= |image| && |z| == bs
    requires forall c: nat :: Owns(ys, c) <==> Owns(xs, c) || c == b
    ensures b * bs + bs <= |image|
    ensures RestOk(SetBit(bits, b, true), total, ys, others)
    ensures SameContents(image, Splice(image, b * bs, z), bs, others)
  {
    hide Bit, SetBit, Splice, Owns;
    Distribute(b, 1, bs);
    Mono(b + 1, total, bs);
    forall k | 0 <= k < |others|
      ensures ForkOk(SetBit(bits, b, true), total, others[k]) && Disjoint(ys, others[k])
      ensures Content(Splice(image, b * bs, z), bs, others[k]) == Content(image, bs, others[k])
    {
      assert ForkOk(bits, total, others[k]) && Disjoint(xs, others[k]);
      assert !Owns(others[k], b);
      ForkKeeps(bits, total, others[k], b);
      ContentOutside(image, bs, others[k], b * bs, z, b, b + 1, total);
    }
  }

  lemma {:induction false} ZerosJoin(a: nat, b: nat)
    ensures Zeros(a) + Zeros(b) == Zeros(a + b)
  {
    hide Zeros;
    var x, y := Zeros(a) + Zeros(b), Zeros(a + b);
    assert forall i :: 0 <= i < |x| ==> x[i] == y[i];
  }

  // The state of the growing loop after n blocks.
  ghost predicate Growing(bits: Bytes, image: Bytes, bs: nat, total: nat, freeBlocks: nat, next: nat, xs: seq<Extent>,
                          others: seq<seq<Extent>>, image0: Bytes, xs0: seq<Extent>, n: nat) {
    && VolumeOk(bits, image, bs, total, freeBlocks, next)
    && ForkOk(bits, total, xs) && RestOk(bits, total, xs, others)
    && SameContents(image0, image, bs, others)
    && Sum(xs) == Sum(xs0) + n
    && Content(image, bs, xs) == Content(image0, bs, xs0) + Zeros(n * bs)
  }

  lemma {:induction false} TakeBlock(bits: Bytes, image: Bytes, bs: nat, total: nat, freeBlocks: nat, next: nat,
                                     front: seq<Extent>, last: Extent, others: seq<seq<Extent>>, image0: Bytes, xs0: seq<Extent>, n: nat, b: nat)
    requires Growing(bits, image, bs, total, freeBlocks, next, Real(front, last), others, image0, xs0, n)
    requires b < total <= 8 * |bits| && !Bit(bits, b) && (last.blockCount > 0 ==> b == last.startBlock + last.blockCount)
    ensures b + 1 < total && freeBlocks > 0 && (b * bs) % 0x1_0000_0000 == b * bs && b * bs + bs <= |image|
    ensures VolumeOk(SetBit(bits, b, true), Splice(image, b * bs, Zeros(bs)), bs, total, freeBlocks - 1, next)
    ensures Growing(SetBit(bits, b, true), Splice(image, b * bs, Zeros(bs)), bs, total, freeBlocks - 1, next,
                    Real(front, Longer(last, b)), others, image0, xs0, n + 1)
  {
    hide Bit, SetBit, Splice, Zeros, ExtentsOk, AllUsed, Real, Longer, Owns, ForkOk;
    VolumeTakes(bits, image, bs, total, freeBlocks, next, b);
    ForkTakes(bits, total, front, last, b);
    ContentTakes(bits, image, bs, total, front, last, b, Zeros(bs));
    RestKeeps(bits, image, bs, total, Real(front, last), Real(front, Longer(last, b)), others, b, Zeros(bs));
    Distribute(n, 1, bs);
    ZerosJoin(n * bs, bs);
    var c, z, w := Content(image0, bs, xs0), Zeros(n * bs), Zeros(bs);
    assert (c + z) + w == c + (z + w);
  }

  /* ----- Which bits change ----- */

  // The bits that were set and those of the fork's blocks are set.
  ghost predicate Marks(bits0: Bytes, bits: Bytes, total: nat, xs: seq<Extent>) {
    total <= 8 * |bits0| && total <= 8 * |bits| && forall b: nat :: b < total ==> (Bit(bits, b) <==> Bit(bits0, b) || Owns(xs, b))
  }

  lemma {:induction false} MarksNone(bits: Bytes, total: nat, xs: seq<Extent>)
    requires total <= 8 * |bits| && AllUsed(xs, bits, total)
    ensures Marks(bits, bits, total, xs)
  {
    hide Bit, Owns;
  }

  lemma {:induction false} MarksTaken(bits0: Bytes, bits: Bytes, total: nat, front: seq<Extent>, last: Extent, b: nat)
    requires Marks(bits0, bits, total, Real(front, last)) && b < total && (last.blockCount > 0 ==> b == last.startBlock + last.blockCount)
    ensures Marks(bits0, SetBit(bits, b, true), total, Real(front, Longer(last, b)))
  {
    hide Bit, SetBit;
    forall c: nat | c < total
      ensures Bit(SetBit(bits, b, true), c) <==> Bit(bits0, c) || Owns(Real(front, Longer(last, b)), c)
    {
      BitTaken(bits, total, b, true, c);
      OwnsSnoc(front, last, c);
      OwnsSnoc(front, Longer(last, b), c);
    }
  }

  lemma {:induction false} GrowMarks(bits: Bytes, image: Bytes, bs: nat, total: nat, freeBlocks: nat, next: nat, xs: seq<Extent>,
                                     others: seq<seq<Extent>>, image0: Bytes, xs0: seq<Extent>, n: nat)
    requires Growing(bits, image, bs, total, freeBlocks, next, xs, others, image0, xs0, n)
    ensures Marks(bits, bits, total, xs)
  {
    MarksNone(bits, total, xs);
  }

  lemma {:induction false} TakeStep(bits: Bytes, total: nat, front: seq<Extent>, last: Extent, b: nat, next: nat, n: nat)
    requires b < total <= 8 * |bits| && next < total && n > 0 && !Bit(bits, b)
    ensures total <= 8 * |SetBit(bits, b, true)|
    ensures Steps(Bits(bits, total), front, last, b, next, n)
         == Steps(Bits(SetBit(bits, b, true), total), front, Longer(last, b), Behind(b, total, next), next, n - 1)
  {
    hide Bit, SetBit, Steps, Longer, CountFree;
    BitsFlip(bits, total, b, true);
    StepTakes(Bits(bits, total), front, last, b, next, n);
  }

  lemma {:induction false} TurnStep(bits: Bytes, total: nat, front: seq<Extent>, last: Extent, b: nat, next: nat, n: nat)
    requires b < total <= 8 * |bits| && next < total && n > 0 && Bit(bits, b) && CountFree(Bits(bits, total)) > 0
    ensures Steps(Bits(bits, total), front, last, b, next, n)
         == Steps(Bits(bits, total), Real(front, last), Extent(0, 0), next, Next(next, total), n)
  {
    hide Bit, Steps, CountFree;
    StepTurns(Bits(bits, total), front, last, b, next, n);
  }

  lemma {:induction false} NextIs(c: nat, total: nat)
    ensures Next(c, total) == if c + 1 >= total then 0 else c + 1
  {
  }

  lemma {:induction false} BehindIs(b: nat, total: nat, c: nat)
    ensures Behind(b, total, c) == if b + 1 >= total then c else b + 1
  {
  }

  lemma {:induction false} StepsDone(s: seq<bool>, front: seq<Extent>, last: Extent, p: nat, c: nat)
    ensures Steps(s, front, last, p, c, 0) == (Real(front, last), c)
  {
  }

  // The bits that were set, but for the blocks given back so far.
  ghost predicate Drops(bits0: Bytes, bits: Bytes, total: nat, todo0: seq<Extent>, todo: seq<Extent>) {
    && total <= 8 * |bits0| && total <= 8 * |bits|
    && (forall b: nat :: b < total ==> (Bit(bits, b) <==> Bit(bits0, b) && (Owns(todo0, b) ==> Owns(todo, b))))
    && (forall b: nat :: Owns(todo, b) ==> Owns(todo0, b))
  }

  lemma {:induction false} DropsNone(bits: Bytes, total: nat, todo: seq<Extent>)
    requires total <= 8 * |bits|
    ensures Drops(bits, bits, total, todo, todo)
  {
    hide Bit, Owns;
  }

  /* ----- Giving blocks back ----- */

  // The blocks kept, those still to be given back, and those of other forks: all used, none in two of them.
  ghost predicate Dropping(bits: Bytes, total: nat, ks: seq<Extent>, todo: seq<Extent>, others: seq<seq<Extent>>) {
    && total <= 8 * |bits|
    && AllUsed(ks, bits, total) && AllUsed(todo, bits, total)
    && Disjoint(ks, todo)
    && (forall k :: 0 <= k < |others| ==> AllUsed(others[k], bits, total) && Disjoint(todo, others[k]))
    && Once(todo)
    && (forall b: nat :: Owns(todo, b) ==> b + 1 < total)
  }

  ghost predicate Once(xs: seq<Extent>) {
    xs != [] ==> NotIn(xs[0], xs[1..]) && Once(xs[1..])
  }

  lemma {:induction false} OkOnce(xs: seq<Extent>, total: nat)
    requires ExtentsOk(xs, total)
    ensures Once(xs)
  {
    if xs != [] {
      OkOnce(xs[1..], total);
    }
  }

  function Todo(cur: nat, m: nat, rest: seq<Extent>): seq<Extent> { [Extent(cur, m)] + rest }

  lemma {:induction false} TodoParts(cur: nat, m: nat, rest: seq<Extent>)
    ensures Todo(cur, m, rest)[0] == Extent(cur, m) && Todo(cur, m, rest)[1..] == rest
    ensures forall b: nat :: Owns(Todo(cur, m, rest), b) <==> cur <= b < cur + m || Owns(rest, b)
  {
    assert Todo(cur, m, rest)[1..] == rest;
  }

  // One block is given back.
  lemma {:induction false} DropBlock(bits: Bytes, image: Bytes, bs: nat, total: nat, freeBlocks: nat, next: nat,
                                     ks: seq<Extent>, cur: nat, m: nat, rest: seq<Extent>, others: seq<seq<Extent>>)
    requires VolumeOk(bits, image, bs, total, freeBlocks, next) && m > 0
    requires Dropping(bits, total, ks, Todo(cur, m, rest), others)
    ensures cur + 1 < total <= 8 * |bits| && Bit(bits, cur)
    ensures VolumeOk(SetBit(bits, cur, false), image, bs, total, freeBlocks + 1, next)
    ensures Dropping(SetBit(bits, cur, false), total, ks, Todo(cur + 1, m - 1, rest), others)
  {
    hide Bit, SetBit;
    TodoParts(cur, m, rest);
    TodoParts(cur + 1, m - 1, rest);
    var todo, todo' := Todo(cur, m, rest), Todo(cur + 1, m - 1, rest);
    hide Todo, Owns;
    assert Owns(todo, cur) && !Owns(todo', cur);
    BitsFlip(bits, total, cur, false);
    forall c: nat | c < total ensures Bit(SetBit(bits, cur, false), c) == if c == cur then false else Bit(bits, c) {
      BitTaken(bits, total, cur, false, c);
    }
    assert forall b: nat :: Owns(todo', b) ==> Owns(todo, b);
  }

  lemma {:induction false} DropNext(bits: Bytes, total: nat, ks: seq<Extent>, cur: nat, rest: seq<Extent>, others: seq<seq<Extent>>)
    requires rest != [] && Dropping(bits, total, ks, Todo(cur, 0, rest), others)
    ensures Dropping(bits, total, ks, Todo(rest[0].startBlock, rest[0].blockCount, rest[1..]), others)
  {
    hide Bit;
    TodoParts(cur, 0, rest);
    assert Todo(rest[0].startBlock, rest[0].blockCount, rest[1..]) == rest;
    var todo := Todo(cur, 0, rest);
    hide Todo, Owns;
    assert forall b: nat :: Owns(rest, b) <==> Owns(todo, b);
  }

  lemma {:induction false} DropsBlock(bits0: Bytes, bits: Bytes, total: nat, todo0: seq<Extent>, cur: nat, m: nat, rest: seq<Extent>)
    requires Drops(bits0, bits, total, todo0, Todo(cur, m, rest)) && m > 0 && cur < total && Once(Todo(cur, m, rest))
    ensures Drops(bits0, SetBit(bits, cur, false), total, todo0, Todo(cur + 1, m - 1, rest))
  {
    hide Bit, SetBit;
    TodoParts(cur, m, rest);
    TodoParts(cur + 1, m - 1, rest);
    assert InExtent(Extent(cur, m), cur);
    hide Todo, Owns;
    forall b: nat | b < total
      ensures Bit(SetBit(bits, cur, false), b) <==> Bit(bits0, b) && (Owns(todo0, b) ==> Owns(Todo(cur + 1, m - 1, rest), b))
    {
      BitTaken(bits, total, cur, false, b);
    }
  }

  lemma {:induction false} DropsNext(bits0: Bytes, bits: Bytes, total: nat, todo0: seq<Extent>, cur: nat, rest: seq<Extent>)
    requires rest != [] && Drops(bits0, bits, total, todo0, Todo(cur, 0, rest))
    ensures Drops(bits0, bits, total, todo0, Todo(rest[0].startBlock, rest[0].blockCount, rest[1..]))
  {
    hide Bit;
    TodoParts(cur, 0, rest);
    assert Todo(rest[0].startBlock, rest[0].blockCount, rest[1..]) == rest;
    hide Todo, Owns;
  }

  lemma {:induction false} DropsAll(bits0: Bytes, bits: Bytes, total: nat, todo0: seq<Extent>, cur: nat)
    requires Drops(bits0, bits, total, todo0, Todo(cur, 0, []))
    ensures Drops(bits0, bits, total, todo0, [])
  {
    hide Bit;
    TodoParts(cur, 0, []);
    assert forall b: nat :: !Owns([], b);
    hide Todo, Owns;
  }

  lemma {:induction false} DropOnce(bits: Bytes, total: nat, ks: seq<Extent>, todo: seq<Extent>, others: seq<seq<Extent>>)
    requires Dropping(bits, total, ks, todo, others)
    ensures Once(todo) && total <= 8 * |bits|
  {
  }

  // The bits that were set, but for the blocks that the fork no longer has.
  ghost predicate Frees(bits0: Bytes, bits: Bytes, total: nat, xs: seq<Extent>, ks: seq<Extent>) {
    && total <= 8 * |bits0| && total <= 8 * |bits|
    && forall b: nat :: b < total ==> (Bit(bits, b) <==> Bit(bits0, b) && (Owns(xs, b) ==> Owns(ks, b)))
  }

  lemma {:induction false} FreesTail(bits0: Bytes, bits: Bytes, total: nat, xs: seq<Extent>, ks: seq<Extent>, todo: seq<Extent>)
    requires Drops(bits0, bits, total, todo, []) && Disjoint(ks, todo)
    requires forall x: nat :: Owns(xs, x) <==> Owns(ks, x) || Owns(todo, x)
    ensures Frees(bits0, bits, total, xs, ks)
  {
    hide Bit;
    assert forall b: nat :: !Owns([], b);
    hide Owns;
  }

  // The first n blocks of a list.
  function FirstBlocks(xs: seq<Extent>, n: nat): seq<Extent> {
    if n == 0 || xs == [] then []
    else if n >= xs[0].blockCount then [xs[0]] + FirstBlocks(xs[1..], n - xs[0].blockCount)
    else [Extent(xs[0].startBlock, n)]
  }

  lemma {:induction false} KeptIsFirst(xs: seq<Extent>, i: nat, k: nat)
    requires i < |xs| && k <= xs[i].blockCount && (k == 0 ==> i == 0) && forall j :: 0 <= j < |xs| ==> xs[j].blockCount > 0
    ensures FirstBlocks(xs, Sum(xs[..i]) + k) == Kept(xs[..i], xs[i], k)
    decreases i
  {
    if i == 0 {
      assert xs[..0] == [];
      if k == xs[0].blockCount {
        assert FirstBlocks(xs[1..], 0) == [];
        assert xs[0] == Extent(xs[0].startBlock, k);
      }
    } else {
      KeptIsFirst(xs[1..], i - 1, k);
      KeptBehind(xs, i, k);
    }
  }

  lemma {:induction false} KeptBehind(xs: seq<Extent>, i: nat, k: nat)
    requires 0 < i < |xs| && 0 < k <= xs[i].blockCount
    ensures xs[1..][i - 1] == xs[i] && Sum(xs[..i]) == xs[0].blockCount + Sum(xs[1..][..i - 1])
    ensures Kept(xs[..i], xs[i], k) == [xs[0]] + Kept(xs[1..][..i - 1], xs[i], k)
  {
    assert xs[..i][0] == xs[0] && xs[..i][1..] == xs[1..][..i - 1];
  }

  lemma {:induction false} NoneEmpty(xs: seq<Extent>, total: nat)
    requires ExtentsOk(xs, total)
    ensures forall j :: 0 <= j < |xs| ==> xs[j].blockCount > 0
  {
    if xs != [] {
      NoneEmpty(xs[1..], total);
      assert forall j :: 0 < j < |xs| ==> xs[j] == xs[1..][j - 1];
    }
  }

  lemma {:induction false} ForkNoneEmpty(bits: Bytes, total: nat, xs: seq<Extent>)
    requires ForkOk(bits, total, xs)
    ensures forall j :: 0 <= j < |xs| ==> xs[j].blockCount > 0
  {
    NoneEmpty(xs, total);
  }

  // The extent list cut inside extent e after k of its blocks.
  function Kept(a: seq<Extent>, e: Extent, k: nat): seq<Extent> {
    if k == 0 then a else a + [Extent(e.startBlock, k)]
  }

  lemma {:induction false} DropStart(bits: Bytes, total: nat, a: seq<Extent>, e: Extent, b: seq<Extent>, k: nat, others: seq<seq<Extent>>)
    requires total <= 8 * |bits| && k <= e.blockCount
    requires ForkOk(bits, total, a + [e] + b) && RestOk(bits, total, a + [e] + b, others)
    ensures ExtentsOk(Kept(a, e, k), total) && Sum(Kept(a, e, k)) == Sum(a) + k
    ensures forall x: nat :: Owns(Kept(a, e, k), x) ==> Owns(a + [e] + b, x)
    ensures forall x: nat :: Owns(a + [e] + b, x) <==> Owns(Kept(a, e, k), x) || Owns(Todo(e.startBlock + k, e.blockCount - k, b), x)
    ensures Disjoint(Kept(a, e, k), Todo(e.startBlock + k, e.blockCount - k, b))
    ensures Dropping(bits, total, Kept(a, e, k), Todo(e.startBlock + k, e.blockCount - k, b), others)
  {
    hide Bit;
    var xs, ks, todo, part := a + [e] + b, Kept(a, e, k), Todo(e.startBlock + k, e.blockCount - k, b), Extent(e.startBlock, k);
    OkConcat(a + [e], b, total);
    OkSnoc(a, e, total);
    OkSnoc(a, part, total);
    OkOnce(b, total);
    SumSnoc(a, part);
    TodoParts(e.startBlock + k, e.blockCount - k, b);
    assert Sum(ks) == Sum(a) + k;
    assert ExtentsOk(ks, total);
    hide Todo, ExtentsOk, Sum;
    forall x: nat
      ensures Owns(xs, x) <==> Owns(a, x) || InExtent(e, x) || Owns(b, x)
      ensures Owns(ks, x) <==> Owns(a, x) || InExtent(part, x)
      ensures Owns(xs, x) ==> x + 1 < total
      ensures Owns(b, x) ==> !Owns(a, x) && !InExtent(e, x)
    {
      OwnsConcat(a + [e], b, x);
      OwnsSnoc(a, e, x);
      OwnsSnoc(a, part, x);
      if Owns(xs, x) {
        OwnedBelow(xs, total, x);
      }
    }
    assert NotIn(e, a);
    assert AllUsed(xs, bits, total);
    assert forall x: nat :: Owns(todo, x) ==> Owns(xs, x);
    assert Once(todo);
  }

  // What is left of the bytes of a fork when its tail is cut off.
  lemma {:induction false} ContentKept(image: Bytes, bs: nat, a: seq<Extent>, e: Extent, b: seq<Extent>, k: nat, total: nat)
    requires k <= e.blockCount && ExtentOk(e, total) && total * bs <= |image|
    ensures Content(image, bs, Kept(a, e, k)) <= Content(image, bs, a + [e] + b)
  {
    hide Slice;
    var s, m, n := e.startBlock * bs, (e.startBlock + k) * bs, (e.startBlock + e.blockCount) * bs;
    Mono(e.startBlock, e.startBlock + k, bs);
    Mono(e.startBlock + k, e.startBlock + e.blockCount, bs);
    Mono(e.startBlock + e.blockCount, total, bs);
    SliceSplit(image, s, m, n);
    ContentConcat(image, bs, a + [e], b);
    ContentSnoc(image, bs, a, e);
    ContentSnoc(image, bs, a, Extent(e.startBlock, k));
    var x, y, z, w := Content(image, bs, a), Slice(image, s, m), Slice(image, m, n), Content(image, bs, b);
    assert x + (y + z) + w == (x + y) + (z + w);
  }

  /* ----- The classes ----- */

  function BlocksFor(size: nat, bs: nat): nat
    requires bs > 0
  {
    size / bs + if size % bs == 0 then 0 else 1
  }

  // The fewest blocks that hold the size.
  lemma {:induction false} BlocksForLeast(size: nat, bs: nat, n: nat)
    requires bs > 0
    ensures BlocksFor(size, bs) <= n <==> size <= n * bs
  {
    BlocksEnough(size, bs);
    var q := BlocksFor(size, bs);
    if n >= q {
      Mono(q, n, bs);
    } else {
      Mono(n + 1, q, bs);
      Distribute(n, 1, bs);
      FewerBlocks(size, bs);
      Mono(n, q - 1, bs);
    }
  }

  lemma {:induction false} FewerBlocks(size: nat, bs: nat)
    requires bs > 0
    ensures BlocksFor(size, bs) > 0 ==> (BlocksFor(size, bs) - 1) * bs < size
  {
    var q, r := size / bs, size % bs;
    assert size == q * bs + r;
    if r == 0 && q > 0 {
      Distribute(q - 1, 1, bs);
    }
  }

  lemma {:induction false} NoBits(bytes: Bytes, n: nat)
    requires n / 8 < |bytes| && bytes[n / 8] == 0
    ensures !Bit(bytes, n)
  {
    hide Mask;
    NoneUnder(Mask(n % 8));
  }

  lemma {:induction false} NoneUnder(mask: bv8)
    ensures UnderMask(0, mask) == 0
  {
  }

  lemma {:induction false} OneUsed(total: nat)
    requires total > 0
    ensures var bits := SetBit(Zeros(total / 8 + 1), total - 1, true);
      total <= 8 * |bits| && Bit(bits, total - 1) && CountFree(Bits(bits, total)) == total - 1
  {
    hide Bit, SetBit;
    var none := Zeros(total / 8 + 1);
    forall i | 0 <= i < total ensures !Bits(none, total)[i] {
      NoBits(none, i);
    }
    AllFree(Bits(none, total));
    NoBits(none, total - 1);
    SetBitIs(none, total - 1, true, total - 1);
    BitsFlip(none, total, total - 1, true);
  }

  class Volume {
    const blockSize: nat
    const totalBlocks: nat
    var freeBlocks: nat
    var nextAllocation: nat
    var bitmap: Bytes
    var image: Bytes

    // A volume with nothing on it but its reserved last block.
    constructor (blockSize: nat, totalBlocks: nat)
      requires blockSize > 0 && totalBlocks > 0 && totalBlocks * blockSize < 0x1_0000_0000
      ensures Ok() && freeBlocks == totalBlocks - 1 && this.blockSize == blockSize && this.totalBlocks == totalBlocks
    {
      this.blockSize, this.totalBlocks := blockSize, totalBlocks;
      freeBlocks, nextAllocation := totalBlocks - 1, 0;
      bitmap := SetBit(Zeros(totalBlocks / 8 + 1), totalBlocks - 1, true);
      image := Zeros(totalBlocks * blockSize);
      new;
      hide Bit, SetBit;
      OneUsed(totalBlocks);
    }

    ghost predicate Ok()
      reads this
    {
      VolumeOk(bitmap, image, blockSize, totalBlocks, freeBlocks, nextAllocation)
    }

    method IsBlockUsed(block: nat) returns (r: bool)
      requires block / 8 < |bitmap|
      ensures r == Bit(bitmap, block)
    {
      hide Mask, UnderMask;
      r := UnderMask(bitmap[block / 8], Mask(block % 8)) != 0;
    }

    method SetBlockUsed(block: nat, used: bool)
      requires block / 8 < |bitmap|
      modifies this`bitmap
      ensures bitmap == SetBit(old(bitmap), block, used)
    {
      hide Mask, WithMask, LessMask;
      var byte := bitmap[block / 8];
      if used {
        byte := WithMask(byte, Mask(block % 8));
      } else {
        byte := LessMask(byte, Mask(block % 8));
      }
      bitmap := bitmap[block / 8 := byte];
    }
  }

  class RawFile {
    const volume: Volume
    var extents: seq<Extent>
    var logicalSize: nat
    var totalBlocks: nat

    constructor (volume: Volume, logicalSize: nat, totalBlocks: nat)
      ensures this.volume == volume && this.logicalSize == logicalSize && this.totalBlocks == totalBlocks && extents == []
    {
      this.volume, this.logicalSize, this.totalBlocks, extents := volume, logicalSize, totalBlocks, [];
    }

    // The fork and the other forks of its volume.
    ghost predicate Ok(others: seq<seq<Extent>>)
      reads this, volume
    {
      && volume.Ok()
      && ForkOk(volume.bitmap, volume.totalBlocks, extents)
      && RestOk(volume.bitmap, volume.totalBlocks, extents, others)
      && totalBlocks == Sum(extents)
    }

    // The allocated bytes of the fork.
    ghost function Data(): Bytes
      reads this, volume
    {
      Content(volume.image, volume.blockSize, extents)
    }

    // The growing half of allocate.
    method Grow(blocksNeeded: nat, ghost others: seq<seq<Extent>>) returns (ok: bool)
      requires Ok(others) && blocksNeeded > totalBlocks
      modifies this`extents, volume
      ensures ok <==> blocksNeeded - totalBlocks <= old(volume.freeBlocks)
      ensures !ok ==> extents == old(extents) && unchanged(volume)
      ensures ok ==>
        && Growing(volume.bitmap, volume.image, volume.blockSize, volume.totalBlocks, volume.freeBlocks, volume.nextAllocation,
                   extents, others, old(volume.image), old(extents), blocksNeeded - totalBlocks)
        && volume.freeBlocks == old(volume.freeBlocks) - (blocksNeeded - totalBlocks)
        && Marks(old(volume.bitmap), volume.bitmap, volume.totalBlocks, extents)
        && (extents, volume.nextAllocation)
             == Grown(Bits(old(volume.bitmap), volume.totalBlocks), old(extents), old(volume.nextAllocation), blocksNeeded - totalBlocks)
    {
      hide Bit, ForkOk, RestOk, SameContents, Growing, Bits, CountFree, Sum, Content, Zeros, Steps, Marks;
      var blocksToAllocate: nat := blocksNeeded - totalBlocks;
      if blocksToAllocate > volume.freeBlocks {
        return false;
      }
      GrowStart(volume.bitmap, volume.image, volume.blockSize, volume.totalBlocks, volume.freeBlocks, volume.nextAllocation, extents, others);
      if extents == [] {
        extents := TakeBlocks(blocksToAllocate, [], Extent(0, 0), volume.nextAllocation, others, extents);
      } else {
        var front, lastExtent := extents[..|extents| - 1], extents[|extents| - 1];
        assert extents == front + [lastExtent];
        LastExtent(volume.bitmap, volume.totalBlocks, front, lastExtent);
        extents := TakeBlocks(blocksToAllocate, front, lastExtent, lastExtent.startBlock + lastExtent.blockCount, others, extents);
      }
      ok := true;
    }

    // The loop of allocate: extend the last extent while the block behind it is free, else start a new
    // extent where the cursor stands, and move the cursor on.
    method TakeBlocks(n: nat, front0: seq<Extent>, last0: Extent, start: nat, ghost others: seq<seq<Extent>>, ghost xs0: seq<Extent>)
      returns (xs: seq<Extent>)
      requires volume.Ok() && 0 < n <= volume.freeBlocks && start < volume.totalBlocks
      requires Growing(volume.bitmap, volume.image, volume.blockSize, volume.totalBlocks, volume.freeBlocks, volume.nextAllocation,
                       Real(front0, last0), others, volume.image, xs0, 0)
      requires if last0.blockCount > 0 then start == last0.startBlock + last0.blockCount else last0 == Extent(0, 0)
      modifies volume
      ensures Growing(volume.bitmap, volume.image, volume.blockSize, volume.totalBlocks, volume.freeBlocks, volume.nextAllocation,
                      xs, others, old(volume.image), xs0, n)
      ensures volume.freeBlocks == old(volume.freeBlocks) - n
      ensures Marks(old(volume.bitmap), volume.bitmap, volume.totalBlocks, xs)
      ensures (xs, volume.nextAllocation) == Steps(Bits(old(volume.bitmap), volume.totalBlocks), front0, last0, start, old(volume.nextAllocation), n)
    {
      hide Bit, SetBit, Splice, ForkOk, RestOk, SameContents, Growing, Bits, CountFree, Distance, Sum, Content, Zeros, Steps, Marks, Behind, Next;
      ghost var bs, total, image0 := volume.blockSize, volume.totalBlocks, volume.image;
      GrowMarks(volume.bitmap, volume.image, bs, total, volume.freeBlocks, volume.nextAllocation, Real(front0, last0), others, image0, xs0, 0);
      var zeros := Zeros(volume.blockSize);
      var blocksToAllocate, front, lastExtent, curBlock: nat := n, front0, last0, start;
      while blocksToAllocate > 0
        invariant 0 <= blocksToAllocate <= n && blocksToAllocate <= volume.freeBlocks
        invariant volume.freeBlocks == old(volume.freeBlocks) - (n - blocksToAllocate)
        invariant volume.Ok() && curBlock < total
        invariant Growing(volume.bitmap, volume.image, bs, total, volume.freeBlocks, volume.nextAllocation,
                          Real(front, lastExtent), others, image0, xs0, n - blocksToAllocate)
        invariant lastExtent.blockCount > 0 ==> curBlock == lastExtent.startBlock + lastExtent.blockCount
        invariant blocksToAllocate == 0 ==> lastExtent.blockCount > 0
        invariant lastExtent.blockCount == 0 ==> lastExtent == Extent(0, 0)
        invariant Marks(old(volume.bitmap), volume.bitmap, total, Real(front, lastExtent))
        invariant Steps(Bits(volume.bitmap, total), front, lastExtent, curBlock, volume.nextAllocation, blocksToAllocate)
               == Steps(Bits(old(volume.bitmap), total), front0, last0, start, old(volume.nextAllocation), n)
        decreases blocksToAllocate,
          if Bit(volume.bitmap, curBlock) then 1 + Distance(Bits(volume.bitmap, total), volume.nextAllocation) else 0
      {
        var used := volume.IsBlockUsed(curBlock);
        if used {
          CursorStep(Bits(volume.bitmap, total), volume.nextAllocation);
          TurnStep(volume.bitmap, total, front, lastExtent, curBlock, volume.nextAllocation, blocksToAllocate);
          NextIs(volume.nextAllocation, total);
          if lastExtent.blockCount > 0 {
            front, lastExtent := front + [lastExtent], Extent(0, 0);
          }
          curBlock := volume.nextAllocation;
          GrowTurns(volume.bitmap, volume.image, bs, total, volume.freeBlocks, volume.nextAllocation,
                    Real(front, lastExtent), others, image0, xs0, n - blocksToAllocate);
          volume.nextAllocation := volume.nextAllocation + 1;
          if volume.nextAllocation >= volume.totalBlocks {
            volume.nextAllocation := 0;
          }
        } else {
          TakeBlock(volume.bitmap, volume.image, bs, total, volume.freeBlocks, volume.nextAllocation, front, lastExtent,
                    others, image0, xs0, n - blocksToAllocate, curBlock);
          TakeStep(volume.bitmap, total, front, lastExtent, curBlock, volume.nextAllocation, blocksToAllocate);
          MarksTaken(old(volume.bitmap), volume.bitmap, total, front, lastExtent, curBlock);
          BehindIs(curBlock, total, volume.nextAllocation);
          if lastExtent.blockCount == 0 {
            lastExtent := lastExtent.(startBlock := curBlock);
          }
          volume.image := Splice(volume.image, (curBlock * volume.blockSize) % 0x1_0000_0000, zeros);
          volume.SetBlockUsed(curBlock, true);
          volume.freeBlocks := volume.freeBlocks - 1;
          blocksToAllocate := blocksToAllocate - 1;
          curBlock := curBlock + 1;
          lastExtent := lastExtent.(blockCount := lastExtent.blockCount + 1);
          var cursor := volume.nextAllocation;
          if curBlock >= volume.totalBlocks {
            curBlock := cursor;
          }
        }
      }
      StepsDone(Bits(volume.bitmap, total), front, lastExtent, curBlock, volume.nextAllocation);
      xs := front + [lastExtent];
    }

    // The extent where the kept blocks end, and how many of its blocks are kept.
    method FindCut(blocksNeeded: nat) returns (i: nat, blocksToAllocate: nat)
      requires blocksNeeded < Sum(extents)
      ensures i < |extents| && blocksToAllocate <= extents[i].blockCount && (blocksToAllocate == 0 ==> i == 0)
      ensures blocksToAllocate + Sum(extents[..i]) == blocksNeeded
    {
      hide *;
      i, blocksToAllocate := 0, blocksNeeded;
      SumNone(extents);
      while blocksToAllocate > 0
        invariant i <= |extents| && blocksToAllocate + Sum(extents[..i]) == blocksNeeded
        invariant blocksToAllocate > 0 || i == 0
        decreases |extents| - i
      {
        SumPrefix(extents, i);
        if blocksToAllocate > extents[i].blockCount {
          blocksToAllocate := blocksToAllocate - extents[i].blockCount;
          i := i + 1;
        } else {
          break;
        }
      }
      SumPrefix(extents, i);
    }

    // The shrinking half of allocate: cut the list inside the extent where the kept blocks end, and give
    // the other blocks back, extent by extent.
    method Shrink(blocksNeeded: nat, ghost others: seq<seq<Extent>>)
      requires Ok(others) && blocksNeeded < totalBlocks
      modifies this`extents, volume`bitmap, volume`freeBlocks
      ensures volume.Ok() && volume.freeBlocks == old(volume.freeBlocks) + totalBlocks - blocksNeeded
      ensures ForkOk(volume.bitmap, volume.totalBlocks, extents)
      ensures RestOk(volume.bitmap, volume.totalBlocks, extents, others)
      ensures Sum(extents) == blocksNeeded
      ensures Content(volume.image, volume.blockSize, extents) <= Content(volume.image, volume.blockSize, old(extents))
      ensures extents == FirstBlocks(old(extents), blocksNeeded)
      ensures Frees(old(volume.bitmap), volume.bitmap, volume.totalBlocks, old(extents), extents)
    {
      hide Bit, SetBit, ForkOk, RestOk, Bits, CountFree, Content, ExtentBytes, ExtentsOk, Dropping, Owns, Drops, Frees, Disjoint, FirstBlocks;
      ghost var bs, total, image, xs0 := volume.blockSize, volume.totalBlocks, volume.image, extents;
      var i, blocksToAllocate := FindCut(blocksNeeded);
      SumAround(extents, i);
      var e, rest := extents[i], extents[i + 1..];
      ghost var ks := Kept(extents[..i], e, blocksToAllocate);
      assert xs0 == extents[..i] + [e] + rest;
      ForkParts(volume.bitmap, total, extents[..i], e, rest);
      DropStart(volume.bitmap, total, extents[..i], e, rest, blocksToAllocate, others);
      ContentKept(image, bs, extents[..i], e, rest, blocksToAllocate, total);
      extents := if blocksToAllocate == 0 then [] else extents[..i] + [Extent(e.startBlock, blocksToAllocate)];
      assert extents == ks;
      ForkNoneEmpty(volume.bitmap, total, xs0);
      KeptIsFirst(xs0, i, blocksToAllocate);
      DropTail(e, rest, blocksToAllocate, others, ks);
      FreesTail(old(volume.bitmap), volume.bitmap, total, xs0, ks, Todo(e.startBlock + blocksToAllocate, e.blockCount - blocksToAllocate, rest));
      KeptRest(old(volume.bitmap), volume.bitmap, total, xs0, ks, others);
    }

    method DropTail(e: Extent, rest: seq<Extent>, blocksToAllocate: nat, ghost others: seq<seq<Extent>>, ghost ks: seq<Extent>)
      requires volume.Ok() && blocksToAllocate <= e.blockCount
      requires Dropping(volume.bitmap, volume.totalBlocks, ks, Todo(e.startBlock + blocksToAllocate, e.blockCount - blocksToAllocate, rest), others)
      modifies volume`bitmap, volume`freeBlocks
      ensures volume.Ok() && AllUsed(ks, volume.bitmap, volume.totalBlocks)
      ensures volume.freeBlocks == old(volume.freeBlocks) + e.blockCount - blocksToAllocate + Sum(rest)
      ensures forall k :: 0 <= k < |others| ==> AllUsed(others[k], volume.bitmap, volume.totalBlocks)
      ensures Drops(old(volume.bitmap), volume.bitmap, volume.totalBlocks,
        Todo(e.startBlock + blocksToAllocate, e.blockCount - blocksToAllocate, rest), [])
    {
      hide Bit, SetBit, Bits, CountFree, Dropping, Todo, AllUsed, Drops, Once;
      ghost var total := volume.totalBlocks;
      ghost var bits0, todo0 := volume.bitmap, Todo(e.startBlock + blocksToAllocate, e.blockCount - blocksToAllocate, rest);
      DropOnce(volume.bitmap, total, ks, todo0, others);
      DropsNone(volume.bitmap, total, todo0);
      var extent, next, from: nat := e, rest, blocksToAllocate;
      while true
        invariant volume.Ok() && from <= extent.blockCount
        invariant volume.freeBlocks + extent.blockCount - from + Sum(next)
               == old(volume.freeBlocks) + e.blockCount - blocksToAllocate + Sum(rest)
        invariant Dropping(volume.bitmap, total, ks, Todo(extent.startBlock + from, extent.blockCount - from, next), others)
        invariant Drops(bits0, volume.bitmap, total, todo0, Todo(extent.startBlock + from, extent.blockCount - from, next))
        decreases |next|
      {
        var curBlock := extent.startBlock + from;
        while curBlock < extent.startBlock + extent.blockCount
          invariant extent.startBlock <= curBlock <= extent.startBlock + extent.blockCount
          invariant volume.Ok()
          invariant volume.freeBlocks + extent.startBlock + extent.blockCount - curBlock + Sum(next)
                 == old(volume.freeBlocks) + e.blockCount - blocksToAllocate + Sum(rest)
          invariant Dropping(volume.bitmap, total, ks, Todo(curBlock, extent.startBlock + extent.blockCount - curBlock, next), others)
          invariant Drops(bits0, volume.bitmap, total, todo0, Todo(curBlock, extent.startBlock + extent.blockCount - curBlock, next))
        {
          DropOnce(volume.bitmap, total, ks, Todo(curBlock, extent.startBlock + extent.blockCount - curBlock, next), others);
          DropBlock(volume.bitmap, volume.image, volume.blockSize, total, volume.freeBlocks, volume.nextAllocation,
                    ks, curBlock, extent.startBlock + extent.blockCount - curBlock, next, others);
          DropsBlock(bits0, volume.bitmap, total, todo0, curBlock, extent.startBlock + extent.blockCount - curBlock, next);
          volume.SetBlockUsed(curBlock, false);
          volume.freeBlocks := volume.freeBlocks + 1;
          curBlock := curBlock + 1;
        }
        if next == [] {
          break;
        }
        DropNext(volume.bitmap, total, ks, curBlock, next, others);
        DropsNext(bits0, volume.bitmap, total, todo0, curBlock, next);
        extent, next, from := next[0], next[1..], 0;
      }
      Dropped(volume.bitmap, total, ks, Todo(extent.startBlock + extent.blockCount, 0, next), others);
      DropsAll(bits0, volume.bitmap, total, todo0, extent.startBlock + extent.blockCount);
    }

    // allocate: make the fork as many blocks long as the size needs.
    method Allocate(size: nat, ghost others: seq<seq<Extent>>) returns (ok: bool)
      requires Ok(others)
      modifies this`extents, this`logicalSize, this`totalBlocks, volume
      ensures Ok(others)
      ensures ok <==> BlocksFor(size, volume.blockSize) <= old(totalBlocks) + old(volume.freeBlocks)
      ensures SameContents(old(volume.image), volume.image, volume.blockSize, others)
      ensures !ok ==> extents == old(extents) && logicalSize == old(logicalSize) && totalBlocks == old(totalBlocks) && unchanged(volume)
      ensures ok ==>
        && logicalSize == size && totalBlocks == BlocksFor(size, volume.blockSize)
        && volume.freeBlocks + totalBlocks == old(volume.freeBlocks) + old(totalBlocks)
        && Data() == Resize(old(Data()), totalBlocks * volume.blockSize)
      ensures ok && totalBlocks > old(totalBlocks) ==>
        && Marks(old(volume.bitmap), volume.bitmap, volume.totalBlocks, extents)
        && (extents, volume.nextAllocation)
             == Grown(Bits(old(volume.bitmap), volume.totalBlocks), old(extents), old(volume.nextAllocation), totalBlocks - old(totalBlocks))
      ensures ok && totalBlocks < old(totalBlocks) ==>
        && Frees(old(volume.bitmap), volume.bitmap, volume.totalBlocks, old(extents), extents)
        && extents == FirstBlocks(old(extents), totalBlocks) && volume.nextAllocation == old(volume.nextAllocation)
      ensures totalBlocks == old(totalBlocks) ==> extents == old(extents) && unchanged(volume)
    {
      hide Bit, ForkOk, RestOk, Bits, CountFree, Content, Zeros, Sum, Growing, SameContents, Resize, Grown, Marks, Frees, FirstBlocks;
      ghost var bs, total, xs0, t0 := volume.blockSize, volume.totalBlocks, extents, totalBlocks;
      DataLength(volume.bitmap, volume.image, bs, total, extents);
      SameAgain(volume.image, bs, others);
      var blocksNeeded := BlocksFor(size, volume.blockSize);
      if blocksNeeded > totalBlocks {
        ok := Grow(blocksNeeded, others);
        if !ok {
          return false;
        }
        GrownFork(volume.bitmap, volume.image, bs, total, volume.freeBlocks, volume.nextAllocation, extents, others,
                  old(volume.image), xs0, blocksNeeded - totalBlocks);
        GrownData(old(Data()), Data(), t0, blocksNeeded, bs);
      } else if blocksNeeded < totalBlocks {
        Shrink(blocksNeeded, others);
        DataLength(volume.bitmap, volume.image, bs, total, extents);
        KeptData(old(Data()), Data(), t0, blocksNeeded, bs);
      } else {
        KeptData(old(Data()), Data(), t0, blocksNeeded, bs);
      }
      logicalSize := size;
      totalBlocks := blocksNeeded;
      ok := true;
    }

    // Walk the extents to the one that holds a location.
    method Locate(location: nat) returns (i: nat, locationInBlock: nat)
      requires extents != []
      ensures i <= |extents| && location == Sum(extents[..i]) * volume.blockSize + locationInBlock
      ensures i < |extents| ==> locationInBlock < extents[i].blockCount * volume.blockSize
    {
      hide Sum;
      var bs := volume.blockSize;
      i, locationInBlock := 0, location;
      var fileLoc := 0;
      SumNone(extents);
      SumNone(extents);
      while true
        invariant i < |extents| && fileLoc == Sum(extents[..i]) * bs && location == fileLoc + locationInBlock
        decreases |extents| - i
      {
        SumPrefix(extents, i);
        Distribute(Sum(extents[..i]), extents[i].blockCount, bs);
        fileLoc := fileLoc + extents[i].blockCount * bs;
        if fileLoc <= location {
          locationInBlock := locationInBlock - extents[i].blockCount * bs;
          i := i + 1;
          if i == |extents| {
            break;
          }
        } else {
          break;
        }
      }
    }

    // rawFileRead
    method Read(location: nat, size: nat, ghost others: seq<seq<Extent>>) returns (ok: bool, buffer: Bytes)
      requires Ok(others)
      ensures ok <==> extents != [] && (size == 0 || location + size <= |Data()|)
      ensures ok && size > 0 ==> buffer == Data()[location..location + size]
    {
      hide Bit, ForkOk, RestOk, Bits, CountFree, Content, Sum;
      buffer := [];
      if extents == [] {
        return false, buffer;
      }
      var bs := volume.blockSize;
      var i: nat, locationInBlock: nat := Locate(location);
      DataLength(volume.bitmap, volume.image, bs, volume.totalBlocks, extents);
      if i < |extents| {
        ReadsInside(volume.bitmap, volume.image, bs, volume.totalBlocks, extents, i, locationInBlock, locationInBlock);
      }
      var left := size;
      while left > 0
        invariant 0 <= left <= size && |buffer| == size - left && i <= |extents|
        invariant location + |buffer| == Sum(extents[..i]) * bs + locationInBlock
        invariant left > 0 && i < |extents| ==> locationInBlock <= extents[i].blockCount * bs
        invariant buffer != [] ==> location + |buffer| <= |Data()| && buffer == Data()[location..location + |buffer|]
        decreases left, |extents| - i
      {
        SumPrefix(extents, i);
        if i == |extents| {
          return false, buffer;
        }
        var at := extents[i].startBlock * bs + locationInBlock;
        var possible := extents[i].blockCount * bs - locationInBlock;
        var part: nat := if left > possible then possible else left;
        PartRead(volume.bitmap, volume.image, bs, volume.totalBlocks, extents, i, locationInBlock, part, location, buffer);
        buffer := buffer + volume.image[at..at + part];
        left := left - part;
        if left == 0 {
          break;
        }
        Distribute(Sum(extents[..i]), extents[i].blockCount, bs);
        i := i + 1;
        locationInBlock := 0;
      }
      ok := true;
    }

    // rawFileWrite; ok tells whether the allocation it asserts succeeds.
    method Write(location: nat, buffer: Bytes, ghost others: seq<seq<Extent>>) returns (ok: bool)
      requires Ok(others) && logicalSize <= |Data()|
      requires extents != [] || location + |buffer| > logicalSize
      modifies this`extents, this`logicalSize, this`totalBlocks, volume
      ensures Ok(others) && logicalSize <= |Data()|
      ensures SameContents(old(volume.image), volume.image, volume.blockSize, others)
      ensures ok <==> (location + |buffer| <= old(logicalSize)
                       || BlocksFor(location + |buffer|, volume.blockSize) <= old(totalBlocks) + old(volume.freeBlocks))
      ensures ok ==> logicalSize == if location + |buffer| > old(logicalSize) then location + |buffer| else old(logicalSize)
      ensures ok ==> volume.freeBlocks + totalBlocks == old(volume.freeBlocks) + old(totalBlocks)
      ensures ok && location + |buffer| > old(logicalSize) ==> totalBlocks == BlocksFor(location + |buffer|, volume.blockSize)
      ensures ok && location + |buffer| <= old(logicalSize) ==> totalBlocks == old(totalBlocks)
      ensures ok ==>
        && location + |buffer| <= |Room(old(Data()), old(logicalSize), location + |buffer|, volume.blockSize)|
        && Data() == Splice(Room(old(Data()), old(logicalSize), location + |buffer|, volume.blockSize), location, buffer)
    {
      hide Bit, ForkOk, RestOk, Bits, CountFree, Content, Sum, Splice, SameContents, Resize;
      var bs := volume.blockSize;
      ok := true;
      SameAgain(volume.image, bs, others);
      if logicalSize < location + |buffer| {
        ok := Allocate(location + |buffer|, others);
        if !ok {
          return false;
        }
      }
      DataLength(volume.bitmap, volume.image, bs, volume.totalBlocks, extents);
      RoomEnough(old(Data()), old(logicalSize), location + |buffer|, bs);
      ghost var mid := volume.image;
      HasExtent(extents, bs);
      if extents != [] {
        WriteParts(location, buffer, others);
      } else {
        SpliceNone(Data(), location, buffer);
      }
      SameTrans(old(volume.image), mid, volume.image, bs, others);
    }

    // Write a buffer for which there is room, extent by extent.
    method WriteParts(location: nat, buffer: Bytes, ghost others: seq<seq<Extent>>)
      requires Ok(others) && extents != [] && location + |buffer| <= |Data()|
      modifies volume`image
      ensures Ok(others) && SameContents(old(volume.image), volume.image, volume.blockSize, others)
      ensures location + |buffer| <= |old(Data())| && Data() == Splice(old(Data()), location, buffer)
    {
      hide Bit, ForkOk, RestOk, Bits, CountFree, Content, Sum, Splice, SameContents;
      var bs := volume.blockSize;
      SameAgain(volume.image, bs, others);
      ghost var base, image0 := Data(), volume.image;
      DataLength(volume.bitmap, volume.image, bs, volume.totalBlocks, extents);
      var i: nat, locationInBlock: nat := Locate(location);
      var done: nat := 0;
      SpliceNone(base, location, buffer[..0]);
      while done < |buffer|
        invariant done <= |buffer| && i <= |extents| && Ok(others) && |Data()| == |base|
        invariant SameContents(image0, volume.image, bs, others)
        invariant location + done == Sum(extents[..i]) * bs + locationInBlock
        invariant done < |buffer| && i < |extents| ==> locationInBlock <= extents[i].blockCount * bs
        invariant Data() == Splice(base, location, buffer[..done])
        decreases |buffer| - done, |extents| - i
      {
        SumPrefix(extents, i);
        var at := extents[i].startBlock * bs + locationInBlock;
        var possible := extents[i].blockCount * bs - locationInBlock;
        var part: nat := if |buffer| - done > possible then possible else |buffer| - done;
        var piece := buffer[done..done + part];
        PartWritten(volume.bitmap, image0, volume.image, bs, volume.totalBlocks, extents, others, base, location, buffer, done, i, locationInBlock, part);
        volume.image := Splice(volume.image, at, piece);
        done := done + part;
        if done == |buffer| {
          break;
        }
        Distribute(Sum(extents[..i]), extents[i].blockCount, bs);
        i := i + 1;
        locationInBlock := 0;
      }
      assert buffer[..done] == buffer;
    }
  }

  // A byte string cut to n bytes, or made n bytes long with zeros.
  function Resize(c: Bytes, n: nat): Bytes {
    if n <= |c| then c[..n] else c + Zeros(n - |c|)
  }

  lemma {:induction false} GrownData(c: Bytes, c': Bytes, t0: nat, t: nat, bs: nat)
    requires t0 <= t && |c| == t0 * bs && c' == c + Zeros((t - t0) * bs)
    ensures c' == Resize(c, t * bs)
  {
    Distribute(t0, t - t0, bs);
    if t * bs <= |c| {
      assert (t - t0) * bs == 0;
      assert c' == c && c[..t * bs] == c;
    }
  }

  lemma {:induction false} KeptData(c: Bytes, c': Bytes, t0: nat, t: nat, bs: nat)
    requires t <= t0 && |c| == t0 * bs && |c'| == t * bs && c' <= c
    ensures c' == Resize(c, t * bs)
  {
    Mono(t, t0, bs);
  }

  lemma {:induction false} SameAgain(image: Bytes, bs: nat, others: seq<seq<Extent>>)
    ensures SameContents(image, image, bs, others)
  {
  }

  lemma {:induction false} DataLength(bits: Bytes, image: Bytes, bs: nat, total: nat, xs: seq<Extent>)
    requires ForkOk(bits, total, xs) && total * bs <= |image|
    ensures |Content(image, bs, xs)| == Sum(xs) * bs
  {
    ContentLength(image, bs, xs, total);
  }

  lemma {:induction false} GrownFork(bits: Bytes, image: Bytes, bs: nat, total: nat, freeBlocks: nat, next: nat, xs: seq<Extent>,
                                     others: seq<seq<Extent>>, image0: Bytes, xs0: seq<Extent>, n: nat)
    requires Growing(bits, image, bs, total, freeBlocks, next, xs, others, image0, xs0, n)
    ensures VolumeOk(bits, image, bs, total, freeBlocks, next) && ForkOk(bits, total, xs) && RestOk(bits, total, xs, others)
    ensures SameContents(image0, image, bs, others) && Sum(xs) == Sum(xs0) + n
    ensures Content(image, bs, xs) == Content(image0, bs, xs0) + Zeros(n * bs)
  {
  }

  lemma {:induction false} Dropped(bits: Bytes, total: nat, ks: seq<Extent>, todo: seq<Extent>, others: seq<seq<Extent>>)
    requires Dropping(bits, total, ks, todo, others)
    ensures total <= 8 * |bits| && AllUsed(ks, bits, total)
    ensures forall k :: 0 <= k < |others| ==> AllUsed(others[k], bits, total)
  {
  }

  lemma {:induction false} SumPrefix(xs: seq<Extent>, i: nat)
    requires i <= |xs|
    ensures Sum(xs[..i]) <= Sum(xs)
    ensures i == |xs| ==> Sum(xs[..i]) == Sum(xs)
    ensures i < |xs| ==> Sum(xs[..i + 1]) == Sum(xs[..i]) + xs[i].blockCount
  {
    ContentConcat([], 0, xs[..i], xs[i..]);
    assert xs[..i] + xs[i..] == xs;
    if i < |xs| {
      SumSnoc(xs[..i], xs[i]);
      assert xs[..i] + [xs[i]] == xs[..i + 1];
    }
  }

  lemma {:induction false} SumNone(xs: seq<Extent>)
    ensures Sum(xs[..0]) == 0
  {
  }

  // Extent i of the list, seen from the fork's bytes.
  lemma {:induction false} ReadsInside(bits: Bytes, image: Bytes, bs: nat, total: nat, xs: seq<Extent>, i: nat, lo: nat, hi: nat)
    requires ForkOk(bits, total, xs) && total * bs <= |image| && i < |xs| && lo <= hi <= xs[i].blockCount * bs
    ensures var p, at, c := Sum(xs[..i]) * bs, xs[i].startBlock * bs, Content(image, bs, xs);
      p + hi <= |c| && at + hi <= |image| && image[at + lo..at + hi] == c[p + lo..p + hi]
  {
    hide Content, Sum, Bit, Slice, ExtentBytes, ExtentsOk, AllUsed;
    var a, e, b := xs[..i], xs[i], xs[i + 1..];
    assert xs == a + [e] + b;
    ForkParts(bits, total, a, e, b);
    OkConcat(a + [e], b, total);
    OkSnoc(a, e, total);
    Around(image, bs, a, e, b, total);
    ExtentLength(image, bs, e, total);
    ExtentSlice(image, bs, e);
    var x, y, z := Content(image, bs, a), ExtentBytes(image, bs, e), Content(image, bs, b);
    SliceOfExtent(image, e.startBlock * bs, e.blockCount * bs, lo, hi);
    MiddleSlice(x, y, z, lo, hi);
  }

  lemma {:induction false} ExtentSlice(image: Bytes, bs: nat, e: Extent)
    ensures ExtentBytes(image, bs, e) == Slice(image, e.startBlock * bs, (e.startBlock + e.blockCount) * bs)
  {
  }

  lemma {:induction false} SliceOfExtent(image: Bytes, s: nat, n: nat, lo: nat, hi: nat)
    requires s + n <= |image| && lo <= hi <= n
    ensures |Slice(image, s, s + n)| == n && Slice(image, s, s + n)[lo..hi] == image[s + lo..s + hi]
  {
    SliceOfSlice(image, s, s + n, lo, hi);
  }

  lemma {:induction false} MiddleSlice(x: Bytes, y: Bytes, z: Bytes, lo: nat, hi: nat)
    requires lo <= hi <= |y|
    ensures (x + y + z)[|x| + lo..|x| + hi] == y[lo..hi]
  {
  }

  lemma {:induction false} Joined(c: Bytes, location: nat, buffer: Bytes, n: nat)
    requires buffer != [] ==> location + |buffer| <= |c| && buffer == c[location..location + |buffer|]
    ensures location + |buffer| + n <= |c| ==> buffer + c[location + |buffer|..location + |buffer| + n] == c[location..location + |buffer| + n]
  {
    if location + |buffer| + n <= |c| {
      TwoSlices(c, location, |buffer|, |buffer| + n);
    }
  }

  // One extent's part of a read.
  lemma {:induction false} PartRead(bits: Bytes, image: Bytes, bs: nat, total: nat, xs: seq<Extent>, i: nat, lo: nat, part: nat,
                                    location: nat, buffer: Bytes)
    requires ForkOk(bits, total, xs) && total * bs <= |image| && i < |xs| && lo + part <= xs[i].blockCount * bs
    requires location + |buffer| == Sum(xs[..i]) * bs + lo
    requires var c := Content(image, bs, xs);
      buffer != [] ==> location + |buffer| <= |c| && buffer == c[location..location + |buffer|]
    ensures var c, at := Content(image, bs, xs), xs[i].startBlock * bs + lo;
      && at + part <= |image| && location + |buffer| + part <= |c|
      && buffer + image[at..at + part] == c[location..location + |buffer| + part]
  {
    hide *;
    ReadsInside(bits, image, bs, total, xs, i, lo, lo + part);
    Joined(Content(image, bs, xs), location, buffer, part);
  }

  // One extent's part of a write.
  lemma {:induction false} PartWritten(bits: Bytes, image0: Bytes, image: Bytes, bs: nat, total: nat, xs: seq<Extent>, others: seq<seq<Extent>>,
                                       base: Bytes, location: nat, buffer: Bytes, done: nat, i: nat, lo: nat, part: nat)
    requires ForkOk(bits, total, xs) && RestOk(bits, total, xs, others) && total * bs <= |image| && SameContents(image0, image, bs, others)
    requires i < |xs| && lo + part <= xs[i].blockCount * bs && done + part <= |buffer| && location + |buffer| <= |base|
    requires location + done == Sum(xs[..i]) * bs + lo && Content(image, bs, xs) == Splice(base, location, buffer[..done])
    ensures var at := xs[i].startBlock * bs + lo;
      && at + part <= |image| && SameContents(image0, Splice(image, at, buffer[done..done + part]), bs, others)
      && Content(Splice(image, at, buffer[done..done + part]), bs, xs) == Splice(base, location, buffer[..done + part])
  {
    hide *;
    var piece := buffer[done..done + part];
    WritesInside(bits, image, bs, total, xs, i, lo, piece, others);
    SpliceTwice(base, location, buffer[..done], piece);
    assert buffer[..done] + piece == buffer[..done + part];
    SameTrans(image0, image, Splice(image, xs[i].startBlock * bs + lo, piece), bs, others);
  }

  // The bytes there are when a buffer ending at need has found its room.
  function Room(c: Bytes, logicalSize: nat, need: nat, bs: nat): Bytes
    requires bs > 0
  {
    if logicalSize < need then Resize(c, BlocksFor(need, bs) * bs) else c
  }

  lemma {:induction false} BlocksEnough(size: nat, bs: nat)
    requires bs > 0
    ensures size <= BlocksFor(size, bs) * bs
  {
  }

  lemma {:induction false} RoomEnough(c: Bytes, logicalSize: nat, need: nat, bs: nat)
    requires bs > 0 && logicalSize <= |c|
    ensures need <= |Room(c, logicalSize, need, bs)|
  {
    BlocksEnough(need, bs);
  }

  lemma {:induction false} HasExtent(xs: seq<Extent>, bs: nat)
    ensures Sum(xs) * bs > 0 ==> xs != []
  {
  }

  // What was written is read back, and nothing else has changed.
  lemma {:induction false} ReadBack(c: Bytes, at: nat, b: Bytes, i: nat, j: nat)
    requires at + |b| <= |c| && i <= j <= |c|
    ensures Splice(c, at, b)[at..at + |b|] == b
    ensures j <= at || at + |b| <= i ==> Splice(c, at, b)[i..j] == c[i..j]
  {
    SliceSpliced(c, at, b);
    if j <= at || at + |b| <= i {
      SliceOutside(c, at, b, i, j);
    }
  }

  lemma {:induction false} SameTrans(image0: Bytes, image1: Bytes, image2: Bytes, bs: nat, others: seq<seq<Extent>>)
    requires SameContents(image0, image1, bs, others) && SameContents(image1, image2, bs, others)
    ensures SameContents(image0, image2, bs, others)
  {
  }

  // A piece written inside extent i is written at its place in the fork, and in no other fork.
  lemma {:induction false} WritesInside(bits: Bytes, image: Bytes, bs: nat, total: nat, xs: seq<Extent>, i: nat, lo: nat, z: Bytes,
                                        others: seq<seq<Extent>>)
    requires ForkOk(bits, total, xs) && RestOk(bits, total, xs, others) && total * bs <= |image|
    requires i < |xs| && lo + |z| <= xs[i].blockCount * bs
    ensures var p, at, c := Sum(xs[..i]) * bs, xs[i].startBlock * bs, Content(image, bs, xs);
      && p + lo + |z| <= |c| && at + lo + |z| <= |image|
      && Content(Splice(image, at + lo, z), bs, xs) == Splice(c, p + lo, z)
      && SameContents(image, Splice(image, at + lo, z), bs, others)
  {
    hide *;
    WritesFork(bits, image, bs, total, xs, i, lo, z);
    Distribute(xs[i].startBlock, xs[i].blockCount, bs);
    OthersOutside(bits, image, bs, total, xs, xs[i], others, xs[i].startBlock * bs + lo, z, i);
  }

  lemma {:induction false} WritesFork(bits: Bytes, image: Bytes, bs: nat, total: nat, xs: seq<Extent>, i: nat, lo: nat, z: Bytes)
    requires ForkOk(bits, total, xs) && total * bs <= |image|
    requires i < |xs| && lo + |z| <= xs[i].blockCount * bs
    ensures var p, at, c := Sum(xs[..i]) * bs, xs[i].startBlock * bs, Content(image, bs, xs);
      && p + lo + |z| <= |c| && at + xs[i].blockCount * bs <= |image|
      && Content(Splice(image, at + lo, z), bs, xs) == Splice(c, p + lo, z)
  {
    var a, e, b := xs[..i], xs[i], xs[i + 1..];
    assert xs == a + [e] + b;
    hide *;
    WritesBetween(bits, image, bs, total, a, e, b, lo, z);
  }

  lemma {:induction false} WritesBetween(bits: Bytes, image: Bytes, bs: nat, total: nat, a: seq<Extent>, e: Extent, b: seq<Extent>, lo: nat, z: Bytes)
    requires ForkOk(bits, total, a + [e] + b) && total * bs <= |image| && lo + |z| <= e.blockCount * bs
    ensures var p, at, c := Sum(a) * bs, e.startBlock * bs, Content(image, bs, a + [e] + b);
      && p + lo + |z| <= |c| && at + e.blockCount * bs <= |image|
      && Content(Splice(image, at + lo, z), bs, a + [e] + b) == Splice(c, p + lo, z)
  {
    hide *;
    var at := e.startBlock * bs + lo;
    ForkSplit(bits, total, a, e, b);
    ExtentLength(image, bs, e, total);
    EndsApart(a, e, b);
    AroundSpliced(image, bs, a, e, b, total, at, z);
    Around(image, bs, a, e, b, total);
    ExtentPart(image, bs, e, lo, z);
    MiddleSplice(Content(image, bs, a), ExtentBytes(image, bs, e), Content(image, bs, b), lo, z);
  }

  lemma {:induction false} AroundSpliced(image: Bytes, bs: nat, a: seq<Extent>, e: Extent, b: seq<Extent>, total: nat, at: nat, z: Bytes)
    requires ExtentsOk(a, total) && ExtentsOk(b, total) && total * bs <= |image| && at + |z| <= |image|
    requires e.startBlock * bs <= at && at + |z| <= (e.startBlock + e.blockCount) * bs
    requires forall x: nat :: e.startBlock <= x < e.startBlock + e.blockCount ==> !Owns(a, x) && !Owns(b, x)
    ensures Content(Splice(image, at, z), bs, a + [e] + b)
         == Content(image, bs, a) + ExtentBytes(Splice(image, at, z), bs, e) + Content(image, bs, b)
  {
    hide *;
    Around(Splice(image, at, z), bs, a, e, b, total);
    ContentOutside(image, bs, a, at, z, e.startBlock, e.startBlock + e.blockCount, total);
    ContentOutside(image, bs, b, at, z, e.startBlock, e.startBlock + e.blockCount, total);
  }

  lemma {:induction false} ForkSplit(bits: Bytes, total: nat, a: seq<Extent>, e: Extent, b: seq<Extent>)
    requires ForkOk(bits, total, a + [e] + b)
    ensures ExtentOk(e, total) && ExtentsOk(a, total) && ExtentsOk(b, total) && NotIn(e, a) && Disjoint(a + [e], b)
  {
    OkConcat(a + [e], b, total);
    OkSnoc(a, e, total);
  }

  // A piece written inside an extent, seen from the extent's bytes.
  lemma {:induction false} ExtentPart(image: Bytes, bs: nat, e: Extent, lo: nat, z: Bytes)
    requires e.startBlock * bs + e.blockCount * bs == (e.startBlock + e.blockCount) * bs <= |image| && lo + |z| <= e.blockCount * bs
    ensures |ExtentBytes(image, bs, e)| == e.blockCount * bs
    ensures ExtentBytes(Splice(image, e.startBlock * bs + lo, z), bs, e) == Splice(ExtentBytes(image, bs, e), lo, z)
  {
    hide Slice, Splice;
    ExtentSpliced(image, e.startBlock * bs, e.blockCount * bs, lo, z);
  }

  lemma {:induction false} Around(image: Bytes, bs: nat, a: seq<Extent>, e: Extent, b: seq<Extent>, total: nat)
    requires ExtentsOk(a, total) && total * bs <= |image|
    ensures Content(image, bs, a + [e] + b) == Content(image, bs, a) + ExtentBytes(image, bs, e) + Content(image, bs, b)
    ensures |Content(image, bs, a)| == Sum(a) * bs
  {
    hide ExtentBytes;
    ContentConcat(image, bs, a + [e], b);
    ContentSnoc(image, bs, a, e);
    ContentLength(image, bs, a, total);
  }

  lemma {:induction false} EndsApart(a: seq<Extent>, e: Extent, b: seq<Extent>)
    requires NotIn(e, a) && Disjoint(a + [e], b)
    ensures forall x: nat :: e.startBlock <= x < e.startBlock + e.blockCount ==> !Owns(a, x) && !Owns(b, x)
  {
    forall x: nat | e.startBlock <= x < e.startBlock + e.blockCount ensures !Owns(a, x) && !Owns(b, x) {
      OwnsSnoc(a, e, x);
    }
  }

  lemma {:induction false} ExtentSpliced(image: Bytes, s: nat, n: nat, lo: nat, z: Bytes)
    requires s + n <= |image| && lo + |z| <= n
    ensures |Slice(image, s, s + n)| == n
    ensures Slice(Splice(image, s + lo, z), s, s + n) == Splice(Slice(image, s, s + n), lo, z)
  {
  }

  lemma {:induction false} MiddleSplice(x: Bytes, y: Bytes, w: Bytes, lo: nat, z: Bytes)
    requires lo + |z| <= |y|
    ensures Splice(x + y + w, |x| + lo, z) == x + Splice(y, lo, z) + w
  {
  }

  lemma {:induction false} OthersOutside(bits: Bytes, image: Bytes, bs: nat, total: nat, xs: seq<Extent>, e: Extent,
                                         others: seq<seq<Extent>>, at: nat, z: Bytes, i: nat)
    requires RestOk(bits, total, xs, others) && i < |xs| && xs[i] == e
    requires at + |z| <= |image| && e.startBlock * bs <= at && at + |z| <= (e.startBlock + e.blockCount) * bs
    ensures SameContents(image, Splice(image, at, z), bs, others)
  {
    hide Content, Splice, Bit;
    forall x: nat | e.startBlock <= x < e.startBlock + e.blockCount ensures Owns(xs, x) {
      OwnsAt(xs, i, x);
    }
    hide Owns;
    forall k | 0 <= k < |others| ensures Content(Splice(image, at, z), bs, others[k]) == Content(image, bs, others[k]) {
      assert ForkOk(bits, total, others[k]) && Disjoint(xs, others[k]);
      ContentOutside(image, bs, others[k], at, z, e.startBlock, e.startBlock + e.blockCount, total);
    }
  }

  lemma {:induction false} OwnsAt(xs: seq<Extent>, i: nat, x: nat)
    requires i < |xs| && InExtent(xs[i], x)
    ensures Owns(xs, x)
  {
    if i > 0 {
      OwnsAt(xs[1..], i - 1, x);
    }
  }

  lemma {:induction false} SumAround(xs: seq<Extent>, i: nat)
    requires i < |xs|
    ensures Sum(xs) == Sum(xs[..i]) + xs[i].blockCount + Sum(xs[i + 1..])
  {
    SumPrefix(xs, i);
    ContentConcat([], 0, xs[..i + 1], xs[i + 1..]);
    assert xs[..i + 1] + xs[i + 1..] == xs;
  }

  lemma {:induction false} ForkParts(bits: Bytes, total: nat, a: seq<Extent>, e: Extent, b: seq<Extent>)
    requires ForkOk(bits, total, a + [e] + b)
    ensures ExtentOk(e, total) && total <= 8 * |bits|
  {
    OkConcat(a + [e], b, total);
    OkSnoc(a, e, total);
  }

  lemma {:induction false} KeptRest(bits: Bytes, bits': Bytes, total: nat, xs: seq<Extent>, ks: seq<Extent>, others: seq<seq<Extent>>)
    requires RestOk(bits, total, xs, others) && total <= 8 * |bits'|
    requires ExtentsOk(ks, total) && AllUsed(ks, bits', total)
    requires forall x: nat :: Owns(ks, x) ==> Owns(xs, x)
    requires forall k :: 0 <= k < |others| ==> AllUsed(others[k], bits', total)
    ensures ForkOk(bits', total, ks) && RestOk(bits', total, ks, others)
  {
    hide ExtentsOk, AllUsed, Owns;
    forall k | 0 <= k < |others| ensures ForkOk(bits', total, others[k]) && Disjoint(ks, others[k]) {
      assert ForkOk(bits, total, others[k]) && Disjoint(xs, others[k]);
    }
  }

  lemma {:induction false} GrowStart(bits: Bytes, image: Bytes, bs: nat, total: nat, freeBlocks: nat, next: nat, xs: seq<Extent>,
                                     others: seq<seq<Extent>>)
    requires VolumeOk(bits, image, bs, total, freeBlocks, next) && ForkOk(bits, total, xs) && RestOk(bits, total, xs, others)
    ensures Growing(bits, image, bs, total, freeBlocks, next, xs, others, image, xs, 0)
  {
    assert Content(image, bs, xs) + [] == Content(image, bs, xs);
  }

  lemma {:induction false} GrowTurns(bits: Bytes, image: Bytes, bs: nat, total: nat, freeBlocks: nat, next: nat, xs: seq<Extent>,
                                     others: seq<seq<Extent>>, image0: Bytes, xs0: seq<Extent>, n: nat)
    requires Growing(bits, image, bs, total, freeBlocks, next, xs, others, image0, xs0, n)
    ensures total <= 8 * |bits| && next < total
    ensures forall next': nat :: next' < total ==> Growing(bits, image, bs, total, freeBlocks, next', xs, others, image0, xs0, n)
  {
  }

  lemma {:induction false} LastExtent(bits: Bytes, total: nat, front: seq<Extent>, last: Extent)
    requires ForkOk(bits, total, front + [last])
    ensures last.blockCount > 0 && last.startBlock + last.blockCount < total
  {
    OkSnoc(front, last, total);
  }
}
