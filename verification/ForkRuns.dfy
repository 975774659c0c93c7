/**
  Any number of forks on one volume, and any sequence of allocations and
  writes on them, as seen from outside: each fork is a string of bytes of its
  own, and all of them share one count of free blocks.
 */
module ForkRuns {
  import opened Common
  import opened Bitmap
  import opened Extents
  import opened RawFiles

  // A fork's logical size and its allocated bytes; a volume's free blocks and forks.
  datatype Fork = Fork(size: nat, data: Bytes)

  datatype Disk = Disk(free: nat, forks: seq<Fork>)

  datatype Call = Allocate(fork: nat, size: nat) | Write(fork: nat, location: nat, buffer: Bytes)

  // The fork sized anew, None when too few blocks are free.
  function Sized(bs: nat, d: Disk, i: nat, size: nat): Option<Disk>
    requires bs > 0 && i < |d.forks|
  {
    var have, need := |d.forks[i].data| / bs, BlocksFor(size, bs);
    if need <= have + d.free then
      Some(Disk(have + d.free - need, d.forks[i := Fork(size, Resize(d.forks[i].data, need * bs))]))
    else None
  }

  // The bytes put into a fork that has room for them.
  function Put(d: Disk, i: nat, location: nat, buffer: Bytes): Option<Disk>
    requires i < |d.forks|
  {
    var f := d.forks[i];
    if location + |buffer| <= |f.data| then Some(d.(forks := d.forks[i := Fork(f.size, Splice(f.data, location, buffer))])) else None
  }

  // One call: an allocation that fails changes nothing; a write that cannot be made ends the process.
  function Called(bs: nat, d: Disk, c: Call): Option<Disk>
    requires bs > 0 && c.fork < |d.forks|
  {
    match c
    case Allocate(i, size) =>
      var r := Sized(bs, d, i, size);
      Some(if r.Some? then r.value else d)
    case Write(i, location, buffer) =>
      var end := location + |buffer|;
      if end > d.forks[i].size then
        var r := Sized(bs, d, i, end);
        if r.Some? then Put(r.value, i, location, buffer) else None
      else if d.forks[i].data == [] then None
      else Put(d, i, location, buffer)
  }

  // A sequence of calls on forks that exist.
  ghost predicate OnForks(calls: seq<Call>, n: nat) {
    forall k :: 0 <= k < |calls| ==> calls[k].fork < n
  }

  function AllCalled(bs: nat, d: Disk, calls: seq<Call>): (r: Option<Disk>)
    requires bs > 0 && OnForks(calls, |d.forks|)
    ensures r.Some? ==> |r.value.forks| == |d.forks|
    decreases |calls|
  {
    if calls == [] then Some(d)
    else
      var r := AllCalled(bs, d, calls[..|calls| - 1]);
      if r.None? then None else Called(bs, r.value, calls[|calls| - 1])
  }

  /* ----- The forks of a volume ----- */

  // The extents of all forks but one.
  ghost function Others(files: seq<RawFile>, f: nat): seq<seq<Extent>>
    reads files
  {
    seq(|files|, j requires 0 <= j < |files| reads files => if j == f then [] else files[j].extents)
  }

  ghost predicate FileOk(file: RawFile, volume: Volume)
    reads file, volume
  {
    && file.volume == volume
    && ForkOk(volume.bitmap, volume.totalBlocks, file.extents)
    && file.totalBlocks == Sum(file.extents) && file.logicalSize <= |Content(volume.image, volume.blockSize, file.extents)|
  }

  // Every fork is in order, and no two share a block.
  ghost predicate AllOk(files: seq<RawFile>, volume: Volume)
    reads files, volume
  {
    && volume.Ok()
    && (forall i :: 0 <= i < |files| ==> FileOk(files[i], volume))
    && (forall i, j :: 0 <= i < j < |files| ==> files[i] != files[j] && Disjoint(files[i].extents, files[j].extents))
  }

  ghost function ForkOf(file: RawFile, volume: Volume): Fork
    reads file, volume
  {
    Fork(file.logicalSize, Content(volume.image, volume.blockSize, file.extents))
  }

  ghost function View(files: seq<RawFile>, volume: Volume): Disk
    reads files, volume
  {
    Disk(volume.freeBlocks, seq(|files|, i requires 0 <= i < |files| reads files, volume => ForkOf(files[i], volume)))
  }

  lemma {:induction false} ForkIsOk(files: seq<RawFile>, volume: Volume, f: nat)
    requires AllOk(files, volume) && f < |files|
    ensures files[f].volume == volume && files[f].Ok(Others(files, f)) && files[f].logicalSize <= |files[f].Data()|
    ensures |files[f].Data()| == files[f].totalBlocks * volume.blockSize && volume.blockSize > 0
    ensures files[f].extents == [] <==> files[f].Data() == []
  {
    hide Bit, ForkOk, Bits, CountFree, Content, Sum, Disjoint, Owns;
    var others := Others(files, f);
    forall k | 0 <= k < |others|
      ensures ForkOk(volume.bitmap, volume.totalBlocks, others[k]) && Disjoint(files[f].extents, others[k])
    {
      if k == f {
        NoFork(volume.bitmap, volume.totalBlocks, files[f].extents);
      } else {
        assert FileOk(files[k], volume);
        Apart(files[f].extents, files[k].extents);
      }
    }
    DataLength(volume.bitmap, volume.image, volume.blockSize, volume.totalBlocks, files[f].extents);
    NoData(volume.bitmap, volume.image, volume.blockSize, volume.totalBlocks, files[f].extents);
  }

  lemma {:induction false} NoFork(bits: Bytes, total: nat, xs: seq<Extent>)
    requires total <= 8 * |bits|
    ensures ForkOk(bits, total, []) && Disjoint(xs, [])
  {
  }

  lemma {:induction false} Apart(xs: seq<Extent>, ys: seq<Extent>)
    ensures Disjoint(xs, ys) <==> Disjoint(ys, xs)
  {
  }

  lemma {:induction false} NoData(bits: Bytes, image: Bytes, bs: nat, total: nat, xs: seq<Extent>)
    requires ForkOk(bits, total, xs) && total * bs <= |image| && bs > 0
    ensures xs == [] <==> Content(image, bs, xs) == []
  {
    hide ExtentBytes;
    if xs != [] {
      ExtentLength(image, bs, xs[0], total);
      AtLeast(xs[0].blockCount, bs);
    }
  }

  // The files but one as they stand, with the bytes that an image has for them.
  ghost predicate Waiting(files: seq<RawFile>, volume: Volume, f: nat, image: Bytes, forks: seq<Fork>)
    reads files
  {
    && |forks| == |files|
    && (forall i, j :: 0 <= i < j < |files| ==> files[i] != files[j])
    && (forall i :: 0 <= i < |files| ==> files[i].volume == volume)
    && (forall i :: 0 <= i < |files| && i != f ==> files[i].totalBlocks == Sum(files[i].extents))
    && (forall i :: 0 <= i < |files| && i != f ==> files[i].logicalSize == forks[i].size <= |forks[i].data|)
    && (forall i :: 0 <= i < |files| && i != f ==> Content(image, volume.blockSize, files[i].extents) == forks[i].data)
    && (forall i, j :: 0 <= i < j < |files| && i != f && j != f ==> Disjoint(files[i].extents, files[j].extents))
  }

  lemma {:induction false} AllWaiting(files: seq<RawFile>, volume: Volume, f: nat)
    requires AllOk(files, volume)
    ensures Waiting(files, volume, f, volume.image, View(files, volume).forks)
  {
    hide Content, Sum, Disjoint, ForkOk;
  }

  // After a call on one fork that left it in order beside the others, all are in order, the others with their bytes.
  lemma {:induction false} StillOk(files: seq<RawFile>, volume: Volume, f: nat, image: Bytes, d: Disk)
    requires f < |files| && Waiting(files, volume, f, image, d.forks)
    requires files[f].Ok(Others(files, f)) && files[f].logicalSize <= |files[f].Data()|
    requires SameContents(image, volume.image, volume.blockSize, Others(files, f))
    ensures AllOk(files, volume)
    ensures View(files, volume) == Disk(volume.freeBlocks, d.forks[f := Fork(files[f].logicalSize, files[f].Data())])
  {
    hide Bit, ForkOk, Bits, CountFree, Content, Sum, Disjoint, Owns;
    var others := Others(files, f);
    forall i | 0 <= i < |files| && i != f
      ensures FileOk(files[i], volume) && Disjoint(files[f].extents, files[i].extents) && ForkOf(files[i], volume) == d.forks[i]
    {
      assert others[i] == files[i].extents;
    }
    forall i, j | 0 <= i < j < |files| ensures Disjoint(files[i].extents, files[j].extents) {
      if j == f {
        Apart(files[f].extents, files[i].extents);
      }
    }
    var x, y := View(files, volume).forks, d.forks[f := Fork(files[f].logicalSize, files[f].Data())];
    assert forall i :: 0 <= i < |files| ==> x[i] == y[i];
  }

  lemma {:induction false} BlocksHere(n: nat, bs: nat)
    requires bs > 0
    ensures n * bs / bs == n
  {
    var q := n * bs / bs;
    assert q * bs + n * bs % bs == n * bs + 0;
    DivUnique(q, n * bs % bs, n, 0, bs);
    if q < n {
      Common.AtLeast(n - q, bs);
    } else if q > n {
      Common.AtLeast(q - n, bs);
    }
    assert (n - q) * bs == n * bs - q * bs;
  }

  // How the fork stands in the view before the call.
  ghost predicate Stands(d: Disk, f: nat, bs: nat, free: nat, size: nat, blocks: nat, data: Bytes) {
    && bs > 0 && f < |d.forks| && d.free == free && d.forks[f] == Fork(size, data) && |data| == blocks * bs && |data| / bs == blocks
    && size <= |data|
  }

  lemma {:induction false} ForkStands(files: seq<RawFile>, volume: Volume, f: nat)
    requires AllOk(files, volume) && f < |files|
    ensures Stands(View(files, volume), f, volume.blockSize, volume.freeBlocks, files[f].logicalSize, files[f].totalBlocks, files[f].Data())
  {
    hide AllOk, Content, Sum;
    ForkIsOk(files, volume, f);
    BlocksHere(files[f].totalBlocks, volume.blockSize);
  }

  method DoAllocate(files: seq<RawFile>, volume: Volume, f: nat, size: nat)
    requires AllOk(files, volume) && f < |files|
    modifies files[f], volume
    ensures AllOk(files, volume) && volume.blockSize > 0
    ensures Called(volume.blockSize, old(View(files, volume)), Allocate(f, size)) == Some(View(files, volume))
  {
    hide AllOk, ForkOk, RestOk, VolumeOk, Content, Sum, SameContents, Resize, Disjoint, View, BlocksFor;
    var file := files[f];
    ghost var others, bs, image, d := Others(files, f), volume.blockSize, volume.image, View(files, volume);
    ForkIsOk(files, volume, f);
    AllWaiting(files, volume, f);
    ForkStands(files, volume, f);
    BlocksEnough(size, bs);
    var sized := file.Allocate(size, others);
    assert Others(files, f) == others;
    SizedData(d.forks[f].data, BlocksFor(size, bs), bs);
    StillOk(files, volume, f, image, d);
    assert d.forks[f := d.forks[f]] == d.forks;
  }

  lemma {:induction false} SizedData(c: Bytes, n: nat, bs: nat)
    ensures |Resize(c, n * bs)| == n * bs
  {
  }

  method DoWrite(files: seq<RawFile>, volume: Volume, f: nat, location: nat, buffer: Bytes) returns (ok: bool)
    requires AllOk(files, volume) && f < |files|
    modifies files[f], volume
    ensures AllOk(files, volume) && volume.blockSize > 0
    ensures var r := Called(volume.blockSize, old(View(files, volume)), Write(f, location, buffer));
      && (ok <==> r.Some?)
      && (ok ==> View(files, volume) == r.value)
  {
    hide AllOk, ForkOk, RestOk, VolumeOk, Content, Sum, SameContents, Resize, Splice, Disjoint, View, BlocksFor;
    var file := files[f];
    ghost var others, bs, image, d := Others(files, f), volume.blockSize, volume.image, View(files, volume);
    ForkIsOk(files, volume, f);
    AllWaiting(files, volume, f);
    ForkStands(files, volume, f);
    RoomEnough(file.Data(), file.logicalSize, location + |buffer|, bs);
    if file.extents == [] && location + |buffer| <= file.logicalSize {
      return false;
    }
    ok := file.Write(location, buffer, others);
    assert Others(files, f) == others;
    StillOk(files, volume, f, image, d);
    ghost var need := BlocksFor(location + |buffer|, bs);
    SizedData(d.forks[f].data, need, bs);
    ghost var sized, put := Fork(location + |buffer|, Resize(d.forks[f].data, need * bs)), Fork(file.logicalSize, file.Data());
    assert d.forks[f := sized][f := put] == d.forks[f := put];
  }

  // One call on one of the forks does what it does to the strings of bytes; all forks stay in order.
  method Do(files: seq<RawFile>, volume: Volume, c: Call) returns (ok: bool)
    requires AllOk(files, volume) && c.fork < |files|
    modifies files[c.fork], volume
    ensures AllOk(files, volume) && volume.blockSize > 0
    ensures var r := Called(volume.blockSize, old(View(files, volume)), c);
      && (ok <==> r.Some?)
      && (ok ==> View(files, volume) == r.value)
  {
    hide AllOk, View, Called;
    ok := true;
    if c.Allocate? {
      DoAllocate(files, volume, c.fork, c.size);
    } else {
      ok := DoWrite(files, volume, c.fork, c.location, c.buffer);
    }
  }

  lemma {:induction false} AllCalledSplit(bs: nat, d: Disk, calls: seq<Call>, k: nat)
    requires bs > 0 && k < |calls| && OnForks(calls, |d.forks|)
    ensures OnForks(calls[..k], |d.forks|) && OnForks(calls[..k + 1], |d.forks|)
    ensures AllCalled(bs, d, calls[..k + 1]) ==
      var r := AllCalled(bs, d, calls[..k]); if r.None? then None else Called(bs, r.value, calls[k])
  {
    hide Called;
    assert calls[..k + 1][..k] == calls[..k];
  }

  lemma {:induction false} NoneAfter(bs: nat, d: Disk, calls: seq<Call>, k: nat)
    requires bs > 0 && k <= |calls| && OnForks(calls, |d.forks|) && AllCalled(bs, d, calls[..k]).None?
    ensures AllCalled(bs, d, calls).None?
    decreases |calls| - k
  {
    hide Called;
    if k == |calls| {
      assert calls[..k] == calls;
    } else {
      AllCalledSplit(bs, d, calls, k);
      NoneAfter(bs, d, calls, k + 1);
    }
  }

  // Any sequence of calls on any of the forks: after every one of them all forks are in order, and they and the
  // free blocks are what the same calls make of the strings of bytes.
  method Run(files: seq<RawFile>, volume: Volume, calls: seq<Call>) returns (ok: bool)
    requires AllOk(files, volume) && volume.blockSize > 0 && OnForks(calls, |files|)
    modifies files, volume
    ensures AllOk(files, volume)
    ensures var r := AllCalled(volume.blockSize, old(View(files, volume)), calls);
      && (ok <==> r.Some?)
      && (ok ==> View(files, volume) == r.value)
  {
    ghost var d, bs := View(files, volume), volume.blockSize;
    hide AllOk, View, Called, AllCalled;
    NoCalls(bs, d);
    ok := true;
    var k := 0;
    assert calls[..0] == [];
    while k < |calls|
      invariant k <= |calls| && AllOk(files, volume)
      invariant AllCalled(bs, d, calls[..k]) == Some(View(files, volume))
    {
      AllCalledSplit(bs, d, calls, k);
      ok := Do(files, volume, calls[k]);
      if !ok {
        NoneAfter(bs, d, calls, k + 1);
        return;
      }
      k := k + 1;
    }
    assert calls[..k] == calls;
  }

  lemma {:induction false} NoCalls(bs: nat, d: Disk)
    requires bs > 0
    ensures AllCalled(bs, d, []) == Some(d)
  {
  }

  // A fork that no call names keeps its bytes.
  lemma {:induction false} OthersStay(bs: nat, d: Disk, calls: seq<Call>, j: nat)
    requires bs > 0 && OnForks(calls, |d.forks|) && AllCalled(bs, d, calls).Some? && j < |d.forks|
    requires forall k :: 0 <= k < |calls| ==> calls[k].fork != j
    ensures AllCalled(bs, d, calls).value.forks[j] == d.forks[j]
    decreases |calls|
  {
    hide Resize, Splice, BlocksFor;
    if calls != [] {
      OthersStay(bs, d, calls[..|calls| - 1], j);
    }
  }

  // A new volume with two empty forks.
  method TwoForks(blockSize: nat, totalBlocks: nat) returns (files: seq<RawFile>, volume: Volume)
    requires blockSize > 0 && totalBlocks > 0 && totalBlocks * blockSize < 0x1_0000_0000
    ensures fresh(volume) && |files| == 2 && AllOk(files, volume)
  {
    volume := new Volume(blockSize, totalBlocks);
    var a := new RawFile(volume, 0, 0);
    var b := new RawFile(volume, 0, 0);
    hide Bit, Bits, CountFree;
    files := [a, b];
  }

  /* ----- No block is lost ----- */

  // The blocks of all forks.
  function BlocksIn(bs: nat, forks: seq<Fork>): nat
    requires bs > 0
  {
    if forks == [] then 0 else |forks[0].data| / bs + BlocksIn(bs, forks[1..])
  }

  lemma {:induction false} BlocksUpdate(bs: nat, forks: seq<Fork>, i: nat, f: Fork)
    requires bs > 0 && i < |forks|
    ensures BlocksIn(bs, forks[i := f]) == BlocksIn(bs, forks) - |forks[i].data| / bs + |f.data| / bs
  {
    if i == 0 {
      assert forks[i := f][1..] == forks[1..];
    } else {
      BlocksUpdate(bs, forks[1..], i - 1, f);
      assert forks[i := f][1..] == forks[1..][i - 1 := f];
    }
  }

  lemma {:induction false} SizedKeeps(bs: nat, d: Disk, i: nat, size: nat)
    requires bs > 0 && i < |d.forks| && Sized(bs, d, i, size).Some?
    ensures var r := Sized(bs, d, i, size).value;
      |r.forks| == |d.forks| && r.free + BlocksIn(bs, r.forks) == d.free + BlocksIn(bs, d.forks)
  {
    hide Resize, BlocksIn, BlocksFor;
    var need := BlocksFor(size, bs);
    SizedData(d.forks[i].data, need, bs);
    BlocksHere(need, bs);
    BlocksUpdate(bs, d.forks, i, Fork(size, Resize(d.forks[i].data, need * bs)));
  }

  lemma {:induction false} PutKeeps(bs: nat, d: Disk, i: nat, location: nat, buffer: Bytes)
    requires bs > 0 && i < |d.forks| && Put(d, i, location, buffer).Some?
    ensures var r := Put(d, i, location, buffer).value; r.free == d.free && BlocksIn(bs, r.forks) == BlocksIn(bs, d.forks)
  {
    hide Splice, BlocksIn;
    BlocksUpdate(bs, d.forks, i, Fork(d.forks[i].size, Splice(d.forks[i].data, location, buffer)));
  }

  // Through any sequence of calls, the free blocks and the blocks of all forks are as many as before.
  lemma {:induction false} BlocksConserved(bs: nat, d: Disk, calls: seq<Call>)
    requires bs > 0 && OnForks(calls, |d.forks|) && AllCalled(bs, d, calls).Some?
    ensures var r := AllCalled(bs, d, calls).value; r.free + BlocksIn(bs, r.forks) == d.free + BlocksIn(bs, d.forks)
    decreases |calls|
  {
    hide Sized, Put, BlocksIn;
    if calls != [] {
      var n := |calls| - 1;
      BlocksConserved(bs, d, calls[..n]);
      var m, c := AllCalled(bs, d, calls[..n]).value, calls[n];
      if c.Allocate? {
        if Sized(bs, m, c.fork, c.size).Some? {
          SizedKeeps(bs, m, c.fork, c.size);
        }
      } else {
        var end := c.location + |c.buffer|;
        if end > m.forks[c.fork].size {
          SizedKeeps(bs, m, c.fork, end);
          PutKeeps(bs, Sized(bs, m, c.fork, end).value, c.fork, c.location, c.buffer);
        } else {
          PutKeeps(bs, m, c.fork, c.location, c.buffer);
        }
      }
    }
  }
}
