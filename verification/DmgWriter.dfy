/**
  dmg/io.c, insertBLKX: worker threads read blocks in order under one lock,
  compress them outside any lock, and write them in index order under another.
 */
module DmgWriter {
  import opened Common
  import opened DmgFormat

  datatype Keep = KeepNoneRaw | KeepCurrentRaw | KeepCurrentAndNextRaw | KeepRemainingRaw

  datatype Attribution = NoAttribution | Attribution(shouldKeepRaw: (Bytes, Bytes) -> Keep)

  datatype Block = Block(idx: nat, sectorStart: nat, sectorCount: nat, keepRaw: bool, inbuf: Bytes)

  // A block after blockCompress.
  datatype Packed = Packed(b: Block, typ: nat, outbuf: Bytes)

  datatype Inserted<T> = Inserted(blkx: BlkxTable, out: File, token1: T, token2: T, observed: seq<Packed>)

  /* ----- One sequential worker: the reference ----- */

  // The whole task: its blocks, a short read at the end, and the settings.
  datatype Job<!T> = Job(plan: Plan, att: Attribution, comp: Compressor, bufferSectors: nat, out0: Bytes,
                         uncompressedChk: (T, Bytes) -> T, compressedChk: (T, Bytes) -> T, token1: T, token2: T)

  function SectorsBefore(chunks: seq<Bytes>, i: nat): nat
    requires i <= |chunks|
  {
    if i == 0 then 0 else SectorsBefore(chunks, i - 1) + DivCeil(|chunks[i - 1]|, SECTOR_SIZE)
  }

  // The bytes read ahead while block i is at hand.
  function NextIn(plan: Plan, i: nat): Bytes
    requires i < |plan.chunks|
  {
    if i + 1 < |plan.chunks| then plan.chunks[i + 1] else plan.tail
  }

  function NextKeep(att: Attribution, k: Keep, data: Bytes, next: Bytes): Keep {
    match att
    case NoAttribution => k
    case Attribution(should) =>
      match k
      case KeepNoneRaw => should(data, next)
      case KeepCurrentAndNextRaw => KeepCurrentRaw
      case KeepCurrentRaw => KeepRemainingRaw
      case KeepRemainingRaw => KeepRemainingRaw
  }

  // The keepRaw state after i blocks.
  function KeepAfter(plan: Plan, att: Attribution, i: nat): Keep
    requires i <= |plan.chunks|
  {
    if i == 0 then KeepNoneRaw
    else NextKeep(att, KeepAfter(plan, att, i - 1), Pad(plan.chunks[i - 1]), NextIn(plan, i - 1))
  }

  predicate IsRaw(att: Attribution, k: Keep) {
    att.Attribution? && (k == KeepCurrentRaw || k == KeepCurrentAndNextRaw)
  }

  function BlockAt<T>(job: Job<T>, i: nat): Block
    requires i < |job.plan.chunks|
  {
    var c := job.plan.chunks[i];
    Block(i, SectorsBefore(job.plan.chunks, i), DivCeil(|c|, SECTOR_SIZE),
          IsRaw(job.att, KeepAfter(job.plan, job.att, i + 1)), Pad(c))
  }

  // Unsigned 64-bit subtraction: below 15 sectors the bound wraps and nothing is stored raw for size.
  function Minus15(sectorCount: nat): nat {
    (sectorCount - 15) % 0x1_0000_0000_0000_0000
  }

  function PackOf(comp: Compressor, bufferSize: nat, b: Block): Option<Packed> {
    if b.keepRaw then Some(Packed(b, BLOCK_RAW, b.inbuf))
    else
      match comp.compress(b.inbuf, bufferSize)
      case None => None
      case Some(o) =>
        if |o| / SECTOR_SIZE >= Minus15(b.sectorCount) then Some(Packed(b, BLOCK_RAW, b.inbuf))
        else Some(Packed(b, comp.blockType, o))
  }

  // Which blocks are stored raw: the kept ones, and those of 15 sectors or more that compression does not
  // shorten by more than 15 sectors.  Smaller blocks are stored compressed however long that makes them.
  lemma {:induction false} StoredRawIff(comp: Compressor, bufferSize: nat, b: Block)
    requires PackOf(comp, bufferSize, b).Some? && comp.blockType != BLOCK_RAW
    requires var o := comp.compress(b.inbuf, bufferSize);
      o.Some? ==> |o.value| < 0x1_0000_0000_0000_0000 && b.sectorCount < 0x1_0000_0000_0000_0000
    ensures PackOf(comp, bufferSize, b).value.typ == BLOCK_RAW <==>
      b.keepRaw || (b.sectorCount >= 15 && |comp.compress(b.inbuf, bufferSize).value| / SECTOR_SIZE >= b.sectorCount - 15)
  {
  }

  predicate CanPack<T>(job: Job<T>, i: nat)
    requires i < |job.plan.chunks|
  {
    PackOf(job.comp, job.bufferSectors * SECTOR_SIZE, BlockAt(job, i)).Some?
  }

  function PackAt<T>(job: Job<T>, i: nat): Packed
    requires i < |job.plan.chunks|
  {
    var b := BlockAt(job, i);
    var p := PackOf(job.comp, job.bufferSectors * SECTOR_SIZE, b);
    if p.Some? then p.value else Packed(b, BLOCK_IGNORE, [])
  }

  // What lies in the output for the first i blocks, their run entries, and both tokens.
  function OutUpTo<T>(job: Job<T>, i: nat): Bytes
    requires i <= |job.plan.chunks|
  {
    if i == 0 then [] else OutUpTo(job, i - 1) + PackAt(job, i - 1).outbuf
  }

  function RunAt<T>(job: Job<T>, i: nat): Run
    requires i < |job.plan.chunks|
  {
    var p := PackAt(job, i);
    Run(p.typ, p.b.sectorStart, p.b.sectorCount, |job.out0| + |OutUpTo(job, i)|, |p.outbuf|)
  }

  function Token1<T>(job: Job<T>, i: nat): T
    requires i <= |job.plan.chunks|
  {
    if i == 0 then job.token1 else job.uncompressedChk(Token1(job, i - 1), PackAt(job, i - 1).b.inbuf)
  }

  function Token2<T>(job: Job<T>, i: nat): T
    requires i <= |job.plan.chunks|
  {
    if i == 0 then job.token2 else job.compressedChk(Token2(job, i - 1), PackAt(job, i - 1).outbuf)
  }

  // The packed blocks the attribution observes, in order.
  function PacksUpTo<T>(job: Job<T>, i: nat): (s: seq<Packed>)
    requires i <= |job.plan.chunks|
    ensures |s| == i && forall j :: 0 <= j < i ==> s[j] == PackAt(job, j)
  {
    if i == 0 then [] else PacksUpTo(job, i - 1) + [PackAt(job, i - 1)]
  }

  ghost predicate AllPack<T>(job: Job<T>) {
    forall i :: 0 <= i < |job.plan.chunks| ==> CanPack(job, i)
  }

  function Terminator<T>(job: Job<T>): Run {
    var n := |job.plan.chunks|;
    Run(BLOCK_TERMINATOR, SectorsBefore(job.plan.chunks, n), 0, |job.out0| + |OutUpTo(job, n)|, 0)
  }

  const MIN_DECOMPRESS_BUFFER_SECTORS: nat := 0x208

  function BufferSectors(comp: Compressor, runSectors: nat): nat {
    Max(comp.decompressBuffer(runSectors), MIN_DECOMPRESS_BUFFER_SECTORS)
  }

  // The fewest sectors that are at least as many as the compressor asks for, and at least 0x208.
  lemma {:induction false} BufferLeast(comp: Compressor, runSectors: nat, n: nat)
    ensures BufferSectors(comp, runSectors) <= n <==> comp.decompressBuffer(runSectors) <= n && 0x208 <= n
  {
  }

  function JobOf<T>(out: File, inFile: File, bytes: int, chk1: (T, Bytes) -> T, token1: T, chk2: (T, Bytes) -> T, token2: T,
                    att: Attribution, comp: Compressor, runSectors: nat): Job<T>
    requires runSectors > 0 && bytes >= READ_UNTIL_EOF && inFile.pos <= |inFile.data|
  {
    Job(PlanOf(inFile.data[inFile.pos..], bytes, runSectors * SECTOR_SIZE), att, comp, BufferSectors(comp, runSectors), out.data,
        chk1, chk2, token1, token2)
  }

  // The reading side: the first n blocks are out, the next one is read ahead.
  ghost predicate ReadTo<T>(job: Job<T>, runBytes: nat, n: nat, left: Bytes, bytesRemain: int, nextIn: Bytes, inFile: File,
                            curSector: nat, keepRaw: Keep) {
    && runBytes > 0 && bytesRemain >= READ_UNTIL_EOF && n <= |job.plan.chunks|
    && PlanOf(left, bytesRemain, runBytes) == Plan(job.plan.chunks[n..], job.plan.short, job.plan.tail)
    && nextIn == Have(left, bytesRemain, runBytes)
    && inFile.pos <= |inFile.data| && inFile.data[inFile.pos..] == left[|nextIn|..]
    && curSector == SectorsBefore(job.plan.chunks, n)
    && keepRaw == KeepAfter(job.plan, job.att, n)
  }

  function Remaining(bytesRemain: int, have: nat): int {
    if bytesRemain == READ_UNTIL_EOF then bytesRemain else bytesRemain - have
  }

  lemma {:induction false} ReadEnds<T>(job: Job<T>, runBytes: nat, n: nat, left: Bytes, bytesRemain: int, nextIn: Bytes, inFile: File,
                                       curSector: nat, keepRaw: Keep)
    requires ReadTo(job, runBytes, n, left, bytesRemain, nextIn, inFile, curSector, keepRaw)
    ensures var want := NextReadSize(bytesRemain, runBytes);
      && (want == 0 || (|nextIn| == 0 && bytesRemain == READ_UNTIL_EOF) ==> n == |job.plan.chunks| && !job.plan.short)
      && (want != 0 && |nextIn| != want && bytesRemain != READ_UNTIL_EOF ==> job.plan.short)
  {
  }

  lemma {:induction false} ReadOne<T>(job: Job<T>, runBytes: nat, n: nat, left: Bytes, bytesRemain: int, nextIn: Bytes, inFile: File,
                                      curSector: nat, keepRaw: Keep)
    requires ReadTo(job, runBytes, n, left, bytesRemain, nextIn, inFile, curSector, keepRaw)
    requires var want := NextReadSize(bytesRemain, runBytes);
      want != 0 && (|nextIn| == want || (bytesRemain == READ_UNTIL_EOF && |nextIn| != 0))
    ensures n < |job.plan.chunks| && job.plan.chunks[n] == nextIn && |nextIn| <= |left|
    ensures var rest, remain := left[|nextIn|..], Remaining(bytesRemain, |nextIn|);
      var next := inFile.Got(NextReadSize(remain, runBytes));
      && next == NextIn(job.plan, n)
      && ReadTo(job, runBytes, n + 1, rest, remain, next, inFile.AfterRead(NextReadSize(remain, runBytes)),
                curSector + DivCeil(|nextIn|, SECTOR_SIZE), NextKeep(job.att, keepRaw, Pad(nextIn), next))
  {
    var rest, remain := left[|nextIn|..], Remaining(bytesRemain, |nextIn|);
    var size := NextReadSize(remain, runBytes);
    var next := inFile.Got(size);
    hide Pad, DivCeil, NextKeep;
    var all := job.plan.chunks;
    var tail := PlanOf(rest, remain, runBytes);
    assert PlanOf(left, bytesRemain, runBytes) == Plan([nextIn] + tail.chunks, tail.short, tail.tail);
    assert all[n..] == [nextIn] + tail.chunks;
    assert all[n..][0] == nextIn && all[n..][1..] == all[n + 1..];
    assert next == Have(rest, remain, runBytes);
    assert next == NextIn(job.plan, n);
  }

  lemma {:induction false} ReadAt<T>(job: Job<T>, runBytes: nat, n: nat, left: Bytes, bytesRemain: int, nextIn: Bytes, inFile: File,
                                     curSector: nat, keepRaw: Keep)
    requires ReadTo(job, runBytes, n, left, bytesRemain, nextIn, inFile, curSector, keepRaw)
    requires n < |job.plan.chunks| && job.plan.chunks[n] == nextIn
    ensures bytesRemain == READ_UNTIL_EOF || bytesRemain >= |nextIn|
    ensures BlockAt(job, n) == Block(n, curSector, DivCeil(|nextIn|, SECTOR_SIZE),
      IsRaw(job.att, NextKeep(job.att, keepRaw, Pad(nextIn), NextIn(job.plan, n))), Pad(nextIn))
  {
  }

  // The writing side: exactly the first n blocks, in order.
  ghost predicate Written<T>(job: Job<T>, n: nat, out: File, runs: seq<Run>, token1: T, token2: T, observed: seq<Packed>) {
    && n <= |job.plan.chunks| && |runs| == n
    && (forall i :: 0 <= i < n ==> CanPack(job, i))
    && out == File(job.out0 + OutUpTo(job, n), |job.out0| + |OutUpTo(job, n)|)
    && (forall i :: 0 <= i < n ==> runs[i] == RunAt(job, i))
    && token1 == Token1(job, n) && token2 == Token2(job, n)
    && observed == PacksUpTo(job, n)
  }

  lemma {:induction false} WriteOne<T>(job: Job<T>, n: nat, out: File, runs: seq<Run>, token1: T, token2: T, observed: seq<Packed>, p: Packed)
    requires Written(job, n, out, runs, token1, token2, observed)
    requires n < |job.plan.chunks| && CanPack(job, n) && p == PackAt(job, n)
    ensures Written(job, n + 1, out.Write(p.outbuf),
      runs + [Run(p.typ, p.b.sectorStart, p.b.sectorCount, out.pos, |p.outbuf|)],
      job.uncompressedChk(token1, p.b.inbuf), job.compressedChk(token2, p.outbuf), observed + [p])
  {
    hide PackAt, BlockAt, CanPack;
    AppendAtEnd(out, p.outbuf);
    assert (job.out0 + OutUpTo(job, n)) + p.outbuf == job.out0 + OutUpTo(job, n + 1);
  }

  lemma {:induction false} AppendAtEnd(f: File, b: Bytes)
    requires f.pos == |f.data|
    ensures f.Write(b) == File(f.data + b, f.pos + |b|)
  {
    assert f.data[..f.pos] == f.data;
    assert f.data + b + [] == f.data + b;
  }

  lemma {:induction false} JobStarts<T>(job: Job<T>, runBytes: nat, inFile: File, bytes: int, left: Bytes)
    requires runBytes > 0 && bytes >= READ_UNTIL_EOF && inFile.pos <= |inFile.data|
    requires left == inFile.data[inFile.pos..] && job.plan == PlanOf(left, bytes, runBytes)
    ensures var size := NextReadSize(bytes, runBytes);
      ReadTo(job, runBytes, 0, left, bytes, inFile.Got(size), inFile.AfterRead(size), 0, KeepNoneRaw)
    ensures Written(job, 0, File(job.out0, |job.out0|), [], job.token1, job.token2, [])
  {
    hide *;
    ReadStarts(job, runBytes, inFile, bytes, left);
    WriteStarts(job);
  }

  lemma {:induction false} ReadStarts<T>(job: Job<T>, runBytes: nat, inFile: File, bytes: int, left: Bytes)
    requires runBytes > 0 && bytes >= READ_UNTIL_EOF && inFile.pos <= |inFile.data|
    requires left == inFile.data[inFile.pos..] && job.plan == PlanOf(left, bytes, runBytes)
    ensures var size := NextReadSize(bytes, runBytes);
      ReadTo(job, runBytes, 0, left, bytes, inFile.Got(size), inFile.AfterRead(size), 0, KeepNoneRaw)
  {
    hide PlanOf, NextReadSize;
    assert job.plan.chunks[0..] == job.plan.chunks;
  }

  lemma {:induction false} WriteStarts<T>(job: Job<T>)
    ensures Written(job, 0, File(job.out0, |job.out0|), [], job.token1, job.token2, [])
  {
    hide CanPack, RunAt, PackAt;
    assert job.out0 + [] == job.out0;
  }

  // The result of one worker alone: all blocks in order, then the terminator.
  ghost predicate IsSequential<T>(job: Job<T>, firstSectorNumber: nat, r: Inserted<T>) {
    var n := |job.plan.chunks|;
    && r.out == File(job.out0 + OutUpTo(job, n), |job.out0| + |OutUpTo(job, n)|)
    && r.token1 == Token1(job, n) && r.token2 == Token2(job, n)
    && r.observed == PacksUpTo(job, n)
    && r.blkx.firstSectorNumber == firstSectorNumber && r.blkx.dataStart == 0
    && r.blkx.bufferSectors == job.bufferSectors
    && r.blkx.sectorCount == SectorsBefore(job.plan.chunks, n)
    && r.blkx.blocksRunCount == n + 1 == |r.blkx.runs|
    && (forall i :: 0 <= i < n ==> r.blkx.runs[i] == RunAt(job, i))
    && r.blkx.runs[n] == Terminator(job)
  }

  /* ----- The pending list ----- */

  ghost predicate Ordered(s: seq<Packed>) {
    forall i, j :: 0 <= i < j < |s| ==> s[i].b.idx < s[j].b.idx
  }

  ghost predicate Waits(s: seq<Packed>, i: nat) {
    exists p :: 0 <= p < |s| && s[p].b.idx == i
  }

  ghost predicate Inserts(s: seq<Packed>, s': seq<Packed>, p: Packed) {
    exists i :: 0 <= i <= |s| && s' == s[..i] + [p] + s[i..]
  }

  /* ----- Worker threads ----- */

  datatype Worker = Ready | Read(b: Block) | Compressed(p: Packed) | Finished {
    predicate Busy() { Read? || Compressed? }

    function Idx(): nat { if Read? then b.idx else if Compressed? then p.b.idx else 0 }

    function Rank(): nat { if Read? then 3 else if Compressed? then 2 else if Ready? then 1 else 0 }
  }

  function Ranks(ws: seq<Worker>): nat {
    if ws == [] then 0 else ws[0].Rank() + Ranks(ws[1..])
  }

  lemma {:induction false} RanksUpdate(ws: seq<Worker>, i: nat, w: Worker)
    requires i < |ws|
    ensures Ranks(ws[i := w]) == Ranks(ws) - ws[i].Rank() + w.Rank()
  {
    if i == 0 {
      assert ws[i := w][1..] == ws[1..];
    } else {
      RanksUpdate(ws[1..], i - 1, w);
      assert ws[i := w][1..] == ws[1..][i - 1 := w];
    }
  }

  ghost predicate Carried(ws: seq<Worker>, i: nat) {
    exists w :: 0 <= w < |ws| && ws[w].Busy() && ws[w].Idx() == i
  }

  ghost predicate Queued<T>(job: Job<T>, s: seq<Packed>, lo: nat, hi: nat) {
    && Ordered(s) && hi <= |job.plan.chunks|
    && forall p :: 0 <= p < |s| ==> lo <= s[p].b.idx < hi && Packs(job, s[p])
  }

  // The first blocks of the list, numbered on from lo, are gone.
  ghost predicate Flushed(s: seq<Packed>, s': seq<Packed>, lo: nat, lo': nat) {
    && lo <= lo' && lo' - lo <= |s| && s' == s[lo' - lo..]
    && forall j :: 0 <= j < lo' - lo ==> s[j].b.idx == lo + j
  }

  lemma {:induction false} FlushedNone(s: seq<Packed>, lo: nat)
    ensures Flushed(s, s, lo, lo)
  {
  }

  lemma {:induction false} FlushedOne<T>(job: Job<T>, s0: seq<Packed>, s: seq<Packed>, lo: nat, n: nat, hi: nat)
    requires Queued(job, s, n, hi) && s != [] && s[0].b.idx == n
    requires Flushed(s0, s, lo, n)
    ensures n < hi <= |job.plan.chunks| && Packs(job, s[0])
    ensures Queued(job, s[1..], n + 1, hi)
    ensures Flushed(s0, s[1..], lo, n + 1)
  {
    hide Packs;
    assert s[1..] == s0[n + 1 - lo..];
    assert s0[n - lo] == s[0];
    assert forall p :: 0 <= p < |s[1..]| ==> s[1..][p] == s[p + 1];
  }

  // What the threads hold are blocks of the job, of different numbers in this range.
  ghost predicate Holding<T>(job: Job<T>, ws: seq<Worker>, lo: nat, hi: nat) {
    && lo <= hi <= |job.plan.chunks|
    && (forall w :: 0 <= w < |ws| && ws[w].Busy() ==> lo <= ws[w].Idx() < hi)
    && (forall w :: 0 <= w < |ws| && ws[w].Read? ==> ws[w].b == BlockAt(job, ws[w].b.idx))
    && (forall w :: 0 <= w < |ws| && ws[w].Compressed? ==> Packs(job, ws[w].p))
    && (forall v, w :: 0 <= v < w < |ws| && ws[v].Busy() && ws[w].Busy() ==> ws[v].Idx() != ws[w].Idx())
  }

  // Every block read and not yet written is in exactly one place.
  ghost predicate Placed(ws: seq<Worker>, pending: seq<Packed>, lo: nat, hi: nat) {
    && (forall w :: 0 <= w < |ws| && ws[w].Busy() ==> !Waits(pending, ws[w].Idx()))
    && (forall i :: lo <= i < hi ==> Waits(pending, i) || Carried(ws, i))
  }

  ghost predicate Spread<T>(job: Job<T>, ws: seq<Worker>, pending: seq<Packed>, lo: nat, hi: nat) {
    Holding(job, ws, lo, hi) && Placed(ws, pending, lo, hi)
  }

  ghost predicate Packs<T>(job: Job<T>, p: Packed) {
    p.b.idx < |job.plan.chunks| && CanPack(job, p.b.idx) && p == PackAt(job, p.b.idx)
  }

  lemma {:induction false} QueuedInsert<T>(job: Job<T>, s: seq<Packed>, s': seq<Packed>, p: Packed, lo: nat, hi: nat)
    requires Queued(job, s, lo, hi) && Ordered(s') && Inserts(s, s', p) && lo <= p.b.idx < hi && Packs(job, p)
    ensures Queued(job, s', lo, hi)
  {
    hide Packs;
    var i :| 0 <= i <= |s| && s' == s[..i] + [p] + s[i..];
    assert forall j :: 0 <= j < |s'| ==> s'[j] == if j < i then s[j] else if j == i then p else s[j - 1];
  }

  lemma {:induction false} SpreadNone<T>(job: Job<T>, ws: seq<Worker>)
    requires forall w :: 0 <= w < |ws| ==> ws[w] == Ready
    ensures Spread(job, ws, [], 0, 0)
  {
  }

  // A thread changes what it does; CarriedUpdate tells which blocks are carried after that.
  lemma {:induction false} CarriedUpdate(ws: seq<Worker>, w: nat, v: Worker, i: nat)
    requires w < |ws|
    ensures Carried(ws[w := v], i) ==> Carried(ws, i) || (v.Busy() && v.Idx() == i)
    ensures v.Busy() && v.Idx() == i ==> Carried(ws[w := v], i)
    ensures Carried(ws, i) && !(ws[w].Busy() && ws[w].Idx() == i) ==> Carried(ws[w := v], i)
  {
    var ws' := ws[w := v];
    assert ws'[w] == v;
    if u :| 0 <= u < |ws| && ws[u].Busy() && ws[u].Idx() == i {
      assert u != w ==> ws'[u] == ws[u];
    }
    if u :| 0 <= u < |ws| && ws'[u].Busy() && ws'[u].Idx() == i {
      assert u != w ==> ws[u] == ws'[u];
    }
  }

  lemma {:induction false} SpreadIdle<T>(job: Job<T>, ws: seq<Worker>, w: nat, v: Worker, pending: seq<Packed>, lo: nat, hi: nat)
    requires Spread(job, ws, pending, lo, hi) && w < |ws| && !ws[w].Busy() && !v.Busy()
    ensures Spread(job, ws[w := v], pending, lo, hi)
  {
    hide BlockAt, Packs, Carried;
    forall i | lo <= i < hi ensures Carried(ws, i) ==> Carried(ws[w := v], i) {
      CarriedUpdate(ws, w, v, i);
    }
  }

  lemma {:induction false} SpreadRead<T>(job: Job<T>, ws: seq<Worker>, w: nat, pending: seq<Packed>, lo: nat, hi: nat)
    requires Spread(job, ws, pending, lo, hi) && w < |ws| && ws[w] == Ready && hi < |job.plan.chunks|
    requires Queued(job, pending, lo, hi)
    ensures Spread(job, ws[w := Read(BlockAt(job, hi))], pending, lo, hi + 1)
  {
    hide BlockAt, Packs, Carried;
    BlockIdx(job, hi);
    var ws' := ws[w := Read(BlockAt(job, hi))];
    forall i | lo <= i < hi + 1 ensures Waits(pending, i) || Carried(ws', i) {
      CarriedUpdate(ws, w, Read(BlockAt(job, hi)), i);
    }
  }

  lemma {:induction false} BlockIdx<T>(job: Job<T>, i: nat)
    requires i < |job.plan.chunks|
    ensures BlockAt(job, i).idx == i && PackAt(job, i).b == BlockAt(job, i)
  {
  }

  lemma {:induction false} SpreadAt<T>(job: Job<T>, ws: seq<Worker>, w: nat, pending: seq<Packed>, lo: nat, hi: nat)
    requires Spread(job, ws, pending, lo, hi) && w < |ws| && ws[w].Busy()
    ensures lo <= ws[w].Idx() < hi <= |job.plan.chunks| && !Waits(pending, ws[w].Idx())
    ensures ws[w].Read? ==> ws[w].b == BlockAt(job, ws[w].b.idx)
    ensures ws[w].Compressed? ==> Packs(job, ws[w].p)
  {
  }

  lemma {:induction false} CannotPack<T>(job: Job<T>, i: nat)
    requires i < |job.plan.chunks| && PackOf(job.comp, job.bufferSectors * SECTOR_SIZE, BlockAt(job, i)).None?
    ensures !AllPack(job)
  {
    assert !CanPack(job, i);
  }

  lemma {:induction false} PackedAt<T>(job: Job<T>, i: nat)
    requires i < |job.plan.chunks| && PackOf(job.comp, job.bufferSectors * SECTOR_SIZE, BlockAt(job, i)).Some?
    ensures PackOf(job.comp, job.bufferSectors * SECTOR_SIZE, BlockAt(job, i)).value.b.idx == i
    ensures Packs(job, PackOf(job.comp, job.bufferSectors * SECTOR_SIZE, BlockAt(job, i)).value)
  {
    hide SectorsBefore, KeepAfter, Pad;
  }

  lemma {:induction false} SpreadPacked<T>(job: Job<T>, ws: seq<Worker>, w: nat, p: Packed, pending: seq<Packed>, lo: nat, hi: nat)
    requires Spread(job, ws, pending, lo, hi) && w < |ws| && ws[w].Read? && p.b.idx == ws[w].b.idx && Packs(job, p)
    ensures Spread(job, ws[w := Compressed(p)], pending, lo, hi)
  {
    hide BlockAt, Packs, Carried;
    forall i | lo <= i < hi ensures Carried(ws, i) ==> Carried(ws[w := Compressed(p)], i) {
      CarriedUpdate(ws, w, Compressed(p), i);
    }
  }

  lemma {:induction false} WaitsInserted(s: seq<Packed>, s': seq<Packed>, p: Packed, i: nat)
    requires Inserts(s, s', p)
    ensures Waits(s', i) <==> Waits(s, i) || p.b.idx == i
  {
    var k :| 0 <= k <= |s| && s' == s[..k] + [p] + s[k..];
    assert s'[k] == p;
    if j :| 0 <= j < |s| && s[j].b.idx == i {
      assert s'[if j < k then j else j + 1] == s[j];
    }
    if j :| 0 <= j < |s'| && s'[j].b.idx == i {
      assert j != k ==> s'[j] == s[if j < k then j else j - 1];
    }
  }

  lemma {:induction false} SpreadQueued<T>(job: Job<T>, ws: seq<Worker>, w: nat, p: Packed, pending: seq<Packed>, s: seq<Packed>, lo: nat, hi: nat)
    requires Spread(job, ws, pending, lo, hi) && w < |ws| && ws[w] == Compressed(p) && Inserts(pending, s, p)
    ensures Spread(job, ws[w := Ready], s, lo, hi)
  {
    hide BlockAt, Packs, Carried, Waits, Inserts;
    var ws' := ws[w := Ready];
    forall i | lo <= i < hi ensures Waits(s, i) || Carried(ws', i) {
      CarriedUpdate(ws, w, Ready, i);
      WaitsInserted(pending, s, p, i);
    }
    forall u | 0 <= u < |ws'| && ws'[u].Busy() ensures !Waits(s, ws'[u].Idx()) {
      WaitsInserted(pending, s, p, ws'[u].Idx());
    }
  }

  lemma {:induction false} WaitsFlushed<T>(job: Job<T>, s: seq<Packed>, s': seq<Packed>, lo: nat, lo': nat, hi: nat, i: nat)
    requires Queued(job, s, lo, hi) && Flushed(s, s', lo, lo')
    ensures lo <= i < lo' ==> Waits(s, i) && i < hi
    ensures Waits(s', i) <==> Waits(s, i) && i >= lo'
  {
    hide Packs;
    var m := lo' - lo;
    if lo <= i < lo' {
      assert s[i - lo].b.idx == i;
    }
    if j :| 0 <= j < |s| && s[j].b.idx == i {
      assert j >= m ==> s'[j - m] == s[j];
      assert j >= m > 0 ==> s[m - 1].b.idx < s[j].b.idx;
    }
    if j :| 0 <= j < |s'| && s'[j].b.idx == i {
      assert s[j + m] == s'[j];
      assert m > 0 ==> s[m - 1].b.idx < s[j + m].b.idx;
    }
  }

  lemma {:induction false} SpreadFlushed<T>(job: Job<T>, ws: seq<Worker>, s: seq<Packed>, s': seq<Packed>, lo: nat, lo': nat, hi: nat)
    requires Spread(job, ws, s, lo, hi) && Queued(job, s, lo, hi) && Flushed(s, s', lo, lo')
    ensures Spread(job, ws, s', lo', hi)
  {
    hide BlockAt, Packs, Carried, Waits, Queued;
    WaitsFlushed(job, s, s', lo, lo', hi, if lo' > lo then lo' - 1 else lo);
    forall w | 0 <= w < |ws| && ws[w].Busy() ensures lo' <= ws[w].Idx() && !Waits(s', ws[w].Idx()) {
      WaitsFlushed(job, s, s', lo, lo', hi, ws[w].Idx());
    }
    forall i | lo' <= i < hi ensures Waits(s', i) || Carried(ws, i) {
      WaitsFlushed(job, s, s', lo, lo', hi, i);
    }
  }

  // All threads have returned: nothing waits and nothing was lost.
  lemma {:induction false} NothingLeft<T>(job: Job<T>, ws: seq<Worker>, pending: seq<Packed>, lo: nat, hi: nat)
    requires Spread(job, ws, pending, lo, hi) && Queued(job, pending, lo, hi)
    requires forall w :: 0 <= w < |ws| ==> ws[w].Finished?
    requires pending != [] ==> pending[0].b.idx != lo
    ensures lo == hi && pending == []
  {
    hide Waits, Packs, Ordered;
    assert lo < hi ==> Waits(pending, lo) || Carried(ws, lo);
    HeadIsLeast(job, pending, lo, hi);
    assert !Carried(ws, lo);
  }

  lemma {:induction false} HeadIsLeast<T>(job: Job<T>, pending: seq<Packed>, lo: nat, hi: nat)
    requires Queued(job, pending, lo, hi)
    ensures Waits(pending, lo) ==> pending != [] && pending[0].b.idx == lo
    ensures pending != [] ==> lo < hi
  {
    hide Packs;
    if pending != [] {
      assert lo <= pending[0].b.idx < hi && Packs(job, pending[0]);
    }
    if p :| 0 <= p < |pending| && pending[p].b.idx == lo {
      assert p > 0 ==> pending[0].b.idx < pending[p].b.idx;
    }
  }

  datatype ReadResult = NoMore | Short | Got(b: Block)

  class ThreadData<T> {
    const runBytes: nat
    const attribution: Attribution
    const compressor: Compressor
    const bufferSectors: nat
    const uncompressedChk: (T, Bytes) -> T
    const compressedChk: (T, Bytes) -> T
    // Under inMut.
    var inFile: File
    var bytesRemain: int
    var sectorsRead: nat
    var curRun: nat
    var curSector: nat
    var keepRaw: Keep
    var nextIn: Bytes
    // Under outMut.
    var out: File
    var runs: array<Run>
    var uncompressedToken: T
    var compressedToken: T
    var observed: seq<Packed>
    var nextPending: nat
    var pending: seq<Packed>

    ghost const job: Job<T>
    ghost var left: Bytes

    // insertBLKX before the threads start: room for two runs, the first block read ahead.
    constructor (out: File, inFile: File, bytes: int, chk1: (T, Bytes) -> T, token1: T, chk2: (T, Bytes) -> T, token2: T,
                 att: Attribution, comp: Compressor, runSectors: nat)
      requires runSectors > 0 && bytes >= READ_UNTIL_EOF
      requires inFile.pos <= |inFile.data| && out.pos == |out.data|
      ensures job == JobOf(out, inFile, bytes, chk1, token1, chk2, token2, att, comp, runSectors)
      ensures fresh(runs) && runs.Length == 2
      ensures ReadOk() && WriteOk() && curRun == nextPending == 0 && pending == []
    {
      runBytes := runSectors * SECTOR_SIZE;
      bufferSectors := comp.decompressBuffer(runSectors);
      if MIN_DECOMPRESS_BUFFER_SECTORS > comp.decompressBuffer(runSectors) {
        bufferSectors := MIN_DECOMPRESS_BUFFER_SECTORS;
      }
      attribution, compressor, uncompressedChk, compressedChk := att, comp, chk1, chk2;
      this.inFile, bytesRemain, sectorsRead, curRun, curSector, keepRaw := inFile, bytes, 0, 0, 0, KeepNoneRaw;
      this.out, uncompressedToken, compressedToken, observed, nextPending, pending := out, token1, token2, [], 0, [];
      runs := new Run[2];
      nextIn := [];
      job := JobOf(out, inFile, bytes, chk1, token1, chk2, token2, att, comp, runSectors);
      left := inFile.data[inFile.pos..];
      new;
      hide ReadTo, Written;
      ReadNext();
      JobStarts(job, runBytes, inFile, bytes, left);
      assert runs[..0] == [];
    }

    ghost predicate Settings() {
      && runBytes > 0 && attribution == job.att && compressor == job.comp && bufferSectors == job.bufferSectors
      && uncompressedChk == job.uncompressedChk && compressedChk == job.compressedChk
    }

    ghost predicate ReadOk()
      reads this
    {
      && Settings() && curSector == sectorsRead
      && ReadTo(job, runBytes, curRun, left, bytesRemain, nextIn, inFile, curSector, keepRaw)
    }

    ghost predicate WriteOk()
      reads this, runs
    {
      && Settings() && 2 <= runs.Length && nextPending <= runs.Length
      && Written(job, nextPending, out, runs[..nextPending], uncompressedToken, compressedToken, observed)
    }

    method ReadNext()
      modifies this`nextIn, this`inFile
      ensures nextIn == old(inFile).Got(NextReadSize(bytesRemain, runBytes))
      ensures inFile == old(inFile).AfterRead(NextReadSize(bytesRemain, runBytes))
    {
      var readSize := NextReadSize(bytesRemain, runBytes);
      if readSize > 0 {
        nextIn := inFile.Got(readSize);
        inFile := inFile.AfterRead(readSize);
      } else {
        nextIn := [];
      }
    }

    // blockRead, under inMut.  Short is the failed ASSERT: the process exits.
    method BlockRead() returns (r: ReadResult)
      requires ReadOk()
      modifies this`left, this`nextIn, this`inFile, this`bytesRemain, this`curSector, this`sectorsRead, this`curRun, this`keepRaw
      ensures r.NoMore? ==> ReadOk() && curRun == old(curRun) == |job.plan.chunks| && !job.plan.short
      ensures r.Short? ==> job.plan.short && curRun == old(curRun)
      ensures r.Got? ==> ReadOk() && curRun == old(curRun) + 1 && r.b == BlockAt(job, old(curRun))
    {
      hide ReadTo, Have, NextReadSize, Pad, DivCeil, KeepAfter, NextKeep, IsRaw, BlockAt;
      ReadEnds(job, runBytes, curRun, left, bytesRemain, nextIn, inFile, curSector, keepRaw);
      var haveBytes := |nextIn|;
      var wantBytes := NextReadSize(bytesRemain, runBytes);
      if wantBytes == 0 {
        return NoMore;
      } else if haveBytes != wantBytes {
        if bytesRemain != READ_UNTIL_EOF {
          return Short;
        }
        if haveBytes == 0 {
          return NoMore;
        }
      }
      ReadOne(job, runBytes, curRun, left, bytesRemain, nextIn, inFile, curSector, keepRaw);
      ReadAt(job, runBytes, curRun, left, bytesRemain, nextIn, inFile, curSector, keepRaw);
      var sectorCount := DivCeil(haveBytes, SECTOR_SIZE);
      var b := Block(curRun, curSector, sectorCount, false, Pad(nextIn));
      curSector := curSector + sectorCount;
      if bytesRemain != READ_UNTIL_EOF {
        bytesRemain := bytesRemain - haveBytes;
      }
      sectorsRead := sectorsRead + sectorCount;
      curRun := curRun + 1;
      left := left[haveBytes..];
      ReadNext();
      var raw := UpdateKeepRaw(b.inbuf);
      return Got(b.(keepRaw := raw));
    }

    // The attribution part of blockRead: one step of the keepRaw states.
    method UpdateKeepRaw(data: Bytes) returns (raw: bool)
      modifies this`keepRaw
      ensures keepRaw == NextKeep(attribution, old(keepRaw), data, nextIn)
      ensures raw == IsRaw(attribution, keepRaw)
    {
      raw := false;
      if attribution.Attribution? {
        // Nothing found yet: keep searching.
        if keepRaw == KeepNoneRaw {
          keepRaw := attribution.shouldKeepRaw(data, nextIn);
        } else if keepRaw == KeepCurrentAndNextRaw {
          keepRaw := KeepCurrentRaw;
        } else if keepRaw == KeepCurrentRaw {
          keepRaw := KeepRemainingRaw;
        }
        raw := keepRaw == KeepCurrentRaw || keepRaw == KeepCurrentAndNextRaw;
      }
    }

    // blockCompress, outside any lock.
    method BlockCompress(b: Block) returns (ok: bool, p: Packed)
      ensures ok <==> PackOf(compressor, bufferSectors * SECTOR_SIZE, b).Some?
      ensures ok ==> p == PackOf(compressor, bufferSectors * SECTOR_SIZE, b).value
    {
      var outbuf := [];
      p := Packed(b, BLOCK_IGNORE, []);
      if !b.keepRaw {
        var o := compressor.compress(b.inbuf, bufferSectors * SECTOR_SIZE);
        if o.None? {
          return false, p;
        }
        outbuf := o.value;
      }
      if b.keepRaw || |outbuf| / SECTOR_SIZE >= Minus15(b.sectorCount) {
        p := Packed(b, BLOCK_RAW, b.inbuf);
      } else {
        p := Packed(b, compressor.blockType, outbuf);
      }
      ok := true;
    }

    // realloc to twice the room.
    method DoubleRuns()
      modifies this`runs
      ensures fresh(runs) && runs.Length == 2 * old(runs).Length
      ensures forall i :: 0 <= i < old(runs).Length ==> runs[i] == old(runs[i])
    {
      var more := new Run[2 * runs.Length];
      forall i | 0 <= i < runs.Length {
        more[i] := runs[i];
      }
      runs := more;
    }

    method BlockWrite(p: Packed)
      requires WriteOk() && nextPending < |job.plan.chunks| && Packs(job, p) && p.b.idx == nextPending
      modifies this`out, this`runs, this`uncompressedToken, this`compressedToken, this`observed, this`nextPending, runs
      ensures WriteOk() && nextPending == old(nextPending) + 1
      ensures runs == old(runs) || fresh(runs)
    {
      hide Written, PackAt, BlockAt, CanPack;
      WriteOne(job, nextPending, out, runs[..nextPending], uncompressedToken, compressedToken, observed, p);
      uncompressedToken := uncompressedChk(uncompressedToken, p.b.inbuf);
      compressedToken := compressedChk(compressedToken, p.outbuf);
      observed := observed + [p];
      var run := Run(p.typ, p.b.sectorStart, p.b.sectorCount, out.pos, |p.outbuf|);
      out := out.Write(p.outbuf);
      if p.b.idx >= runs.Length {
        DoubleRuns();
      }
      runs[p.b.idx] := run;
      assert runs[..p.b.idx + 1] == old(runs[..nextPending]) + [run];
      nextPending := nextPending + 1;
    }

    // blockQueue: into its place in the ordered list.
    method BlockQueue(p: Packed)
      requires Ordered(pending) && !Waits(pending, p.b.idx)
      modifies this`pending
      ensures Ordered(pending)
      ensures Inserts(old(pending), pending, p)
    {
      var i := 0;
      while i < |pending| && pending[i].b.idx < p.b.idx
        invariant i <= |pending|
        invariant forall j :: 0 <= j < i ==> pending[j].b.idx < p.b.idx
      {
        i := i + 1;
      }
      ghost var was := pending;
      pending := pending[..i] + [p] + pending[i..];
      forall j, k | 0 <= j < k < |pending| ensures pending[j].b.idx < pending[k].b.idx {
        var a, b := if j < i then j else j - 1, if k < i then k else k - 1;
        assert j != i ==> pending[j] == was[a];
        assert k != i ==> pending[k] == was[b];
        assert k == i && j < i ==> was[j].b.idx < p.b.idx;
        assert j == i && i < |was| ==> was[i].b.idx != p.b.idx;
      }
    }

    // blockWriteAll: as long as the head of the list is the next block, write it.
    method BlockWriteAll(ghost hi: nat)
      requires WriteOk() && Queued(job, pending, nextPending, hi)
      modifies this`out, this`runs, this`uncompressedToken, this`compressedToken, this`observed, this`nextPending, this`pending, runs
      ensures WriteOk() && Queued(job, pending, nextPending, hi) && (runs == old(runs) || fresh(runs))
      ensures pending != [] ==> pending[0].b.idx != nextPending
      ensures Flushed(old(pending), pending, old(nextPending), nextPending)
    {
      hide Written, Queued, Flushed, Packs, PackAt, BlockAt;
      ghost var s, lo := pending, nextPending;
      FlushedNone(s, lo);
      while |pending| > 0 && pending[0].b.idx == nextPending
        invariant WriteOk() && Queued(job, pending, nextPending, hi) && (runs == old(runs) || fresh(runs))
        invariant Flushed(s, pending, lo, nextPending)
        decreases |pending|
      {
        var head := pending[0];
        FlushedOne(job, s, pending, lo, nextPending, hi);
        BlockWrite(head);
        pending := pending[1..];
      }
    }

    // blockQueueAndWrite, under outMut.
    method BlockQueueAndWrite(p: Packed, ghost hi: nat)
      requires WriteOk() && Queued(job, pending, nextPending, hi)
      requires nextPending <= p.b.idx < hi && Packs(job, p) && !Waits(pending, p.b.idx)
      modifies this`out, this`runs, this`uncompressedToken, this`compressedToken, this`observed, this`nextPending, this`pending, runs
      ensures WriteOk() && Queued(job, pending, nextPending, hi) && (runs == old(runs) || fresh(runs))
      ensures pending != [] ==> pending[0].b.idx != nextPending
      ensures exists s :: Inserts(old(pending), s, p) && Queued(job, s, old(nextPending), hi)
                && Flushed(s, pending, old(nextPending), nextPending)
    {
      hide Written, Packs, PackAt, BlockAt, Flushed;
      ghost var was := pending;
      BlockQueue(p);
      QueuedInsert(job, was, pending, p, nextPending, hi);
      BlockWriteAll(hi);
    }
  }

  lemma {:induction false} FullyRead<T>(job: Job<T>, runBytes: nat, n: nat, left: Bytes, bytesRemain: int, nextIn: Bytes, inFile: File,
                                        curSector: nat, keepRaw: Keep)
    requires ReadTo(job, runBytes, n, left, bytesRemain, nextIn, inFile, curSector, keepRaw)
    ensures n <= |job.plan.chunks| && curSector == SectorsBefore(job.plan.chunks, n)
  {
  }

  lemma {:induction false} AllSequential<T>(job: Job<T>, firstSectorNumber: nat, r: Inserted<T>, runs: seq<Run>)
    requires Written(job, |job.plan.chunks|, r.out, runs, r.token1, r.token2, r.observed)
    requires r.blkx == BlkxTable(firstSectorNumber, SectorsBefore(job.plan.chunks, |job.plan.chunks|), 0, r.blkx.bufferSectors,
                                 |job.plan.chunks| + 1, runs + [Run(BLOCK_TERMINATOR, r.blkx.sectorCount, 0, r.out.pos, 0)])
    requires r.blkx.bufferSectors == job.bufferSectors
    ensures AllPack(job) && IsSequential(job, firstSectorNumber, r)
  {
    hide CanPack, RunAt, PackAt;
  }

  // Between the steps of the threads: both sides are in order and every block is in its one place.
  ghost predicate Running<T>(td: ThreadData<T>, ws: seq<Worker>)
    reads td, td.runs
  {
    && td.ReadOk() && td.WriteOk()
    && Queued(td.job, td.pending, td.nextPending, td.curRun)
    && Spread(td.job, ws, td.pending, td.nextPending, td.curRun)
    && (td.pending != [] ==> td.pending[0].b.idx != td.nextPending)
    && (forall w :: 0 <= w < |ws| && ws[w].Finished? ==> td.curRun == |td.job.plan.chunks| && !td.job.plan.short)
  }

  // What a run has still to do.
  ghost function ToDo<T>(td: ThreadData<T>, ws: seq<Worker>): int
    reads td
  {
    4 * (|td.job.plan.chunks| - td.curRun) + Ranks(ws)
  }

  // Thread w is about to read.
  method StepRead<T>(td: ThreadData<T>, ws: seq<Worker>, w: nat) returns (ok: bool, ws': seq<Worker>)
    requires Running(td, ws) && w < |ws| && ws[w] == Ready
    modifies td
    ensures td.runs == old(td.runs) && |ws'| == |ws|
    ensures ok ==> Running(td, ws') && ToDo(td, ws') < old(ToDo(td, ws))
    ensures !ok ==> td.job.plan.short
  {
    hide ReadTo, Written, Spread, Queued, Ranks, BlockAt;
    ghost var job, lo, hi := td.job, td.nextPending, td.curRun;
    var got := td.BlockRead();
    match got {
      case NoMore =>
        SpreadIdle(job, ws, w, Finished, td.pending, lo, hi);
        RanksUpdate(ws, w, Finished);
        return true, ws[w := Finished];
      case Short =>
        return false, ws;
      case Got(b) =>
        InJob(td);
        SpreadRead(job, ws, w, td.pending, lo, hi);
        QueuedMore(job, td.pending, lo, hi);
        RanksUpdate(ws, w, Read(b));
        return true, ws[w := Read(b)];
    }
  }

  lemma {:induction false} InJob<T>(td: ThreadData<T>)
    requires td.ReadOk()
    ensures td.curRun <= |td.job.plan.chunks|
  {
  }

  lemma {:induction false} QueuedMore<T>(job: Job<T>, s: seq<Packed>, lo: nat, hi: nat)
    requires Queued(job, s, lo, hi) && hi < |job.plan.chunks|
    ensures Queued(job, s, lo, hi + 1)
  {
  }

  // Thread w is about to compress.
  method StepCompress<T>(td: ThreadData<T>, ws: seq<Worker>, w: nat) returns (ok: bool, ws': seq<Worker>)
    requires Running(td, ws) && w < |ws| && ws[w].Read?
    ensures |ws'| == |ws|
    ensures ok ==> Running(td, ws') && ToDo(td, ws') < ToDo(td, ws)
    ensures !ok ==> !AllPack(td.job)
  {
    hide ReadTo, Written, Spread, Queued, Ranks, BlockAt, Packs, PackOf, AllPack;
    SpreadAt(td.job, ws, w, td.pending, td.nextPending, td.curRun);
    var b := ws[w].b;
    var p;
    ok, p := td.BlockCompress(b);
    if !ok {
      CannotPack(td.job, b.idx);
      return false, ws;
    }
    PackedAt(td.job, b.idx);
    SpreadPacked(td.job, ws, w, p, td.pending, td.nextPending, td.curRun);
    RanksUpdate(ws, w, Compressed(p));
    ws' := ws[w := Compressed(p)];
  }

  // Thread w is about to queue its block and write what has become due.
  method StepWrite<T>(td: ThreadData<T>, ws: seq<Worker>, w: nat) returns (ws': seq<Worker>)
    requires Running(td, ws) && w < |ws| && ws[w].Compressed?
    modifies td, td.runs
    ensures Running(td, ws') && ToDo(td, ws') < old(ToDo(td, ws)) && |ws'| == |ws|
    ensures td.runs == old(td.runs) || fresh(td.runs)
  {
    hide ReadTo, Written, Spread, Queued, Ranks, BlockAt, Packs, Waits, Inserts, Flushed;
    ghost var job, was, lo, hi := td.job, td.pending, td.nextPending, td.curRun;
    SpreadAt(job, ws, w, was, lo, hi);
    var p := ws[w].p;
    td.BlockQueueAndWrite(p, hi);
    ghost var s :| Inserts(was, s, p) && Queued(job, s, lo, hi) && Flushed(s, td.pending, lo, td.nextPending);
    SpreadQueued(job, ws, w, p, was, s, lo, hi);
    SpreadFlushed(job, ws[w := Ready], s, td.pending, lo, td.nextPending, hi);
    RanksUpdate(ws, w, Ready);
    ws' := ws[w := Ready];
  }

  // insertBLKX with any number of threads, run in any order: each step picks any thread that has not
  // returned.  None stands for the exit of a failed ASSERT.
  method InsertBLKX<T>(out: File, inFile: File, firstSectorNumber: nat, bytes: int, chk1: (T, Bytes) -> T, token1: T,
                       chk2: (T, Bytes) -> T, token2: T, att: Attribution, comp: Compressor, runSectors: nat, nthreads: nat)
    returns (r: Option<Inserted<T>>)
    requires runSectors > 0 && nthreads > 0 && bytes >= READ_UNTIL_EOF
    requires inFile.pos <= |inFile.data| && out.pos == |out.data|
    ensures var job := JobOf(out, inFile, bytes, chk1, token1, chk2, token2, att, comp, runSectors);
      && (r.Some? <==> !job.plan.short && AllPack(job))
      && (r.Some? ==> IsSequential(job, firstSectorNumber, r.value))
  {
    hide AllPack, JobOf, IsSequential, ReadTo, Written, Spread, Queued;
    var td := new ThreadData(out, inFile, bytes, chk1, token1, chk2, token2, att, comp, runSectors);
    ghost var job := td.job;
    var ws := seq(nthreads, _ => Ready);
    SpreadNone(job, ws);
    QueuedNone(job);
    while exists w :: 0 <= w < |ws| && !ws[w].Finished?
      invariant td.job == job && Running(td, ws) && fresh(td) && fresh(td.runs) && |ws| == nthreads
      decreases ToDo(td, ws)
    {
      var w :| 0 <= w < |ws| && !ws[w].Finished?;
      var ok := true;
      InJob(td);
      match ws[w] {
        case Ready =>
          ok, ws := StepRead(td, ws, w);
        case Read(_) =>
          ok, ws := StepCompress(td, ws, w);
        case Compressed(_) =>
          ws := StepWrite(td, ws, w);
      }
      if !ok {
        return None;
      }
    }
    assert ws[0].Finished?;
    NothingLeft(job, ws, td.pending, td.nextPending, td.curRun);
    ghost var runs := td.runs[..td.nextPending];
    FullyRead(job, td.runBytes, td.curRun, td.left, td.bytesRemain, td.nextIn, td.inFile, td.curSector, td.keepRaw);
    if td.curRun >= td.runs.Length {
      td.DoubleRuns();
    }
    td.runs[td.curRun] := Run(BLOCK_TERMINATOR, td.curSector, 0, td.out.pos, 0);
    assert td.runs[..td.curRun + 1] == runs + [Run(BLOCK_TERMINATOR, td.curSector, 0, td.out.pos, 0)];
    var blkx := BlkxTable(firstSectorNumber, td.sectorsRead, 0, td.bufferSectors, td.curRun + 1, td.runs[..td.curRun + 1]);
    r := Some(Inserted(blkx, td.out, td.uncompressedToken, td.compressedToken, td.observed));
    AllSequential(job, firstSectorNumber, r.value, runs);
  }

  lemma {:induction false} QueuedNone<T>(job: Job<T>)
    ensures Queued(job, [], 0, 0)
  {
  }
}
