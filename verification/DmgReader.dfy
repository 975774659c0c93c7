/**
  The two readers of what the DMG writer makes: extractBLKX of dmg/io.c, which
  writes a partition out again, and the one-run cache of dmg/dmgfile.c.
 */
module DmgReader {
  import opened Common
  import opened DmgFormat
  import opened DmgWriter

  // decompressRun: a result of another size than expected is a failure.
  function DecompressRun(decompress: Decompressor, typ: nat, data: Bytes, expected: nat): Option<Bytes> {
    var r := decompress(typ, data, expected);
    if r.Some? && |r.value| == expected then r else None
  }

  /* ----- What the writer's runs hold ----- */

  // The padded blocks up to block i, and the whole of them.
  function PadsUpTo(chunks: seq<Bytes>, i: nat): (r: Bytes)
    requires i <= |chunks|
    ensures |r| == SectorsBefore(chunks, i) * SECTOR_SIZE
  {
    if i == 0 then [] else PadsUpTo(chunks, i - 1) + Pad(chunks[i - 1])
  }

  // A DMG file that starts with the writer's output; lists and checksums may follow.
  ghost predicate StartsWith(dmg: Bytes, out: Bytes) {
    |out| <= |dmg| && dmg[..|out|] == out
  }

  lemma {:induction false} AppendKeeps(x: Bytes, z: Bytes, a: nat, b: nat)
    requires a <= b <= |x|
    ensures (x + z)[a..b] == x[a..b]
  {
  }

  lemma {:induction false} AppendGives(x: Bytes, z: Bytes)
    ensures (x + z)[|x|..|x| + |z|] == z
  {
  }

  lemma {:induction false} OutParts<T>(job: Job<T>, i: nat, n: nat)
    requires i < n <= |job.plan.chunks|
    ensures |OutUpTo(job, i)| + |PackAt(job, i).outbuf| <= |OutUpTo(job, n)|
    ensures OutUpTo(job, n)[|OutUpTo(job, i)|..|OutUpTo(job, i)| + |PackAt(job, i).outbuf|] == PackAt(job, i).outbuf
  {
    hide PackAt;
    if i + 1 < n {
      OutParts(job, i, n - 1);
      var a, b := |OutUpTo(job, i)|, |OutUpTo(job, i)| + |PackAt(job, i).outbuf|;
      AppendKeeps(OutUpTo(job, n - 1), PackAt(job, n - 1).outbuf, a, b);
    }
  }

  // The bytes of a run are there, and decode to content of the run's size.
  ghost predicate Decodes(src: Bytes, run: Run, dataStart: nat, decompress: Decompressor, content: Bytes) {
    && run.compLength > 0 && run.sectorCount > 0 && |content| == run.sectorCount * SECTOR_SIZE
    && dataStart + run.compOffset + run.compLength <= |src|
    && (run.typ == BLOCK_RAW || !Plain(run.typ))
    && var data := src[dataStart + run.compOffset..dataStart + run.compOffset + run.compLength];
       if run.typ == BLOCK_RAW then data == content else DecompressRun(decompress, run.typ, data, |content|) == Some(content)
  }

  lemma {:induction false} SliceWithin(d: Bytes, a: Bytes, out: Bytes, o: nat, x: Bytes)
    requires StartsWith(d, a + out) && o + |x| <= |out| && out[o..o + |x|] == x
    ensures |a| + o + |x| <= |d| && d[|a| + o..|a| + o + |x|] == x
  {
    assert (a + out)[|a| + o..|a| + o + |x|] == out[o..o + |x|];
    assert d[..|a + out|][|a| + o..|a| + o + |x|] == d[|a| + o..|a| + o + |x|];
  }

  lemma {:induction false} DecodesIntro(src: Bytes, run: Run, decompress: Decompressor, outbuf: Bytes, content: Bytes)
    requires run.compLength == |outbuf| > 0 && run.sectorCount > 0 && |content| == run.sectorCount * SECTOR_SIZE
    requires run.compOffset + |outbuf| <= |src| && src[run.compOffset..run.compOffset + |outbuf|] == outbuf
    requires run.typ == BLOCK_RAW || !Plain(run.typ)
    requires if run.typ == BLOCK_RAW then outbuf == content else DecompressRun(decompress, run.typ, outbuf, |content|) == Some(content)
    ensures Decodes(src, run, 0, decompress, content)
  {
  }

  lemma {:induction false} RunParts<T>(job: Job<T>, i: nat)
    requires i < |job.plan.chunks|
    ensures var run, p := RunAt(job, i), PackAt(job, i);
      && run.typ == p.typ && run.sectorStart == p.b.sectorStart && run.sectorCount == p.b.sectorCount
      && run.compOffset == |job.out0| + |OutUpTo(job, i)| && run.compLength == |p.outbuf|
  {
  }

  lemma {:induction false} OutHere<T>(job: Job<T>, i: nat, dmg: Bytes, at: nat, outbuf: Bytes)
    requires i < |job.plan.chunks| && StartsWith(dmg, job.out0 + OutUpTo(job, |job.plan.chunks|))
    requires at == |job.out0| + |OutUpTo(job, i)| && outbuf == PackAt(job, i).outbuf
    ensures at + |outbuf| <= |dmg| && dmg[at..at + |outbuf|] == outbuf
  {
    hide *;
    OutParts(job, i, |job.plan.chunks|);
    SliceWithin(dmg, job.out0, OutUpTo(job, |job.plan.chunks|), |OutUpTo(job, i)|, PackAt(job, i).outbuf);
  }

  // Run i of the writer's table decodes to the padded block i.
  lemma {:induction false} RunHolds<T>(job: Job<T>, i: nat, dmg: Bytes, decompress: Decompressor)
    requires i < |job.plan.chunks| && CanPack(job, i) && job.plan.chunks[i] != [] && Inverse(job.comp, decompress)
    requires StartsWith(dmg, job.out0 + OutUpTo(job, |job.plan.chunks|))
    ensures Decodes(dmg, RunAt(job, i), 0, decompress, Pad(job.plan.chunks[i]))
    ensures RunAt(job, i).sectorStart == SectorsBefore(job.plan.chunks, i)
  {
    hide *;
    RunParts(job, i);
    PackedIs(job, i, decompress);
    OutHere(job, i, dmg, RunAt(job, i).compOffset, PackAt(job, i).outbuf);
    DecodesIntro(dmg, RunAt(job, i), decompress, PackAt(job, i).outbuf, Pad(job.plan.chunks[i]));
  }

  lemma {:induction false} PackedIs<T>(job: Job<T>, i: nat, decompress: Decompressor)
    requires i < |job.plan.chunks| && CanPack(job, i) && job.plan.chunks[i] != [] && Inverse(job.comp, decompress)
    ensures var p, pad := PackAt(job, i), Pad(job.plan.chunks[i]);
      && p.outbuf != [] && pad != [] && p.b.sectorCount > 0 && p.b.sectorCount * SECTOR_SIZE == |pad|
      && p.b.sectorStart == SectorsBefore(job.plan.chunks, i)
      && (p.typ == BLOCK_RAW || !Plain(p.typ))
      && if p.typ == BLOCK_RAW then p.outbuf == pad else DecompressRun(decompress, p.typ, p.outbuf, |pad|) == Some(pad)
  {
    hide SectorsBefore, KeepAfter;
    var b := BlockAt(job, i);
    assert b.inbuf == Pad(job.plan.chunks[i]) && b.inbuf[..|job.plan.chunks[i]|] == job.plan.chunks[i];
  }

  lemma {:induction false} PadsFront(chunks: seq<Bytes>, i: nat)
    requires 1 <= i <= |chunks|
    ensures PadsUpTo(chunks, i) == Pad(chunks[0]) + PadsUpTo(chunks[1..], i - 1)
  {
    hide Pad;
    if i > 1 {
      PadsFront(chunks, i - 1);
      assert chunks[1..][i - 2] == chunks[i - 1];
    } else {
      assert PadsUpTo(chunks, 0) == [] && PadsUpTo(chunks[1..], 0) == [];
    }
  }

  lemma {:induction false} PadHead(data: Bytes, n: nat)
    requires n <= |data| && n % SECTOR_SIZE == 0
    ensures Pad(data[..n]) == data[..n]
    ensures Pad(data) == data[..n] + Pad(data[n..])
  {
    var k := n / SECTOR_SIZE;
    assert n == k * SECTOR_SIZE && |data| == (|data| - n) + k * SECTOR_SIZE;
    DivShift(|data| - n, k);
    DivShift(0, k);
    assert data[..n] + data[n..] == data;
  }

  lemma {:induction false} DivShift(a: nat, k: nat)
    ensures DivCeil(a + k * SECTOR_SIZE, SECTOR_SIZE) == DivCeil(a, SECTOR_SIZE) + k
  {
    assert (a + k * SECTOR_SIZE) / SECTOR_SIZE == a / SECTOR_SIZE + k;
    assert (a + k * SECTOR_SIZE) % SECTOR_SIZE == a % SECTOR_SIZE;
  }

  // All blocks but the last are whole sectors, so the padding only falls on the end of the input.
  lemma {:induction false} PadsAreInput(data: Bytes, n: nat)
    requires n > 0 && n % SECTOR_SIZE == 0
    ensures PadsUpTo(Chunks(data, n), |Chunks(data, n)|) == Pad(data)
    decreases |data|
  {
    hide Pad;
    var c := Chunks(data, n);
    if data == [] {
      assert Pad(data)[..0] == [] && |Pad(data)| == 0;
    } else {
      PadsFront(c, |c|);
      var m := Min(n, |data|);
      assert c[0] == data[..m] && c[1..] == Chunks(data[m..], n);
      PadsAreInput(data[m..], n);
      if n <= |data| {
        PadHead(data, n);
      } else {
        assert data[..m] == data && data[m..] == [];
        assert |Pad([])| == 0;
      }
    }
  }

  /* ----- extractBLKX ----- */

  const DEFAULT_BUFFER_SIZE: nat := 0x10_0000

  lemma {:induction false} GotMore(f: File, a: nat, b: nat, c: nat)
    requires |f.Got(a)| == a && a + b <= c
    ensures |f.AfterRead(a).Got(b)| != b ==> |f.Got(c)| != c
    ensures |f.AfterRead(a).Got(b)| == b ==>
      && f.Got(a) + f.AfterRead(a).Got(b) == f.Got(a + b) && |f.Got(a + b)| == a + b
      && f.AfterRead(a).AfterRead(b) == f.AfterRead(a + b)
  {
    if f.pos <= |f.data| {
      assert f.pos + a <= |f.data|;
      if f.pos + a + b <= |f.data| {
        TwoSlices(f.data, f.pos, a, a + b);
      }
    }
  }

  // A raw run longer than the buffer is copied page by page.
  method CopyPages(inFile: File, out: File, length: nat) returns (ok: bool, inFile': File, out': File)
    ensures ok <==> |inFile.Got(length)| == length
    ensures ok ==> out' == out.Write(inFile.Got(length)) && inFile' == inFile.AfterRead(length)
  {
    hide File.Got, Overwrite;
    NoBytes(inFile, out);
    inFile', out' := inFile, out;
    var left := length;
    while left > 0
      invariant 0 <= left <= length
      invariant |inFile.Got(length - left)| == length - left
      invariant inFile' == inFile.AfterRead(length - left)
      invariant out' == out.Write(inFile.Got(length - left))
    {
      var thisRead := if left > DEFAULT_BUFFER_SIZE then DEFAULT_BUFFER_SIZE else left;
      var page := inFile'.Got(thisRead);
      GotMore(inFile, length - left, thisRead, length);
      if |page| != thisRead {
        return false, inFile', out';
      }
      OverwriteTwice(out.data, out.pos, inFile.Got(length - left), page);
      inFile' := inFile'.AfterRead(thisRead);
      out' := out'.Write(page);
      left := left - thisRead;
    }
    ok := true;
  }

  lemma {:induction false} NoBytes(f: File, out: File)
    ensures f.Got(0) == [] && out.Write([]) == out
  {
  }

  // A compressed run is read into a buffer of this size.
  predicate Fits(run: Run, bufferSize: nat) {
    run.typ == BLOCK_RAW || run.compLength <= bufferSize
  }

  // The run types of the format, by number.
  lemma {:induction false} TypesByNumber(src: Bytes, run: Run, bufferSize: nat, decompress: Decompressor)
    requires run.compLength > 0
    ensures run.typ in {2, 0x7FFF_FFFE, 0xFFFF_FFFF} ==> RunContent(src, 0, run, bufferSize, decompress) == Some([])
    ensures run.typ == 1 && run.compOffset + run.compLength <= |src| ==>
      RunContent(src, 0, run, bufferSize, decompress) == Some(src[run.compOffset..run.compOffset + run.compLength])
    ensures run.typ in {0, 2, 0x7FFF_FFFE, 0xFFFF_FFFF} ==> RunBytes(src, 0, run, decompress) == Some(Zeros(run.sectorCount * 512))
  {
  }

  // What a run puts into the output: nothing, its bytes, or what they decompress to.  None stands for the exit of a
  // failed ASSERT, and for a compressed run that would pass the end of the buffer.
  function RunContent(src: Bytes, dataStart: nat, run: Run, bufferSize: nat, decompress: Decompressor): Option<Bytes> {
    if run.typ == BLOCK_TERMINATOR || run.compLength == 0 || run.typ == BLOCK_IGNORE || run.typ == BLOCK_COMMENT then Some([])
    else if dataStart + run.compOffset + run.compLength > |src| then None
    else
      var data := src[dataStart + run.compOffset..dataStart + run.compOffset + run.compLength];
      if run.typ == BLOCK_RAW then Some(data)
      else if run.compLength > bufferSize then None
      else DecompressRun(decompress, run.typ, data, run.sectorCount * SECTOR_SIZE)
  }

  // The output behind a run whose sectors go from a place to an end: its content from the place on, a zero in the last
  // byte of the sectors if the content does not reach it, zeros where the output was shorter, and the old bytes elsewhere.
  function Landed(data: Bytes, place: nat, end: nat, content: Bytes): (r: Bytes)
    requires place <= end
    ensures |r| == Max(|data|, Max(if end > place then end else 0, if content != [] then place + |content| else 0))
    ensures forall i :: 0 <= i < |r| ==> r[i] == LandedAt(data, place, end, content, i)
  {
    seq(Max(|data|, Max(if end > place then end else 0, if content != [] then place + |content| else 0)),
        i requires 0 <= i => LandedAt(data, place, end, content, i))
  }

  function LandedAt(data: Bytes, place: nat, end: nat, content: Bytes, i: nat): bv8
    requires place <= end
  {
    if place <= i < place + |content| then content[i - place]
    else if end > place && i == end - 1 then 0
    else if i < |data| then data[i] else 0
  }

  function Place(base: nat, sector: nat): nat { base + sector * SECTOR_SIZE }

  // A zero at the end of the sectors, then the content.
  lemma {:induction false} TwoWrites(data: Bytes, place: nat, end: nat, content: Bytes)
    requires place <= end
    ensures Overwrite(if end > place then Overwrite(data, end - 1, [0]) else data, place, content) == Landed(data, place, end, content)
  {
    hide Overwrite, Landed;
    var d := if end > place then Overwrite(data, end - 1, [0]) else data;
    if end > place {
      OverwriteAt(data, end - 1, [0]);
    }
    OverwriteAt(d, place, content);
    NothingOver(d, place);
    var x, y := Overwrite(d, place, content), Landed(data, place, end, content);
    assert |x| == |y|;
    forall i | 0 <= i < |x| ensures x[i] == y[i] {
    }
  }

  lemma {:induction false} NothingOver(d: Bytes, place: nat)
    ensures Overwrite(d, place, []) == d
  {
  }

  lemma {:induction false} PlacesRise(base: nat, run: Run)
    ensures Place(base, run.sectorStart) <= Place(base, run.sectorStart + run.sectorCount)
    ensures run.sectorCount > 0 <==> Place(base, run.sectorStart + run.sectorCount) > Place(base, run.sectorStart)
    ensures Place(base, run.sectorStart + run.sectorCount) - Place(base, run.sectorStart) == run.sectorCount * SECTOR_SIZE
  {
  }

  // One pass of the loop: None where the code exits or would pass the end of its buffer.
  method ExtractRun(inFile: File, out: File, run: Run, dataStart: nat, initialOffset: nat, bufferSize: nat, decompress: Decompressor)
    returns (r: Option<(File, File)>)
    requires run.typ != BLOCK_TERMINATOR
    ensures r.Some? <==> RunContent(inFile.data, dataStart, run, bufferSize, decompress).Some?
    ensures Place(initialOffset, run.sectorStart) <= Place(initialOffset, run.sectorStart + run.sectorCount)
    ensures r.Some? ==> r.value.0.data == inFile.data
    ensures r.Some? ==> Landed(out.data, Place(initialOffset, run.sectorStart), Place(initialOffset, run.sectorStart + run.sectorCount),
      RunContent(inFile.data, dataStart, run, bufferSize, decompress).value) == r.value.1.data
  {
    hide Overwrite, DecompressRun, Landed;
    PlacesRise(initialOffset, run);
    var content := RunContent(inFile.data, dataStart, run, bufferSize, decompress);
    ghost var place, end := Place(initialOffset, run.sectorStart), Place(initialOffset, run.sectorStart + run.sectorCount);
    TwoWrites(out.data, place, end, if content.Some? then content.value else []);
    NothingOver(if end > place then Overwrite(out.data, end - 1, [0]) else out.data, place);
    var src, dst := inFile.Seek(dataStart + run.compOffset), out.Seek(initialOffset + run.sectorStart * SECTOR_SIZE);
    if run.sectorCount > 0 {
      dst := dst.Seek(initialOffset + (run.sectorStart + run.sectorCount) * SECTOR_SIZE - 1);
      dst := dst.Write([0]);
      dst := dst.Seek(initialOffset + run.sectorStart * SECTOR_SIZE);
    }
    if run.compLength == 0 {
      return Some((src, dst));
    }
    var data := src.Got(run.compLength);
    if run.typ == BLOCK_RAW {
      if run.compLength > bufferSize {
        var ok;
        ok, src, dst := CopyPages(src, dst, run.compLength);
        return if ok then Some((src, dst)) else None;
      }
      if |data| != run.compLength {
        return None;
      }
      return Some((src.AfterRead(run.compLength), dst.Write(data)));
    } else if run.typ == BLOCK_IGNORE || run.typ == BLOCK_COMMENT {
      return Some((src, dst));
    } else {
      var expectedSize := run.sectorCount * SECTOR_SIZE;
      if |data| != run.compLength || run.compLength > bufferSize {
        return None;
      }
      var plain := DecompressRun(decompress, run.typ, data, expectedSize);
      if plain.None? {
        return None;
      }
      return Some((src.AfterRead(run.compLength), dst.Write(plain.value)));
    }
  }

  // The runs up to the first terminator, and that one.
  ghost function RunsRead(t: BlkxTable, from: nat): (n: nat)
    requires from <= t.blocksRunCount <= |t.runs|
    ensures from <= n <= t.blocksRunCount
    decreases t.blocksRunCount - from
  {
    if from == t.blocksRunCount then from
    else if t.runs[from].typ == BLOCK_TERMINATOR then from + 1
    else RunsRead(t, from + 1)
  }

  // The output after the first runs of a table, None if one of them cannot be extracted.
  ghost function Extracted(src: Bytes, t: BlkxTable, decompress: Decompressor, data: Bytes, base: nat, n: nat): Option<Bytes>
    requires n <= |t.runs|
  {
    if n == 0 then Some(data)
    else
      var before, run := Extracted(src, t, decompress, data, base, n - 1), t.runs[n - 1];
      var content := RunContent(src, t.dataStart, run, SECTOR_SIZE * t.bufferSectors, decompress);
      if before.None? || content.None? then None
      else Some(Landed(before.value, Place(base, run.sectorStart), Place(base, run.sectorStart + run.sectorCount), content.value))
  }

  // extractBLKX, for every table.
  method ExtractBLKX(inFile: File, out: File, blkx: BlkxTable, decompress: Decompressor) returns (r: Option<File>)
    requires blkx.blocksRunCount <= |blkx.runs|
    ensures var e := Extracted(inFile.data, blkx, decompress, out.data, out.pos, RunsRead(blkx, 0));
      (r.Some? <==> e.Some?) && (r.Some? ==> r.value.data == e.value)
  {
    hide *;
    NoRuns(inFile.data, blkx, decompress, out.data, out.pos);
    AllRead(blkx);
    var bufferSize := SECTOR_SIZE * blkx.bufferSectors;
    var initialOffset := out.pos;
    var src, dst := inFile, out;
    var i := 0;
    while i < blkx.blocksRunCount
      invariant i <= blkx.blocksRunCount && src.data == inFile.data
      invariant RunsRead(blkx, 0) == RunsRead(blkx, i)
      invariant Extracted(inFile.data, blkx, decompress, out.data, out.pos, i) == Some(dst.data)
    {
      var run := blkx.runs[i];
      OneMoreRun(inFile.data, blkx, decompress, out.data, out.pos, i);
      if run.typ == BLOCK_TERMINATOR {
        src := src.Seek(blkx.dataStart + run.compOffset);
        dst := EndRun(dst, run, initialOffset);
        LastRead(blkx, i);
        i := i + 1;
        break;
      }
      NotLastRead(blkx, i);
      var step := ExtractRun(src, dst, run, blkx.dataStart, initialOffset, bufferSize, decompress);
      if step.None? {
        StaysNone(inFile.data, blkx, decompress, out.data, out.pos, i + 1, RunsRead(blkx, 0));
        return None;
      }
      src, dst := step.value.0, step.value.1;
      i := i + 1;
    }
    r := Some(dst);
  }

  // A terminator is looked at like a run, but has no bytes.
  method EndRun(out: File, run: Run, initialOffset: nat) returns (out': File)
    ensures Place(initialOffset, run.sectorStart) <= Place(initialOffset, run.sectorStart + run.sectorCount)
    ensures out'.data == Landed(out.data, Place(initialOffset, run.sectorStart), Place(initialOffset, run.sectorStart + run.sectorCount), [])
  {
    hide Overwrite, Landed;
    PlacesRise(initialOffset, run);
    ghost var place, end := Place(initialOffset, run.sectorStart), Place(initialOffset, run.sectorStart + run.sectorCount);
    TwoWrites(out.data, place, end, []);
    NothingOver(if end > place then Overwrite(out.data, end - 1, [0]) else out.data, place);
    out' := out.Seek(initialOffset + run.sectorStart * SECTOR_SIZE);
    if run.sectorCount > 0 {
      out' := out'.Seek(initialOffset + (run.sectorStart + run.sectorCount) * SECTOR_SIZE - 1);
      out' := out'.Write([0]);
      out' := out'.Seek(initialOffset + run.sectorStart * SECTOR_SIZE);
    }
  }

  lemma {:induction false} NoRuns(src: Bytes, t: BlkxTable, decompress: Decompressor, data: Bytes, base: nat)
    ensures Extracted(src, t, decompress, data, base, 0) == Some(data)
  {
  }

  lemma {:induction false} AllRead(t: BlkxTable)
    requires t.blocksRunCount <= |t.runs|
    ensures RunsRead(t, t.blocksRunCount) == t.blocksRunCount
  {
  }

  lemma {:induction false} LastRead(t: BlkxTable, i: nat)
    requires i < t.blocksRunCount <= |t.runs| && t.runs[i].typ == BLOCK_TERMINATOR
    ensures RunsRead(t, i) == i + 1
  {
  }

  lemma {:induction false} NotLastRead(t: BlkxTable, i: nat)
    requires i < t.blocksRunCount <= |t.runs| && t.runs[i].typ != BLOCK_TERMINATOR
    ensures RunsRead(t, i) == RunsRead(t, i + 1) >= i + 1
  {
  }

  lemma {:induction false} OneMoreRun(src: Bytes, t: BlkxTable, decompress: Decompressor, data: Bytes, base: nat, i: nat)
    requires i < |t.runs| && Extracted(src, t, decompress, data, base, i).Some?
    ensures var run := t.runs[i];
      var content := RunContent(src, t.dataStart, run, SECTOR_SIZE * t.bufferSectors, decompress);
      && Place(base, run.sectorStart) <= Place(base, run.sectorStart + run.sectorCount)
      && (run.typ == BLOCK_TERMINATOR ==> content == Some([]))
      && Extracted(src, t, decompress, data, base, i + 1) == if content.None? then None else
           Some(Landed(Extracted(src, t, decompress, data, base, i).value, Place(base, run.sectorStart), Place(base, run.sectorStart + run.sectorCount), content.value))
  {
    hide Landed, DecompressRun;
  }

  lemma {:induction false} StaysNone(src: Bytes, t: BlkxTable, decompress: Decompressor, data: Bytes, base: nat, n: nat, m: nat)
    requires n <= m <= |t.runs| && Extracted(src, t, decompress, data, base, n).None?
    ensures Extracted(src, t, decompress, data, base, m).None?
    decreases m
  {
    hide Landed, RunContent, Place;
    if n < m {
      StaysNone(src, t, decompress, data, base, n, m - 1);
    }
  }

  /* The writer's table. */

  lemma {:induction false} PlainTypes(typ: nat)
    ensures Plain(typ) <==> typ in {BLOCK_RAW, BLOCK_IGNORE, BLOCK_COMMENT, BLOCK_TERMINATOR, BLOCK_ZEROES}
  {
  }

  lemma {:induction false} ContentIs(src: Bytes, run: Run, dataStart: nat, bufferSize: nat, decompress: Decompressor, content: Bytes)
    requires Decodes(src, run, dataStart, decompress, content) && Fits(run, bufferSize)
    ensures RunContent(src, dataStart, run, bufferSize, decompress) == Some(content) && content != []
  {
    hide DecompressRun;
    PlainTypes(run.typ);
  }

  lemma {:induction false} LandsWhole(data: Bytes, place: nat, content: Bytes)
    requires content != []
    ensures Landed(data, place, place + |content|, content) == Overwrite(data, place, content)
  {
    TwoWrites(data, place, place + |content|, content);
    OverwriteCovers(data, place, content);
  }

  lemma {:induction false} LandsNothing(data: Bytes, place: nat)
    ensures Landed(data, place, place, []) == data
  {
    TwoWrites(data, place, place, []);
    NothingOver(data, place);
  }

  lemma {:induction false} ExtractsBlocks<T>(src: Bytes, data: Bytes, base: nat, t: BlkxTable, decompress: Decompressor, job: Job<T>, made: Inserted<T>, i: nat)
    requires Faithful(src, t, decompress, job, made) && i <= |job.plan.chunks|
    ensures i <= |t.runs|
    ensures Extracted(src, t, decompress, data, base, i) == Some(Overwrite(data, base, PadsUpTo(job.plan.chunks, i)))
  {
    hide *;
    FaithfulEnd(src, t, decompress, job, made);
    if i == 0 {
      NoRuns(src, t, decompress, data, base);
      NoPads(job.plan.chunks);
      NothingOver(data, base);
    } else {
      var j := i - 1;
      var run, content := t.runs[j], Pad(job.plan.chunks[j]);
      ExtractsBlocks(src, data, base, t, decompress, job, made, j);
      FaithfulRun(src, t, decompress, job, made, j);
      ContentIs(src, run, t.dataStart, SECTOR_SIZE * t.bufferSectors, decompress, content);
      OneMoreRun(src, t, decompress, data, base, j);
      DecodesSize(src, run, decompress, content);
      PlacesRise(base, run);
      PlaceIs(base, run.sectorStart);
      LandsWhole(Overwrite(data, base, PadsUpTo(job.plan.chunks, j)), Place(base, run.sectorStart), content);
      OverwriteTwice(data, base, PadsUpTo(job.plan.chunks, j), content);
      OneMorePad(job.plan.chunks, j);
    }
  }

  lemma {:induction false} PlaceIs(base: nat, sector: nat)
    ensures Place(base, sector) == base + sector * SECTOR_SIZE
  {
  }

  lemma {:induction false} DecodesSize(src: Bytes, run: Run, decompress: Decompressor, content: Bytes)
    requires Decodes(src, run, 0, decompress, content)
    ensures |content| == run.sectorCount * SECTOR_SIZE
  {
  }

  lemma {:induction false} NoPads(chunks: seq<Bytes>)
    ensures PadsUpTo(chunks, 0) == []
  {
  }

  lemma {:induction false} OneMorePad(chunks: seq<Bytes>, i: nat)
    requires i < |chunks|
    ensures PadsUpTo(chunks, i + 1) == PadsUpTo(chunks, i) + Pad(chunks[i])
  {
    hide Pad;
  }

  lemma {:induction false} BlocksRead<T>(src: Bytes, t: BlkxTable, decompress: Decompressor, job: Job<T>, made: Inserted<T>, i: nat)
    requires Faithful(src, t, decompress, job, made) && i <= |job.plan.chunks|
    ensures |t.runs| == t.blocksRunCount == |job.plan.chunks| + 1 && RunsRead(t, i) == |t.runs|
    decreases |job.plan.chunks| - i
  {
    hide *;
    FaithfulEnd(src, t, decompress, job, made);
    if i == |job.plan.chunks| {
      LastRead(t, i);
    } else {
      FaithfulRun(src, t, decompress, job, made, i);
      NotLastRead(t, i);
      BlocksRead(src, t, decompress, job, made, i + 1);
    }
  }

  lemma {:induction false} ExtractsWritten<T>(src: Bytes, data: Bytes, base: nat, t: BlkxTable, decompress: Decompressor, job: Job<T>, made: Inserted<T>)
    requires t.blocksRunCount <= |t.runs|
    ensures Faithful(src, t, decompress, job, made) ==>
      Extracted(src, t, decompress, data, base, RunsRead(t, 0)) == Some(Overwrite(data, base, PadsUpTo(job.plan.chunks, |job.plan.chunks|)))
  {
    hide *;
    if Faithful(src, t, decompress, job, made) {
      var n := |job.plan.chunks|;
      var d := Overwrite(data, base, PadsUpTo(job.plan.chunks, n));
      BlocksRead(src, t, decompress, job, made, 0);
      ExtractsBlocks(src, data, base, t, decompress, job, made, n);
      FaithfulEnd(src, t, decompress, job, made);
      OneMoreRun(src, t, decompress, data, base, n);
      LandsNothing(d, Place(base, t.runs[n].sectorStart));
    }
  }

  // On what insertBLKX made extractBLKX gives back the input, padded with zeros to whole sectors.
  method ExtractWritten<T>(inFile: File, out: File, blkx: BlkxTable, decompress: Decompressor, ghost job: Job<T>, ghost made: Inserted<T>)
    returns (r: Option<File>)
    requires blkx.blocksRunCount <= |blkx.runs|
    ensures Faithful(inFile.data, blkx, decompress, job, made) ==>
      r.Some? && r.value.data == Overwrite(out.data, out.pos, PadsUpTo(job.plan.chunks, |job.plan.chunks|))
  {
    hide *;
    ExtractsWritten(inFile.data, out.data, out.pos, blkx, decompress, job, made);
    r := ExtractBLKX(inFile, out, blkx, decompress);
  }

  /* The table of free space. */

  // writeFreePartition: one run without bytes, and the terminator.
  function FreeTable(first: nat, sectors: nat, place: nat): BlkxTable {
    BlkxTable(first, sectors, 0, 0, 2, [Run(BLOCK_IGNORE, 0, sectors, place, 0), Run(BLOCK_TERMINATOR, sectors, 0, place, 0)])
  }

  // Free space extracted into an empty file is as many zeros as its sectors have bytes.
  method ExtractFree(inFile: File, first: nat, sectors: nat, place: nat, decompress: Decompressor) returns (r: Option<File>)
    ensures r.Some? && r.value.data == Zeros(sectors * SECTOR_SIZE)
  {
    hide *;
    FreeExtracts(inFile.data, first, sectors, place, decompress);
    r := ExtractBLKX(inFile, File([], 0), FreeTable(first, sectors, place), decompress);
  }

  lemma {:induction false} FreeExtracts(src: Bytes, first: nat, sectors: nat, place: nat, decompress: Decompressor)
    ensures var t := FreeTable(first, sectors, place);
      && t.blocksRunCount == 2 == |t.runs| && RunsRead(t, 0) == 2
      && Extracted(src, t, decompress, [], 0, 2) == Some(Zeros(sectors * SECTOR_SIZE))
  {
    var t, end := FreeTable(first, sectors, place), sectors * SECTOR_SIZE;
    assert RunsRead(t, 1) == 2;
    assert RunsRead(t, 0) == RunsRead(t, 1);
    hide Landed, Extracted, Zeros;
    NoRuns(src, t, decompress, [], 0);
    OneMoreRun(src, t, decompress, [], 0, 0);
    BlankSectors(end);
    OneMoreRun(src, t, decompress, [], 0, 1);
    LandsNothing(Zeros(end), Place(0, sectors));
  }

  lemma {:induction false} BlankSectors(end: nat)
    ensures Landed([], 0, end, []) == Zeros(end)
  {
    hide Zeros;
    var x, y := Landed([], 0, end, []), Zeros(end);
    assert |x| == |y|;
    assert forall i :: 0 <= i < |x| ==> x[i] == y[i];
  }

  // The table and the file are what insertBLKX made of the job, with a codec that is undone.
  ghost predicate Faithful<T>(dmg: Bytes, blkx: BlkxTable, decompress: Decompressor, job: Job<T>, made: Inserted<T>) {
    && IsSequential(job, blkx.firstSectorNumber, made) && AllPack(job) && made.blkx == blkx
    && StartsWith(dmg, made.out.data)
    && Inverse(job.comp, decompress)
    && forall i :: 0 <= i < |job.plan.chunks| ==> job.plan.chunks[i] != []
  }

  lemma {:induction false} FaithfulEnd<T>(dmg: Bytes, blkx: BlkxTable, decompress: Decompressor, job: Job<T>, made: Inserted<T>)
    ensures Faithful(dmg, blkx, decompress, job, made) ==>
      && blkx.blocksRunCount == |job.plan.chunks| + 1 == |blkx.runs|
      && blkx.runs[|job.plan.chunks|].typ == BLOCK_TERMINATOR && blkx.runs[|job.plan.chunks|].sectorCount == 0
  {
  }

  lemma {:induction false} PackFits<T>(job: Job<T>, i: nat, decompress: Decompressor)
    requires i < |job.plan.chunks| && CanPack(job, i) && job.plan.chunks[i] != [] && Inverse(job.comp, decompress)
    ensures PackAt(job, i).typ != BLOCK_RAW ==> |PackAt(job, i).outbuf| <= job.bufferSectors * SECTOR_SIZE
  {
    hide SectorsBefore, KeepAfter;
    assert BlockAt(job, i).inbuf[..|job.plan.chunks[i]|] == job.plan.chunks[i];
  }

  lemma {:induction false} FaithfulRun<T>(dmg: Bytes, blkx: BlkxTable, decompress: Decompressor, job: Job<T>, made: Inserted<T>, i: nat)
    requires Faithful(dmg, blkx, decompress, job, made) && i < |job.plan.chunks|
    ensures i < |blkx.runs| && blkx.dataStart == 0
    ensures Decodes(dmg, blkx.runs[i], 0, decompress, Pad(job.plan.chunks[i])) && Fits(blkx.runs[i], SECTOR_SIZE * blkx.bufferSectors)
    ensures blkx.runs[i].sectorStart * SECTOR_SIZE == |PadsUpTo(job.plan.chunks, i)| && blkx.runs[i].typ != BLOCK_TERMINATOR
  {
    hide CanPack, Inverse, StartsWith;
    RunHolds(job, i, dmg, decompress);
    PackFits(job, i, decompress);
    RunParts(job, i);
  }

  // What insertBLKX was given and what extractBLKX gives back, for a number of bytes that are there.
  lemma {:induction false} RoundTrip<T>(out: File, inFile: File, bytes: int, chk1: (T, Bytes) -> T, token1: T, chk2: (T, Bytes) -> T, token2: T,
                                        att: Attribution, comp: Compressor, runSectors: nat, made: Inserted<T>,
                                        firstSectorNumber: nat, dmg: Bytes, decompress: Decompressor)
    requires runSectors > 0 && bytes >= READ_UNTIL_EOF && inFile.pos <= |inFile.data| && bytes <= |inFile.data| - inFile.pos
    requires var job := JobOf(out, inFile, bytes, chk1, token1, chk2, token2, att, comp, runSectors);
      AllPack(job) && IsSequential(job, firstSectorNumber, made)
    requires StartsWith(dmg, made.out.data) && Inverse(comp, decompress)
    ensures var job, left := JobOf(out, inFile, bytes, chk1, token1, chk2, token2, att, comp, runSectors), inFile.data[inFile.pos..];
      && Faithful(dmg, made.blkx, decompress, job, made)
      && PadsUpTo(job.plan.chunks, |job.plan.chunks|) == Pad(if bytes == READ_UNTIL_EOF then left else left[..bytes])
  {
    hide AllPack, Inverse, StartsWith, Pad, Chunks, PlanOf;
    var left, n := inFile.data[inFile.pos..], runSectors * SECTOR_SIZE;
    var data := if bytes == READ_UNTIL_EOF then left else left[..bytes];
    PlanIsChunks(left, bytes, n);
    ChunksAreData(data, n);
    PadsAreInput(data, n);
  }

  /* ----- dmg/dmgfile.c: reading through a cache of one run ----- */

  // What cacheRun puts into runData, None if it exits or would write past the end of a buffer: it gives both
  // its buffers the size of the run's sectors, and reads compLength bytes.
  function RunBytes(src: Bytes, dataStart: nat, run: Run, decompress: Decompressor): (r: Option<Bytes>)
    ensures r.Some? ==> |r.value| == run.sectorCount * SECTOR_SIZE
  {
    var bufferSize := run.sectorCount * SECTOR_SIZE;
    var data := File(src, dataStart + run.compOffset).Got(run.compLength);
    if run.typ == BLOCK_RAW then
      if |data| == run.compLength <= bufferSize then Some(data + Zeros(bufferSize - run.compLength)) else None
    else if Plain(run.typ) then Some(Zeros(bufferSize))
    else if |data| == run.compLength <= bufferSize then DecompressRun(decompress, run.typ, data, bufferSize)
    else None
  }

  predicate InTable(t: BlkxTable, sector: nat) {
    t.firstSectorNumber <= sector < t.firstSectorNumber + t.sectorCount
  }

  predicate InRun(t: BlkxTable, j: nat, sector: nat)
    requires j < |t.runs|
  {
    t.firstSectorNumber + t.runs[j].sectorStart <= sector < t.firstSectorNumber + t.runs[j].sectorStart + t.runs[j].sectorCount
  }

  predicate Covers(blkx: seq<BlkxTable>, i: nat, j: nat, sector: nat) {
    i < |blkx| && j < blkx[i].blocksRunCount <= |blkx[i].runs| && InTable(blkx[i], sector) && InRun(blkx[i], j, sector)
  }

  // Cached bytes from a place on agree with an image.
  ghost predicate Agrees(image: Bytes, start: nat, data: Bytes) {
    forall k :: 0 <= k < |data| && start + k < |image| ==> data[k] == image[start + k]
  }

  lemma {:induction false} AgreesSlice(image: Bytes, start: nat, data: Bytes, at: nat, n: nat)
    requires Agrees(image, start, data) && start <= at && at + n <= start + |data| && at + n <= |image|
    ensures data[at - start..at - start + n] == image[at..at + n]
  {
    var x, y := data[at - start..at - start + n], image[at..at + n];
    forall k | 0 <= k < n ensures x[k] == y[k] {
      assert data[at - start + k] == image[start + (at - start + k)];
    }
  }

  // Every run decodes to what the image has there, and no run is longer than a 32-bit offset reaches.
  ghost predicate Shows(src: Bytes, blkx: seq<BlkxTable>, decompress: Decompressor, image: Bytes) {
    forall i, j :: 0 <= i < |blkx| && 0 <= j < blkx[i].blocksRunCount <= |blkx[i].runs| ==>
      RunShows(src, blkx[i], blkx[i].runs[j], decompress, image)
  }

  ghost predicate RunShows(src: Bytes, t: BlkxTable, run: Run, decompress: Decompressor, image: Bytes) {
    var r := RunBytes(src, t.dataStart, run, decompress);
    && r.Some? && run.sectorCount * SECTOR_SIZE < 0x1_0000_0000
    && Agrees(image, (run.sectorStart + t.firstSectorNumber) * SECTOR_SIZE, r.value)
  }

  ghost predicate Covered(blkx: seq<BlkxTable>, lo: nat, hi: nat) {
    forall sector: nat :: lo / SECTOR_SIZE <= sector && sector * SECTOR_SIZE < hi ==> SectorCovered(blkx, sector)
  }

  lemma {:induction false} CoveredFrom(blkx: seq<BlkxTable>, lo: nat, hi: nat, at: nat)
    requires Covered(blkx, lo, hi) && lo <= at
    ensures at < hi ==> SectorCovered(blkx, at / SECTOR_SIZE)
    ensures Covered(blkx, at, hi)
  {
    hide SectorCovered;
    var sector := at / SECTOR_SIZE;
    assert sector * SECTOR_SIZE <= at;
    assert lo / SECTOR_SIZE <= at / SECTOR_SIZE;
  }

  ghost predicate SectorCovered(blkx: seq<BlkxTable>, sector: nat) {
    exists i, j :: Covers(blkx, i, j, sector)
  }

  /* The writer's table, read through the cache. */

  lemma {:induction false} FindBlock(chunks: seq<Bytes>, n: nat, sector: nat) returns (i: nat)
    requires n <= |chunks| && sector < SectorsBefore(chunks, n)
    ensures i < n && SectorsBefore(chunks, i) <= sector < SectorsBefore(chunks, i) + DivCeil(|chunks[i]|, SECTOR_SIZE)
  {
    hide DivCeil;
    if sector < SectorsBefore(chunks, n - 1) {
      i := FindBlock(chunks, n - 1, sector);
    } else {
      i := n - 1;
    }
  }

  lemma {:induction false} PadWithin(chunks: seq<Bytes>, i: nat, n: nat)
    requires i < n <= |chunks|
    ensures |PadsUpTo(chunks, i)| + |Pad(chunks[i])| <= |PadsUpTo(chunks, n)|
    ensures PadsUpTo(chunks, n)[|PadsUpTo(chunks, i)|..|PadsUpTo(chunks, i)| + |Pad(chunks[i])|] == Pad(chunks[i])
  {
    hide Pad, SectorsBefore;
    var x, z := PadsUpTo(chunks, n - 1), Pad(chunks[n - 1]);
    assert PadsUpTo(chunks, n) == x + z;
    hide PadsUpTo;
    if i + 1 < n {
      PadWithin(chunks, i, n - 1);
      AppendKeeps(x, z, |PadsUpTo(chunks, i)|, |PadsUpTo(chunks, i)| + |Pad(chunks[i])|);
    } else {
      AppendGives(x, z);
    }
  }

  lemma {:induction false} PadSlice(c: seq<Bytes>, i: nat, n: nat)
    requires i < n <= |c|
    ensures |PadsUpTo(c, i)| <= |PadsUpTo(c, i + 1)| <= |PadsUpTo(c, n)|
    ensures PadsUpTo(c, n)[|PadsUpTo(c, i)|..|PadsUpTo(c, i + 1)|] == Pad(c[i])
  {
    hide Pad;
    PadWithin(c, i, n);
    assert |PadsUpTo(c, i + 1)| == |PadsUpTo(c, i)| + |Pad(c[i])|;
  }

  // The image has the padded input at the table's place.
  ghost predicate ImageOf<T>(job: Job<T>, first: nat, image: Bytes) {
    var pads := PadsUpTo(job.plan.chunks, |job.plan.chunks|);
    first * SECTOR_SIZE + |pads| <= |image| && image[first * SECTOR_SIZE..first * SECTOR_SIZE + |pads|] == pads
  }

  lemma {:induction false} BlockShows<T>(dmg: Bytes, made: Inserted<T>, decompress: Decompressor, job: Job<T>, image: Bytes, i: nat)
    requires Faithful(dmg, made.blkx, decompress, job, made) && ImageOf(job, made.blkx.firstSectorNumber, image)
    requires i < |job.plan.chunks| && |Pad(job.plan.chunks[i])| < 0x1_0000_0000
    ensures i < |made.blkx.runs|
    ensures RunShows(dmg, made.blkx, made.blkx.runs[i], decompress, image) <==> PacksWithin(job, i)
  {
    hide Pad, SectorsBefore, DecompressRun, IsSequential, AllPack, Inverse, StartsWith, PadsUpTo, RunAt, CanPack, Agrees, ImageOf,
         PacksWithin, Fits, RunBytes;
    FaithfulRun(dmg, made.blkx, decompress, job, made, i);
    var run, pad := made.blkx.runs[i], Pad(job.plan.chunks[i]);
    DecodesRunBytes(dmg, run, decompress, pad);
    RunAgain(job, made, i);
    FitsIs(job, i);
    PadInImage(job, i, made.blkx.firstSectorNumber, image);
  }

  lemma {:induction false} FitsIs<T>(job: Job<T>, i: nat)
    requires i < |job.plan.chunks|
    ensures Fits(RunAt(job, i), |Pad(job.plan.chunks[i])|) <==> PacksWithin(job, i)
  {
    hide PackAt, Pad;
    RunParts(job, i);
  }

  lemma {:induction false} PadInImage<T>(job: Job<T>, i: nat, first: nat, image: Bytes)
    requires i < |job.plan.chunks| && ImageOf(job, first, image)
    ensures Agrees(image, first * SECTOR_SIZE + |PadsUpTo(job.plan.chunks, i)|, Pad(job.plan.chunks[i]))
  {
    hide Pad, PadsUpTo;
    PadWithin(job.plan.chunks, i, |job.plan.chunks|);
    var pad, pads := Pad(job.plan.chunks[i]), PadsUpTo(job.plan.chunks, |job.plan.chunks|);
    var at, o := first * SECTOR_SIZE, |PadsUpTo(job.plan.chunks, i)|;
    forall k | 0 <= k < |pad| ensures pad[k] == image[at + o + k] {
      assert pad[k] == pads[o + k] && image[at..at + |pads|][o + k] == image[at + o + k];
    }
  }

  lemma {:induction false} RunAgain<T>(job: Job<T>, made: Inserted<T>, i: nat)
    requires IsSequential(job, made.blkx.firstSectorNumber, made) && i < |job.plan.chunks|
    ensures made.blkx.runs[i] == RunAt(job, i)
  {
    hide RunAt;
  }

  lemma {:induction false} DecodesRunBytes(src: Bytes, run: Run, decompress: Decompressor, content: Bytes)
    requires Decodes(src, run, 0, decompress, content)
    ensures RunBytes(src, 0, run, decompress) == if Fits(run, |content|) then Some(content) else None
  {
    hide DecompressRun;
    assert content + Zeros(0) == content;
  }

  // Block i is stored raw, or packs to no more than its sectors.
  predicate PacksWithin<T>(job: Job<T>, i: nat)
    requires i < |job.plan.chunks|
  {
    PackAt(job, i).typ == BLOCK_RAW || |PackAt(job, i).outbuf| <= |Pad(job.plan.chunks[i])|
  }

  // From 15 sectors up the writer's own test sees to that.
  lemma {:induction false} LongBlocksFit<T>(job: Job<T>, i: nat)
    requires i < |job.plan.chunks| && CanPack(job, i) && |job.plan.chunks[i]| > 14 * SECTOR_SIZE
    ensures PacksWithin(job, i)
  {
    hide SectorsBefore, KeepAfter;
    var b := BlockAt(job, i);
    assert b.sectorCount >= 15 && Minus15(b.sectorCount) <= b.sectorCount - 15;
  }

  // What the writer made covers the input, and shows it to any sequence of reads through the cache exactly
  // when every block that is not stored raw packs to no more than its sectors.
  lemma {:induction false} WriterShows<T>(dmg: Bytes, made: Inserted<T>, decompress: Decompressor, job: Job<T>, image: Bytes)
    requires Faithful(dmg, made.blkx, decompress, job, made) && ImageOf(job, made.blkx.firstSectorNumber, image)
    requires forall i :: 0 <= i < |job.plan.chunks| ==> |Pad(job.plan.chunks[i])| < 0x1_0000_0000
    ensures Shows(dmg, [made.blkx], decompress, image) <==> forall i :: 0 <= i < |job.plan.chunks| ==> PacksWithin(job, i)
    ensures var lo := made.blkx.firstSectorNumber * SECTOR_SIZE;
      Covered([made.blkx], lo, lo + |PadsUpTo(job.plan.chunks, |job.plan.chunks|)|)
  {
    var t, n := made.blkx, |job.plan.chunks|;
    hide Pad, SectorsBefore, DecompressRun, AllPack, Inverse, StartsWith, CanPack, PackAt, DivCeil, ImageOf, Agrees, RunShows, PacksWithin;
    forall j | 0 <= j < t.blocksRunCount
      ensures RunShows(dmg, t, t.runs[j], decompress, image) <==> (j < n ==> PacksWithin(job, j))
    {
      if j < n {
        BlockShows(dmg, made, decompress, job, image, j);
      } else {
        TerminatorShows(dmg, t, t.runs[j], decompress, image);
      }
    }
    ShowsOne(dmg, t, decompress, image);
    forall sector: nat | t.firstSectorNumber <= sector && sector * SECTOR_SIZE < t.firstSectorNumber * SECTOR_SIZE + |PadsUpTo(job.plan.chunks, n)|
      ensures SectorCovered([t], sector)
    {
      var i := FindBlock(job.plan.chunks, n, sector - t.firstSectorNumber);
      RunSectors(job, i);
      assert Covers([t], 0, i, sector);
    }
  }

  lemma {:induction false} ShowsOne(src: Bytes, t: BlkxTable, decompress: Decompressor, image: Bytes)
    requires t.blocksRunCount <= |t.runs|
    ensures Shows(src, [t], decompress, image) <==>
      forall j :: 0 <= j < t.blocksRunCount ==> RunShows(src, t, t.runs[j], decompress, image)
  {
    hide RunShows;
    if Shows(src, [t], decompress, image) {
      assert [t][0] == t;
      forall j | 0 <= j < t.blocksRunCount ensures RunShows(src, t, t.runs[j], decompress, image) {
        assert RunShows(src, [t][0], [t][0].runs[j], decompress, image);
      }
    }
  }

  // A codec that is undone, but needs a hundred bytes more than it is given.
  function GrowingCodec(): Compressor {
    Compressor((x, room) => if |x| + 100 <= room then Some(Zeros(100) + x) else None, n => n + 4, 0x8000_0006)
  }

  function Shrink(typ: nat, data: Bytes, expected: nat): Option<Bytes> {
    if |data| >= 100 then Some(data[100..]) else None
  }

  // One sector that does not compress is stored in more than one sector, where the cache has room for one.
  lemma {:induction false} SectorBursts(x: Bytes, chk: (nat, Bytes) -> nat, dmg: Bytes)
    requires |x| == SECTOR_SIZE
    ensures var job := Job(Plan([x], false, []), NoAttribution, GrowingCodec(), MIN_DECOMPRESS_BUFFER_SECTORS, [], chk, chk, 0, 0);
      && Inverse(job.comp, Shrink) && AllPack(job) && !PacksWithin(job, 0)
      && RunAt(job, 0).sectorCount == 1 && RunAt(job, 0).compLength == 612
      && (StartsWith(dmg, job.out0 + OutUpTo(job, 1)) ==> RunBytes(dmg, 0, RunAt(job, 0), Shrink).None?)
  {
    var job := Job(Plan([x], false, []), NoAttribution, GrowingCodec(), MIN_DECOMPRESS_BUFFER_SECTORS, [], chk, chk, 0, 0);
    var b := BlockAt(job, 0);
    assert |Zeros(100) + b.inbuf| == 612;
    assert CanPack(job, 0) && PackAt(job, 0) == Packed(b, 0x8000_0006, Zeros(100) + b.inbuf);
  }

  lemma {:induction false} RunSectors<T>(job: Job<T>, i: nat)
    requires i < |job.plan.chunks|
    ensures RunAt(job, i).sectorStart == SectorsBefore(job.plan.chunks, i)
    ensures RunAt(job, i).sectorCount == DivCeil(|job.plan.chunks[i]|, SECTOR_SIZE)
  {
  }

  lemma {:induction false} TerminatorShows(src: Bytes, t: BlkxTable, run: Run, decompress: Decompressor, image: Bytes)
    requires run.typ == BLOCK_TERMINATOR && run.sectorCount == 0
    ensures RunShows(src, t, run, decompress, image)
  {
  }

  class DMG {
    var dmg: File
    const blkx: seq<BlkxTable>
    const decompress: Decompressor
    const offset: nat
    var runData: Bytes
    var runStart: nat
    var runEnd: nat
    var runType: nat

    // openDmgFile: nothing is cached, so that the first read looks its run up.
    constructor (dmg: File, blkx: seq<BlkxTable>, offset: nat, decompress: Decompressor)
      ensures this.blkx == blkx && this.offset == offset && this.decompress == decompress && this.dmg.data == dmg.data
      ensures runType == BLOCK_TERMINATOR
    {
      this.dmg, this.blkx, this.offset, this.decompress := dmg, blkx, offset, decompress;
      runType, runData, runStart, runEnd := BLOCK_TERMINATOR, [], 0, 0;
    }

    // Nothing is cached, or one run as the image has it.
    ghost predicate CacheOk(image: Bytes)
      reads this
    {
      runType == BLOCK_TERMINATOR ||
      (runEnd == runStart + |runData| && |runData| < 0x1_0000_0000 && Agrees(image, runStart, runData))
    }

    method CacheRun(t: BlkxTable, run: Run) returns (ok: bool)
      modifies this
      ensures dmg.data == old(dmg.data)
      ensures ok <==> RunBytes(dmg.data, t.dataStart, run, decompress).Some?
      ensures ok ==> runData == RunBytes(dmg.data, t.dataStart, run, decompress).value && runType == run.typ
      ensures ok ==> runStart == (run.sectorStart + t.firstSectorNumber) * SECTOR_SIZE && runEnd == runStart + |runData|
    {
      var bufferSize := run.sectorCount * SECTOR_SIZE;
      dmg := dmg.Seek(t.dataStart + run.compOffset);
      var data := dmg.Got(run.compLength);
      if run.typ == BLOCK_RAW {
        if |data| != run.compLength || run.compLength > bufferSize {
          return false;
        }
        dmg := dmg.AfterRead(run.compLength);
        runData := data + Zeros(bufferSize - run.compLength);
      } else if Plain(run.typ) {
        runData := Zeros(bufferSize);
      } else {
        if |data| != run.compLength || run.compLength > bufferSize {
          return false;
        }
        dmg := dmg.AfterRead(run.compLength);
        var plain := DecompressRun(decompress, run.typ, data, bufferSize);
        if plain.None? {
          return false;
        }
        runData := plain.value;
      }
      runType := run.typ;
      runStart := (run.sectorStart + t.firstSectorNumber) * SECTOR_SIZE;
      runEnd := runStart + bufferSize;
      ok := true;
    }

    // cacheOffset: look through all runs of all tables for the sector.
    method CacheOffset(location: nat, ghost image: Bytes) returns (ok: bool)
      requires forall i :: 0 <= i < |blkx| ==> blkx[i].blocksRunCount <= |blkx[i].runs|
      modifies this
      ensures dmg.data == old(dmg.data)
      ensures Shows(dmg.data, blkx, decompress, image) && SectorCovered(blkx, location / SECTOR_SIZE) ==>
        && ok && runStart <= location < runEnd == runStart + |runData| && |runData| < 0x1_0000_0000
        && Agrees(image, runStart, runData)
    {
      var sector := location / SECTOR_SIZE;
      ghost var shows := Shows(dmg.data, blkx, decompress, image);
      ghost var hit := false;
      var i := 0;
      while i < |blkx|
        invariant i <= |blkx| && dmg.data == old(dmg.data)
        invariant forall a, b :: 0 <= a < i && Covers(blkx, a, b, sector) ==> hit
        invariant shows && hit ==> Serves(image, location)
      {
        if blkx[i].firstSectorNumber <= sector < blkx[i].firstSectorNumber + blkx[i].sectorCount {
          var j := 0;
          while j < blkx[i].blocksRunCount
            invariant j <= blkx[i].blocksRunCount && dmg.data == old(dmg.data)
            invariant forall a, b :: 0 <= a < i && Covers(blkx, a, b, sector) ==> hit
            invariant forall b :: 0 <= b < j && Covers(blkx, i, b, sector) ==> hit
            invariant shows && hit ==> Serves(image, location)
          {
            var run := blkx[i].runs[j];
            if blkx[i].firstSectorNumber + run.sectorStart <= sector < blkx[i].firstSectorNumber + run.sectorStart + run.sectorCount {
              assert shows ==> RunShows(dmg.data, blkx[i], run, decompress, image);
              ok := CacheRun(blkx[i], run);
              if !ok {
                return false;
              }
              hit := true;
            }
            j := j + 1;
          }
        }
        i := i + 1;
      }
      ok := true;
    }

    ghost predicate Serves(image: Bytes, location: nat)
      reads this
    {
      runStart <= location < runEnd == runStart + |runData| && |runData| < 0x1_0000_0000 && Agrees(image, runStart, runData)
    }

    // dmgFileRead: any read of a covered range returns that range of the image.
    method Read(location: nat, size: nat, ghost image: Bytes) returns (r: Bytes)
      requires forall i :: 0 <= i < |blkx| ==> blkx[i].blocksRunCount <= |blkx[i].runs|
      requires Shows(dmg.data, blkx, decompress, image) && CacheOk(image)
      requires location + offset + size <= |image| && Covered(blkx, location + offset, location + offset + size)
      modifies this
      decreases size
      ensures dmg.data == old(dmg.data) && CacheOk(image)
      ensures r == image[location + offset..location + offset + size]
    {
      hide Shows, RunShows, Agrees, Covered, SectorCovered;
      if size == 0 {
        return [];
      }
      CoveredFrom(blkx, location + offset, location + offset + size, location + offset);
      var buffer := ReadOnce(location + offset, size, image);
      var toRead := |buffer|;
      if size - toRead > 0 {
        CoveredFrom(blkx, location + offset, location + offset + size, location + offset + toRead);
        var rest := Read(location + toRead, size - toRead, image);
        TwoSlices(image, location + offset, toRead, size);
        return buffer + rest;
      } else {
        return buffer;
      }
    }

    // The part of a read that one cached run can serve.
    method ReadOnce(at: nat, size: nat, ghost image: Bytes) returns (buffer: Bytes)
      requires forall i :: 0 <= i < |blkx| ==> blkx[i].blocksRunCount <= |blkx[i].runs|
      requires Shows(dmg.data, blkx, decompress, image) && CacheOk(image)
      requires size > 0 && at + size <= |image| && SectorCovered(blkx, at / SECTOR_SIZE)
      modifies this
      ensures dmg.data == old(dmg.data) && CacheOk(image)
      ensures 0 < |buffer| <= size && buffer == image[at..at + |buffer|]
    {
      hide Shows, RunShows, Agrees, Covered, SectorCovered;
      if runType == BLOCK_TERMINATOR || at < runStart || at >= runEnd {
        var ok := CacheOffset(at, image);
        assert ok;
      }
      var toRead := if at + size > runEnd then runEnd - at else size;
      var from := (at - runStart) % 0x1_0000_0000;
      AgreesSlice(image, runStart, runData, at, toRead);
      buffer := runData[from..from + toRead];
    }
  }

  // What the writer made, opened and read through the cache: any stretch of the padded input, as long as every
  // block that is not stored raw packs to no more than its sectors.
  method ReadWritten<T>(dmg: File, made: Inserted<T>, decompress: Decompressor, location: nat, size: nat, ghost job: Job<T>)
    returns (r: Bytes)
    requires Faithful(dmg.data, made.blkx, decompress, job, made)
    requires forall i :: 0 <= i < |job.plan.chunks| ==> |Pad(job.plan.chunks[i])| < 0x1_0000_0000 && PacksWithin(job, i)
    requires location + size <= |PadsUpTo(job.plan.chunks, |job.plan.chunks|)|
    ensures r == PadsUpTo(job.plan.chunks, |job.plan.chunks|)[location..location + size]
  {
    hide *;
    ghost var image := WrittenImage(dmg.data, made, decompress, job);
    var cache := new DMG(dmg, [made.blkx], 0, decompress);
    NothingCached(cache, image);
    var first := FirstByte(made.blkx);
    WrittenPart(made, job, image, first, location, size);
    r := cache.Read(first + location, size, image);
  }

  function FirstByte(t: BlkxTable): nat { t.firstSectorNumber * SECTOR_SIZE }

  // An image that has the padded input at the table's place.
  lemma {:induction false} WrittenImage<T>(dmg: Bytes, made: Inserted<T>, decompress: Decompressor, job: Job<T>) returns (image: Bytes)
    requires Faithful(dmg, made.blkx, decompress, job, made)
    requires forall i :: 0 <= i < |job.plan.chunks| ==> |Pad(job.plan.chunks[i])| < 0x1_0000_0000 && PacksWithin(job, i)
    ensures made.blkx.blocksRunCount <= |made.blkx.runs|
    ensures Shows(dmg, [made.blkx], decompress, image)
    ensures var first, n := FirstByte(made.blkx), |PadsUpTo(job.plan.chunks, |job.plan.chunks|)|;
      && Covered([made.blkx], first, first + n) && |image| == first + n
      && image[first..first + n] == PadsUpTo(job.plan.chunks, |job.plan.chunks|)
  {
    FaithfulEnd(dmg, made.blkx, decompress, job, made);
    hide Faithful, Pad, PacksWithin, Shows, Covered, PadsUpTo, Zeros;
    var first, pads := FirstByte(made.blkx), PadsUpTo(job.plan.chunks, |job.plan.chunks|);
    image := Zeros(first) + pads;
    AppendGives(Zeros(first), pads);
    WriterShows(dmg, made, decompress, job, image);
  }

  lemma {:induction false} WrittenPart<T>(made: Inserted<T>, job: Job<T>, image: Bytes, first: nat, location: nat, size: nat)
    requires var n := |PadsUpTo(job.plan.chunks, |job.plan.chunks|)|;
      && location + size <= n && Covered([made.blkx], first, first + n) && |image| == first + n
      && image[first..first + n] == PadsUpTo(job.plan.chunks, |job.plan.chunks|)
    ensures Covered([made.blkx], first + location, first + location + size)
    ensures image[first + location..first + location + size] == PadsUpTo(job.plan.chunks, |job.plan.chunks|)[location..location + size]
  {
    hide Covered, PadsUpTo;
    var n := |PadsUpTo(job.plan.chunks, |job.plan.chunks|)|;
    CoveredWithin([made.blkx], first, location, size, n);
    SliceOfSlice(image, first, first + n, location, location + size);
  }

  lemma {:induction false} NothingCached(cache: DMG, image: Bytes)
    requires cache.runType == BLOCK_TERMINATOR
    ensures cache.CacheOk(image)
  {
  }

  lemma {:induction false} CoveredWithin(blkx: seq<BlkxTable>, first: nat, location: nat, size: nat, n: nat)
    requires Covered(blkx, first, first + n) && location + size <= n
    ensures Covered(blkx, first + location, first + location + size)
  {
    hide SectorCovered;
  }

  // Free space read through the cache is zeros.
  method ReadFree(dmg: File, first: nat, sectors: nat, place: nat, decompress: Decompressor, location: nat, size: nat) returns (r: Bytes)
    requires sectors * SECTOR_SIZE < 0x1_0000_0000 && location + size <= sectors * SECTOR_SIZE
    ensures r == Zeros(size)
  {
    hide *;
    var t := FreeTable(first, sectors, place);
    ghost var image := Zeros(FirstByte(t) + sectors * SECTOR_SIZE);
    FreeShows(dmg.data, first, sectors, place, decompress);
    var cache := new DMG(dmg, [t], 0, decompress);
    NothingCached(cache, image);
    CoveredWithin([t], FirstByte(t), location, size, sectors * SECTOR_SIZE);
    ZerosInside(FirstByte(t) + sectors * SECTOR_SIZE, FirstByte(t) + location, size);
    r := cache.Read(FirstByte(t) + location, size, image);
  }

  lemma {:induction false} ZerosInside(n: nat, a: nat, m: nat)
    requires a + m <= n
    ensures Zeros(n)[a..a + m] == Zeros(m)
  {
    hide Zeros;
    assert forall i :: 0 <= i < m ==> Zeros(n)[a..a + m][i] == Zeros(m)[i];
  }

  // The table of free space covers its sectors and shows zeros there.
  lemma {:induction false} FreeShows(src: Bytes, first: nat, sectors: nat, place: nat, decompress: Decompressor)
    requires sectors * SECTOR_SIZE < 0x1_0000_0000
    ensures var t := FreeTable(first, sectors, place);
      var at, n := FirstByte(t), sectors * SECTOR_SIZE;
      && t.blocksRunCount <= |t.runs| && Shows(src, [t], decompress, Zeros(at + n)) && Covered([t], at, at + n)
  {
    var t := FreeTable(first, sectors, place);
    var at, n := FirstByte(t), sectors * SECTOR_SIZE;
    hide RunShows, SectorCovered, Zeros;
    forall j | 0 <= j < 2 ensures RunShows(src, t, t.runs[j], decompress, Zeros(at + n)) {
      BlankShows(src, t, t.runs[j], decompress, Zeros(at + n));
    }
    ShowsOne(src, t, decompress, Zeros(at + n));
    forall sector: nat | first <= sector && sector * SECTOR_SIZE < at + n ensures SectorCovered([t], sector) {
      FreeSector(first, sectors, place, sector);
    }
  }

  lemma {:induction false} FreeSector(first: nat, sectors: nat, place: nat, sector: nat)
    requires first <= sector < first + sectors
    ensures SectorCovered([FreeTable(first, sectors, place)], sector)
  {
    assert Covers([FreeTable(first, sectors, place)], 0, 0, sector);
  }

  // A run that is free, a comment, zeros or the terminator shows zeros.
  lemma {:induction false} BlankShows(src: Bytes, t: BlkxTable, run: Run, decompress: Decompressor, image: Bytes)
    requires Plain(run.typ) && run.typ != BLOCK_RAW && run.sectorCount * SECTOR_SIZE < 0x1_0000_0000
    requires forall i :: 0 <= i < |image| ==> image[i] == 0
    ensures RunShows(src, t, run, decompress, image)
  {
  }
}
