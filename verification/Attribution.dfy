/**
  dmg/attribution.c: checksums of what lies before, in and after the raw
  blocks, kept while the image is written; later the raw bytes are edited in
  place and the checksums of the image and of the data fork put together again.
 */
module Attributing {
  import opened Common
  import opened DmgFormat
  import opened DmgWriter
  import opened DmgReader
  import opened Crc32
  import opened SentinelSearch

  /* ----- Three pieces of two streams ----- */

  // What has been observed: uncompressed and compressed bytes before, in and after the raw blocks.
  datatype Pieces = Pieces(seen: bool, bu: Bytes, ru: Bytes, au: Bytes, bc: Bytes, rc: Bytes, ac: Bytes)

  function Observe(s: Pieces, raw: bool, u: Bytes, c: Bytes): Pieces {
    if raw then s.(seen := true, ru := s.ru + u, rc := s.rc + c)
    else if !s.seen then s.(bu := s.bu + u, bc := s.bc + c)
    else s.(au := s.au + u, ac := s.ac + c)
  }

  // A checksum token with the length it covers; -1 before the raw blocks are met.
  datatype Sum = Sum(crc: Word, length: int)

  function SumOf(b: Bytes): Sum { Sum(Crc(b), |b|) }

  function Grown(s: Sum, b: Bytes): Sum { Sum(Extend(s.crc, b), s.length + |b|) }

  lemma {:induction false} GrownIs(a: Bytes, b: Bytes)
    ensures Grown(SumOf(a), b) == SumOf(a + b) && SumOf(a).length == |a|
  {
    hide Extend;
    ExtendConcat(0, a, b);
  }

  lemma {:induction false} SumOfNone()
    ensures SumOf([]) == Sum(0, 0)
  {
    hide Not;
    NotNot(0);
  }

  datatype AttributionResource = AttributionResource(
    beforeC: Sum, beforeU: Sum, rawPos: nat, rawLength: nat, rawChecksum: Word, afterC: Sum, afterU: Sum)

  class SentinelData {
    var beforeU: Sum
    var rawU: Sum
    var afterU: Sum
    var beforeC: Sum
    var rawC: Sum
    var afterC: Sum
    ghost var pieces: Pieces

    ghost predicate Valid()
      reads this
    {
      && beforeU == SumOf(pieces.bu) && beforeC == SumOf(pieces.bc)
      && (pieces.seen ==>
            rawU == SumOf(pieces.ru) && rawC == SumOf(pieces.rc) && afterU == SumOf(pieces.au) && afterC == SumOf(pieces.ac))
      && (!pieces.seen ==>
            && rawU == rawC == afterU == afterC == Sum(0, -1)
            && pieces.ru == pieces.au == pieces.rc == pieces.ac == [])
    }

    // createAbstractAttributionPreservingSentinel
    constructor ()
      ensures Valid() && pieces == Pieces(false, [], [], [], [], [], [])
    {
      beforeU, beforeC := Sum(0, 0), Sum(0, 0);
      rawU, rawC, afterU, afterC := Sum(0, -1), Sum(0, -1), Sum(0, -1), Sum(0, -1);
      pieces := Pieces(false, [], [], [], [], [], []);
      new;
      SumOfNone();
    }

    // sentinelBeforeMainBlkx: the data fork so far counts as lying before.
    method BeforeMainBlkx(tell: nat, dataForkToken: Word, ghost fork: Bytes)
      requires Valid() && tell == |fork| && dataForkToken == Crc(fork)
      modifies this
      ensures Valid() && pieces == old(pieces).(bc := fork)
    {
      hide Crc;
      beforeC := Sum(dataForkToken, tell);
      pieces := pieces.(bc := fork);
    }

    // sentinelObserveBuffers
    method ObserveBuffers(didKeepRaw: bool, u: Bytes, c: Bytes)
      requires Valid()
      modifies this
      ensures Valid() && pieces == Observe(old(pieces), didKeepRaw, u, c)
    {
      hide SumOf, Grown;
      SumOfNone();
      assert [] + u == u && [] + c == c;
      GrownIs([], u); GrownIs([], c);
      GrownIs(pieces.ru, u); GrownIs(pieces.rc, c);
      GrownIs(pieces.bu, u); GrownIs(pieces.bc, c);
      GrownIs(pieces.au, u); GrownIs(pieces.ac, c);
      if didKeepRaw {
        if afterU.length < 0 {
          rawU, rawC := Grown(Sum(0, 0), u), Grown(Sum(0, 0), c);
          afterU, afterC := Sum(0, 0), Sum(0, 0);
        } else {
          rawU, rawC := Grown(rawU, u), Grown(rawC, c);
        }
      } else {
        if afterU.length < 0 {
          beforeU := Grown(beforeU, u);
        } else {
          afterU := Grown(afterU, u);
        }
        if afterC.length < 0 {
          beforeC := Grown(beforeC, c);
        } else {
          afterC := Grown(afterC, c);
        }
      }
      pieces := Observe(pieces, didKeepRaw, u, c);
    }

    // sentinelAfterMainBlkx
    method AfterMainBlkx() returns (r: AttributionResource)
      requires Valid()
      modifies this
      ensures r == ResourceOf(old(pieces))
    {
      hide Crc;
      SumOfNone();
      if rawU.length < 0 {
        rawU := rawU.(length := 0);
      }
      if afterU.length < 0 {
        afterU := afterU.(length := 0);
      }
      if rawC.length < 0 {
        rawC := rawC.(length := 0);
      }
      if afterC.length < 0 {
        afterC := afterC.(length := 0);
      }
      r := AttributionResource(beforeC, beforeU, beforeC.length, rawC.length, rawC.crc, afterC, afterU);
    }
  }

  function ResourceOf(s: Pieces): AttributionResource {
    AttributionResource(SumOf(s.bc), SumOf(s.bu), |s.bc|, |s.rc|, Crc(s.rc), SumOf(s.ac), SumOf(s.au))
  }

  // What is observed while the blocks of a job are written.
  function Observed<T>(job: Job<T>, i: nat): Pieces
    requires i <= |job.plan.chunks|
  {
    if i == 0 then Pieces(false, [], [], [], job.out0, [], [])
    else
      var p := PackAt(job, i - 1);
      Observe(Observed(job, i - 1), p.b.keepRaw, p.b.inbuf, p.outbuf)
  }

  // The raw blocks of a job, and nothing else, are kept raw.
  ghost predicate KeepsRaw<T>(job: Job<T>, k: nat, m: nat) {
    && k + m <= |job.plan.chunks|
    && forall i :: 0 <= i < |job.plan.chunks| ==> (BlockAt(job, i).keepRaw <==> k <= i < k + m)
  }

  lemma {:induction false} PackIs<T>(job: Job<T>, i: nat)
    requires i < |job.plan.chunks| && CanPack(job, i)
    ensures PackAt(job, i).b == BlockAt(job, i) && BlockAt(job, i).inbuf == Pad(job.plan.chunks[i])
    ensures BlockAt(job, i).keepRaw ==> PackAt(job, i).typ == BLOCK_RAW && PackAt(job, i).outbuf == Pad(job.plan.chunks[i])
  {
  }

  // The two streams cut at the raw blocks: up to lo, up to hi, all.
  ghost predicate CutAt(s: Pieces, plo: Bytes, phi: Bytes, pall: Bytes, olo: Bytes, ohi: Bytes, oall: Bytes) {
    && s.bu == plo && s.bu + s.ru == phi && s.bu + s.ru + s.au == pall
    && s.bc == olo && s.bc + s.rc == ohi && s.bc + s.rc + s.ac == oall
    && s.rc == s.ru
  }

  lemma {:induction false} CutBefore(s: Pieces, p: Bytes, o: Bytes, u: Bytes, c: Bytes)
    requires CutAt(s, p, p, p, o, o, o) && !s.seen
    ensures CutAt(Observe(s, false, u, c), p + u, p + u, p + u, o + c, o + c, o + c)
  {
    assert s.ru == [] && s.au == [] && s.rc == [] && s.ac == [];
    assert p + u + [] == p + u && o + c + [] == o + c;
  }

  lemma {:induction false} CutRaw(s: Pieces, p: Bytes, phi: Bytes, o: Bytes, ohi: Bytes, u: Bytes)
    requires CutAt(s, p, phi, phi, o, ohi, ohi)
    ensures CutAt(Observe(s, true, u, u), p, phi + u, phi + u, o, ohi + u, ohi + u)
  {
    assert s.au == [] && s.ac == [];
    assert s.bu + (s.ru + u) == s.bu + s.ru + u && s.bc + (s.rc + u) == s.bc + s.rc + u;
    assert phi + u + [] == phi + u && ohi + u + [] == ohi + u;
  }

  lemma {:induction false} CutAfter(s: Pieces, p: Bytes, phi: Bytes, pall: Bytes, o: Bytes, ohi: Bytes, oall: Bytes, u: Bytes, c: Bytes)
    requires CutAt(s, p, phi, pall, o, ohi, oall) && s.seen
    ensures CutAt(Observe(s, false, u, c), p, phi, pall + u, o, ohi, oall + c)
  {
    assert s.bu + s.ru + (s.au + u) == s.bu + s.ru + s.au + u;
    assert s.bc + s.rc + (s.ac + c) == s.bc + s.rc + s.ac + c;
  }

  function CutLow(k: nat, m: nat, i: nat): nat { if m == 0 || i < k then i else k }

  function CutHigh(k: nat, m: nat, i: nat): nat { if m == 0 || i < k + m then i else k + m }

  function OutTo<T>(job: Job<T>, i: nat): Bytes
    requires i <= |job.plan.chunks|
  {
    job.out0 + OutUpTo(job, i)
  }

  // The pieces are the two streams cut at the raw blocks, and the raw piece is the same in both.
  lemma {:induction false} ObservedIs<T>(job: Job<T>, k: nat, m: nat, i: nat)
    requires KeepsRaw(job, k, m) && AllPack(job) && i <= |job.plan.chunks|
    ensures var lo, hi, c := CutLow(k, m, i), CutHigh(k, m, i), job.plan.chunks;
      && Observed(job, i).seen == (m > 0 && i > k)
      && CutAt(Observed(job, i), PadsUpTo(c, lo), PadsUpTo(c, hi), PadsUpTo(c, i), OutTo(job, lo), OutTo(job, hi), OutTo(job, i))
  {
    var c := job.plan.chunks;
    hide PackAt, BlockAt, Pad, CanPack, CutAt, Observe, KeepAfter, OutTo, OutUpTo, PadsUpTo;
    if i == 0 {
      CutNone(job);
    } else {
      ObservedIs(job, k, m, i - 1);
      assert CanPack(job, i - 1);
      PackIs(job, i - 1);
      var s, p := Observed(job, i - 1), PackAt(job, i - 1);
      UpToStep(job, i - 1);
      ObserveSeen(s, p.b.keepRaw, p.b.inbuf, p.outbuf);
      if m == 0 || i - 1 < k {
        CutBefore(s, PadsUpTo(c, i - 1), OutTo(job, i - 1), p.b.inbuf, p.outbuf);
      } else if i - 1 < k + m {
        CutRaw(s, PadsUpTo(c, k), PadsUpTo(c, i - 1), OutTo(job, k), OutTo(job, i - 1), p.outbuf);
      } else {
        CutAfter(s, PadsUpTo(c, k), PadsUpTo(c, k + m), PadsUpTo(c, i - 1), OutTo(job, k), OutTo(job, k + m), OutTo(job, i - 1),
                 p.b.inbuf, p.outbuf);
      }
    }
  }

  lemma {:induction false} CutNone<T>(job: Job<T>)
    ensures var p, o := PadsUpTo(job.plan.chunks, 0), OutTo(job, 0);
      CutAt(Observed(job, 0), p, p, p, o, o, o) && !Observed(job, 0).seen
  {
    assert job.out0 + [] == job.out0;
  }

  lemma {:induction false} UpToStep<T>(job: Job<T>, i: nat)
    requires i < |job.plan.chunks| && CanPack(job, i)
    ensures OutTo(job, i + 1) == OutTo(job, i) + PackAt(job, i).outbuf
    ensures PadsUpTo(job.plan.chunks, i + 1) == PadsUpTo(job.plan.chunks, i) + PackAt(job, i).b.inbuf
  {
    PackIs(job, i);
    hide PackAt, BlockAt, Pad;
    assert job.out0 + (OutUpTo(job, i) + PackAt(job, i).outbuf) == (job.out0 + OutUpTo(job, i)) + PackAt(job, i).outbuf;
  }

  lemma {:induction false} ObserveSeen(s: Pieces, raw: bool, u: Bytes, c: Bytes)
    ensures Observe(s, raw, u, c).seen == (s.seen || raw)
  {
  }

  /* ----- updateAttribution ----- */

  // Where the C string at p ends: at a zero byte, or at the end, behind which one lies.
  function StringEnd(raw: Bytes, p: nat): (e: nat)
    requires p <= |raw|
    ensures p <= e <= |raw|
    decreases |raw| - p
  {
    if p == |raw| || raw[p] == 0 then p else StringEnd(raw, p + 1)
  }

  // The anchor's string is blanked, then the data put in its place.
  function Edited(raw: Bytes, p: nat, data: Bytes): (r: Bytes)
    requires p <= |raw| && p + |data| <= |raw|
    ensures |r| == |raw|
    ensures forall j :: 0 <= j < |raw| ==>
      r[j] == if p <= j < p + |data| then data[j - p] else if p <= j < StringEnd(raw, p) then 0 else raw[j]
  {
    seq(|raw|, j requires 0 <= j < |raw| =>
      if p <= j < p + |data| then data[j - p] else if p <= j < StringEnd(raw, p) then 0 else raw[j])
  }

  // Step 1 of updateAttribution, on the buffer itself.
  method EditBuffer(buffer: array<bv8>, p: nat, data: Bytes)
    requires p + |data| <= buffer.Length
    modifies buffer
    ensures buffer[..] == Edited(old(buffer[..]), p, data)
  {
    ghost var raw := buffer[..];
    var i := p;
    while i < buffer.Length && buffer[i] != 0
      invariant p <= i <= buffer.Length && StringEnd(raw, p) == StringEnd(raw, i)
      invariant forall j :: 0 <= j < buffer.Length ==> buffer[j] == if p <= j < i then 0 else raw[j]
    {
      buffer[i] := 0;
      i := i + 1;
    }
    forall j | 0 <= j < |data| {
      buffer[p + j] := data[j];
    }
  }

  // The file copied, 8192 bytes at a time, until a read comes short.
  method CopyFile(abstractIn: File) returns (abstractOut: File)
    requires abstractIn.pos == 0
    ensures abstractOut.data == abstractIn.data
  {
    abstractOut := File([], 0);
    var src := abstractIn;
    while true
      invariant src.data == abstractIn.data && src.pos <= |src.data|
      invariant abstractOut == File(src.data[..src.pos], src.pos)
      decreases |src.data| - src.pos
    {
      var buffer := src.Got(8192);
      AppendAtEnd(abstractOut, buffer);
      assert src.data[..src.pos] + buffer == src.data[..src.pos + |buffer|];
      src, abstractOut := src.AfterRead(8192), abstractOut.Write(buffer);
      if |buffer| < 8192 {
        assert src.pos == |src.data|;
        break;
      }
    }
    assert src.data[..src.pos] == src.data;
  }

  datatype Attributed = Attributed(file: Bytes, rawChecksum: Word, blkxChecksum: Word, dataForkChecksum: Word)

  // The file with the raw window edited at p, and the checksums put together from the pieces.
  ghost predicate AttributedAt(file: Bytes, res: AttributionResource, anchor: Bytes, data: Bytes, p: nat, a: Attributed) {
    && res.rawPos + res.rawLength <= |file|
    && var raw := file[res.rawPos..res.rawPos + res.rawLength];
    && FirstAt(raw, anchor, p) && p + |data| <= |raw|
    && var new' := Edited(raw, p, data);
    && a.file == file[..res.rawPos] + new' + file[res.rawPos + res.rawLength..]
    && a.rawChecksum == Crc(new')
    && a.blkxChecksum == Combine(Combine(res.beforeU.crc, Crc(new'), |new'|), res.afterU.crc, Length(res.afterU))
    && a.dataForkChecksum == Combine(Combine(res.beforeC.crc, Crc(new'), |new'|), res.afterC.crc, Length(res.afterC))
  }

  // The anchor is there and the data fits behind its place.
  ghost predicate FitsAt(file: Bytes, res: AttributionResource, anchor: Bytes, data: Bytes, p: nat) {
    && res.rawPos + res.rawLength <= |file|
    && FirstAt(file[res.rawPos..res.rawPos + res.rawLength], anchor, p) && p + |data| <= res.rawLength
  }

  // updateAttribution on the data fork; None stands for the exit of a failed ASSERT.
  method UpdateAttribution(file: Bytes, res: AttributionResource, anchor: Bytes, data: Bytes) returns (r: Option<Attributed>)
    requires IsString(anchor)
    ensures r.Some? <==> exists p: nat :: FitsAt(file, res, anchor, data, p)
    ensures r.Some? ==> forall p: nat :: FirstAt(file[res.rawPos..res.rawPos + res.rawLength], anchor, p) ==>
      AttributedAt(file, res, anchor, data, p, r.value)
  {
    hide Crc, Combine, Edited;
    var out := CopyFile(File(file, 0));
    if res.rawPos + res.rawLength > |file| {
      return None;
    }
    var rawBuffer := new bv8[res.rawLength](i requires 0 <= i < res.rawLength => file[res.rawPos + i]);
    ghost var raw := file[res.rawPos..res.rawPos + res.rawLength];
    assert rawBuffer[..] == raw;
    // The byte behind the buffer is taken to be zero.
    assert (rawBuffer[..] + [0])[..rawBuffer.Length] == raw;
    var rawAnchor := FindStrInBuf(rawBuffer[..] + [0], res.rawLength, anchor);
    FirstIsOne(raw, anchor);
    if rawAnchor.None? {
      return None;
    }
    if rawAnchor.value + |data| > res.rawLength {
      return None;
    }
    assert FitsAt(file, res, anchor, data, rawAnchor.value);
    EditBuffer(rawBuffer, rawAnchor.value, data);
    out := out.Seek(res.rawPos).Write(rawBuffer[..]);
    var newRaw := Crc(rawBuffer[..]);
    var blkx := Combine(Combine(res.beforeU.crc, newRaw, res.rawLength), res.afterU.crc, Length(res.afterU));
    var fork := Combine(Combine(res.beforeC.crc, newRaw, res.rawLength), res.afterC.crc, Length(res.afterC));
    r := Some(Attributed(out.data, newRaw, blkx, fork));
  }

  lemma {:induction false} FirstIsOne(s: Bytes, str: Bytes)
    ensures forall p: nat, q: nat :: FirstAt(s, str, p) && FirstAt(s, str, q) ==> p == q
    ensures forall p: nat :: FirstAt(s, str, p) ==> Occurs(s, str)
  {
  }

  function Length(s: Sum): nat { if s.length < 0 then 0 else s.length }

  /* ----- What the edit means ----- */

  // The tokens that insertBLKX returns are the checksums of the padded input and of the data fork.
  lemma {:induction false} TokensAreChecksums(job: Job<Word>, i: nat)
    requires i <= |job.plan.chunks| && AllPack(job)
    requires job.uncompressedChk == Extend && job.token1 == Crc([])
    requires job.compressedChk == Extend && job.token2 == Crc(job.out0)
    ensures Token1(job, i) == Crc(PadsUpTo(job.plan.chunks, i))
    ensures Token2(job, i) == Crc(OutTo(job, i))
  {
    hide Extend, PackAt, CanPack, Pad, PadsUpTo, OutTo, OutUpTo, Crc;
    if i == 0 {
      NothingOut(job);
    } else {
      TokensAreChecksums(job, i - 1);
      assert CanPack(job, i - 1);
      UpToStep(job, i - 1);
      CrcOn(PadsUpTo(job.plan.chunks, i - 1), PackAt(job, i - 1).b.inbuf);
      CrcOn(OutTo(job, i - 1), PackAt(job, i - 1).outbuf);
    }
  }

  lemma {:induction false} NothingOut<T>(job: Job<T>)
    ensures PadsUpTo(job.plan.chunks, 0) == [] && OutTo(job, 0) == job.out0
  {
    assert job.out0 + [] == job.out0;
  }

  lemma {:induction false} CrcOn(a: Bytes, b: Bytes)
    ensures Extend(Crc(a), b) == Crc(a + b)
  {
    hide Extend;
    ExtendConcat(0, a, b);
  }

  // With the sentinel's attribution the raw blocks are none, one or two consecutive ones around its first occurrence.
  lemma {:induction false} SentinelKeepsRaw<T>(job: Job<T>, runBytes: nat, sentinel: Bytes) returns (k: nat, m: nat)
    requires job.att == SentinelAttribution(sentinel) && Blocks(job.plan, runBytes)
    requires IsString(sentinel) && |sentinel| <= runBytes
    ensures KeepsRaw(job, k, m) && m <= 2
    ensures m > 0 <==> Occurs(UpTo(job.plan.chunks, |job.plan.chunks|), sentinel)
    ensures forall q: nat :: FirstAt(UpTo(job.plan.chunks, |job.plan.chunks|), sentinel, q) ==>
      |UpTo(job.plan.chunks, k)| <= q && q + |sentinel| <= |UpTo(job.plan.chunks, k + m)|
  {
    hide FirstAt, Occurs, UpTo, Blocks, Pad, SectorsBefore, KeepAfter, IsRaw;
    k, m := RawBlocks(job.plan, runBytes, sentinel);
    forall i | 0 <= i < |job.plan.chunks| ensures BlockAt(job, i).keepRaw <==> k <= i < k + m {
      assert KeptRaw(job.plan, sentinel, i) <==> k <= i < k + m;
    }
  }

  // s' is s with y at position o.
  ghost predicate Swapped(s: Bytes, s': Bytes, o: nat, y: Bytes) {
    && |s'| == |s| && o + |y| <= |s|
    && s'[..o] == s[..o] && s'[o..o + |y|] == y && s'[o + |y|..] == s[o + |y|..]
  }

  lemma {:induction false} SwappedParts(a: Bytes, x: Bytes, y: Bytes, b: Bytes)
    requires |x| == |y|
    ensures Swapped(a + x + b, a + y + b, |a|, y)
  {
  }

  lemma {:induction false} SliceOutside(s: Bytes, s': Bytes, o: nat, y: Bytes, i: nat, j: nat)
    requires Swapped(s, s', o, y) && i <= j <= |s| && (j <= o || o + |y| <= i)
    ensures |s'| == |s| && s'[i..j] == s[i..j]
  {
    if j <= o {
      SliceOfSlice(s, 0, o, i, j);
      SliceOfSlice(s', 0, o, i, j);
      assert s[0..o] == s[..o] && s'[0..o] == s'[..o];
    } else {
      var e := o + |y|;
      SliceOfSlice(s, e, |s|, i - e, j - e);
      SliceOfSlice(s', e, |s'|, i - e, j - e);
      assert s[e..|s|] == s[e..] && s'[e..|s'|] == s'[e..];
    }
  }

  lemma {:induction false} SliceInside(s: Bytes, s': Bytes, o: nat, y: Bytes, i: nat, j: nat)
    requires Swapped(s, s', o, y) && o <= i <= j <= o + |y|
    ensures |s'| == |s| && s'[i..j] == y[i - o..j - o]
  {
    SliceOfSlice(s', o, o + |y|, i - o, j - o);
  }

  function PiecesOf<T>(job: Job<T>): Pieces { Observed(job, |job.plan.chunks|) }

  // The image and the data fork with other bytes in the raw blocks.
  function NewImage<T>(job: Job<T>, y: Bytes): Bytes { PiecesOf(job).bu + y + PiecesOf(job).au }

  function NewFork<T>(job: Job<T>, y: Bytes): Bytes { PiecesOf(job).bc + y + PiecesOf(job).ac }

  // A DMG file with its raw blocks, and the file after other bytes have taken their place.
  ghost predicate EditOf<T>(job: Job<T>, k: nat, m: nat, file: Bytes, file': Bytes, y: Bytes) {
    var s := PiecesOf(job);
    && KeepsRaw(job, k, m) && m > 0 && AllPack(job) && StartsWith(file, OutTo(job, |job.plan.chunks|))
    && |y| == |s.rc| && |s.bc| + |y| <= |file|
    && file' == file[..|s.bc|] + y + file[|s.bc| + |y|..]
  }

  // The resource points at the first raw run, and what updateAttribution puts together are the checksums of
  // the edited image and of the edited data fork.
  lemma {:induction false} EditedChecksums<T>(job: Job<T>, k: nat, m: nat, file: Bytes, file': Bytes, y: Bytes)
    requires EditOf(job, k, m, file, file', y)
    ensures k < |job.plan.chunks| && var s, res := PiecesOf(job), ResourceOf(PiecesOf(job));
      && res.rawPos == RunAt(job, k).compOffset && res.rawLength == |s.ru|
      && NewImage(job, s.ru) == PadsUpTo(job.plan.chunks, |job.plan.chunks|)
      && StartsWith(file', NewFork(job, y))
      && Combine(Combine(res.beforeU.crc, Crc(y), |y|), res.afterU.crc, Length(res.afterU)) == Crc(NewImage(job, y))
      && Combine(Combine(res.beforeC.crc, Crc(y), |y|), res.afterC.crc, Length(res.afterC)) == Crc(NewFork(job, y))
  {
    hide Crc, Combine, AllPack, KeepsRaw, Observed, OutUpTo, PadsUpTo;
    var s, n := PiecesOf(job), |job.plan.chunks|;
    ObservedIs(job, k, m, n);
    RawFirst(job, k, m);
    CombineThree(s.bu, y, s.au);
    CombineThree(s.bc, y, s.ac);
    PartsStart(file, file', s.bc, s.rc, y, s.ac);
  }

  lemma {:induction false} RawFirst<T>(job: Job<T>, k: nat, m: nat)
    requires KeepsRaw(job, k, m) && m > 0
    ensures k < |job.plan.chunks| && RunAt(job, k).compOffset == |OutTo(job, k)|
    ensures CutLow(k, m, |job.plan.chunks|) == k && CutHigh(k, m, |job.plan.chunks|) == k + m
  {
  }

  lemma {:induction false} PartsStart(file: Bytes, file': Bytes, a: Bytes, x: Bytes, y: Bytes, b: Bytes)
    requires StartsWith(file, a + x + b) && |y| == |x|
    requires file' == file[..|a|] + y + file[|a| + |y|..]
    ensures StartsWith(file', a + y + b)
  {
    var all, n := a + x + b, |a + x + b|;
    assert file[..n] == all;
    assert file[..|a|] == all[..|a|] == a;
    assert file[|a| + |y|..n] == all[|a| + |y|..] == b;
    assert file'[..n] == a + y + file[|a| + |y|..n];
  }

  lemma {:induction false} EditSwaps(file: Bytes, o: nat, y: Bytes)
    requires o + |y| <= |file|
    ensures Swapped(file, file[..o] + y + file[o + |y|..], o, y)
  {
    SwappedParts(file[..o], file[o..o + |y|], y, file[o + |y|..]);
    assert file[..o] + file[o..o + |y|] + file[o + |y|..] == file;
  }

  // Where run i lies in the file and in the image.
  lemma {:induction false} RunPlace<T>(job: Job<T>, i: nat)
    requires AllPack(job) && i < |job.plan.chunks|
    ensures var c, n, run := job.plan.chunks, |job.plan.chunks|, RunAt(job, i);
      && run.compOffset == |OutTo(job, i)| && |OutTo(job, i + 1)| == run.compOffset + run.compLength <= |OutTo(job, n)|
      && |PadsUpTo(c, i + 1)| == |PadsUpTo(c, i)| + |Pad(c[i])| <= |PadsUpTo(c, n)|
  {
    assert CanPack(job, i);
    PackIs(job, i);
    RunParts(job, i);
    hide BlockAt, PackAt, Pad, CanPack, RunAt, PadsUpTo, OutTo, AllPack;
    UpToStep(job, i);
    Grows(job, i + 1, |job.plan.chunks|);
    OutToLength(job, i);
  }

  lemma {:induction false} OutToLength<T>(job: Job<T>, i: nat)
    requires i <= |job.plan.chunks|
    ensures |OutTo(job, i)| == |job.out0| + |OutUpTo(job, i)|
  {
  }

  // A raw run lies as far into the raw bytes of the file as its block does into those of the image.
  lemma {:induction false} RawDistance<T>(job: Job<T>, k: nat, m: nat, i: nat)
    requires KeepsRaw(job, k, m) && AllPack(job) && k <= i <= k + m
    ensures |OutTo(job, i)| - |OutTo(job, k)| == |PadsUpTo(job.plan.chunks, i)| - |PadsUpTo(job.plan.chunks, k)|
  {
    hide BlockAt, PackAt, Pad, CanPack, PadsUpTo, OutTo;
    if i > k {
      RawDistance(job, k, m, i - 1);
      assert CanPack(job, i - 1);
      PackIs(job, i - 1);
      UpToStep(job, i - 1);
    }
  }

  lemma {:induction false} RawPlace<T>(job: Job<T>, k: nat, m: nat, i: nat)
    requires KeepsRaw(job, k, m) && AllPack(job) && k <= i < k + m
    ensures RunAt(job, i).typ == BLOCK_RAW && RunAt(job, i).compLength == |Pad(job.plan.chunks[i])|
  {
    assert CanPack(job, i);
    PackIs(job, i);
    RunParts(job, i);
  }

  lemma {:induction false} Grows<T>(job: Job<T>, i: nat, j: nat)
    requires i <= j <= |job.plan.chunks|
    ensures |OutTo(job, i)| <= |OutTo(job, j)| && |PadsUpTo(job.plan.chunks, i)| <= |PadsUpTo(job.plan.chunks, j)|
  {
    hide PackAt, Pad;
    if i < j {
      Grows(job, i, j - 1);
    }
  }

  // Decoding looks at the bytes of the run only.
  lemma {:induction false} DecodesSame(src: Bytes, src': Bytes, run: Run, decompress: Decompressor, content: Bytes)
    requires Decodes(src, run, 0, decompress, content) && |src'| == |src|
    requires src'[run.compOffset..run.compOffset + run.compLength] == src[run.compOffset..run.compOffset + run.compLength]
    ensures Decodes(src', run, 0, decompress, content)
  {
  }

  lemma {:induction false} DecodesRaw(src: Bytes, src': Bytes, run: Run, decompress: Decompressor, content: Bytes, content': Bytes)
    requires Decodes(src, run, 0, decompress, content) && |src'| == |src| && run.typ == BLOCK_RAW
    requires |content'| == |content| && src'[run.compOffset..run.compOffset + run.compLength] == content'
    ensures Decodes(src', run, 0, decompress, content')
  {
  }

  // One run: outside the raw bytes nothing changed, inside file and image changed alike.
  lemma {:induction false} EditedRun(file: Bytes, file': Bytes, ob: nat, image: Bytes, image': Bytes, pb: nat, y: Bytes,
                                     run: Run, p0: nat, p1: nat, decompress: Decompressor)
    requires Swapped(file, file', ob, y) && Swapped(image, image', pb, y)
    requires p0 <= p1 <= |image| && Decodes(file, run, 0, decompress, image[p0..p1])
    requires run.compOffset + run.compLength <= |file|
    requires (run.compOffset + run.compLength <= ob && p1 <= pb) || (ob + |y| <= run.compOffset && pb + |y| <= p0)
      || (run.typ == BLOCK_RAW && ob <= run.compOffset && run.compOffset + run.compLength <= ob + |y|
          && pb <= p0 && run.compOffset - ob == p0 - pb && run.compLength == p1 - p0)
    ensures |image'| == |image| && Decodes(file', run, 0, decompress, image'[p0..p1])
  {
    hide Decodes, Swapped;
    var o0, o1 := run.compOffset, run.compOffset + run.compLength;
    SwappedSizes(file, file', ob, y);
    SwappedSizes(image, image', pb, y);
    if (o1 <= ob && p1 <= pb) || (ob + |y| <= o0 && pb + |y| <= p0) {
      SliceOutside(file, file', ob, y, o0, o1);
      SliceOutside(image, image', pb, y, p0, p1);
      DecodesSame(file, file', run, decompress, image[p0..p1]);
    } else {
      SliceInside(file, file', ob, y, o0, o1);
      SliceInside(image, image', pb, y, p0, p1);
      DecodesRaw(file, file', run, decompress, image[p0..p1], image'[p0..p1]);
    }
  }

  lemma {:induction false} SwappedSizes(s: Bytes, s': Bytes, o: nat, y: Bytes)
    requires Swapped(s, s', o, y)
    ensures |s'| == |s| && o + |y| <= |s|
  {
  }

  lemma {:induction false} RunInImage<T>(job: Job<T>, i: nat, file: Bytes, decompress: Decompressor)
    requires i < |job.plan.chunks| && AllPack(job) && job.plan.chunks[i] != [] && Inverse(job.comp, decompress)
    requires StartsWith(file, job.out0 + OutUpTo(job, |job.plan.chunks|))
    ensures var c := job.plan.chunks;
      && |PadsUpTo(c, i)| <= |PadsUpTo(c, i + 1)| <= |PadsUpTo(c, |c|)|
      && RunAt(job, i).compOffset + RunAt(job, i).compLength <= |file|
      && Decodes(file, RunAt(job, i), 0, decompress, PadsUpTo(c, |c|)[|PadsUpTo(c, i)|..|PadsUpTo(c, i + 1)|])
  {
    assert CanPack(job, i);
    hide *;
    RunHolds(job, i, file, decompress);
    PadSlice(job.plan.chunks, i, |job.plan.chunks|);
    RunThere(file, RunAt(job, i), decompress, Pad(job.plan.chunks[i]));
  }

  lemma {:induction false} RunThere(src: Bytes, run: Run, decompress: Decompressor, content: Bytes)
    requires Decodes(src, run, 0, decompress, content)
    ensures run.compOffset + run.compLength <= |src|
  {
  }

  // Every run of the edited file decodes to its part of the edited image.
  lemma {:induction false} EditedRuns<T>(job: Job<T>, k: nat, m: nat, file: Bytes, file': Bytes, y: Bytes, decompress: Decompressor, i: nat)
    requires EditOf(job, k, m, file, file', y) && Inverse(job.comp, decompress)
    requires i < |job.plan.chunks| && job.plan.chunks[i] != []
    ensures var c := job.plan.chunks;
      && |PadsUpTo(c, i)| <= |PadsUpTo(c, i + 1)| <= |NewImage(job, y)|
      && Decodes(file', RunAt(job, i), 0, decompress, NewImage(job, y)[|PadsUpTo(c, i)|..|PadsUpTo(c, i + 1)|])
  {
    assert CanPack(job, i);
    hide *;
    EditParts(job, k, m, file, file', y);
    EditImages(job, k, m, file, file', y);
    var n, c := |job.plan.chunks|, job.plan.chunks;
    RunInImage(job, i, file, decompress);
    RunPlace(job, i);
    RunWhere(job, k, m, i);
    EditedRun(file, file', |OutTo(job, k)|, PadsUpTo(c, n), NewImage(job, y), |PadsUpTo(c, k)|, y, RunAt(job, i),
              |PadsUpTo(c, i)|, |PadsUpTo(c, i + 1)|, decompress);
  }

  lemma {:induction false} EditParts<T>(job: Job<T>, k: nat, m: nat, file: Bytes, file': Bytes, y: Bytes)
    requires EditOf(job, k, m, file, file', y)
    ensures KeepsRaw(job, k, m) && m > 0 && AllPack(job) && k + m <= |job.plan.chunks|
    ensures StartsWith(file, job.out0 + OutUpTo(job, |job.plan.chunks|)) && |OutTo(job, |job.plan.chunks|)| <= |file|
    ensures |PadsUpTo(job.plan.chunks, k)| + |y| == |PadsUpTo(job.plan.chunks, k + m)|
    ensures |OutTo(job, k)| + |y| == |OutTo(job, k + m)|
  {
    RawFirst(job, k, m);
    ObservedIs(job, k, m, |job.plan.chunks|);
    hide AllPack, Observed, OutUpTo, PadsUpTo;
  }

  lemma {:induction false} EditImages<T>(job: Job<T>, k: nat, m: nat, file: Bytes, file': Bytes, y: Bytes)
    requires EditOf(job, k, m, file, file', y)
    ensures k < |job.plan.chunks|
    ensures Swapped(file, file', |OutTo(job, k)|, y)
    ensures Swapped(PadsUpTo(job.plan.chunks, |job.plan.chunks|), NewImage(job, y), |PadsUpTo(job.plan.chunks, k)|, y)
  {
    RawFirst(job, k, m);
    ObservedIs(job, k, m, |job.plan.chunks|);
    hide AllPack, Observed, OutUpTo, PadsUpTo, Swapped;
    var s := PiecesOf(job);
    SwappedParts(s.bu, s.ru, y, s.au);
    EditSwaps(file, |s.bc|, y);
  }

  lemma {:induction false} RunWhere<T>(job: Job<T>, k: nat, m: nat, i: nat)
    requires KeepsRaw(job, k, m) && m > 0 && k + m <= |job.plan.chunks| && AllPack(job) && i < |job.plan.chunks|
    ensures i < k ==> |OutTo(job, i + 1)| <= |OutTo(job, k)| && |PadsUpTo(job.plan.chunks, i + 1)| <= |PadsUpTo(job.plan.chunks, k)|
    ensures k + m <= i ==> |OutTo(job, k + m)| <= |OutTo(job, i)| && |PadsUpTo(job.plan.chunks, k + m)| <= |PadsUpTo(job.plan.chunks, i)|
    ensures k <= i < k + m ==>
      && RunAt(job, i).typ == BLOCK_RAW && RunAt(job, i).compLength == |Pad(job.plan.chunks[i])|
      && |OutTo(job, k)| <= |OutTo(job, i)| && |OutTo(job, i + 1)| <= |OutTo(job, k + m)|
      && |PadsUpTo(job.plan.chunks, k)| <= |PadsUpTo(job.plan.chunks, i)|
      && |OutTo(job, i)| - |OutTo(job, k)| == |PadsUpTo(job.plan.chunks, i)| - |PadsUpTo(job.plan.chunks, k)|
  {
    hide *;
    if i < k {
      Grows(job, i + 1, k);
    } else if i < k + m {
      Grows(job, k, i);
      Grows(job, i + 1, k + m);
      RawPlace(job, k, m, i);
      RawDistance(job, k, m, i);
    } else {
      Grows(job, k + m, i);
    }
  }
}
