/**
  A DMG built with a sentinel and attributed afterwards: the main partition in
  buildDmg (dmg/dmglib.c), then updateAttribution (dmg/attribution.c).
 */
module AttributedDmg {
  import opened Common
  import opened DmgFormat
  import opened DmgWriter
  import opened DmgReader
  import opened Crc32
  import opened SentinelSearch
  import opened Attributing

  // What buildDmg asks of insertBLKX.
  function MainJob(out: File, inFile: File, bytes: int, sentinel: Bytes, comp: Compressor, runSectors: nat): Job<Word>
    requires runSectors > 0 && bytes >= READ_UNTIL_EOF && inFile.pos <= |inFile.data|
  {
    JobOf(out, inFile, bytes, Extend, Crc([]), Extend, Crc(out.data), SentinelAttribution(sentinel), comp, runSectors)
  }

  // The bytes that are put into the partition.
  function Input(inFile: File, bytes: int): Bytes
    requires inFile.pos <= |inFile.data|
  {
    var left := inFile.data[inFile.pos..];
    if 0 <= bytes <= |left| then left[..bytes] else left
  }

  /* ----- The blocks of the job are those the search for the sentinel assumes ----- */

  lemma {:induction false} UpToFront(chunks: seq<Bytes>, i: nat)
    requires 1 <= i <= |chunks|
    ensures UpTo(chunks, i) == chunks[0] + UpTo(chunks[1..], i - 1)
  {
    if i > 1 {
      UpToFront(chunks, i - 1);
      assert chunks[1..][i - 2] == chunks[i - 1];
    } else {
      assert UpTo(chunks, 0) == [] && UpTo(chunks[1..], 0) == [];
    }
  }

  lemma {:induction false} UpToIsConcat(chunks: seq<Bytes>)
    ensures UpTo(chunks, |chunks|) == Concat(chunks)
  {
    if chunks != [] {
      UpToFront(chunks, |chunks|);
      UpToIsConcat(chunks[1..]);
    }
  }

  // The facts about a plan that is not short.
  ghost predicate PlanIs(plan: Plan, runBytes: nat, input: Bytes) {
    && Blocks(plan, runBytes)
    && UpTo(plan.chunks, |plan.chunks|) == input && PadsUpTo(plan.chunks, |plan.chunks|) == Pad(input)
    && forall i :: 0 <= i < |plan.chunks| ==> plan.chunks[i] != []
  }

  lemma {:induction false} JobBlocks(out: File, inFile: File, bytes: int, sentinel: Bytes, comp: Compressor, runSectors: nat)
    requires runSectors > 0 && bytes >= READ_UNTIL_EOF && inFile.pos <= |inFile.data|
    requires !MainJob(out, inFile, bytes, sentinel, comp, runSectors).plan.short
    ensures PlanIs(MainJob(out, inFile, bytes, sentinel, comp, runSectors).plan, runSectors * SECTOR_SIZE, Input(inFile, bytes))
  {
    hide Pad, Chunks, PlanOf, Concat, UpTo, PadsUpTo, Crc;
    var left, n, input := inFile.data[inFile.pos..], runSectors * SECTOR_SIZE, Input(inFile, bytes);
    PlanIsChunks(left, bytes, n);
    ChunksAreData(input, n);
    PadsAreInput(input, n);
    UpToIsConcat(Chunks(input, n));
  }

  /* ----- Observing while the partition is written ----- */

  lemma {:induction false} ObserveOne<T>(job: Job<T>, i: nat)
    requires i < |job.plan.chunks|
    ensures Observed(job, i + 1) == Observe(Observed(job, i), PackAt(job, i).b.keepRaw, PackAt(job, i).b.inbuf, PackAt(job, i).outbuf)
  {
    hide PackAt, Observe;
  }

  // blockWrite hands each block to observeBuffers in turn.
  method ObserveAll<T>(sentinelData: SentinelData, observed: seq<Packed>, ghost job: Job<T>)
    requires sentinelData.Valid() && sentinelData.pieces == Observed(job, 0) && observed == PacksUpTo(job, |job.plan.chunks|)
    modifies sentinelData
    ensures sentinelData.Valid() && sentinelData.pieces == Observed(job, |job.plan.chunks|)
  {
    hide *;
    var i := 0;
    while i < |observed|
      invariant i <= |observed| == |job.plan.chunks| && sentinelData.Valid() && sentinelData.pieces == Observed(job, i)
    {
      ObserveOne(job, i);
      sentinelData.ObserveBuffers(observed[i].b.keepRaw, observed[i].b.inbuf, observed[i].outbuf);
      i := i + 1;
    }
  }

  lemma {:induction false} NothingObserved<T>(job: Job<T>)
    ensures Observed(job, 0) == Pieces(false, [], [], [], job.out0, [], [])
  {
  }

  lemma {:induction false} MainTokens(out: File, inFile: File, bytes: int, sentinel: Bytes, comp: Compressor, runSectors: nat,
                                      firstSectorNumber: nat, made: Inserted<Word>)
    requires runSectors > 0 && bytes >= READ_UNTIL_EOF && inFile.pos <= |inFile.data|
    requires var job := MainJob(out, inFile, bytes, sentinel, comp, runSectors);
      !job.plan.short && AllPack(job) && IsSequential(job, firstSectorNumber, made)
    ensures made.token1 == Crc(Pad(Input(inFile, bytes))) && made.token2 == Crc(made.out.data)
  {
    hide AllPack, Pad, Crc, UpTo, PadsUpTo, Blocks, Token1, Token2, PlanOf, OutUpTo, Input;
    var job := MainJob(out, inFile, bytes, sentinel, comp, runSectors);
    JobBlocks(out, inFile, bytes, sentinel, comp, runSectors);
    TokensAreChecksums(job, |job.plan.chunks|);
  }

  // The main partition: what is written, and the attribution resource that goes with it.
  method BuildMain(out: File, inFile: File, firstSectorNumber: nat, bytes: int, sentinel: Bytes, comp: Compressor, runSectors: nat,
                   nthreads: nat, dataForkToken: Word)
    returns (r: Option<(Inserted<Word>, AttributionResource)>)
    requires runSectors > 0 && nthreads > 0 && bytes >= READ_UNTIL_EOF
    requires inFile.pos <= |inFile.data| && out.pos == |out.data| && dataForkToken == Crc(out.data)
    ensures var job := MainJob(out, inFile, bytes, sentinel, comp, runSectors);
      && (r.Some? <==> !job.plan.short && AllPack(job))
      && (r.Some? ==> IsSequential(job, firstSectorNumber, r.value.0) && r.value.1 == ResourceOf(PiecesOf(job)))
      && (r.Some? ==> r.value.0.token1 == Crc(Pad(Input(inFile, bytes))) && r.value.0.token2 == Crc(r.value.0.out.data))
  {
    hide AllPack, Observed, ResourceOf, PackAt, Extend;
    ghost var job := MainJob(out, inFile, bytes, sentinel, comp, runSectors);
    NothingObserved(job);
    var sentinelData := new SentinelData();
    sentinelData.BeforeMainBlkx(out.pos, dataForkToken, out.data);
    var made := InsertBLKX(out, inFile, firstSectorNumber, bytes, Extend, Crc([]), Extend, dataForkToken,
                           SentinelAttribution(sentinel), comp, runSectors, nthreads);
    if made.None? {
      return None;
    }
    MainTokens(out, inFile, bytes, sentinel, comp, runSectors, firstSectorNumber, made.value);
    ObserveAll(sentinelData, made.value.observed, job);
    var resource := sentinelData.AfterMainBlkx();
    r := Some((made.value, resource));
  }

  /* ----- The raw window ----- */

  // The raw window of the file holds the raw bytes of the image; without raw blocks it is empty.
  lemma {:induction false} WindowIs<T>(job: Job<T>, k: nat, m: nat, file: Bytes)
    requires KeepsRaw(job, k, m) && AllPack(job) && StartsWith(file, OutTo(job, |job.plan.chunks|))
    ensures var s := PiecesOf(job);
      && |s.bc| + |s.rc| <= |file| && file[|s.bc|..|s.bc| + |s.rc|] == s.rc == s.ru
      && PadsUpTo(job.plan.chunks, |job.plan.chunks|) == s.bu + s.ru + s.au
      && (m == 0 ==> s.rc == [])
  {
    hide AllPack, KeepsRaw, Observed, OutTo, PadsUpTo, StartsWith;
    var s, n := PiecesOf(job), |job.plan.chunks|;
    ObservedIs(job, k, m, n);
    StartSlice(file, s.bc, s.rc, s.ac);
    if m == 0 {
      assert |s.bc + s.rc| == |s.bc|;
    }
  }

  lemma {:induction false} StartSlice(file: Bytes, a: Bytes, x: Bytes, b: Bytes)
    requires StartsWith(file, a + x + b)
    ensures |a| + |x| <= |file| && file[|a|..|a| + |x|] == x
  {
    var n := |a + x + b|;
    assert file[..n][|a|..|a| + |x|] == file[|a|..|a| + |x|];
    assert (a + x + b)[|a|..|a| + |x|] == x;
  }

  lemma {:induction false} FirstOf(s: Bytes, str: Bytes) returns (p: nat)
    requires Occurs(s, str)
    ensures FirstAt(s, str, p)
  {
    p := 0;
    while !OccursAt(s, str, p)
      invariant p <= |s| && forall q: nat :: q < p ==> !OccursAt(s, str, q)
      decreases |s| - p
    {
      p := p + 1;
    }
  }

  // Before the last block nothing is padded.
  lemma {:induction false} PadsBefore(plan: Plan, runBytes: nat, i: nat)
    requires Blocks(plan, runBytes) && i <= |plan.chunks|
    ensures |UpTo(plan.chunks, i)| <= |PadsUpTo(plan.chunks, i)|
    ensures i < |plan.chunks| ==> |UpTo(plan.chunks, i)| == |PadsUpTo(plan.chunks, i)|
  {
    hide Pad;
    if i > 0 {
      PadsBefore(plan, runBytes, i - 1);
      if i < |plan.chunks| {
        FullIsPadded(plan, runBytes, i - 1);
      }
    }
  }

  // The sentinel's first occurrence lies in the raw window.
  lemma {:induction false} SentinelInWindow<T>(job: Job<T>, runBytes: nat, input: Bytes, k: nat, m: nat, sentinel: Bytes, q: nat)
    requires PlanIs(job.plan, runBytes, input) && KeepsRaw(job, k, m) && m > 0 && AllPack(job) && OccursAt(input, sentinel, q)
    requires |UpTo(job.plan.chunks, k)| <= q && q + |sentinel| <= |UpTo(job.plan.chunks, k + m)|
    ensures Occurs(PiecesOf(job).ru, sentinel)
  {
    hide AllPack, Observed, OutTo, PadsUpTo, UpTo, Pad, Blocks;
    var s, c, n := PiecesOf(job), job.plan.chunks, |job.plan.chunks|;
    RawFirst(job, k, m);
    hide KeepsRaw;
    ObservedIs(job, k, m, n);
    PadsBefore(job.plan, runBytes, k);
    PadsBefore(job.plan, runBytes, k + m);
    OccursPadded(input, sentinel, q);
    OccursBetween(s.bu, s.ru, s.au, sentinel, q);
  }

  lemma {:induction false} OccursPadded(input: Bytes, str: Bytes, q: nat)
    requires OccursAt(input, str, q)
    ensures OccursAt(Pad(input), str, q)
  {
    assert Pad(input)[..|input|] == input;
    assert Pad(input)[..|input|][q..q + |str|] == Pad(input)[q..q + |str|];
  }

  lemma {:induction false} OccursBetween(a: Bytes, x: Bytes, b: Bytes, str: Bytes, q: nat)
    requires OccursAt(a + x + b, str, q) && |a| <= q && q + |str| <= |a| + |x|
    ensures Occurs(x, str)
  {
    assert (a + x + b)[|a|..|a| + |x|] == x;
    OccursShift(a + x + b, |a|, |a| + |x|, str, q);
    assert OccursAt(x, str, q - |a|);
  }

  /* ----- What the attributed file is ----- */

  // Run i of the file decodes to its part of the image.
  ghost predicate RunHas<T>(job: Job<T>, i: nat, file: Bytes, decompress: Decompressor, image: Bytes) {
    && i < |job.plan.chunks|
    && |PadsUpTo(job.plan.chunks, i)| <= |PadsUpTo(job.plan.chunks, i + 1)| <= |image|
    && Decodes(file, RunAt(job, i), 0, decompress, image[|PadsUpTo(job.plan.chunks, i)|..|PadsUpTo(job.plan.chunks, i + 1)|])
  }

  // The image is the padded input with its raw window edited at the anchor, every run of the file decodes to
  // its part of that image, and the checksums are those of image, window and data fork.
  ghost predicate Attests<T>(job: Job<T>, input: Bytes, anchor: Bytes, data: Bytes, p: nat, decompress: Decompressor, a: Attributed) {
    var s := PiecesOf(job);
    && FirstAt(s.ru, anchor, p) && p + |data| <= |s.ru|
    && var y := Edited(s.ru, p, data);
    && Swapped(Pad(input), NewImage(job, y), |s.bu|, y)
    && StartsWith(a.file, NewFork(job, y))
    && (forall i :: 0 <= i < |job.plan.chunks| ==> RunHas(job, i, a.file, decompress, NewImage(job, y)))
    && a.rawChecksum == Crc(y)
    && a.blkxChecksum == Crc(NewImage(job, y))
    && a.dataForkChecksum == Crc(NewFork(job, y))
  }

  // The resource points at a raw run.
  ghost predicate RawStart<T>(job: Job<T>, res: AttributionResource, k: nat) {
    k < |job.plan.chunks| && RunAt(job, k).typ == BLOCK_RAW && res.rawPos == RunAt(job, k).compOffset
  }

  // The resource points at a raw run, and the file attests to the image edited at some place of the anchor.
  ghost predicate Concludes<T>(job: Job<T>, input: Bytes, anchor: Bytes, data: Bytes, decompress: Decompressor,
                               res: AttributionResource, a: Attributed) {
    && (exists k: nat :: RawStart(job, res, k))
    && (exists p: nat :: Attests(job, input, anchor, data, p, decompress, a))
  }

  // A window in which the anchor was found is that of raw blocks.
  lemma {:induction false} SomeRaw<T>(job: Job<T>, k: nat, m: nat, file: Bytes, anchor: Bytes, data: Bytes, p: nat)
    requires KeepsRaw(job, k, m) && AllPack(job) && StartsWith(file, OutTo(job, |job.plan.chunks|)) && anchor != []
    ensures FitsAt(file, ResourceOf(PiecesOf(job)), anchor, data, p) <==>
      FirstAt(PiecesOf(job).ru, anchor, p) && p + |data| <= |PiecesOf(job).ru|
    ensures FirstAt(PiecesOf(job).ru, anchor, p) ==> m > 0
  {
    hide AllPack, KeepsRaw, Observed, OutTo, PadsUpTo, StartsWith, Crc;
    WindowIs(job, k, m, file);
  }

  lemma {:induction false} IsEdit<T>(job: Job<T>, k: nat, m: nat, file: Bytes, anchor: Bytes, data: Bytes, p: nat, a: Attributed)
    requires KeepsRaw(job, k, m) && AllPack(job) && StartsWith(file, OutTo(job, |job.plan.chunks|)) && anchor != []
    requires AttributedAt(file, ResourceOf(PiecesOf(job)), anchor, data, p, a)
    ensures FirstAt(PiecesOf(job).ru, anchor, p) && p + |data| <= |PiecesOf(job).ru|
    ensures var y := Edited(PiecesOf(job).ru, p, data);
      && EditOf(job, k, m, file, a.file, y) && a.rawChecksum == Crc(y)
      && var res := ResourceOf(PiecesOf(job));
      && a.blkxChecksum == Combine(Combine(res.beforeU.crc, Crc(y), |y|), res.afterU.crc, Length(res.afterU))
      && a.dataForkChecksum == Combine(Combine(res.beforeC.crc, Crc(y), |y|), res.afterC.crc, Length(res.afterC))
  {
    hide AllPack, KeepsRaw, Observed, OutTo, PadsUpTo, StartsWith, Crc, Combine, Edited;
    WindowIs(job, k, m, file);
    SomeRaw(job, k, m, file, anchor, data, p);
  }

  lemma {:induction false} Attest<T>(job: Job<T>, runBytes: nat, input: Bytes, k: nat, m: nat, file: Bytes, anchor: Bytes, data: Bytes,
                                     p: nat, decompress: Decompressor, a: Attributed)
    requires PlanIs(job.plan, runBytes, input) && KeepsRaw(job, k, m) && AllPack(job) && Inverse(job.comp, decompress)
    requires StartsWith(file, OutTo(job, |job.plan.chunks|)) && anchor != []
    requires AttributedAt(file, ResourceOf(PiecesOf(job)), anchor, data, p, a)
    ensures m > 0 && Attests(job, input, anchor, data, p, decompress, a)
  {
    hide AllPack, KeepsRaw, Observed, OutTo, PadsUpTo, StartsWith, Crc, Combine, Edited, AttributedAt, Decodes, Inverse, EditOf, RunAt,
         Blocks, UpTo, Pad, FirstAt, Swapped, NewImage, NewFork;
    SomeRaw(job, k, m, file, anchor, data, p);
    IsEdit(job, k, m, file, anchor, data, p, a);
    var y := Edited(PiecesOf(job).ru, p, data);
    EditedChecksums(job, k, m, file, a.file, y);
    EditImages(job, k, m, file, a.file, y);
    WindowAt(job, k, m);
    forall i | 0 <= i < |job.plan.chunks| ensures RunHas(job, i, a.file, decompress, NewImage(job, y)) {
      EditedRuns(job, k, m, file, a.file, y, decompress, i);
    }
  }

  lemma {:induction false} WindowAt<T>(job: Job<T>, k: nat, m: nat)
    requires KeepsRaw(job, k, m) && AllPack(job) && m > 0
    ensures k < |job.plan.chunks| && |PiecesOf(job).bu| == |PadsUpTo(job.plan.chunks, k)|
  {
    RawFirst(job, k, m);
    hide AllPack, KeepsRaw, Observed, OutTo, PadsUpTo;
    ObservedIs(job, k, m, |job.plan.chunks|);
  }

  // Some place where the anchor is found in the raw window and the data fits.
  ghost predicate Room<T>(job: Job<T>, anchor: Bytes, data: Bytes) {
    exists q: nat :: FirstAt(PiecesOf(job).ru, anchor, q) && q + |data| <= |PiecesOf(job).ru|
  }

  ghost predicate FitsSomewhere(file: Bytes, res: AttributionResource, anchor: Bytes, data: Bytes) {
    exists q: nat :: FitsAt(file, res, anchor, data, q)
  }

  lemma {:induction false} FitAttributes(file: Bytes, res: AttributionResource, anchor: Bytes, data: Bytes, a: Attributed) returns (p: nat)
    requires FitsSomewhere(file, res, anchor, data)
    requires forall q: nat :: FirstAt(file[res.rawPos..res.rawPos + res.rawLength], anchor, q) ==>
      AttributedAt(file, res, anchor, data, q, a)
    ensures AttributedAt(file, res, anchor, data, p, a)
  {
    hide FirstAt, AttributedAt;
    p :| FitsAt(file, res, anchor, data, p);
  }

  method Attribute(file: Bytes, res: AttributionResource, anchor: Bytes, data: Bytes) returns (r: Option<Attributed>)
    requires IsString(anchor)
    ensures r.Some? <==> FitsSomewhere(file, res, anchor, data)
    ensures r.Some? ==> exists q: nat :: AttributedAt(file, res, anchor, data, q, r.value)
  {
    hide FirstAt, AttributedAt, FitsAt;
    r := UpdateAttribution(file, res, anchor, data);
    if r.Some? {
      ghost var q := FitAttributes(file, res, anchor, data, r.value);
    }
  }

  // Built and attributed.  The attribution succeeds exactly when the anchor is in the raw window and the data
  // fits behind its first place there; with the sentinel as the anchor, and data no longer than it, exactly when
  // the input has the sentinel.  Then the raw position is the offset of a raw run, and the file attests to the
  // edited image.
  method BuildAndAttribute(out: File, inFile: File, firstSectorNumber: nat, bytes: int, sentinel: Bytes, comp: Compressor, runSectors: nat,
                           nthreads: nat, dataForkToken: Word, rest: Bytes, anchor: Bytes, data: Bytes, ghost decompress: Decompressor)
    returns (built: Option<(Inserted<Word>, AttributionResource)>, r: Option<Attributed>)
    requires runSectors > 0 && nthreads > 0 && bytes >= READ_UNTIL_EOF
    requires inFile.pos <= |inFile.data| && out.pos == |out.data| && dataForkToken == Crc(out.data)
    requires IsString(sentinel) && |sentinel| <= runSectors * SECTOR_SIZE && IsString(anchor) && Inverse(comp, decompress)
    ensures var job := MainJob(out, inFile, bytes, sentinel, comp, runSectors);
      && (built.Some? <==> !job.plan.short && AllPack(job))
      && (built.Some? ==> IsSequential(job, firstSectorNumber, built.value.0))
      && (built.Some? ==> (r.Some? <==> Room(job, anchor, data)))
    ensures built.Some? && anchor == sentinel && |data| <= |sentinel| ==> (r.Some? <==> Occurs(Input(inFile, bytes), sentinel))
    ensures r.Some? ==> built.Some?
    ensures var job := MainJob(out, inFile, bytes, sentinel, comp, runSectors);
      r.Some? ==> Concludes(job, Input(inFile, bytes), anchor, data, decompress, built.value.1, r.value)
  {
    ghost var job := MainJob(out, inFile, bytes, sentinel, comp, runSectors);
    JobSettings(out, inFile, bytes, sentinel, comp, runSectors);
    hide *;
    r := None;
    built := BuildMain(out, inFile, firstSectorNumber, bytes, sentinel, comp, runSectors, nthreads, dataForkToken);
    if built.Some? {
      JobBlocks(out, inFile, bytes, sentinel, comp, runSectors);
      var file := built.value.0.out.data + rest;
      MadeStarts(job, firstSectorNumber, built.value.0, rest);
      r := Attribute(file, built.value.1, anchor, data);
      Concluded(job, runSectors * SECTOR_SIZE, Input(inFile, bytes), sentinel, file, anchor, data, decompress, r);
    }
  }

  lemma {:induction false} JobSettings(out: File, inFile: File, bytes: int, sentinel: Bytes, comp: Compressor, runSectors: nat)
    requires runSectors > 0 && bytes >= READ_UNTIL_EOF && inFile.pos <= |inFile.data|
    ensures var job := MainJob(out, inFile, bytes, sentinel, comp, runSectors);
      job.att == SentinelAttribution(sentinel) && job.comp == comp
  {
  }

  lemma {:induction false} MadeStarts<T>(job: Job<T>, firstSectorNumber: nat, made: Inserted<T>, rest: Bytes)
    requires IsSequential(job, firstSectorNumber, made)
    ensures StartsWith(made.out.data + rest, OutTo(job, |job.plan.chunks|))
  {
  }

  lemma {:induction false} RoomIsFit<T>(job: Job<T>, k: nat, m: nat, file: Bytes, anchor: Bytes, data: Bytes)
    requires KeepsRaw(job, k, m) && AllPack(job) && StartsWith(file, OutTo(job, |job.plan.chunks|)) && anchor != []
    ensures FitsSomewhere(file, ResourceOf(PiecesOf(job)), anchor, data) <==> Room(job, anchor, data)
  {
    hide AllPack, KeepsRaw, Observed, OutTo, StartsWith, ResourceOf, FitsAt, FirstAt;
    forall q: nat
      ensures FitsAt(file, ResourceOf(PiecesOf(job)), anchor, data, q) <==>
        FirstAt(PiecesOf(job).ru, anchor, q) && q + |data| <= |PiecesOf(job).ru|
    {
      SomeRaw(job, k, m, file, anchor, data, q);
    }
  }

  // Data no longer than the sentinel fits where the sentinel is.
  lemma {:induction false} SentinelHasRoom<T>(job: Job<T>, runBytes: nat, input: Bytes, sentinel: Bytes, data: Bytes, k: nat, m: nat)
    requires PlanIs(job.plan, runBytes, input) && KeepsRaw(job, k, m) && m > 0 && AllPack(job) && |data| <= |sentinel|
    requires Occurs(input, sentinel)
    requires forall q: nat :: FirstAt(input, sentinel, q) ==>
      |UpTo(job.plan.chunks, k)| <= q && q + |sentinel| <= |UpTo(job.plan.chunks, k + m)|
    ensures Room(job, sentinel, data)
  {
    hide AllPack, KeepsRaw, Observed, Occurs, PlanIs, UpTo;
    var q := FirstOf(input, sentinel);
    SentinelInWindow(job, runBytes, input, k, m, sentinel, q);
    var p := FirstOf(PiecesOf(job).ru, sentinel);
  }

  lemma {:induction false} RoomIsRaw<T>(job: Job<T>, k: nat, m: nat, file: Bytes, anchor: Bytes, data: Bytes)
    requires KeepsRaw(job, k, m) && AllPack(job) && StartsWith(file, OutTo(job, |job.plan.chunks|)) && anchor != []
    requires Room(job, anchor, data)
    ensures m > 0
  {
    hide AllPack, KeepsRaw, Observed, OutTo, StartsWith, FitsAt, FirstAt;
    var q: nat :| FirstAt(PiecesOf(job).ru, anchor, q) && q + |data| <= |PiecesOf(job).ru|;
    SomeRaw(job, k, m, file, anchor, data, q);
  }

  lemma {:induction false} FirstRawRun<T>(job: Job<T>, k: nat, m: nat)
    requires KeepsRaw(job, k, m) && AllPack(job) && m > 0
    ensures RawStart(job, ResourceOf(PiecesOf(job)), k)
  {
    RawFirst(job, k, m);
    RawPlace(job, k, m, k);
    hide AllPack, KeepsRaw, Observed, OutTo, PadsUpTo, RunAt, Crc;
    ObservedIs(job, k, m, |job.plan.chunks|);
  }

  lemma {:induction false} Concluded<T>(job: Job<T>, runBytes: nat, input: Bytes, sentinel: Bytes, file: Bytes, anchor: Bytes, data: Bytes,
                                        decompress: Decompressor, r: Option<Attributed>)
    requires job.att == SentinelAttribution(sentinel) && IsString(sentinel) && |sentinel| <= runBytes && anchor != []
    requires PlanIs(job.plan, runBytes, input) && AllPack(job) && Inverse(job.comp, decompress)
    requires StartsWith(file, OutTo(job, |job.plan.chunks|))
    requires r.Some? <==> FitsSomewhere(file, ResourceOf(PiecesOf(job)), anchor, data)
    requires r.Some? ==> exists q: nat :: AttributedAt(file, ResourceOf(PiecesOf(job)), anchor, data, q, r.value)
    ensures r.Some? <==> Room(job, anchor, data)
    ensures anchor == sentinel && |data| <= |sentinel| ==> (r.Some? <==> Occurs(input, sentinel))
    ensures r.Some? ==> Concludes(job, input, anchor, data, decompress, ResourceOf(PiecesOf(job)), r.value)
  {
    PlanBlocks(job.plan, runBytes, input);
    hide *;
    var k, m := SentinelKeepsRaw(job, runBytes, sentinel);
    RoomIsFit(job, k, m, file, anchor, data);
    if r.Some? {
      RoomIsRaw(job, k, m, file, anchor, data);
      FirstRawRun(job, k, m);
      var p: nat :| AttributedAt(file, ResourceOf(PiecesOf(job)), anchor, data, p, r.value);
      Attest(job, runBytes, input, k, m, file, anchor, data, p, decompress, r.value);
      ConcludesAt(job, input, anchor, data, decompress, r.value, k, p);
    } else if anchor == sentinel && |data| <= |sentinel| && Occurs(input, sentinel) {
      SentinelHasRoom(job, runBytes, input, sentinel, data, k, m);
      assert false;
    }
  }

  lemma {:induction false} ConcludesAt<T>(job: Job<T>, input: Bytes, anchor: Bytes, data: Bytes, decompress: Decompressor, a: Attributed,
                                          k: nat, p: nat)
    requires RawStart(job, ResourceOf(PiecesOf(job)), k) && Attests(job, input, anchor, data, p, decompress, a)
    ensures Concludes(job, input, anchor, data, decompress, ResourceOf(PiecesOf(job)), a)
  {
    hide RawStart, Attests, ResourceOf;
  }

  lemma {:induction false} PlanBlocks(plan: Plan, runBytes: nat, input: Bytes)
    requires PlanIs(plan, runBytes, input)
    ensures Blocks(plan, runBytes) && UpTo(plan.chunks, |plan.chunks|) == input
  {
  }
}
