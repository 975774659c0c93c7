/**
  Compressed files (hfs/hfscompress.c): a cache of one block of 64 KiB, or of the whole file once it
  is written to; closing packs the file into the attribute or into a table of blocks in the resource fork.
 */
module HfsCompress {
  import opened Common
  import opened Regions

  const BLOCK: nat := 0x1_0000

  // The library's compress and uncompress.
  datatype Codec = Codec(compress: Octets -> Octets, uncompress: Octets -> Octets)

  // What is relied on of them; a stream never begins with 0xff by section 2.2 of RFC 1950.
  ghost predicate Inverse(codec: Codec) {
    forall x: Octets :: |x| <= BLOCK ==>
      codec.uncompress(codec.compress(x)) == x && codec.compress(x) != [] && codec.compress(x)[0] != 0xff
  }

  /* ----- Blocks ----- */

  function BlockCount(size: nat): nat { (size + 0xFFFF) / BLOCK }

  function Chunk(c: Octets, i: nat): Octets
    requires i < BlockCount(|c|)
  {
    c[i * BLOCK..if |c| - i * BLOCK > BLOCK then (i + 1) * BLOCK else |c|]
  }

  // The fewest blocks of 64 KiB that hold a size.
  lemma {:induction false} BlocksLeast(size: nat, n: nat)
    ensures BlockCount(size) <= n <==> size <= n * 0x1_0000
  {
  }

  lemma {:induction false} ChunkLength(c: Octets, i: nat)
    requires i < BlockCount(|c|)
    ensures i * BLOCK < |c| && 0 < |Chunk(c, i)| <= BLOCK
    ensures |Chunk(c, i)| == if |c| - i * BLOCK > BLOCK then BLOCK else |c| - i * BLOCK
  {
  }

  // The block of a location holds it.
  lemma {:induction false} BlockOf(c: Octets, location: nat)
    requires location < |c|
    ensures var i := location / BLOCK;
      i < BlockCount(|c|) && i * BLOCK <= location < i * BLOCK + |Chunk(c, i)| && i * BLOCK + |Chunk(c, i)| <= |c|
      && Chunk(c, i) == c[i * BLOCK..i * BLOCK + |Chunk(c, i)|]
  {
  }

  // Stored raw behind 0xff, or compressed.
  function Unpacked(codec: Codec, blob: Octets): Octets {
    if blob != [] && blob[0] == 0xff then blob[1..] else codec.uncompress(blob)
  }

  // Behind 0xff, a block is what is stored.
  lemma {:induction false} StoredRaw(codec: Codec, x: Octets)
    ensures Unpacked(codec, [0xff] + x) == x
  {
    assert ([0xff] + x)[1..] == x;
  }

  lemma {:induction false} PackedBack(codec: Codec, x: Octets)
    requires Inverse(codec) && |x| <= BLOCK
    ensures Unpacked(codec, codec.compress(x)) == x
  {
  }

  /* ----- The block table ----- */

  datatype Entry = Entry(offset: nat, size: nat)

  function Low(v: nat): (b: Octets)
    ensures |b| == 4
  {
    [v % 0x100, v / 0x100 % 0x100, v / 0x1_0000 % 0x100, v / 0x100_0000 % 0x100]
  }

  function High(v: nat): (b: Octets)
    ensures |b| == 4
  {
    [v / 0x100_0000 % 0x100, v / 0x1_0000 % 0x100, v / 0x100 % 0x100, v % 0x100]
  }

  function LowAt(b: Octets, p: nat): int
    requires p + 4 <= |b|
  {
    b[p] + 0x100 * b[p + 1] + 0x1_0000 * b[p + 2] + 0x100_0000 * b[p + 3]
  }

  function HighAt(b: Octets, p: nat): int
    requires p + 4 <= |b|
  {
    0x100_0000 * b[p] + 0x1_0000 * b[p + 1] + 0x100 * b[p + 2] + b[p + 3]
  }

  const WORD: nat := 0x1_0000_0000

  lemma {:induction false} LowBack(b: Octets, p: nat, v: nat)
    requires v < WORD && Region(b, p, Low(v))
    ensures p + 4 <= |b| && LowAt(b, p) == v
  {
    FourBytes(v);
    assert b[p..p + 4][0] == b[p] && b[p..p + 4][1] == b[p + 1] && b[p..p + 4][2] == b[p + 2] && b[p..p + 4][3] == b[p + 3];
  }

  lemma {:induction false} HighBack(b: Octets, p: nat, v: nat)
    requires v < WORD && Region(b, p, High(v))
    ensures p + 4 <= |b| && HighAt(b, p) == v
  {
    FourBytes(v);
    assert b[p..p + 4][0] == b[p] && b[p..p + 4][1] == b[p + 1] && b[p..p + 4][2] == b[p + 2] && b[p..p + 4][3] == b[p + 3];
  }

  // The bytes of a smaller number come first, the highest one leading; the other order is this one turned round.
  lemma {:induction false} HighRises(a: nat, b: nat)
    requires a < b < WORD
    ensures exists i :: 0 <= i < 4 && High(a)[..i] == High(b)[..i] && High(a)[i] < High(b)[i]
  {
    FourBytes(a);
    FourBytes(b);
    var x, y := High(a), High(b);
    if x[0] != y[0] {
      assert x[..0] == y[..0] && x[0] < y[0];
    } else if x[1] != y[1] {
      assert x[..1] == y[..1] && x[1] < y[1];
    } else if x[2] != y[2] {
      assert x[..2] == y[..2] && x[2] < y[2];
    } else {
      assert x[..3] == y[..3] && x[3] < y[3];
    }
  }

  lemma {:induction false} LowIsTurned(v: nat)
    ensures Low(v) == [High(v)[3], High(v)[2], High(v)[1], High(v)[0]]
  {
  }

  lemma {:induction false} FourBytes(v: nat)
    requires v < WORD
    ensures v == v % 0x100 + 0x100 * (v / 0x100 % 0x100) + 0x1_0000 * (v / 0x1_0000 % 0x100) + 0x100_0000 * (v / 0x100_0000 % 0x100)
  {
    var a, b, c := v / 0x100, v / 0x1_0000, v / 0x100_0000;
    assert v == a * 0x100 + v % 0x100;
    assert a == b * 0x100 + a % 0x100;
    assert b == c * 0x100 + b % 0x100;
    assert c % 0x100 == c;
  }

  function TableBytes(t: seq<Entry>): (b: Octets)
    ensures |b| == 8 * |t|
  {
    if t == [] then [] else TableBytes(t[..|t| - 1]) + (Low(t[|t| - 1].offset) + Low(t[|t| - 1].size))
  }

  ghost predicate Fits32(t: seq<Entry>) { forall i :: 0 <= i < |t| ==> t[i].offset < WORD && t[i].size < WORD }

  lemma {:induction false} EntryBack(b: Octets, p: nat, t: seq<Entry>, i: nat)
    requires Region(b, p, TableBytes(t)) && Fits32(t) && i < |t|
    ensures p + 8 * i + 8 <= |b| && LowAt(b, p + 8 * i) == t[i].offset && LowAt(b, p + 8 * i + 4) == t[i].size
    decreases |t|
  {
    var n := |t| - 1;
    RegionParts(b, p, TableBytes(t[..n]), Low(t[n].offset) + Low(t[n].size));
    if i < n {
      EntryBack(b, p, t[..n], i);
    } else {
      RegionParts(b, p + 8 * n, Low(t[n].offset), Low(t[n].size));
      LowBack(b, p + 8 * n, t[n].offset);
      LowBack(b, p + 8 * n + 4, t[n].size);
    }
  }

  /* ----- What is stored ----- */

  // The blocks lie behind the header and decode to the file's chunks.
  ghost predicate BlockStored(codec: Codec, fork: Octets, headerSize: nat, e: Entry, chunk: Octets) {
    && headerSize + 4 + e.offset + e.size <= |fork|
    && Unpacked(codec, fork[headerSize + 4 + e.offset..headerSize + 4 + e.offset + e.size]) == chunk
  }

  ghost predicate Backed(codec: Codec, fork: Octets, headerSize: nat, t: seq<Entry>, c: Octets) {
    && |t| == BlockCount(|c|)
    && forall i :: 0 <= i < |t| ==> BlockStored(codec, fork, headerSize, t[i], Chunk(c, i))
  }

  datatype Attribute = Attribute(flags: nat, size: nat, data: Octets)

  ghost predicate Holds(b: Octets, p: nat, t: seq<Entry>) {
    && p + 8 * |t| <= |b|
    && forall i :: 0 <= i < |t| ==> LowAt(b, p + 8 * i) == t[i].offset && LowAt(b, p + 8 * i + 4) == t[i].size
  }

  // The resource fork: its header's first word, the number of blocks, the table, the blocks.
  ghost predicate ForkStored(codec: Codec, fork: Octets, c: Octets) {
    16 <= |fork| && exists h: nat, t :: ForkTable(codec, fork, c, h, t)
  }

  ghost predicate ForkTable(codec: Codec, fork: Octets, c: Octets, h: nat, t: seq<Entry>)
    requires 16 <= |fork|
  {
    && HighAt(fork, 0) == h && h + 8 <= |fork| && LowAt(fork, h + 4) == |t|
    && Holds(fork, h + 8, t) && Backed(codec, fork, h, t, c)
  }

  ghost predicate Stored(codec: Codec, attribute: Option<Attribute>, fork: Octets, c: Octets) {
    match attribute
    case None => c == []
    case Some(a) =>
      && a.size == |c|
      && if a.flags == 3 then a.data != [] && Unpacked(codec, a.data) == c else ForkStored(codec, fork, c)
  }

  /* ----- The open file ----- */

  class CompressedFile {
    const codec: Codec
    var cached: Option<Octets>
    var cachedStart: nat
    var cachedEnd: nat
    var size: nat
    var dirty: bool
    var headerSize: nat
    var blocks: seq<Entry>
    var attribute: Option<Attribute>
    var fork: Octets
    ghost var contents: Octets

    ghost predicate Cached() reads this {
      && cachedStart <= cachedEnd <= size == |contents| < WORD
      && (cached.None? ==> cachedEnd == 0)
      && (cached.Some? ==> cached.value == contents[cachedStart..cachedEnd])
    }

    ghost predicate Whole() reads this { cachedStart == 0 && cachedEnd == size }

    ghost predicate Valid() reads this {
      && Inverse(codec) && Cached()
      && (Whole() || Backed(codec, fork, headerSize, blocks, contents))
      && (dirty ==> Whole())
      && (!dirty ==> Stored(codec, attribute, fork, contents))
    }

    // Opening reads the attribute, and the header and table of the resource fork when the data is there.
    constructor (codec: Codec, attribute: Option<Attribute>, fork: Octets, ghost c: Octets)
      requires Inverse(codec) && Stored(codec, attribute, fork, c) && |c| < WORD
      ensures Valid() && contents == c && !dirty
      ensures this.codec == codec && this.attribute == attribute && this.fork == fork
    {
      this.codec, this.attribute, this.fork, contents := codec, attribute, fork, c;
      cached, cachedStart, cachedEnd, dirty := None, 0, 0, false;
      headerSize, blocks := 0, [];
      size := 0;
      new;
      hide *;
      OpenedIs(codec, attribute, fork, c);
      if attribute.Some? {
        size := attribute.value.size;
        if attribute.value.flags == 3 {
          cached := Some(Unpacked(codec, attribute.value.data));
          cachedEnd := |cached.value|;
        } else {
          ghost var h, t := TableThere(codec, fork, c);
          headerSize, blocks := ReadTable(codec, fork, c, h, t);
          ForkTableIs(codec, fork, c, h, t);
        }
      }
      OpenedValid();
    }

    lemma {:induction false} OpenedValid()
      requires Inverse(codec) && Stored(codec, attribute, fork, contents) && !dirty && cachedStart == 0 && size == |contents| < WORD
      requires if cached.Some? then cached.value == contents && cachedEnd == size else cachedEnd == 0
      requires cached.None? && size > 0 ==> Backed(codec, fork, headerSize, blocks, contents)
      ensures Valid()
    {
      hide Inverse, Backed, Stored;
    }

    // Bytes from the cache while they last, then the next block into the cache.
    method Read(location: nat, n: nat) returns (buffer: Octets)
      requires Valid() && location + n <= size
      modifies this`cached, this`cachedStart, this`cachedEnd
      ensures Valid() && buffer == contents[location..location + n]
    {
      hide *;
      buffer := [];
      var at: nat, left: nat := location, n;
      CacheHolds();
      EmptySlice(contents, location);
      while left > 0
        invariant Valid() && unchanged(`size, `contents, `dirty, `blocks, `fork, `headerSize, `attribute)
        invariant location <= at && at + left == location + n && buffer == contents[location..at]
        decreases left, if cached.Some? && cachedStart <= at < cachedEnd then 0 else 1
      {
        CacheHolds();
        if cached.Some? && cachedStart <= at < cachedEnd {
          var piece := FromCache(at, left);
          SlicesJoin(contents, location, at, |piece|);
          buffer := buffer + piece;
          left := left - |piece|;
          at := at + |piece|;
        }
        if left == 0 {
          break;
        }
        LoadBlock(at);
      }
    }

    // What the cache has from a place on, up to its end.
    method FromCache(at: nat, left: nat) returns (piece: Octets)
      requires Valid() && cached.Some? && cachedStart <= at < cachedEnd && left > 0
      ensures 0 < |piece| <= left && at + |piece| <= |contents| && piece == contents[at..at + |piece|]
      ensures |piece| < left ==> at + |piece| == cachedEnd
    {
      hide *;
      CacheHolds();
      var toRead := if cachedEnd - at < left then cachedEnd - at else left;
      InSlice(contents, at, toRead, cachedStart, cachedEnd);
      piece := cached.value[at - cachedStart..at - cachedStart + toRead];
    }

    method LoadBlock(at: nat)
      requires Valid() && at < size && !(cached.Some? && cachedStart <= at < cachedEnd)
      modifies this`cached, this`cachedStart, this`cachedEnd
      ensures Valid() && cached.Some? && cachedStart <= at < cachedEnd
    {
      hide *;
      CacheHolds();
      NotCached(at);
      BlockThere(codec, fork, headerSize, blocks, contents, at);
      var block := at / BLOCK;
      var e := blocks[block];
      cached := Some(Unpacked(codec, fork[headerSize + 4 + e.offset..headerSize + 4 + e.offset + e.size]));
      cachedStart := block * BLOCK;
      cachedEnd := cachedStart + |cached.value|;
      CachedAgain();
    }

    lemma {:induction false} CacheHolds()
      requires Valid()
      ensures size == |contents| < WORD && cachedStart <= cachedEnd <= size
      ensures cached.Some? ==> cached.value == contents[cachedStart..cachedEnd]
      ensures cached.None? ==> cachedEnd == 0
    {
      hide Inverse, Backed, Stored;
    }

    lemma {:induction false} NotCached(at: nat)
      requires Valid() && at < size && !(cached.Some? && cachedStart <= at < cachedEnd)
      ensures Inverse(codec) && Backed(codec, fork, headerSize, blocks, contents) && !dirty
      ensures Stored(codec, attribute, fork, contents)
    {
      hide Inverse, Backed, Stored;
    }

    lemma {:induction false} CachedAgain()
      requires Inverse(codec) && Backed(codec, fork, headerSize, blocks, contents) && !dirty && Stored(codec, attribute, fork, contents)
      requires cachedStart <= cachedEnd <= size == |contents| < WORD && cached.Some? && cached.value == contents[cachedStart..cachedEnd]
      ensures Valid()
    {
      hide Inverse, Backed, Stored;
    }

    // The whole file goes into the cache before its first byte changes.
    method Write(location: nat, buffer: Octets)
      requires Valid() && location <= size && location + |buffer| < WORD
      modifies this
      ensures Valid() && dirty && contents == Written(old(contents), location, buffer)
      ensures attribute == old(attribute) && fork == old(fork)
    {
      hide *;
      CacheHolds();
      WorksStill();
      if cachedStart != 0 || cachedEnd != size {
        var newCache := Read(0, size);
        cached := Some(newCache);
        cachedStart := 0;
        cachedEnd := size;
      }
      WrittenIs(contents, location, buffer);
      AllCached();
      if location + |buffer| > size {
        size := location + |buffer|;
        cachedEnd := size;
      }
      cached := Some(Written(if cached.Some? then cached.value else [], location, buffer));
      contents := Written(contents, location, buffer);
      dirty := true;
      DirtyAgain();
    }

    lemma {:induction false} WorksStill()
      ensures Valid() ==> Inverse(codec)
    {
      hide Inverse, Backed, Stored;
    }

    lemma {:induction false} AllCached()
      requires cachedStart == 0 && cachedEnd == size == |contents|
      requires if cached.Some? then cached.value == contents[cachedStart..cachedEnd] else cachedEnd == 0
      ensures (if cached.Some? then cached.value else []) == contents
    {
    }

    lemma {:induction false} DirtyAgain()
      requires Inverse(codec) && cached == Some(contents) && cachedStart == 0 && cachedEnd == size == |contents| < WORD && dirty
      ensures Valid()
    {
      hide Inverse, Backed, Stored;
    }

    // A dirty file is packed: into the attribute when its one block is small, else into the resource fork.
    // The attribute's block is still the one from opening; packed data that does not fit is written past its end.
    method Close() returns (ok: bool)
      requires Valid()
      requires dirty ==> contents != []
      requires dirty ==> HeldTo(codec, contents, BlockCount(|contents|)) < WORD
      modifies this
      ensures contents == old(contents)
      ensures ok <==> !old(dirty) || StaysInside(codec, old(attribute), contents)
      ensures ok ==> Stored(codec, attribute, fork, contents)
      ensures !ok || !old(dirty) ==> attribute == old(attribute) && fork == old(fork)
      ensures ok && old(dirty) ==> attribute.Some? && PackedAs(codec, contents, attribute.value, old(fork), fork)
    {
      if !dirty {
        return true;
      }
      WholeCache();
      RoomIs(codec, contents, attribute);
      hide *;
      var packed, a, f := Pack(codec, cached.value, fork, RoomOf(attribute));
      if !packed {
        return false;
      }
      assert attribute == old(attribute) && fork == old(fork);
      attribute, fork := Some(a), f;
      return true;
    }

    lemma {:induction false} WholeCache()
      requires Valid() && dirty && contents != []
      ensures Inverse(codec) && size == |contents| && cached == Some(contents)
    {
      hide Inverse, Backed, Stored;
      assert contents[0..|contents|] == contents;
    }
  }

  lemma {:induction false} EmptySlice(c: Octets, at: nat)
    requires at <= |c|
    ensures c[at..at] == []
  {
  }

  // What the block of the attribute has behind its head: as much as was read, or what is left of 4096 bytes.
  function RoomOf(attribute: Option<Attribute>): nat {
    match attribute
    case None => 0x1000 - 16
    case Some(a) => |a.data|
  }

  // The packed contents, if they go into the attribute, are no longer than its data was at opening.
  ghost predicate StaysInside(codec: Codec, attribute: Option<Attribute>, c: Octets) {
    Inline(codec, c) && attribute.Some? ==> |codec.compress(c)| <= |attribute.value.data|
  }

  lemma {:induction false} RoomIs(codec: Codec, c: Octets, attribute: Option<Attribute>)
    ensures StaysInside(codec, attribute, c) <==> (!Inline(codec, c) || |codec.compress(c)| <= RoomOf(attribute))
  {
  }

  // Where closing puts the contents: the one small block in the attribute, others behind a table in the fork.
  ghost predicate PackedAs(codec: Codec, c: Octets, a: Attribute, was: Octets, fork: Octets) {
    if Inline(codec, c) then a == Attribute(3, |c|, codec.compress(c)) && fork == was
    else a == Attribute(4, |c|, []) && BlocksPut(codec, fork, c, BlockCount(|c|))
  }

  lemma {:induction false} PackedAsIs(codec: Codec, c: Octets, a: Attribute, was: Octets, fork: Octets)
    requires if Inline(codec, c) then a == Attribute(3, |c|, codec.compress(c)) && fork == was
      else a == Attribute(4, |c|, []) && BlocksPut(codec, fork, c, BlockCount(|c|))
    ensures PackedAs(codec, c, a, was, fork)
  {
  }

  // The blocks, one after the other; then what leads to them.
  method Pack(codec: Codec, c: Octets, fork: Octets, room: nat) returns (ok: bool, a: Attribute, fork': Octets)
    requires Inverse(codec) && c != [] && HeldTo(codec, c, BlockCount(|c|)) < WORD
    ensures ok <==> !Inline(codec, c) || |codec.compress(c)| <= room
    ensures ok ==> Stored(codec, Some(a), fork', c) && PackedAs(codec, c, a, fork, fork')
  {
    hide *;
    CloseStart(codec, c, fork);
    var numBlocks := BlockCount(|c|);
    var i: nat, cur: nat, table: seq<Entry> := 0, 4 + 8 * numBlocks, [];
    fork' := fork;
    while i < numBlocks
      invariant i <= numBlocks && PackedTo(codec, c, i, table, cur, fork')
      invariant if i == 0 then fork' == fork else !Inline(codec, c)
    {
      var packed := codec.compress(Chunk(c, i));
      InlineIs(codec, c, i);
      if numBlocks <= 1 && |packed| + 16 + 524 <= 0x1000 {
        a := Attribute(3, |c|, packed);
        if |packed| > room {
          return false, a, fork';
        }
        ClosedIs(codec, a, fork', c);
        PackedAsIs(codec, c, a, fork, fork');
        return true, a, fork';
      }
      PackStep(codec, c, i, table, cur, fork', packed);
      fork' := Put(fork', HEADER + 4 + cur, packed);
      table := table + [Entry(cur, |packed|)];
      cur := cur + |packed|;
      i := i + 1;
    }
    PackedAll(codec, c, i, table, cur, fork');
    PackEnds(codec, fork', c, cur);
    fork' := Put(fork', 0, Head(numBlocks, cur - 4 - 8 * numBlocks));
    fork' := Put(fork', HEADER, TableImage(table, cur - 4 - 8 * numBlocks));
    fork' := Put(fork', HEADER + 4 + cur, EndMark());
    a := Attribute(4, |c|, []);
    PackedAsIs(codec, c, a, fork, fork');
    return true, a, fork';
  }

  // The blocks packed so far, with their entries.
  ghost predicate PackedTo(codec: Codec, c: Octets, i: nat, table: seq<Entry>, cur: nat, f: Octets)
    requires i <= BlockCount(|c|)
  {
    table == Table(codec, c, i) && cur == HeldTo(codec, c, i) && BlocksPut(codec, f, c, i)
  }

  lemma {:induction false} PackStep(codec: Codec, c: Octets, i: nat, table: seq<Entry>, cur: nat, f: Octets, packed: Octets)
    requires i < BlockCount(|c|) && PackedTo(codec, c, i, table, cur, f) && packed == codec.compress(Chunk(c, i))
    ensures PackedTo(codec, c, i + 1, table + [Entry(cur, |packed|)], cur + |packed|, Put(f, HEADER + 4 + cur, packed))
  {
    hide BlocksPut, BlockCount, Table, HeldTo, Put, Chunk;
    PlaceIs(codec, c, i);
    OneMoreBlock(codec, f, c, i);
  }

  lemma {:induction false} PackedAll(codec: Codec, c: Octets, n: nat, table: seq<Entry>, cur: nat, f: Octets)
    requires n <= BlockCount(|c|) && PackedTo(codec, c, n, table, cur, f)
    ensures table == Table(codec, c, n) && cur == HeldTo(codec, c, n) && BlocksPut(codec, f, c, n)
  {
  }

  lemma {:induction false} PackEnds(codec: Codec, f: Octets, c: Octets, cur: nat)
    requires Inverse(codec) && c != [] && cur == HeldTo(codec, c, BlockCount(|c|)) < WORD && BlocksPut(codec, f, c, BlockCount(|c|))
    ensures cur - 4 - 8 * BlockCount(|c|) >= 0
    ensures Finished(codec, f, c) ==
      Put(Put(Put(f, 0, Head(BlockCount(|c|), cur - 4 - 8 * BlockCount(|c|))),
              HEADER, TableImage(Table(codec, c, BlockCount(|c|)), cur - 4 - 8 * BlockCount(|c|))), HEADER + 4 + cur, EndMark())
    ensures Stored(codec, Some(Attribute(4, |c|, [])), Finished(codec, f, c), c)
    ensures BlocksPut(codec, Finished(codec, f, c), c, BlockCount(|c|))
  {
    hide *;
    FinishedIs(codec, f, c, cur);
    FinishedStored(codec, f, c);
    FinishedRegions(codec, f, c);
    ClosedIs(codec, Attribute(4, |c|, []), Finished(codec, f, c), c);
  }

  // The layout closing chooses.
  ghost predicate Inline(codec: Codec, c: Octets) {
    BlockCount(|c|) == 1 && |codec.compress(c)| + 16 + 524 <= 0x1000
  }

  function HeldTo(codec: Codec, c: Octets, i: nat): nat
    requires i <= BlockCount(|c|)
  {
    4 + 8 * BlockCount(|c|) + PackedSize(codec, c, i)
  }

  lemma {:induction false} CloseStart(codec: Codec, c: Octets, f: Octets)
    requires c != []
    ensures BlockCount(|c|) > 0 && HeldTo(codec, c, 0) == 4 + 8 * BlockCount(|c|) && BlocksPut(codec, f, c, 0)
    ensures PackedTo(codec, c, 0, [], 4 + 8 * BlockCount(|c|), f)
  {
  }

  lemma {:induction false} InlineIs(codec: Codec, c: Octets, i: nat)
    requires i < BlockCount(|c|)
    ensures BlockCount(|c|) <= 1 ==> Chunk(c, i) == c && i == 0
    ensures Inline(codec, c) <==> BlockCount(|c|) <= 1 && |codec.compress(Chunk(c, i))| + 16 + 524 <= 0x1000
  {
    if BlockCount(|c|) == 1 {
      assert Chunk(c, 0) == c;
    }
  }

  lemma {:induction false} PlaceIs(codec: Codec, c: Octets, i: nat)
    requires i < BlockCount(|c|)
    ensures HEADER + 4 + HeldTo(codec, c, i) == PlaceOf(codec, c, i)
    ensures HeldTo(codec, c, i + 1) == HeldTo(codec, c, i) + |codec.compress(Chunk(c, i))|
    ensures Packed(codec, c, i) == codec.compress(Chunk(c, i))
    ensures Table(codec, c, i + 1) == Table(codec, c, i) + [Entry(HeldTo(codec, c, i), |codec.compress(Chunk(c, i))|)]
  {
    hide BlockCount, Chunk;
  }

  lemma {:induction false} FinishedIs(codec: Codec, f: Octets, c: Octets, cur: nat)
    requires cur == HeldTo(codec, c, BlockCount(|c|))
    ensures cur - 4 - 8 * BlockCount(|c|) == PackedSize(codec, c, BlockCount(|c|))
    ensures Finished(codec, f, c) ==
      Put(Put(Put(f, 0, Head(BlockCount(|c|), cur - 4 - 8 * BlockCount(|c|))),
              HEADER, TableImage(Table(codec, c, BlockCount(|c|)), cur - 4 - 8 * BlockCount(|c|))), HEADER + 4 + cur, EndMark())
  {
    hide BlockCount, Put, Head, TableImage, EndMark, Table;
  }

  lemma {:induction false} ClosedIs(codec: Codec, a: Attribute, f: Octets, c: Octets)
    requires Inverse(codec) && a.size == |c| && c != []
    requires if a.flags == 3 then BlockCount(|c|) <= 1 && a.data == codec.compress(c) else ForkStored(codec, f, c)
    ensures Stored(codec, Some(a), f, c)
  {
    hide ForkStored;
  }

  lemma {:induction false} WrittenIs(c: Octets, location: nat, b: Octets)
    requires location <= |c|
    ensures |Written(c, location, b)| == if location + |b| > |c| then location + |b| else |c|
  {
  }

  lemma {:induction false} InSlice(c: Octets, b: nat, n: nat, start: nat, end: nat)
    requires start <= b && b + n <= end <= |c|
    ensures |c[start..end][b - start..b - start + n]| == n && c[start..end][b - start..b - start + n] == c[b..b + n]
  {
    var x, y := c[start..end][b - start..b - start + n], c[b..b + n];
    assert forall i :: 0 <= i < n ==> x[i] == y[i];
  }

  lemma {:induction false} SlicesJoin(c: Octets, a: nat, b: nat, n: nat)
    requires a <= b && b + n <= |c|
    ensures c[a..b] + c[b..b + n] == c[a..b + n]
  {
  }

  lemma {:induction false} BlockThere(codec: Codec, fork: Octets, headerSize: nat, t: seq<Entry>, c: Octets, location: nat)
    requires Backed(codec, fork, headerSize, t, c) && location < |c|
    ensures BLOCK == 0x1_0000
    ensures var i := location / BLOCK;
      i < |t| && headerSize + 4 + t[i].offset + t[i].size <= |fork|
      && var b := Unpacked(codec, fork[headerSize + 4 + t[i].offset..headerSize + 4 + t[i].offset + t[i].size]);
      i * BLOCK <= location < i * BLOCK + |b| <= |c| && b == c[i * BLOCK..i * BLOCK + |b|]
  {
    BlockOf(c, location);
    assert BlockStored(codec, fork, headerSize, t[location / BLOCK], Chunk(c, location / BLOCK));
    hide Chunk, BlockCount, Unpacked;
  }

  method ReadTable(codec: Codec, fork: Octets, ghost c: Octets, ghost h: nat, ghost t: seq<Entry>) returns (headerSize: nat, blocks: seq<Entry>)
    requires 16 <= |fork| && ForkTable(codec, fork, c, h, t)
    ensures headerSize == h && blocks == t
  {
    hide LowAt, HighAt, Backed;
    headerSize := HighAt(fork, 0);
    var numBlocks := LowAt(fork, headerSize + 4);
    blocks := [];
    var i := 0;
    while i < numBlocks
      invariant 0 <= i <= numBlocks == |t| && blocks == t[..i]
    {
      EntryAt(fork, h + 8, t, i);
      blocks := blocks + [Entry(LowAt(fork, headerSize + 8 + 8 * i), LowAt(fork, headerSize + 8 + 8 * i + 4))];
      i := i + 1;
    }
  }

  lemma {:induction false} EntryAt(b: Octets, p: nat, t: seq<Entry>, i: nat)
    requires Holds(b, p, t) && i < |t|
    ensures p + 8 * i + 8 <= |b| && LowAt(b, p + 8 * i) == t[i].offset && LowAt(b, p + 8 * i + 4) == t[i].size
  {
  }

  lemma {:induction false} OpenedIs(codec: Codec, attribute: Option<Attribute>, fork: Octets, c: Octets)
    ensures Stored(codec, attribute, fork, c) ==> if attribute.None? then |c| == 0 else attribute.value.size == |c|
    ensures Stored(codec, attribute, fork, c) && attribute.Some? ==>
      if attribute.value.flags == 3 then Unpacked(codec, attribute.value.data) == c else ForkStored(codec, fork, c)
  {
    hide ForkStored, Unpacked;
  }

  lemma {:induction false} TableThere(codec: Codec, fork: Octets, c: Octets) returns (h: nat, t: seq<Entry>)
    requires ForkStored(codec, fork, c)
    ensures 16 <= |fork| && ForkTable(codec, fork, c, h, t)
  {
    h, t :| ForkTable(codec, fork, c, h, t);
  }

  lemma {:induction false} ForkTableIs(codec: Codec, fork: Octets, c: Octets, h: nat, t: seq<Entry>)
    requires 16 <= |fork| && ForkTable(codec, fork, c, h, t)
    ensures Backed(codec, fork, h, t, c)
  {
  }

  /* ----- Writing and closing ----- */

  // Bytes over or behind the old ones.
  function Written(c: Octets, location: nat, b: Octets): Octets
    requires location <= |c|
  {
    c[..location] + b + (if location + |b| < |c| then c[location + |b|..] else [])
  }

  // A write that lengthens the fork leaves zeros before it.
  function Put(f: Octets, at: nat, b: Octets): (r: Octets)
    ensures |r| == if at + |b| > |f| then at + |b| else |f|
  {
    var g := if at > |f| then f + seq(at - |f|, i => 0) else f;
    g[..at] + b + (if at + |b| < |g| then g[at + |b|..] else [])
  }

  lemma {:induction false} PutRegion(f: Octets, at: nat, b: Octets)
    ensures Region(Put(f, at, b), at, b)
  {
  }

  lemma {:induction false} PutKeeps(f: Octets, at: nat, b: Octets, p: int, d: Octets)
    requires Region(f, p, d) && (p + |d| <= at || at + |b| <= p)
    ensures Region(Put(f, at, b), p, d)
  {
    var r := Put(f, at, b);
    assert forall i :: p <= i < p + |d| ==> r[i] == f[i];
  }

  function Packed(codec: Codec, c: Octets, i: nat): Octets
    requires i < BlockCount(|c|)
  {
    codec.compress(Chunk(c, i))
  }

  // The length of the first blocks, compressed.
  function PackedSize(codec: Codec, c: Octets, n: nat): nat
    requires n <= BlockCount(|c|)
  {
    if n == 0 then 0 else PackedSize(codec, c, n - 1) + |Packed(codec, c, n - 1)|
  }

  // Where closing puts a block: behind the table and the blocks before it.
  function EntryOf(codec: Codec, c: Octets, i: nat): Entry
    requires i < BlockCount(|c|)
  {
    Entry(4 + 8 * BlockCount(|c|) + PackedSize(codec, c, i), |Packed(codec, c, i)|)
  }

  const HEADER: nat := 0x100

  // A block's place in the fork; the last one's end is the place after all.
  function PlaceOf(codec: Codec, c: Octets, i: nat): nat
    requires i <= BlockCount(|c|)
  {
    HEADER + 8 + 8 * BlockCount(|c|) + PackedSize(codec, c, i)
  }

  ghost predicate BlocksPut(codec: Codec, fork: Octets, c: Octets, n: nat)
    requires n <= BlockCount(|c|)
  {
    forall i :: 0 <= i < n ==> Region(fork, PlaceOf(codec, c, i), Packed(codec, c, i))
  }

  lemma {:induction false} PlacesRise(codec: Codec, c: Octets, i: nat, n: nat)
    requires i < n <= BlockCount(|c|)
    ensures PlaceOf(codec, c, 0) <= PlaceOf(codec, c, i) && PlaceOf(codec, c, i) + |Packed(codec, c, i)| <= PlaceOf(codec, c, n)
    decreases n
  {
    hide Packed, BlockCount;
    if i < n - 1 {
      PlacesRise(codec, c, i, n - 1);
    }
  }

  lemma {:induction false} OneMoreBlock(codec: Codec, fork: Octets, c: Octets, n: nat)
    requires n < BlockCount(|c|) && BlocksPut(codec, fork, c, n)
    ensures BlocksPut(codec, Put(fork, PlaceOf(codec, c, n), Packed(codec, c, n)), c, n + 1)
  {
    hide Region, Put, Packed, BlockCount, PlaceOf;
    var at, b := PlaceOf(codec, c, n), Packed(codec, c, n);
    forall i | 0 <= i < n + 1 ensures Region(Put(fork, at, b), PlaceOf(codec, c, i), Packed(codec, c, i)) {
      if i == n {
        PutRegion(fork, at, b);
      } else {
        PlacesRise(codec, c, i, n);
        PutKeeps(fork, at, b, PlaceOf(codec, c, i), Packed(codec, c, i));
      }
    }
  }

  // A write before or behind all blocks.
  lemma {:induction false} BlocksKept(codec: Codec, fork: Octets, c: Octets, n: nat, at: nat, b: Octets)
    requires n == BlockCount(|c|) && BlocksPut(codec, fork, c, n)
    requires at + |b| <= PlaceOf(codec, c, 0) || PlaceOf(codec, c, n) <= at
    ensures BlocksPut(codec, Put(fork, at, b), c, n)
  {
    hide Region, Put, Packed, BlockCount, PlaceOf;
    forall i | 0 <= i < n ensures Region(Put(fork, at, b), PlaceOf(codec, c, i), Packed(codec, c, i)) {
      PlacesRise(codec, c, i, n);
      PutKeeps(fork, at, b, PlaceOf(codec, c, i), Packed(codec, c, i));
    }
  }

  function Table(codec: Codec, c: Octets, n: nat): (t: seq<Entry>)
    requires n <= BlockCount(|c|)
    ensures |t| == n && forall i :: 0 <= i < n ==> t[i] == EntryOf(codec, c, i)
  {
    seq(n, i requires 0 <= i < n => EntryOf(codec, c, i))
  }

  function Head(n: nat, size: nat): (b: Octets)
    ensures |b| == 16
  {
    High(HEADER) + (High(HEADER + 8 + 8 * n + size) + High(8 + 8 * n + size) + High(0x32))
  }

  function TableImage(t: seq<Entry>, size: nat): (b: Octets)
    ensures |b| == 8 + 8 * |t|
  {
    High(4 + 8 * |t| + size) + (Low(|t|) + TableBytes(t))
  }

  function EndMark(): (b: Octets)
    ensures |b| == 50
  {
    seq(24, i => 0) + [0, 0x1C, 0, 0x32, 0, 0] + High(0x636D7066) + High(0xA) + Low(0xFFFF01) + Low(0) + Low(0)
  }

  // The writes after the blocks: the header, the table, the end mark.
  function Finished(codec: Codec, fork: Octets, c: Octets): Octets {
    var n := BlockCount(|c|);
    var size := PackedSize(codec, c, n);
    Put(Put(Put(fork, 0, Head(n, size)), HEADER, TableImage(Table(codec, c, n), size)), PlaceOf(codec, c, n), EndMark())
  }

  lemma {:induction false} FinishedRegions(codec: Codec, fork: Octets, c: Octets)
    requires BlocksPut(codec, fork, c, BlockCount(|c|))
    ensures var f, n := Finished(codec, fork, c), BlockCount(|c|);
      && Region(f, 0, Head(n, PackedSize(codec, c, n))) && Region(f, HEADER, TableImage(Table(codec, c, n), PackedSize(codec, c, n)))
      && BlocksPut(codec, f, c, n)
  {
    var n := BlockCount(|c|);
    var size := PackedSize(codec, c, n);
    var t := TableImage(Table(codec, c, n), size);
    assert HEADER + 8 + 8 * n == PlaceOf(codec, c, 0) && HEADER + 8 + 8 * n + size == PlaceOf(codec, c, n);
    hide *;
    ThreePuts(codec, fork, c, n, Head(n, size), t, EndMark());
  }

  lemma {:induction false} HeaderIs()
    ensures HEADER == 256
  {
  }

  lemma {:induction false} ThreePuts(codec: Codec, fork: Octets, c: Octets, n: nat, a: Octets, t: Octets, e: Octets)
    requires n == BlockCount(|c|) && BlocksPut(codec, fork, c, n) && |a| == 16
    requires HEADER + |t| == PlaceOf(codec, c, 0) <= PlaceOf(codec, c, n)
    ensures var f := Put(Put(Put(fork, 0, a), HEADER, t), PlaceOf(codec, c, n), e);
      Region(f, 0, a) && Region(f, HEADER, t) && BlocksPut(codec, f, c, n)
  {
    HeaderIs();
    hide *;
    var f1, f2 := Put(fork, 0, a), Put(Put(fork, 0, a), HEADER, t);
    PutRegion(fork, 0, a);
    BlocksKept(codec, fork, c, n, 0, a);
    PutKeeps(f1, HEADER, t, 0, a);
    PutRegion(f1, HEADER, t);
    BlocksKept(codec, f1, c, n, HEADER, t);
    PutKeeps(f2, PlaceOf(codec, c, n), e, 0, a);
    PutKeeps(f2, PlaceOf(codec, c, n), e, HEADER, t);
    BlocksKept(codec, f2, c, n, PlaceOf(codec, c, n), e);
  }

  // The words read back from a header and a table image.
  lemma {:induction false} ImagesRead(f: Octets, t: seq<Entry>, size: nat)
    requires Region(f, 0, Head(|t|, size)) && Region(f, HEADER, TableImage(t, size)) && Fits32(t) && |t| < WORD
    ensures 16 <= |f| && HighAt(f, 0) == HEADER && HEADER + 8 <= |f| && LowAt(f, HEADER + 4) == |t| && Holds(f, HEADER + 8, t)
  {
    hide Region, High, Low, HighAt, LowAt, TableBytes, Fits32;
    RegionBounds(f, 0, Head(|t|, size));
    RegionBounds(f, HEADER, TableImage(t, size));
    RegionParts(f, 0, High(HEADER), High(HEADER + 8 + 8 * |t| + size) + High(8 + 8 * |t| + size) + High(0x32));
    HighBack(f, 0, HEADER);
    RegionParts(f, HEADER, High(4 + 8 * |t| + size), Low(|t|) + TableBytes(t));
    RegionParts(f, HEADER + 4, Low(|t|), TableBytes(t));
    LowBack(f, HEADER + 4, |t|);
    forall i | 0 <= i < |t| ensures LowAt(f, HEADER + 8 + 8 * i) == t[i].offset && LowAt(f, HEADER + 8 + 8 * i + 4) == t[i].size {
      EntryBack(f, HEADER + 8, t, i);
    }
  }

  // At 0 the header's size, the place where the end mark starts, that less the header, and the flags; at the
  // header's size, that less four more.
  ghost predicate HeadAt(f: Octets, end: nat) {
    && 260 <= |f|
    && HighAt(f, 0) == 0x100 && HighAt(f, 4) == end && HighAt(f, 8) == end - 0x100 && HighAt(f, 12) == 0x32
    && HighAt(f, 0x100) == end - 0x100 - 4
  }

  ghost predicate MarkAt(f: Octets, end: nat) {
    && end + 50 <= |f|
    && (forall i :: end <= i < end + 24 ==> f[i] == 0)
    && f[end + 24] * 0x100 + f[end + 25] == 0x1C && f[end + 26] * 0x100 + f[end + 27] == 0x32 && f[end + 28] == f[end + 29] == 0
    && HighAt(f, end + 30) == 0x636D7066 && HighAt(f, end + 34) == 0xA
    && LowAt(f, end + 38) == 0xFFFF01 && LowAt(f, end + 42) == 0 && LowAt(f, end + 46) == 0
  }

  // What a reader finds in the finished fork, where the blocks end.
  lemma {:induction false} FinishedSizes(codec: Codec, fork: Octets, c: Octets)
    requires BlocksPut(codec, fork, c, BlockCount(|c|)) && PlaceOf(codec, c, BlockCount(|c|)) < WORD
    ensures HeadAt(Finished(codec, fork, c), PlaceOf(codec, c, BlockCount(|c|)))
    ensures MarkAt(Finished(codec, fork, c), PlaceOf(codec, c, BlockCount(|c|)))
  {
    hide *;
    FinishedHead(codec, fork, c);
    FinishedEnd(codec, fork, c);
    EndRead(Finished(codec, fork, c), PlaceOf(codec, c, BlockCount(|c|)));
  }

  lemma {:induction false} FinishedHead(codec: Codec, fork: Octets, c: Octets)
    requires BlocksPut(codec, fork, c, BlockCount(|c|)) && PlaceOf(codec, c, BlockCount(|c|)) < WORD
    ensures HeadAt(Finished(codec, fork, c), PlaceOf(codec, c, BlockCount(|c|)))
  {
    var n := BlockCount(|c|);
    var size := PackedSize(codec, c, n);
    var f := Finished(codec, fork, c);
    assert PlaceOf(codec, c, n) == HEADER + 8 + 8 * n + size && HEADER == 0x100;
    FinishedRegions(codec, fork, c);
    TableLength(codec, c, n);
    hide Finished, Head, TableImage, Table, PackedSize, PlaceOf, BlockCount, Region, BlocksPut, HighAt;
    HeadRead(f, n, size);
    ImageRead(f, Table(codec, c, n), size);
  }

  lemma {:induction false} TableLength(codec: Codec, c: Octets, n: nat)
    requires n <= BlockCount(|c|)
    ensures |Table(codec, c, n)| == n
  {
    hide EntryOf;
  }

  lemma {:induction false} FinishedEnd(codec: Codec, fork: Octets, c: Octets)
    ensures Region(Finished(codec, fork, c), PlaceOf(codec, c, BlockCount(|c|)), EndMark())
  {
    hide Head, TableImage, EndMark, Region, Table, Put;
    var n := BlockCount(|c|);
    PutRegion(Put(Put(fork, 0, Head(n, PackedSize(codec, c, n))), HEADER, TableImage(Table(codec, c, n), PackedSize(codec, c, n))),
              PlaceOf(codec, c, n), EndMark());
  }

  lemma {:induction false} HeadRead(f: Octets, n: nat, size: nat)
    requires Region(f, 0, Head(n, size)) && HEADER + 8 + 8 * n + size < WORD
    ensures 16 <= |f| && HighAt(f, 0) == HEADER && HighAt(f, 4) == HEADER + 8 + 8 * n + size
    ensures HighAt(f, 8) == 8 + 8 * n + size && HighAt(f, 12) == 0x32
  {
    hide Region, High, HighAt;
    RegionBounds(f, 0, Head(n, size));
    RegionParts(f, 0, High(HEADER), High(HEADER + 8 + 8 * n + size) + High(8 + 8 * n + size) + High(0x32));
    RegionParts(f, 4, High(HEADER + 8 + 8 * n + size) + High(8 + 8 * n + size), High(0x32));
    RegionParts(f, 4, High(HEADER + 8 + 8 * n + size), High(8 + 8 * n + size));
    HighBack(f, 0, HEADER);
    HighBack(f, 4, HEADER + 8 + 8 * n + size);
    HighBack(f, 8, 8 + 8 * n + size);
    HighBack(f, 12, 0x32);
  }

  lemma {:induction false} ImageRead(f: Octets, t: seq<Entry>, size: nat)
    requires Region(f, HEADER, TableImage(t, size)) && 4 + 8 * |t| + size < WORD
    ensures HEADER + 4 <= |f| && HighAt(f, HEADER) == 4 + 8 * |t| + size
  {
    hide Region, High, HighAt, Low, TableBytes;
    RegionParts(f, HEADER, High(4 + 8 * |t| + size), Low(|t|) + TableBytes(t));
    HighBack(f, HEADER, 4 + 8 * |t| + size);
  }

  lemma {:induction false} EndRead(f: Octets, end: nat)
    requires Region(f, end, EndMark())
    ensures MarkAt(f, end)
  {
    var zeros, middle := seq(24, i => 0), [0, 0x1C, 0, 0x32, 0, 0];
    var tail := High(0x636D7066) + (High(0xA) + (Low(0xFFFF01) + (Low(0) + Low(0))));
    EndParts();
    hide EndMark, High, Low, HighAt, LowAt, Region;
    RegionParts(f, end, zeros, middle + tail);
    RegionParts(f, end + 24, middle, tail);
    RegionBytes(f, end, zeros);
    RegionBytes(f, end + 24, middle);
    RegionParts(f, end + 30, High(0x636D7066), High(0xA) + (Low(0xFFFF01) + (Low(0) + Low(0))));
    RegionParts(f, end + 34, High(0xA), Low(0xFFFF01) + (Low(0) + Low(0)));
    RegionParts(f, end + 38, Low(0xFFFF01), Low(0) + Low(0));
    RegionParts(f, end + 42, Low(0), Low(0));
    HighBack(f, end + 30, 0x636D7066);
    HighBack(f, end + 34, 0xA);
    LowBack(f, end + 38, 0xFFFF01);
    LowBack(f, end + 42, 0);
    LowBack(f, end + 46, 0);
  }

  lemma {:induction false} EndParts()
    ensures EndMark() == seq(24, i => 0) + ([0, 0x1C, 0, 0x32, 0, 0] + (High(0x636D7066) + (High(0xA) + (Low(0xFFFF01) + (Low(0) + Low(0))))))
  {
    hide High, Low;
  }

  lemma {:induction false} RegionBytes(f: Octets, p: nat, d: Octets)
    requires Region(f, p, d)
    ensures p + |d| <= |f| && forall i :: 0 <= i < |d| ==> f[p + i] == d[i]
  {
    var x := f[p..p + |d|];
    assert forall i :: 0 <= i < |d| ==> x[i] == f[p + i];
  }

  lemma {:induction false} TableFits(codec: Codec, c: Octets)
    requires HeldTo(codec, c, BlockCount(|c|)) < WORD
    ensures Fits32(Table(codec, c, BlockCount(|c|)))
  {
    var n := BlockCount(|c|);
    hide Packed, BlockCount;
    forall i | 0 <= i < n ensures EntryOf(codec, c, i).offset < WORD && EntryOf(codec, c, i).size < WORD {
      PlacesRise(codec, c, i, n);
    }
  }

  lemma {:induction false} FinishedBacked(codec: Codec, f: Octets, c: Octets)
    requires Inverse(codec) && BlocksPut(codec, f, c, BlockCount(|c|))
    ensures Backed(codec, f, HEADER, Table(codec, c, BlockCount(|c|)), c)
  {
    hide Inverse, Unpacked, PackedSize, BlockCount;
    var n := BlockCount(|c|);
    forall i | 0 <= i < n ensures BlockStored(codec, f, HEADER, EntryOf(codec, c, i), Chunk(c, i)) {
      ChunkLength(c, i);
      PackedBack(codec, Chunk(c, i));
    }
  }

  // A fork closed like this opens to the same contents.
  lemma {:induction false} FinishedStored(codec: Codec, fork: Octets, c: Octets)
    requires Inverse(codec) && BlocksPut(codec, fork, c, BlockCount(|c|))
    requires HeldTo(codec, c, BlockCount(|c|)) < WORD
    ensures ForkStored(codec, Finished(codec, fork, c), c)
  {
    var n := BlockCount(|c|);
    var f, t := Finished(codec, fork, c), Table(codec, c, n);
    hide *;
    FinishedRegions(codec, fork, c);
    TableFits(codec, c);
    ImagesRead(f, t, PackedSize(codec, c, n));
    FinishedBacked(codec, f, c);
    ForkIs(codec, f, c, t);
  }

  lemma {:induction false} ForkIs(codec: Codec, f: Octets, c: Octets, t: seq<Entry>)
    requires 16 <= |f| && HighAt(f, 0) == HEADER && HEADER + 8 <= |f| && LowAt(f, HEADER + 4) == |t| && Holds(f, HEADER + 8, t)
    requires Backed(codec, f, HEADER, t, c)
    ensures ForkStored(codec, f, c)
  {
    hide Holds, Backed, HighAt, LowAt;
    assert ForkTable(codec, f, c, HEADER, t);
  }

  // Closed and opened again, a file reads as it was left, if closing stayed inside the attribute's block.
  method ReadBack(file: CompressedFile, location: nat, n: nat) returns (ok: bool, buffer: Octets)
    requires file.Valid() && location + n <= file.size
    requires file.dirty ==> file.contents != []
    requires file.dirty ==> HeldTo(file.codec, file.contents, BlockCount(|file.contents|)) < WORD
    modifies file
    ensures ok <==> !old(file.dirty) || StaysInside(file.codec, old(file.attribute), old(file.contents))
    ensures ok ==> buffer == old(file.contents)[location..location + n]
  {
    hide Stored, Inverse, Backed, Inline;
    ok := file.Close();
    if !ok {
      return false, [];
    }
    var again := new CompressedFile(file.codec, file.attribute, file.fork, file.contents);
    buffer := again.Read(location, n);
  }

  /* ----- hfs/hfslib.c: a file's contents over those of a compressed file ----- */

  const BUFSIZE: nat := 0x10_0000

  // writeToHFSFile for a compressed file: opened, written piece by piece from its start, and closed.  It is not
  // cut to the input; one that lies in the fork never goes inline.
  method WriteToHFSFile(codec: Codec, attribute: Option<Attribute>, fork: Octets, input: Octets, ghost c: Octets)
      returns (ok: bool, attribute': Option<Attribute>, fork': Octets)
    requires Inverse(codec) && Stored(codec, attribute, fork, c) && |c| < WORD && |input| < WORD
    requires input != [] ==> var d := Written(c, 0, input); HeldTo(codec, d, BlockCount(|d|)) < WORD
    ensures ok <==> input == [] || StaysInside(codec, attribute, Written(c, 0, input))
    ensures attribute.Some? && attribute.value.data == [] && input != [] ==> (ok <==> !Inline(codec, Written(c, 0, input)))
    ensures ok ==> Stored(codec, attribute', fork', Written(c, 0, input))
    ensures ok && input != [] ==> attribute'.Some? && (attribute'.value.data == [] <==> !Inline(codec, Written(c, 0, input)))
    ensures Written(c, 0, input) == input <==> |c| <= |input|
  {
    hide *;
    NeverEmpty(codec, attribute, Written(c, 0, input));
    BufferIs();
    var file := new CompressedFile(codec, attribute, fork, c);
    var at := 0;
    WrittenOver(c, input, 0, 0);
    while at < |input|
      invariant 0 <= at <= |input| && file.Valid() && file.contents == Written(c, 0, input[..at])
      invariant file.dirty <==> at > 0
      invariant file.attribute == attribute && file.fork == fork && file.codec == codec
    {
      var n := if |input| - at > BUFSIZE then BUFSIZE else |input| - at;
      SizeIs(file);
      WrittenOver(c, input, at, n);
      file.Write(at, input[at..at + n]);
      at := at + n;
    }
    AllWritten(c, input);
    ok := file.Close();
    attribute', fork' := file.attribute, file.fork;
    if ok && input != [] {
      DataIs(codec, file.contents, attribute'.value, fork, fork');
    }
  }

  lemma {:induction false} BufferIs()
    ensures BUFSIZE > 0
  {
  }

  // The next piece of the input over the pieces before it.
  lemma {:induction false} WrittenOver(c: Octets, input: Octets, at: nat, n: nat)
    requires at + n <= |input|
    ensures Written(c, 0, []) == c && at <= |Written(c, 0, input[..at])|
    ensures Written(Written(c, 0, input[..at]), at, input[at..at + n]) == Written(c, 0, input[..at + n])
  {
  }

  lemma {:induction false} AllWritten(c: Octets, input: Octets)
    ensures input[..|input|] == input && (Written(c, 0, input) == input <==> |c| <= |input|)
    ensures input != [] ==> Written(c, 0, input) != []
  {
  }

  lemma {:induction false} SizeIs(file: CompressedFile)
    requires file.Valid()
    ensures file.size == |file.contents|
  {
    hide Inverse, Backed, Stored;
  }

  lemma {:induction false} NeverEmpty(codec: Codec, attribute: Option<Attribute>, d: Octets)
    requires Inverse(codec)
    ensures Inline(codec, d) ==> |codec.compress(d)| > 0
    ensures attribute.Some? && attribute.value.data == [] ==> (StaysInside(codec, attribute, d) <==> !Inline(codec, d))
  {
  }

  lemma {:induction false} DataIs(codec: Codec, d: Octets, a: Attribute, was: Octets, fork: Octets)
    requires PackedAs(codec, d, a, was, fork) && (Inline(codec, d) ==> |codec.compress(d)| > 0)
    ensures a.data == [] <==> !Inline(codec, d)
  {
    hide Inline, BlocksPut;
  }

  // One byte inline, overwritten with a hundred that pack to 101.
  method OutgrownAttribute(b: Octets) returns (ok: bool)
    requires |b| == 100
    ensures !ok
  {
    var codec := Codec((x: Octets) => [0] + x, (y: Octets) => if y == [] then [] else y[1..]);
    MarkedBack(codec);
    var a := Attribute(3, 1, [0, 7]);
    HundredInline(codec, b);
    var a', f;
    ok, a', f := WriteToHFSFile(codec, Some(a), [], b, [7]);
  }

  lemma {:induction false} MarkedBack(codec: Codec)
    requires forall x: Octets :: codec.compress(x) == [0] + x
    requires forall y: Octets :: codec.uncompress(y) == if y == [] then [] else y[1..]
    ensures Inverse(codec) && Stored(codec, Some(Attribute(3, 1, [0, 7])), [], [7])
  {
    hide *;
    forall x: Octets ensures MarkBack(codec, x) {
      MarkUndone(codec, x);
    }
    MarkStored(codec);
    MarkInverse(codec);
  }

  lemma {:induction false} MarkStored(codec: Codec)
    requires MarkBack(codec, [7])
    ensures Stored(codec, Some(Attribute(3, 1, [0, 7])), [], [7])
  {
    hide ForkStored;
    assert codec.compress([7]) == [0, 7];
  }

  lemma {:induction false} MarkInverse(codec: Codec)
    requires forall x: Octets :: MarkBack(codec, x)
    ensures Inverse(codec)
  {
    forall x: Octets
      ensures codec.uncompress(codec.compress(x)) == x && codec.compress(x) != [] && codec.compress(x)[0] != 0xff
    {
      assert MarkBack(codec, x);
    }
  }

  ghost predicate MarkBack(codec: Codec, x: Octets) {
    var y := codec.compress(x);
    y == [0] + x && y != [] && y[0] == 0 && codec.uncompress(y) == x
  }

  lemma {:induction false} MarkUndone(codec: Codec, x: Octets)
    requires codec.compress(x) == [0] + x
    requires codec.uncompress([0] + x) == if [0] + x == [] then [] else ([0] + x)[1..]
    ensures MarkBack(codec, x)
  {
  }

  lemma {:induction false} HundredInline(codec: Codec, b: Octets)
    requires |b| == 100 && forall x: Octets :: codec.compress(x) == [0] + x
    ensures Written([7], 0, b) == b && Inline(codec, b) && |codec.compress(b)| == 101
    ensures !StaysInside(codec, Some(Attribute(3, 1, [0, 7])), b)
    ensures HeldTo(codec, b, BlockCount(|b|)) < WORD
  {
    assert Written([7], 0, b) == b;
    assert Chunk(b, 0) == b;
    assert PackedSize(codec, b, 1) == PackedSize(codec, b, 0) + |codec.compress(b)|;
  }
}
