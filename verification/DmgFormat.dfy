/**
  What the DMG writer and its readers share: byte files, runs and run tables
  (includes/dmg/dmg.h), and how an input is cut into blocks.
 */
module DmgFormat {

  import opened Common

  const SECTOR_SIZE: nat := 512

  const BLOCK_ZEROES: nat := 0
  const BLOCK_RAW: nat := 1
  const BLOCK_IGNORE: nat := 2
  const BLOCK_COMMENT: nat := 0x7FFF_FFFE
  const BLOCK_TERMINATOR: nat := 0xFFFF_FFFF

  // A file with its position; writing past the end fills the gap with zeros.
  datatype File = File(data: Bytes, pos: nat) {

    function Got(len: nat): Bytes {
      if pos <= |data| then data[pos..pos + Min(len, |data| - pos)] else []
    }

    function AfterRead(len: nat): File { File(data, pos + |Got(len)|) }

    function Seek(to: nat): File { File(data, to) }

    function Write(b: Bytes): File {
      File(Overwrite(data, pos, b), pos + |b|)
    }
  }

  datatype Run = Run(typ: nat, sectorStart: nat, sectorCount: nat, compOffset: nat, compLength: nat)

  datatype BlkxTable = BlkxTable(firstSectorNumber: nat, sectorCount: nat, dataStart: nat, bufferSectors: nat,
                                 blocksRunCount: nat, runs: seq<Run>)

  // A compressor, called with the bytes and the room for its output: None stands for a failed call.
  datatype Compressor = Compressor(compress: (Bytes, nat) -> Option<Bytes>, decompressBuffer: nat -> nat, blockType: nat)

  type Decompressor = (nat, Bytes, nat) -> Option<Bytes>

  predicate Plain(typ: nat) {
    typ == BLOCK_RAW || typ == BLOCK_IGNORE || typ == BLOCK_COMMENT || typ == BLOCK_TERMINATOR || typ == BLOCK_ZEROES
  }

  // The two sides of a codec: what was compressed from some bytes keeps to the room given and decompresses to them.
  ghost predicate Inverse(c: Compressor, decompress: Decompressor) {
    && !Plain(c.blockType)
    && forall x, room :: x != [] && c.compress(x, room).Some? ==>
         && 0 < |c.compress(x, room).value| <= room
         && decompress(c.blockType, c.compress(x, room).value, |x|) == Some(x)
  }

  function DivCeil(a: nat, b: nat): nat
    requires b > 0
  {
    a / b + if a % b != 0 then 1 else 0
  }

  // Bytes padded with zeros to whole sectors.
  function Pad(b: Bytes): (r: Bytes)
    ensures |r| == DivCeil(|b|, SECTOR_SIZE) * SECTOR_SIZE >= |b|
  {
    b + Zeros(DivCeil(|b|, SECTOR_SIZE) * SECTOR_SIZE - |b|)
  }

  // The padded bytes are the bytes and then zeros, and fill the fewest sectors that hold the bytes.
  lemma {:induction false} PadLeast(b: Bytes, n: nat)
    ensures DivCeil(|b|, 512) <= n <==> |b| <= n * 512
    ensures |Pad(b)| <= n * 512 <==> |b| <= n * 512
    ensures |Pad(b)| % 512 == 0 && b <= Pad(b) && forall i :: |b| <= i < |Pad(b)| ==> Pad(b)[i] == 0
  {
    var q, r := |b| / 512, |b| % 512;
    assert |b| == q * 512 + r;
  }

  /* ----- Cutting the input into blocks ----- */

  // All bytes in pieces of n, the last one possibly shorter.
  function Chunks(data: Bytes, n: nat): seq<Bytes>
    requires n > 0
  {
    if data == [] then [] else [data[..Min(n, |data|)]] + Chunks(data[Min(n, |data|)..], n)
  }

  function Concat(s: seq<Bytes>): Bytes {
    if s == [] then [] else s[0] + Concat(s[1..])
  }

  lemma {:induction false} ChunksAreData(data: Bytes, n: nat)
    requires n > 0
    ensures Concat(Chunks(data, n)) == data
    ensures forall i :: 0 <= i < |Chunks(data, n)| ==> 0 < |Chunks(data, n)[i]| <= n
    ensures forall i :: 0 <= i < |Chunks(data, n)| - 1 ==> |Chunks(data, n)[i]| == n
  {
    if data != [] {
      ChunksAreData(data[Min(n, |data|)..], n);
    }
  }

  // Blocks, a read that came short, and the bytes it did get.
  datatype Plan = Plan(chunks: seq<Bytes>, short: bool, tail: Bytes)

  const READ_UNTIL_EOF: int := -1

  function NextReadSize(bytesRemain: int, runBytes: nat): nat {
    if bytesRemain < 0 || bytesRemain >= runBytes then runBytes else bytesRemain
  }

  function Have(left: Bytes, bytesRemain: int, runBytes: nat): Bytes {
    left[..Min(NextReadSize(bytesRemain, runBytes), |left|)]
  }

  // What one reader alone gets out of the bytes left, read by read.
  function PlanOf(left: Bytes, bytesRemain: int, runBytes: nat): Plan
    requires bytesRemain >= READ_UNTIL_EOF && runBytes > 0
    decreases |left|
  {
    var have := Have(left, bytesRemain, runBytes);
    var want := NextReadSize(bytesRemain, runBytes);
    if want == 0 then Plan([], false, [])
    else if |have| != want && bytesRemain >= 0 then Plan([], true, have)
    else if have == [] then Plan([], false, [])
    else
      var rest := PlanOf(left[|have|..], if bytesRemain < 0 then bytesRemain else bytesRemain - |have|, runBytes);
      Plan([have] + rest.chunks, rest.short, rest.tail)
  }

  // Reading to the end of the file, or a number of bytes that are there, gives exactly those bytes in pieces;
  // asking for more bytes than there are always ends in a short read.
  lemma {:induction false} PlanIsChunks(left: Bytes, bytesRemain: int, runBytes: nat)
    requires bytesRemain >= READ_UNTIL_EOF && runBytes > 0
    ensures bytesRemain < 0 ==> PlanOf(left, bytesRemain, runBytes) == Plan(Chunks(left, runBytes), false, [])
    ensures 0 <= bytesRemain <= |left| ==>
      PlanOf(left, bytesRemain, runBytes) == Plan(Chunks(left[..bytesRemain], runBytes), false, [])
    ensures PlanOf(left, bytesRemain, runBytes).short <==> bytesRemain > |left|
    decreases |left|
  {
    var have := Have(left, bytesRemain, runBytes);
    var want := NextReadSize(bytesRemain, runBytes);
    if want != 0 && !(|have| != want && bytesRemain >= 0) && have != [] {
      var rest := left[|have|..];
      PlanIsChunks(rest, if bytesRemain < 0 then bytesRemain else bytesRemain - |have|, runBytes);
      if 0 <= bytesRemain <= |left| {
        var d := left[..bytesRemain];
        assert d[..Min(runBytes, |d|)] == have && d[|have|..] == rest[..bytesRemain - |have|];
      }
    }
  }
}
