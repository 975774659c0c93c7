/**
  One B-tree node as bytes (hfs/btree.c): records growing up from byte 14, and a
  table of 16-bit big-endian offsets growing down from the end.  Each operation
  on the bytes is an operation on the sequence of records.
 */
module NodeLayout {
  import opened Common
  import opened Regions

  const DESCRIPTOR: nat := 14

  /* ----- Words and the offset table ----- */

  function WordBytes(v: int): (r: Octets)
    ensures |r| == 2
  {
    [(v / 256) % 256, v % 256]
  }

  function Word(b: Octets, p: nat): (v: int)
    requires p + 2 <= |b|
  {
    b[p] * 256 + b[p + 1]
  }

  // The table as it lies in the node: entry 0 at the very end.
  function TableBytes(t: seq<int>): (r: Octets)
    ensures |r| == 2 * |t|
  {
    if t == [] then [] else TableBytes(t[1..]) + WordBytes(t[0])
  }

  predicate Words(t: seq<int>) { forall i :: 0 <= i < |t| ==> 0 <= t[i] < 0x1_0000 }

  lemma {:induction false} TableConcat(a: seq<int>, b: seq<int>)
    ensures TableBytes(a + b) == TableBytes(b) + TableBytes(a)
  {
    hide WordBytes;
    if a == [] {
      assert a + b == b;
    } else {
      assert (a + b)[1..] == a[1..] + b && (a + b)[0] == a[0];
      TableConcat(a[1..], b);
    }
  }

  lemma {:induction false} WordOf(v: nat)
    requires v < 0x1_0000
    ensures Word(WordBytes(v), 0) == v
  {
  }

  // The bytes of a smaller number come first.
  lemma {:induction false} WordsRise(a: nat, b: nat)
    requires a < b < 0x1_0000
    ensures var x, y := WordBytes(a), WordBytes(b); x[0] < y[0] || (x[0] == y[0] && x[1] < y[1])
  {
  }

  lemma {:induction false} WordIn(t: seq<int>, k: nat)
    requires k < |t| && Words(t)
    ensures Word(TableBytes(t), 2 * (|t| - 1 - k)) == t[k]
  {
    var a, b := t[..k], t[k + 1..];
    assert t == a + ([t[k]] + b);
    TableConcat(a, [t[k]] + b);
    assert ([t[k]] + b)[1..] == b;
    WordOf(t[k]);
    var x, w, z := TableBytes(b), WordBytes(t[k]), TableBytes(a);
    assert TableBytes(t) == x + w + z;
    assert (x + w + z)[|x|] == w[0] && (x + w + z)[|x| + 1] == w[1];
  }

  // All offsets moved by a length.
  function Shift(t: seq<int>, length: int): (r: seq<int>)
    ensures |r| == |t| && forall i :: 0 <= i < |t| ==> r[i] == t[i] + length
  {
    seq(|t|, i requires 0 <= i < |t| => t[i] + length)
  }

  /* ----- Records ----- */

  function Concat(recs: seq<Octets>): Octets {
    if recs == [] then [] else recs[0] + Concat(recs[1..])
  }

  // Where the records start when the first one starts at base, and where the free space starts.
  function Offsets(base: nat, recs: seq<Octets>): (t: seq<int>)
    ensures |t| == |recs| + 1
    decreases |recs|
  {
    if recs == [] then [base] else [base] + Offsets(base + |recs[0]|, recs[1..])
  }

  lemma {:induction false} ConcatConcat(a: seq<Octets>, b: seq<Octets>)
    ensures Concat(a + b) == Concat(a) + Concat(b)
  {
    if a == [] {
      assert a + b == b;
    } else {
      assert (a + b)[1..] == a[1..] + b && (a + b)[0] == a[0];
      ConcatConcat(a[1..], b);
    }
  }

  lemma {:induction false} OffsetsConcat(base: nat, a: seq<Octets>, b: seq<Octets>)
    ensures Offsets(base, a + b) == Offsets(base, a)[..|a|] + Offsets(base + |Concat(a)|, b)
    decreases |a|
  {
    if a == [] {
      assert a + b == b;
    } else {
      var base', a' := base + |a[0]|, a[1..];
      OffsetsConcat(base', a', b);
      OffsetsCons(base, a, b);
      hide Offsets, Concat;
      ConsPrefix(base, Offsets(base', a'), |a'|, Offsets(base' + |Concat(a')|, b));
    }
  }

  lemma {:induction false} OffsetsCons(base: nat, a: seq<Octets>, b: seq<Octets>)
    requires a != []
    ensures Offsets(base, a + b) == [base] + Offsets(base + |a[0]|, a[1..] + b)
    ensures Offsets(base, a) == [base] + Offsets(base + |a[0]|, a[1..])
    ensures |Concat(a)| == |a[0]| + |Concat(a[1..])|
  {
    assert (a + b)[1..] == a[1..] + b && (a + b)[0] == a[0];
  }

  lemma {:induction false} ConsPrefix(x: int, t: seq<int>, l: nat, u: seq<int>)
    requires l <= |t|
    ensures ([x] + t)[..l + 1] + u == [x] + (t[..l] + u)
  {
  }

  lemma {:induction false} OffsetsShift(base: nat, recs: seq<Octets>, length: int)
    requires base + length >= 0
    ensures Shift(Offsets(base, recs), length) == Offsets(base + length, recs)
    decreases |recs|
  {
    if recs != [] {
      OffsetsShift(base + |recs[0]|, recs[1..], length);
    }
  }

  // Starts rise: strictly, where a record is not empty.
  lemma {:induction false} OffsetAt(base: nat, recs: seq<Octets>, i: nat)
    requires i <= |recs|
    ensures Offsets(base, recs)[i] == base + |Concat(recs[..i])|
    ensures i < |recs| ==> Offsets(base, recs)[i + 1] == Offsets(base, recs)[i] + |recs[i]|
    decreases |recs|
  {
    if i > 0 {
      assert recs[..i][0] == recs[0] && recs[..i][1..] == recs[1..][..i - 1];
      OffsetAt(base + |recs[0]|, recs[1..], i - 1);
    } else {
      assert recs != [] ==> Offsets(base + |recs[0]|, recs[1..])[0] == base + |recs[0]|;
    }
  }

  /* ----- A node's layout ----- */

  // The node holds these records: their bytes from byte 14 on, their offsets at the end, a gap between.
  ghost predicate Layout(bytes: Octets, recs: seq<Octets>) {
    && |bytes| < 0x1_0000 && DESCRIPTOR + |Concat(recs)| + 2 * (|recs| + 1) <= |bytes|
    && Region(bytes, DESCRIPTOR, Concat(recs))
    && Region(bytes, |bytes| - 2 * (|recs| + 1), TableBytes(Offsets(DESCRIPTOR, recs)))
  }

  // The table of records a followed by records b: the part for a, and the part for b and the free space.
  function TableA(a: seq<Octets>): (t: seq<int>)
    ensures |t| == |a|
  {
    Offsets(DESCRIPTOR, a)[..|a|]
  }

  function TableB(a: seq<Octets>, b: seq<Octets>): seq<int> { Offsets(DESCRIPTOR + |Concat(a)|, b) }

  lemma {:induction false} LayoutParts(bytes: Octets, a: seq<Octets>, b: seq<Octets>)
    ensures Layout(bytes, a + b) <==>
      (|bytes| < 0x1_0000 && DESCRIPTOR + |Concat(a)| + |Concat(b)| + 2 * (|a| + |b| + 1) <= |bytes|
       && Region(bytes, DESCRIPTOR, Concat(a)) && Region(bytes, DESCRIPTOR + |Concat(a)|, Concat(b))
       && Region(bytes, |bytes| - 2 * |a|, TableBytes(TableA(a)))
       && Region(bytes, |bytes| - 2 * (|a| + |b| + 1), TableBytes(TableB(a, b))))
  {
    hide Region, TableBytes, Offsets, Concat;
    ConcatConcat(a, b);
    OffsetsConcat(DESCRIPTOR, a, b);
    TableConcat(TableA(a), TableB(a, b));
    RegionParts(bytes, DESCRIPTOR, Concat(a), Concat(b));
    RegionParts(bytes, |bytes| - 2 * (|a| + |b| + 1), TableBytes(TableB(a, b)), TableBytes(TableA(a)));
  }

  // Offsets lie below the end of the node, so they fit their 16 bits.
  lemma {:induction false} OffsetsFit(bytes: Octets, recs: seq<Octets>)
    requires Layout(bytes, recs)
    ensures Words(Offsets(DESCRIPTOR, recs))
  {
    forall i | 0 <= i < |recs| + 1 ensures 0 <= Offsets(DESCRIPTOR, recs)[i] < 0x1_0000 {
      OffsetAt(DESCRIPTOR, recs, i);
      assert recs == recs[..i] + recs[i..];
      ConcatConcat(recs[..i], recs[i..]);
    }
  }

  lemma {:induction false} WordAt(bytes: Octets, p: int, d: Octets, o: nat)
    requires Region(bytes, p, d) && o + 2 <= |d|
    ensures Word(bytes, p + o) == Word(d, o)
  {
    assert bytes[p..p + |d|][o] == bytes[p + o] && bytes[p..p + |d|][o + 1] == bytes[p + o + 1];
  }

  lemma {:induction false} OffsetWord(bytes: Octets, recs: seq<Octets>, k: nat)
    requires Layout(bytes, recs) && k <= |recs|
    ensures |bytes| - 2 * (k + 1) >= 0
    ensures Word(bytes, |bytes| - 2 * (k + 1)) == Offsets(DESCRIPTOR, recs)[k] == DESCRIPTOR + |Concat(recs[..k])|
  {
    OffsetsFit(bytes, recs);
    OffsetAt(DESCRIPTOR, recs, k);
    hide TableBytes, Word, Region, Concat, Offsets;
    var t := Offsets(DESCRIPTOR, recs);
    WordIn(t, k);
    WordAt(bytes, |bytes| - 2 * (|recs| + 1), TableBytes(t), 2 * (|t| - 1 - k));
  }

  /* ----- The operations, as writes ----- */

  // What moveRecordsDown writes: the records from one on, moved by a length, and their offsets, grown by
  // it and moved by some entries.
  function MovedDown(bytes: Octets, recordStart: nat, length: int, records: Octets, tableStart: nat, table: seq<int>): (r: Octets)
    requires 0 <= recordStart + length && recordStart + length + |records| <= |bytes|
    requires tableStart + 2 * |table| <= |bytes|
    ensures |r| == |bytes|
  {
    Splice(Splice(bytes, recordStart + length, records), tableStart, TableBytes(table))
  }

  // The pieces of a node: three stretches of record bytes, three stretches of the table, each behind the other.
  ghost predicate Pieces(bytes: Octets, da: Octets, n: int, x: Octets, n': int, db: Octets,
                         m: int, tb: Octets, k: int, w: Octets, o: int, ta: Octets) {
    && n == DESCRIPTOR + |da| && n' == n + |x| && n' + |db| <= m
    && k == m + |tb| && o == k + |w| && |bytes| == o + |ta|
    && Region(bytes, DESCRIPTOR, da) && Region(bytes, n, x) && Region(bytes, n', db)
    && Region(bytes, m, tb) && Region(bytes, k, w) && Region(bytes, o, ta)
  }

  // The pieces but for x and w.
  ghost predicate Rest(bytes: Octets, da: Octets, n: int, n': int, db: Octets, m: int, tb: Octets, k: int, o: int, ta: Octets) {
    && n == DESCRIPTOR + |da| && n <= n' && n' + |db| <= m && k == m + |tb| && k <= o && |bytes| == o + |ta|
    && Region(bytes, DESCRIPTOR, da) && Region(bytes, n', db) && Region(bytes, m, tb) && Region(bytes, o, ta)
  }

  // Moving db to n', then writing a tail of the table at m.
  lemma {:induction false} PiecesMoved(bytes: Octets, da: Octets, n: int, n': int, db: Octets, m: int, tb: Octets, k: int, o: int, ta: Octets)
    requires Region(bytes, DESCRIPTOR, da) && Region(bytes, o, ta)
    requires n == DESCRIPTOR + |da| && n <= n' && n' + |db| <= m && k == m + |tb| && k <= o && |bytes| == o + |ta|
    ensures Rest(Splice(Splice(bytes, n', db), m, tb), da, n, n', db, m, tb, k, o, ta)
  {
    hide Region, Splice;
    var s1 := Splice(bytes, n', db);
    RegionSet(bytes, n', db);
    RegionKeep(bytes, n', db, DESCRIPTOR, da);
    RegionKeep(bytes, n', db, o, ta);
    RegionSet(s1, m, tb);
    RegionKeep(s1, m, tb, DESCRIPTOR, da);
    RegionKeep(s1, m, tb, n', db);
    RegionKeep(s1, m, tb, o, ta);
  }

  // What lies between the moved table tail and the rest of the table is not touched.
  lemma {:induction false} WordKept(bytes: Octets, n': int, db: Octets, m: int, tb: Octets, k: int, w: Octets)
    requires 0 <= n' && n' + |db| <= m && k == m + |tb| && Region(bytes, k, w)
    ensures Region(Splice(Splice(bytes, n', db), m, tb), k, w)
  {
    hide Region, Splice;
    RegionBounds(bytes, k, w);
    RegionKeep(bytes, n', db, k, w);
    RegionKeep(Splice(bytes, n', db), m, tb, k, w);
  }

  // Then the record itself.
  lemma {:induction false} PiecesWritten(s: Octets, da: Octets, n: int, x: Octets, n': int, db: Octets, m: int, tb: Octets, k: int, w: Octets,
                                         o: int, ta: Octets)
    requires Rest(s, da, n, n', db, m, tb, k, o, ta) && n' == n + |x| && o == k + |w| && Region(s, k, w)
    ensures Pieces(Splice(s, n, x), da, n, x, n', db, m, tb, k, w, o, ta)
  {
    hide Region, Splice;
    RegionSet(s, n, x);
    RegionKeep(s, n, x, DESCRIPTOR, da);
    RegionKeep(s, n, x, n', db);
    RegionKeep(s, n, x, o, ta);
    RegionKeep(s, n, x, m, tb);
    RegionKeep(s, n, x, k, w);
  }

  // A word written between table tail and rest of the table.
  lemma {:induction false} RestWord(s: Octets, da: Octets, n: int, n': int, db: Octets, m: int, tb: Octets, k: int, w: Octets, o: int, ta: Octets)
    requires Rest(s, da, n, n', db, m, tb, k, o, ta) && o == k + |w|
    ensures k >= 0 && k + |w| <= |s|
    ensures Rest(Splice(s, k, w), da, n, n', db, m, tb, k, o, ta) && Region(Splice(s, k, w), k, w)
  {
    hide Region, Splice;
    RegionSet(s, k, w);
    RegionKeep(s, k, w, DESCRIPTOR, da);
    RegionKeep(s, k, w, n', db);
    RegionKeep(s, k, w, o, ta);
    RegionKeep(s, k, w, m, tb);
  }

  function Start(a: seq<Octets>): nat { DESCRIPTOR + |Concat(a)| }

  // The pieces of records a, one more record, records b.
  ghost predicate Three(bytes: Octets, a: seq<Octets>, r: Octets, b: seq<Octets>) {
    var p := Start(a);
    && |bytes| < 0x1_0000
    && Pieces(bytes, Concat(a), p, r, p + |r|, Concat(b), |bytes| - 2 * (|a| + |b| + 2), TableBytes(Offsets(p + |r|, b)),
              |bytes| - 2 * (|a| + 1), WordBytes(p), |bytes| - 2 * |a|, TableBytes(TableA(a)))
  }

  lemma {:induction false} ThreeTables(a: seq<Octets>, r: Octets, b: seq<Octets>)
    ensures a + [r] + b == a + ([r] + b) && Concat([r] + b) == r + Concat(b)
    ensures TableBytes(TableB(a, [r] + b)) == TableBytes(Offsets(Start(a) + |r|, b)) + WordBytes(Start(a))
  {
    var p, t := Start(a), Offsets(Start(a) + |r|, b);
    assert ([r] + b)[0] == r && ([r] + b)[1..] == b;
    assert TableB(a, [r] + b) == [p] + t && ([p] + t)[1..] == t;
  }

  lemma {:induction false} LayoutOfThree(bytes: Octets, a: seq<Octets>, r: Octets, b: seq<Octets>)
    ensures Layout(bytes, a + [r] + b) <==> Three(bytes, a, r, b)
  {
    hide *;
    ThreeTables(a, r, b);
    LayoutParts(bytes, a, [r] + b);
    RegionParts(bytes, Start(a), r, Concat(b));
    RegionParts(bytes, |bytes| - 2 * (|a| + |b| + 2), TableBytes(Offsets(Start(a) + |r|, b)), WordBytes(Start(a)));
    ThreeIs(bytes, a, r, b);
  }

  lemma {:induction false} ThreeIs(bytes: Octets, a: seq<Octets>, r: Octets, b: seq<Octets>)
    ensures Start(a) == DESCRIPTOR + |Concat(a)|
    ensures Three(bytes, a, r, b) <==>
      (|bytes| < 0x1_0000 && Start(a) + |r| + |Concat(b)| + 2 * (|a| + |b| + 2) <= |bytes|
       && Region(bytes, DESCRIPTOR, Concat(a)) && Region(bytes, Start(a), r) && Region(bytes, Start(a) + |r|, Concat(b))
       && Region(bytes, |bytes| - 2 * |a|, TableBytes(TableA(a)))
       && Region(bytes, |bytes| - 2 * (|a| + |b| + 2), TableBytes(Offsets(Start(a) + |r|, b)))
       && Region(bytes, |bytes| - 2 * (|a| + |b| + 2) + 2 * (|b| + 1), WordBytes(Start(a))))
  {
    hide Region, Concat, Offsets;
  }

  // The three splices of an operation with the same positions as the pieces they make.
  lemma {:induction false} MadeThree(bytes: Octets, da: Octets, p: int, p': int, r: Octets, db: Octets, m: int, tb: Octets, k: int, w: Octets,
                                     o: int, ta: Octets)
    requires Region(bytes, DESCRIPTOR, da) && Region(bytes, o, ta)
    requires p == DESCRIPTOR + |da| && p' == p + |r| && p' + |db| <= m && k == m + |tb| && k + |w| == o && |bytes| == o + |ta|
    ensures Pieces(Splice(Splice(Splice(Splice(bytes, p', db), m, tb), p, r), k, w), da, p, r, p', db, m, tb, k, w, o, ta)
    ensures Region(bytes, k, w) ==> Pieces(Splice(Splice(Splice(bytes, p', db), m, tb), p, r), da, p, r, p', db, m, tb, k, w, o, ta)
  {
    hide Region, Splice, Pieces, Rest;
    PiecesMoved(bytes, da, p, p', db, m, tb, k, o, ta);
    var s := Splice(Splice(bytes, p', db), m, tb);
    RestWord(s, da, p, p', db, m, tb, k, w, o, ta);
    PiecesWritten(Splice(s, k, w), da, p, r, p', db, m, tb, k, w, o, ta);
    SplicesCommute(s, p, r, k, w);
    if Region(bytes, k, w) {
      WordKept(bytes, p', db, m, tb, k, w);
      PiecesWritten(s, da, p, r, p', db, m, tb, k, w, o, ta);
    }
  }

  lemma {:induction false} SplicesCommute(s: Octets, p: int, r: Octets, k: int, w: Octets)
    requires 0 <= p && p + |r| <= k && k + |w| <= |s|
    ensures Splice(Splice(s, k, w), p, r) == Splice(Splice(s, p, r), k, w)
  {
    var x, y := Splice(Splice(s, k, w), p, r), Splice(Splice(s, p, r), k, w);
    assert forall i :: 0 <= i < |s| ==> x[i] == y[i];
  }

  // The table entries of records b behind a, moved by what the records before them grew.
  lemma {:induction false} MovedTable(a: seq<Octets>, b: seq<Octets>, p: int, l: int)
    requires p + l >= 0 && p == Start(a)
    ensures TableBytes(Shift(TableB(a, b), l)) == TableBytes(Offsets(p + l, b))
  {
    OffsetsShift(p, b, l);
  }

  // Records b moved behind where r will end, their offsets rewritten, then r itself.
  function Rewritten(bytes: Octets, a: seq<Octets>, r: Octets, b: seq<Octets>): (s: Octets)
    requires InsertFits(bytes, a, r, b)
    ensures |s| == |bytes|
  {
    Splice(Splice(Splice(bytes, Start(a) + |r|, Concat(b)), |bytes| - 2 * (|a| + |b| + 2), TableBytes(Offsets(Start(a) + |r|, b))), Start(a), r)
  }

  predicate InsertFits(bytes: Octets, a: seq<Octets>, r: Octets, b: seq<Octets>) {
    Start(a) + |r| + |Concat(b)| + 2 * (|a| + |b| + 2) <= |bytes|
  }

  ghost predicate FrontKept(bytes: Octets, a: seq<Octets>) {
    |bytes| < 0x1_0000 && Region(bytes, DESCRIPTOR, Concat(a)) && Region(bytes, |bytes| - 2 * |a|, TableBytes(TableA(a)))
  }

  lemma {:induction false} RewrittenThree(bytes: Octets, a: seq<Octets>, r: Octets, b: seq<Octets>)
    requires InsertFits(bytes, a, r, b) && FrontKept(bytes, a)
    ensures Three(Splice(Rewritten(bytes, a, r, b), |bytes| - 2 * (|a| + 1), WordBytes(Start(a))), a, r, b)
    ensures Region(bytes, |bytes| - 2 * (|a| + 1), WordBytes(Start(a))) ==> Three(Rewritten(bytes, a, r, b), a, r, b)
  {
    hide TableA, Region, Pieces, Splice, TableBytes, Offsets, Concat, WordBytes;
    MadeThree(bytes, Concat(a), Start(a), Start(a) + |r|, r, Concat(b), |bytes| - 2 * (|a| + |b| + 2),
              TableBytes(Offsets(Start(a) + |r|, b)), |bytes| - 2 * (|a| + 1), WordBytes(Start(a)), |bytes| - 2 * |a|, TableBytes(TableA(a)));
  }

  lemma {:induction false} LayoutFront(bytes: Octets, a: seq<Octets>, b: seq<Octets>)
    requires Layout(bytes, a + b)
    ensures FrontKept(bytes, a) && Region(bytes, |bytes| - 2 * (|a| + |b| + 1), TableBytes(TableB(a, b)))
  {
    hide Layout, TableA, TableB, Region, TableBytes, Concat;
    LayoutParts(bytes, a, b);
  }

  // Insertion in the middle: move the rest, write the record, write its offset.
  function InsertBytes(bytes: Octets, a: seq<Octets>, r: Octets, b: seq<Octets>): Octets
    requires InsertFits(bytes, a, r, b)
  {
    var moved := MovedDown(bytes, Start(a), |r|, Concat(b), |bytes| - 2 * (|a| + |b| + 2), Shift(TableB(a, b), |r|));
    Splice(Splice(moved, Start(a), r), |bytes| - 2 * (|a| + 1), WordBytes(Start(a)))
  }

  lemma {:induction false} Inserted(bytes: Octets, a: seq<Octets>, r: Octets, b: seq<Octets>)
    requires Layout(bytes, a + b) && InsertFits(bytes, a, r, b)
    ensures Layout(InsertBytes(bytes, a, r, b), a + [r] + b)
  {
    hide *;
    LayoutFront(bytes, a, b);
    InsertIs(bytes, a, r, b);
    RewrittenThree(bytes, a, r, b);
    LayoutOfThree(InsertBytes(bytes, a, r, b), a, r, b);
  }

  lemma {:induction false} InsertIs(bytes: Octets, a: seq<Octets>, r: Octets, b: seq<Octets>)
    requires InsertFits(bytes, a, r, b)
    ensures InsertBytes(bytes, a, r, b) == Splice(Rewritten(bytes, a, r, b), |bytes| - 2 * (|a| + 1), WordBytes(Start(a)))
  {
    hide TableB, Splice, TableBytes, Offsets, Concat, WordBytes;
    MovedTable(a, b, Start(a), |r|);
  }

  // Insertion at the end: write the record into the free space, then the new free offset.
  function AppendBytes(bytes: Octets, a: seq<Octets>, r: Octets): Octets
    requires InsertFits(bytes, a, r, [])
  {
    Splice(Splice(bytes, Start(a), r), |bytes| - 2 * (|a| + 2), WordBytes(Start(a) + |r|))
  }

  lemma {:induction false} Appended(bytes: Octets, a: seq<Octets>, r: Octets)
    requires Layout(bytes, a) && InsertFits(bytes, a, r, [])
    ensures Layout(AppendBytes(bytes, a, r), a + [r])
  {
    hide *;
    NoTail(a, r);
    AppendFront(bytes, a);
    AppendIs(bytes, a, r);
    RewrittenThree(bytes, a, r, []);
    LayoutOfThree(AppendBytes(bytes, a, r), a, r, []);
  }

  lemma {:induction false} AppendFront(bytes: Octets, a: seq<Octets>)
    requires Layout(bytes, a)
    ensures FrontKept(bytes, a) && Region(bytes, |bytes| - 2 * (|a| + 1), WordBytes(Start(a)))
  {
    NoRecords(a, Start(a), Start(a));
    hide *;
    LayoutFront(bytes, a, []);
  }

  lemma {:induction false} NoTail(a: seq<Octets>, r: Octets)
    ensures a + [] == a && a + [r] + [] == a + [r]
  {
  }

  lemma {:induction false} AppendIs(bytes: Octets, a: seq<Octets>, r: Octets)
    requires InsertFits(bytes, a, r, [])
    ensures AppendBytes(bytes, a, r) == Rewritten(bytes, a, r, [])
  {
    hide Splice, TableBytes, Offsets, Concat, WordBytes;
    var p, w, m := Start(a), WordBytes(Start(a) + |r|), |bytes| - 2 * (|a| + 2);
    NoRecords(a, p, p + |r|);
    SpliceNone(bytes, p + |r|, []);
    SplicesCommute(bytes, p, r, m, w);
  }

  lemma {:induction false} NoRecords(a: seq<Octets>, p: nat, q: nat)
    requires p == Start(a)
    ensures a + [] == a && Concat([]) == []
    ensures TableBytes(TableB(a, [])) == WordBytes(p) && TableBytes(Offsets(q, [])) == WordBytes(q)
  {
    assert [p][1..] == [] && [q][1..] == [];
  }

  // Removal: move the rest up over the record, and its offsets over the record's offset.
  function RemoveBytes(bytes: Octets, a: seq<Octets>, r: Octets, b: seq<Octets>): Octets
    requires InsertFits(bytes, a, r, b)
  {
    MovedDown(bytes, Start(a) + |r|, -|r|, Concat(b), |bytes| - 2 * (|a| + |b| + 1), Shift(TableB(a + [r], b), -|r|))
  }

  lemma {:induction false} StartSnoc(a: seq<Octets>, r: Octets)
    ensures Start(a + [r]) == Start(a) + |r|
  {
    ConcatConcat(a, [r]);
    assert [r][1..] == [] && Concat([r]) == r;
  }

  lemma {:induction false} Removed(bytes: Octets, a: seq<Octets>, r: Octets, b: seq<Octets>)
    requires Layout(bytes, a + [r] + b)
    ensures InsertFits(bytes, a, r, b) && Layout(RemoveBytes(bytes, a, r, b), a + b)
  {
    hide *;
    LayoutOfThree(bytes, a, r, b);
    ThreeParts(bytes, a, r, b);
    RemoveRest(bytes, a, r, b);
    TwoParts(RemoveBytes(bytes, a, r, b), a, b);
  }

  lemma {:induction false} RemoveRest(bytes: Octets, a: seq<Octets>, r: Octets, b: seq<Octets>)
    requires InsertFits(bytes, a, r, b) && FrontKept(bytes, a)
    ensures RestOfTwo(RemoveBytes(bytes, a, r, b), a, b)
  {
    RemoveIs(bytes, a, r, b);
    hide TableA, TableB, Region, Splice, TableBytes, Offsets, Concat, RemoveBytes;
    PiecesMoved(bytes, Concat(a), Start(a), Start(a), Concat(b), |bytes| - 2 * (|a| + |b| + 1), TableBytes(Offsets(Start(a), b)),
                |bytes| - 2 * |a|, |bytes| - 2 * |a|, TableBytes(TableA(a)));
  }

  lemma {:induction false} RemoveIs(bytes: Octets, a: seq<Octets>, r: Octets, b: seq<Octets>)
    requires InsertFits(bytes, a, r, b)
    ensures RemoveBytes(bytes, a, r, b) ==
      Splice(Splice(bytes, Start(a), Concat(b)), |bytes| - 2 * (|a| + |b| + 1), TableBytes(Offsets(Start(a), b)))
  {
    hide TableB, Splice, TableBytes, Offsets, Concat;
    StartSnoc(a, r);
    MovedTable(a + [r], b, Start(a) + |r|, -|r|);
  }

  ghost predicate RestOfTwo(bytes: Octets, a: seq<Octets>, b: seq<Octets>) {
    && |bytes| < 0x1_0000
    && Rest(bytes, Concat(a), Start(a), Start(a), Concat(b), |bytes| - 2 * (|a| + |b| + 1), TableBytes(Offsets(Start(a), b)),
            |bytes| - 2 * |a|, |bytes| - 2 * |a|, TableBytes(TableA(a)))
  }

  lemma {:induction false} ThreeParts(bytes: Octets, a: seq<Octets>, r: Octets, b: seq<Octets>)
    requires Three(bytes, a, r, b)
    ensures InsertFits(bytes, a, r, b) && FrontKept(bytes, a)
    ensures Region(bytes, |bytes| - 2 * (|a| + 1), WordBytes(Start(a)))
  {
    hide Region;
  }

  lemma {:induction false} TwoParts(bytes: Octets, a: seq<Octets>, b: seq<Octets>)
    requires RestOfTwo(bytes, a, b)
    ensures Layout(bytes, a + b)
  {
    hide Layout, Region;
    LayoutParts(bytes, a, b);
  }

  // A record rewritten with another length: move the rest by the difference, write the record.
  function ResizeBytes(bytes: Octets, a: seq<Octets>, r: Octets, r': Octets, b: seq<Octets>): Octets
    requires InsertFits(bytes, a, r', b)
  {
    var moved := MovedDown(bytes, Start(a) + |r|, |r'| - |r|, Concat(b), |bytes| - 2 * (|a| + |b| + 2), Shift(TableB(a + [r], b), |r'| - |r|));
    Splice(moved, Start(a), r')
  }

  lemma {:induction false} Resized(bytes: Octets, a: seq<Octets>, r: Octets, r': Octets, b: seq<Octets>)
    requires Layout(bytes, a + [r] + b) && InsertFits(bytes, a, r', b)
    ensures Layout(ResizeBytes(bytes, a, r, r', b), a + [r'] + b)
  {
    hide *;
    LayoutOfThree(bytes, a, r, b);
    ThreeParts(bytes, a, r, b);
    ResizeIs(bytes, a, r, r', b);
    RewrittenThree(bytes, a, r', b);
    LayoutOfThree(ResizeBytes(bytes, a, r, r', b), a, r', b);
  }

  lemma {:induction false} ResizeIs(bytes: Octets, a: seq<Octets>, r: Octets, r': Octets, b: seq<Octets>)
    requires InsertFits(bytes, a, r', b)
    ensures ResizeBytes(bytes, a, r, r', b) == Rewritten(bytes, a, r', b)
  {
    hide TableB, Splice, TableBytes, Offsets, Concat;
    StartSnoc(a, r);
    MovedTable(a + [r], b, Start(a) + |r|, |r'| - |r|);
  }

  // After a split the old node holds the first records without a byte of it written: the offset of the first
  // record that went is now the free offset.
  lemma {:induction false} SplitLeft(bytes: Octets, a: seq<Octets>, b: seq<Octets>)
    requires Layout(bytes, a + b)
    ensures Layout(bytes, a)
  {
    var p, t := Start(a), TableB(a, b);
    NoRecords(a, p, p);
    TableFirst(p, b);
    hide Layout, TableB, TableBytes, Offsets, Concat, WordBytes, Region;
    LayoutParts(bytes, a, b);
    LayoutParts(bytes, a, []);
    var o := |bytes| - 2 * (|a| + |b| + 1);
    RegionParts(bytes, o, TableBytes(Offsets(p, b)[1..]), WordBytes(p));
    RegionEmpty(bytes, p);
  }

  lemma {:induction false} TableFirst(p: nat, b: seq<Octets>)
    ensures TableBytes(Offsets(p, b)) == TableBytes(Offsets(p, b)[1..]) + WordBytes(p) && |Offsets(p, b)[1..]| == |b|
  {
  }

  // The new node: the other records at its front, their offsets counted from there.
  function SplitBytes(bytes': Octets, a: seq<Octets>, b: seq<Octets>): Octets
    requires DESCRIPTOR + |Concat(b)| + 2 * (|b| + 1) <= |bytes'|
  {
    Splice(Splice(bytes', DESCRIPTOR, Concat(b)), |bytes'| - 2 * (|b| + 1), TableBytes(Shift(TableB(a, b), DESCRIPTOR - Start(a))))
  }

  lemma {:induction false} SplitRight(bytes: Octets, bytes': Octets, a: seq<Octets>, b: seq<Octets>)
    requires Layout(bytes, a + b) && |bytes'| == |bytes|
    ensures DESCRIPTOR + |Concat(b)| + 2 * (|b| + 1) <= |bytes'| && Layout(SplitBytes(bytes', a, b), b)
  {
    hide Region, TableBytes, Offsets, Concat;
    LayoutParts(bytes, a, b);
    SplitRegions(bytes', a, b);
  }

  lemma {:induction false} SplitRegions(bytes': Octets, a: seq<Octets>, b: seq<Octets>)
    requires DESCRIPTOR + |Concat(b)| + 2 * (|b| + 1) <= |bytes'|
    ensures Region(SplitBytes(bytes', a, b), DESCRIPTOR, Concat(b))
    ensures Region(SplitBytes(bytes', a, b), |bytes'| - 2 * (|b| + 1), TableBytes(Offsets(DESCRIPTOR, b)))
  {
    MovedTable(a, b, Start(a), DESCRIPTOR - Start(a));
    hide TableB, TableBytes, Offsets, Concat, Region, Splice;
    var s1, o, t := Splice(bytes', DESCRIPTOR, Concat(b)), |bytes'| - 2 * (|b| + 1), TableBytes(Offsets(DESCRIPTOR, b));
    RegionSet(bytes', DESCRIPTOR, Concat(b));
    RegionSet(s1, o, t);
    RegionKeep(s1, o, t, DESCRIPTOR, Concat(b));
  }

  /* ----- The node, changed in place ----- */

  lemma {:induction false} WordBytesWrap(v: int)
    ensures WordBytes(v % 0x1_0000) == WordBytes(v)
  {
    var q, w := v / 0x1_0000, v % 0x1_0000;
    assert v == q * 0x1_0000 + w;
    assert v / 256 == q * 256 + w / 256;
  }

  lemma {:induction false} TableSnoc(t: seq<int>, k: nat)
    requires k < |t|
    ensures TableBytes(t[..k + 1]) == WordBytes(t[k]) + TableBytes(t[..k])
    ensures TableBytes(t[k..]) == TableBytes(t[k + 1..]) + WordBytes(t[k])
  {
    assert t[..k + 1] == t[..k] + [t[k]] && [t[k]][1..] == [];
    TableConcat(t[..k], [t[k]]);
    assert t[k..][1..] == t[k + 1..] && t[k..][0] == t[k];
    assert TableBytes([t[k]]) == WordBytes(t[k]);
  }

  lemma {:induction false} WordReplaced(x: Octets, w: Octets, y: Octets, w': Octets)
    requires |w| == 2 && |w'| == 2
    ensures Splice(x + (w + y), |x|, w') == (x + w') + y
    ensures Word(x + (w + y), |x|) == Word(w, 0)
  {
  }

  // One offset of the table decoded, moved and encoded again.
  lemma {:induction false} OneShifted(t: seq<int>, length: int, k: nat, table: Octets)
    requires k < |t| && Words(t)
    requires table == TableBytes(Shift(t, length)[k + 1..]) + TableBytes(t[..k + 1])
    ensures |table| == 2 * |t| && Word(table, 2 * (|t| - 1 - k)) == t[k]
    ensures Splice(table, 2 * (|t| - 1 - k), WordBytes((t[k] + length) % 0x1_0000)) == TableBytes(Shift(t, length)[k..]) + TableBytes(t[..k])
  {
    var t' := Shift(t, length);
    assert t'[k] == t[k] + length;
    hide TableBytes, Shift, Splice, WordBytes, Word;
    TableSnoc(t, k);
    TableSnoc(t', k);
    WordBytesWrap(t[k] + length);
    WordOf(t[k]);
    WordReplaced(TableBytes(t'[k + 1..]), WordBytes(t[k]), TableBytes(t[..k]), WordBytes(t[k] + length));
  }

  // The loops that move the offsets of a table of 16-bit words.
  method ShiftTable(words: Octets, length: int, ghost t: seq<int>) returns (table: Octets)
    requires words == TableBytes(t) && Words(t)
    ensures table == TableBytes(Shift(t, length))
  {
    hide *;
    table := words;
    var i: nat := 0;
    assert t[..|t|] == t && Shift(t, length)[|t|..] == [];
    NoWords();
    while i < |words| / 2
      invariant i <= |t| && |words| == 2 * |t|
      invariant table == TableBytes(Shift(t, length)[|t| - i..]) + TableBytes(t[..|t| - i])
    {
      OneShifted(t, length, |t| - 1 - i, table);
      table := Splice(table, 2 * i, WordBytes((Word(table, 2 * i) + length) % 0x1_0000));
      i := i + 1;
    }
    assert t[..0] == [] && Shift(t, length)[0..] == Shift(t, length);
  }

  lemma {:induction false} NoWords()
    ensures TableBytes([]) == []
  {
  }

  // The parts of a node that the splits and writes of a record name.
  lemma {:induction false} AroundRecord(recs: seq<Octets>, i: nat)
    requires i < |recs|
    ensures recs == recs[..i] + [recs[i]] + recs[i + 1..] && recs == recs[..i] + recs[i..] && recs == recs[..i + 1] + recs[i + 1..]
    ensures recs[..i + 1] == recs[..i] + [recs[i]]
  {
  }

  // The record a node's key comparison finds first.
  predicate Keyed(rec: Octets) {
    |rec| >= 2 && 0 <= Word(rec, 0) && 2 + Word(rec, 0) <= |rec|
  }

  function KeyOf(rec: Octets): Octets
    requires Keyed(rec)
  {
    rec[..2 + Word(rec, 0)]
  }

  ghost predicate AllKeyed(recs: seq<Octets>) { forall i :: 0 <= i < |recs| ==> Keyed(recs[i]) }

  // i is where a search key goes: the records before it have lower keys, the one at it has not.
  ghost predicate Position(recs: seq<Octets>, key: Octets, compare: (Octets, Octets) -> int, i: nat)
    requires AllKeyed(recs)
  {
    && i <= |recs|
    && (forall j :: 0 <= j < i ==> compare(KeyOf(recs[j]), key) < 0)
    && (i < |recs| ==> compare(KeyOf(recs[i]), key) >= 0)
  }

  class NodeBytes {
    var bytes: Octets
    var numRecords: nat
    ghost var records: seq<Octets>

    ghost predicate Valid() reads this { Layout(bytes, records) && numRecords == |records| }

    // The node as it is read from the file.
    constructor (bytes: Octets, numRecords: nat, ghost records: seq<Octets>)
      requires Layout(bytes, records) && numRecords == |records|
      ensures Valid() && this.bytes == bytes && this.numRecords == numRecords && this.records == records
    {
      this.bytes, this.numRecords, this.records := bytes, numRecords, records;
    }

    // A node whose bytes are yet to be written.
    constructor OfBytes(bytes: Octets)
      ensures this.bytes == bytes
    {
      this.bytes, numRecords, records := bytes, 0, [];
    }

    method GetRecordOffset(num: nat) returns (offset: nat)
      requires Valid() && num <= numRecords
      ensures offset == DESCRIPTOR + |Concat(records[..num])|
    {
      OffsetWord(bytes, records, num);
      hide *;
      offset := Word(bytes, |bytes| - 2 * (num + 1));
    }

    // The gap between the last record and the table.
    method GetFreeSpace() returns (free: nat)
      requires Valid()
      ensures DESCRIPTOR + |Concat(records)| + free + 2 * (|records| + 1) == |bytes|
    {
      OffsetWord(bytes, records, numRecords);
      assert records[..numRecords] == records;
      hide Word, Concat, Offsets, Region;
      free := |bytes| - 2 * (numRecords + 1) - Word(bytes, |bytes| - 2 * (numRecords + 1));
    }

    // Moves the records from one on by length bytes; their offsets move by one entry when moveOffsets asks for it.
    method MoveRecordsDown(record: nat, length: int, moveOffsets: int, ghost a: seq<Octets>, ghost b: seq<Octets>)
      requires Valid() && records == a + b && record == |a|
      requires CanMove(bytes, a, b, length, moveOffsets)
      modifies this`bytes
      ensures bytes == Moved(old(bytes), a, b, length, moveOffsets)
    {
      hide *;
      Held();
      var first := GetRecordOffset(record);
      var last := GetRecordOffset(numRecords);
      bytes := MovedBytes(bytes, record, numRecords, first, last, length, moveOffsets, a, b);
    }

    // The search loop of doAddRecord.
    method FindPlace(key: Octets, compare: (Octets, Octets) -> int) returns (i: nat, found: bool)
      requires Valid() && AllKeyed(records)
      ensures Position(records, key, compare, i)
      ensures found <==> i < |records| && compare(KeyOf(records[i]), key) == 0
    {
      Held();
      i, found := 0, false;
      while i < numRecords
        invariant i <= numRecords && !found
        invariant forall j :: 0 <= j < i ==> compare(KeyOf(records[j]), key) < 0
      {
        var offset := GetRecordOffset(i);
        KeyAt(bytes, records, i);
        hide Valid, Layout, Concat, KeyOf, Word, AllKeyed;
        var res := compare(bytes[offset..offset + 2 + Word(bytes, offset)], key);
        if res == 0 {
          return i, true;
        } else if res > 0 {
          return i, false;
        }
        i := i + 1;
      }
    }

    // doAddRecord: the record goes before the first one whose key is not lower, unless that key is equal.
    method AddRecord(key: Octets, content: Octets, compare: (Octets, Octets) -> int) returns (ok: bool, ghost at: nat)
      requires Valid() && AllKeyed(records) && InsertFits(bytes, records, key + content, [])
      modifies this
      ensures Valid() && Position(old(records), key, compare, at)
      ensures ok <==> !(at < |old(records)| && compare(KeyOf(old(records)[at]), key) == 0)
      ensures records == if ok then old(records)[..at] + [key + content] + old(records)[at..] else old(records)
      ensures |bytes| == |old(bytes)| && (!ok ==> bytes == old(bytes))
    {
      hide *;
      Held();
      var i, found := FindPlace(key, compare);
      at := i;
      if found {
        return false, at;
      }
      ok := true;
      PositionIn(records, key, compare, i);
      ghost var a, b, r := records[..i], records[i..], key + content;
      AddFits(bytes, records, r, i);
      var offset := GetRecordOffset(i);
      if i != numRecords {
        InsertMoves(bytes, a, r, b, key, content);
        MoveRecordsDown(i, |key| + |content|, 1, a, b);
        bytes := Splice(bytes, offset, key);
        bytes := Splice(bytes, offset + |key|, content);
        bytes := Splice(bytes, |bytes| - 2 * (i + 1), WordBytes(offset));
      } else {
        AppendMoves(bytes, a, r, b, key, content);
        bytes := Splice(bytes, offset, key);
        bytes := Splice(bytes, offset + |key|, content);
        bytes := Splice(bytes, |bytes| - 2 * (numRecords + 2), WordBytes(offset + |key| + |content|));
      }
      numRecords := numRecords + 1;
      records := a + [r] + b;
      Holds();
    }

    // removeRecord, once the record is found: all but the last one is overwritten by those behind it.
    method RemoveRecord(i: nat)
      requires Valid() && i < numRecords
      modifies this
      ensures Valid() && records == old(records)[..i] + old(records)[i + 1..] && |bytes| == |old(bytes)|
    {
      hide *;
      Held();
      ghost var a, r, b := records[..i], records[i], records[i + 1..];
      AroundRecord(records, i);
      Removed(bytes, a, r, b);
      if i != numRecords - 1 {
        RemoveMoves(bytes, a, r, b);
        var offset := GetRecordOffset(i);
        var next := GetRecordOffset(i + 1);
        var length: int := next - offset;
        MoveRecordsDown(i + 1, -length, -1, a + [r], b);
      } else {
        RemoveLast(bytes, a, r, b);
      }
      numRecords := numRecords - 1;
      records := a + b;
      Holds();
    }

    // An index record's key rewritten in place, its pointer kept, as addRecord and removeRecord do.
    method ReplaceKey(i: nat, key: Octets)
      requires Valid() && i < numRecords && Keyed(records[i]) && |records[i]| == |KeyOf(records[i])| + 4
      requires InsertFits(bytes, records[..i], key + records[i][|KeyOf(records[i])|..], records[i + 1..])
      modifies this
      ensures Valid() && numRecords == old(numRecords) && |bytes| == |old(bytes)|
      ensures records == old(records)[i := key + old(records)[i][|KeyOf(old(records)[i])|..]]
    {
      hide *;
      Held();
      ghost var a, r, b := records[..i], records[i], records[i + 1..];
      AroundRecord(records, i);
      KeyThere(bytes, a, r, b);
      var offset := GetRecordOffset(i);
      var keySize := 2 + Word(bytes, offset);
      var pointer := bytes[offset + keySize..offset + keySize + 4];
      ghost var r' := key + pointer;
      if |key| != keySize {
        ResizeMoves(bytes, a, r, r', b, key, pointer);
        MoveRecordsDown(i + 1, |key| - keySize, 0, a + [r], b);
      } else {
        ResizeStays(bytes, a, r, r', b, key, pointer);
      }
      bytes := Splice(bytes, offset, key);
      bytes := Splice(bytes, offset + |key|, pointer);
      records := a + [r'] + b;
      Updated(old(records), i, r');
      Holds();
    }

    // splitNode: the second half of the records goes to a new node; no byte of the old one changes.
    method SplitNode(other: NodeBytes)
      requires Valid() && other != this && |other.bytes| == |bytes|
      modifies this, other
      ensures Valid() && other.Valid() && bytes == old(bytes) && |other.bytes| == |bytes|
      ensures records == old(records)[..|old(records)| / 2] && other.records == old(records)[|old(records)| / 2..]
    {
      hide *;
      Held();
      var half := numRecords / 2;
      var nodesToMove := numRecords - half;
      ghost var a, b := records[..half], records[half..];
      assert records == a + b;
      assert records[..numRecords] == records;
      var toMove := GetRecordOffset(half);
      var end := GetRecordOffset(numRecords);
      MoveParts(bytes, a, b, toMove, end);
      SplitOffset(bytes, a, b);
      var start := |bytes| - 2 * (numRecords + 1);
      var buffer, words := bytes[toMove..end], bytes[start..start + 2 * (nodesToMove + 1)];
      var internalOffset := Word(words, 2 * nodesToMove) - DESCRIPTOR;
      var table := ShiftTable(words, -internalOffset, TableB(a, b));
      SplitRight(bytes, other.bytes, a, b);
      SplitLeft(bytes, a, b);
      SplitIs(other.bytes, a, b);
      other.bytes := Splice(other.bytes, DESCRIPTOR, buffer);
      other.bytes := Splice(other.bytes, |other.bytes| - 2 * (nodesToMove + 1), table);
      other.numRecords, other.records := nodesToMove, b;
      numRecords, records := half, a;
      Holds();
      other.Holds();
    }

    lemma {:induction false} Holds()
      requires Layout(bytes, records) && numRecords == |records|
      ensures Valid()
    {
    }

    lemma {:induction false} Held()
      requires Valid()
      ensures Layout(bytes, records) && numRecords == |records|
    {
    }
  }

  lemma {:induction false} PositionIn(recs: seq<Octets>, key: Octets, compare: (Octets, Octets) -> int, i: nat)
    requires AllKeyed(recs) && Position(recs, key, compare, i)
    ensures i <= |recs|
  {
  }

  // The record's key as READ_KEY reads it: a length word, then as many bytes.
  lemma {:induction false} KeyAt(bytes: Octets, recs: seq<Octets>, i: nat)
    requires Layout(bytes, recs) && i < |recs| && AllKeyed(recs)
    ensures var o := DESCRIPTOR + |Concat(recs[..i])|;
      o + 2 <= |bytes| && 0 <= Word(bytes, o) && o + 2 + Word(bytes, o) <= |bytes| && bytes[o..o + 2 + Word(bytes, o)] == KeyOf(recs[i])
  {
    var a, r, b := recs[..i], recs[i], recs[i + 1..];
    AroundRecord(recs, i);
    RecordAt(bytes, a, r, b);
    hide Layout, Concat;
    WordAt(bytes, Start(a), r, 0);
    RegionHead(bytes, Start(a), r, 2 + Word(r, 0));
  }

  lemma {:induction false} RecordAt(bytes: Octets, a: seq<Octets>, r: Octets, b: seq<Octets>)
    requires Layout(bytes, a + [r] + b)
    ensures Region(bytes, Start(a), r)
  {
    hide *;
    LayoutOfThree(bytes, a, r, b);
    ThreeIs(bytes, a, r, b);
  }

  lemma {:induction false} AddFits(bytes: Octets, recs: seq<Octets>, r: Octets, i: nat)
    requires i <= |recs| && InsertFits(bytes, recs, r, [])
    ensures InsertFits(bytes, recs[..i], r, recs[i..]) && recs == recs[..i] + recs[i..]
    ensures |recs[..i] + [r] + recs[i..]| == |recs| + 1
  {
    assert recs == recs[..i] + recs[i..];
    ConcatConcat(recs[..i], recs[i..]);
  }

  // What doAddRecord writes after moving the other records, and that it is an insertion.
  lemma {:induction false} InsertMoves(bytes: Octets, a: seq<Octets>, r: Octets, b: seq<Octets>, key: Octets, content: Octets)
    requires Layout(bytes, a + b) && InsertFits(bytes, a, r, b) && r == key + content
    ensures CanMove(bytes, a, b, |key| + |content|, 1) && |Moved(bytes, a, b, |key| + |content|, 1)| == |bytes|
    ensures Start(a) + |key| + |content| <= |bytes| && 0 <= |bytes| - 2 * (|a| + 1)
    ensures Start(a) == DESCRIPTOR + |Concat(a)|
    ensures Layout(Splice(Splice(Splice(Moved(bytes, a, b, |key| + |content|, 1), Start(a), key), Start(a) + |key|, content),
      |bytes| - 2 * (|a| + 1), WordBytes(Start(a))), a + [r] + b)
  {
    hide *;
    Inserted(bytes, a, r, b);
    InsertIsMoved(bytes, a, r, b, |key| + |content|);
    SpliceTwice(Moved(bytes, a, b, |key| + |content|, 1), Start(a), key, content);
  }

  lemma {:induction false} InsertIsMoved(bytes: Octets, a: seq<Octets>, r: Octets, b: seq<Octets>, length: nat)
    requires InsertFits(bytes, a, r, b) && length == |r|
    ensures CanMove(bytes, a, b, length, 1) && |Moved(bytes, a, b, length, 1)| == |bytes|
    ensures Start(a) == DESCRIPTOR + |Concat(a)| && Start(a) + length <= |bytes| && 0 <= |bytes| - 2 * (|a| + 1)
    ensures InsertBytes(bytes, a, r, b) ==
      Splice(Splice(Moved(bytes, a, b, length, 1), Start(a), r), |bytes| - 2 * (|a| + 1), WordBytes(Start(a)))
  {
    hide Splice, TableB, Concat, WordBytes, TableBytes, MovedDown;
  }

  lemma {:induction false} AppendMoves(bytes: Octets, a: seq<Octets>, r: Octets, b: seq<Octets>, key: Octets, content: Octets)
    requires Layout(bytes, a + b) && |b| == 0 && InsertFits(bytes, a, r, b) && r == key + content
    ensures Start(a) + |key| + |content| <= |bytes| && 0 <= |bytes| - 2 * (|a| + 2)
    ensures Start(a) == DESCRIPTOR + |Concat(a)|
    ensures Layout(Splice(Splice(Splice(bytes, Start(a), key), Start(a) + |key|, content),
      |bytes| - 2 * (|a| + 2), WordBytes(Start(a) + |key| + |content|)), a + [r] + b)
  {
    assert b == [] && a + b == a && a + [r] + b == a + [r];
    Appended(bytes, a, r);
    hide Layout, Splice, Concat, WordBytes;
    SpliceTwice(bytes, Start(a), key, content);
  }

  lemma {:induction false} RemoveMoves(bytes: Octets, a: seq<Octets>, r: Octets, b: seq<Octets>)
    requires InsertFits(bytes, a, r, b)
    ensures CanMove(bytes, a + [r], b, -|r|, -1) && Moved(bytes, a + [r], b, -|r|, -1) == RemoveBytes(bytes, a, r, b)
    ensures DESCRIPTOR + |Concat(a + [r])| == DESCRIPTOR + |Concat(a)| + |r| && |RemoveBytes(bytes, a, r, b)| == |bytes|
  {
    StartSnoc(a, r);
    hide Concat, TableB, MovedDown;
  }

  lemma {:induction false} KeyThere(bytes: Octets, a: seq<Octets>, r: Octets, b: seq<Octets>)
    requires Layout(bytes, a + [r] + b) && Keyed(r) && |r| == |KeyOf(r)| + 4
    ensures var o := DESCRIPTOR + |Concat(a)|;
      o == Start(a) && o + 2 <= |bytes| && 0 <= Word(bytes, o) && 2 + Word(bytes, o) == |KeyOf(r)| && |KeyOf(r)| + 4 == |r|
      && o + |r| <= |bytes| && bytes[o + |KeyOf(r)|..o + |KeyOf(r)| + 4] == r[|KeyOf(r)|..]
  {
    RecordAt(bytes, a, r, b);
    hide Layout, Concat;
    WordAt(bytes, Start(a), r, 0);
    RegionTail(bytes, Start(a), r, 2 + Word(r, 0));
  }

  lemma {:induction false} ResizeMoves(bytes: Octets, a: seq<Octets>, r: Octets, r': Octets, b: seq<Octets>, key: Octets, pointer: Octets)
    requires Layout(bytes, a + [r] + b) && InsertFits(bytes, a, r', b) && r' == key + pointer
    ensures CanMove(bytes, a + [r], b, |r'| - |r|, 0) && |Moved(bytes, a + [r], b, |r'| - |r|, 0)| == |bytes|
    ensures Start(a) + |key| + |pointer| <= |bytes|
    ensures Layout(Splice(Splice(Moved(bytes, a + [r], b, |r'| - |r|, 0), Start(a), key), Start(a) + |key|, pointer), a + [r'] + b)
  {
    StartSnoc(a, r);
    Resized(bytes, a, r, r', b);
    hide Layout, Splice, TableB, Concat, TableBytes;
    SpliceTwice(Moved(bytes, a + [r], b, |r'| - |r|, 0), Start(a), key, pointer);
  }

  // A record of the same length needs no move.
  lemma {:induction false} ResizeStays(bytes: Octets, a: seq<Octets>, r: Octets, r': Octets, b: seq<Octets>, key: Octets, pointer: Octets)
    requires Layout(bytes, a + [r] + b) && |r'| == |r| && r' == key + pointer
    ensures Start(a) + |key| + |pointer| <= |bytes|
    ensures Layout(Splice(Splice(bytes, Start(a), key), Start(a) + |key|, pointer), a + [r'] + b)
  {
    hide *;
    LayoutOfThree(bytes, a, r, b);
    ThreeParts(bytes, a, r, b);
    SameFits(bytes, a, r, r', b);
    StayThree(bytes, a, r, r', b);
    RewrittenThree(bytes, a, r', b);
    LayoutOfThree(Rewritten(bytes, a, r', b), a, r', b);
    SpliceTwice(bytes, Start(a), key, pointer);
  }

  lemma {:induction false} SameFits(bytes: Octets, a: seq<Octets>, r: Octets, r': Octets, b: seq<Octets>)
    requires InsertFits(bytes, a, r, b) && |r'| == |r|
    ensures InsertFits(bytes, a, r', b) && Start(a) + |r'| <= |bytes|
  {
  }

  lemma {:induction false} StayThree(bytes: Octets, a: seq<Octets>, r: Octets, r': Octets, b: seq<Octets>)
    requires Three(bytes, a, r, b) && InsertFits(bytes, a, r', b) && |r'| == |r|
    ensures Rewritten(bytes, a, r', b) == Splice(bytes, Start(a), r')
  {
    hide Region, Splice, Concat, Offsets, TableBytes;
    SpliceSame(bytes, Start(a) + |r|, Concat(b));
    SpliceSame(bytes, |bytes| - 2 * (|a| + |b| + 2), TableBytes(Offsets(Start(a) + |r|, b)));
  }

  lemma {:induction false} Updated(recs: seq<Octets>, i: nat, r: Octets)
    requires i < |recs|
    ensures recs[..i] + [r] + recs[i + 1..] == recs[i := r]
  {
  }

  lemma {:induction false} SplitOffset(bytes: Octets, a: seq<Octets>, b: seq<Octets>)
    requires Words(TableB(a, b))
    ensures |TableBytes(TableB(a, b))| == 2 * (|b| + 1) && Word(TableBytes(TableB(a, b)), 2 * |b|) == Start(a)
  {
    WordIn(TableB(a, b), 0);
  }

  lemma {:induction false} SplitIs(bytes': Octets, a: seq<Octets>, b: seq<Octets>)
    requires DESCRIPTOR + |Concat(b)| + 2 * (|b| + 1) <= |bytes'|
    ensures |Splice(bytes', DESCRIPTOR, Concat(b))| == |bytes'|
    ensures SplitBytes(bytes', a, b) ==
      Splice(Splice(bytes', DESCRIPTOR, Concat(b)), |bytes'| - 2 * (|b| + 1), TableBytes(Shift(TableB(a, b), -(Start(a) - DESCRIPTOR))))
  {
    hide Splice, TableBytes, TableB, Shift, Concat;
  }

  lemma {:induction false} RemoveLast(bytes: Octets, a: seq<Octets>, r: Octets, b: seq<Octets>)
    requires Layout(bytes, a + [r] + b) && b == []
    ensures Layout(bytes, a + b)
  {
    assert a + [r] + b == a + [r] && a + b == a;
    hide *;
    SplitLeft(bytes, a, [r]);
  }

  // The reads and writes of moveRecordsDown.
  method MovedBytes(bytes: Octets, record: nat, numRecords: nat, first: nat, last: nat, length: int, moveOffsets: int,
                    ghost a: seq<Octets>, ghost b: seq<Octets>)
    returns (node: Octets)
    requires Layout(bytes, a + b) && |a| == record && |a + b| == numRecords && CanMove(bytes, a, b, length, moveOffsets)
    requires first == DESCRIPTOR + |Concat((a + b)[..record])| && last == DESCRIPTOR + |Concat((a + b)[..numRecords])|
    ensures node == Moved(bytes, a, b, length, moveOffsets)
  {
    hide *;
    MoveParts(bytes, a, b, first, last);
    MovedIs(bytes, a, b, length, moveOffsets);
    var tableStart: int := |bytes| - 2 * (numRecords + 1);
    var recs, words := bytes[first..last], bytes[tableStart..|bytes| - 2 * record];
    var table := ShiftTable(words, length, TableB(a, b));
    node := Splice(bytes, first + length, recs);
    if moveOffsets > 0 {
      tableStart := tableStart - 2;
    } else if moveOffsets < 0 {
      tableStart := tableStart + 2;
    }
    node := Splice(node, tableStart, table);
  }

  ghost predicate CanMove(bytes: Octets, a: seq<Octets>, b: seq<Octets>, length: int, moveOffsets: int) {
    && -1 <= moveOffsets <= 1 && (moveOffsets == -1 ==> a != [])
    && 0 <= Start(a) + length && Start(a) + length + |Concat(b)| <= |bytes|
    && 2 * (|a| + |b| + 1 + moveOffsets) <= |bytes|
  }

  ghost function Moved(bytes: Octets, a: seq<Octets>, b: seq<Octets>, length: int, moveOffsets: int): Octets
    requires CanMove(bytes, a, b, length, moveOffsets)
  {
    MovedDown(bytes, Start(a), length, Concat(b), |bytes| - 2 * (|a| + |b| + 1 + moveOffsets), Shift(TableB(a, b), length))
  }

  lemma {:induction false} MovedIs(bytes: Octets, a: seq<Octets>, b: seq<Octets>, length: int, moveOffsets: int)
    requires CanMove(bytes, a, b, length, moveOffsets)
    ensures -1 <= moveOffsets <= 1 && 0 <= Start(a) + length && Start(a) + length + |Concat(b)| <= |bytes|
    ensures 0 <= |bytes| - 2 * (|a| + |b| + 1 + moveOffsets)
    ensures |bytes| - 2 * (|a| + |b| + 1 + moveOffsets) + |TableBytes(Shift(TableB(a, b), length))| <= |bytes|
    ensures Moved(bytes, a, b, length, moveOffsets) == Splice(Splice(bytes, Start(a) + length, Concat(b)),
      |bytes| - 2 * (|a| + |b| + 1 + moveOffsets), TableBytes(Shift(TableB(a, b), length)))
  {
    hide Splice, TableBytes, Offsets, Concat;
  }

  lemma {:induction false} MoveParts(bytes: Octets, a: seq<Octets>, b: seq<Octets>, first: nat, last: nat)
    requires Layout(bytes, a + b) && first == DESCRIPTOR + |Concat((a + b)[..|a|])| && last == DESCRIPTOR + |Concat((a + b)[..|a| + |b|])|
    ensures first == Start(a) && first <= last <= |bytes| && bytes[first..last] == Concat(b)
    ensures 0 <= |bytes| - 2 * (|a| + |b| + 1) <= |bytes| - 2 * |a| && bytes[|bytes| - 2 * (|a| + |b| + 1)..|bytes| - 2 * |a|] == TableBytes(TableB(a, b))
    ensures Words(TableB(a, b))
  {
    assert (a + b)[..|a|] == a && (a + b)[..|a| + |b|] == a + b;
    ConcatConcat(a, b);
    OffsetsFit(bytes, a + b);
    TableBWords(a, b);
    hide Layout, Offsets, Concat, TableBytes;
    LayoutParts(bytes, a, b);
  }

  lemma {:induction false} TableBWords(a: seq<Octets>, b: seq<Octets>)
    requires Words(Offsets(DESCRIPTOR, a + b))
    ensures Words(TableB(a, b))
  {
    OffsetsConcat(DESCRIPTOR, a, b);
    var t := Offsets(DESCRIPTOR, a + b);
    forall i | 0 <= i < |TableB(a, b)| ensures 0 <= TableB(a, b)[i] < 0x1_0000 {
      assert t[|a| + i] == TableB(a, b)[i];
    }
  }

  // The bytes and the record count determine the records.
  lemma {:induction false} RecordsUnique(bytes: Octets, x: seq<Octets>, y: seq<Octets>)
    requires Layout(bytes, x) && Layout(bytes, y) && |x| == |y|
    ensures x == y
  {
    hide *;
    forall i | 0 <= i < |x| ensures x[i] == y[i] {
      OffsetWord(bytes, x, i);
      OffsetWord(bytes, y, i);
      RecordFrom(bytes, x, i);
      RecordFrom(bytes, y, i);
      OffsetWord(bytes, x, i + 1);
      OffsetWord(bytes, y, i + 1);
    }
  }

  // A record lies between its offset and the next.
  lemma {:induction false} RecordFrom(bytes: Octets, recs: seq<Octets>, i: nat)
    requires Layout(bytes, recs) && i < |recs|
    ensures var o, o' := DESCRIPTOR + |Concat(recs[..i])|, DESCRIPTOR + |Concat(recs[..i + 1])|;
      o <= o' <= |bytes| && recs[i] == bytes[o..o']
  {
    var a, r, b := recs[..i], recs[i], recs[i + 1..];
    hide *;
    AroundRecord(recs, i);
    StartSnoc(a, r);
    StartIs(a);
    StartIs(a + [r]);
    RecordAt(bytes, a, r, b);
    RegionSlice(bytes, Start(a), r);
  }

  lemma {:induction false} StartIs(a: seq<Octets>)
    ensures Start(a) == DESCRIPTOR + |Concat(a)|
  {
  }

  // Records that are not empty have strictly rising offsets, all before the offset table.
  lemma {:induction false} OffsetsRise(bytes: Octets, recs: seq<Octets>, i: nat, j: nat)
    requires Layout(bytes, recs) && i < j <= |recs| && (forall k :: 0 <= k < |recs| ==> recs[k] != [])
    ensures DESCRIPTOR <= Offsets(DESCRIPTOR, recs)[i] < Offsets(DESCRIPTOR, recs)[j] <= |bytes| - 2 * (|recs| + 1)
    decreases |recs| - i
  {
    OffsetAt(DESCRIPTOR, recs, i);
    if i + 1 < j {
      OffsetsRise(bytes, recs, i + 1, j);
    } else {
      OffsetAt(DESCRIPTOR, recs, j);
      assert recs == recs[..j] + recs[j..];
      ConcatConcat(recs[..j], recs[j..]);
    }
  }
}
