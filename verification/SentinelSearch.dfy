/**
  dmg/attribution.c: find the sentinel, and decide which blocks insertBLKX keeps raw.
 */
module SentinelSearch {
  import opened Common
  import opened DmgFormat
  import opened DmgWriter

  /* ----- FindStrInBuf ----- */

  predicate OccursAt(s: Bytes, str: Bytes, p: nat) {
    p + |str| <= |s| && s[p..p + |str|] == str
  }

  predicate Occurs(s: Bytes, str: Bytes) {
    exists p: nat | p <= |s| :: OccursAt(s, str, p)
  }

  ghost predicate FirstAt(s: Bytes, str: Bytes, p: nat) {
    OccursAt(s, str, p) && forall q: nat :: q < p ==> !OccursAt(s, str, q)
  }

  // A C string that can be searched for: not empty, no zero byte.
  predicate IsString(str: Bytes) {
    str != [] && forall i :: 0 <= i < |str| ==> str[i] != 0
  }

  // strstr from a place in memory: only up to the next zero byte.
  function StrStr(mem: Bytes, from: nat, str: Bytes): (r: Option<nat>)
    requires from <= |mem|
    ensures r.Some? ==> from <= r.value && r.value + |str| <= |mem|
    decreases |mem| - from
  {
    if OccursAt(mem, str, from) then Some(from)
    else if from >= |mem| || mem[from] == 0 then None
    else StrStr(mem, from + 1, str)
  }

  lemma {:induction false} NoZeroInside(mem: Bytes, str: Bytes, q: nat)
    requires OccursAt(mem, str, q) && IsString(str)
    ensures forall j :: q <= j < q + |str| ==> mem[j] != 0
  {
    forall j | q <= j < q + |str| ensures mem[j] != 0 {
      assert mem[q..q + |str|][j - q] == mem[j];
    }
  }

  lemma {:induction false} StrStrFinds(mem: Bytes, from: nat, str: Bytes, e: nat)
    requires from <= e < |mem| && mem[e] == 0 && IsString(str)
    requires forall i :: from <= i < e ==> mem[i] != 0
    ensures var r := StrStr(mem, from, str);
      && (r.Some? ==> r.value + |str| <= e && OccursAt(mem, str, r.value))
      && (forall q: nat :: from <= q <= e && (r.Some? ==> q < r.value) ==> !OccursAt(mem, str, q))
    decreases e - from
  {
    forall q: nat | OccursAt(mem, str, q) && q <= e ensures q + |str| <= e {
      NoZeroInside(mem, str, q);
    }
    if from < e && !OccursAt(mem, str, from) {
      StrStrFinds(mem, from + 1, str, e);
    }
  }

  // FindStrInBuf over a buffer with a zero byte behind it: the first occurrence, zero bytes or not.
  method FindStrInBuf(mem: Bytes, bufLen: nat, str: Bytes) returns (r: Option<nat>)
    requires bufLen < |mem| && mem[bufLen] == 0 && IsString(str)
    ensures r.Some? ==> FirstAt(mem[..bufLen], str, r.value)
    ensures r.None? ==> !Occurs(mem[..bufLen], str)
  {
    var index := 0;
    while index < bufLen
      invariant forall q: nat :: q < index && q < bufLen ==> !OccursAt(mem[..bufLen], str, q)
      decreases bufLen - index
    {
      var result := StrStr(mem, index, str);
      ghost var start := index;
      ghost var e := NextZero(mem, index, bufLen);
      StrStrFinds(mem, index, str, e);
      forall q: nat ensures OccursAt(mem[..bufLen], str, q) ==> OccursAt(mem, str, q)
                    ensures q + |str| <= bufLen && OccursAt(mem, str, q) ==> OccursAt(mem[..bufLen], str, q)
      {
        assert q + |str| <= bufLen ==> mem[..bufLen][q..q + |str|] == mem[q..q + |str|];
      }
      if result.Some? {
        return result;
      }
      while mem[index] != 0 && index < bufLen
        invariant start <= index <= e
        decreases bufLen - index
      {
        index := index + 1;
      }
      index := index + 1;
    }
    r := None;
    assert forall q: nat :: !OccursAt(mem[..bufLen], str, q);
  }

  ghost function NextZero(mem: Bytes, from: nat, e: nat): (z: nat)
    requires from <= e < |mem| && mem[e] == 0
    ensures from <= z <= e && mem[z] == 0 && forall i :: from <= i < z ==> mem[i] != 0
    decreases e - from
  {
    if mem[from] == 0 then from else NextZero(mem, from + 1, e)
  }

  /* ----- Which blocks are kept raw ----- */

  function ShouldKeep(sentinel: Bytes, data: Bytes, next: Bytes): Keep {
    if Occurs(data, sentinel) then KeepCurrentRaw
    else if next != [] && Occurs(data + next, sentinel) then KeepCurrentAndNextRaw
    else KeepNoneRaw
  }

  // sentinelShouldKeepRaw; behind1 and behind2 are what lies in memory after the two buffers searched.
  method SentinelShouldKeepRaw(sentinel: Bytes, data: Bytes, next: Bytes, behind1: Bytes, behind2: Bytes) returns (k: Keep)
    requires IsString(sentinel) && behind1 != [] && behind1[0] == 0 && behind2 != [] && behind2[0] == 0
    ensures k == ShouldKeep(sentinel, data, next)
  {
    assert (data + behind1)[..|data|] == data;
    var r := FindStrInBuf(data + behind1, |data|, sentinel);
    if r.Some? {
      return KeepCurrentRaw;
    }
    if |next| > 0 {
      var combined := data + next;
      assert (combined + behind2)[..|combined|] == combined;
      r := FindStrInBuf(combined + behind2, |combined|, sentinel);
      if r.Some? {
        return KeepCurrentAndNextRaw;
      }
    }
    return KeepNoneRaw;
  }

  // The first i blocks, as one sequence of bytes.
  function UpTo(chunks: seq<Bytes>, i: nat): Bytes
    requires i <= |chunks|
  {
    if i == 0 then [] else UpTo(chunks, i - 1) + chunks[i - 1]
  }

  lemma {:induction false} UpToParts(chunks: seq<Bytes>, i: nat, j: nat)
    requires i <= j <= |chunks|
    ensures |UpTo(chunks, i)| <= |UpTo(chunks, j)|
    ensures UpTo(chunks, j)[..|UpTo(chunks, i)|] == UpTo(chunks, i)
  {
    if i < j {
      UpToParts(chunks, i, j - 1);
      var n := |UpTo(chunks, i)|;
      assert UpTo(chunks, j)[..n] == UpTo(chunks, j - 1)[..n];
    }
  }

  // Blocks as insertBLKX reads them: full ones, then one that may be shorter; nothing read short.
  ghost predicate Blocks(plan: Plan, runBytes: nat) {
    && runBytes > 0 && runBytes % SECTOR_SIZE == 0 && plan.tail == []
    && (forall i :: 0 <= i < |plan.chunks| ==> 0 < |plan.chunks[i]| <= runBytes)
    && (forall i :: 0 <= i < |plan.chunks| - 1 ==> |plan.chunks[i]| == runBytes)
  }

  function SentinelAttribution(sentinel: Bytes): Attribution {
    Attribution((data, next) => ShouldKeep(sentinel, data, next))
  }

  function Verdict(plan: Plan, sentinel: Bytes, i: nat): Keep
    requires i < |plan.chunks|
  {
    ShouldKeep(sentinel, Pad(plan.chunks[i]), NextIn(plan, i))
  }

  predicate KeptRaw(plan: Plan, sentinel: Bytes, i: nat)
    requires i < |plan.chunks|
  {
    IsRaw(SentinelAttribution(sentinel), KeepAfter(plan, SentinelAttribution(sentinel), i + 1))
  }

  // The raw blocks are the m blocks from k on.
  ghost predicate RawIs(plan: Plan, sentinel: Bytes, k: nat, m: nat) {
    && k + m <= |plan.chunks|
    && forall i :: 0 <= i < |plan.chunks| ==> (KeptRaw(plan, sentinel, i) <==> k <= i < k + m)
  }

  // The state stays at none until the first verdict, then goes once through one or two raw blocks.
  lemma {:induction false} KeepStates(plan: Plan, sentinel: Bytes, j: nat, i: nat)
    requires i <= |plan.chunks| && j <= |plan.chunks|
    requires forall b :: 0 <= b < j ==> Verdict(plan, sentinel, b) == KeepNoneRaw
    requires j < |plan.chunks| ==> Verdict(plan, sentinel, j) != KeepNoneRaw
    ensures var s := KeepAfter(plan, SentinelAttribution(sentinel), i);
      if i <= j then s == KeepNoneRaw
      else if i == j + 1 then s == Verdict(plan, sentinel, j)
      else if i == j + 2 && Verdict(plan, sentinel, j) == KeepCurrentAndNextRaw then s == KeepCurrentRaw
      else s == KeepRemainingRaw
  {
    hide Pad, ShouldKeep;
    if i > 0 {
      KeepStates(plan, sentinel, j, i - 1);
      assert i - 1 < j ==> Verdict(plan, sentinel, i - 1) == KeepNoneRaw;
    }
  }

  // Padding adds no occurrence of a string without zero bytes.
  lemma {:induction false} PadOccurs(c: Bytes, str: Bytes, p: nat)
    requires IsString(str)
    ensures OccursAt(Pad(c), str, p) <==> OccursAt(c, str, p)
  {
    var d := Pad(c);
    assert forall i :: |c| <= i < |d| ==> d[i] == 0;
    if OccursAt(d, str, p) {
      NoZeroInside(d, str, p);
      assert d[p..p + |str|][|str| - 1] == d[p + |str| - 1];
      assert c[p..p + |str|] == d[..|c|][p..p + |str|] == d[p..p + |str|];
    }
    if OccursAt(c, str, p) {
      assert c[p..p + |str|] == d[..|c|][p..p + |str|] == d[p..p + |str|];
    }
  }

  lemma {:induction false} FullIsPadded(plan: Plan, runBytes: nat, i: nat)
    requires Blocks(plan, runBytes) && i + 1 < |plan.chunks|
    ensures Pad(plan.chunks[i]) == plan.chunks[i] && NextIn(plan, i) == plan.chunks[i + 1] != []
  {
    var c := plan.chunks[i];
    assert |c| == runBytes && DivCeil(|c|, SECTOR_SIZE) * SECTOR_SIZE == |c|;
    assert Pad(c)[..|c|] == Pad(c);
  }

  // An occurrence inside a stretch of the stream, seen from the stretch.
  lemma {:induction false} OccursShift(s: Bytes, a: nat, b: nat, str: Bytes, q: nat)
    requires a <= b <= |s|
    ensures a <= q && q + |str| <= b && OccursAt(s, str, q) ==> OccursAt(s[a..b], str, q - a)
    ensures OccursAt(s[a..b], str, q) ==> OccursAt(s, str, a + q) && a + q + |str| <= b
  {
    if a <= q && q + |str| <= b {
      SliceOfSlice(s, a, b, q - a, q - a + |str|);
    }
    if q + |str| <= b - a {
      SliceOfSlice(s, a, b, q, q + |str|);
    }
  }

  lemma {:induction false} Stretch(chunks: seq<Bytes>, i: nat)
    requires i < |chunks|
    ensures var s, a := UpTo(chunks, |chunks|), |UpTo(chunks, i)|;
      && a + |chunks[i]| <= |s| && |UpTo(chunks, i + 1)| == a + |chunks[i]| && s[a..a + |chunks[i]|] == chunks[i]
      && (i + 1 < |chunks| ==>
            && a + |chunks[i]| + |chunks[i + 1]| <= |s| && |UpTo(chunks, i + 2)| == a + |chunks[i]| + |chunks[i + 1]|
            && s[a..a + |chunks[i]| + |chunks[i + 1]|] == chunks[i] + chunks[i + 1])
  {
    StretchOne(chunks, i);
    if i + 1 < |chunks| {
      StretchOne(chunks, i + 1);
      var s, a := UpTo(chunks, |chunks|), |UpTo(chunks, i)|;
      var b, c := a + |chunks[i]|, a + |chunks[i]| + |chunks[i + 1]|;
      assert s[a..c] == s[a..b] + s[b..c];
    }
  }

  lemma {:induction false} StretchOne(chunks: seq<Bytes>, i: nat)
    requires i < |chunks|
    ensures var s, a := UpTo(chunks, |chunks|), |UpTo(chunks, i)|;
      a + |chunks[i]| <= |s| && |UpTo(chunks, i + 1)| == a + |chunks[i]| && s[a..a + |chunks[i]|] == chunks[i]
  {
    UpToParts(chunks, i + 1, |chunks|);
    var s, a := UpTo(chunks, |chunks|), |UpTo(chunks, i)|;
    assert UpTo(chunks, i + 1) == UpTo(chunks, i) + chunks[i];
    assert s[..a + |chunks[i]|][a..] == s[a..a + |chunks[i]|];
  }

  // What a verdict means for the stream.
  lemma {:induction false} VerdictMeans(plan: Plan, runBytes: nat, sentinel: Bytes, i: nat)
    requires Blocks(plan, runBytes) && IsString(sentinel) && i < |plan.chunks|
    ensures var s, a, c := UpTo(plan.chunks, |plan.chunks|), |UpTo(plan.chunks, i)|, plan.chunks[i];
      && (Verdict(plan, sentinel, i) == KeepCurrentRaw ==>
            exists q: nat :: a <= q && q + |sentinel| <= a + |c| && OccursAt(s, sentinel, q))
      && (Verdict(plan, sentinel, i) == KeepCurrentAndNextRaw ==>
            i + 1 < |plan.chunks| &&
            exists q: nat :: a <= q && q + |sentinel| <= a + |c| + |plan.chunks[i + 1]| && OccursAt(s, sentinel, q))
      && (Verdict(plan, sentinel, i) != KeepCurrentRaw ==>
            forall q: nat :: a <= q && q + |sentinel| <= a + |c| ==> !OccursAt(s, sentinel, q))
      && (Verdict(plan, sentinel, i) == KeepNoneRaw && i + 1 < |plan.chunks| ==>
            forall q: nat :: a <= q && q + |sentinel| <= a + |c| + |plan.chunks[i + 1]| ==> !OccursAt(s, sentinel, q))
      && Verdict(plan, sentinel, i) != KeepRemainingRaw
  {
    hide Pad, UpTo;
    var s, a, c := UpTo(plan.chunks, |plan.chunks|), |UpTo(plan.chunks, i)|, plan.chunks[i];
    Stretch(plan.chunks, i);
    InStretch(s, a, c, sentinel, Pad(c));
    if i + 1 < |plan.chunks| {
      FullIsPadded(plan, runBytes, i);
      InStretch(s, a, c + plan.chunks[i + 1], sentinel, c + plan.chunks[i + 1]);
    }
  }

  lemma {:induction false} InStretch(s: Bytes, a: nat, c: Bytes, str: Bytes, searched: Bytes)
    requires a + |c| <= |s| && s[a..a + |c|] == c && IsString(str)
    requires searched == c || searched == Pad(c)
    ensures Occurs(searched, str) <==> exists q: nat :: a <= q && q + |str| <= a + |c| && OccursAt(s, str, q)
  {
    hide Pad;
    if Occurs(searched, str) {
      var p: nat :| p <= |searched| && OccursAt(searched, str, p);
      PadOccurs(c, str, p);
      OccursShift(s, a, a + |c|, str, p);
    }
    if q: nat :| a <= q && q + |str| <= a + |c| && OccursAt(s, str, q) {
      OccursShift(s, a, a + |c|, str, q);
      PadOccurs(c, str, q - a);
    }
  }

  // The block in which a position lies; a string no longer than a run ends in it or in the next one.
  lemma {:induction false} BlockOf(plan: Plan, runBytes: nat, n: nat, q: nat) returns (i: nat)
    requires n <= |plan.chunks| && q < |UpTo(plan.chunks, n)|
    ensures i < n && |UpTo(plan.chunks, i)| <= q < |UpTo(plan.chunks, i)| + |plan.chunks[i]|
  {
    if q < |UpTo(plan.chunks, n - 1)| {
      i := BlockOf(plan, runBytes, n - 1, q);
    } else {
      i := n - 1;
    }
  }

  // The blocks kept raw are none, one, or two consecutive ones; there are some exactly if the sentinel
  // occurs, and they hold its first occurrence whole.
  lemma {:induction false} RawBlocks(plan: Plan, runBytes: nat, sentinel: Bytes) returns (k: nat, m: nat)
    requires Blocks(plan, runBytes) && IsString(sentinel) && |sentinel| <= runBytes
    ensures RawIs(plan, sentinel, k, m) && m <= 2
    ensures m > 0 <==> Occurs(UpTo(plan.chunks, |plan.chunks|), sentinel)
    ensures forall q: nat :: FirstAt(UpTo(plan.chunks, |plan.chunks|), sentinel, q) ==>
      |UpTo(plan.chunks, k)| <= q && q + |sentinel| <= |UpTo(plan.chunks, k + m)|
  {
    k := 0;
    while k < |plan.chunks| && Verdict(plan, sentinel, k) == KeepNoneRaw
      invariant k <= |plan.chunks|
      invariant forall b :: 0 <= b < k ==> Verdict(plan, sentinel, b) == KeepNoneRaw
    {
      k := k + 1;
    }
    m := if k == |plan.chunks| then 0 else if Verdict(plan, sentinel, k) == KeepCurrentRaw then 1 else 2;
    RawAre(plan, runBytes, sentinel, k, m);
    RawHold(plan, runBytes, sentinel, k, m);
  }

  lemma {:induction false} RawAre(plan: Plan, runBytes: nat, sentinel: Bytes, k: nat, m: nat)
    requires Blocks(plan, runBytes) && IsString(sentinel) && k <= |plan.chunks|
    requires forall b :: 0 <= b < k ==> Verdict(plan, sentinel, b) == KeepNoneRaw
    requires k < |plan.chunks| ==> Verdict(plan, sentinel, k) != KeepNoneRaw
    requires m == if k == |plan.chunks| then 0 else if Verdict(plan, sentinel, k) == KeepCurrentRaw then 1 else 2
    ensures RawIs(plan, sentinel, k, m)
  {
    hide ShouldKeep, UpTo, Pad, KeepAfter, Verdict, Blocks, OccursAt;
    if k < |plan.chunks| {
      VerdictMeans(plan, runBytes, sentinel, k);
    }
    forall i | 0 <= i < |plan.chunks| ensures KeptRaw(plan, sentinel, i) <==> k <= i < k + m {
      KeepStates(plan, sentinel, k, i + 1);
    }
  }

  lemma {:induction false} RawHold(plan: Plan, runBytes: nat, sentinel: Bytes, k: nat, m: nat)
    requires Blocks(plan, runBytes) && IsString(sentinel) && |sentinel| <= runBytes && k + m <= |plan.chunks|
    requires forall b :: 0 <= b < k ==> Verdict(plan, sentinel, b) == KeepNoneRaw
    requires k < |plan.chunks| ==> Verdict(plan, sentinel, k) != KeepNoneRaw
    requires m == if k == |plan.chunks| then 0 else if Verdict(plan, sentinel, k) == KeepCurrentRaw then 1 else 2
    ensures m > 0 <==> Occurs(UpTo(plan.chunks, |plan.chunks|), sentinel)
    ensures forall q: nat :: FirstAt(UpTo(plan.chunks, |plan.chunks|), sentinel, q) ==>
      |UpTo(plan.chunks, k)| <= q && q + |sentinel| <= |UpTo(plan.chunks, k + m)|
  {
    hide Verdict, Pad, UpTo, OccursAt;
    var c, s, n := plan.chunks, UpTo(plan.chunks, |plan.chunks|), |plan.chunks|;
    if m > 0 {
      VerdictMeans(plan, runBytes, sentinel, k);
      Stretch(c, k);
    }
    forall q: nat | OccursAt(s, sentinel, q) ensures k < n && |UpTo(c, k)| <= q {
      var i := VerdictThere(plan, runBytes, sentinel, q);
      UpToParts(c, k, i);
    }
  }

  // The block in which an occurrence starts has a verdict.
  lemma {:induction false} VerdictThere(plan: Plan, runBytes: nat, sentinel: Bytes, q: nat) returns (i: nat)
    requires Blocks(plan, runBytes) && IsString(sentinel) && |sentinel| <= runBytes
    requires OccursAt(UpTo(plan.chunks, |plan.chunks|), sentinel, q)
    ensures i < |plan.chunks| && Verdict(plan, sentinel, i) != KeepNoneRaw && |UpTo(plan.chunks, i)| <= q
  {
    hide Verdict, Pad, UpTo;
    i := BlockOf(plan, runBytes, |plan.chunks|, q);
    Stretch(plan.chunks, i);
    if i + 1 < |plan.chunks| {
      UpToParts(plan.chunks, i + 2, |plan.chunks|);
    }
    VerdictMeans(plan, runBytes, sentinel, i);
  }
}
