/**
  Byte strings: zeros, overwriting a stretch, and slices of slices.
 */
module Common {

  type Bytes = seq<bv8>

  datatype Option<T> = None | Some(value: T)

  function Min(a: nat, b: nat): nat { if a < b then a else b }

  function Max(a: nat, b: nat): nat { if a < b then b else a }

  function Zeros(n: nat): (z: Bytes)
    ensures |z| == n && forall i :: 0 <= i < n ==> z[i] == 0
  {
    if n == 0 then [] else [0] + Zeros(n - 1)
  }

  function Overwrite(data: Bytes, pos: nat, b: Bytes): Bytes {
    if b == [] then data
    else
      var d := if pos > |data| then data + Zeros(pos - |data|) else data;
      d[..pos] + b + (if pos + |b| <= |d| then d[pos + |b|..] else [])
  }

  lemma {:induction false} OverwriteAt(d: Bytes, p: nat, b: Bytes)
    ensures b != [] ==> |Overwrite(d, p, b)| == if p + |b| > |d| then p + |b| else |d|
    ensures b != [] ==> forall i :: 0 <= i < |Overwrite(d, p, b)| ==>
      Overwrite(d, p, b)[i] == if p <= i < p + |b| then b[i - p] else if i < |d| then d[i] else 0
  {
  }

  // Two writes in a row are one.
  lemma {:induction false} OverwriteTwice(d: Bytes, p: nat, a: Bytes, b: Bytes)
    ensures Overwrite(Overwrite(d, p, a), p + |a|, b) == Overwrite(d, p, a + b)
  {
    if a == [] {
      assert a + b == b;
    } else if b == [] {
      assert a + b == a;
    } else {
      hide Overwrite;
      var m := Overwrite(d, p, a);
      OverwriteAt(d, p, a);
      OverwriteAt(m, p + |a|, b);
      OverwriteAt(d, p, a + b);
      var x, y, ab := Overwrite(m, p + |a|, b), Overwrite(d, p, a + b), a + b;
      forall i | 0 <= i < |y| ensures x[i] == y[i] {
        assert p <= i < p + |ab| ==> y[i] == ab[i - p];
      }
    }
  }

  // extractBLKX first writes a zero where the run will end; the run then covers it.
  lemma {:induction false} OverwriteCovers(d: Bytes, p: nat, b: Bytes)
    requires b != []
    ensures Overwrite(Overwrite(d, p + |b| - 1, [0]), p, b) == Overwrite(d, p, b)
  {
    hide Overwrite;
    OverwriteAt(d, p + |b| - 1, [0]);
    OverwriteAt(Overwrite(d, p + |b| - 1, [0]), p, b);
    OverwriteAt(d, p, b);
  }

  lemma {:induction false} TwoSlices(s: Bytes, a: nat, n: nat, m: nat)
    requires n <= m && a + m <= |s|
    ensures s[a..a + n] + s[a + n..a + m] == s[a..a + m]
  {
  }

  lemma {:induction false} SliceOfSlice(s: Bytes, a: nat, b: nat, x: nat, y: nat)
    requires a <= b <= |s| && x <= y <= b - a
    ensures s[a..b][x..y] == s[a + x..a + y]
  {
    var l, r := s[a..b][x..y], s[a + x..a + y];
    assert |l| == |r|;
    assert forall i :: 0 <= i < |l| ==> l[i] == r[i];
  }

  // Elements written at a place.
  function Splice<T>(image: seq<T>, at: nat, b: seq<T>): (r: seq<T>)
    requires at + |b| <= |image|
    ensures |r| == |image|
  {
    image[..at] + b + image[at + |b|..]
  }

  lemma {:induction false} SpliceNone<T>(c: seq<T>, at: nat, b: seq<T>)
    requires b == [] && at <= |c|
    ensures Splice(c, at, b) == c
  {
  }

  lemma {:induction false} SpliceTwice<T>(c: seq<T>, at: nat, a: seq<T>, b: seq<T>)
    requires at + |a| + |b| <= |c|
    ensures Splice(Splice(c, at, a), at + |a|, b) == Splice(c, at, a + b)
  {
  }

  // A quotient and a remainder below the divisor are the ones of the division.
  lemma {:induction false} ModIs(x: nat, k: nat, m: nat, r: nat)
    requires m > 0 && x == k * m + r && r < m
    ensures x % m == r
  {
    DivUnique(x / m, x % m, k, r, m);
  }

  lemma {:induction false} DivUnique(q: int, t: nat, k: int, r: nat, m: nat)
    requires q * m + t == k * m + r && t < m && r < m
    ensures t == r
  {
    if q < k { AtLeast(k - q, m); } else if q > k { AtLeast(q - k, m); }
    assert (k - q) * m == k * m - q * m;
  }

  lemma {:induction false} AtLeast(a: int, m: nat)
    requires a >= 1
    ensures a * m >= m
  {
    assert a * m == (a - 1) * m + m;
  }
}
