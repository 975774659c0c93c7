/**
  What lies where in a byte string, and what a write leaves of it.
 */
module Regions {
  import opened Common

  // Bytes as integers; whoever encodes numbers makes them from 0 to 255.
  type Octets = seq<int>

  predicate Region(bytes: Octets, at: int, d: Octets) {
    0 <= at && at + |d| <= |bytes| && bytes[at..at + |d|] == d
  }

  lemma {:induction false} RegionSet(bytes: Octets, at: nat, z: Octets)
    requires at + |z| <= |bytes|
    ensures Region(Splice(bytes, at, z), at, z)
  {
  }

  lemma {:induction false} RegionKeep(bytes: Octets, at: nat, z: Octets, p: int, d: Octets)
    requires at + |z| <= |bytes| && Region(bytes, p, d) && (p + |d| <= at || at + |z| <= p)
    ensures Region(Splice(bytes, at, z), p, d)
  {
    var s := Splice(bytes, at, z);
    assert forall i :: p <= i < p + |d| ==> s[i] == bytes[i];
  }

  lemma {:induction false} RegionParts(bytes: Octets, at: int, a: Octets, b: Octets)
    ensures Region(bytes, at, a + b) <==> Region(bytes, at, a) && Region(bytes, at + |a|, b)
  {
    if Region(bytes, at, a + b) {
      assert bytes[at..at + |a|] == (a + b)[..|a|] == a;
      assert bytes[at + |a|..at + |a| + |b|] == (a + b)[|a|..] == b;
    }
    if Region(bytes, at, a) && Region(bytes, at + |a|, b) {
      assert bytes[at..at + |a| + |b|] == bytes[at..at + |a|] + bytes[at + |a|..at + |a| + |b|];
    }
  }

  lemma {:induction false} RegionBounds(bytes: Octets, p: int, d: Octets)
    requires Region(bytes, p, d)
    ensures 0 <= p && p + |d| <= |bytes|
  {
  }

  lemma {:induction false} RegionEmpty(bytes: Octets, p: nat)
    requires p <= |bytes|
    ensures Region(bytes, p, [])
  {
  }

  lemma {:induction false} RegionHead(bytes: Octets, p: int, d: Octets, n: nat)
    requires Region(bytes, p, d) && n <= |d|
    ensures 0 <= p && p + n <= |bytes| && bytes[p..p + n] == d[..n]
  {
    assert bytes[p..p + |d|][..n] == bytes[p..p + n];
  }

  lemma {:induction false} RegionTail(bytes: Octets, p: int, d: Octets, n: nat)
    requires Region(bytes, p, d) && n <= |d|
    ensures 0 <= p && p + |d| <= |bytes| && bytes[p + n..p + |d|] == d[n..]
  {
    assert bytes[p..p + |d|][n..] == bytes[p + n..p + |d|];
  }

  lemma {:induction false} RegionSlice(bytes: Octets, p: int, d: Octets)
    requires Region(bytes, p, d)
    ensures 0 <= p && p + |d| <= |bytes| && d == bytes[p..p + |d|]
  {
  }

  // A write that changes nothing.
  lemma {:induction false} SpliceSame(bytes: Octets, p: int, d: Octets)
    requires Region(bytes, p, d)
    ensures Splice(bytes, p, d) == bytes
  {
  }
}
