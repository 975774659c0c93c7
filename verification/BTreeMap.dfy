/**
  A sorted sequence of bindings as a finite map.
 */
module BTreeMap {
  import opened BTreeModel

  function MapOf(s: seq<Entry>): map<int, Data> {
    if s == [] then map[] else MapOf(s[1..])[s[0].key := s[0].data]
  }

  lemma {:induction false} MapOfKeys(s: seq<Entry>, key: int)
    ensures key in MapOf(s) <==> HasKey(s, key)
  {
    if s != [] {
      MapOfKeys(s[1..], key);
      if i :| 0 <= i < |s| && s[i].key == key && i > 0 {
        assert s[1..][i - 1].key == key;
      }
      if i :| 0 <= i < |s[1..]| && s[1..][i].key == key {
        assert s[i + 1].key == key;
      }
      assert s[0].key == key ==> HasKey(s, key);
    }
  }

  lemma {:induction false} MapOfNone()
    ensures MapOf([]) == map[]
  {
  }

  lemma {:induction false} MapOfOne(e: Entry)
    ensures MapOf([e]) == map[e.key := e.data]
  {
    var s := [e];
    assert s[1..] == [] && MapOf(s[1..]) == map[];
  }

  // A binding more in its place is a map update.
  lemma {:induction false} MapOfInsert(s: seq<Entry>, p: nat, e: Entry)
    requires p <= |s| && forall i :: 0 <= i < p ==> s[i].key != e.key
    ensures MapOf(InsertAt(s, p, e)) == MapOf(s)[e.key := e.data]
  {
    var r := InsertAt(s, p, e);
    if p == 0 {
      assert r[0] == e && r[1..] == s;
    } else {
      assert r[0] == s[0] && r[1..] == InsertAt(s[1..], p - 1, e);
      MapOfInsert(s[1..], p - 1, e);
      assert s[0].key != e.key;
    }
  }

  // A binding less is a map removal.
  lemma {:induction false} MapOfRemove(s: seq<Entry>, p: nat)
    requires Sorted(s) && p < |s|
    ensures MapOf(RemoveAt(s, p)) == MapOf(s) - {s[p].key}
    ensures s[p].key in MapOf(s) && MapOf(s)[s[p].key] == s[p].data
  {
    hide MapOf, Sorted;
    var r, e := RemoveAt(s, p), s[p];
    RemoveKeepsSorted(s, p);
    MapOfKeys(r, e.key);
    assert forall i :: 0 <= i < p ==> r[i].key != e.key;
    MapOfInsert(r, p, e);
    assert r[..p] == s[..p] && r[p..] == s[p + 1..];
    assert s == InsertAt(r, p, e);
    UpdateRemove(MapOf(r), e.key, e.data);
  }

  lemma {:induction false} UpdateRemove(m: map<int, Data>, key: int, data: Data)
    requires key !in m
    ensures m[key := data] - {key} == m
  {
  }
}
