/**
  The catalog (hfs/catalog.c) over an abstract sorted map: file and folder records, the thread
  records that lead back to them, valences, and the volume's counts.
 */
module Catalogs {
  import opened Common

  // A name stands for all names the catalog's comparison calls equal; the empty one is a thread's.
  type Name = string

  datatype Key = Key(parentID: nat, name: Name)

  datatype Record =
    | Folder(folderID: nat, valence: int, folderCount: int)
    | File(fileID: nat)
    | FolderThread(parentID: nat, nodeName: Name)
    | FileThread(parentID: nat, nodeName: Name)

  type Tree = map<Key, Record>

  predicate IsThread(r: Record) { r.FolderThread? || r.FileThread? }

  function IdOf(r: Record): nat
    requires !IsThread(r)
  {
    if r.Folder? then r.folderID else r.fileID
  }

  function ThreadKey(id: nat): Key { Key(id, "") }

  // The thread of a record that lies at a key.
  function ThreadOf(k: Key, r: Record): Record
    requires !IsThread(r)
  {
    if r.Folder? then FolderThread(k.parentID, k.name) else FileThread(k.parentID, k.name)
  }

  function Target(thread: Record): Key
    requires IsThread(thread)
  {
    Key(thread.parentID, thread.nodeName)
  }

  // addToBTree leaves the tree alone when the key is there, and reports success all the same.
  function Added(t: Tree, k: Key, r: Record): Tree { if k in t then t else t[k := r] }

  /* ----- The invariant ----- */

  // A record's thread leads to it.
  ghost predicate RecordLinked(t: Tree, k: Key)
    requires k in t
  {
    !IsThread(t[k]) && ThreadKey(IdOf(t[k])) in t && t[ThreadKey(IdOf(t[k]))] == ThreadOf(k, t[k])
  }

  // A thread leads to the record of its number.
  ghost predicate ThreadLinked(t: Tree, k: Key)
    requires k in t
  {
    && IsThread(t[k]) && t[k].nodeName != ""
    && Target(t[k]) in t && !IsThread(t[Target(t[k])]) && IdOf(t[Target(t[k])]) == k.parentID
  }

  // Records and threads lead to each other.
  ghost predicate Linked(t: Tree) {
    forall k <- t :: if k.name != "" then RecordLinked(t, k) else ThreadLinked(t, k)
  }

  // The keys of a folder's children.
  ghost function Children(keys: set<Key>, id: nat): set<Key> { set k <- keys | k.parentID == id && k.name != "" }

  // A folder's valence is the number of its children, but for what off says.
  ghost predicate ValencesOff(t: Tree, off: nat -> int) {
    forall k <- t :: t[k].Folder? ==> t[k].valence == |Children(t.Keys, t[k].folderID)| + off(t[k].folderID)
  }

  ghost predicate ValencesExact(t: Tree) {
    forall k <- t :: t[k].Folder? ==> t[k].valence == |Children(t.Keys, t[k].folderID)|
  }

  const ROOT_PARENT: nat := 1
  const ROOT: nat := 2

  ghost predicate IsFolder(t: Tree, id: nat) { ThreadKey(id) in t && t[ThreadKey(id)].FolderThread? }

  // Every record lies in a folder, the root's in none; one folder may be away.
  ghost predicate InFoldersBut(t: Tree, away: nat) {
    forall k <- t :: k.name != "" && k.parentID != ROOT_PARENT && k.parentID != away ==> IsFolder(t, k.parentID)
  }

  ghost predicate InFolders(t: Tree) { InFoldersBut(t, ROOT_PARENT) }

  ghost predicate Below(t: Tree, next: nat) { next > ROOT && forall k <- t :: k.parentID < next }

  ghost function Files(t: Tree): set<Key> { set k <- t | t[k].File? }

  ghost function Folders(t: Tree): set<Key> { set k <- t | t[k].Folder? }

  // Climbing from a folder to its parent, at most n times, reaches the root.
  ghost predicate Climbs(t: Tree, id: nat, n: nat)
    decreases n
  {
    id == ROOT || (n > 0 && IsFolder(t, id) && Climbs(t, t[ThreadKey(id)].parentID, n - 1))
  }

  ghost predicate Rooted(t: Tree) {
    && IsFolder(t, ROOT) && t[ThreadKey(ROOT)].parentID == ROOT_PARENT && !IsFolder(t, ROOT_PARENT)
    && forall id: nat :: IsFolder(t, id) ==> exists n: nat :: Climbs(t, id, n)
  }

  ghost predicate Consistent(t: Tree, next: nat, files: int, folders: int) {
    && Linked(t) && ValencesExact(t) && InFolders(t) && Below(t, next)
    && files == |Files(t)| && folders == |Folders(t)| - 1
  }

  ghost predicate Sound(t: Tree, next: nat, files: int, folders: int) {
    Consistent(t, next, files, folders) && Rooted(t)
  }

  /* ----- Entering, leaving, updating a record ----- */

  ghost predicate Shape(t: Tree, away: nat, off: nat -> int, next: nat) {
    Linked(t) && ValencesOff(t, off) && InFoldersBut(t, away) && Below(t, next)
  }

  ghost function Plus(off: nat -> int, id: nat, d: int): nat -> int {
    (j: nat) => if j == id then off(j) + d else off(j)
  }

  ghost function With(t: Tree, k: Key, r: Record): Tree
    requires !IsThread(r)
  {
    t[k := r][ThreadKey(IdOf(r)) := ThreadOf(k, r)]
  }

  ghost function Without(t: Tree, k: Key): Tree
    requires k in t && !IsThread(t[k])
  {
    t - {k} - {ThreadKey(IdOf(t[k]))}
  }

  // What entering a record asks for.
  ghost predicate MayEnter(t: Tree, away: nat, off: nat -> int, next: nat, k: Key, r: Record) {
    && !IsThread(r) && k !in t && k.name != "" && ThreadKey(IdOf(r)) !in t
    && IdOf(r) < next && k.parentID < next
    && (IsFolder(t, k.parentID) || (r.Folder? && k.parentID == r.folderID))
    && (away == ROOT_PARENT || (r.Folder? && away == r.folderID))
    && (r.Folder? ==> r.valence == |Children(t.Keys, r.folderID)| + off(r.folderID))
  }

  lemma {:induction false} ChildrenWith(t: Tree, k: Key, r: Record, id: nat)
    requires !IsThread(r) && k !in t && k.name != ""
    ensures Children(With(t, k, r).Keys, id) == Children(t.Keys, id) + if k.parentID == id then {k} else {}
    ensures |Children(With(t, k, r).Keys, id)| == |Children(t.Keys, id)| + if k.parentID == id then 1 else 0
  {
    var c, c' := Children(t.Keys, id), Children(With(t, k, r).Keys, id);
    assert c' == c + if k.parentID == id then {k} else {};
  }

  lemma {:induction false} WithAt(t: Tree, k: Key, r: Record, x: Key)
    requires !IsThread(r) && k.name != ""
    ensures x in With(t, k, r) <==> x in t || x == k || x == ThreadKey(IdOf(r))
    ensures x in With(t, k, r) ==>
      With(t, k, r)[x] == if x == k then r else if x == ThreadKey(IdOf(r)) then ThreadOf(k, r) else t[x]
  {
  }

  lemma {:induction false} EnteredLinked(t: Tree, k: Key, r: Record)
    requires Linked(t) && !IsThread(r) && k !in t && k.name != "" && ThreadKey(IdOf(r)) !in t
    ensures Linked(With(t, k, r))
  {
    var t' := With(t, k, r);
    forall x <- t' ensures if x.name != "" then RecordLinked(t', x) else ThreadLinked(t', x) {
      EnteredLink(t, k, r, x);
    }
  }

  lemma {:induction false} EnteredLink(t: Tree, k: Key, r: Record, x: Key)
    requires Linked(t) && !IsThread(r) && k !in t && k.name != "" && ThreadKey(IdOf(r)) !in t && x in With(t, k, r)
    ensures if x.name != "" then RecordLinked(With(t, k, r), x) else ThreadLinked(With(t, k, r), x)
  {
    hide With;
    WithAt(t, k, r, x);
    if x == k {
      WithAt(t, k, r, ThreadKey(IdOf(r)));
    } else if x == ThreadKey(IdOf(r)) {
      WithAt(t, k, r, k);
    } else if x.name != "" {
      WithAt(t, k, r, ThreadKey(IdOf(t[x])));
    } else {
      WithAt(t, k, r, Target(t[x]));
    }
  }

  lemma {:induction false} EnteredValences(t: Tree, off: nat -> int, k: Key, r: Record)
    requires ValencesOff(t, off) && !IsThread(r) && k !in t && k.name != "" && ThreadKey(IdOf(r)) !in t
    requires r.Folder? ==> r.valence == |Children(t.Keys, r.folderID)| + off(r.folderID)
    ensures ValencesOff(With(t, k, r), Plus(off, k.parentID, -1))
  {
    var t' := With(t, k, r);
    hide Children;
    forall x <- t' | t'[x].Folder?
      ensures t'[x].valence == |Children(t'.Keys, t'[x].folderID)| + Plus(off, k.parentID, -1)(t'[x].folderID)
    {
      ChildrenWith(t, k, r, t'[x].folderID);
    }
  }

  lemma {:induction false} Entered(t: Tree, away: nat, off: nat -> int, next: nat, k: Key, r: Record)
    requires Shape(t, away, off, next) && MayEnter(t, away, off, next, k, r)
    ensures Shape(With(t, k, r), ROOT_PARENT, Plus(off, k.parentID, -1), next)
    ensures Files(With(t, k, r)) == Files(t) + if r.File? then {k} else {}
    ensures Folders(With(t, k, r)) == Folders(t) + if r.Folder? then {k} else {}
  {
    hide Linked, ValencesOff, Children, InFoldersBut, Below, IsFolder, With, Files, Folders;
    EnteredLinked(t, k, r);
    EnteredValences(t, off, k, r);
    EnteredFolders(t, away, next, k, r);
    EnteredSets(t, k, r);
  }

  lemma {:induction false} EnteredFolders(t: Tree, away: nat, next: nat, k: Key, r: Record)
    requires InFoldersBut(t, away) && Below(t, next) && !IsThread(r) && k.name != "" && ThreadKey(IdOf(r)) !in t
    requires IdOf(r) < next && k.parentID < next
    requires IsFolder(t, k.parentID) || (r.Folder? && k.parentID == r.folderID)
    requires away == ROOT_PARENT || (r.Folder? && away == r.folderID)
    ensures InFolders(With(t, k, r)) && Below(With(t, k, r), next)
  {
    hide With;
    var t' := With(t, k, r);
    forall x: Key ensures x in t' ==> x.parentID < next {
      WithAt(t, k, r, x);
    }
    forall x <- t' | x.name != "" && x.parentID != ROOT_PARENT ensures IsFolder(t', x.parentID) {
      WithAt(t, k, r, x);
      WithAt(t, k, r, ThreadKey(x.parentID));
    }
  }

  lemma {:induction false} EnteredSets(t: Tree, k: Key, r: Record)
    requires !IsThread(r) && k.name != "" && k !in t && ThreadKey(IdOf(r)) !in t
    ensures Files(With(t, k, r)) == Files(t) + if r.File? then {k} else {}
    ensures Folders(With(t, k, r)) == Folders(t) + if r.Folder? then {k} else {}
  {
  }

  lemma {:induction false} ChildrenWithout(t: Tree, k: Key, id: nat)
    requires k in t && !IsThread(t[k]) && k.name != ""
    ensures Children(Without(t, k).Keys, id) == Children(t.Keys, id) - {k}
    ensures |Children(Without(t, k).Keys, id)| == |Children(t.Keys, id)| - if k.parentID == id then 1 else 0
  {
    var c, c' := Children(t.Keys, id), Children(Without(t, k).Keys, id);
    assert c' == c - {k};
    assert k in c <==> k.parentID == id;
  }

  lemma {:induction false} LeftLinked(t: Tree, k: Key)
    requires Linked(t) && k in t && !IsThread(t[k])
    ensures Linked(Without(t, k))
  {
    var t' := Without(t, k);
    forall x <- t' ensures if x.name != "" then RecordLinked(t', x) else ThreadLinked(t', x) {
      LinkedAt(t, x);
      LinkedAt(t, k);
      LinkKept(t, k, x);
    }
  }

  // No other thread leads to the record that left, and its thread leads to no other record.
  lemma {:induction false} LinkKept(t: Tree, k: Key, x: Key)
    requires k in t && RecordLinked(t, k) && x in t && x != k && x != ThreadKey(IdOf(t[k]))
    requires if x.name != "" then RecordLinked(t, x) else ThreadLinked(t, x)
    requires k.name != ""
    ensures if x.name != "" then RecordLinked(Without(t, k), x) else ThreadLinked(Without(t, k), x)
  {
    hide Linked;
    if x.name == "" {
      assert IdOf(t[Target(t[x])]) == x.parentID;
      assert Target(t[x]) != k;
    }
  }

  lemma {:induction false} LeftValences(t: Tree, off: nat -> int, k: Key)
    requires ValencesOff(t, off) && k in t && !IsThread(t[k]) && k.name != ""
    ensures ValencesOff(Without(t, k), Plus(off, k.parentID, 1))
    ensures t[k].Folder? ==> t[k].valence == |Children(Without(t, k).Keys, t[k].folderID)| + Plus(off, k.parentID, 1)(t[k].folderID)
  {
    var t' := Without(t, k);
    hide Children;
    forall x <- t' | t'[x].Folder?
      ensures t'[x].valence == |Children(t'.Keys, t'[x].folderID)| + Plus(off, k.parentID, 1)(t'[x].folderID)
    {
      ChildrenWithout(t, k, t'[x].folderID);
    }
    if t[k].Folder? {
      ChildrenWithout(t, k, t[k].folderID);
    }
  }

  lemma {:induction false} Left(t: Tree, off: nat -> int, next: nat, k: Key)
    requires Shape(t, ROOT_PARENT, off, next) && k in t && !IsThread(t[k])
    ensures Shape(Without(t, k), if t[k].Folder? then t[k].folderID else ROOT_PARENT, Plus(off, k.parentID, 1), next)
    ensures Files(Without(t, k)) == Files(t) - {k} && Folders(Without(t, k)) == Folders(t) - {k}
    ensures RecordLinked(t, k) && k.name != "" && k.parentID < next && IdOf(t[k]) < next
    ensures t[k].Folder? ==> t[k].valence == |Children(Without(t, k).Keys, t[k].folderID)| + Plus(off, k.parentID, 1)(t[k].folderID)
  {
    LinkedAt(t, k);
    hide Linked, ValencesOff, Children, InFoldersBut, Below, IsFolder, Without, Files, Folders;
    LeftLinked(t, k);
    LeftValences(t, off, k);
    LeftFolders(t, next, k);
    LeftSets(t, k);
  }

  lemma {:induction false} LinkedAt(t: Tree, k: Key)
    requires Linked(t) && k in t
    ensures if k.name != "" then RecordLinked(t, k) else ThreadLinked(t, k)
  {
  }

  lemma {:induction false} LeftFolders(t: Tree, next: nat, k: Key)
    requires InFolders(t) && Below(t, next) && k in t && RecordLinked(t, k) && k.name != ""
    ensures InFoldersBut(Without(t, k), if t[k].Folder? then t[k].folderID else ROOT_PARENT) && Below(Without(t, k), next)
    ensures k.parentID < next && IdOf(t[k]) < next
  {
    var t' := Without(t, k);
    assert ThreadKey(IdOf(t[k])) in t;
    forall x <- t' | x.name != "" && x.parentID != ROOT_PARENT && (t[k].Folder? ==> x.parentID != t[k].folderID)
      ensures IsFolder(t', x.parentID)
    {
      assert x in t && IsFolder(t, x.parentID);
      assert ThreadKey(x.parentID) in t';
    }
  }

  lemma {:induction false} LeftSets(t: Tree, k: Key)
    requires k in t && RecordLinked(t, k)
    ensures Files(Without(t, k)) == Files(t) - {k} && Folders(Without(t, k)) == Folders(t) - {k}
  {
    assert IsThread(t[ThreadKey(IdOf(t[k]))]);
  }

  // A folder's record rewritten: only its valence and folder count change.
  lemma {:induction false} Rewritten(t: Tree, off: nat -> int, next: nat, k: Key, r: Record)
    requires Shape(t, ROOT_PARENT, off, next) && k in t && t[k].Folder? && r.Folder? && r.folderID == t[k].folderID
    ensures Shape(t[k := r], ROOT_PARENT, Plus(off, r.folderID, r.valence - t[k].valence), next)
    ensures Files(t[k := r]) == Files(t) && Folders(t[k := r]) == Folders(t)
  {
    hide Linked, ValencesOff, Children, InFoldersBut, Below, IsFolder, Files, Folders;
    RewrittenLinked(t, k, r);
    RewrittenValences(t, off, k, r);
    RewrittenFolders(t, next, k, r);
  }

  lemma {:induction false} RewrittenLinked(t: Tree, k: Key, r: Record)
    requires Linked(t) && k in t && t[k].Folder? && r.Folder? && r.folderID == t[k].folderID
    ensures Linked(t[k := r])
  {
    var t' := t[k := r];
    forall x <- t' ensures if x.name != "" then RecordLinked(t', x) else ThreadLinked(t', x) {
      LinkedAt(t, x);
      LinkedAt(t, k);
      hide Linked;
    }
  }

  lemma {:induction false} RewrittenFolders(t: Tree, next: nat, k: Key, r: Record)
    requires InFolders(t) && Below(t, next) && k in t && t[k].Folder? && r.Folder? && r.folderID == t[k].folderID
    ensures InFolders(t[k := r]) && Below(t[k := r], next)
    ensures Files(t[k := r]) == Files(t) && Folders(t[k := r]) == Folders(t)
  {
    var t' := t[k := r];
    forall x <- t' | x.name != "" && x.parentID != ROOT_PARENT ensures IsFolder(t', x.parentID) {
      assert IsFolder(t, x.parentID);
    }
  }

  lemma {:induction false} RewrittenValences(t: Tree, off: nat -> int, k: Key, r: Record)
    requires ValencesOff(t, off) && Linked(t) && k in t && t[k].Folder? && r.Folder? && r.folderID == t[k].folderID
    ensures ValencesOff(t[k := r], Plus(off, r.folderID, r.valence - t[k].valence))
  {
    var t' := t[k := r];
    assert t'.Keys == t.Keys;
    hide Children, Linked;
    forall x <- t' | t'[x].Folder?
      ensures t'[x].valence == |Children(t'.Keys, t'[x].folderID)| + Plus(off, r.folderID, r.valence - t[k].valence)(t'[x].folderID)
    {
      if x != k && t[x].folderID == r.folderID {
        OneRecord(t, x, k);
      }
    }
  }

  // A number belongs to one record.
  lemma {:induction false} OneRecord(t: Tree, x: Key, y: Key)
    requires Linked(t) && x in t && y in t && !IsThread(t[x]) && !IsThread(t[y]) && IdOf(t[x]) == IdOf(t[y])
    ensures x == y
  {
    LinkedAt(t, x);
    LinkedAt(t, y);
    hide Linked;
  }

  /* ----- Climbing to the root ----- */

  // The same folders under the same parents.
  ghost predicate SameFolders(t: Tree, t': Tree) {
    forall id: nat :: (IsFolder(t', id) <==> IsFolder(t, id)) &&
      (IsFolder(t, id) ==> t'[ThreadKey(id)].parentID == t[ThreadKey(id)].parentID)
  }

  lemma {:induction false} ClimbsSame(t: Tree, t': Tree, id: nat, n: nat)
    requires SameFolders(t, t') && Climbs(t, id, n)
    ensures Climbs(t', id, n)
    decreases n
  {
    if id != ROOT {
      assert IsFolder(t', id);
      ClimbsSame(t, t', t[ThreadKey(id)].parentID, n - 1);
    }
  }

  lemma {:induction false} RootedSame(t: Tree, t': Tree)
    requires SameFolders(t, t') && Rooted(t)
    ensures Rooted(t')
  {
    forall id: nat | IsFolder(t', id) ensures exists n: nat :: Climbs(t', id, n) {
      var n: nat :| Climbs(t, id, n);
      ClimbsSame(t, t', id, n);
    }
  }

  // A new folder hangs under one that climbs already.
  lemma {:induction false} ClimbsMore(t: Tree, t': Tree, x: nat, id: nat, n: nat)
    requires !IsFolder(t, x) && Climbs(t, id, n)
    requires forall j: nat :: j != x && IsFolder(t, j) ==> IsFolder(t', j) && t'[ThreadKey(j)] == t[ThreadKey(j)]
    ensures Climbs(t', id, n)
    decreases n
  {
    if id != ROOT {
      assert IsFolder(t', id);
      ClimbsMore(t, t', x, t[ThreadKey(id)].parentID, n - 1);
    }
  }

  lemma {:induction false} RootedMore(t: Tree, k: Key, r: Record)
    requires Rooted(t) && !IsThread(r) && k.name != "" && ThreadKey(IdOf(r)) !in t && IdOf(r) > ROOT && IsFolder(t, k.parentID)
    ensures Rooted(With(t, k, r))
  {
    var t', x := With(t, k, r), IdOf(r);
    WithFolders(t, k, r);
    forall id: nat | IsFolder(t', id) ensures exists n: nat :: Climbs(t', id, n) {
      var n: nat :| Climbs(t, if id == x then k.parentID else id, n);
      ClimbsMore(t, t', x, if id == x then k.parentID else id, n);
      if id == x {
        assert Climbs(t', id, n + 1);
      }
    }
  }

  lemma {:induction false} WithFolders(t: Tree, k: Key, r: Record)
    requires !IsThread(r) && k.name != ""
    ensures forall j: nat :: j != IdOf(r) ==> (IsFolder(With(t, k, r), j) <==> IsFolder(t, j))
    ensures forall j: nat :: j != IdOf(r) && IsFolder(t, j) ==> With(t, k, r)[ThreadKey(j)] == t[ThreadKey(j)]
    ensures IsFolder(With(t, k, r), IdOf(r)) <==> r.Folder?
    ensures With(t, k, r)[ThreadKey(IdOf(r))] == ThreadOf(k, r)
  {
  }

  // A folder without children is on no other folder's way up.
  lemma {:induction false} ClimbsLess(t: Tree, t': Tree, x: nat, id: nat, n: nat)
    requires Climbs(t, id, n) && IsFolder(t', id)
    requires forall j: nat :: (IsFolder(t', j) <==> j != x && IsFolder(t, j))
    requires forall j: nat :: IsFolder(t', j) ==> IsFolder(t, j) && t'[ThreadKey(j)] == t[ThreadKey(j)] && t[ThreadKey(j)].parentID != x
    ensures Climbs(t', id, n)
    decreases n
  {
    if id != ROOT {
      var p := t[ThreadKey(id)].parentID;
      if p != ROOT {
        assert Climbs(t, p, n - 1) && IsFolder(t, p);
        ClimbsLess(t, t', x, p, n - 1);
      }
    }
  }

  lemma {:induction false} RootedLess(t: Tree, t': Tree, x: nat)
    requires Rooted(t) && x != ROOT
    requires forall j: nat :: (IsFolder(t', j) <==> j != x && IsFolder(t, j))
    requires forall j: nat :: IsFolder(t', j) ==> IsFolder(t, j) && t'[ThreadKey(j)] == t[ThreadKey(j)] && t[ThreadKey(j)].parentID != x
    ensures Rooted(t')
  {
    assert IsFolder(t', ROOT);
    forall id: nat | IsFolder(t', id) ensures exists n: nat :: Climbs(t', id, n) {
      assert IsFolder(t, id);
      var n: nat :| Climbs(t, id, n);
      ClimbsLess(t, t', x, id, n);
    }
  }

  // Climbing from id meets x.
  ghost predicate Passes(t: Tree, id: nat, x: nat, n: nat)
    decreases n
  {
    id == x || (n > 0 && id != ROOT && IsFolder(t, id) && Passes(t, t[ThreadKey(id)].parentID, x, n - 1))
  }

  // id is x or lies below it.
  ghost predicate Inside(t: Tree, id: nat, x: nat) { exists n: nat :: Passes(t, id, x, n) }

  // Folder x hangs under d now, everything else where it was.
  ghost predicate Rehung(t: Tree, t': Tree, x: nat, d: nat) {
    && IsFolder(t, x) && IsFolder(t', x) && t'[ThreadKey(x)].parentID == d && x != ROOT
    && forall j: nat :: j != x ==>
      (IsFolder(t', j) <==> IsFolder(t, j)) && (IsFolder(t, j) ==> t'[ThreadKey(j)].parentID == t[ThreadKey(j)].parentID)
  }

  lemma {:induction false} ClimbsPast(t: Tree, t': Tree, x: nat, d: nat, id: nat, n: nat)
    requires Rehung(t, t', x, d) && Climbs(t, id, n) && !Inside(t, id, x)
    ensures Climbs(t', id, n)
    decreases n
  {
    assert Passes(t, x, x, 0);
    if id != ROOT {
      var p := t[ThreadKey(id)].parentID;
      forall m: nat ensures !Passes(t, p, x, m) {
        assert !Passes(t, id, x, m + 1);
      }
      ClimbsPast(t, t', x, d, p, n - 1);
    }
  }

  lemma {:induction false} ClimbsAgain(t: Tree, t': Tree, x: nat, d: nat, m: nat, id: nat, n: nat) returns (n': nat)
    requires Rehung(t, t', x, d) && Climbs(t, id, n) && Climbs(t', d, m)
    ensures Climbs(t', id, n')
    decreases n
  {
    if id == ROOT {
      n' := 0;
    } else if id == x {
      n' := m + 1;
    } else {
      n' := ClimbsAgain(t, t', x, d, m, t[ThreadKey(id)].parentID, n - 1);
      n' := n' + 1;
    }
  }

  // In the other case climbing from x comes back to x.
  lemma {:induction false} ComesBack(t: Tree, t': Tree, x: nat, d: nat, id: nat, m: nat, k: nat) returns (k': nat)
    requires Rehung(t, t', x, d) && Passes(t, id, x, m) && Climbs(t', id, k)
    ensures k' <= k && Climbs(t', x, k')
    decreases m
  {
    if id == x {
      k' := k;
    } else {
      k' := ComesBack(t, t', x, d, t[ThreadKey(id)].parentID, m - 1, k - 1);
    }
  }

  lemma {:induction false} NeverUp(t: Tree, t': Tree, x: nat, d: nat, m: nat, n: nat)
    requires Rehung(t, t', x, d) && Passes(t, d, x, m)
    ensures !Climbs(t', x, n)
    decreases n
  {
    if Climbs(t', x, n) {
      var k := ComesBack(t, t', x, d, d, m, n - 1);
      NeverUp(t, t', x, d, m, k);
    }
  }

  // A folder moved into itself or below itself is cut off from the root; any other stays on it.
  lemma {:induction false} RootedWhen(t: Tree, t': Tree, x: nat, d: nat)
    requires Rooted(t) && Rehung(t, t', x, d) && IsFolder(t, d) && !IsFolder(t', ROOT_PARENT)
    ensures Rooted(t') <==> !Inside(t, d, x)
  {
    if Inside(t, d, x) {
      var m: nat :| Passes(t, d, x, m);
      forall n: nat ensures !Climbs(t', x, n) {
        NeverUp(t, t', x, d, m, n);
      }
    } else {
      var m: nat :| Climbs(t, d, m);
      ClimbsPast(t, t', x, d, d, m);
      forall id: nat | IsFolder(t', id) ensures exists n: nat :: Climbs(t', id, n) {
        assert IsFolder(t, id);
        var n: nat :| Climbs(t, id, n);
        var n' := ClimbsAgain(t, t', x, d, m, id, n);
      }
    }
  }

  /* ----- A record more, a record less, a record elsewhere ----- */

  ghost function NoneOff(): nat -> int { (j: nat) => 0 }

  lemma {:induction false} ConsistentShape(t: Tree, next: nat)
    ensures Shape(t, ROOT_PARENT, NoneOff(), next) <==> Linked(t) && ValencesExact(t) && InFolders(t) && Below(t, next)
  {
    hide Linked, InFoldersBut, Below, Children;
  }

  // No record lies below a number not given out yet.
  lemma {:induction false} NoChildren(t: Tree, next: nat)
    requires Below(t, next)
    ensures Children(t.Keys, next) == {} && ThreadKey(next) !in t
  {
  }

  // A new file or folder, its parent's valence one up.
  ghost function Grown(t: Tree, k: Key, r: Record, pk: Key, p: Record): Tree
    requires !IsThread(r)
  {
    With(t, k, r)[pk := p]
  }

  lemma {:induction false} GrownShape(t: Tree, next: nat, k: Key, r: Record, pk: Key, p: Record)
    requires Shape(t, ROOT_PARENT, NoneOff(), next) && k !in t && k.name != ""
    requires !IsThread(r) && IdOf(r) == next && (r.Folder? ==> r.valence == 0)
    requires pk in t && t[pk].Folder? && p.Folder? && k.parentID == t[pk].folderID == p.folderID && p.valence == t[pk].valence + 1
    ensures Shape(Grown(t, k, r, pk, p), ROOT_PARENT, NoneOff(), next + 1)
    ensures Files(Grown(t, k, r, pk, p)) == Files(t) + if r.File? then {k} else {}
    ensures Folders(Grown(t, k, r, pk, p)) == Folders(t) + if r.Folder? then {k} else {}
  {
    NoChildren(t, next);
    FolderKey(t, pk);
    BelowMore(t, next);
    GrownParts(t, next, k, r, pk, p);
  }

  lemma {:induction false} GrownParts(t: Tree, next: nat, k: Key, r: Record, pk: Key, p: Record)
    requires Shape(t, ROOT_PARENT, NoneOff(), next + 1) && MayEnter(t, ROOT_PARENT, NoneOff(), next + 1, k, r)
    requires pk in t && t[pk].Folder? && p.Folder? && k.parentID == t[pk].folderID == p.folderID && p.valence == t[pk].valence + 1
    requires pk.name != ""
    ensures Shape(Grown(t, k, r, pk, p), ROOT_PARENT, NoneOff(), next + 1)
    ensures Files(Grown(t, k, r, pk, p)) == Files(t) + if r.File? then {k} else {}
    ensures Folders(Grown(t, k, r, pk, p)) == Folders(t) + if r.Folder? then {k} else {}
  {
    hide Shape, With, Files, Folders, Plus;
    WithAt(t, k, r, pk);
    hide MayEnter;
    Entered(t, ROOT_PARENT, NoneOff(), next + 1, k, r);
    Rewritten(With(t, k, r), Plus(NoneOff(), k.parentID, -1), next + 1, pk, p);
    NetNone(With(t, k, r)[pk := p], k.parentID, next + 1);
  }

  lemma {:induction false} NetNone(t: Tree, id: nat, next: nat)
    requires Shape(t, ROOT_PARENT, Plus(Plus(NoneOff(), id, -1), id, 1), next)
    ensures Shape(t, ROOT_PARENT, NoneOff(), next)
  {
    hide Linked, InFoldersBut, Below, Children;
  }

  lemma {:induction false} BelowMore(t: Tree, next: nat)
    requires Shape(t, ROOT_PARENT, NoneOff(), next)
    ensures Shape(t, ROOT_PARENT, NoneOff(), next + 1)
  {
    hide Linked, InFoldersBut, ValencesOff;
  }

  lemma {:induction false} FolderKey(t: Tree, pk: Key)
    requires Linked(t) && pk in t && t[pk].Folder?
    ensures pk.name != "" && IsFolder(t, t[pk].folderID) && t[ThreadKey(t[pk].folderID)] == FolderThread(pk.parentID, pk.name)
    ensures ThreadKey(t[pk].folderID) in t && pk == Target(t[ThreadKey(t[pk].folderID)])
  {
    LinkedAt(t, pk);
    hide Linked;
  }

  lemma {:induction false} GrownRooted(t: Tree, k: Key, r: Record, pk: Key, p: Record)
    requires Rooted(t) && !IsThread(r) && k.name != "" && ThreadKey(IdOf(r)) !in t && IdOf(r) > ROOT && IsFolder(t, k.parentID)
    requires pk.name != ""
    ensures Rooted(Grown(t, k, r, pk, p))
  {
    RootedMore(t, k, r);
    assert SameFolders(With(t, k, r), Grown(t, k, r, pk, p));
    hide With, Rooted;
    RootedSame(With(t, k, r), Grown(t, k, r, pk, p));
  }

  // A new file or folder keeps the catalog sound when its key is free.
  lemma {:induction false} GrownSound(t: Tree, next: nat, files: int, folders: int, k: Key, r: Record, pk: Key, p: Record)
    requires Sound(t, next, files, folders) && k !in t
    requires !IsThread(r) && IdOf(r) == next && (r.Folder? ==> r.valence == 0)
    requires pk in t && t[pk].Folder? && p.Folder? && k.parentID == t[pk].folderID == p.folderID && p.valence == t[pk].valence + 1
    ensures Sound(Grown(t, k, r, pk, p), next + 1, files + (if r.File? then 1 else 0), folders + (if r.Folder? then 1 else 0))
    ensures ThreadKey(next) !in t && k.name != ""
    ensures Added(Added(t, k, r), ThreadKey(next), ThreadOf(k, r)) == With(t, k, r)
  {
    hide Linked, ValencesExact, InFoldersBut, Files, Folders, Rooted, Shape, Grown, Children;
    FolderKey(t, pk);
    NoChildren(t, next);
    hide Below;
    ConsistentShape(t, next);
    GrownShape(t, next, k, r, pk, p);
    ConsistentShape(Grown(t, k, r, pk, p), next + 1);
    GrownRooted(t, k, r, pk, p);
    NewInSets(t, k);
  }

  lemma {:induction false} NewInSets(t: Tree, k: Key)
    requires k !in t
    ensures |Files(t) + {k}| == |Files(t)| + 1 && |Folders(t) + {k}| == |Folders(t)| + 1
  {
  }

  // Where the key is taken, the new thread leads to another's record.
  lemma {:induction false} TakenUnsound(t: Tree, next: nat, k: Key, r: Record, t': Tree)
    requires Linked(t) && Below(t, next) && k in t && !IsThread(r) && IdOf(r) == next
    requires ThreadKey(next) in t' && t'[ThreadKey(next)] == ThreadOf(k, r)
    requires k in t' && (k.name == "" || (!IsThread(t'[k]) && !IsThread(t[k]) && IdOf(t'[k]) == IdOf(t[k])))
    ensures !Linked(t')
  {
    LinkedAt(t, k);
    if k.name != "" {
      assert ThreadKey(IdOf(t[k])) in t && IdOf(t[k]) < next;
    }
    if Linked(t') {
      LinkedAt(t', ThreadKey(next));
      hide *;
    }
  }

  // The steps of newFolder and newFile: the record, the thread, the parent.
  ghost function Entry(t: Tree, k: Key, r: Record, p: Record, pk: Key): Tree
    requires !IsThread(r)
  {
    Added(Added(t, k, r), ThreadKey(IdOf(r)), ThreadOf(k, r))[pk := p]
  }

  // What the code knows of a parent it found.
  ghost predicate ParentFound(t: Tree, pk: Key, id: nat, p: Record) {
    ParentAt(t, pk, id) && p.Folder? && p.folderID == id && p.valence == t[pk].valence + 1
  }

  lemma {:induction false} EntryUpdates(t: Tree, next: nat, k: Key, r: Record, pk: Key, p: Record)
    requires Linked(t) && Below(t, next) && !IsThread(r) && IdOf(r) == next && ParentFound(t, pk, k.parentID, p)
    ensures var a := Added(Added(t, k, r), ThreadKey(next), ThreadOf(k, r));
      Updatable(a, p) && Target(a[ThreadKey(IdOf(p))]) == pk && a[pk := p] == Entry(t, k, r, p, pk)
  {
    FolderKey(t, pk);
    hide Linked;
    assert ThreadKey(next) !in t;
  }

  lemma {:induction false} EntrySound(t: Tree, next: nat, files: int, folders: int, k: Key, r: Record, pk: Key, p: Record)
    requires Sound(t, next, files, folders) && ParentFound(t, pk, k.parentID, p)
    requires !IsThread(r) && IdOf(r) == next && (r.Folder? ==> r.valence == 0)
    ensures Sound(Entry(t, k, r, p, pk), next + 1, files + (if r.File? then 1 else 0), folders + (if r.Folder? then 1 else 0)) <==> k !in t
    ensures k !in t ==> Entry(t, k, r, p, pk) == Grown(t, k, r, pk, p)
  {
    if k !in t {
      GrownSound(t, next, files, folders, k, r, pk, p);
      hide Sound;
    } else {
      hide Rooted, ValencesExact, InFoldersBut, Files, Folders, Linked, Below;
      FolderKey(t, pk);
      LinkedAt(t, k);
      EntryTaken(t, next, k, r, pk, p);
    }
  }

  // A record whose key is taken stays, but for the parent's own.
  lemma {:induction false} TakenKeeps(t: Tree, k: Key, r: Record, p: Record, pk: Key)
    requires !IsThread(r) && k in t && k != pk
    ensures k in Entry(t, k, r, p, pk) && Entry(t, k, r, p, pk)[k] == t[k]
  {
  }

  lemma {:induction false} EntryTaken(t: Tree, next: nat, k: Key, r: Record, pk: Key, p: Record)
    requires Linked(t) && Below(t, next) && k in t && ParentFound(t, pk, k.parentID, p) && !IsThread(r) && IdOf(r) == next
    ensures !Linked(Entry(t, k, r, p, pk))
  {
    FolderKey(t, pk);
    LinkedAt(t, k);
    assert ThreadKey(next) !in t;
    hide Linked, Below;
    TakenUnsound(t, next, k, r, Entry(t, k, r, p, pk));
  }

  // What the code knows of a parent it found, one child less.
  ghost predicate ParentLess(t: Tree, pk: Key, id: nat, p: Record) {
    ParentAt(t, pk, id) && p.Folder? && p.folderID == id && p.valence == t[pk].valence - 1
  }

  ghost predicate Removable(t: Tree, k: Key) {
    k in t && !IsThread(t[k]) && k.parentID != ROOT_PARENT && (t[k].Folder? ==> t[k].valence <= 0)
  }

  lemma {:induction false} NoneBelow(t: Tree, k: Key)
    requires Linked(t) && ValencesExact(t) && Removable(t, k) && t[k].Folder?
    ensures Children(t.Keys, t[k].folderID) == {}
    ensures forall j: nat :: IsFolder(t, j) ==> t[ThreadKey(j)].parentID != t[k].folderID
    ensures k.parentID != t[k].folderID
  {
    var c := Children(t.Keys, t[k].folderID);
    assert |c| == 0;
    assert c == {};
    LinkedAt(t, k);
    assert k !in c;
    forall j: nat | IsFolder(t, j) ensures t[ThreadKey(j)].parentID != t[k].folderID {
      LinkedAt(t, ThreadKey(j));
      assert Target(t[ThreadKey(j)]) !in c;
    }
  }

  lemma {:induction false} AllInFolders(t: Tree, k: Key, off: nat -> int, next: nat)
    requires k in t && !IsThread(t[k]) && t[k].Folder? && Children(t.Keys, t[k].folderID) == {}
    requires Shape(Without(t, k), t[k].folderID, off, next)
    ensures Shape(Without(t, k), ROOT_PARENT, off, next)
  {
    hide Linked, ValencesOff;
    var t' := Without(t, k);
    forall x <- t' | x.name != "" && x.parentID != ROOT_PARENT ensures IsFolder(t', x.parentID) {
      assert x !in Children(t.Keys, t[k].folderID);
    }
  }

  // A file or an empty folder gone, its parent's valence one down.
  lemma {:induction false} ShrunkShape(t: Tree, next: nat, k: Key, pk: Key, p: Record)
    requires Shape(t, ROOT_PARENT, NoneOff(), next) && ValencesExact(t) && Removable(t, k) && ParentLess(t, pk, k.parentID, p)
    ensures Shape(Without(t, k)[pk := p], ROOT_PARENT, NoneOff(), next) && pk != k && RecordLinked(t, k)
    ensures Files(Without(t, k)[pk := p]) == Files(t) - {k} && Folders(Without(t, k)[pk := p]) == Folders(t) - {k}
    ensures Updatable(Without(t, k), p) && Target(Without(t, k)[ThreadKey(IdOf(p))]) == pk
  {
    hide Linked, ValencesOff, InFoldersBut, Below, Children, ValencesExact, Files, Folders;
    FolderKey(t, pk);
    Left(t, NoneOff(), next, k);
    if t[k].Folder? {
      NoneBelow(t, k);
      AllInFolders(t, k, Plus(NoneOff(), k.parentID, 1), next);
    }
    assert pk in Without(t, k) && Without(t, k)[pk] == t[pk];
    Rewritten(Without(t, k), Plus(NoneOff(), k.parentID, 1), next, pk, p);
    NetNoneAgain(Without(t, k)[pk := p], k.parentID, next);
  }

  lemma {:induction false} NetNoneAgain(t: Tree, id: nat, next: nat)
    requires Shape(t, ROOT_PARENT, Plus(Plus(NoneOff(), id, 1), id, -1), next)
    ensures Shape(t, ROOT_PARENT, NoneOff(), next)
  {
    hide Linked, InFoldersBut, Below, Children;
  }

  lemma {:induction false} ShrunkRooted(t: Tree, k: Key, pk: Key, p: Record)
    requires Linked(t) && ValencesExact(t) && Rooted(t) && Removable(t, k) && pk.name != "" && RecordLinked(t, k) && k.name != ""
    ensures Rooted(Without(t, k)[pk := p])
  {
    var t' := Without(t, k)[pk := p];
    if t[k].Folder? {
      NoneBelow(t, k);
      hide Linked, ValencesExact, Children;
      assert t[k].folderID != ROOT;
      RootedLess(t, t', t[k].folderID);
    } else {
      hide Linked, ValencesExact;
      assert SameFolders(t, t');
      RootedSame(t, t');
    }
  }

  lemma {:induction false} ShrunkSound(t: Tree, next: nat, files: int, folders: int, k: Key, pk: Key, p: Record)
    requires Sound(t, next, files, folders) && Removable(t, k) && ParentLess(t, pk, k.parentID, p)
    ensures Sound(Without(t, k)[pk := p], next, files - (if t[k].File? then 1 else 0), folders - (if t[k].Folder? then 1 else 0))
    ensures Updatable(Without(t, k), p) && Target(Without(t, k)[ThreadKey(IdOf(p))]) == pk
  {
    hide Linked, ValencesExact, InFoldersBut, Below, Files, Folders, Rooted, Shape, Children;
    ConsistentShape(t, next);
    ShrunkShape(t, next, k, pk, p);
    ConsistentShape(Without(t, k)[pk := p], next);
    FolderKey(t, pk);
    LinkedAt(t, k);
    ShrunkRooted(t, k, pk, p);
    OldInSets(t, k);
  }

  lemma {:induction false} OldInSets(t: Tree, k: Key)
    requires k in t
    ensures t[k].File? ==> |Files(t) - {k}| == |Files(t)| - 1 && Folders(t) - {k} == Folders(t)
    ensures t[k].Folder? ==> |Folders(t) - {k}| == |Folders(t)| - 1 && Files(t) - {k} == Files(t)
  {
  }

  /* ----- A record elsewhere ----- */

  // The record taken out and put back under another key, before the two parents are updated.
  ghost function Hung(t: Tree, k: Key, dk: Key): Tree
    requires k in t && !IsThread(t[k])
  {
    Added(Added(Without(t, k), dk, t[k]), ThreadKey(IdOf(t[k])), ThreadOf(dk, t[k]))
  }

  // A move's source and target: the record at k with its folder at pk, the folder at dk0 that dk lies in.
  ghost predicate Moving(t: Tree, k: Key, pk: Key, dk: Key, dk0: Key) {
    && k in t && k.name != "" && k.parentID != ROOT_PARENT && RecordLinked(t, k)
    && ParentAt(t, pk, k.parentID) && pk.name != "" && ParentAt(t, dk0, dk.parentID) && dk0.name != ""
    && pk != k
  }

  // Where the target folder's record lies after the move: the folder may be the one moved.
  ghost function NewHome(k: Key, dk: Key, dk0: Key): Key { if dk0 == k then dk else dk0 }

  lemma {:induction false} HungFree(t: Tree, k: Key, pk: Key, dk: Key, dk0: Key)
    requires Linked(t) && Moving(t, k, pk, dk, dk0) && dk !in Without(t, k) && dk != ThreadKey(IdOf(t[k]))
    ensures Hung(t, k, dk) == With(Without(t, k), dk, t[k]) && dk.name != ""
    ensures pk in Hung(t, k, dk) && Hung(t, k, dk)[pk] == t[pk] && pk != dk
    ensures NewHome(k, dk, dk0) in Hung(t, k, dk) && Hung(t, k, dk)[NewHome(k, dk, dk0)] == t[dk0]
  {
    FolderKey(t, pk);
    FolderKey(t, dk0);
    hide Linked;
  }

  lemma {:induction false} HungShape(t: Tree, next: nat, k: Key, pk: Key, dk: Key, dk0: Key)
    requires Shape(t, ROOT_PARENT, NoneOff(), next) && Moving(t, k, pk, dk, dk0)
    requires dk !in Without(t, k) && dk != ThreadKey(IdOf(t[k]))
    ensures Shape(Hung(t, k, dk), ROOT_PARENT, Plus(Plus(NoneOff(), k.parentID, 1), dk.parentID, -1), next)
    ensures Files(Hung(t, k, dk)) == Files(t) - {k} + (if t[k].File? then {dk} else {})
    ensures Folders(Hung(t, k, dk)) == Folders(t) - {k} + (if t[k].Folder? then {dk} else {})
  {
    HungFree(t, k, pk, dk, dk0);
    Left(t, NoneOff(), next, k);
    FolderKey(t, dk0);
    MayHang(t, next, k, pk, dk, dk0);
    hide Shape, Without, With, Files, Folders, MayEnter, Plus, Hung;
    Entered(Without(t, k), if t[k].Folder? then t[k].folderID else ROOT_PARENT, Plus(NoneOff(), k.parentID, 1), next, dk, t[k]);
  }

  lemma {:induction false} MayHang(t: Tree, next: nat, k: Key, pk: Key, dk: Key, dk0: Key)
    requires Moving(t, k, pk, dk, dk0) && dk !in Without(t, k) && dk.name != "" && Below(t, next)
    requires IsFolder(t, dk.parentID) && ThreadKey(dk.parentID) in t && k.parentID < next && IdOf(t[k]) < next
    requires t[k].Folder? ==>
      t[k].valence == |Children(Without(t, k).Keys, t[k].folderID)| + Plus(NoneOff(), k.parentID, 1)(t[k].folderID)
    ensures MayEnter(Without(t, k), if t[k].Folder? then t[k].folderID else ROOT_PARENT, Plus(NoneOff(), k.parentID, 1), next, dk, t[k])
  {
    hide Children, Plus;
    var x := IdOf(t[k]);
    assert dk.parentID != x ==> IsFolder(Without(t, k), dk.parentID);
    assert dk.parentID == x ==> t[k].Folder?;
  }

  // The move with both parents updated from the copies read before it.
  ghost function Relocated(t: Tree, k: Key, pk: Key, dk: Key, dk0: Key, p: Record, d: Record): Tree
    requires k in t && !IsThread(t[k])
  {
    Hung(t, k, dk)[pk := p][NewHome(k, dk, dk0) := d]
  }

  ghost predicate Copies(t: Tree, pk: Key, dk0: Key, p: Record, d: Record) {
    && pk in t && dk0 in t && t[pk].Folder? && t[dk0].Folder? && p.Folder? && d.Folder?
    && p.folderID == t[pk].folderID && d.folderID == t[dk0].folderID
    && p.valence == t[pk].valence - 1 && d.valence == t[dk0].valence + 1
    && p.folderCount == t[pk].folderCount && d.folderCount == t[dk0].folderCount
  }

  lemma {:induction false} RelocatedShape(t: Tree, next: nat, k: Key, pk: Key, dk: Key, dk0: Key, p: Record, d: Record)
    requires Shape(t, ROOT_PARENT, NoneOff(), next) && Moving(t, k, pk, dk, dk0) && Copies(t, pk, dk0, p, d)
    requires dk !in Without(t, k) && dk != ThreadKey(IdOf(t[k]))
    ensures pk != dk0 ==> Shape(Relocated(t, k, pk, dk, dk0, p, d), ROOT_PARENT, NoneOff(), next)
    ensures pk == dk0 ==> Shape(Relocated(t, k, pk, dk, dk0, p, d), ROOT_PARENT, Plus(NoneOff(), k.parentID, 1), next)
    ensures Files(Relocated(t, k, pk, dk, dk0, p, d)) == Files(t) - {k} + (if t[k].File? then {dk} else {})
    ensures Folders(Relocated(t, k, pk, dk, dk0, p, d)) == Folders(t) - {k} + (if t[k].Folder? then {dk} else {})
  {
    FolderKey(t, pk);
    FolderKey(t, dk0);
    hide Linked;
    HungFree(t, k, pk, dk, dk0);
    HungShape(t, next, k, pk, dk, dk0);
    hide Shape, Hung, Files, Folders, Without, Plus, NoneOff, With;
    TwoRewritten(Hung(t, k, dk), k.parentID, dk.parentID, next, pk, p, NewHome(k, dk, dk0), d);
    assert pk != dk0 ==> NewHome(k, dk, dk0) != pk;
  }

  // Both parents' records rewritten, the source's with one child less and the target's with one more; where they
  // are one, the second copy wins.
  lemma {:induction false} TwoRewritten(h: Tree, a: nat, b: nat, next: nat, pk: Key, p: Record, home: Key, d: Record)
    requires Shape(h, ROOT_PARENT, Plus(Plus(NoneOff(), a, 1), b, -1), next)
    requires pk in h && h[pk].Folder? && p.Folder? && p.folderID == h[pk].folderID == a && p.valence == h[pk].valence - 1
    requires home in h && h[home].Folder? && d.Folder? && d.folderID == h[home].folderID == b && d.valence == h[home].valence + 1
    requires pk == home <==> a == b
    ensures a != b ==> Shape(h[pk := p][home := d], ROOT_PARENT, NoneOff(), next)
    ensures a == b ==> Shape(h[pk := p][home := d], ROOT_PARENT, Plus(NoneOff(), a, 1), next)
    ensures Files(h[pk := p][home := d]) == Files(h) && Folders(h[pk := p][home := d]) == Folders(h)
  {
    hide Shape, Files, Folders, Plus, NoneOff;
    var off := Plus(Plus(NoneOff(), a, 1), b, -1);
    Rewritten(h, off, next, pk, p);
    Rewritten(h[pk := p], Plus(off, a, -1), next, home, d);
    AllNet(h[pk := p][home := d], a, b, if pk == home then 2 else 1, next);
  }

  // The corrections of two parents cancel, or leave one too many when both are one.
  lemma {:induction false} AllNet(t: Tree, a: nat, b: nat, e: int, next: nat)
    requires Shape(t, ROOT_PARENT, Plus(Plus(Plus(Plus(NoneOff(), a, 1), b, -1), a, -1), b, e), next)
    ensures e == 1 ==> Shape(t, ROOT_PARENT, NoneOff(), next)
    ensures e == 2 && a == b ==> Shape(t, ROOT_PARENT, Plus(NoneOff(), a, 1), next)
  {
    hide Linked, InFoldersBut, Below, Children;
  }

  lemma {:induction false} RelocatedRooted(t: Tree, k: Key, pk: Key, dk: Key, dk0: Key, p: Record, d: Record)
    requires Linked(t) && Rooted(t) && Moving(t, k, pk, dk, dk0) && Copies(t, pk, dk0, p, d)
    requires dk !in Without(t, k) && dk != ThreadKey(IdOf(t[k]))
    ensures Rooted(Relocated(t, k, pk, dk, dk0, p, d)) <==> !(t[k].Folder? && Inside(t, dk.parentID, t[k].folderID))
  {
    var t', x := Relocated(t, k, pk, dk, dk0, p, d), IdOf(t[k]);
    HungFree(t, k, pk, dk, dk0);
    FolderKey(t, dk0);
    RelocatedThreads(t, k, pk, dk, dk0, p, d);
    if t[k].Folder? {
      FolderKey(t, k);
      hide Linked, Relocated, Hung, With, Without;
      assert x != ROOT && x != ROOT_PARENT;
      assert Rehung(t, t', x, dk.parentID);
      RootedWhen(t, t', x, dk.parentID);
    } else {
      hide Linked, Relocated, Hung, With, Without;
      assert SameFolders(t, t');
      RootedSame(t, t');
    }
  }

  lemma {:induction false} RelocatedThreads(t: Tree, k: Key, pk: Key, dk: Key, dk0: Key, p: Record, d: Record)
    requires Moving(t, k, pk, dk, dk0) && dk.name != "" && Hung(t, k, dk) == With(Without(t, k), dk, t[k])
    ensures var t', x := Relocated(t, k, pk, dk, dk0, p, d), IdOf(t[k]);
      && ThreadKey(x) in t' && t'[ThreadKey(x)] == ThreadOf(dk, t[k])
      && forall j: nat :: j != x ==> (ThreadKey(j) in t' <==> ThreadKey(j) in t) && (ThreadKey(j) in t ==> t'[ThreadKey(j)] == t[ThreadKey(j)])
  {
  }

  // No folder is its own parent when all climb to the root.
  lemma {:induction false} NeverOwnParent(t: Tree, id: nat, n: nat)
    requires IsFolder(t, id) && t[ThreadKey(id)].parentID == id && id != ROOT
    ensures !Climbs(t, id, n)
    decreases n
  {
    if n > 0 {
      NeverOwnParent(t, id, n - 1);
    }
  }

  lemma {:induction false} ParentIsOther(t: Tree, k: Key, pk: Key)
    requires Linked(t) && Rooted(t) && k in t && k.name != "" && k.parentID != ROOT_PARENT && ParentAt(t, pk, k.parentID)
    ensures pk != k
  {
    FolderKey(t, pk);
    if pk == k {
      var n: nat :| Climbs(t, k.parentID, n);
      NeverOwnParent(t, k.parentID, n);
    }
  }

  lemma {:induction false} OneTooMany(t: Tree, pk: Key, next: nat)
    requires pk in t && t[pk].Folder? && Shape(t, ROOT_PARENT, Plus(NoneOff(), t[pk].folderID, 1), next)
    ensures !ValencesExact(t)
  {
    hide Linked, InFoldersBut, Below, Children;
  }

  lemma {:induction false} SameCounts(t: Tree, k: Key, dk: Key)
    requires k in t && !IsThread(t[k]) && dk !in t - {k}
    ensures |Files(t) - {k} + (if t[k].File? then {dk} else {})| == |Files(t)|
    ensures |Folders(t) - {k} + (if t[k].Folder? then {dk} else {})| == |Folders(t)|
  {
    OldInSets(t, k);
    assert dk !in Files(t) - {k} && dk !in Folders(t) - {k};
    hide Files, Folders;
  }

  // A move to a free key keeps the catalog sound when it leaves its folder and does not enter itself.
  lemma {:induction false} RelocatedSound(t: Tree, next: nat, files: int, folders: int, k: Key, pk: Key, dk: Key, dk0: Key, p: Record, d: Record)
    requires Sound(t, next, files, folders) && Moving(t, k, pk, dk, dk0) && Copies(t, pk, dk0, p, d)
    requires dk !in Without(t, k) && dk != ThreadKey(IdOf(t[k]))
    ensures Sound(Relocated(t, k, pk, dk, dk0, p, d), next, files, folders) <==>
      k.parentID != dk.parentID && !(t[k].Folder? && Inside(t, dk.parentID, t[k].folderID))
  {
    hide Linked, ValencesExact, InFoldersBut, Below, Files, Folders, Rooted, Shape, Relocated, Inside;
    var t' := Relocated(t, k, pk, dk, dk0, p, d);
    ConsistentShape(t, next);
    ConsistentShape(t', next);
    RelocatedShape(t, next, k, pk, dk, dk0, p, d);
    RelocatedRooted(t, k, pk, dk, dk0, p, d);
    SameCounts(t, k, dk);
    if pk == dk0 {
      RelocatedAt(t, k, pk, dk, dk0, p, d);
      OneTooMany(t', pk, next);
    } else if k.parentID == dk.parentID {
      OneRecord(t, pk, dk0);
    }
  }

  lemma {:induction false} RelocatedAt(t: Tree, k: Key, pk: Key, dk: Key, dk0: Key, p: Record, d: Record)
    requires Moving(t, k, pk, dk, dk0) && Copies(t, pk, dk0, p, d) && pk == dk0
    ensures pk in Relocated(t, k, pk, dk, dk0, p, d)
    ensures Relocated(t, k, pk, dk, dk0, p, d)[pk].Folder? && Relocated(t, k, pk, dk, dk0, p, d)[pk].folderID == k.parentID
  {
  }

  // A folder's thread after the record was hung, and the key it leads to.
  lemma {:induction false} HungThread(t: Tree, k: Key, pk: Key, dk: Key, dk0: Key, fk: Key)
    requires Linked(t) && Moving(t, k, pk, dk, dk0) && dk !in Without(t, k) && dk != ThreadKey(IdOf(t[k]))
    requires fk == pk || fk == dk0
    ensures var h, x := Hung(t, k, dk), ThreadKey(t[fk].folderID);
      x in h && IsThread(h[x]) && Target(h[x]) == NewHome(k, dk, fk) && Target(h[x]) in h && h[Target(h[x])].Folder?
  {
    FolderKey(t, fk);
    HungFree(t, k, pk, dk, dk0);
    if fk != k {
      FolderOnly(t, k, fk);
    }
    hide Linked;
  }

  lemma {:induction false} HungUpdates(t: Tree, k: Key, pk: Key, dk: Key, dk0: Key, p: Record, d: Record)
    requires Linked(t) && Moving(t, k, pk, dk, dk0) && Copies(t, pk, dk0, p, d)
    requires dk !in Without(t, k) && dk != ThreadKey(IdOf(t[k]))
    ensures TwoUpdates(Hung(t, k, dk), p, d) && Updated(Updated(Hung(t, k, dk), p), d) == Relocated(t, k, pk, dk, dk0, p, d)
  {
    HungThread(t, k, pk, dk, dk0, pk);
    HungThread(t, k, pk, dk, dk0, dk0);
    var h := Hung(t, k, dk);
    hide Linked, Hung, Without;
    assert Updated(h, p) == h[pk := p];
  }

  lemma {:induction false} FolderOnly(t: Tree, k: Key, pk: Key)
    requires Linked(t) && k in t && RecordLinked(t, k) && k.name != "" && pk in t && t[pk].Folder? && pk != k
    ensures t[pk].folderID != IdOf(t[k])
  {
    FolderKey(t, pk);
    if t[pk].folderID == IdOf(t[k]) {
      OneRecord(t, pk, k);
    }
  }

  // Where another record holds the target's key, two threads lead to it.
  lemma {:induction false} TakenMove(t: Tree, k: Key, dk: Key, t': Tree)
    requires Linked(t) && k in t && k.name != "" && dk in t && dk != k && dk in Without(t, k)
    requires ThreadKey(IdOf(t[k])) in t' && t'[ThreadKey(IdOf(t[k]))] == ThreadOf(dk, t[k])
    requires forall j: nat :: j != IdOf(t[k]) && ThreadKey(j) in t ==> ThreadKey(j) in t' && t'[ThreadKey(j)] == t[ThreadKey(j)]
    ensures !Linked(t')
  {
    LinkedAt(t, dk);
    LinkedAt(t, k);
    if Linked(t') {
      LinkedAt(t', ThreadKey(IdOf(t[k])));
      if dk.name != "" {
        assert IdOf(t[dk]) == IdOf(t[k]) ==> dk == k;
        LinkedAt(t', ThreadKey(IdOf(t[dk])));
      }
      hide *;
    }
  }

  // An update touches no thread.
  lemma {:induction false} UpdateKeeps(t: Tree, record: Record, z: Key)
    requires !IsThread(record) && Updatable(t, record) && z in t && IsThread(t[z])
    ensures z in t[Target(t[ThreadKey(IdOf(record))]) := record] && t[Target(t[ThreadKey(IdOf(record))]) := record][z] == t[z]
  {
  }

  // The threads after the record was hung under a key that is taken.
  lemma {:induction false} HungTaken(t: Tree, k: Key, dk: Key)
    requires Linked(t) && k in t && k.name != "" && dk in Without(t, k)
    ensures !IsThread(t[k]) && ThreadKey(IdOf(t[k])) in Hung(t, k, dk) && Hung(t, k, dk)[ThreadKey(IdOf(t[k]))] == ThreadOf(dk, t[k])
    ensures forall j: nat :: j != IdOf(t[k]) && ThreadKey(j) in t ==>
      ThreadKey(j) in Hung(t, k, dk) && Hung(t, k, dk)[ThreadKey(j)] == t[ThreadKey(j)] && IsThread(t[ThreadKey(j)])
  {
    LinkedAt(t, k);
    forall j: nat | j != IdOf(t[k]) && ThreadKey(j) in t
      ensures ThreadKey(j) in Hung(t, k, dk) && Hung(t, k, dk)[ThreadKey(j)] == t[ThreadKey(j)] && IsThread(t[ThreadKey(j)])
    {
      LinkedAt(t, ThreadKey(j));
    }
  }

  /* ----- Folder counts ----- */

  // The keys of a folder's children that are folders.
  ghost function SubFolders(t: Tree, id: nat): set<Key> { set k <- t | k.parentID == id && k.name != "" && t[k].Folder? }

  // A folder's count is the number of its children that are folders.
  ghost predicate CountsExact(t: Tree) {
    forall k <- t :: t[k].Folder? ==> t[k].folderCount == |SubFolders(t, t[k].folderID)|
  }

  lemma {:induction false} CountAt(t: Tree, k: Key)
    requires CountsExact(t) && k in t && t[k].Folder?
    ensures t[k].folderCount == |SubFolders(t, t[k].folderID)|
  {
  }

  lemma {:induction false} SubGrown(t: Tree, k: Key, r: Record, pk: Key, p: Record, id: nat)
    requires !IsThread(r) && k !in t && k.name != "" && ThreadKey(IdOf(r)) !in t && pk in t && t[pk].Folder? && p.Folder? && pk.name != ""
    ensures var c, c' := SubFolders(t, id), SubFolders(Grown(t, k, r, pk, p), id);
      |c'| == |c| + if k.parentID == id && r.Folder? then 1 else 0
  {
    var c, c' := SubFolders(t, id), SubFolders(Grown(t, k, r, pk, p), id);
    assert c' == c + if k.parentID == id && r.Folder? then {k} else {};
  }

  lemma {:induction false} GrownAt(t: Tree, k: Key, r: Record, pk: Key, p: Record, x: Key)
    requires !IsThread(r) && k !in t && k.name != "" && ThreadKey(IdOf(r)) !in t && pk in t && pk.name != "" && x in Grown(t, k, r, pk, p)
    ensures Grown(t, k, r, pk, p)[x] ==
      if x == pk then p else if x == k then r else if x == ThreadKey(IdOf(r)) then ThreadOf(k, r) else (if x in t then t[x] else r)
    ensures x in t || x == k || x == ThreadKey(IdOf(r))
  {
  }

  // A new folder or file keeps the counts exact.
  lemma {:induction false} CountsGrown(t: Tree, next: nat, k: Key, r: Record, pk: Key, p: Record)
    requires Linked(t) && Below(t, next) && CountsExact(t) && k !in t && ParentAt(t, pk, k.parentID)
    requires !IsThread(r) && IdOf(r) == next && (r.Folder? ==> r.folderCount == 0) && p == ChildMore(t[pk], r.Folder?)
    ensures CountsExact(Grown(t, k, r, pk, p))
  {
    FolderKey(t, pk);
    NoChildren(t, next);
    NamedOnly(t, next, k, pk);
    hide Linked, Below, Grown, SubFolders;
    var t' := Grown(t, k, r, pk, p);
    forall x <- t' | t'[x].Folder? ensures t'[x].folderCount == |SubFolders(t', t'[x].folderID)| {
      GrownAt(t, k, r, pk, p, x);
      SubGrown(t, k, r, pk, p, t'[x].folderID);
      if x == k {
        NoSubFolders(t, next);
      } else {
        CountAt(t, x);
        if x != pk && t[x].folderID == k.parentID {
          OneRecord(t, x, pk);
        }
      }
    }
  }

  lemma {:induction false} EntryCounts(t: Tree, next: nat, k: Key, r: Record, pk: Key, p: Record)
    requires Linked(t) && Below(t, next) && ParentAt(t, pk, k.parentID)
    requires !IsThread(r) && IdOf(r) == next && (r.Folder? ==> r.folderCount == 0) && p == ChildMore(t[pk], r.Folder?)
    ensures CountsExact(t) && k !in t ==> CountsExact(Entry(t, k, r, p, pk))
  {
    if CountsExact(t) && k !in t {
      CountsGrown(t, next, k, r, pk, p);
      NamedOnly(t, next, k, pk);
      NoChildren(t, next);
      hide Linked, Below, CountsExact;
      assert Entry(t, k, r, p, pk) == Grown(t, k, r, pk, p);
    }
  }

  lemma {:induction false} NamedOnly(t: Tree, next: nat, k: Key, pk: Key)
    requires Linked(t) && Below(t, next) && k !in t && ParentAt(t, pk, k.parentID)
    ensures k.name != "" && k.parentID < next
  {
    FolderKey(t, pk);
  }

  lemma {:induction false} NoSubFolders(t: Tree, next: nat)
    requires Below(t, next)
    ensures |SubFolders(t, next)| == 0
  {
    assert SubFolders(t, next) == {};
  }

  lemma {:induction false} SubShrunk(t: Tree, k: Key, pk: Key, p: Record, id: nat)
    requires k in t && RecordLinked(t, k) && k.name != "" && pk in t && t[pk].Folder? && p.Folder? && pk != k && pk.name != ""
    ensures var c, c' := SubFolders(t, id), SubFolders(Without(t, k)[pk := p], id);
      |c'| == |c| - if k.parentID == id && t[k].Folder? then 1 else 0
  {
    var c, c' := SubFolders(t, id), SubFolders(Without(t, k)[pk := p], id);
    assert c' == c - {k};
  }

  // So does the removal of a file or an empty folder.
  lemma {:induction false} CountsShrunk(t: Tree, k: Key, pk: Key, p: Record)
    requires Linked(t) && CountsExact(t) && k in t && RecordLinked(t, k) && k.name != "" && pk != k
    requires ParentAt(t, pk, k.parentID) && p == ChildLess(t[pk], t[k].Folder?)
    ensures CountsExact(Without(t, k)[pk := p])
  {
    FolderKey(t, pk);
    hide Linked, SubFolders;
    var t' := Without(t, k)[pk := p];
    forall x <- t' | t'[x].Folder? ensures t'[x].folderCount == |SubFolders(t', t'[x].folderID)| {
      SubShrunk(t, k, pk, p, t'[x].folderID);
      CountAt(t, x);
      if x != pk && t[x].folderID == k.parentID {
        OneRecord(t, x, pk);
      }
    }
  }

  lemma {:induction false} ShrunkCounts(t: Tree, k: Key, pk: Key, p: Record)
    requires Linked(t) && ValencesExact(t) && Rooted(t) && Removable(t, k) && RecordLinked(t, k) && k.name != ""
    requires ParentAt(t, pk, k.parentID) && p == ChildLess(t[pk], t[k].Folder?)
    ensures CountsExact(t) ==> CountsExact(Without(t, k)[pk := p])
  {
    ParentIsOther(t, k, pk);
    hide Rooted, ValencesExact;
    if CountsExact(t) {
      CountsShrunk(t, k, pk, p);
    }
  }

  lemma {:induction false} SubRewritten(t: Tree, pk: Key, p: Record, id: nat)
    requires pk in t && t[pk].Folder? && p.Folder?
    ensures SubFolders(t[pk := p], id) == SubFolders(t, id)
  {
  }

  lemma {:induction false} SubWithout(t: Tree, k: Key, id: nat)
    requires k in t && RecordLinked(t, k) && k.name != ""
    ensures SubFolders(Without(t, k), id) == SubFolders(t, id) - {k}
    ensures k in SubFolders(t, id) <==> k.parentID == id && t[k].Folder?
  {
  }

  lemma {:induction false} SubWith(t: Tree, k: Key, r: Record, id: nat)
    requires !IsThread(r) && k !in t && k.name != ""
    ensures SubFolders(With(t, k, r), id) == SubFolders(t, id) - {ThreadKey(IdOf(r))} + if k.parentID == id && r.Folder? then {k} else {}
    ensures k !in SubFolders(t, id) && ThreadKey(IdOf(r)) !in SubFolders(t, id)
  {
  }

  lemma {:induction false} SubMoved(t: Tree, k: Key, pk: Key, dk: Key, dk0: Key, p: Record, d: Record, id: nat)
    requires Moving(t, k, pk, dk, dk0) && Copies(t, pk, dk0, p, d) && dk !in t && dk.name != "" && dk0 != k
    requires Hung(t, k, dk) == With(Without(t, k), dk, t[k])
    ensures var c, c' := SubFolders(t, id), SubFolders(Relocated(t, k, pk, dk, dk0, p, d), id);
      |c'| == |c| + (if dk.parentID == id && t[k].Folder? then 1 else 0) - (if k.parentID == id && t[k].Folder? then 1 else 0)
  {
    MovedHome(t, k, pk, dk, dk0, p, d);
    var w := Without(t, k);
    var h := With(w, dk, t[k]);
    assert dk !in w && RecordLinked(t, k) && k.name != "";
    hide SubFolders, Moving, Copies, Hung, Relocated, Without, With, RecordLinked;
    SubWithout(t, k, id);
    SubWith(w, dk, t[k], id);
    SubRewritten(h, pk, p, id);
    SubRewritten(h[pk := p], dk0, d, id);
  }

  lemma {:induction false} MovedHome(t: Tree, k: Key, pk: Key, dk: Key, dk0: Key, p: Record, d: Record)
    requires Moving(t, k, pk, dk, dk0) && Copies(t, pk, dk0, p, d) && dk !in t && dk.name != "" && dk0 != k
    requires Hung(t, k, dk) == With(Without(t, k), dk, t[k])
    ensures k in t && !IsThread(t[k]) && p.Folder? && d.Folder?
    ensures var h := With(Without(t, k), dk, t[k]);
      && Relocated(t, k, pk, dk, dk0, p, d) == h[pk := p][dk0 := d]
      && pk in h && h[pk].Folder? && dk0 in h && h[dk0].Folder?
  {
  }

  lemma {:induction false} MovedAt(t: Tree, k: Key, pk: Key, dk: Key, dk0: Key, p: Record, d: Record, x: Key)
    requires Moving(t, k, pk, dk, dk0) && Copies(t, pk, dk0, p, d) && dk !in t && dk.name != "" && dk0 != k && pk != dk0
    requires Hung(t, k, dk) == With(Without(t, k), dk, t[k])
    ensures pk in Relocated(t, k, pk, dk, dk0, p, d) && Relocated(t, k, pk, dk, dk0, p, d)[pk] == p
    ensures x in Relocated(t, k, pk, dk, dk0, p, d) ==>
      Relocated(t, k, pk, dk, dk0, p, d)[x] ==
        (if x == pk then p else if x == dk0 then d else if x == dk then t[k]
         else if x == ThreadKey(IdOf(t[k])) then ThreadOf(dk, t[k]) else if x in t then t[x] else p)
    ensures x in Relocated(t, k, pk, dk, dk0, p, d) ==> x in t || x == dk
  {
  }

  // A move counts no folders: the counts stay exact just when it is a file that goes to another folder.
  lemma {:induction false} CountsMoved(t: Tree, k: Key, pk: Key, dk: Key, dk0: Key, p: Record, d: Record)
    requires Linked(t) && CountsExact(t) && Moving(t, k, pk, dk, dk0) && Copies(t, pk, dk0, p, d)
    requires dk !in t && k.parentID != dk.parentID && dk0 != k
    ensures CountsExact(Relocated(t, k, pk, dk, dk0, p, d)) <==> t[k].File?
  {
    LinkedAt(t, k);
    HungFree(t, k, pk, dk, dk0);
    hide Linked, SubFolders, Moving, Copies, Hung, Without, With;
    var t' := Relocated(t, k, pk, dk, dk0, p, d);
    MovedParts(t, k, pk, dk, dk0, p, d);
    hide Relocated;
    MovedAt(t, k, pk, dk, dk0, p, d, pk);
    CountAt(t, pk);
    SubMoved(t, k, pk, dk, dk0, p, d, p.folderID);
    if t[k].File? {
      forall x <- t' | t'[x].Folder? ensures t'[x].folderCount == |SubFolders(t', t'[x].folderID)| {
        MovedAt(t, k, pk, dk, dk0, p, d, x);
        SubMoved(t, k, pk, dk, dk0, p, d, t'[x].folderID);
        CountAt(t, x);
      }
    } else if CountsExact(t') {
      CountAt(t', pk);
    }
  }

  lemma {:induction false} OwnTarget(t: Tree, k: Key, pk: Key, dk: Key, dk0: Key)
    requires Moving(t, k, pk, dk, dk0)
    ensures dk0 == k ==> MovesInside(t, k, dk.parentID)
  {
    assert dk0 == k ==> Passes(t, dk.parentID, t[k].folderID, 0);
  }

  lemma {:induction false} MoveCounts(t: Tree, k: Key, pk: Key, dk: Key, dk0: Key, p: Record, d: Record)
    requires Linked(t) && Moving(t, k, pk, dk, dk0) && Copies(t, pk, dk0, p, d)
    ensures k in t && !IsThread(t[k])
    ensures CountsExact(t) && dk !in t && k.parentID != dk.parentID && !MovesInside(t, k, dk.parentID) ==>
      (CountsExact(Relocated(t, k, pk, dk, dk0, p, d)) <==> t[k].File?)
  {
    if CountsExact(t) && dk !in t && k.parentID != dk.parentID && !MovesInside(t, k, dk.parentID) {
      OwnTarget(t, k, pk, dk, dk0);
      hide Moving, Copies, Linked, CountsExact, Relocated;
      CountsMoved(t, k, pk, dk, dk0, p, d);
    }
  }

  lemma {:induction false} MovedParts(t: Tree, k: Key, pk: Key, dk: Key, dk0: Key, p: Record, d: Record)
    requires Moving(t, k, pk, dk, dk0) && Copies(t, pk, dk0, p, d) && k.parentID != dk.parentID
    ensures pk != dk0 && k in t && !IsThread(t[k]) && pk in t && t[pk].Folder? && dk0 in t && t[dk0].Folder?
    ensures p.Folder? && p.folderID == t[pk].folderID == k.parentID && p.folderCount == t[pk].folderCount
    ensures d.Folder? && d.folderID == t[dk0].folderID && d.folderCount == t[dk0].folderCount
  {
  }

  /* ----- The catalog, changed in place ----- */

  // Undefined: the code would take a record for something it is not.
  datatype Outcome = Moved | Refused | Undefined

  predicate Updatable(t: Tree, record: Record)
    requires !IsThread(record)
  {
    && ThreadKey(IdOf(record)) in t && IsThread(t[ThreadKey(IdOf(record))])
    && var key := Target(t[ThreadKey(IdOf(record))]);
      key in t && !IsThread(t[key]) && t[key].Folder? == record.Folder?
  }

  predicate ParentAt(t: Tree, pk: Key, id: nat) { pk in t && t[pk].Folder? && t[pk].folderID == id }

  // A parent's record with one child more.
  function ChildMore(p: Record, folder: bool): Record
    requires p.Folder?
  {
    Folder(p.folderID, p.valence + 1, p.folderCount + if folder then 1 else 0)
  }

  // And with one less.
  function ChildLess(p: Record, folder: bool): Record
    requires p.Folder?
  {
    Folder(p.folderID, p.valence - 1, p.folderCount - if folder then 1 else 0)
  }

  lemma {:induction false} SoundIs(t: Tree, next: nat, files: int, folders: int)
    requires Sound(t, next, files, folders)
    ensures Linked(t) && Below(t, next) && next != 0
  {
    hide Linked, Rooted, ValencesExact, InFoldersBut, Files, Folders;
  }

  lemma {:induction false} SoundLinked(t: Tree, next: nat, files: int, folders: int)
    ensures Sound(t, next, files, folders) ==> Linked(t)
  {
    hide Linked, Rooted, ValencesExact, InFoldersBut, Files, Folders;
  }

  lemma {:induction false} FromWithout(t: Tree, k: Key, pk: Key, dk: Key, dk0: Key)
    requires Moving(t, k, pk, dk, dk0)
    ensures k in t && k.name != "" && !IsThread(t[k])
    ensures dk in t ==> dk in Without(t, k) || dk == k || dk == ThreadKey(IdOf(t[k]))
  {
  }

  lemma {:induction false} NotFolder(t: Tree, id: nat, record: Option<Record>, key: Key)
    requires Linked(t)
    requires record.None? ==> forall k <- t :: k.name != "" ==> IdOf(t[k]) != id
    requires record.Some? ==> key in t && key.name != "" && record.value == t[key] && IdOf(record.value) == id && !record.value.Folder?
    ensures forall k <- t :: t[k].Folder? ==> t[k].folderID != id
  {
    forall k <- t | t[k].Folder? ensures t[k].folderID != id {
      LinkedAt(t, k);
      if record.Some? && t[k].folderID == id {
        OneRecord(t, k, key);
      }
    }
  }

  function RootOnly(volumeName: Name): Tree {
    map[Key(ROOT_PARENT, volumeName) := Folder(ROOT, 0, 0), ThreadKey(ROOT) := FolderThread(ROOT_PARENT, volumeName)]
  }

  lemma {:induction false} RootOnlySound(volumeName: Name)
    requires volumeName != ""
    ensures Sound(RootOnly(volumeName), 16, 0, 0)
  {
    var t := RootOnly(volumeName);
    assert Children(t.Keys, ROOT) == {};
    assert Files(t) == {} && Folders(t) == {Key(ROOT_PARENT, volumeName)};
    assert Climbs(t, ROOT, 0);
  }

  lemma {:induction false} RootOnlyCounts(volumeName: Name)
    requires volumeName != ""
    ensures CountsExact(RootOnly(volumeName))
  {
    assert SubFolders(RootOnly(volumeName), ROOT) == {};
  }

  class Catalog {
    var tree: Tree
    var nextCatalogID: nat
    var fileCount: int
    var folderCount: int

    ghost predicate Valid() reads this { Sound(tree, nextCatalogID, fileCount, folderCount) }

    // What the folders say of their subfolders; a move does not keep it.
    ghost predicate Counted() reads this { CountsExact(tree) }

    // A new volume's catalog: the root folder and its thread.
    constructor (volumeName: Name)
      requires volumeName != ""
      ensures Valid() && Counted() && tree == RootOnly(volumeName) && nextCatalogID == 16 && fileCount == folderCount == 0
      ensures tree == map[Key(1, volumeName) := Folder(2, 0, 0), Key(2, "") := FolderThread(1, volumeName)]
    {
      tree, nextCatalogID, fileCount, folderCount := RootOnly(volumeName), 16, 0, 0;
      new;
      RootOnlySound(volumeName);
      RootOnlyCounts(volumeName);
    }

    // Two searches: the thread, and the record it leads to.
    method GetRecordByCNID(cnid: nat) returns (record: Option<Record>, ghost key: Key)
      requires Linked(tree)
      ensures record.None? <==> forall k <- tree :: k.name != "" ==> IdOf(tree[k]) != cnid
      ensures record.Some? ==> key in tree && key.name != "" && record.value == tree[key] && IdOf(record.value) == cnid
    {
      key := ThreadKey(cnid);
      if ThreadKey(cnid) !in tree {
        return None, key;
      }
      var thread := tree[ThreadKey(cnid)];
      var found := Target(thread);
      key := found;
      if found !in tree {
        return None, key;
      }
      return Some(tree[found]), key;
    }

    // The record is found through its thread, removed, and added again with new contents.  Not defined where the
    // code would take a record for something it is not.
    method UpdateCatalog(record: Record) returns (defined: bool)
      requires !IsThread(record)
      modifies this`tree
      ensures defined == Updatable(old(tree), record)
      ensures tree == if defined then old(tree)[Target(old(tree)[ThreadKey(IdOf(record))]) := record] else old(tree)
    {
      if ThreadKey(IdOf(record)) !in tree || !IsThread(tree[ThreadKey(IdOf(record))]) {
        return false;
      }
      var key := Target(tree[ThreadKey(IdOf(record))]);
      if key !in tree || IsThread(tree[key]) || tree[key].Folder? != record.Folder? {
        return false;
      }
      tree := tree - {key};
      tree := Added(tree, key, record);
      return true;
    }

    // The parent has been looked up by its path; the new folder's number is handed back, zero when it has no parent.
    method NewFolder(parentID: nat, name: Name) returns (id: nat)
      requires Valid()
      modifies this
      ensures id == 0 ==> unchanged(this)
      ensures id == 0 <==> forall k <- old(tree) :: old(tree)[k].Folder? ==> old(tree)[k].folderID != parentID
      ensures id != 0 ==> id == old(nextCatalogID) && (Valid() <==> Key(parentID, name) !in old(tree))
      ensures id != 0 ==> nextCatalogID == id + 1 && fileCount == old(fileCount) && folderCount == old(folderCount) + 1 && exists pk ::
        ParentAt(old(tree), pk, parentID)
        && tree == Entry(old(tree), Key(parentID, name), Folder(id, 0, 0), ChildMore(old(tree)[pk], true), pk)
      ensures id != 0 && old(Counted()) && Key(parentID, name) !in old(tree) ==> Counted()
    {
      hide Linked, Rooted, ValencesExact, InFoldersBut, Files, Folders, Below;
      var parent, parentKey := GetRecordByCNID(parentID);
      if parent.None? || !parent.value.Folder? {
        NotFolder(tree, parentID, parent, parentKey);
        return 0;
      }
      SoundIs(tree, nextCatalogID, fileCount, folderCount);
      id := nextCatalogID;
      ghost var k, r, p := Key(parentID, name), Folder(id, 0, 0), ChildMore(parent.value, true);
      EntryUpdates(tree, id, k, r, parentKey, p);
      EntrySound(tree, id, fileCount, folderCount, k, r, parentKey, p);
      EntryCounts(tree, id, k, r, parentKey, p);
      Opened();
      hide *;
      nextCatalogID := nextCatalogID + 1;
      folderCount := folderCount + 1;
      tree := Added(tree, Key(parentID, name), Folder(id, 0, 0));
      tree := Added(tree, ThreadKey(id), FolderThread(parentID, name));
      var _ := UpdateCatalog(ChildMore(parent.value, true));
      Opened();
    }

    lemma {:induction false} Opened()
      ensures Valid() <==> Sound(tree, nextCatalogID, fileCount, folderCount)
    {
    }

    method NewFile(parentID: nat, name: Name) returns (id: nat)
      requires Valid()
      modifies this
      ensures id == 0 ==> unchanged(this)
      ensures id == 0 <==> forall k <- old(tree) :: old(tree)[k].Folder? ==> old(tree)[k].folderID != parentID
      ensures id != 0 ==> id == old(nextCatalogID) && (Valid() <==> Key(parentID, name) !in old(tree))
      ensures id != 0 ==> nextCatalogID == id + 1 && fileCount == old(fileCount) + 1 && folderCount == old(folderCount) && exists pk ::
        ParentAt(old(tree), pk, parentID)
        && tree == Entry(old(tree), Key(parentID, name), File(id), ChildMore(old(tree)[pk], false), pk)
      ensures id != 0 && old(Counted()) && Key(parentID, name) !in old(tree) ==> Counted()
    {
      hide Linked, Rooted, ValencesExact, InFoldersBut, Files, Folders, Below;
      var parent, parentKey := GetRecordByCNID(parentID);
      if parent.None? || !parent.value.Folder? {
        NotFolder(tree, parentID, parent, parentKey);
        return 0;
      }
      SoundIs(tree, nextCatalogID, fileCount, folderCount);
      id := nextCatalogID;
      ghost var k, r, p := Key(parentID, name), File(id), ChildMore(parent.value, false);
      EntryUpdates(tree, id, k, r, parentKey, p);
      EntrySound(tree, id, fileCount, folderCount, k, r, parentKey, p);
      EntryCounts(tree, id, k, r, parentKey, p);
      Opened();
      hide *;
      nextCatalogID := nextCatalogID + 1;
      fileCount := fileCount + 1;
      tree := Added(tree, Key(parentID, name), File(id));
      tree := Added(tree, ThreadKey(id), FileThread(parentID, name));
      var _ := UpdateCatalog(ChildMore(parent.value, false));
      Opened();
    }

    // The file's blocks and the attributes are given back elsewhere.
    method RemoveFile(parentID: nat, name: Name) returns (removed: bool)
      requires Valid() && name != "" && parentID != ROOT_PARENT
      modifies this
      ensures Valid() && (!removed ==> unchanged(this))
      ensures removed <==> Key(parentID, name) in old(tree) && (old(tree)[Key(parentID, name)].Folder? ==>
        Children(old(tree).Keys, old(tree)[Key(parentID, name)].folderID) == {})
      ensures removed ==> nextCatalogID == old(nextCatalogID) && exists pk, p ::
        ParentLess(old(tree), pk, parentID, p) && tree == Without(old(tree), Key(parentID, name))[pk := p]
        && p == ChildLess(old(tree)[pk], old(tree)[Key(parentID, name)].Folder?)
      ensures removed && old(Counted()) ==> Counted()
    {
      hide Linked, Rooted, ValencesExact, InFoldersBut, Files, Folders, Below, Children;
      var key := Key(parentID, name);
      if key !in tree {
        return false;
      }
      LinkedAt(tree, key);
      var record := tree[key];
      var parent, parentKey := GetRecordByCNID(parentID);
      ParentThere(tree, key, parent, parentKey);
      if parent.None? || !parent.value.Folder? {
        return false;
      }
      EmptyWhen(tree, key);
      if record.Folder? && record.valence > 0 {
        return false;
      }
      var p := Folder(parentID, parent.value.valence - 1, parent.value.folderCount - if record.Folder? then 1 else 0);
      ShrunkSound(tree, nextCatalogID, fileCount, folderCount, key, parentKey, p);
      ShrunkCounts(tree, key, parentKey, p);
      Opened();
      hide *;
      tree := tree - {key};
      tree := tree - {ThreadKey(IdOf(record))};
      if record.File? {
        fileCount := fileCount - 1;
      } else {
        folderCount := folderCount - 1;
      }
      var _ := UpdateCatalog(p);
      Opened();
      removed := true;
    }

    // Both parents are read before the record moves, and written back after it.
    method Move(source: Key, destID: nat, destName: Name) returns (outcome: Outcome)
      requires Valid() && source.name != "" && source.parentID != ROOT_PARENT
      modifies this`tree
      ensures outcome.Refused? ==> unchanged(this)
      ensures outcome.Refused? <==> source !in old(tree) || forall k <- old(tree) :: old(tree)[k].Folder? ==> old(tree)[k].folderID != destID
      ensures outcome.Undefined? ==> Key(destID, destName) in old(tree) && GoesInside(old(tree), source, destID)
      ensures outcome.Moved? ==> (Valid() <==>
        Key(destID, destName) !in old(tree) && source.parentID != destID && !MovesInside(old(tree), source, destID))
      ensures outcome.Moved? && Key(destID, destName) !in old(tree) ==> exists pk, dk0, p, d ::
        Moving(old(tree), source, pk, Key(destID, destName), dk0) && Copies(old(tree), pk, dk0, p, d)
        && tree == Relocated(old(tree), source, pk, Key(destID, destName), dk0, p, d)
      ensures !outcome.Refused? ==> exists pk, dk0, p, d ::
        Moving(old(tree), source, pk, Key(destID, destName), dk0) && Copies(old(tree), pk, dk0, p, d)
        && MoveSteps(old(tree), source, Key(destID, destName), p, d, outcome.Moved?, tree)
      ensures outcome.Moved? && Valid() && old(Counted()) ==> (Counted() <==> old(tree)[source].File?)
    {
      hide Linked, Rooted, ValencesExact, InFoldersBut, Files, Folders, Below, Children;
      if source !in tree {
        return Refused;
      }
      LinkedAt(tree, source);
      var record := tree[source];
      var parent, pk := GetRecordByCNID(source.parentID);
      ParentThere(tree, source, parent, pk);
      if parent.None? || !parent.value.Folder? {
        return Refused;
      }
      var dest, dk0 := GetRecordByCNID(destID);
      if dest.None? || !dest.value.Folder? {
        NotFolder(tree, destID, dest, dk0);
        return Refused;
      }
      ghost var t, dk := tree, Key(destID, destName);
      var p := Folder(source.parentID, parent.value.valence - 1, parent.value.folderCount);
      var d := Folder(destID, dest.value.valence + 1, dest.value.folderCount);
      ParentIsOther(t, source, pk);
      MovingIs(t, source, pk, dk, dk0, parent.value, dest.value, p, d);
      Opened();
      MoveEndsIs(t, nextCatalogID, fileCount, folderCount, source, pk, dk, dk0, p, d);
      MoveCounts(t, source, pk, dk, dk0, p, d);
      MoveStepsIs(t, source, dk, p, d);
      HungIs(t, source, dk);
      InsideWhen(t, source, pk, dk, dk0, p, d);
      hide *;
      tree := tree - {source};
      tree := tree - {ThreadKey(IdOf(record))};
      tree := Added(tree, Key(destID, destName), record);
      tree := Added(tree, ThreadKey(IdOf(record)), ThreadOf(Key(destID, destName), record));
      HungOutcome(t, nextCatalogID, fileCount, folderCount, source, pk, dk, dk0, p, d);
      var defined := UpdateBoth(p, d);
      outcome := if defined then Moved else Undefined;
      Opened();
    }

    method UpdateBoth(p: Record, d: Record) returns (defined: bool)
      requires !IsThread(p) && !IsThread(d)
      modifies this`tree
      ensures defined == TwoUpdates(old(tree), p, d)
      ensures defined ==> tree == Updated(Updated(old(tree), p), d)
    {
      NotTwo(tree, p, d);
      hide *;
      ghost var h := tree;
      defined := UpdateCatalog(p);
      if defined {
        UpdatedIs(h, p);
        ghost var h' := tree;
        defined := UpdateCatalog(d);
        if defined {
          UpdatedIs(h', d);
        }
      }
    }
  }

  // The tree a move leaves: sound just when the key was free, the folder is another one, and no folder went into itself.
  ghost predicate MoveEnds(t: Tree, next: nat, files: int, folders: int, k: Key, pk: Key, dk: Key, dk0: Key, p: Record, d: Record, t': Tree)
    requires k in t && !IsThread(t[k])
  {
    && (Sound(t', next, files, folders) <==> dk !in t && k.parentID != dk.parentID && !MovesInside(t, k, dk.parentID))
    && (dk !in t ==> t' == Relocated(t, k, pk, dk, dk0, p, d))
  }

  // The steps of a move: the record is taken out and put back, and both parents are written, if they can be.
  ghost predicate MoveSteps(t: Tree, k: Key, dk: Key, p: Record, d: Record, defined: bool, t': Tree)
    requires k in t && !IsThread(t[k])
  {
    && (defined <==> TwoUpdates(Hung(t, k, dk), p, d))
    && (defined ==> t' == Updated(Updated(Hung(t, k, dk), p), d))
  }

  lemma {:induction false} MoveStepsIs(t: Tree, k: Key, dk: Key, p: Record, d: Record)
    requires k in t && !IsThread(t[k])
    ensures forall defined, t' :: (defined <==> TwoUpdates(Hung(t, k, dk), p, d)) && (defined ==> t' == Updated(Updated(Hung(t, k, dk), p), d)) ==>
      MoveSteps(t, k, dk, p, d, defined, t')
  {
    hide Hung, Updated, TwoUpdates;
  }

  // Moving a folder right into itself.
  ghost predicate GoesInside(t: Tree, k: Key, destID: nat) { k in t && t[k].Folder? && t[k].folderID == destID }

  // Moving a folder into itself or below itself.
  ghost predicate MovesInside(t: Tree, k: Key, destID: nat) {
    k in t && t[k].Folder? && Inside(t, destID, t[k].folderID)
  }

  lemma {:induction false} HungIs(t: Tree, k: Key, dk: Key)
    requires k in t && !IsThread(t[k])
    ensures Hung(t, k, dk) ==
      Added(Added(t - {k} - {ThreadKey(IdOf(t[k]))}, dk, t[k]), ThreadKey(IdOf(t[k])), ThreadOf(dk, t[k]))
  {
  }

  lemma {:induction false} MoveEndsIs(t: Tree, next: nat, files: int, folders: int, k: Key, pk: Key, dk: Key, dk0: Key, p: Record, d: Record)
    requires k in t && !IsThread(t[k])
    ensures forall t' :: MoveEnds(t, next, files, folders, k, pk, dk, dk0, p, d, t') ==>
      (Sound(t', next, files, folders) <==> dk !in t && k.parentID != dk.parentID && !MovesInside(t, k, dk.parentID))
      && (dk !in t ==> t' == Relocated(t, k, pk, dk, dk0, p, d))
  {
    hide Sound, Relocated, MovesInside;
  }

  lemma {:induction false} MovingIs(t: Tree, k: Key, pk: Key, dk: Key, dk0: Key, parent: Record, dest: Record, p: Record, d: Record)
    requires Linked(t) && k in t && k.name != "" && k.parentID != ROOT_PARENT && RecordLinked(t, k) && pk != k
    requires pk in t && pk.name != "" && parent == t[pk] && parent.Folder? && parent.folderID == k.parentID
    requires dk0 in t && dk0.name != "" && dest == t[dk0] && dest.Folder? && dest.folderID == dk.parentID
    requires p == Folder(k.parentID, parent.valence - 1, parent.folderCount) && d == Folder(dk.parentID, dest.valence + 1, dest.folderCount)
    ensures Moving(t, k, pk, dk, dk0) && Copies(t, pk, dk0, p, d)
  {
  }

  // What the two updates lead to.
  ghost function Updated(t: Tree, r: Record): Tree
    requires !IsThread(r) && Updatable(t, r)
  {
    t[Target(t[ThreadKey(IdOf(r))]) := r]
  }

  lemma {:induction false} HungOutcome(t: Tree, next: nat, files: int, folders: int, k: Key, pk: Key, dk: Key, dk0: Key, p: Record, d: Record)
    requires Sound(t, next, files, folders) && Moving(t, k, pk, dk, dk0) && Copies(t, pk, dk0, p, d)
    ensures dk !in t ==> TwoUpdates(Hung(t, k, dk), p, d)
    ensures TwoUpdates(Hung(t, k, dk), p, d) ==>
      MoveEnds(t, next, files, folders, k, pk, dk, dk0, p, d, Updated(Updated(Hung(t, k, dk), p), d))
  {
    hide Moving, Copies, Sound, Hung, Without, Updated, TwoUpdates, MovesInside, Relocated;
    SoundIs(t, next, files, folders);
    FromWithout(t, k, pk, dk, dk0);
    if dk in Without(t, k) {
      TakenOutcome(t, next, files, folders, k, dk, p, d);
    } else if dk == ThreadKey(IdOf(t[k])) {
      OntoThread(t, k, pk, dk, dk0, p, d);
    } else {
      FreeOutcome(t, next, files, folders, k, pk, dk, dk0, p, d);
    }
  }

  lemma {:induction false} UpdatedIs(t: Tree, r: Record)
    requires !IsThread(r) && Updatable(t, r)
    ensures Updated(t, r) == t[Target(t[ThreadKey(IdOf(r))]) := r]
  {
  }

  lemma {:induction false} NotTwo(h: Tree, p: Record, d: Record)
    requires !IsThread(p) && !IsThread(d)
    ensures TwoUpdates(h, p, d) <==> Updatable(h, p) && Updatable(Updated(h, p), d)
  {
  }

  ghost predicate TwoUpdates(h: Tree, p: Record, d: Record) {
    !IsThread(p) && !IsThread(d) && Updatable(h, p) && Updatable(Updated(h, p), d)
  }

  lemma {:induction false} TakenOutcome(t: Tree, next: nat, files: int, folders: int, k: Key, dk: Key, p: Record, d: Record)
    requires Linked(t) && k in t && k.name != "" && !IsThread(t[k]) && dk in Without(t, k)
    ensures dk in t
    ensures TwoUpdates(Hung(t, k, dk), p, d) ==> !Sound(Updated(Updated(Hung(t, k, dk), p), d), next, files, folders)
  {
    var h := Hung(t, k, dk);
    HungTaken(t, k, dk);
    if TwoUpdates(h, p, d) {
      var t' := Updated(Updated(h, p), d);
      forall z | z in h && IsThread(h[z]) ensures z in t' && t'[z] == h[z] {
        UpdateKeeps(h, p, z);
        UpdateKeeps(Updated(h, p), d, z);
      }
      hide *;
      TakenMove(t, k, dk, t');
      SoundLinked(t', next, files, folders);
    }
  }

  lemma {:induction false} FreeOutcome(t: Tree, next: nat, files: int, folders: int, k: Key, pk: Key, dk: Key, dk0: Key, p: Record, d: Record)
    requires Sound(t, next, files, folders) && Moving(t, k, pk, dk, dk0) && Copies(t, pk, dk0, p, d)
    requires dk !in Without(t, k) && dk != ThreadKey(IdOf(t[k]))
    ensures k in t && !IsThread(t[k]) && TwoUpdates(Hung(t, k, dk), p, d)
    ensures Updated(Updated(Hung(t, k, dk), p), d) == Relocated(t, k, pk, dk, dk0, p, d)
    ensures Sound(Relocated(t, k, pk, dk, dk0, p, d), next, files, folders) <==>
      dk !in t && k.parentID != dk.parentID && !MovesInside(t, k, dk.parentID)
  {
    hide *;
    SoundIs(t, next, files, folders);
    FromWithout(t, k, pk, dk, dk0);
    HungUpdates(t, k, pk, dk, dk0, p, d);
    RelocatedSound(t, next, files, folders, k, pk, dk, dk0, p, d);
    FreeKey(t, k, dk);
  }

  lemma {:induction false} FreeKey(t: Tree, k: Key, dk: Key)
    requires k in t && !IsThread(t[k]) && dk !in Without(t, k) && dk != ThreadKey(IdOf(t[k]))
    ensures dk in t ==> dk.parentID == k.parentID
    ensures MovesInside(t, k, dk.parentID) <==> t[k].Folder? && Inside(t, dk.parentID, t[k].folderID)
  {
    hide Inside;
  }

  lemma {:induction false} InsideWhen(t: Tree, k: Key, pk: Key, dk: Key, dk0: Key, p: Record, d: Record)
    requires Linked(t) && Moving(t, k, pk, dk, dk0) && Copies(t, pk, dk0, p, d)
    ensures k in t && !IsThread(t[k]) && (!TwoUpdates(Hung(t, k, dk), p, d) ==> GoesInside(t, k, dk.parentID))
  {
    hide Linked, Hung, TwoUpdates;
    if dk0 != k {
      UndefinedWhen(t, k, pk, dk, dk0, p, d);
    }
  }

  // Only a folder that goes into itself makes the code take a record for something it is not.
  lemma {:induction false} UndefinedWhen(t: Tree, k: Key, pk: Key, dk: Key, dk0: Key, p: Record, d: Record)
    requires Linked(t) && Moving(t, k, pk, dk, dk0) && Copies(t, pk, dk0, p, d) && dk0 != k
    ensures k in t && !IsThread(t[k]) && TwoUpdates(Hung(t, k, dk), p, d)
  {
    FolderKey(t, dk0);
    if dk in Without(t, k) {
      HungStays(t, k, dk, pk);
      HungStays(t, k, dk, dk0);
      var h := Hung(t, k, dk);
      hide Linked, Hung, Without;
      assert Updated(h, p) == h[pk := p];
    } else {
      FolderOnly(t, k, dk0);
      HungUpdates(t, k, pk, dk, dk0, p, d);
    }
  }

  lemma {:induction false} HungStays(t: Tree, k: Key, dk: Key, x: Key)
    requires Linked(t) && k in t && k.name != "" && RecordLinked(t, k) && dk in Without(t, k) && x in t && t[x].Folder? && x != k
    ensures x in Hung(t, k, dk) && Hung(t, k, dk)[x] == t[x] && x.name != ""
    ensures ThreadKey(t[x].folderID) in Hung(t, k, dk)
    ensures Hung(t, k, dk)[ThreadKey(t[x].folderID)] == FolderThread(x.parentID, x.name)
  {
    FolderKey(t, x);
    FolderOnly(t, k, x);
    hide Linked;
  }

  // A folder moved into itself under no name takes the place of its own thread.
  lemma {:induction false} OntoThread(t: Tree, k: Key, pk: Key, dk: Key, dk0: Key, p: Record, d: Record)
    requires Linked(t) && Moving(t, k, pk, dk, dk0) && Copies(t, pk, dk0, p, d) && dk == ThreadKey(IdOf(t[k]))
    ensures dk in t && !TwoUpdates(Hung(t, k, dk), p, d)
  {
    var h := Hung(t, k, dk);
    FolderKey(t, pk);
    FolderOnly(t, k, pk);
    assert h[dk] == t[k] && pk != dk;
    hide Linked;
  }


  // A record that is not the root's has its parent's record in the tree.
  lemma {:induction false} ParentThere(t: Tree, k: Key, parent: Option<Record>, pk: Key)
    requires Linked(t) && InFolders(t) && k in t && k.name != "" && k.parentID != ROOT_PARENT
    requires parent.None? <==> forall x <- t :: x.name != "" ==> IdOf(t[x]) != k.parentID
    requires parent.Some? ==> pk in t && pk.name != "" && parent.value == t[pk] && IdOf(parent.value) == k.parentID
    ensures parent.Some? && parent.value.Folder?
  {
    assert IsFolder(t, k.parentID);
    LinkedAt(t, ThreadKey(k.parentID));
    var x := Target(t[ThreadKey(k.parentID)]);
    LinkedAt(t, x);
    if parent.Some? {
      LinkedAt(t, pk);
    }
  }

  lemma {:induction false} EmptyWhen(t: Tree, k: Key)
    requires ValencesExact(t) && k in t
    ensures t[k].Folder? ==> (t[k].valence <= 0 <==> Children(t.Keys, t[k].folderID) == {})
  {
  }
}
