/**
  Small runs of the catalog's methods from a volume that holds only its root:
  those that leave it sound, and one for each way in which it is not left so.
 */
module CatalogExamples {
  import opened Catalogs

  // A second file or folder under a name that is taken.
  method TakenName(folder: bool) returns (catalog: Catalog)
    ensures fresh(catalog) && !catalog.Valid()
  {
    catalog := new Catalog("volume");
    Root("volume");
    var first := catalog.NewFile(ROOT, "name");
    var second;
    if folder {
      second := catalog.NewFolder(ROOT, "name");
    } else {
      second := catalog.NewFile(ROOT, "name");
    }
  }

  lemma {:induction false} Root(volumeName: Name)
    ensures Key(ROOT_PARENT, volumeName) in RootOnly(volumeName)
    ensures RootOnly(volumeName)[Key(ROOT_PARENT, volumeName)] == Folder(ROOT, 0, 0)
  {
  }

  // A file that gets another name in its own folder.
  method Renamed() returns (catalog: Catalog)
    ensures fresh(catalog) && !catalog.Valid()
  {
    catalog := new Catalog("volume");
    var file := catalog.NewFile(ROOT, "old");
    var outcome := catalog.Move(Key(ROOT, "old"), ROOT, "new");
  }

  // What an entry leaves in the tree.
  lemma {:induction false} AfterEntry(t: Tree, k: Key, r: Record, p: Record, pk: Key)
    requires !IsThread(r) && pk in t && k !in t && ThreadKey(IdOf(r)) !in t && k.name != ""
    ensures k in Entry(t, k, r, p, pk) && Entry(t, k, r, p, pk)[k] == r
    ensures forall x: Key :: x in Entry(t, k, r, p, pk) <==> x in t || x == k || x == ThreadKey(IdOf(r))
    ensures Entry(t, k, r, p, pk)[pk] == p && (pk != ThreadKey(IdOf(r)) ==> Entry(t, k, r, p, pk)[ThreadKey(IdOf(r))] == ThreadOf(k, r))
    ensures forall x: Key :: x in t && x != pk ==> Entry(t, k, r, p, pk)[x] == t[x]
  {
  }

  // Keys with a number that has not been given out are not in the tree.
  lemma {:induction false} Unused(catalog: Catalog, id: nat, name: Name)
    requires catalog.Valid() && id >= catalog.nextCatalogID
    ensures Key(id, name) !in catalog.tree
  {
  }

  // A volume with one folder in its root.
  method OneFolder() returns (catalog: Catalog, folder: nat)
    ensures fresh(catalog) && catalog.Valid() && catalog.Counted() && folder == 16 && catalog.nextCatalogID == 17
    ensures ParentAt(catalog.tree, Key(ROOT_PARENT, "volume"), ROOT)
    ensures Key(ROOT, "folder") in catalog.tree && catalog.tree[Key(ROOT, "folder")] == Folder(16, 0, 0)
    ensures forall x <- catalog.tree :: x.parentID == ROOT_PARENT || x.name == "folder" || x.name == ""
  {
    hide Sound, Entry;
    catalog := new Catalog("volume");
    Root("volume");
    Unused(catalog, 16, "");
    ghost var t := catalog.tree;
    folder := catalog.NewFolder(ROOT, "folder");
    ghost var pk :| ParentAt(t, pk, ROOT)
      && catalog.tree == Entry(t, Key(ROOT, "folder"), Folder(16, 0, 0), ChildMore(t[pk], true), pk);
    AfterEntry(t, Key(ROOT, "folder"), Folder(16, 0, 0), ChildMore(t[pk], true), pk);
  }

  // A file that goes where another one is.
  method MovedOnto() returns (catalog: Catalog)
    ensures fresh(catalog) && !catalog.Valid()
  {
    hide Sound, Entry, MovesInside;
    var folder;
    catalog, folder := OneFolder();
    Unused(catalog, 17, "");
    ghost var t := catalog.tree;
    var one := catalog.NewFile(ROOT, "name");
    ghost var pk :| ParentAt(t, pk, ROOT) && catalog.tree == Entry(t, Key(ROOT, "name"), File(17), ChildMore(t[pk], false), pk);
    AfterEntry(t, Key(ROOT, "name"), File(17), ChildMore(t[pk], false), pk);
    Unused(catalog, 18, "");
    t := catalog.tree;
    var other := catalog.NewFile(folder, "name");
    ghost var fk :| ParentAt(t, fk, 16) && catalog.tree == Entry(t, Key(16, "name"), File(18), ChildMore(t[fk], false), fk);
    AfterEntry(t, Key(16, "name"), File(18), ChildMore(t[fk], false), fk);
    var outcome := catalog.Move(Key(ROOT, "name"), folder, "name");
  }

  // A folder that goes into another one: sound, but both parents still count what they counted before.
  method MovedFolder() returns (catalog: Catalog)
    ensures fresh(catalog) && catalog.Valid() && !catalog.Counted()
  {
    hide Sound, Entry, Inside, CountsExact;
    var folder;
    catalog, folder := OneFolder();
    Unused(catalog, 17, "");
    Unused(catalog, 17, "folder");
    ghost var t := catalog.tree;
    var other := catalog.NewFolder(ROOT, "other");
    ghost var pk :| ParentAt(t, pk, ROOT)
      && catalog.tree == Entry(t, Key(ROOT, "other"), Folder(17, 0, 0), ChildMore(t[pk], true), pk);
    AfterEntry(t, Key(ROOT, "other"), Folder(17, 0, 0), ChildMore(t[pk], true), pk);
    NotInside(catalog.tree, 17, 16);
    var outcome := catalog.Move(Key(ROOT, "folder"), other, "folder");
  }

  // A folder of the root has only itself and the root above it.
  lemma {:induction false} NotInside(t: Tree, id: nat, x: nat)
    requires ThreadKey(id) in t && t[ThreadKey(id)].FolderThread? && t[ThreadKey(id)].parentID == ROOT && x != id && x != ROOT
    ensures !Inside(t, id, x)
  {
    forall n: nat ensures !Passes(t, id, x, n) {
      if n > 0 {
        assert !Passes(t, ROOT, x, n - 1);
      }
    }
  }

  // A folder that goes into itself.
  method MovedInside() returns (catalog: Catalog)
    ensures fresh(catalog) && !catalog.Valid()
  {
    hide Sound;
    var folder;
    catalog, folder := OneFolder();
    InsideItself(catalog.tree, folder);
    hide Inside;
    var outcome := catalog.Move(Key(ROOT, "folder"), folder, "inner");
  }

  lemma {:induction false} InsideItself(t: Tree, id: nat)
    ensures Inside(t, id, id)
  {
    assert Passes(t, id, id, 0);
  }
}
