/**
  The content tables: tags, folders, links and notes of every account.

  Tags, links and notes are kept as entries. The key of an entry is the column
  that is unique within one owner (a tag's name, a link's URL; a note's title,
  which is not unique), and `data` stands for the columns copied as they are.
*/
module Library {
  import opened Wrappers
  import opened FolderGraph

  datatype Entry = Entry(owner: int, key: string, data: string, folder: Option<int>)

  datatype Folder = Folder(owner: int, name: string, parent: Option<int>)

  type Entries = map<int, Entry>

  type Folders = map<int, Folder>

  datatype Content = Content(tags: Entries, folders: Folders, links: Entries, notes: Entries)

  /** One row of an archive; folders use `FolderRow`. */
  datatype EntryRow = EntryRow(id: int, key: string, data: string, folder: Option<int>)

  datatype Snapshot = Snapshot(tags: seq<EntryRow>, folders: seq<FolderRow>, links: seq<EntryRow>, notes: seq<EntryRow>)

  predicate KeyTaken(t: Entries, uid: int, key: string) {
    exists id :: id in t && t[id].owner == uid && t[id].key == key
  }

  /** The unique index on (owner, key). */
  ghost predicate UniqueKeys(t: Entries) {
    forall a, b :: a in t && b in t && t[a].owner == t[b].owner && t[a].key == t[b].key ==> a == b
  }

  /** The foreign key from an entry to a folder of the same owner. */
  ghost predicate FolderRefs(t: Entries, folders: Folders) {
    forall id :: id in t && t[id].folder.Some?
      ==> t[id].folder.value in folders && folders[t[id].folder.value].owner == t[id].owner
  }

  /** The foreign key from a folder to a parent of the same owner. */
  ghost predicate ParentRefs(folders: Folders) {
    forall id :: id in folders && folders[id].parent.Some?
      ==> folders[id].parent.value in folders && folders[folders[id].parent.value].owner == folders[id].owner
  }

  ghost predicate Valid(c: Content) {
    && UniqueKeys(c.tags)
    && UniqueKeys(c.links)
    && ParentRefs(c.folders)
    && (forall id :: id in c.tags ==> c.tags[id].folder == None)
    && FolderRefs(c.links, c.folders)
    && FolderRefs(c.notes, c.folders)
  }

  function OwnedEntries(t: Entries, uid: int): (r: set<int>) {
    set id | id in t && t[id].owner == uid
  }

  function OwnedFolders(t: Folders, uid: int): (r: set<int>) {
    set id | id in t && t[id].owner == uid
  }

  /** `rows` are the entries of `uid` in `t`, in the order of their ids. */
  ghost predicate ListsEntries(t: Entries, uid: int, rows: seq<EntryRow>) {
    && (forall i, j :: 0 <= i < j < |rows| ==> rows[i].id < rows[j].id)
    && (forall i :: 0 <= i < |rows| ==> rows[i].id in t && t[rows[i].id] == AsEntry(rows[i], uid))
    && (forall id :: id in OwnedEntries(t, uid) ==> exists i :: 0 <= i < |rows| && rows[i].id == id)
  }

  function AsEntry(row: EntryRow, uid: int): (r: Entry) {
    Entry(uid, row.key, row.data, row.folder)
  }

  ghost predicate ListsFolders(t: Folders, uid: int, rows: seq<FolderRow>) {
    && (forall i, j :: 0 <= i < j < |rows| ==> rows[i].id < rows[j].id)
    && (forall i :: 0 <= i < |rows| ==> rows[i].id in t && t[rows[i].id] == Folder(uid, rows[i].name, rows[i].parent))
    && (forall id :: id in OwnedFolders(t, uid) ==> exists i :: 0 <= i < |rows| && rows[i].id == id)
  }

  /** What the export of `uid` writes. */
  ghost predicate IsSnapshot(c: Content, uid: int, snap: Snapshot) {
    && ListsEntries(c.tags, uid, snap.tags)
    && ListsFolders(c.folders, uid, snap.folders)
    && ListsEntries(c.links, uid, snap.links)
    && ListsEntries(c.notes, uid, snap.notes)
  }

  /** The folder reached from `id` by following `k` live parents. */
  function LiveAncestor(t: Folders, id: int, k: nat): (r: Option<int>)
    decreases k
  {
    if k == 0 then Some(id)
    else if id !in t || t[id].parent.None? then None
    else LiveAncestor(t, t[id].parent.value, k - 1)
  }

  /** No folder of `uid` lies inside itself. */
  ghost predicate LiveAcyclic(t: Folders, uid: int) {
    forall id, k: nat :: id in OwnedFolders(t, uid) && k >= 1 ==> LiveAncestor(t, id, k) != Some(id)
  }

  /** A parent named by an exported row is exported too. */
  lemma ExportedParent(t: Folders, uid: int, rows: seq<FolderRow>, i: nat)
    requires ParentRefs(t) && ListsFolders(t, uid, rows) && i < |rows|
    ensures Next(rows, i).Some? == rows[i].parent.Some?
    ensures IsFirst(rows, i)
  {
    if rows[i].parent.Some? {
      assert rows[i].parent.value in OwnedFolders(t, uid);
    }
  }

  lemma {:induction false} AncestorIsLive(t: Folders, uid: int, rows: seq<FolderRow>, i: nat, k: nat)
    requires ParentRefs(t) && ListsFolders(t, uid, rows) && i < |rows|
    ensures match Ancestor(rows, i, k)
            case Some(a) => LiveAncestor(t, rows[i].id, k) == Some(rows[a].id)
            case None => LiveAncestor(t, rows[i].id, k) == None
    decreases k
  {
    if k != 0 {
      ExportedParent(t, uid, rows, i);
      if Next(rows, i).Some? {
        AncestorIsLive(t, uid, rows, Next(rows, i).value, k - 1);
      }
    }
  }

  /** An exported row is on a cycle exactly when its folder lies inside itself. */
  lemma CycleIsLive(t: Folders, uid: int, rows: seq<FolderRow>, i: nat)
    requires ParentRefs(t) && ListsFolders(t, uid, rows) && i < |rows|
    ensures OnCycle(rows, i) <==> exists k: nat :: k >= 1 && LiveAncestor(t, rows[i].id, k) == Some(rows[i].id)
  {
    if OnCycle(rows, i) {
      var k: nat :| k >= 1 && Ancestor(rows, i, k) == Some(i);
      AncestorIsLive(t, uid, rows, i, k);
    }
    if k: nat :| k >= 1 && LiveAncestor(t, rows[i].id, k) == Some(rows[i].id) {
      AncestorIsLive(t, uid, rows, i, k);
      assert Ancestor(rows, i, k) == Some(i);
    }
  }
}
