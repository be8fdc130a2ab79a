/**
  What staging an archive inserts, and why exporting an account, wiping it and
  restoring the archive gives the account back under fresh ids.
*/
module RoundTrip {
  import opened Sets
  import opened Wrappers
  import opened FolderGraph
  import opened Library

  /** The ids reserved from the shared sequences, one per row of the archive. */
  datatype StagedIds = StagedIds(tags: seq<int>, folders: seq<int>, links: seq<int>, notes: seq<int>)

  /** Where each id of the archive ended up. */
  datatype Mapping = Mapping(tags: map<int, int>, folders: map<int, int>, links: map<int, int>, notes: map<int, int>)

  /** A sequence never returns an id twice, nor one that is already in use. */
  ghost predicate FreshIds(ids: seq<int>, n: nat, used: set<int>) {
    && |ids| == n
    && (forall i :: 0 <= i < n ==> ids[i] !in used)
    && (forall i, j :: 0 <= i < j < n ==> ids[i] != ids[j])
  }

  ghost predicate FreshStagedIds(ids: StagedIds, snap: Snapshot, c: Content) {
    && FreshIds(ids.tags, |snap.tags|, c.tags.Keys)
    && FreshIds(ids.folders, |snap.folders|, c.folders.Keys)
    && FreshIds(ids.links, |snap.links|, c.links.Keys)
    && FreshIds(ids.notes, |snap.notes|, c.notes.Keys)
  }

  predicate OneIdPerRow(ids: StagedIds, snap: Snapshot) {
    && |ids.tags| == |snap.tags|
    && |ids.folders| == |snap.folders|
    && |ids.links| == |snap.links|
    && |ids.notes| == |snap.notes|
  }

  /** The left join from an archived folder id to the staged folder. */
  function MappedFolder(folder: Option<int>, fm: map<int, int>): (r: Option<int>) {
    if folder.Some? && folder.value in fm then Some(fm[folder.value]) else None
  }

  function StagedEntry(row: EntryRow, uid: int, fm: map<int, int>): (r: Entry) {
    Entry(uid, row.key, row.data, MappedFolder(row.folder, fm))
  }

  /** Row `i` wins its key: no live entry of the owner holds it and no earlier row does. */
  ghost predicate Wins(t: Entries, uid: int, rows: seq<EntryRow>, i: nat)
    requires i < |rows|
  {
    !KeyTaken(t, uid, rows[i].key) && forall j :: 0 <= j < i ==> rows[j].key != rows[i].key
  }

  /** The first `n` rows were inserted, except where the key is already taken. */
  ghost predicate InsertedNew(t: Entries, t': Entries, uid: int, rows: seq<EntryRow>, ids: seq<int>, fm: map<int, int>,
                              n: nat)
    requires |ids| == |rows| && n <= |rows|
  {
    && (forall id :: id in t ==> id in t' && t'[id] == t[id])
    && (forall id :: id in t' && id !in t ==> exists i :: 0 <= i < n && Wins(t, uid, rows, i) && ids[i] == id)
    && (forall i :: 0 <= i < n && Wins(t, uid, rows, i)
          ==> ids[i] in t' && t'[ids[i]] == StagedEntry(rows[i], uid, fm))
  }

  /** The first `n` rows were all inserted. */
  ghost predicate InsertedAll(t: Entries, t': Entries, uid: int, rows: seq<EntryRow>, ids: seq<int>, fm: map<int, int>,
                              n: nat)
    requires |ids| == |rows| && n <= |rows|
  {
    && (forall id :: id in t ==> id in t' && t'[id] == t[id])
    && (forall id :: id in t' && id !in t ==> exists i :: 0 <= i < n && ids[i] == id)
    && (forall i :: 0 <= i < n ==> ids[i] in t' && t'[ids[i]] == StagedEntry(rows[i], uid, fm))
  }

  /** The parent recorded for staged folder `i`: its repaired parent, under its new id. */
  ghost function StagedParent(rows: seq<FolderRow>, ids: seq<int>, i: nat): (r: Option<int>)
    requires |ids| == |rows| && i < |rows|
  {
    if RepairedParent(rows, i).Some? then Some(ids[Next(rows, i).value]) else None
  }

  /** The first `n` rows were inserted, except those that repeat an id. */
  ghost predicate InsertedFolders(t: Folders, t': Folders, uid: int, rows: seq<FolderRow>, ids: seq<int>, n: nat)
    requires |ids| == |rows| && n <= |rows|
  {
    && (forall id :: id in t ==> id in t' && t'[id] == t[id])
    && (forall id :: id in t' && id !in t ==> exists i :: 0 <= i < n && IsFirst(rows, i) && ids[i] == id)
    && (forall i :: 0 <= i < n && IsFirst(rows, i)
          ==> ids[i] in t' && t'[ids[i]] == Folder(uid, rows[i].name, StagedParent(rows, ids, i)))
  }

  /** Every archived folder id resolves to the new id of its first row. */
  ghost predicate IsFolderMap(rows: seq<FolderRow>, ids: seq<int>, fm: map<int, int>)
    requires |ids| == |rows|
  {
    && (forall id :: id in fm ==> exists i :: 0 <= i < |rows| && IsFirst(rows, i) && rows[i].id == id)
    && (forall i :: 0 <= i < |rows| && IsFirst(rows, i) ==> rows[i].id in fm && fm[rows[i].id] == ids[i])
  }

  /** Every archived id resolves to the live entry that carries its key. */
  ghost predicate IsKeyMap(t: Entries, uid: int, rows: seq<EntryRow>, m: map<int, int>) {
    && (forall i :: 0 <= i < |rows| ==> rows[i].id in m)
    && (forall id :: id in m ==> exists i :: 0 <= i < |rows| && rows[i].id == id
                                   && m[id] in t && t[m[id]].owner == uid && t[m[id]].key == rows[i].key)
  }

  /** Every archived note id resolves to the new id of one of its rows. */
  ghost predicate IsNoteMap(rows: seq<EntryRow>, ids: seq<int>, m: map<int, int>)
    requires |ids| == |rows|
  {
    && (forall i :: 0 <= i < |rows| ==> rows[i].id in m)
    && (forall id :: id in m ==> exists i :: 0 <= i < |rows| && rows[i].id == id && m[id] == ids[i])
  }

  /** `c'` is `c` after restoring `snap` into the account of `uid`, skipping what is already there. */
  ghost predicate Restored(c: Content, c': Content, uid: int, snap: Snapshot, ids: StagedIds, m: Mapping)
    requires OneIdPerRow(ids, snap)
  {
    && InsertedNew(c.tags, c'.tags, uid, snap.tags, ids.tags, map[], |snap.tags|)
    && InsertedFolders(c.folders, c'.folders, uid, snap.folders, ids.folders, |snap.folders|)
    && InsertedNew(c.links, c'.links, uid, snap.links, ids.links, m.folders, |snap.links|)
    && InsertedAll(c.notes, c'.notes, uid, snap.notes, ids.notes, m.folders, |snap.notes|)
    && IsKeyMap(c'.tags, uid, snap.tags, m.tags)
    && IsFolderMap(snap.folders, ids.folders, m.folders)
    && IsKeyMap(c'.links, uid, snap.links, m.links)
    && IsNoteMap(snap.notes, ids.notes, m.notes)
  }

  function WithoutEntries(t: Entries, uid: int): (r: Entries) {
    map id | id in t && t[id].owner != uid :: t[id]
  }

  function WithoutFolders(t: Folders, uid: int): (r: Folders) {
    map id | id in t && t[id].owner != uid :: t[id]
  }

  /** Wiping one account. */
  function Wiped(c: Content, uid: int): (r: Content) {
    Content(WithoutEntries(c.tags, uid), WithoutFolders(c.folders, uid),
            WithoutEntries(c.links, uid), WithoutEntries(c.notes, uid))
  }

  /**
    `m` carries the entries of `uid` in `t` one to one onto those in `t'`, with
    nothing changed but the id, and the folder renamed along `fm`.
  */
  ghost predicate SameEntries(t: Entries, t': Entries, uid: int, m: map<int, int>, fm: map<int, int>) {
    && m.Keys == OwnedEntries(t, uid)
    && (forall a, b :: a in m && b in m && m[a] == m[b] ==> a == b)
    && (forall id :: id in OwnedEntries(t', uid) ==> exists a :: a in m && m[a] == id)
    && (forall a :: a in m ==> m[a] in t' && (t[a].folder.Some? ==> t[a].folder.value in fm)
                                && t'[m[a]] == t[a].(folder := MappedFolder(t[a].folder, fm)))
  }

  /** `fm` carries the folder tree of `uid` in `t` onto the one in `t'`. */
  ghost predicate SameTree(t: Folders, t': Folders, uid: int, fm: map<int, int>) {
    && fm.Keys == OwnedFolders(t, uid)
    && (forall a, b :: a in fm && b in fm && fm[a] == fm[b] ==> a == b)
    && (forall id :: id in OwnedFolders(t', uid) ==> exists a :: a in fm && fm[a] == id)
    && (forall a :: a in fm ==> fm[a] in t' && (t[a].parent.Some? ==> t[a].parent.value in fm)
                                 && t'[fm[a]] == t[a].(parent := MappedFolder(t[a].parent, fm)))
  }

  /** No live row of the owner holds the key, and no earlier row of the archive does. */
  ghost predicate IsNew(t: Entries, uid: int, rows: seq<EntryRow>, i: nat)
    requires i < |rows|
  {
    && (forall id :: id in t && t[id].owner == uid ==> t[id].key != rows[i].key)
    && forall j :: 0 <= j < i ==> rows[j].key != rows[i].key
  }

  /**
    Restoring beside what is there: a row goes in exactly when its key is new, as
    it was archived but in its new folder; what was there stays.
  */
  lemma GoesInExactly(t: Entries, t': Entries, uid: int, rows: seq<EntryRow>, ids: seq<int>, fm: map<int, int>, i: nat)
    requires FreshIds(ids, |rows|, t.Keys) && InsertedNew(t, t', uid, rows, ids, fm, |rows|) && i < |rows|
    ensures forall id :: id in t ==> id in t' && t'[id] == t[id]
    ensures ids[i] in t' <==> IsNew(t, uid, rows, i)
    ensures ids[i] in t' ==>
      && t'[ids[i]].owner == uid && t'[ids[i]].key == rows[i].key && t'[ids[i]].data == rows[i].data
      && t'[ids[i]].folder == if rows[i].folder.Some? && rows[i].folder.value in fm then Some(fm[rows[i].folder.value])
                              else None
  {
    assert IsNew(t, uid, rows, i) <==> Wins(t, uid, rows, i);
  }

  /** Every row of every other owner is exactly as it was, and no other owner gained one. */
  ghost predicate OthersKept(c: Content, c': Content, uid: int) {
    Wiped(c', uid) == Wiped(c, uid)
  }

  /** Rows listed from a table and inserted under fresh ids are the same entries. */
  lemma ListedEntriesReturn(t: Entries, t': Entries, uid: int, rows: seq<EntryRow>, ids: seq<int>,
                            fm: map<int, int>, m: map<int, int>)
    requires ListsEntries(t, uid, rows) && FreshIds(ids, |rows|, t.Keys)
    requires InsertedAll(WithoutEntries(t, uid), t', uid, rows, ids, fm, |rows|)
    requires m.Keys == OwnedEntries(t, uid)
    requires forall i :: 0 <= i < |rows| ==> rows[i].id in m && m[rows[i].id] == ids[i]
    requires forall id :: id in OwnedEntries(t, uid) && t[id].folder.Some? ==> t[id].folder.value in fm
    ensures SameEntries(t, t', uid, m, fm)
  {
  }

  /** On a wiped account the key conflicts never fire. */
  lemma WipedInsertsAll(t: Entries, t': Entries, uid: int, rows: seq<EntryRow>, ids: seq<int>, fm: map<int, int>)
    requires UniqueKeys(t) && ListsEntries(t, uid, rows) && FreshIds(ids, |rows|, t.Keys)
    requires InsertedNew(WithoutEntries(t, uid), t', uid, rows, ids, fm, |rows|)
    ensures InsertedAll(WithoutEntries(t, uid), t', uid, rows, ids, fm, |rows|)
  {
  }

  /** So each archived id maps to its own new row. */
  lemma WipedKeyReturns(t: Entries, t': Entries, uid: int, rows: seq<EntryRow>, ids: seq<int>,
                        fm: map<int, int>, m: map<int, int>, i: nat)
    requires UniqueKeys(t) && ListsEntries(t, uid, rows) && FreshIds(ids, |rows|, t.Keys)
    requires InsertedAll(WithoutEntries(t, uid), t', uid, rows, ids, fm, |rows|)
    requires IsKeyMap(t', uid, rows, m) && i < |rows|
    ensures m[rows[i].id] == ids[i]
  {
  }

  lemma WipedTableReturns(t: Entries, t': Entries, uid: int, rows: seq<EntryRow>, ids: seq<int>,
                          fm: map<int, int>, m: map<int, int>)
    requires UniqueKeys(t) && ListsEntries(t, uid, rows) && FreshIds(ids, |rows|, t.Keys)
    requires InsertedNew(WithoutEntries(t, uid), t', uid, rows, ids, fm, |rows|)
    requires IsKeyMap(t', uid, rows, m)
    requires forall id :: id in OwnedEntries(t, uid) && t[id].folder.Some? ==> t[id].folder.value in fm
    ensures SameEntries(t, t', uid, m, fm)
  {
    WipedInsertsAll(t, t', uid, rows, ids, fm);
    forall i | 0 <= i < |rows| ensures m[rows[i].id] == ids[i] {
      WipedKeyReturns(t, t', uid, rows, ids, fm, m, i);
    }
    forall id ensures id in m <==> id in OwnedEntries(t, uid) {
    }
    ListedEntriesReturn(t, t', uid, rows, ids, fm, m);
  }

  lemma NotesReturn(t: Entries, t': Entries, uid: int, rows: seq<EntryRow>, ids: seq<int>,
                    fm: map<int, int>, m: map<int, int>)
    requires ListsEntries(t, uid, rows) && FreshIds(ids, |rows|, t.Keys)
    requires InsertedAll(WithoutEntries(t, uid), t', uid, rows, ids, fm, |rows|)
    requires IsNoteMap(rows, ids, m)
    requires forall id :: id in OwnedEntries(t, uid) && t[id].folder.Some? ==> t[id].folder.value in fm
    ensures SameEntries(t, t', uid, m, fm)
  {
    forall i | 0 <= i < |rows| ensures m[rows[i].id] == ids[i] {
      var j :| 0 <= j < |rows| && rows[j].id == rows[i].id && m[rows[i].id] == ids[j];
      assert i == j;
    }
    forall id ensures id in m <==> id in OwnedEntries(t, uid) {
    }
    ListedEntriesReturn(t, t', uid, rows, ids, fm, m);
  }

  /** A staged folder gets back its own parent exactly when it does not lie inside itself. */
  lemma StagedParentReturns(t: Folders, uid: int, rows: seq<FolderRow>, ids: seq<int>, fm: map<int, int>, i: nat)
    requires ParentRefs(t) && ListsFolders(t, uid, rows)
    requires |ids| == |rows| && IsFolderMap(rows, ids, fm) && i < |rows|
    ensures rows[i].parent.Some? ==> rows[i].parent.value in fm
    ensures StagedParent(rows, ids, i) == MappedFolder(rows[i].parent, fm) <==> !OnCycle(rows, i)
  {
    ExportedParent(t, uid, rows, i);
    if rows[i].parent.Some? {
      var p := Next(rows, i).value;
      assert fm[rows[p].id] == ids[p];
    } else if OnCycle(rows, i) {
      CycleStep(rows, i);
    }
  }

  lemma FolderMapIsOneToOne(t: Folders, t': Folders, uid: int, rows: seq<FolderRow>, ids: seq<int>, fm: map<int, int>)
    requires ListsFolders(t, uid, rows) && FreshIds(ids, |rows|, t.Keys)
    requires InsertedFolders(WithoutFolders(t, uid), t', uid, rows, ids, |rows|)
    requires IsFolderMap(rows, ids, fm)
    ensures fm.Keys == OwnedFolders(t, uid)
    ensures forall i :: 0 <= i < |rows| ==> rows[i].id in fm && fm[rows[i].id] == ids[i]
    ensures forall a, b :: a in fm && b in fm && fm[a] == fm[b] ==> a == b
    ensures forall id :: id in OwnedFolders(t', uid) ==> exists a :: a in fm && fm[a] == id
  {
    forall i | 0 <= i < |rows| ensures rows[i].id in fm && fm[rows[i].id] == ids[i] {
      assert IsFirst(rows, i);
    }
    forall id ensures id in fm <==> id in OwnedFolders(t, uid) {
    }
    forall id | id in OwnedFolders(t', uid) ensures exists a :: a in fm && fm[a] == id {
      assert id !in WithoutFolders(t, uid);
      var i :| 0 <= i < |rows| && IsFirst(rows, i) && ids[i] == id;
      assert fm[rows[i].id] == id;
    }
  }

  /** The folder tree comes back as it was exactly when no folder lies inside itself. */
  lemma TreeReturns(t: Folders, t': Folders, uid: int, rows: seq<FolderRow>, ids: seq<int>, fm: map<int, int>)
    requires ParentRefs(t) && ListsFolders(t, uid, rows) && FreshIds(ids, |rows|, t.Keys)
    requires InsertedFolders(WithoutFolders(t, uid), t', uid, rows, ids, |rows|)
    requires IsFolderMap(rows, ids, fm)
    ensures SameTree(t, t', uid, fm) <==> LiveAcyclic(t, uid)
  {
    FolderMapIsOneToOne(t, t', uid, rows, ids, fm);
    forall i | 0 <= i < |rows|
      ensures t[rows[i].id].parent.Some? ==> t[rows[i].id].parent.value in fm
      ensures t'[fm[rows[i].id]] == t[rows[i].id].(parent := MappedFolder(t[rows[i].id].parent, fm))
              <==> !OnCycle(rows, i)
    {
      assert IsFirst(rows, i);
      StagedParentReturns(t, uid, rows, ids, fm, i);
    }
    CyclesAreLive(t, uid, rows);
  }

  lemma CyclesAreLive(t: Folders, uid: int, rows: seq<FolderRow>)
    requires ParentRefs(t) && ListsFolders(t, uid, rows)
    ensures LiveAcyclic(t, uid) <==> forall i :: 0 <= i < |rows| ==> !OnCycle(rows, i)
  {
    forall i | 0 <= i < |rows|
      ensures OnCycle(rows, i) <==> exists k: nat :: k >= 1 && LiveAncestor(t, rows[i].id, k) == Some(rows[i].id)
    {
      CycleIsLive(t, uid, rows, i);
    }
    forall i | 0 <= i < |rows| ensures rows[i].id in OwnedFolders(t, uid) {
    }
  }

  /** Staging only adds rows of the restoring account. */
  lemma RestoreKeepsOthers(c: Content, c': Content, uid: int, snap: Snapshot, ids: StagedIds, m: Mapping)
    requires OneIdPerRow(ids, snap) && Restored(c, c', uid, snap, ids, m)
    ensures OthersKept(c, c', uid)
  {
    NewEntriesAreOwned(c.tags, c'.tags, uid);
    NewEntriesAreOwned(c.links, c'.links, uid);
    NewEntriesAreOwned(c.notes, c'.notes, uid);
    NewFoldersAreOwned(c.folders, c'.folders, uid);
  }

  lemma NewEntriesAreOwned(t: Entries, t': Entries, uid: int)
    requires forall id :: id in t ==> id in t' && t'[id] == t[id]
    requires forall id :: id in t' && id !in t ==> t'[id].owner == uid
    ensures WithoutEntries(t', uid) == WithoutEntries(t, uid)
  {
    forall id
      ensures id in WithoutEntries(t', uid) <==> id in WithoutEntries(t, uid)
      ensures id in WithoutEntries(t, uid) ==> t'[id] == t[id]
    {
    }
  }

  lemma NewFoldersAreOwned(t: Folders, t': Folders, uid: int)
    requires forall id :: id in t ==> id in t' && t'[id] == t[id]
    requires forall id :: id in t' && id !in t ==> t'[id].owner == uid
    ensures WithoutFolders(t', uid) == WithoutFolders(t, uid)
  {
    forall id
      ensures id in WithoutFolders(t', uid) <==> id in WithoutFolders(t, uid)
      ensures id in WithoutFolders(t, uid) ==> t'[id] == t[id]
    {
    }
  }

  lemma FoldersOfEntries(c: Content, t: Entries, uid: int, fm: map<int, int>)
    requires FolderRefs(t, c.folders) && fm.Keys == OwnedFolders(c.folders, uid)
    ensures forall id :: id in OwnedEntries(t, uid) && t[id].folder.Some? ==> t[id].folder.value in fm
  {
  }

  /**
    Exporting an account, wiping it and restoring the archive: every other
    account is untouched, the tags, links and notes come back one to one in the
    same folders, and the folder tree is the same tree exactly when no folder
    lay inside itself.
  */
  lemma ExportWipeRestore(c: Content, c': Content, uid: int, snap: Snapshot, ids: StagedIds, m: Mapping)
    requires Valid(c) && IsSnapshot(c, uid, snap)
    requires FreshStagedIds(ids, snap, c)
    requires Restored(Wiped(c, uid), c', uid, snap, ids, m)
    ensures OthersKept(c, c', uid)
    ensures SameEntries(c.tags, c'.tags, uid, m.tags, map[])
    ensures SameEntries(c.links, c'.links, uid, m.links, m.folders)
    ensures SameEntries(c.notes, c'.notes, uid, m.notes, m.folders)
    ensures SameTree(c.folders, c'.folders, uid, m.folders) <==> LiveAcyclic(c.folders, uid)
  {
    RestoreKeepsOthers(Wiped(c, uid), c', uid, snap, ids, m);
    WipedTwice(c, uid);
    FolderMapIsOneToOne(c.folders, c'.folders, uid, snap.folders, ids.folders, m.folders);
    TreeReturns(c.folders, c'.folders, uid, snap.folders, ids.folders, m.folders);
    FoldersOfEntries(c, c.links, uid, m.folders);
    FoldersOfEntries(c, c.notes, uid, m.folders);
    WipedTableReturns(c.tags, c'.tags, uid, snap.tags, ids.tags, map[], m.tags);
    WipedTableReturns(c.links, c'.links, uid, snap.links, ids.links, m.folders, m.links);
    NotesReturn(c.notes, c'.notes, uid, snap.notes, ids.notes, m.folders, m.notes);
  }

  // ---- How many rows there are ----

  predicate OneToOne(m: map<int, int>) {
    forall a, b :: a in m && b in m && m[a] == m[b] ==> a == b
  }

  function Image(m: map<int, int>, keys: set<int>): (r: set<int>)
    requires keys <= m.Keys
  {
    set a | a in keys :: m[a]
  }

  lemma ImageOfOneMore(m: map<int, int>, keys: set<int>, a: int)
    requires OneToOne(m) && keys <= m.Keys && a in keys
    ensures Image(m, keys) == Image(m, keys - {a}) + {m[a]} && m[a] !in Image(m, keys - {a})
  {
  }

  lemma {:induction false} OneToOneCounts(m: map<int, int>, keys: set<int>)
    requires OneToOne(m) && keys <= m.Keys
    ensures |Image(m, keys)| == |keys|
  {
    if |keys| == 0 {
      assert Image(m, keys) == {};
    } else {
      HasElement(keys);
      var a :| a in keys;
      ImageOfOneMore(m, keys, a);
      OneToOneCounts(m, keys - {a});
    }
  }

  lemma CarriedCounts(m: map<int, int>, image: set<int>)
    requires OneToOne(m) && forall a :: a in m ==> m[a] in image
    requires forall x :: x in image ==> exists a :: a in m && m[a] == x
    ensures |m.Keys| == |image|
  {
    OneToOneCounts(m, m.Keys);
    forall x ensures x in image <==> x in Image(m, m.Keys) {
    }
    SameCount(image, Image(m, m.Keys));
  }

  lemma SameEntriesCount(t: Entries, t': Entries, uid: int, m: map<int, int>, fm: map<int, int>)
    requires SameEntries(t, t', uid, m, fm)
    ensures |OwnedEntries(t', uid)| == |OwnedEntries(t, uid)|
  {
    CarriedCounts(m, OwnedEntries(t', uid));
  }

  /** A table is the rows of the account and the rows of the others. */
  lemma EntriesSplit(t: Entries, uid: int)
    ensures |t| == |WithoutEntries(t, uid)| + |OwnedEntries(t, uid)|
  {
    var others := WithoutEntries(t, uid).Keys;
    assert t.Keys == others + OwnedEntries(t, uid) && others !! OwnedEntries(t, uid);
    assert |t| == |t.Keys| && |WithoutEntries(t, uid)| == |others|;
  }

  lemma FoldersSplit(t: Folders, uid: int)
    ensures |t| == |WithoutFolders(t, uid)| + |OwnedFolders(t, uid)|
  {
    var others := WithoutFolders(t, uid).Keys;
    assert t.Keys == others + OwnedFolders(t, uid) && others !! OwnedFolders(t, uid);
    assert |t| == |t.Keys| && |WithoutFolders(t, uid)| == |others|;
  }

  /** Exporting an account, wiping it and restoring the archive gives as many rows back as were taken away. */
  lemma AsManyReturn(c: Content, c': Content, uid: int, snap: Snapshot, ids: StagedIds, m: Mapping)
    requires Valid(c) && IsSnapshot(c, uid, snap)
    requires FreshStagedIds(ids, snap, c)
    requires Restored(Wiped(c, uid), c', uid, snap, ids, m)
    ensures |OwnedEntries(c'.tags, uid)| == |OwnedEntries(c.tags, uid)|
    ensures |OwnedFolders(c'.folders, uid)| == |OwnedFolders(c.folders, uid)|
    ensures |OwnedEntries(c'.links, uid)| == |OwnedEntries(c.links, uid)|
    ensures |OwnedEntries(c'.notes, uid)| == |OwnedEntries(c.notes, uid)|
  {
    ExportWipeRestore(c, c', uid, snap, ids, m);
    SameEntriesCount(c.tags, c'.tags, uid, m.tags, map[]);
    SameEntriesCount(c.links, c'.links, uid, m.links, m.folders);
    SameEntriesCount(c.notes, c'.notes, uid, m.notes, m.folders);
    SameFoldersCount(c.folders, c'.folders, uid, snap.folders, ids.folders, m.folders);
  }

  lemma SameFoldersCount(t: Folders, t': Folders, uid: int, rows: seq<FolderRow>, ids: seq<int>, fm: map<int, int>)
    requires ListsFolders(t, uid, rows) && FreshIds(ids, |rows|, t.Keys)
    requires InsertedFolders(WithoutFolders(t, uid), t', uid, rows, ids, |rows|)
    requires IsFolderMap(rows, ids, fm)
    ensures |OwnedFolders(t', uid)| == |OwnedFolders(t, uid)|
  {
    FolderMapIsOneToOne(t, t', uid, rows, ids, fm);
    forall a | a in fm ensures fm[a] in OwnedFolders(t', uid) {
      var i :| 0 <= i < |rows| && IsFirst(rows, i) && rows[i].id == a;
      assert fm[rows[i].id] == ids[i];
    }
    CarriedCounts(fm, OwnedFolders(t', uid));
  }

  lemma WipedTwice(c: Content, uid: int)
    ensures Wiped(Wiped(c, uid), uid) == Wiped(c, uid)
  {
  }

  lemma InsertedKeysStayUnique(t: Entries, t': Entries, uid: int, rows: seq<EntryRow>, ids: seq<int>, fm: map<int, int>)
    requires UniqueKeys(t) && FreshIds(ids, |rows|, t.Keys)
    requires InsertedNew(t, t', uid, rows, ids, fm, |rows|)
    ensures UniqueKeys(t')
  {
  }

  /** `t'` holds every folder `fm` points at, and they belong to `uid`. */
  ghost predicate MapsInto(fm: map<int, int>, t': Folders, uid: int) {
    forall id :: id in fm ==> fm[id] in t' && t'[fm[id]].owner == uid
  }

  lemma FoldersStayLinked(t: Folders, t': Folders, uid: int, rows: seq<FolderRow>, ids: seq<int>, fm: map<int, int>)
    requires ParentRefs(t) && FreshIds(ids, |rows|, t.Keys)
    requires InsertedFolders(t, t', uid, rows, ids, |rows|) && IsFolderMap(rows, ids, fm)
    ensures ParentRefs(t') && MapsInto(fm, t', uid)
  {
    forall id | id in t' && t'[id].parent.Some?
      ensures t'[id].parent.value in t' && t'[t'[id].parent.value].owner == t'[id].owner
    {
      var p := t'[id].parent.value;
      if id in t {
        assert p in t;
      } else {
        var i :| 0 <= i < |rows| && IsFirst(rows, i) && ids[i] == id;
        assert p == ids[Next(rows, i).value];
      }
    }
    forall id | id in fm ensures fm[id] in t' && t'[fm[id]].owner == uid {
      var i :| 0 <= i < |rows| && IsFirst(rows, i) && rows[i].id == id;
      assert fm[rows[i].id] == ids[i];
    }
  }

  lemma EntriesStayLinked(t: Entries, t': Entries, folders: Folders, folders': Folders, uid: int, fm: map<int, int>)
    requires FolderRefs(t, folders) && MapsInto(fm, folders', uid)
    requires forall id :: id in folders ==> id in folders' && folders'[id] == folders[id]
    requires forall id :: id in t ==> id in t' && t'[id] == t[id]
    requires forall id :: id in t' && id !in t ==> exists row :: t'[id] == StagedEntry(row, uid, fm)
    ensures FolderRefs(t', folders')
  {
    forall id | id in t' && t'[id].folder.Some?
      ensures t'[id].folder.value in folders' && folders'[t'[id].folder.value].owner == t'[id].owner
    {
      var f := t'[id].folder.value;
      if id in t {
        assert f in folders;
      } else {
        var row :| t'[id] == StagedEntry(row, uid, fm);
        var a := row.folder.value;
        assert a in fm && f == fm[a];
      }
    }
  }

  /** Whatever the archive holds, restoring it keeps every key unique and every reference inside its owner. */
  lemma RestoreKeepsValid(c: Content, c': Content, uid: int, snap: Snapshot, ids: StagedIds, m: Mapping)
    requires Valid(c) && FreshStagedIds(ids, snap, c) && Restored(c, c', uid, snap, ids, m)
    ensures Valid(c')
  {
    InsertedKeysStayUnique(c.tags, c'.tags, uid, snap.tags, ids.tags, map[]);
    InsertedKeysStayUnique(c.links, c'.links, uid, snap.links, ids.links, m.folders);
    FoldersStayLinked(c.folders, c'.folders, uid, snap.folders, ids.folders, m.folders);
    EntriesStayLinked(c.links, c'.links, c.folders, c'.folders, uid, m.folders);
    EntriesStayLinked(c.notes, c'.notes, c.folders, c'.folders, uid, m.folders);
  }

  /** The live folders `ids` hang together as the rows of `gs` do. */
  ghost predicate Mirrors(t: Folders, gs: seq<FolderRow>, ids: seq<int>) {
    && |ids| == |gs|
    && (forall i :: 0 <= i < |gs| && IsFirst(gs, i) ==>
          ids[i] in t && t[ids[i]].parent == if Next(gs, i).Some? then Some(ids[Next(gs, i).value]) else None)
  }

  /** The staged folders hang together as the repaired archive does. */
  lemma StagedMirrors(t: Folders, t': Folders, uid: int, rows: seq<FolderRow>, ids: seq<int>,
                      parents: seq<Option<int>>)
    requires FreshIds(ids, |rows|, t.Keys) && InsertedFolders(t, t', uid, rows, ids, |rows|)
    requires |parents| == |rows| && forall j :: 0 <= j < |rows| ==> parents[j] == RepairedParent(rows, j)
    ensures Mirrors(t', WithParents(rows, parents), ids)
  {
    var gs := WithParents(rows, parents);
    forall i | 0 <= i < |rows| && IsFirst(gs, i)
      ensures ids[i] in t'
      ensures t'[ids[i]].parent == if Next(gs, i).Some? then Some(ids[Next(gs, i).value]) else None
    {
      assert IsFirst(rows, i);
      RepairedStep(rows, parents, i);
    }
  }

  lemma {:induction false} MirroredAncestor(t: Folders, gs: seq<FolderRow>, ids: seq<int>, i: nat, k: nat)
    requires Mirrors(t, gs, ids) && i < |gs| && IsFirst(gs, i)
    ensures match Ancestor(gs, i, k)
            case Some(a) => LiveAncestor(t, ids[i], k) == Some(ids[a])
            case None => LiveAncestor(t, ids[i], k) == None
    decreases k
  {
    if k != 0 && Next(gs, i).Some? {
      MirroredAncestor(t, gs, ids, Next(gs, i).value, k - 1);
    }
  }

  lemma {:induction false} KeptAncestor(t: Folders, t': Folders, id: int, k: nat)
    requires ParentRefs(t) && id in t
    requires forall x :: x in t ==> x in t' && t'[x] == t[x]
    ensures LiveAncestor(t', id, k) == LiveAncestor(t, id, k)
    decreases k
  {
    if k != 0 && t[id].parent.Some? {
      KeptAncestor(t, t', t[id].parent.value, k - 1);
    }
  }

  /** Restoring never puts a folder inside itself, even from an archive that does. */
  lemma RestoreStaysAcyclic(t: Folders, t': Folders, uid: int, rows: seq<FolderRow>, ids: seq<int>)
    requires ParentRefs(t) && LiveAcyclic(t, uid) && FreshIds(ids, |rows|, t.Keys)
    requires InsertedFolders(t, t', uid, rows, ids, |rows|)
    ensures LiveAcyclic(t', uid)
  {
    var parents := seq(|rows|, i requires 0 <= i < |rows| => RepairedParent(rows, i));
    var gs := WithParents(rows, parents);
    StagedMirrors(t, t', uid, rows, ids, parents);
    RepairedIsForest(rows, parents);
    forall id, k: nat | id in OwnedFolders(t', uid) && k >= 1 ensures LiveAncestor(t', id, k) != Some(id) {
      if id in t {
        KeptAncestor(t, t', id, k);
        assert id in OwnedFolders(t, uid);
      } else {
        var i :| 0 <= i < |rows| && IsFirst(rows, i) && ids[i] == id;
        assert IsFirst(gs, i);
        MirroredNeverReturns(t', gs, ids, t.Keys, i, k);
      }
    }
  }

  lemma MirroredNeverReturns(t: Folders, gs: seq<FolderRow>, ids: seq<int>, used: set<int>, i: nat, k: nat)
    requires Mirrors(t, gs, ids) && FreshIds(ids, |gs|, used) && IsForest(gs)
    requires i < |gs| && IsFirst(gs, i) && k >= 1
    ensures LiveAncestor(t, ids[i], k) != Some(ids[i])
  {
    ForestIsKept(gs, i);
    assert Ancestor(gs, i, k) != Some(i);
    MirroredAncestor(t, gs, ids, i, k);
  }
}
