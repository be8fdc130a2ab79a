/** The restore engine over the live tables: export, wipe, and staged insertion. */
module RestoreEngine {
  import opened Sets
  import opened Wrappers
  import opened FolderGraph
  import FolderRepair
  import opened Library
  import opened RoundTrip

  datatype Counts = Counts(tags: nat, folders: nat, links: nat, notes: nat)

  class Database {
    var tags: Entries
    var folders: Folders
    var links: Entries
    var notes: Entries

    ghost function State(): (c: Content)
      reads this
    {
      Content(tags, folders, links, notes)
    }

    /** Export: the account's rows, in id order. */
    method StreamSnapshot(uid: int) returns (snap: Snapshot, counts: Counts)
      ensures IsSnapshot(State(), uid, snap)
      ensures counts == Counts(|snap.tags|, |snap.folders|, |snap.links|, |snap.notes|)
      ensures counts == OwnedCounts(State(), uid)
      ensures (forall i, j :: 0 <= i < j < |snap.tags| ==> snap.tags[i].id < snap.tags[j].id)
              && (forall i, j :: 0 <= i < j < |snap.folders| ==> snap.folders[i].id < snap.folders[j].id)
              && (forall i, j :: 0 <= i < j < |snap.links| ==> snap.links[i].id < snap.links[j].id)
              && (forall i, j :: 0 <= i < j < |snap.notes| ==> snap.notes[i].id < snap.notes[j].id)
    {
      var tagRows := ListEntries(tags, uid);
      var folderRows := ListFolders(folders, uid);
      var linkRows := ListEntries(links, uid);
      var noteRows := ListEntries(notes, uid);
      snap := Snapshot(tagRows, folderRows, linkRows, noteRows);
      counts := Counts(|tagRows|, |folderRows|, |linkRows|, |noteRows|);
      ListedCount(tags, uid, tagRows);
      ListedFoldersCount(folders, uid, folderRows);
      ListedCount(links, uid, linkRows);
      ListedCount(notes, uid, noteRows);
    }

    /** Deletes every content row of one account, flattening its folders first. */
    method WipeUser(uid: int) returns (wiped: Counts)
      modifies this
      ensures State() == Wiped(old(State()), uid)
      ensures wiped == Counts(|OwnedEntries(old(tags), uid)|, |OwnedFolders(old(folders), uid)|,
                              |OwnedEntries(old(links), uid)|, |OwnedEntries(old(notes), uid)|)
    {
      wiped := Counts(|OwnedEntries(tags, uid)|, |OwnedFolders(folders, uid)|,
                      |OwnedEntries(links, uid)|, |OwnedEntries(notes, uid)|);
      notes := WithoutEntries(notes, uid);
      links := WithoutEntries(links, uid);
      FlatteningKeepsOthers(folders, uid);
      folders := Flattened(folders, uid);
      folders := WithoutFolders(folders, uid);
      tags := WithoutEntries(tags, uid);
    }

    /** Restores an archive into an account, keeping whatever the account already holds. */
    method RestoreSkipStaged(uid: int, snap: Snapshot, ids: StagedIds)
      returns (inserted: Counts, skipped: Counts, m: Mapping)
      requires FreshStagedIds(ids, snap, State())
      modifies this
      ensures Restored(old(State()), State(), uid, snap, ids, m)
      ensures |tags| == |old(tags)| + inserted.tags && |folders| == |old(folders)| + inserted.folders
      ensures |links| == |old(links)| + inserted.links && |notes| == |old(notes)| + inserted.notes
      ensures inserted.tags + skipped.tags == |snap.tags| && inserted.links + skipped.links == |snap.links|
      ensures inserted.folders == FirstsBefore(snap.folders, |snap.folders|) && skipped.folders == 0
      ensures inserted.notes == |snap.notes| && skipped.notes == 0
    {
      var tagCount, folderCount, linkCount, noteCount;
      var tagMap, folderMap, linkMap, noteMap;
      tags, tagCount := InsertNew(tags, uid, snap.tags, ids.tags, map[]);
      tagMap := MapByKey(tags, uid, snap.tags);
      folders, folderMap, folderCount := InsertFolders(folders, uid, snap.folders, ids.folders);
      links, linkCount := InsertNew(links, uid, snap.links, ids.links, folderMap);
      linkMap := MapByKey(links, uid, snap.links);
      notes, noteMap, noteCount := InsertNotes(notes, uid, snap.notes, ids.notes, folderMap);
      inserted := Counts(tagCount, folderCount, linkCount, noteCount);
      skipped := Counts(|snap.tags| - tagCount, 0, |snap.links| - linkCount, 0);
      m := Mapping(tagMap, folderMap, linkMap, noteMap);
    }

    /** Replaces an account's content by an archive. */
    method ApplyWipeRestore(uid: int, snap: Snapshot, ids: StagedIds)
      returns (wiped: Counts, inserted: Counts, m: Mapping)
      requires FreshStagedIds(ids, snap, State())
      modifies this
      ensures Restored(Wiped(old(State()), uid), State(), uid, snap, ids, m)
      ensures OthersKept(old(State()), State(), uid)
      ensures wiped == OwnedCounts(old(State()), uid) && inserted == OwnedCounts(State(), uid)
      ensures |tags| == |old(tags)| - wiped.tags + inserted.tags
      ensures |folders| == |old(folders)| - wiped.folders + inserted.folders
      ensures |links| == |old(links)| - wiped.links + inserted.links
      ensures |notes| == |old(notes)| - wiped.notes + inserted.notes
      ensures inserted.folders == FirstsBefore(snap.folders, |snap.folders|) && inserted.notes == |snap.notes|
      ensures Valid(old(State())) && IsSnapshot(old(State()), uid, snap) ==> inserted == wiped
    {
      ghost var before := State();
      wiped := WipeUser(uid);
      var skipped;
      inserted, skipped, m := RestoreSkipStaged(uid, snap, ids);
      WipeRestoreCounts(before, State(), uid, snap, ids, m);
      InsertedIsOwned(before, State(), uid, inserted);
    }
  }

  /** How many rows of each kind the account has. */
  ghost function OwnedCounts(c: Content, uid: int): (n: Counts) {
    Counts(|OwnedEntries(c.tags, uid)|, |OwnedFolders(c.folders, uid)|, |OwnedEntries(c.links, uid)|,
           |OwnedEntries(c.notes, uid)|)
  }

  /** A list without repetitions is as long as the set of what it lists. */
  lemma {:induction false} RisingCount(ids: seq<int>)
    requires forall i, j :: 0 <= i < j < |ids| ==> ids[i] < ids[j]
    ensures |set id | id in ids| == |ids|
  {
    if |ids| > 0 {
      var n := |ids| - 1;
      RisingCount(ids[..n]);
      assert ids == ids[..n] + [ids[n]];
      assert (set id | id in ids) == (set id | id in ids[..n]) + {ids[n]};
    } else {
      assert (set id | id in ids) == {};
    }
  }

  lemma ListedCount(t: Entries, uid: int, rows: seq<EntryRow>)
    requires ListsEntries(t, uid, rows)
    ensures |OwnedEntries(t, uid)| == |rows|
  {
    var ids := seq(|rows|, i requires 0 <= i < |rows| => rows[i].id);
    RisingCount(ids);
    forall id ensures id in OwnedEntries(t, uid) <==> id in set x | x in ids {
      if id in OwnedEntries(t, uid) {
        var i :| 0 <= i < |rows| && rows[i].id == id;
        assert ids[i] == id;
      }
    }
    SameCount(OwnedEntries(t, uid), set id | id in ids);
  }

  lemma ListedFoldersCount(t: Folders, uid: int, rows: seq<FolderRow>)
    requires ListsFolders(t, uid, rows)
    ensures |OwnedFolders(t, uid)| == |rows|
  {
    var ids := seq(|rows|, i requires 0 <= i < |rows| => rows[i].id);
    RisingCount(ids);
    forall id ensures id in OwnedFolders(t, uid) <==> id in set x | x in ids {
      if id in OwnedFolders(t, uid) {
        var i :| 0 <= i < |rows| && rows[i].id == id;
        assert ids[i] == id;
      }
    }
    SameCount(OwnedFolders(t, uid), set id | id in ids);
  }

  lemma ContentSplits(c: Content, uid: int)
    ensures var (n, rest) := (OwnedCounts(c, uid), Wiped(c, uid));
      && |c.tags| == |rest.tags| + n.tags && |c.folders| == |rest.folders| + n.folders
      && |c.links| == |rest.links| + n.links && |c.notes| == |rest.notes| + n.notes
  {
    EntriesSplit(c.tags, uid);
    FoldersSplit(c.folders, uid);
    EntriesSplit(c.links, uid);
    EntriesSplit(c.notes, uid);
  }

  /** The tables after a wiping restore are those before it without the account's rows, and with what went in. */
  lemma WipeRestoreCounts(c: Content, c': Content, uid: int, snap: Snapshot, ids: StagedIds, m: Mapping)
    requires FreshStagedIds(ids, snap, c) && Restored(Wiped(c, uid), c', uid, snap, ids, m)
    ensures OthersKept(c, c', uid)
    ensures var (wiped, inserted) := (OwnedCounts(c, uid), OwnedCounts(c', uid));
      && |c'.tags| == |c.tags| - wiped.tags + inserted.tags
      && |c'.folders| == |c.folders| - wiped.folders + inserted.folders
      && |c'.links| == |c.links| - wiped.links + inserted.links
      && |c'.notes| == |c.notes| - wiped.notes + inserted.notes
      && (Valid(c) && IsSnapshot(c, uid, snap) ==> inserted == wiped)
  {
    RestoreKeepsOthers(Wiped(c, uid), c', uid, snap, ids, m);
    WipedTwice(c, uid);
    ContentSplits(c, uid);
    ContentSplits(c', uid);
    if Valid(c) && IsSnapshot(c, uid, snap) {
      AsManyReturn(c, c', uid, snap, ids, m);
    }
  }

  /** What went into a wiped account is all it has. */
  lemma InsertedIsOwned(c: Content, c': Content, uid: int, inserted: Counts)
    requires OthersKept(c, c', uid)
    requires |c'.tags| == |Wiped(c, uid).tags| + inserted.tags
    requires |c'.folders| == |Wiped(c, uid).folders| + inserted.folders
    requires |c'.links| == |Wiped(c, uid).links| + inserted.links
    requires |c'.notes| == |Wiped(c, uid).notes| + inserted.notes
    ensures inserted == OwnedCounts(c', uid)
  {
    ContentSplits(c', uid);
  }

  /** Every folder of `uid` made a root. */
  function Flattened(t: Folders, uid: int): (r: Folders)
    ensures r.Keys == t.Keys
    ensures forall id :: id in t ==> r[id] == if t[id].owner == uid then t[id].(parent := None) else t[id]
  {
    map id | id in t :: if t[id].owner == uid then t[id].(parent := None) else t[id]
  }

  lemma FlatteningKeepsOthers(t: Folders, uid: int)
    ensures WithoutFolders(Flattened(t, uid), uid) == WithoutFolders(t, uid)
  {
  }

  method LeastOf(s: set<int>) returns (m: int)
    requires |s| > 0
    ensures m in s && forall x :: x in s ==> m <= x
  {
    HasElement(s);
    m :| m in s;
    var rest := s - {m};
    while |rest| > 0
      invariant m in s && rest <= s
      invariant forall x :: x in s && x !in rest ==> m <= x
      decreases rest
    {
      HasElement(rest);
      var x :| x in rest;
      rest := rest - {x};
      if x < m {
        m := x;
      }
    }
  }

  method ListEntries(t: Entries, uid: int) returns (rows: seq<EntryRow>)
    ensures ListsEntries(t, uid, rows)
  {
    rows := [];
    var rest := OwnedEntries(t, uid);
    while |rest| > 0
      invariant rest <= OwnedEntries(t, uid)
      invariant forall i, j :: 0 <= i < j < |rows| ==> rows[i].id < rows[j].id
      invariant forall i, x :: 0 <= i < |rows| && x in rest ==> rows[i].id < x
      invariant forall i :: 0 <= i < |rows| ==> rows[i].id in t && t[rows[i].id] == AsEntry(rows[i], uid)
      invariant forall id :: id in OwnedEntries(t, uid) && id !in rest ==>
                  exists i :: 0 <= i < |rows| && rows[i].id == id
      decreases rest
    {
      var id := LeastOf(rest);
      ghost var before := rows;
      rows := rows + [EntryRow(id, t[id].key, t[id].data, t[id].folder)];
      rest := rest - {id};
      assert rows[|before|].id == id && forall i :: 0 <= i < |before| ==> rows[i] == before[i];
    }
  }

  method ListFolders(t: Folders, uid: int) returns (rows: seq<FolderRow>)
    ensures ListsFolders(t, uid, rows)
  {
    rows := [];
    var rest := OwnedFolders(t, uid);
    while |rest| > 0
      invariant rest <= OwnedFolders(t, uid)
      invariant forall i, j :: 0 <= i < j < |rows| ==> rows[i].id < rows[j].id
      invariant forall i, x :: 0 <= i < |rows| && x in rest ==> rows[i].id < x
      invariant forall i :: 0 <= i < |rows| ==>
        rows[i].id in t && t[rows[i].id] == Folder(uid, rows[i].name, rows[i].parent)
      invariant forall id :: id in OwnedFolders(t, uid) && id !in rest ==>
                  exists i :: 0 <= i < |rows| && rows[i].id == id
      decreases rest
    {
      var id := LeastOf(rest);
      ghost var before := rows;
      rows := rows + [FolderRow(id, t[id].parent, t[id].name)];
      rest := rest - {id};
      assert rows[|before|].id == id && forall i :: 0 <= i < |before| ==> rows[i] == before[i];
    }
  }

  /** The table after the first `n` rows, `inserted` of which found their key free. */
  ghost predicate Staging(t: Entries, t': Entries, uid: int, rows: seq<EntryRow>, ids: seq<int>, fm: map<int, int>,
                          n: nat, inserted: nat)
    requires |ids| == |rows| && n <= |rows|
  {
    && InsertedNew(t, t', uid, rows, ids, fm, n)
    && |t'| == |t| + inserted && inserted <= n
    && (forall i :: 0 <= i < n ==> KeyTaken(t', uid, rows[i].key))
    && (forall i :: n <= i < |rows| ==> ids[i] !in t')
  }

  /** Inserts the rows in order; a row whose key its owner already holds is dropped. */
  method InsertNew(t: Entries, uid: int, rows: seq<EntryRow>, ids: seq<int>, fm: map<int, int>)
    returns (t': Entries, inserted: nat)
    requires FreshIds(ids, |rows|, t.Keys)
    ensures Staging(t, t', uid, rows, ids, fm, |rows|, inserted)
  {
    t', inserted := t, 0;
    for n := 0 to |rows|
      invariant Staging(t, t', uid, rows, ids, fm, n, inserted)
    {
      StagingStep(t, t', uid, rows, ids, fm, n, inserted);
      if !KeyTaken(t', uid, rows[n].key) {
        t' := t'[ids[n] := StagedEntry(rows[n], uid, fm)];
        inserted := inserted + 1;
      }
    }
  }

  lemma StagingStep(t: Entries, t': Entries, uid: int, rows: seq<EntryRow>, ids: seq<int>, fm: map<int, int>,
                    n: nat, inserted: nat)
    requires FreshIds(ids, |rows|, t.Keys) && n < |rows|
    requires Staging(t, t', uid, rows, ids, fm, n, inserted)
    ensures if KeyTaken(t', uid, rows[n].key) then Staging(t, t', uid, rows, ids, fm, n + 1, inserted)
            else Staging(t, t'[ids[n] := StagedEntry(rows[n], uid, fm)], uid, rows, ids, fm, n + 1, inserted + 1)
  {
    assert ids[n] !in t';
    WinsWhenFree(t, t', uid, rows, ids, fm, n);
    InsertNewStep(t, t', uid, rows, ids, fm, n);
    if !KeyTaken(t', uid, rows[n].key) {
      TakesItsKey(t', uid, ids[n], StagedEntry(rows[n], uid, fm));
    }
  }

  lemma InsertNewStep(t: Entries, t': Entries, uid: int, rows: seq<EntryRow>, ids: seq<int>, fm: map<int, int>, n: nat)
    requires FreshIds(ids, |rows|, t.Keys) && n < |rows| && ids[n] !in t'
    requires InsertedNew(t, t', uid, rows, ids, fm, n)
    ensures InsertedNew(t, if Wins(t, uid, rows, n) then t'[ids[n] := StagedEntry(rows[n], uid, fm)] else t',
                        uid, rows, ids, fm, n + 1)
  {
  }

  lemma TakesItsKey(t: Entries, uid: int, id: int, e: Entry)
    requires id !in t && e.owner == uid
    ensures KeyTaken(t[id := e], uid, e.key)
    ensures forall key :: KeyTaken(t, uid, key) ==> KeyTaken(t[id := e], uid, key)
  {
    assert t[id := e][id] == e;
    KeysStayTaken(t, t[id := e], uid);
  }

  lemma KeysStayTaken(t: Entries, t': Entries, uid: int)
    requires forall id :: id in t ==> id in t' && t'[id] == t[id]
    ensures forall key :: KeyTaken(t, uid, key) ==> KeyTaken(t', uid, key)
  {
  }

  /** A row finds its key free exactly when neither the account nor an earlier row holds it. */
  lemma WinsWhenFree(t: Entries, t': Entries, uid: int, rows: seq<EntryRow>, ids: seq<int>, fm: map<int, int>, n: nat)
    requires FreshIds(ids, |rows|, t.Keys) && n < |rows|
    requires InsertedNew(t, t', uid, rows, ids, fm, n)
    requires forall i :: 0 <= i < n ==> KeyTaken(t', uid, rows[i].key)
    ensures Wins(t, uid, rows, n) <==> !KeyTaken(t', uid, rows[n].key)
  {
  }

  method MapByKey(t: Entries, uid: int, rows: seq<EntryRow>) returns (m: map<int, int>)
    requires forall i :: 0 <= i < |rows| ==> KeyTaken(t, uid, rows[i].key)
    ensures IsKeyMap(t, uid, rows, m)
  {
    m := map[];
    for n := 0 to |rows|
      invariant forall i :: 0 <= i < n ==> rows[i].id in m
      invariant forall id :: id in m ==> exists i :: 0 <= i < n && rows[i].id == id
                                           && m[id] in t && t[m[id]].owner == uid && t[m[id]].key == rows[i].key
    {
      assert KeyTaken(t, uid, rows[n].key);
      var live :| live in t && t[live].owner == uid && t[live].key == rows[n].key;
      m := m[rows[n].id := live];
    }
  }

  method InsertNotes(t: Entries, uid: int, rows: seq<EntryRow>, ids: seq<int>, fm: map<int, int>)
    returns (t': Entries, m: map<int, int>, inserted: nat)
    requires FreshIds(ids, |rows|, t.Keys)
    ensures InsertedAll(t, t', uid, rows, ids, fm, |rows|)
    ensures IsNoteMap(rows, ids, m)
    ensures |t'| == |t| + inserted && inserted == |rows|
  {
    t', m, inserted := t, map[], 0;
    for n := 0 to |rows|
      invariant NotesSoFar(t, t', uid, rows, ids, fm, n) && NoteMapSoFar(rows, ids, m, n) && inserted == n
    {
      InsertNoteStep(t, t', uid, rows, ids, fm, n);
      MapNoteStep(rows, ids, m, n);
      t' := t'[ids[n] := StagedEntry(rows[n], uid, fm)];
      m := m[rows[n].id := ids[n]];
      inserted := inserted + 1;
    }
  }

  ghost predicate NotesSoFar(t: Entries, t': Entries, uid: int, rows: seq<EntryRow>, ids: seq<int>, fm: map<int, int>,
                             n: nat)
    requires |ids| == |rows| && n <= |rows|
  {
    InsertedAll(t, t', uid, rows, ids, fm, n) && |t'| == |t| + n && forall i :: n <= i < |rows| ==> ids[i] !in t'
  }

  ghost predicate NoteMapSoFar(rows: seq<EntryRow>, ids: seq<int>, m: map<int, int>, n: nat)
    requires |ids| == |rows| && n <= |rows|
  {
    && (forall i :: 0 <= i < n ==> rows[i].id in m)
    && (forall id :: id in m ==> exists i :: 0 <= i < n && rows[i].id == id && m[id] == ids[i])
  }

  lemma InsertNoteStep(t: Entries, t': Entries, uid: int, rows: seq<EntryRow>, ids: seq<int>, fm: map<int, int>, n: nat)
    requires FreshIds(ids, |rows|, t.Keys) && n < |rows| && NotesSoFar(t, t', uid, rows, ids, fm, n)
    ensures NotesSoFar(t, t'[ids[n] := StagedEntry(rows[n], uid, fm)], uid, rows, ids, fm, n + 1)
  {
    assert ids[n] !in t';
    InsertAllStep(t, t', uid, rows, ids, fm, n);
    forall i | n + 1 <= i < |rows| ensures ids[i] !in t'[ids[n] := StagedEntry(rows[n], uid, fm)] {
      assert ids[n] != ids[i];
    }
  }

  lemma InsertAllStep(t: Entries, t': Entries, uid: int, rows: seq<EntryRow>, ids: seq<int>, fm: map<int, int>, n: nat)
    requires FreshIds(ids, |rows|, t.Keys) && n < |rows| && ids[n] !in t'
    requires InsertedAll(t, t', uid, rows, ids, fm, n)
    ensures InsertedAll(t, t'[ids[n] := StagedEntry(rows[n], uid, fm)], uid, rows, ids, fm, n + 1)
  {
  }

  lemma MapNoteStep(rows: seq<EntryRow>, ids: seq<int>, m: map<int, int>, n: nat)
    requires |ids| == |rows| && n < |rows| && NoteMapSoFar(rows, ids, m, n)
    ensures NoteMapSoFar(rows, ids, m[rows[n].id := ids[n]], n + 1)
  {
  }

  /** Stages the first row of every id under its repaired parent. */
  method InsertFolders(t: Folders, uid: int, rows: seq<FolderRow>, ids: seq<int>)
    returns (t': Folders, fm: map<int, int>, inserted: nat)
    requires FreshIds(ids, |rows|, t.Keys)
    ensures InsertedFolders(t, t', uid, rows, ids, |rows|)
    ensures IsFolderMap(rows, ids, fm)
    ensures |t'| == |t| + inserted && inserted == FirstsBefore(rows, |rows|)
  {
    var parents, warnings := FolderRepair.NormalizeFolderParents(rows);
    fm := FirstRows(rows, ids);
    t', inserted := StageFolders(t, uid, rows, ids, fm, parents[..]);
    StagedIsInserted(t, t', uid, rows, ids, fm, parents[..]);
  }

  lemma SeenAndCounted(rows: seq<FolderRow>, n: nat)
    requires n < |rows|
    ensures rows[n].id in IdsBefore(rows, n) <==> !IsFirst(rows, n)
    ensures IdsBefore(rows, n + 1) == IdsBefore(rows, n) + {rows[n].id}
    ensures IsFirst(rows, n) ==> FirstsBefore(rows, n + 1) == FirstsBefore(rows, n) + 1
    ensures !IsFirst(rows, n) ==> FirstsBefore(rows, n + 1) == FirstsBefore(rows, n)
    ensures !IsFirst(rows, n) ==> IdsBefore(rows, n + 1) == IdsBefore(rows, n)
  {
    SeenIsFirst(rows, n);
  }

  /** Stages the first row of every id under the parent given for it. */
  method StageFolders(t: Folders, uid: int, rows: seq<FolderRow>, ids: seq<int>, fm: map<int, int>,
                      parents: seq<Option<int>>)
    returns (t': Folders, inserted: nat)
    requires FreshIds(ids, |rows|, t.Keys) && |parents| == |rows|
    ensures StagedFolders(t, t', uid, rows, ids, fm, parents, |rows|)
    ensures |t'| == |t| + inserted && inserted == FirstsBefore(rows, |rows|)
  {
    t', inserted := t, 0;
    var seen: set<int> := {};
    for n := 0 to |rows|
      invariant FoldersSoFar(t, t', uid, rows, ids, fm, parents, n, inserted)
      invariant seen == IdsBefore(rows, n) && inserted == FirstsBefore(rows, n)
    {
      t', seen, inserted := StageFolder(t, t', uid, rows, ids, fm, parents, n, seen, inserted);
    }
  }

  /** A row is staged unless it repeats an id. */
  method StageFolder(ghost t: Folders, before: Folders, uid: int, rows: seq<FolderRow>, ids: seq<int>,
                     fm: map<int, int>, parents: seq<Option<int>>, n: nat, seen: set<int>, inserted: nat)
    returns (after: Folders, seen': set<int>, inserted': nat)
    requires FreshIds(ids, |rows|, t.Keys) && |parents| == |rows| && n < |rows|
    requires FoldersSoFar(t, before, uid, rows, ids, fm, parents, n, inserted)
    requires seen == IdsBefore(rows, n) && inserted == FirstsBefore(rows, n)
    ensures FoldersSoFar(t, after, uid, rows, ids, fm, parents, n + 1, inserted')
    ensures seen' == IdsBefore(rows, n + 1) && inserted' == FirstsBefore(rows, n + 1)
  {
    SeenAndCounted(rows, n);
    StageFolderStep(t, before, uid, rows, ids, fm, parents, n, inserted);
    if rows[n].id in seen {
      return before, seen, inserted;
    }
    after := before[ids[n] := Folder(uid, rows[n].name, MappedFolder(parents[n], fm))];
    seen', inserted' := seen + {rows[n].id}, inserted + 1;
  }

  /** The first `n` rows were inserted under the parents given, except those that repeat an id. */
  ghost predicate StagedFolders(t: Folders, t': Folders, uid: int, rows: seq<FolderRow>, ids: seq<int>,
                                fm: map<int, int>, parents: seq<Option<int>>, n: nat)
    requires |ids| == |rows| == |parents| && n <= |rows|
  {
    && (forall id :: id in t ==> id in t' && t'[id] == t[id])
    && (forall id :: id in t' && id !in t ==> exists i :: 0 <= i < n && IsFirst(rows, i) && ids[i] == id)
    && (forall i {:trigger ids[i]} :: 0 <= i < n && IsFirst(rows, i)
          ==> ids[i] in t' && t'[ids[i]] == Folder(uid, rows[i].name, MappedFolder(parents[i], fm)))
  }

  /** What the loop has done after `n` rows, `inserted` of which were the first of their id. */
  ghost predicate FoldersSoFar(t: Folders, t': Folders, uid: int, rows: seq<FolderRow>, ids: seq<int>,
                               fm: map<int, int>, parents: seq<Option<int>>, n: nat, inserted: nat)
    requires |ids| == |rows| == |parents| && n <= |rows|
  {
    && StagedFolders(t, t', uid, rows, ids, fm, parents, n)
    && |t'| == |t| + inserted
    && (forall i :: n <= i < |rows| ==> ids[i] !in t')
  }

  lemma StageFolderStep(t: Folders, t': Folders, uid: int, rows: seq<FolderRow>, ids: seq<int>, fm: map<int, int>,
                        parents: seq<Option<int>>, n: nat, inserted: nat)
    requires FreshIds(ids, |rows|, t.Keys) && |parents| == |rows| && n < |rows|
    requires FoldersSoFar(t, t', uid, rows, ids, fm, parents, n, inserted)
    ensures if IsFirst(rows, n)
            then FoldersSoFar(t, t'[ids[n] := Folder(uid, rows[n].name, MappedFolder(parents[n], fm))],
                              uid, rows, ids, fm, parents, n + 1, inserted + 1)
            else FoldersSoFar(t, t', uid, rows, ids, fm, parents, n + 1, inserted)
  {
    if IsFirst(rows, n) {
      InsertFolderStep(t, t', uid, rows, ids, fm, parents, n, inserted);
    } else {
      SkipFolderStep(t, t', uid, rows, ids, fm, parents, n, inserted);
    }
  }

  lemma SkipFolderStep(t: Folders, t': Folders, uid: int, rows: seq<FolderRow>, ids: seq<int>, fm: map<int, int>,
                       parents: seq<Option<int>>, n: nat, inserted: nat)
    requires |ids| == |rows| == |parents| && n < |rows| && !IsFirst(rows, n)
    requires FoldersSoFar(t, t', uid, rows, ids, fm, parents, n, inserted)
    ensures FoldersSoFar(t, t', uid, rows, ids, fm, parents, n + 1, inserted)
  {
  }

  lemma InsertFolderStep(t: Folders, t': Folders, uid: int, rows: seq<FolderRow>, ids: seq<int>, fm: map<int, int>,
                         parents: seq<Option<int>>, n: nat, inserted: nat)
    requires FreshIds(ids, |rows|, t.Keys) && |parents| == |rows| && n < |rows| && IsFirst(rows, n)
    requires FoldersSoFar(t, t', uid, rows, ids, fm, parents, n, inserted)
    ensures FoldersSoFar(t, t'[ids[n] := Folder(uid, rows[n].name, MappedFolder(parents[n], fm))],
                         uid, rows, ids, fm, parents, n + 1, inserted + 1)
  {
    assert ids[n] !in t';
    AddFolder(t, t', uid, rows, ids, fm, parents, n);
  }

  lemma AddFolder(t: Folders, t': Folders, uid: int, rows: seq<FolderRow>, ids: seq<int>, fm: map<int, int>,
                  parents: seq<Option<int>>, n: nat)
    requires FreshIds(ids, |rows|, t.Keys) && |parents| == |rows| && n < |rows| && ids[n] !in t' && IsFirst(rows, n)
    requires StagedFolders(t, t', uid, rows, ids, fm, parents, n)
    ensures StagedFolders(t, t'[ids[n] := Folder(uid, rows[n].name, MappedFolder(parents[n], fm))],
                          uid, rows, ids, fm, parents, n + 1)
  {
  }

  /** Under the repaired parents the rows staged are the forest the archive stands for. */
  lemma StagedIsInserted(t: Folders, t': Folders, uid: int, rows: seq<FolderRow>, ids: seq<int>, fm: map<int, int>,
                         parents: seq<Option<int>>)
    requires |ids| == |rows| == |parents| && IsFolderMap(rows, ids, fm)
    requires forall i :: 0 <= i < |rows| ==> parents[i] == RepairedParent(rows, i)
    requires StagedFolders(t, t', uid, rows, ids, fm, parents, |rows|)
    ensures InsertedFolders(t, t', uid, rows, ids, |rows|)
  {
    forall i: nat | i < |rows| ensures MappedFolder(parents[i], fm) == StagedParent(rows, ids, i) {
      JoinedParent(rows, ids, fm, i);
    }
  }

  /** Joining the repaired parent id to the staged rows finds the parent's own new id. */
  lemma JoinedParent(rows: seq<FolderRow>, ids: seq<int>, fm: map<int, int>, i: nat)
    requires |ids| == |rows| && IsFolderMap(rows, ids, fm) && i < |rows|
    ensures MappedFolder(RepairedParent(rows, i), fm) == StagedParent(rows, ids, i)
  {
  }

  method FirstRows(rows: seq<FolderRow>, ids: seq<int>) returns (fm: map<int, int>)
    requires |ids| == |rows|
    ensures IsFolderMap(rows, ids, fm)
  {
    fm := map[];
    for n := 0 to |rows|
      invariant forall id :: id in fm ==> exists i :: 0 <= i < n && IsFirst(rows, i) && rows[i].id == id
      invariant forall i :: 0 <= i < n ==> rows[i].id in fm
      invariant forall i :: 0 <= i < n && IsFirst(rows, i) ==> fm[rows[i].id] == ids[i]
    {
      assert IsFirst(rows, n) <==> rows[n].id !in fm;
      if rows[n].id !in fm {
        fm := fm[rows[n].id := ids[n]];
      }
    }
  }
}
