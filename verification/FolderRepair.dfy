/**
  Repairing the folder parents of a backup archive before it is staged.

  The repair indexes the first row of every id, drains a queue of rows whose
  parent is settled, detaches the rows left on cycles, and drains once more so
  that the trees hanging off a broken cycle are attached again.
*/
module FolderRepair {
  import opened Wrappers
  import opened FolderGraph

  /** `index` maps every id of `fs` to its first row. */
  predicate IsIndex(fs: seq<FolderRow>, index: map<int, nat>) {
    && (forall id :: id in index ==> index[id] < |fs| && fs[index[id]].id == id && IsFirst(fs, index[id]))
    && (forall i :: 0 <= i < |fs| ==> fs[i].id in index)
  }

  /** `children[p]` lists exactly the first rows whose parent is row `p`. */
  ghost predicate IsAdjacency(fs: seq<FolderRow>, children: seq<seq<nat>>) {
    && |children| == |fs|
    && (forall p, k :: 0 <= p < |fs| && 0 <= k < |children[p]| ==> IsChild(fs, p, children[p][k]))
    && (forall p, c: nat :: 0 <= p < |fs| && IsChild(fs, p, c) ==> c in children[p])
  }

  ghost predicate IsChild(fs: seq<FolderRow>, p: nat, c: nat) {
    c < |fs| && IsFirst(fs, c) && Next(fs, c) == Some(p)
  }

  /** The ids of the rows from `i` on that repeat an earlier id, one per ignored row. */
  function DuplicateIds(fs: seq<FolderRow>, i: nat): (r: seq<int>)
    requires i <= |fs|
    decreases |fs| - i
  {
    if i == |fs| then []
    else (if IsFirst(fs, i) then [] else [fs[i].id]) + DuplicateIds(fs, i + 1)
  }

  lemma IndexFinds(fs: seq<FolderRow>, index: map<int, nat>, id: int)
    requires IsIndex(fs, index)
    ensures IndexOf(fs, id) == if id in index then Some(index[id]) else None
  {
  }

  method IndexFolders(fs: seq<FolderRow>) returns (index: map<int, nat>, warnings: seq<int>)
    ensures IsIndex(fs, index)
    ensures warnings == DuplicateIds(fs, 0)
  {
    index, warnings := map[], [];
    for i := 0 to |fs|
      invariant forall id :: id in index ==> index[id] < i && fs[index[id]].id == id && IsFirst(fs, index[id])
      invariant forall j :: 0 <= j < i ==> fs[j].id in index
      invariant warnings + DuplicateIds(fs, i) == DuplicateIds(fs, 0)
    {
      if fs[i].id in index {
        assert !IsFirst(fs, i) by { assert fs[index[fs[i].id]].id == fs[i].id; }
        assert warnings + DuplicateIds(fs, i) == warnings + [fs[i].id] + DuplicateIds(fs, i + 1);
        warnings := warnings + [fs[i].id];
      } else {
        assert IsFirst(fs, i);
        assert DuplicateIds(fs, i) == DuplicateIds(fs, i + 1);
        index := index[fs[i].id := i];
      }
    }
  }

  method BuildAdjacency(fs: seq<FolderRow>, index: map<int, nat>)
    returns (children: seq<seq<nat>>, pending: array<bool>)
    requires IsIndex(fs, index)
    ensures IsAdjacency(fs, children)
    ensures fresh(pending) && pending.Length == |fs|
    ensures forall i {:trigger pending[i]} :: 0 <= i < |fs| ==> pending[i] == (IsFirst(fs, i) && Next(fs, i).Some?)
  {
    children := seq(|fs|, _ => []);
    pending := new bool[|fs|](_ => false);
    var seen: set<int> := {};
    for i := 0 to |fs|
      invariant IsAdjacencyOf(fs, children, i)
      invariant seen == IdsBefore(fs, i)
      invariant forall j {:trigger pending[j]} :: 0 <= j < |fs| ==>
                  pending[j] == (j < i && IsFirst(fs, j) && Next(fs, j).Some?)
    {
      SeenIsFirst(fs, i);
      AdjacencyStep(fs, children, i);
      if fs[i].id in seen {
        continue;
      }
      seen := seen + {fs[i].id};
      if fs[i].parent.None? {
        continue;
      }
      IndexFinds(fs, index, fs[i].parent.value);
      if fs[i].parent.value !in index {
        continue;
      }
      var parentIndex := index[fs[i].parent.value];
      pending[i] := true;
      children := children[parentIndex := children[parentIndex] + [i]];
    }
  }

  /** `children` lists the children among the first `n` rows. */
  ghost predicate IsAdjacencyOf(fs: seq<FolderRow>, children: seq<seq<nat>>, n: nat) {
    && |children| == |fs|
    && (forall p, k :: 0 <= p < |fs| && 0 <= k < |children[p]| ==> IsChild(fs, p, children[p][k]))
    && (forall p, c: nat :: 0 <= p < |fs| && IsChild(fs, p, c) && c < n ==> c in children[p])
  }

  lemma AdjacencyStep(fs: seq<FolderRow>, children: seq<seq<nat>>, i: nat)
    requires IsAdjacencyOf(fs, children, i) && i < |fs|
    ensures if IsFirst(fs, i) && Next(fs, i).Some?
            then var p := Next(fs, i).value; IsAdjacencyOf(fs, children[p := children[p] + [i]], i + 1)
            else IsAdjacencyOf(fs, children, i + 1)
  {
  }

  /**
    What holds of the working arrays whenever a drain starts or ends. `broken`
    says whether the cycles have been detached yet: until then every row on a
    cycle is pending, and from then on none is.
  */
  ghost predicate Settled(fs: seq<FolderRow>, pending: array<bool>, parents: array<Option<int>>, broken: bool)
    reads pending, parents
  {
    && pending.Length == parents.Length == |fs|
    && (forall i {:trigger pending[i]} :: 0 <= i < |fs| && pending[i] ==> IsFirst(fs, i) && Next(fs, i).Some?)
    && (forall i :: 0 <= i < |fs| && OnCycle(fs, i) ==> pending[i] == !broken)
    && (forall i :: 0 <= i < |fs| ==> parents[i] == if pending[i] then None else RepairedParent(fs, i))
  }

  /** Rows already processed are settled, and so are their children. */
  ghost predicate Processed(fs: seq<FolderRow>, pending: array<bool>, processed: array<bool>)
    requires pending.Length == processed.Length == |fs|
    reads pending, processed
  {
    && (forall i :: 0 <= i < |fs| && processed[i] ==> !pending[i])
    && (forall p, c: nat :: 0 <= p < |fs| && processed[p] && IsChild(fs, p, c) ==> !pending[c])
  }

  /** A pending row whose parent is settled is off every cycle, so it keeps its parent. */
  lemma ChildKeepsParent(fs: seq<FolderRow>, pending: array<bool>, parents: array<Option<int>>, broken: bool,
                         p: nat, c: nat)
    requires Settled(fs, pending, parents, broken)
    requires p < |fs| && IsChild(fs, p, c) && !pending[p] && pending[c]
    ensures !OnCycle(fs, c) && RepairedParent(fs, c) == Some(fs[p].id)
  {
    if OnCycle(fs, c) {
      CycleStep(fs, c);
    }
  }

  /** The rows waiting in the drain queue: settled, distinct, and covering all that is left to process. */
  ghost predicate IsQueue(fs: seq<FolderRow>, queue: seq<nat>, head: nat, pending: array<bool>, processed: array<bool>)
    requires pending.Length == processed.Length == |fs|
    reads pending, processed
  {
    && head <= |queue|
    && (forall k :: 0 <= k < |queue| ==> queue[k] < |fs| && !pending[queue[k]])
    && (forall j, k :: 0 <= j < k < |queue| ==> queue[j] != queue[k])
    && (forall j :: 0 <= j < |fs| && !pending[j] ==> processed[j] || j in queue[head..])
  }

  /** Following parents from the row reaches one that was settled when the drain began. */
  ghost predicate HangsOff(fs: seq<FolderRow>, start: seq<bool>, i: nat)
    requires |start| == |fs| && i < |fs|
  {
    exists k: nat :: Ancestor(fs, i, k).Some? && !start[Ancestor(fs, i, k).value]
  }

  /** The children of a row in the set are in it. */
  ghost predicate HoldsChildren(fs: seq<FolderRow>, rows: set<nat>) {
    forall p, c: nat :: p in rows && p < |fs| && IsChild(fs, p, c) ==> c in rows
  }

  /** Only rows of the set are settled. */
  ghost predicate SettledIn(rows: set<nat>, pending: array<bool>)
    reads pending
  {
    forall i: nat :: i < pending.Length && !pending[i] ==> i in rows
  }

  lemma HangingRows(fs: seq<FolderRow>, start: seq<bool>) returns (hanging: set<nat>)
    requires |start| == |fs|
    ensures forall i: nat :: i in hanging <==> i < |fs| && HangsOff(fs, start, i)
    ensures HoldsChildren(fs, hanging) && forall i: nat :: i < |fs| && !start[i] ==> i in hanging
  {
    hanging := set i: nat | i < |fs| && HangsOff(fs, start, i);
    forall p, c: nat | p in hanging && p < |fs| && IsChild(fs, p, c) ensures c in hanging {
      var k: nat :| Ancestor(fs, p, k).Some? && !start[Ancestor(fs, p, k).value];
      assert Ancestor(fs, c, k + 1) == Ancestor(fs, p, k);
    }
    forall i: nat | i < |fs| && !start[i] ensures i in hanging {
      assert Ancestor(fs, i, 0) == Some(i);
    }
  }

  /** What waits in a set closed under parents hangs off nothing outside it. */
  lemma ClosedHangsOffNothing(fs: seq<FolderRow>, start: seq<bool>, waiting: set<nat>, i: nat)
    requires |start| == |fs| && IsClosed(fs, waiting) && i in waiting && forall x :: x in waiting ==> start[x]
    ensures i < |fs| && !HangsOff(fs, start, i)
  {
    forall k: nat | Ancestor(fs, i, k).Some? ensures start[Ancestor(fs, i, k).value] {
      ClosedWalk(fs, waiting, i, k);
    }
  }

  method DrainParents(fs: seq<FolderRow>, children: seq<seq<nat>>, pending: array<bool>,
                      parents: array<Option<int>>, processed: array<bool>, ghost broken: bool)
    requires IsAdjacency(fs, children)
    requires pending.Length == processed.Length == |fs|
    requires pending != processed
    requires Settled(fs, pending, parents, broken)
    requires Processed(fs, pending, processed)
    modifies pending, parents, processed
    ensures Settled(fs, pending, parents, broken)
    ensures Processed(fs, pending, processed)
    ensures forall i :: 0 <= i < |fs| && !pending[i] ==> processed[i]
    ensures forall i: nat :: i < |fs| ==> pending[i] == !HangsOff(fs, old(pending[..]), i)
  {
    ghost var start := pending[..];
    ghost var hanging := HangingRows(fs, start);
    DrainLoop(fs, children, pending, parents, processed, broken, hanging);
    DrainIsExact(fs, pending, parents, processed, broken, start, hanging);
  }

  /** A drain leaves waiting exactly the rows that hang off nothing settled. */
  lemma DrainIsExact(fs: seq<FolderRow>, pending: array<bool>, parents: array<Option<int>>, processed: array<bool>,
                     broken: bool, start: seq<bool>, hanging: set<nat>)
    requires Settled(fs, pending, parents, broken) && |start| == |fs| && SettledIn(hanging, pending)
    requires forall i: nat :: i in hanging <==> i < |fs| && HangsOff(fs, start, i)
    requires forall i :: 0 <= i < |fs| && pending[i] ==> start[i]
    requires processed.Length == |fs| && Processed(fs, pending, processed)
    requires forall i :: 0 <= i < |fs| && !pending[i] ==> processed[i]
    ensures forall i: nat :: i < |fs| ==> pending[i] == !HangsOff(fs, start, i)
  {
    var waiting := set i: nat | i < |fs| && pending[i];
    WaitingIsClosed(fs, pending, parents, processed, broken, waiting);
    forall i: nat | i < |fs| ensures pending[i] == !HangsOff(fs, start, i) {
      if pending[i] {
        ClosedHangsOffNothing(fs, start, waiting, i);
      }
    }
  }

  method DrainLoop(fs: seq<FolderRow>, children: seq<seq<nat>>, pending: array<bool>, parents: array<Option<int>>,
                   processed: array<bool>, ghost broken: bool, ghost hanging: set<nat>)
    requires IsAdjacency(fs, children)
    requires pending.Length == processed.Length == |fs| && pending != processed
    requires Settled(fs, pending, parents, broken)
    requires Processed(fs, pending, processed) && HoldsChildren(fs, hanging) && SettledIn(hanging, pending)
    modifies pending, parents, processed
    ensures Settled(fs, pending, parents, broken)
    ensures Processed(fs, pending, processed) && SettledIn(hanging, pending)
    ensures forall i :: 0 <= i < |fs| && !pending[i] ==> processed[i]
    ensures forall i :: 0 <= i < |fs| && pending[i] ==> old(pending[i])
  {
    var queue: seq<nat> := [];
    for i := 0 to |fs|
      invariant forall k :: 0 <= k < |queue| ==> queue[k] < i && !pending[queue[k]]
      invariant forall j, k :: 0 <= j < k < |queue| ==> queue[j] != queue[k]
      invariant forall j :: 0 <= j < i && !pending[j] ==> processed[j] || j in queue
    {
      if !processed[i] && !pending[i] {
        queue := queue + [i];
      }
    }
    var head := 0;
    assert queue[head..] == queue;
    DistinctIsShort(queue, |fs|);
    while head < |queue|
      invariant IsQueue(fs, queue, head, pending, processed)
      invariant |queue| <= |fs|
      invariant Settled(fs, pending, parents, broken)
      invariant Processed(fs, pending, processed) && SettledIn(hanging, pending)
      invariant forall i :: 0 <= i < |fs| && pending[i] ==> old(pending[i])
      decreases |fs| - head
    {
      var index := queue[head];
      head := head + 1;
      if processed[index] {
        continue;
      }
      processed[index] := true;
      queue := SettleChildren(fs, children[index], index, queue, head, pending, parents, processed, broken, hanging);
      DistinctIsShort(queue, |fs|);
    }
  }

  ghost predicate ReachesCycle(fs: seq<FolderRow>, i: nat) {
    i < |fs| && exists k: nat :: Ancestor(fs, i, k).Some? && OnCycle(fs, Ancestor(fs, i, k).value)
  }

  /** A row that a drain leaves pending hangs off a cycle. */
  lemma LeftReachesCycle(fs: seq<FolderRow>, pending: array<bool>, parents: array<Option<int>>, processed: array<bool>,
                         broken: bool)
    requires Settled(fs, pending, parents, broken)
    requires processed.Length == |fs| && Processed(fs, pending, processed)
    requires forall i :: 0 <= i < |fs| && !pending[i] ==> processed[i]
    ensures forall i: nat :: i < |fs| && pending[i] ==> ReachesCycle(fs, i)
  {
    var waiting := set i: nat | i < |fs| && pending[i];
    WaitingIsClosed(fs, pending, parents, processed, broken, waiting);
    forall i: nat | i < |fs| && pending[i] ensures ReachesCycle(fs, i) {
      ClosedWalk(fs, waiting, i, |fs|);
      var a := LongWalkMeetsCycle(fs, i);
    }
  }

  lemma WaitingIsClosed(fs: seq<FolderRow>, pending: array<bool>, parents: array<Option<int>>, processed: array<bool>,
                        broken: bool, waiting: set<nat>)
    requires Settled(fs, pending, parents, broken)
    requires processed.Length == |fs| && Processed(fs, pending, processed)
    requires forall i :: 0 <= i < |fs| && !pending[i] ==> processed[i]
    requires forall i: nat :: i in waiting <==> i < |fs| && pending[i]
    ensures IsClosed(fs, waiting)
  {
    forall x: nat | x in waiting ensures Next(fs, x).Some? && Next(fs, x).value in waiting {
      assert IsChild(fs, Next(fs, x).value, x);
    }
  }

  /** Settles every pending child of the row just processed and appends it to the queue. */
  method SettleChildren(fs: seq<FolderRow>, kids: seq<nat>, index: nat, queue: seq<nat>, head: nat,
                        pending: array<bool>, parents: array<Option<int>>, processed: array<bool>, ghost broken: bool,
                        ghost hanging: set<nat>)
    returns (grown: seq<nat>)
    requires HoldsChildren(fs, hanging) && SettledIn(hanging, pending)
    requires pending.Length == processed.Length == |fs|
    requires index < |fs| && !pending[index]
    requires forall c :: c in kids <==> IsChild(fs, index, c)
    requires pending != processed
    requires IsQueue(fs, queue, head, pending, processed)
    requires Settled(fs, pending, parents, broken)
    requires forall i :: 0 <= i < |fs| && processed[i] ==> !pending[i]
    modifies pending, parents
    ensures IsQueue(fs, grown, head, pending, processed)
    ensures Settled(fs, pending, parents, broken)
    ensures forall i :: 0 <= i < |fs| && pending[i] ==> old(pending[i])
    ensures forall c: nat :: IsChild(fs, index, c) ==> !pending[c]
    ensures SettledIn(hanging, pending)
  {
    grown := queue;
    for k := 0 to |kids|
      invariant IsQueue(fs, grown, head, pending, processed)
      invariant Settled(fs, pending, parents, broken)
      invariant forall i :: 0 <= i < |fs| && pending[i] ==> old(pending[i])
      invariant forall j :: 0 <= j < k ==> kids[j] < |fs| && !pending[kids[j]]
      invariant !pending[index] && SettledIn(hanging, pending)
    {
      var child := kids[k];
      assert child in kids;
      if processed[child] || !pending[child] {
        continue;
      }
      SettleChild(fs, index, child, grown, head, pending, parents, processed, broken);
      grown := grown + [child];
    }
  }

  method SettleChild(fs: seq<FolderRow>, index: nat, child: nat, ghost queue: seq<nat>, ghost head: nat,
                     pending: array<bool>, parents: array<Option<int>>, ghost processed: array<bool>,
                     ghost broken: bool)
    requires pending.Length == processed.Length == |fs| && pending != processed
    requires index < |fs| && !pending[index] && IsChild(fs, index, child) && pending[child]
    requires IsQueue(fs, queue, head, pending, processed) && Settled(fs, pending, parents, broken)
    modifies pending, parents
    ensures IsQueue(fs, queue + [child], head, pending, processed) && Settled(fs, pending, parents, broken)
    ensures forall i :: 0 <= i < |fs| ==> pending[i] == (i != child && old(pending[i]))
  {
    ChildKeepsParent(fs, pending, parents, broken, index, child);
    pending[child] := false;
    parents[child] := Some(fs[index].id);
    assert (queue + [child])[head..] == queue[head..] + [child];
  }

  /** The walk from its first repeated row on is a cycle, and begins with the start when that is on one. */
  lemma SliceIsCycle(fs: seq<FolderRow>, start: nat, path: seq<nat>, first: nat)
    requires start < |fs| && IsWalk(fs, start, path) && first < |path|
             && Ancestor(fs, start, |path|) == Some(path[first])
    requires forall j, k :: 0 <= j < k < |path| ==> path[j] != path[k]
    ensures forall x :: x in path[first..] ==> x < |fs| && OnCycle(fs, x)
    ensures OnCycle(fs, start) ==> start in path[first..]
  {
    ReturnIsCycle(fs, start, path, first);
    if OnCycle(fs, start) {
      FirstReturnIsStart(fs, start, path, first);
      assert path[0] == start && path[first..] == path;
    }
  }

  /** A walk from a row on a cycle never ends. */
  lemma CycleGoesOn(fs: seq<FolderRow>, start: nat, k: nat)
    requires start < |fs| && Ancestor(fs, start, k).Some?
    ensures OnCycle(fs, start) ==>
              OnCycle(fs, Ancestor(fs, start, k).value) && Next(fs, Ancestor(fs, start, k).value).Some?
  {
    if OnCycle(fs, start) {
      CycleNeverEnds(fs, start, k);
      CycleStep(fs, Ancestor(fs, start, k).value);
    }
  }

  method CycleSlice(start: nat, fs: seq<FolderRow>, index: map<int, nat>, pending: array<bool>)
    returns (slice: seq<nat>)
    requires IsIndex(fs, index) && start < |fs| == pending.Length
    ensures forall x :: x in slice ==> x < |fs| && OnCycle(fs, x)
    ensures (forall i :: 0 <= i < |fs| && OnCycle(fs, i) ==> pending[i]) && OnCycle(fs, start) ==> start in slice
  {
    var path: seq<nat> := [];
    var at: map<nat, nat> := map[];
    var cur := start;
    while pending[cur]
      invariant cur < |fs| && Ancestor(fs, start, |path|) == Some(cur)
      invariant IsWalk(fs, start, path)
      invariant forall k :: 0 <= k < |path| ==> path[k] < |fs| && path[k] in at && at[path[k]] == k
      invariant forall x :: x in at ==> at[x] < |path| && path[at[x]] == x
      decreases |fs| - |path|
    {
      if cur in at {
        SliceIsCycle(fs, start, path, at[cur]);
        return path[at[cur]..];
      }
      CycleGoesOn(fs, start, |path|);
      AncestorAdd(fs, start, |path|, 1);
      at := at[cur := |path|];
      path := path + [cur];
      DistinctIsShort(path, |fs|);
      if fs[cur].parent.None? {
        return [];
      }
      IndexFinds(fs, index, fs[cur].parent.value);
      if fs[cur].parent.value !in index {
        return [];
      }
      assert Next(fs, cur) == Some(index[fs[cur].parent.value]);
      cur := index[fs[cur].parent.value];
    }
    CycleGoesOn(fs, start, |path|);
    return [];
  }

  method MarkCycles(fs: seq<FolderRow>, index: map<int, nat>, pending: array<bool>) returns (inCycle: array<bool>)
    requires IsIndex(fs, index) && pending.Length == |fs|
    requires forall i :: 0 <= i < |fs| && OnCycle(fs, i) ==> pending[i]
    ensures fresh(inCycle) && inCycle.Length == |fs|
    ensures forall i :: 0 <= i < |fs| ==> inCycle[i] == OnCycle(fs, i)
  {
    inCycle := new bool[|fs|](_ => false);
    for i := 0 to |fs|
      invariant forall j :: 0 <= j < |fs| && inCycle[j] ==> OnCycle(fs, j)
      invariant forall j :: 0 <= j < i && OnCycle(fs, j) ==> inCycle[j]
    {
      if !pending[i] {
        continue;
      }
      var slice := CycleSlice(i, fs, index, pending);
      for k := 0 to |slice|
        invariant forall j :: 0 <= j < |fs| && inCycle[j] ==> OnCycle(fs, j)
        invariant forall j :: 0 <= j < i && OnCycle(fs, j) ==> inCycle[j]
        invariant forall j :: 0 <= j < k ==> slice[j] < |fs| && inCycle[slice[j]]
      {
        assert slice[k] in slice;
        inCycle[slice[k]] := true;
      }
    }
  }

  /** Every marked row loses its parent and waits no longer. */
  method DetachMarked(inCycle: array<bool>, pending: array<bool>, parents: array<Option<int>>)
    requires inCycle.Length == pending.Length == parents.Length && inCycle != pending
    modifies pending, parents
    ensures forall i :: 0 <= i < pending.Length ==> pending[i] == (old(pending[i]) && !inCycle[i])
    ensures forall i :: 0 <= i < parents.Length ==> parents[i] == if inCycle[i] then None else old(parents[i])
  {
    for i := 0 to pending.Length
      invariant forall j :: 0 <= j < pending.Length ==> pending[j] == (old(pending[j]) && !(j < i && inCycle[j]))
      invariant forall j :: 0 <= j < parents.Length ==>
                  parents[j] == if j < i && inCycle[j] then None else old(parents[j])
    {
      if !inCycle[i] {
        continue;
      }
      parents[i] := None;
      pending[i] := false;
    }
  }

  method DetachCycles(fs: seq<FolderRow>, index: map<int, nat>, pending: array<bool>, parents: array<Option<int>>)
    requires IsIndex(fs, index)
    requires Settled(fs, pending, parents, false)
    modifies pending, parents
    ensures Settled(fs, pending, parents, true)
    ensures forall i :: 0 <= i < |fs| ==> pending[i] == (old(pending[i]) && !OnCycle(fs, i))
  {
    var inCycle := MarkCycles(fs, index, pending);
    DetachMarked(inCycle, pending, parents);
  }

  /**
    Whatever the rows are, a row keeps its parent exactly when it is the first of
    its id, the parent exists and the row is on no cycle; the result is a forest.
  */
  method NormalizeFolderParents(fs: seq<FolderRow>) returns (parents: array<Option<int>>, warnings: seq<int>)
    ensures fresh(parents) && parents.Length == |fs|
    ensures forall i :: 0 <= i < |fs| ==> parents[i] == RepairedParent(fs, i)
    ensures IsForest(WithParents(fs, parents[..]))
    ensures warnings == DuplicateIds(fs, 0)
  {
    var index;
    index, warnings := IndexFolders(fs);
    var children, pending := BuildAdjacency(fs, index);
    parents := new Option<int>[|fs|](_ => None);
    var processed := new bool[|fs|](_ => false);
    InitiallySettled(fs, pending, parents);
    DrainParents(fs, children, pending, parents, processed, false);
    DetachCycles(fs, index, pending, parents);
    DrainParents(fs, children, pending, parents, processed, true);
    NothingPending(fs, pending, parents, processed);
    RepairedIsForest(fs, parents[..]);
  }

  lemma InitiallySettled(fs: seq<FolderRow>, pending: array<bool>, parents: array<Option<int>>)
    requires pending.Length == parents.Length == |fs|
    requires forall i :: 0 <= i < |fs| ==> pending[i] == (IsFirst(fs, i) && Next(fs, i).Some?)
    requires forall i :: 0 <= i < |fs| ==> parents[i] == None
    ensures Settled(fs, pending, parents, false)
  {
    forall i | 0 <= i < |fs| && OnCycle(fs, i) ensures pending[i] {
      CycleStep(fs, i);
    }
  }

  /** Once the cycles are broken and the queue drained, no row waits for its parent. */
  lemma NothingPending(fs: seq<FolderRow>, pending: array<bool>, parents: array<Option<int>>, processed: array<bool>)
    requires Settled(fs, pending, parents, true)
    requires processed.Length == |fs| && Processed(fs, pending, processed)
    requires forall i :: 0 <= i < |fs| && !pending[i] ==> processed[i]
    ensures forall i :: 0 <= i < |fs| ==> !pending[i]
  {
    var waiting := set i: nat | i < |fs| && pending[i];
    WaitingIsClosed(fs, pending, parents, processed, true, waiting);
    if i :| i in waiting {
      var c := ClosedSetMeetsCycle(fs, waiting, i);
    }
  }
}
