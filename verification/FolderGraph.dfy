/**
  The folder rows of a backup archive, read as a graph.

  An archive is untrusted: ids may repeat, a parent may name no row or the row
  itself, and parents may form cycles. A row's parent is always resolved to the
  first row carrying that id, so the rows form a functional graph over indices.
*/
module FolderGraph {
  import opened Wrappers

  datatype FolderRow = FolderRow(id: int, parent: Option<int>, name: string)

  /** Row `i` is the one its id resolves to; any later row with the same id is ignored. */
  predicate IsFirst(fs: seq<FolderRow>, i: nat)
    requires i < |fs|
  {
    forall j :: 0 <= j < i ==> fs[j].id != fs[i].id
  }

  /** The ids of the first `n` rows. */
  function IdsBefore(fs: seq<FolderRow>, n: nat): (r: set<int>)
    requires n <= |fs|
  {
    if n == 0 then {} else IdsBefore(fs, n - 1) + {fs[n - 1].id}
  }

  lemma {:induction false} IdIsBefore(fs: seq<FolderRow>, n: nat, id: int)
    requires n <= |fs|
    ensures id in IdsBefore(fs, n) <==> exists j :: 0 <= j < n && fs[j].id == id
  {
    if n != 0 {
      IdIsBefore(fs, n - 1, id);
    }
  }

  lemma SeenIsFirst(fs: seq<FolderRow>, n: nat)
    requires n < |fs|
    ensures fs[n].id in IdsBefore(fs, n) <==> !IsFirst(fs, n)
    ensures IdsBefore(fs, n + 1) == IdsBefore(fs, n) + {fs[n].id}
  {
    IdIsBefore(fs, n, fs[n].id);
  }

  /** How many of the first `n` rows are the first of their id. */
  function FirstsBefore(fs: seq<FolderRow>, n: nat): (r: nat)
    requires n <= |fs|
  {
    if n == 0 then 0 else FirstsBefore(fs, n - 1) + (if IsFirst(fs, n - 1) then 1 else 0)
  }

  function IndexOf(fs: seq<FolderRow>, id: int): (r: Option<nat>)
    ensures r.Some? ==> r.value < |fs| && fs[r.value].id == id && IsFirst(fs, r.value)
    ensures r.None? ==> forall i :: 0 <= i < |fs| ==> fs[i].id != id
  {
    if fs == [] then None
    else
      var n := |fs| - 1;
      match IndexOf(fs[..n], id)
      case Some(i) => Some(i)
      case None => if fs[n].id == id then Some(n) else None
  }

  /** The row that row `i` names as its parent, if the archive holds one. */
  function Next(fs: seq<FolderRow>, i: nat): (r: Option<nat>)
    requires i < |fs|
    ensures r.Some? ==> r.value < |fs| && IsFirst(fs, r.value) && fs[i].parent == Some(fs[r.value].id)
  {
    if fs[i].parent.Some? then IndexOf(fs, fs[i].parent.value) else None
  }

  /** The row reached from `i` by following `k` parents. */
  function Ancestor(fs: seq<FolderRow>, i: nat, k: nat): (r: Option<nat>)
    requires i < |fs|
    ensures r.Some? ==> r.value < |fs|
    decreases k
  {
    if k == 0 then Some(i)
    else
      match Next(fs, i)
      case None => None
      case Some(p) => Ancestor(fs, p, k - 1)
  }

  ghost predicate OnCycle(fs: seq<FolderRow>, i: nat)
    requires i < |fs|
  {
    exists k: nat :: k >= 1 && Ancestor(fs, i, k) == Some(i)
  }

  /** What the repaired archive must record as the parent of row `i`. */
  ghost function RepairedParent(fs: seq<FolderRow>, i: nat): (r: Option<int>)
    requires i < |fs|
  {
    if IsFirst(fs, i) && Next(fs, i).Some? && !OnCycle(fs, i) then fs[i].parent else None
  }

  /** A row keeps its parent exactly when it is the first of its id, some row is the parent, and it is on no cycle. */
  lemma ParentKeptExactly(fs: seq<FolderRow>, i: nat)
    requires i < |fs|
    ensures RepairedParent(fs, i)
            == if (&& (forall j :: 0 <= j < i ==> fs[j].id != fs[i].id)
                   && (exists p :: 0 <= p < |fs| && fs[i].parent == Some(fs[p].id)) && !OnCycle(fs, i))
               then fs[i].parent else None
  {
  }

  /** `parents` replaces the parent column of `fs`. */
  function WithParents(fs: seq<FolderRow>, parents: seq<Option<int>>): (r: seq<FolderRow>)
    requires |parents| == |fs|
    ensures |r| == |fs|
    ensures forall i :: 0 <= i < |fs| ==> r[i] == fs[i].(parent := parents[i])
  {
    seq(|fs|, i requires 0 <= i < |fs| => fs[i].(parent := parents[i]))
  }

  /** Following parents from any row reaches a root. */
  ghost predicate IsForest(fs: seq<FolderRow>) {
    forall i :: 0 <= i < |fs| ==> Ancestor(fs, i, |fs|) == None
  }

  lemma {:induction false} AncestorAdd(fs: seq<FolderRow>, i: nat, a: nat, b: nat)
    requires i < |fs| && Ancestor(fs, i, a).Some?
    ensures Ancestor(fs, i, a + b) == Ancestor(fs, Ancestor(fs, i, a).value, b)
    decreases a
  {
    if a != 0 {
      AncestorAdd(fs, Next(fs, i).value, a - 1, b);
    }
  }

  lemma {:induction false} AncestorShorter(fs: seq<FolderRow>, i: nat, a: nat, b: nat)
    requires i < |fs| && a <= b && Ancestor(fs, i, b).Some?
    ensures Ancestor(fs, i, a).Some?
    decreases a
  {
    if a != 0 {
      AncestorShorter(fs, Next(fs, i).value, a - 1, b - 1);
    }
  }

  lemma {:induction false} AncestorIsFirst(fs: seq<FolderRow>, i: nat, k: nat)
    requires i < |fs| && k >= 1 && Ancestor(fs, i, k).Some?
    ensures IsFirst(fs, Ancestor(fs, i, k).value)
    decreases k
  {
    if k > 1 {
      AncestorIsFirst(fs, Next(fs, i).value, k - 1);
    }
  }

  /** A cycle is closed under parents and never contains an ignored duplicate row. */
  lemma CycleStep(fs: seq<FolderRow>, i: nat)
    requires i < |fs| && OnCycle(fs, i)
    ensures IsFirst(fs, i)
    ensures Next(fs, i).Some? && OnCycle(fs, Next(fs, i).value)
  {
    var k: nat :| k >= 1 && Ancestor(fs, i, k) == Some(i);
    AncestorIsFirst(fs, i, k);
    var p := Next(fs, i).value;
    AncestorAdd(fs, p, k - 1, 1);
    assert Ancestor(fs, i, 1) == Ancestor(fs, p, 0);
    assert Ancestor(fs, p, k) == Some(p);
  }

  lemma {:induction false} Pigeonhole(s: seq<nat>, n: nat) returns (a: nat, b: nat)
    requires |s| > n
    requires forall i :: 0 <= i < |s| ==> s[i] < n
    ensures a < b < |s| && s[a] == s[b]
    decreases n
  {
    assert s[0] < n;
    if i, j :| 0 <= i < j < |s| && s[i] == n - 1 && s[j] == n - 1 {
      return i, j;
    }
    var k: nat := 0;
    if h :| 0 <= h < |s| && s[h] == n - 1 {
      k := h;
    }
    var t := s[..k] + s[k + 1..];
    forall i | 0 <= i < |t| ensures t[i] == s[Skip(i, k)] && t[i] < n - 1 {
      if i < k {
        assert t[i] == s[i];
      } else {
        assert t[i] == s[i + 1];
      }
    }
    var c, d := Pigeonhole(t, n - 1);
    a, b := Skip(c, k), Skip(d, k);
  }

  /** The index in a list of what stands at `i` once the element at `k` is left out. */
  function Skip(i: nat, k: nat): (j: nat) {
    if i < k then i else i + 1
  }

  lemma DistinctIsShort(s: seq<nat>, n: nat)
    requires forall i :: 0 <= i < |s| ==> s[i] < n
    requires forall i, j :: 0 <= i < j < |s| ==> s[i] != s[j]
    ensures |s| <= n
  {
    if |s| > n {
      var a, b := Pigeonhole(s, n);
    }
  }

  /** A walk as long as the archive must have met a cycle on the way. */
  lemma LongWalkMeetsCycle(fs: seq<FolderRow>, i: nat) returns (a: nat)
    requires i < |fs| && Ancestor(fs, i, |fs|).Some?
    ensures a < |fs| && Ancestor(fs, i, a).Some? && OnCycle(fs, Ancestor(fs, i, a).value)
  {
    forall k: nat | k <= |fs| ensures Ancestor(fs, i, k).Some? {
      AncestorShorter(fs, i, k, |fs|);
    }
    var walk := seq(|fs| + 1, k requires 0 <= k <= |fs| => Ancestor(fs, i, k).value);
    var x, y := Pigeonhole(walk, |fs|);
    AncestorAdd(fs, i, x, y - x);
    assert Ancestor(fs, walk[x], y - x) == Some(walk[x]);
    a := x;
  }

  /** The parent of every row of `p` exists and is in `p`. */
  ghost predicate IsClosed(fs: seq<FolderRow>, p: set<nat>) {
    && (forall x :: x in p ==> x < |fs|)
    && (forall x: nat {:trigger Next(fs, x)} :: x in p ==> Next(fs, x).Some? && Next(fs, x).value in p)
  }

  /** A set of rows that is closed under parents and not empty contains a cycle. */
  lemma ClosedSetMeetsCycle(fs: seq<FolderRow>, p: set<nat>, i: nat) returns (c: nat)
    requires IsClosed(fs, p)
    requires i in p
    ensures c in p && OnCycle(fs, c)
  {
    ClosedWalk(fs, p, i, |fs|);
    var a := LongWalkMeetsCycle(fs, i);
    ClosedWalk(fs, p, i, a);
    c := Ancestor(fs, i, a).value;
  }

  lemma {:induction false} ClosedWalk(fs: seq<FolderRow>, p: set<nat>, i: nat, k: nat)
    requires IsClosed(fs, p)
    requires i in p
    ensures Ancestor(fs, i, k).Some? && Ancestor(fs, i, k).value in p
    decreases k
  {
    if k != 0 {
      ClosedWalk(fs, p, Next(fs, i).value, k - 1);
    }
  }

  /** Every step in the repaired archive is a step of the original one, from a row off every cycle. */
  lemma RepairedStep(fs: seq<FolderRow>, parents: seq<Option<int>>, i: nat)
    requires |parents| == |fs| && i < |fs|
    requires parents[i] == RepairedParent(fs, i)
    ensures Next(WithParents(fs, parents), i).Some?
            ==> !OnCycle(fs, i) && Next(WithParents(fs, parents), i) == Next(fs, i)
    ensures parents[i].Some? ==> Next(WithParents(fs, parents), i) == Next(fs, i)
  {
  }

  /** Every step in `gs` is a step in `fs`. */
  ghost predicate StepsWithin(gs: seq<FolderRow>, fs: seq<FolderRow>) {
    |gs| == |fs| && forall j: nat :: j < |fs| && Next(gs, j).Some? ==> Next(gs, j) == Next(fs, j)
  }

  lemma RepairedStepsWithin(fs: seq<FolderRow>, parents: seq<Option<int>>)
    requires |parents| == |fs|
    requires forall j :: 0 <= j < |fs| ==> parents[j] == RepairedParent(fs, j)
    ensures StepsWithin(WithParents(fs, parents), fs)
  {
    forall j: nat | j < |fs| && Next(WithParents(fs, parents), j).Some?
      ensures Next(WithParents(fs, parents), j) == Next(fs, j)
    {
      RepairedStep(fs, parents, j);
    }
  }

  lemma {:induction false} WalkWithin(gs: seq<FolderRow>, fs: seq<FolderRow>, i: nat, k: nat)
    requires StepsWithin(gs, fs) && i < |fs| && Ancestor(gs, i, k).Some?
    ensures Ancestor(fs, i, k) == Ancestor(gs, i, k)
    decreases k
  {
    if k != 0 {
      WalkWithin(gs, fs, Next(gs, i).value, k - 1);
    }
  }

  lemma WalkGoesOn(fs: seq<FolderRow>, i: nat, a: nat, k: nat)
    requires i < |fs| && a < k && Ancestor(fs, i, k).Some?
    ensures Ancestor(fs, i, a).Some? && Next(fs, Ancestor(fs, i, a).value).Some?
  {
    AncestorShorter(fs, i, a, k);
    AncestorShorter(fs, i, a + 1, k);
    AncestorAdd(fs, i, a, 1);
    var r := Ancestor(fs, i, a).value;
    assert Ancestor(fs, r, 1).Some? ==> Next(fs, r).Some?;
  }

  /** The repaired parents form a forest, whatever the archive contained. */
  lemma RepairedIsForest(fs: seq<FolderRow>, parents: seq<Option<int>>)
    requires |parents| == |fs|
    requires forall j :: 0 <= j < |fs| ==> parents[j] == RepairedParent(fs, j)
    ensures IsForest(WithParents(fs, parents))
  {
    var gs := WithParents(fs, parents);
    RepairedStepsWithin(fs, parents);
    forall i | 0 <= i < |gs| ensures Ancestor(gs, i, |gs|) == None {
      if Ancestor(gs, i, |gs|).Some? {
        WalkWithin(gs, fs, i, |gs|);
        var a := LongWalkMeetsCycle(fs, i);
        WalkGoesOn(gs, i, a, |gs|);
        WalkWithin(gs, fs, i, a);
        RepairedStep(fs, parents, Ancestor(fs, i, a).value);
      }
    }
  }

  /** Rows whose parents already form a forest keep every parent that exists. */
  lemma ForestIsKept(fs: seq<FolderRow>, i: nat)
    requires i < |fs| && IsForest(fs)
    ensures !OnCycle(fs, i)
    ensures RepairedParent(fs, i) == if IsFirst(fs, i) && Next(fs, i).Some? then fs[i].parent else None
  {
    if OnCycle(fs, i) {
      CycleNeverEnds(fs, i, |fs|);
    }
  }

  /** Repairing an archive a second time changes nothing. */
  lemma RepairIsIdempotent(fs: seq<FolderRow>, parents: seq<Option<int>>, i: nat)
    requires |parents| == |fs| && i < |fs|
    requires forall j :: 0 <= j < |fs| ==> parents[j] == RepairedParent(fs, j)
    ensures RepairedParent(WithParents(fs, parents), i) == parents[i]
  {
    RepairedIsForest(fs, parents);
    ForestIsKept(WithParents(fs, parents), i);
    RepairedStep(fs, parents, i);
  }

  lemma {:induction false} CycleNeverEnds(fs: seq<FolderRow>, i: nat, k: nat)
    requires i < |fs| && OnCycle(fs, i)
    ensures Ancestor(fs, i, k).Some? && OnCycle(fs, Ancestor(fs, i, k).value)
    decreases k
  {
    if k != 0 {
      CycleStep(fs, i);
      CycleNeverEnds(fs, Next(fs, i).value, k - 1);
    }
  }

  lemma LeastPeriod(fs: seq<FolderRow>, i: nat) returns (k: nat)
    requires i < |fs| && OnCycle(fs, i)
    ensures k >= 1 && Ancestor(fs, i, k) == Some(i)
    ensures forall q: nat :: 1 <= q < k ==> Ancestor(fs, i, q) != Some(i)
  {
    ghost var bound: nat :| bound >= 1 && Ancestor(fs, i, bound) == Some(i);
    k := 1;
    while Ancestor(fs, i, k) != Some(i)
      invariant 1 <= k <= bound
      invariant forall q: nat :: 1 <= q < k ==> Ancestor(fs, i, q) != Some(i)
      decreases bound - k
    {
      k := k + 1;
    }
  }

  /** `path` is the walk from `start`, before any row is met twice. */
  ghost predicate IsWalk(fs: seq<FolderRow>, start: nat, path: seq<nat>) {
    && start < |fs|
    && (forall k :: 0 <= k < |path| ==> Ancestor(fs, start, k) == Some(path[k]))
    && (forall j, k :: 0 <= j < k < |path| ==> path[j] != path[k])
  }

  lemma WalkNeverReturns(fs: seq<FolderRow>, start: nat, path: seq<nat>)
    requires IsWalk(fs, start, path)
    ensures forall k :: 1 <= k < |path| ==> Ancestor(fs, start, k) != Some(start)
  {
    forall k | 1 <= k < |path| ensures Ancestor(fs, start, k) != Some(start) {
      assert path[0] != path[k];
    }
  }

  /** A walk that started on a cycle first meets again the row it started from. */
  lemma FirstReturnIsStart(fs: seq<FolderRow>, start: nat, path: seq<nat>, j: nat)
    requires IsWalk(fs, start, path) && OnCycle(fs, start)
    requires j < |path| && Ancestor(fs, start, |path|) == Some(path[j])
    ensures j == 0
  {
    var k := LeastPeriod(fs, start);
    var m := |path|;
    WalkNeverReturns(fs, start, path);
    if k >= m {
      AncestorAdd(fs, start, m, k - m);
      AncestorAdd(fs, start, j, k - m);
      assert Ancestor(fs, start, j + (k - m)) == Some(start);
    }
  }

  /** From its first repeated row on, a walk lies on a cycle. */
  lemma ReturnIsCycle(fs: seq<FolderRow>, start: nat, path: seq<nat>, j: nat)
    requires IsWalk(fs, start, path)
    requires j < |path| && Ancestor(fs, start, |path|) == Some(path[j])
    ensures forall k :: j <= k < |path| ==> path[k] < |fs| && OnCycle(fs, path[k])
  {
    forall k: nat | j <= k < |path| ensures path[k] < |fs| && OnCycle(fs, path[k]) {
      AncestorAdd(fs, start, j, |path| - j);
      AncestorAdd(fs, start, j, k - j);
      assert Ancestor(fs, path[j], |path| - j) == Some(path[j]);
      CycleNeverEnds(fs, path[j], k - j);
    }
  }
}
