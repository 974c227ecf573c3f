// Persisting a plan: rows are inserted one by one, then dependency indexes are
// turned into the ids of the inserted rows. A plan with backward edges leaves an
// acyclic table acyclic and carries its own reachability over to the table.
module TaskTable {
  import opened Digraph
  import opened Sequences
  import opened TaskDependencies
  import opened TransitiveReduction
  import opened PlanSaving

  type Rows = map<TaskId, seq<TaskId>>

  function TableGraph(rows: Rows): Graph<TaskId> {
    map id | id in rows :: set d | d in rows[id]
  }

  // savedIds[d] for every index that has one.
  function IdsOf(indexes: seq<nat>, ids: seq<TaskId>): seq<TaskId> {
    if indexes == [] then [] else
      var r := IdsOf(indexes[..|indexes| - 1], ids);
      var last := indexes[|indexes| - 1];
      if last < |ids| then r + [ids[last]] else r
  }

  lemma {:induction false} IdsOfIff(indexes: seq<nat>, ids: seq<TaskId>, id: TaskId)
    ensures id in IdsOf(indexes, ids) <==> exists d: nat :: d in indexes && d < |ids| && ids[d] == id
  {
    if indexes != [] {
      var (prefix, last) := (indexes[..|indexes| - 1], indexes[|indexes| - 1]);
      IdsOfIff(prefix, ids, id);
      assert indexes == prefix + [last];
      assert forall d: nat :: d in indexes <==> d in prefix || d == last;
    }
  }

  // The dependencies a row ends up with.
  function FinalDependencies(task: PlannedTask, ids: seq<TaskId>): seq<TaskId> {
    if task.dependsOnIndexes == [] then task.dependencies
    else Merged(task, ids)
  }

  function Merged(task: PlannedTask, ids: seq<TaskId>): seq<TaskId> {
    Dedup(task.dependencies + IdsOf(task.dependsOnIndexes, ids))
  }

  lemma MergeKeepsDependencies(task: PlannedTask, ids: seq<TaskId>)
    ensures Merged(task, ids) == [] ==> task.dependencies == []
  {
    var all := task.dependencies + IdsOf(task.dependsOnIndexes, ids);
    if task.dependencies != [] {
      assert task.dependencies[0] in all;
    }
  }

  ghost predicate FreshIds(rows: Rows, ids: seq<TaskId>) {
    NoDuplicates(ids) && forall i :: 0 <= i < |ids| ==> ids[i] !in rows
  }

  class Table {
    var rows: Rows

    constructor (initial: Rows)
      ensures rows == initial
    {
      rows := initial;
    }

    // saveTasks: one insert per task. The database gives every row an id of its own.
    method SaveTasks(tasks: seq<PlannedTask>, newIds: seq<TaskId>) returns (savedIds: seq<TaskId>)
      requires |newIds| == |tasks| && FreshIds(rows, newIds)
      modifies this
      ensures savedIds == newIds
      ensures rows.Keys == old(rows).Keys + set id | id in newIds
      ensures forall id :: id in old(rows) ==> rows[id] == old(rows)[id]
      ensures forall i :: 0 <= i < |newIds| ==> newIds[i] in rows && rows[newIds[i]] == tasks[i].dependencies
    {
      savedIds := [];
      for i := 0 to |tasks|
        invariant savedIds == newIds[..i]
        invariant forall id :: id in rows <==> id in old(rows) || id in newIds[..i]
        invariant forall id :: id in old(rows) ==> rows[id] == old(rows)[id]
        invariant forall j :: 0 <= j < i ==> newIds[j] in rows && rows[newIds[j]] == tasks[j].dependencies
      {
        rows := rows[newIds[i] := tasks[i].dependencies];
        savedIds := savedIds + [newIds[i]];
        assert newIds[..i + 1] == newIds[..i] + [newIds[i]];
      }
      assert newIds[..|tasks|] == newIds;
    }

    // resolveDependencies: rows without index dependencies keep what was inserted.
    method ResolveDependencies(savedIds: seq<TaskId>, tasks: seq<PlannedTask>)
      requires |savedIds| == |tasks| && NoDuplicates(savedIds)
      requires forall i :: 0 <= i < |tasks| ==> savedIds[i] in rows && rows[savedIds[i]] == tasks[i].dependencies
      modifies this
      ensures rows.Keys == old(rows).Keys
      ensures forall id :: id in rows && id !in savedIds ==> rows[id] == old(rows)[id]
      ensures forall i :: 0 <= i < |tasks| ==> rows[savedIds[i]] == FinalDependencies(tasks[i], savedIds)
    {
      for i := 0 to |tasks|
        invariant rows.Keys == old(rows).Keys
        invariant forall id :: id in rows && id !in savedIds ==> rows[id] == old(rows)[id]
        invariant forall j :: 0 <= j < i ==> rows[savedIds[j]] == FinalDependencies(tasks[j], savedIds)
        invariant forall j :: i <= j < |tasks| ==> rows[savedIds[j]] == tasks[j].dependencies
      {
        ghost var before := rows;
        ResolveTask(savedIds, savedIds[i], tasks[i]);
        forall j | 0 <= j < |tasks| && j != i ensures rows[savedIds[j]] == before[savedIds[j]] {
          assert savedIds[j] != savedIds[i];
        }
      }
    }

    method ResolveTask(savedIds: seq<TaskId>, id: TaskId, task: PlannedTask)
      requires id in rows && rows[id] == task.dependencies
      modifies this
      ensures rows == old(rows)[id := FinalDependencies(task, savedIds)]
    {
      if task.dependsOnIndexes != [] {
        var merged := Merged(task, savedIds);
        MergeKeepsDependencies(task, savedIds);
        if merged != [] {
          rows := rows[id := merged];
        }
      }
    }
  }

  // The table after a plan was saved: old rows untouched, one row per planned task,
  // under an id that nothing mentioned before.
  ghost predicate Saved(before: Rows, after: Rows, tasks: seq<PlannedTask>, ids: seq<TaskId>) {
    && |ids| == |tasks| && FreshIds(before, ids)
    && (forall id :: id in after <==> id in before || id in ids)
    && (forall id :: id in before ==> after[id] == before[id])
    && (forall i :: 0 <= i < |ids| ==> ids[i] in after && after[ids[i]] == FinalDependencies(tasks[i], ids))
  }

  // The ids are new: no old row and no planned task refers to them yet.
  ghost predicate Unmentioned(before: Rows, tasks: seq<PlannedTask>, ids: seq<TaskId>) {
    && (forall id, d :: id in before && d in before[id] ==> d !in ids)
    && (forall i, d :: 0 <= i < |tasks| && d in tasks[i].dependencies ==> d !in ids)
  }

  // saveTasks followed by resolveDependencies.
  method PersistPlan(table: Table, tasks: seq<PlannedTask>, newIds: seq<TaskId>) returns (savedIds: seq<TaskId>)
    requires |newIds| == |tasks| && FreshIds(table.rows, newIds)
    modifies table
    ensures savedIds == newIds && Saved(old(table.rows), table.rows, tasks, newIds)
  {
    savedIds := table.SaveTasks(tasks, newIds);
    forall i | 0 <= i < |newIds|
      ensures newIds[i] in newIds
    {
    }
    table.ResolveDependencies(savedIds, tasks);
  }

  // Between two new rows there is an edge exactly where the plan has one.
  lemma NewEdgeIff(before: Rows, after: Rows, tasks: seq<PlannedTask>, ids: seq<TaskId>, i: nat, j: nat)
    requires Saved(before, after, tasks, ids) && Unmentioned(before, tasks, ids)
    requires i < |ids| && j < |ids|
    ensures Edge(TableGraph(after), ids[i], ids[j]) <==> Edge(GraphOf(DepsOf(tasks)), i, j)
  {
    var task := tasks[i];
    assert DepsOf(tasks)[i] == task.dependsOnIndexes;
    IdsOfIff(task.dependsOnIndexes, ids, ids[j]);
    assert ids[j] in ids;
    assert ids[j] in FinalDependencies(task, ids) <==> ids[j] in IdsOf(task.dependsOnIndexes, ids);
    assert forall d: nat :: d < |ids| && ids[d] == ids[j] ==> d == j;
  }

  // t contains g under the names ids: the same edges between them, edges of g go
  // down, and no edge of t enters from outside.
  ghost predicate Embeds(t: Graph<TaskId>, g: Graph<nat>, ids: seq<TaskId>) {
    && NoDuplicates(ids)
    && (forall i: nat, j: nat :: i < |ids| && j < |ids| ==> (Edge(t, ids[i], ids[j]) <==> Edge(g, i, j)))
    && (forall i: nat, j: nat :: Edge(g, i, j) ==> j < i < |ids|)
    && (forall x, y :: Edge(t, x, y) && y in ids ==> x in ids)
  }

  lemma {:induction false} PathsComeFromInside(t: Graph<TaskId>, g: Graph<nat>, ids: seq<TaskId>, p: seq<TaskId>,
                                               x: TaskId, y: TaskId)
    requires Embeds(t, g, ids) && PathFromTo(t, p, x, y) && y in ids
    ensures x in ids
    decreases |p|
  {
    if |p| > 1 {
      assert Edge(t, p[0], p[1]) && PathFromTo(t, p[1..], p[1], y);
      PathsComeFromInside(t, g, ids, p[1..], p[1], y);
    }
  }

  lemma {:induction false} EmbeddedReachability(t: Graph<TaskId>, g: Graph<nat>, ids: seq<TaskId>, i: nat, j: nat)
    requires Embeds(t, g, ids) && i < |ids| && j < |ids|
    ensures Reaches(t, ids[i], ids[j]) <==> Reaches<nat>(g, i, j)
    decreases i
  {
    if i == j {
      ReachesSelf(t, ids[i]);
      ReachesSelf(g, i);
    } else if Reaches<nat>(g, i, j) {
      var d := FirstStep(g, i, j);
      EmbeddedReachability(t, g, ids, d, j);
      EdgeThenReaches(t, ids[i], ids[d], ids[j]);
    } else if Reaches(t, ids[i], ids[j]) {
      var z := FirstStep(t, ids[i], ids[j]);
      var p :| PathFromTo(t, p, z, ids[j]);
      PathsComeFromInside(t, g, ids, p, z, ids[j]);
      var d: nat :| 0 <= d < |ids| && ids[d] == z;
      assert Edge(g, i, d);
      EmbeddedReachability(t, g, ids, d, j);
      EdgeThenReaches(g, i, d, j);
    }
  }

  lemma SavedPlanEmbeds(before: Rows, after: Rows, tasks: seq<PlannedTask>, ids: seq<TaskId>)
    requires Saved(before, after, tasks, ids) && Unmentioned(before, tasks, ids) && Backward(DepsOf(tasks))
    ensures Embeds(TableGraph(after), GraphOf(DepsOf(tasks)), ids)
  {
    forall i: nat, j: nat | i < |ids| && j < |ids|
      ensures Edge(TableGraph(after), ids[i], ids[j]) <==> Edge(GraphOf(DepsOf(tasks)), i, j)
    {
      NewEdgeIff(before, after, tasks, ids, i, j);
    }
    forall i: nat, j: nat | Edge(GraphOf(DepsOf(tasks)), i, j)
      ensures j < i < |ids|
    {
      assert j in DepsOf(tasks)[i];
    }
  }

  // The saved rows are connected exactly as the planned tasks are.
  lemma SavedReachability(before: Rows, after: Rows, tasks: seq<PlannedTask>, ids: seq<TaskId>, i: nat, j: nat)
    requires Saved(before, after, tasks, ids) && Unmentioned(before, tasks, ids) && Backward(DepsOf(tasks))
    requires i < |ids| && j < |ids|
    ensures Reaches(TableGraph(after), ids[i], ids[j]) <==> Reaches<nat>(GraphOf(DepsOf(tasks)), i, j)
  {
    SavedPlanEmbeds(before, after, tasks, ids);
    EmbeddedReachability(TableGraph(after), GraphOf(DepsOf(tasks)), ids, i, j);
  }

  // A cycle cannot run through a planned task ...
  lemma NoCycleInside(t: Graph<TaskId>, g: Graph<nat>, deps: Deps, ids: seq<TaskId>, p: seq<TaskId>, i: nat)
    requires g == GraphOf(deps) && Backward(deps) && Embeds(t, g, ids)
    requires i < |ids| && |p| > 1
    ensures !PathFromTo(t, p, ids[i], ids[i])
  {
    if PathFromTo(t, p, ids[i], ids[i]) {
      assert Edge(t, p[0], p[1]) && PathFromTo(t, p[1..], p[1], ids[i]);
      PathsComeFromInside(t, g, ids, p[1..], p[1], ids[i]);
      var d: nat :| 0 <= d < |ids| && ids[d] == p[1];
      assert Edge(g, i, d);
      EmbeddedReachability(t, g, ids, d, i);
      ReachesDownward(deps, d, i);
    }
  }

  // ... and one that does not is a cycle of the old table.
  lemma OutsidePathsAreOld(before: Rows, after: Rows, tasks: seq<PlannedTask>, ids: seq<TaskId>, p: seq<TaskId>,
                           x: TaskId)
    requires Saved(before, after, tasks, ids) && Embeds(TableGraph(after), GraphOf(DepsOf(tasks)), ids)
    requires PathFromTo(TableGraph(after), p, x, x) && x !in ids
    requires forall k :: 0 <= k < |p| ==> p[k] !in ids
    ensures PathFromTo(TableGraph(before), p, x, x)
  {
    forall k | 0 <= k < |p| - 1
      ensures Edge(TableGraph(before), p[k], p[k + 1])
    {
      assert Edge(TableGraph(after), p[k], p[k + 1]);
    }
  }

  // Saving a backward plan keeps an acyclic table acyclic.
  lemma SavedTableIsAcyclic(before: Rows, after: Rows, tasks: seq<PlannedTask>, ids: seq<TaskId>)
    requires Saved(before, after, tasks, ids) && Unmentioned(before, tasks, ids) && Backward(DepsOf(tasks))
    requires Acyclic(TableGraph(before))
    ensures Acyclic(TableGraph(after))
  {
    var t := TableGraph(after);
    SavedPlanEmbeds(before, after, tasks, ids);
    forall x, p | PathFromTo(t, p, x, x) && |p| > 1
      ensures ReachesStrictly(TableGraph(before), x, x)
    {
      if k :| 0 <= k < |p| && p[k] in ids {
        ThroughInsideStartsInside(t, GraphOf(DepsOf(tasks)), ids, p, x, k);
        var i: nat :| 0 <= i < |ids| && ids[i] == x;
        NoCycleInside(t, GraphOf(DepsOf(tasks)), DepsOf(tasks), ids, p, i);
      } else {
        assert p[0] == x;
        OutsidePathsAreOld(before, after, tasks, ids, p, x);
      }
    }
  }

  // A path that ends in, or passes through, a planned task starts in one.
  lemma ThroughInsideStartsInside(t: Graph<TaskId>, g: Graph<nat>, ids: seq<TaskId>, p: seq<TaskId>, x: TaskId, k: nat)
    requires Embeds(t, g, ids) && PathFromTo(t, p, x, x) && k < |p| && p[k] in ids
    ensures x in ids
  {
    assert PathFromTo(t, p[..k + 1], x, p[k]);
    PathsComeFromInside(t, g, ids, p[..k + 1], x, p[k]);
  }
}
