// The planner's dependency pipeline from the proposed task list to saved rows.
module PlannerRunner {
  import opened Digraph
  import opened TaskDependencies
  import opened TransitiveReduction
  import opened PlanSaving
  import opened TaskTable

  // A task as the language model proposed it.
  datatype Proposal = Proposal(dependsOnIndexes: seq<JsNumber>, dependencies: seq<TaskId>, isSync: bool)

  function RawIndexes(proposals: seq<Proposal>): (raw: seq<seq<JsNumber>>)
    ensures |raw| == |proposals|
  {
    seq(|proposals|, i requires 0 <= i < |proposals| => proposals[i].dependsOnIndexes)
  }

  function WithIndexes(proposals: seq<Proposal>, deps: Deps): (tasks: seq<PlannedTask>)
    requires |deps| == |proposals|
    ensures DepsOf(tasks) == deps
  {
    seq(|proposals|, i requires 0 <= i < |proposals| =>
      PlannedTask(deps[i], proposals[i].dependencies, proposals[i].isSync))
  }

  // Sanitise, reduce, then add the backlog edges.
  method PlanTasks(proposals: seq<Proposal>, backlog: seq<TaskId>, overlaps: Overlap) returns (tasks: seq<PlannedTask>)
    ensures |tasks| == |proposals|
    ensures Backward(DepsOf(tasks))
    ensures GraphOf(DepsOf(tasks)) == GraphOf(ReducedDeps(SanitizedDeps(RawIndexes(proposals))))
    ensures forall i :: 0 <= i < |tasks| ==> tasks[i].isSync == proposals[i].isSync
    ensures forall i, d :: 0 <= i < |tasks| && d in tasks[i].dependencies ==>
      d in proposals[i].dependencies || d in backlog
  {
    var deps, corrected := SanitizeTaskDependencyIndexes(RawIndexes(proposals));
    SanitizedIsBackward(RawIndexes(proposals));
    ReducedIsBackward(deps);
    var reduced, removed := ReduceRedundantDependencyIndexes(deps);
    var plain := WithIndexes(proposals, reduced);
    var overlapCount;
    tasks, overlapCount := ApplyHotFilePlanning(plain, backlog, overlaps);
    HotFileKeepsIndexes(plain, backlog, overlaps);
    forall i, d | 0 <= i < |tasks| && d in tasks[i].dependencies
      ensures d in proposals[i].dependencies || d in backlog
    {
      HotFileEdgesIff(plain[i], i, backlog, overlaps, d);
    }
  }

  lemma HotFileKeepsIndexes(tasks: seq<PlannedTask>, backlog: seq<TaskId>, overlaps: Overlap)
    ensures DepsOf(HotFilePlanned(tasks, backlog, overlaps)) == DepsOf(tasks)
    ensures forall i :: 0 <= i < |tasks| ==> HotFilePlanned(tasks, backlog, overlaps)[i].isSync == tasks[i].isSync
  {
  }

  // A task keeps its own dependencies and gains exactly the backlog tasks it overlaps with.
  lemma HotFileEdgesIff(task: PlannedTask, i: nat, backlog: seq<TaskId>, overlaps: Overlap, d: TaskId)
    ensures d in HotFileTask(task, i, backlog, overlaps).dependencies
       <==> d in task.dependencies || (d in backlog && overlaps(i, d))
  {
    OverlappedIff(i, backlog, overlaps, d);
    var all := task.dependencies + OverlappedIds(i, backlog, overlaps);
    assert d in all <==> d in task.dependencies || d in OverlappedIds(i, backlog, overlaps);
  }

  // Two saved tasks are connected exactly when the sanitised proposal connects them.
  ghost predicate PairCarriesOver(rows: Rows, ids: seq<TaskId>, offset: nat, proposals: seq<Proposal>, i: nat, j: nat)
    requires |ids| == |proposals| + offset && i < |proposals| && j < |proposals|
  {
    Reaches(TableGraph(rows), ids[i + offset], ids[j + offset])
      == Reaches<nat>(GraphOf(SanitizedDeps(RawIndexes(proposals))), i, j)
  }

  ghost predicate CarriesOver(rows: Rows, ids: seq<TaskId>, offset: nat, proposals: seq<Proposal>) {
    && |ids| == |proposals| + offset
    && forall i: nat, j: nat :: i < |proposals| && j < |proposals| ==>
         PairCarriesOver(rows, ids, offset, proposals, i, j)
  }

  lemma PlanCarriesOver(before: Rows, after: Rows, proposals: seq<Proposal>, tasks: seq<PlannedTask>, ids: seq<TaskId>)
    requires |tasks| == |proposals| && Backward(DepsOf(tasks))
    requires GraphOf(DepsOf(tasks)) == GraphOf(ReducedDeps(SanitizedDeps(RawIndexes(proposals))))
    requires Saved(before, after, tasks, ids) && Unmentioned(before, tasks, ids)
    ensures CarriesOver(after, ids, 0, proposals)
  {
    var deps := SanitizedDeps(RawIndexes(proposals));
    SanitizedIsBackward(RawIndexes(proposals));
    forall i: nat, j: nat | i < |proposals| && j < |proposals|
      ensures PairCarriesOver(after, ids, 0, proposals, i, j)
    {
      SavedReachability(before, after, tasks, ids, i, j);
      ReductionKeepsReachability(deps, i, j);
    }
  }

  // What the lemmas about a synced plan assume: the rows of `all` were saved.
  ghost predicate SyncedAndSaved(before: Rows, after: Rows, proposals: seq<Proposal>, tasks: seq<PlannedTask>,
                                 syncTask: PlannedTask, ids: seq<TaskId>) {
    && |tasks| == |proposals| && Backward(DepsOf(tasks)) && syncTask.dependsOnIndexes == [] && !HasSyncTask(tasks)
    && GraphOf(DepsOf(tasks)) == GraphOf(ReducedDeps(SanitizedDeps(RawIndexes(proposals))))
    && var all := InjectRequirementSyncTask(tasks, syncTask);
       Saved(before, after, all, ids) && Unmentioned(before, all, ids)
  }

  // One pair of tasks, step by step: as proposed, as planned, with the sync task, as saved.
  lemma PlannedPair(before: Rows, after: Rows, proposals: seq<Proposal>, tasks: seq<PlannedTask>,
                    syncTask: PlannedTask, ids: seq<TaskId>, i: nat, j: nat, connected: bool)
    requires SyncedAndSaved(before, after, proposals, tasks, syncTask, ids)
    requires connected == Reaches<nat>(GraphOf(SanitizedDeps(RawIndexes(proposals))), i, j)
    ensures Reaches<nat>(GraphOf(DepsOf(tasks)), i, j) == connected
  {
    SanitizedIsBackward(RawIndexes(proposals));
    ReductionKeepsReachability(SanitizedDeps(RawIndexes(proposals)), i, j);
  }

  lemma SyncedPair(before: Rows, after: Rows, proposals: seq<Proposal>, tasks: seq<PlannedTask>,
                   syncTask: PlannedTask, ids: seq<TaskId>, i: nat, j: nat, connected: bool)
    requires SyncedAndSaved(before, after, proposals, tasks, syncTask, ids)
    requires Reaches<nat>(GraphOf(DepsOf(tasks)), i, j) == connected
    ensures Reaches<nat>(GraphOf(DepsOf(InjectRequirementSyncTask(tasks, syncTask))), i + 1, j + 1) == connected
  {
    SyncKeepsReachability(tasks, syncTask, i, j);
  }

  lemma SavedPair(before: Rows, after: Rows, all: seq<PlannedTask>, ids: seq<TaskId>, i: nat, j: nat, connected: bool)
    requires Saved(before, after, all, ids) && Unmentioned(before, all, ids) && Backward(DepsOf(all))
    requires i < |ids| && j < |ids| && Reaches<nat>(GraphOf(DepsOf(all)), i, j) == connected
    ensures Reaches(TableGraph(after), ids[i], ids[j]) == connected
  {
    SavedReachability(before, after, all, ids, i, j);
  }

  lemma SyncedPairCarriesOver(before: Rows, after: Rows, proposals: seq<Proposal>, tasks: seq<PlannedTask>,
                              syncTask: PlannedTask, ids: seq<TaskId>, i: nat, j: nat)
    requires SyncedAndSaved(before, after, proposals, tasks, syncTask, ids)
    requires i < |proposals| && j < |proposals|
    ensures PairCarriesOver(after, ids, 1, proposals, i, j)
  {
    var connected := Reaches<nat>(GraphOf(SanitizedDeps(RawIndexes(proposals))), i, j);
    PlannedPair(before, after, proposals, tasks, syncTask, ids, i, j, connected);
    SyncedPair(before, after, proposals, tasks, syncTask, ids, i, j, connected);
    SyncKeepsBackward(tasks, syncTask);
    SavedPair(before, after, InjectRequirementSyncTask(tasks, syncTask), ids, i + 1, j + 1, connected);
  }

  lemma SyncedTaskDependsOnSync(before: Rows, after: Rows, proposals: seq<Proposal>, tasks: seq<PlannedTask>,
                                syncTask: PlannedTask, ids: seq<TaskId>, k: nat)
    requires SyncedAndSaved(before, after, proposals, tasks, syncTask, ids)
    requires 0 < k < |ids|
    ensures ids[0] in after[ids[k]]
  {
    var all := InjectRequirementSyncTask(tasks, syncTask);
    SyncEdgesIff(tasks, syncTask, k - 1, 0);
    assert 0 in DepsOf(all)[k];
    NewEdgeIff(before, after, all, ids, k, 0);
  }

  lemma SyncedPlanCarriesOver(before: Rows, after: Rows, proposals: seq<Proposal>, tasks: seq<PlannedTask>,
                              syncTask: PlannedTask, ids: seq<TaskId>)
    requires SyncedAndSaved(before, after, proposals, tasks, syncTask, ids)
    ensures CarriesOver(after, ids, 1, proposals)
    ensures forall k :: 0 < k < |ids| ==> ids[0] in after[ids[k]]
  {
    forall i: nat, j: nat | i < |proposals| && j < |proposals|
      ensures PairCarriesOver(after, ids, 1, proposals, i, j)
    {
      SyncedPairCarriesOver(before, after, proposals, tasks, syncTask, ids, i, j);
    }
    forall k | 0 < k < |ids|
      ensures ids[0] in after[ids[k]]
    {
      SyncedTaskDependsOnSync(before, after, proposals, tasks, syncTask, ids, k);
    }
  }

  // The whole way from proposal to rows. An acyclic table stays acyclic; two saved
  // tasks are connected exactly when the sanitised proposal connects them; and with
  // a completed requirement every task depends directly on the sync task.
  method PlanAndSave(table: Table, proposals: seq<Proposal>, backlog: seq<TaskId>, overlaps: Overlap,
                     completionApplied: bool, syncTask: PlannedTask, newIds: seq<TaskId>)
    returns (ids: seq<TaskId>, injected: bool)
    requires syncTask.dependsOnIndexes == [] && syncTask.dependencies == [] && syncTask.isSync
    requires |newIds| == |proposals| + 1 && FreshIds(table.rows, newIds)
    requires forall id, d :: id in table.rows && d in table.rows[id] ==> d !in newIds
    requires forall i, d :: 0 <= i < |proposals| && d in proposals[i].dependencies ==> d !in newIds
    requires forall d :: d in backlog ==> d !in newIds
    modifies table
    ensures Acyclic(TableGraph(old(table.rows))) ==> Acyclic(TableGraph(table.rows))
    ensures injected <==> completionApplied && !(exists i :: 0 <= i < |proposals| && proposals[i].isSync)
    ensures CarriesOver(table.rows, ids, if injected then 1 else 0, proposals)
    ensures injected ==> forall k :: 0 < k < |ids| ==> ids[k] in table.rows && ids[0] in table.rows[ids[k]]
  {
    ghost var before := table.rows;
    var tasks := PlanTasks(proposals, backlog, overlaps);
    injected := completionApplied && !HasSyncTask(tasks);
    var all := if injected then InjectRequirementSyncTask(tasks, syncTask) else tasks;
    SyncKeepsBackward(tasks, syncTask);
    ids := newIds[..|all|];
    IdsAreUnmentioned(before, proposals, backlog, tasks, all, syncTask, newIds, ids);
    var savedIds := PersistPlan(table, all, ids);
    if Acyclic(TableGraph(before)) {
      SavedTableIsAcyclic(before, table.rows, all, ids);
    }
    if injected {
      SyncedPlanCarriesOver(before, table.rows, proposals, tasks, syncTask, ids);
    } else {
      PlanCarriesOver(before, table.rows, proposals, tasks, ids);
    }
  }

  lemma IdsAreUnmentioned(before: Rows, proposals: seq<Proposal>, backlog: seq<TaskId>, tasks: seq<PlannedTask>,
                          all: seq<PlannedTask>, syncTask: PlannedTask, newIds: seq<TaskId>, ids: seq<TaskId>)
    requires FreshIds(before, newIds) && ids <= newIds
    requires forall id, d :: id in before && d in before[id] ==> d !in newIds
    requires |tasks| == |proposals|
    requires forall i, d :: 0 <= i < |proposals| && d in proposals[i].dependencies ==> d !in newIds
    requires forall d :: d in backlog ==> d !in newIds
    requires forall i, d :: 0 <= i < |tasks| && d in tasks[i].dependencies ==>
      d in proposals[i].dependencies || d in backlog
    requires syncTask.dependencies == []
    requires all == tasks || all == InjectRequirementSyncTask(tasks, syncTask)
    ensures FreshIds(before, ids) && Unmentioned(before, all, ids)
  {
    assert forall id :: id in ids ==> id in newIds;
    forall i, d | 0 <= i < |all| && d in all[i].dependencies
      ensures d !in ids
    {
      if all != tasks && i > 0 {
        assert all[i].dependencies == tasks[i - 1].dependencies;
      }
    }
  }
}
