// From a planned task list to rows in the task table: edges to the active
// backlog, the injected requirement-sync task, and indexes resolved to row ids.
module PlanSaving {
  import opened Digraph
  import opened Sequences
  import opened TaskDependencies
  import opened TransitiveReduction

  // The uuid of a task row.
  datatype TaskId = TaskId(value: nat)

  // The parts of a planned task that dependencies are about. `isSync` says that
  // its notes carry the requirement-sync marker.
  datatype PlannedTask = PlannedTask(dependsOnIndexes: seq<nat>, dependencies: seq<TaskId>, isSync: bool)

  function DepsOf(tasks: seq<PlannedTask>): (deps: Deps)
    ensures |deps| == |tasks|
  {
    seq(|tasks|, i requires 0 <= i < |tasks| => tasks[i].dependsOnIndexes)
  }

  // ---- Hot-file planning ----

  // Which backlog tasks a planned task overlaps with, by area or by path.
  type Overlap = (nat, TaskId) -> bool

  function OverlappedIds(i: nat, backlog: seq<TaskId>, overlaps: Overlap): (ids: seq<TaskId>)
    ensures forall id :: id in ids ==> id in backlog
  {
    if backlog == [] then [] else
      var last := backlog[|backlog| - 1];
      var ids := OverlappedIds(i, backlog[..|backlog| - 1], overlaps);
      if overlaps(i, last) then ids + [last] else ids
  }

  lemma {:induction false} OverlappedIff(i: nat, backlog: seq<TaskId>, overlaps: Overlap, d: TaskId)
    ensures d in OverlappedIds(i, backlog, overlaps) <==> d in backlog && overlaps(i, d)
  {
    if backlog != [] {
      OverlappedIff(i, backlog[..|backlog| - 1], overlaps, d);
      assert backlog == backlog[..|backlog| - 1] + [backlog[|backlog| - 1]];
    }
  }

  predicate Overlapping(i: nat, backlog: seq<TaskId>, overlaps: Overlap) {
    exists id :: id in backlog && overlaps(i, id)
  }

  // The planned tasks, among the first n, that overlap with the backlog.
  function OverlappingTasks(n: nat, backlog: seq<TaskId>, overlaps: Overlap): set<nat> {
    set i: nat | i < n && Overlapping(i, backlog, overlaps)
  }

  lemma OverlapsIffAnyId(i: nat, backlog: seq<TaskId>, overlaps: Overlap)
    ensures OverlappedIds(i, backlog, overlaps) != [] <==> Overlapping(i, backlog, overlaps)
  {
    var ids := OverlappedIds(i, backlog, overlaps);
    if ids != [] {
      OverlappedIff(i, backlog, overlaps, ids[0]);
    }
    forall id | id in backlog && overlaps(i, id) ensures id in ids {
      OverlappedIff(i, backlog, overlaps, id);
    }
  }

  lemma OneMoreOverlapping(n: nat, backlog: seq<TaskId>, overlaps: Overlap)
    ensures |OverlappingTasks(n + 1, backlog, overlaps)|
      == |OverlappingTasks(n, backlog, overlaps)| + if OverlappedIds(n, backlog, overlaps) != [] then 1 else 0
  {
    OverlapsIffAnyId(n, backlog, overlaps);
    assert OverlappingTasks(n + 1, backlog, overlaps)
      == OverlappingTasks(n, backlog, overlaps) + if Overlapping(n, backlog, overlaps) then {n} else {};
  }

  function HotFileTask(task: PlannedTask, i: nat, backlog: seq<TaskId>, overlaps: Overlap): PlannedTask {
    var ids := OverlappedIds(i, backlog, overlaps);
    if ids == [] then task else task.(dependencies := Dedup(task.dependencies + ids))
  }

  function HotFilePlanned(tasks: seq<PlannedTask>, backlog: seq<TaskId>, overlaps: Overlap): (r: seq<PlannedTask>)
    ensures |r| == |tasks|
  {
    seq(|tasks|, i requires 0 <= i < |tasks| => HotFileTask(tasks[i], i, backlog, overlaps))
  }

  lemma AllPlanned(tasks: seq<PlannedTask>, planned: seq<PlannedTask>, backlog: seq<TaskId>, overlaps: Overlap)
    requires |planned| == |tasks| && forall j :: 0 <= j < |tasks| ==>
      planned[j] == HotFileTask(tasks[j], j, backlog, overlaps)
    ensures planned == HotFilePlanned(tasks, backlog, overlaps)
  {
  }

  lemma NoOverlapsNoChange(tasks: seq<PlannedTask>, backlog: seq<TaskId>, overlaps: Overlap)
    requires OverlappingTasks(|tasks|, backlog, overlaps) == {}
    ensures HotFilePlanned(tasks, backlog, overlaps) == tasks
  {
    forall i | 0 <= i < |tasks| ensures HotFileTask(tasks[i], i, backlog, overlaps) == tasks[i] {
      OverlapsIffAnyId(i, backlog, overlaps);
      assert i !in OverlappingTasks(|tasks|, backlog, overlaps);
    }
  }

  // applyHotFilePlanning: a task gains edges to exactly the backlog tasks it
  // overlaps with, and the count says how many tasks gained any.
  method ApplyHotFilePlanning(tasks: seq<PlannedTask>, backlog: seq<TaskId>, overlaps: Overlap)
    returns (planned: seq<PlannedTask>, overlapCount: nat)
    ensures planned == HotFilePlanned(tasks, backlog, overlaps)
    ensures overlapCount == |OverlappingTasks(|tasks|, backlog, overlaps)|
    ensures overlapCount == 0 ==> planned == tasks
  {
    if tasks == [] || backlog == [] {
      assert OverlappingTasks(|tasks|, backlog, overlaps) == {};
      NoOverlapsNoChange(tasks, backlog, overlaps);
      return tasks, 0;
    }
    planned, overlapCount := [], 0;
    for i := 0 to |tasks|
      invariant |planned| == i && forall j :: 0 <= j < i ==> planned[j] == HotFileTask(tasks[j], j, backlog, overlaps)
      invariant overlapCount == |OverlappingTasks(i, backlog, overlaps)|
    {
      OneMoreOverlapping(i, backlog, overlaps);
      var ids := OverlappedIds(i, backlog, overlaps);
      if ids == [] {
        planned := planned + [tasks[i]];
      } else {
        overlapCount := overlapCount + 1;
        planned := planned + [tasks[i].(dependencies := Dedup(tasks[i].dependencies + ids))];
      }
    }
    AllPlanned(tasks, planned, backlog, overlaps);
    if overlapCount == 0 {
      NoOverlapsNoChange(tasks, backlog, overlaps);
    }
  }

  // ---- Requirement-sync task ----

  function Shifted(list: seq<nat>): seq<nat> {
    if list == [] then [] else Shifted(list[..|list| - 1]) + [list[|list| - 1] + 1]
  }

  lemma {:induction false} ShiftedIff(list: seq<nat>, d: nat)
    ensures d in Shifted(list) <==> d > 0 && d - 1 in list
  {
    if list != [] {
      ShiftedIff(list[..|list| - 1], d);
      assert list == list[..|list| - 1] + [list[|list| - 1]];
    }
  }

  function Below(list: seq<nat>, bound: nat): seq<nat> {
    if list == [] then [] else
      var r := Below(list[..|list| - 1], bound);
      if list[|list| - 1] < bound then r + [list[|list| - 1]] else r
  }

  lemma {:induction false} BelowIff(list: seq<nat>, bound: nat, d: nat)
    ensures d in Below(list, bound) <==> d in list && d < bound
  {
    if list != [] {
      BelowIff(list[..|list| - 1], bound, d);
      assert list == list[..|list| - 1] + [list[|list| - 1]];
    }
  }

  // Every task is moved up by one place and made to depend on place 0.
  function AfterSync(task: PlannedTask, index: nat): PlannedTask {
    task.(dependsOnIndexes := Below(Dedup(Shifted(task.dependsOnIndexes) + [0]), index + 1))
  }

  predicate HasSyncTask(tasks: seq<PlannedTask>) {
    exists i :: 0 <= i < |tasks| && tasks[i].isSync
  }

  function InjectRequirementSyncTask(tasks: seq<PlannedTask>, syncTask: PlannedTask): seq<PlannedTask> {
    if HasSyncTask(tasks) then tasks
    else [syncTask] + seq(|tasks|, i requires 0 <= i < |tasks| => AfterSync(tasks[i], i))
  }

  lemma AfterSyncIff(task: PlannedTask, index: nat, d: nat)
    ensures d in AfterSync(task, index).dependsOnIndexes <==> d <= index && (d == 0 || d - 1 in task.dependsOnIndexes)
  {
    var list := Shifted(task.dependsOnIndexes) + [0];
    ShiftedIff(task.dependsOnIndexes, d);
    BelowIff(Dedup(list), index + 1, d);
  }

  lemma SyncEdgesIff(tasks: seq<PlannedTask>, syncTask: PlannedTask, i: nat, d: nat)
    requires !HasSyncTask(tasks) && i < |tasks| && Backward(DepsOf(tasks))
    ensures d in InjectRequirementSyncTask(tasks, syncTask)[i + 1].dependsOnIndexes
       <==> d == 0 || d - 1 in tasks[i].dependsOnIndexes
  {
    assert DepsOf(tasks)[i] == tasks[i].dependsOnIndexes;
    AfterSyncIff(tasks[i], i, d);
  }

  lemma SyncKeepsBackward(tasks: seq<PlannedTask>, syncTask: PlannedTask)
    requires Backward(DepsOf(tasks)) && syncTask.dependsOnIndexes == []
    ensures Backward(DepsOf(InjectRequirementSyncTask(tasks, syncTask)))
  {
    if !HasSyncTask(tasks) {
      var injected := InjectRequirementSyncTask(tasks, syncTask);
      forall i, d: nat | 0 <= i < |injected| && d in DepsOf(injected)[i]
        ensures d < i
      {
        if i > 0 {
          SyncEdgesIff(tasks, syncTask, i - 1, d);
          assert d > 0 ==> d - 1 in DepsOf(tasks)[i - 1];
        }
      }
    }
  }

  lemma SyncGraphEdges(tasks: seq<PlannedTask>, syncTask: PlannedTask, x: nat, z: nat)
    requires Backward(DepsOf(tasks)) && !HasSyncTask(tasks)
    ensures var h := GraphOf(DepsOf(InjectRequirementSyncTask(tasks, syncTask)));
      && (Edge<nat>(h, x + 1, z + 1) <==> Edge<nat>(GraphOf(DepsOf(tasks)), x, z))
  {
    var injected := InjectRequirementSyncTask(tasks, syncTask);
    if x < |tasks| {
      SyncEdgesIff(tasks, syncTask, x, z + 1);
      assert DepsOf(tasks)[x] == tasks[x].dependsOnIndexes;
      assert DepsOf(injected)[x + 1] == injected[x + 1].dependsOnIndexes;
    }
  }

  // h is g moved up by one place, with edges down to place 0, which has no edges.
  ghost predicate MovedUp(g: Graph<nat>, h: Graph<nat>) {
    && (forall x: nat, z: nat :: Edge<nat>(g, x, z) <==> Edge<nat>(h, x + 1, z + 1))
    && (forall x: nat, z: nat :: Edge<nat>(g, x, z) ==> z < x)
    && (forall z: nat :: !Edge<nat>(h, 0, z))
  }

  lemma {:induction false} MovedUpKeepsReachability(g: Graph<nat>, h: Graph<nat>, x: nat, y: nat)
    requires MovedUp(g, h)
    ensures Reaches<nat>(h, x + 1, y + 1) <==> Reaches<nat>(g, x, y)
    decreases x
  {
    if x == y {
      ReachesSelf<nat>(g, x);
      ReachesSelf<nat>(h, x + 1);
    } else if Reaches<nat>(g, x, y) {
      var z := FirstStep<nat>(g, x, y);
      MovedUpKeepsReachability(g, h, z, y);
      EdgeThenReaches<nat>(h, x + 1, z + 1, y + 1);
    } else if Reaches<nat>(h, x + 1, y + 1) {
      var z := FirstStep<nat>(h, x + 1, y + 1);
      if z == 0 {
        var _ := FirstStep<nat>(h, 0, y + 1);
      } else {
        assert Edge<nat>(g, x, z - 1);
        MovedUpKeepsReachability(g, h, z - 1, y);
        EdgeThenReaches<nat>(g, x, z - 1, y);
      }
    }
  }

  lemma SyncHasNoEdges(tasks: seq<PlannedTask>, syncTask: PlannedTask, z: nat)
    requires syncTask.dependsOnIndexes == [] && !HasSyncTask(tasks)
    ensures !Edge<nat>(GraphOf(DepsOf(InjectRequirementSyncTask(tasks, syncTask))), 0, z)
  {
    assert DepsOf(InjectRequirementSyncTask(tasks, syncTask))[0] == [];
  }

  lemma BackwardEdge(deps: Deps, x: nat, z: nat)
    requires Backward(deps)
    ensures Edge<nat>(GraphOf(deps), x, z) ==> z < x
  {
  }

  lemma SyncEdgesMove(tasks: seq<PlannedTask>, syncTask: PlannedTask, g: Graph<nat>, h: Graph<nat>)
    requires Backward(DepsOf(tasks)) && !HasSyncTask(tasks)
    requires g == GraphOf(DepsOf(tasks)) && h == GraphOf(DepsOf(InjectRequirementSyncTask(tasks, syncTask)))
    ensures forall x: nat, z: nat :: Edge<nat>(g, x, z) <==> Edge<nat>(h, x + 1, z + 1)
  {
    forall x: nat, z: nat ensures Edge<nat>(g, x, z) <==> Edge<nat>(h, x + 1, z + 1) {
      SyncGraphEdges(tasks, syncTask, x, z);
    }
  }

  lemma SyncIsLeaf(tasks: seq<PlannedTask>, syncTask: PlannedTask, h: Graph<nat>)
    requires syncTask.dependsOnIndexes == [] && !HasSyncTask(tasks)
    requires h == GraphOf(DepsOf(InjectRequirementSyncTask(tasks, syncTask)))
    ensures forall z: nat :: !Edge<nat>(h, 0, z)
  {
    forall z: nat ensures !Edge<nat>(h, 0, z) {
      SyncHasNoEdges(tasks, syncTask, z);
    }
  }

  lemma BackwardEdges(deps: Deps, g: Graph<nat>)
    requires Backward(deps) && g == GraphOf(deps)
    ensures forall x: nat, z: nat :: Edge<nat>(g, x, z) ==> z < x
  {
    forall x: nat, z: nat ensures Edge<nat>(g, x, z) ==> z < x {
      BackwardEdge(deps, x, z);
    }
  }

  lemma SyncMovesUp(tasks: seq<PlannedTask>, syncTask: PlannedTask, g: Graph<nat>, h: Graph<nat>)
    requires Backward(DepsOf(tasks)) && syncTask.dependsOnIndexes == [] && !HasSyncTask(tasks)
    requires g == GraphOf(DepsOf(tasks)) && h == GraphOf(DepsOf(InjectRequirementSyncTask(tasks, syncTask)))
    ensures MovedUp(g, h)
  {
    SyncEdgesMove(tasks, syncTask, g, h);
    SyncIsLeaf(tasks, syncTask, h);
    BackwardEdges(DepsOf(tasks), g);
  }

  // Injecting the sync task changes no path between the tasks that were there.
  lemma SyncKeepsReachability(tasks: seq<PlannedTask>, syncTask: PlannedTask, x: nat, y: nat)
    requires Backward(DepsOf(tasks)) && syncTask.dependsOnIndexes == [] && !HasSyncTask(tasks)
    ensures Reaches<nat>(GraphOf(DepsOf(InjectRequirementSyncTask(tasks, syncTask))), x + 1, y + 1)
       <==> Reaches<nat>(GraphOf(DepsOf(tasks)), x, y)
  {
    var (g, h) := (GraphOf(DepsOf(tasks)), GraphOf(DepsOf(InjectRequirementSyncTask(tasks, syncTask))));
    SyncMovesUp(tasks, syncTask, g, h);
    MovedUpKeepsReachability(g, h, x, y);
  }
}
