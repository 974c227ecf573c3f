// reduceRedundantDependencyIndexes: the lists are rewritten in place while the
// reachability search reads them and prunes with one visited set. For a plan whose
// dependencies go backward its result is the transitive reduction of that plan.
module TransitiveReduction {
  import opened Digraph
  import opened TaskDependencies

  function InsertSorted(x: nat, s: seq<nat>): seq<nat> {
    if s == [] then [x]
    else if s[|s| - 1] < x then s + [x]
    else if s[|s| - 1] == x then s
    else InsertSorted(x, s[..|s| - 1]) + [s[|s| - 1]]
  }

  ghost predicate Increasing(s: seq<nat>) {
    forall j, k :: 0 <= j < k < |s| ==> s[j] < s[k]
  }

  lemma {:induction false} InsertedIff(x: nat, s: seq<nat>, y: nat)
    ensures y in InsertSorted(x, s) <==> y == x || y in s
  {
    if s != [] {
      assert s == s[..|s| - 1] + [s[|s| - 1]];
      InsertedIff(x, s[..|s| - 1], y);
    }
  }

  lemma {:induction false} InsertKeepsIncreasing(x: nat, s: seq<nat>)
    requires Increasing(s)
    ensures Increasing(InsertSorted(x, s))
  {
    if s != [] && s[|s| - 1] > x {
      var (prefix, last) := (s[..|s| - 1], s[|s| - 1]);
      var r := InsertSorted(x, prefix);
      InsertKeepsIncreasing(x, prefix);
      forall j | 0 <= j < |r| ensures r[j] < last {
        InsertedIff(x, prefix, r[j]);
        assert r[j] in r;
      }
    }
  }

  // Array.from(new Set(deps)).sort(): the elements in increasing order, each once.
  function SortUnique(s: seq<nat>): (r: seq<nat>)
    ensures Increasing(r)
    ensures forall y :: y in r <==> y in s
  {
    if s == [] then [] else
      var (prefix, last) := (s[..|s| - 1], s[|s| - 1]);
      var sorted := SortUnique(prefix);
      assert s == prefix + [last];
      assert forall y: nat :: y in InsertSorted(last, sorted) <==> y == last || y in sorted by {
        forall y: nat ensures y in InsertSorted(last, sorted) <==> y == last || y in sorted {
          InsertedIff(last, sorted, y);
        }
      }
      assert Increasing(InsertSorted(last, sorted)) by {
        InsertKeepsIncreasing(last, sorted);
      }
      InsertSorted(last, sorted)
  }

  // ---- What the result is, in terms of the plan that came in. ----

  // Another dependency of the same task already leads to this one.
  ghost predicate Redundant(g: Graph<nat>, list: seq<nat>, candidate: nat) {
    exists other: nat :: other in list && other != candidate && Reaches<nat>(g, other, candidate)
  }

  ghost function Essential(g: Graph<nat>, list: seq<nat>, candidates: seq<nat>): (r: seq<nat>)
    ensures |r| <= |candidates|
  {
    if candidates == [] then [] else
      var last := candidates[|candidates| - 1];
      var r := Essential(g, list, candidates[..|candidates| - 1]);
      if Redundant(g, list, last) then r else r + [last]
  }

  lemma {:induction false} EssentialIff(g: Graph<nat>, list: seq<nat>, candidates: seq<nat>, c: nat)
    ensures c in Essential(g, list, candidates) <==> c in candidates && !Redundant(g, list, c)
  {
    if candidates != [] {
      EssentialIff(g, list, candidates[..|candidates| - 1], c);
      assert candidates == candidates[..|candidates| - 1] + [candidates[|candidates| - 1]];
    }
  }

  // A task with at most one dependency keeps its list as it is.
  ghost function ReducedList(g: Graph<nat>, list: seq<nat>): seq<nat> {
    var deps := SortUnique(list);
    if |deps| <= 1 then list else Essential(g, deps, deps)
  }

  ghost function ReducedDeps(tasks: Deps): (r: Deps)
    ensures |r| == |tasks|
  {
    seq(|tasks|, i requires 0 <= i < |tasks| => ReducedList(GraphOf(tasks), tasks[i]))
  }

  // ---- Why that is the transitive reduction. ----

  // An edge stays exactly when no other dependency of the task leads to it.
  lemma ReducedEdgeIff(tasks: Deps, i: nat, c: nat)
    requires i < |tasks|
    ensures c in ReducedDeps(tasks)[i] <==> c in tasks[i] && !Redundant(GraphOf(tasks), tasks[i], c)
  {
    var list := tasks[i];
    var deps := SortUnique(list);
    if |deps| <= 1 {
      forall other | other in list && c in list
        ensures other == c
      {
        assert other in deps && c in deps;
      }
    } else {
      EssentialIff(GraphOf(tasks), deps, deps, c);
      assert Redundant(GraphOf(tasks), deps, c) <==> Redundant(GraphOf(tasks), list, c);
    }
  }

  // In a backward plan paths go down.
  lemma {:induction false} ReachesDownward(tasks: Deps, x: nat, y: nat)
    requires Backward(tasks) && Reaches<nat>(GraphOf(tasks), x, y)
    ensures y <= x
    decreases x
  {
    var g := GraphOf(tasks);
    ReachesIff(g, x, y);
    if x != y {
      var z: nat :| Edge(g, x, z) && Reaches<nat>(g, z, y);
      ReachesDownward(tasks, z, y);
    }
  }

  // Below an index two backward plans with the same lists reach the same tasks.
  lemma {:induction false} SameBelow(a: Deps, b: Deps, x: nat, y: nat)
    requires Backward(a) && Backward(b) && |a| == |b|
    requires forall i :: 0 <= i <= x && i < |a| ==> a[i] == b[i]
    ensures Reaches<nat>(GraphOf(a), x, y) <==> Reaches<nat>(GraphOf(b), x, y)
    decreases x
  {
    var (g, h) := (GraphOf(a), GraphOf(b));
    ReachesIff(g, x, y);
    ReachesIff(h, x, y);
    assert forall z: nat :: Edge(g, x, z) <==> Edge(h, x, z);
    forall z: nat | Edge(g, x, z)
      ensures Reaches<nat>(g, z, y) <==> Reaches<nat>(h, z, y)
    {
      SameBelow(a, b, z, y);
    }
  }

  // Every dependency of a task is reached from one that stays.
  lemma {:induction false} SomeKeptDependencyLeads(tasks: Deps, i: nat, c: nat) returns (kept: nat)
    requires Backward(tasks) && i < |tasks| && c in tasks[i]
    ensures kept in ReducedDeps(tasks)[i] && Reaches<nat>(GraphOf(tasks), kept, c)
    decreases i - c
  {
    var g := GraphOf(tasks);
    ReducedEdgeIff(tasks, i, c);
    if Redundant(g, tasks[i], c) {
      var other: nat :| other in tasks[i] && other != c && Reaches<nat>(g, other, c);
      ReachesDownward(tasks, other, c);
      kept := SomeKeptDependencyLeads(tasks, i, other);
      ReachesTransitive(g, kept, other, c);
    } else {
      ReachesSelf(g, c);
      kept := c;
    }
  }

  lemma ReducedIsBackward(tasks: Deps)
    requires Backward(tasks)
    ensures Backward(ReducedDeps(tasks)) && Subgraph(GraphOf(ReducedDeps(tasks)), GraphOf(tasks))
  {
    forall i, d: nat | 0 <= i < |tasks| && d in ReducedDeps(tasks)[i]
      ensures d in tasks[i]
    {
      ReducedEdgeIff(tasks, i, d);
    }
  }

  // The reduction keeps reachability between every pair of tasks.
  lemma {:induction false} ReductionKeepsReachability(tasks: Deps, x: nat, y: nat)
    requires Backward(tasks)
    ensures Reaches<nat>(GraphOf(ReducedDeps(tasks)), x, y) <==> Reaches<nat>(GraphOf(tasks), x, y)
    decreases x
  {
    var (g, h) := (GraphOf(tasks), GraphOf(ReducedDeps(tasks)));
    ReducedIsBackward(tasks);
    if Reaches<nat>(h, x, y) {
      SubgraphReaches(h, g, x, y);
    } else if Reaches<nat>(g, x, y) {
      ReachesSelf(h, x);
      ReachesIff(g, x, y);
      var c: nat :| Edge(g, x, c) && Reaches<nat>(g, c, y);
      var kept := SomeKeptDependencyLeads(tasks, x, c);
      ReachesTransitive(g, kept, c, y);
      ReductionKeepsReachability(tasks, kept, y);
      EdgeReaches(h, x, kept);
      ReachesTransitive(h, x, kept, y);
    }
  }

  // A first step towards a different node.
  lemma {:induction false} FirstStepAway(g: Graph<nat>, p: seq<nat>, x: nat, y: nat) returns (z: nat)
    requires PathFromTo(g, p, x, y) && x != y
    ensures z != x && Edge(g, x, z) && Reaches<nat>(g, z, y)
    decreases |p|
  {
    assert Edge(g, p[0], p[1]) && PathFromTo(g, p[1..], p[1], y);
    if p[1] == x {
      z := FirstStepAway(g, p[1..], x, y);
    } else {
      z := p[1];
    }
  }

  // Any graph with the same reachability has every edge of the reduction, so the
  // reduction is the least such graph: no edge of it can be dropped, and there is
  // no other reduction.
  lemma ReductionIsLeast(tasks: Deps, other: Graph<nat>)
    requires Backward(tasks)
    requires forall x: nat, y: nat :: Reaches<nat>(other, x, y) <==> Reaches<nat>(GraphOf(tasks), x, y)
    ensures Subgraph(GraphOf(ReducedDeps(tasks)), other)
  {
    var g := GraphOf(tasks);
    forall i: nat, c: nat | Edge(GraphOf(ReducedDeps(tasks)), i, c)
      ensures Edge(other, i, c)
    {
      ReducedEdgeIff(tasks, i, c);
      EdgeReaches(g, i, c);
      var p :| PathFromTo(other, p, i, c);
      var z := FirstStepAway(other, p, i, c);
      EdgeReaches(other, i, z);
      if z != c {
        ReachesIff(g, i, z);
        var d: nat :| Edge(g, i, d) && Reaches<nat>(g, d, z);
        ReachesDownward(tasks, d, z);
        ReachesDownward(tasks, z, c);
        ReachesTransitive(g, d, z, c);
      }
    }
  }

  function Without(g: Graph<nat>, i: nat, c: nat): Graph<nat>
    requires i in g
  {
    g[i := g[i] - {c}]
  }

  // No edge of the reduction can be dropped: without it the two tasks are no
  // longer connected.
  lemma NoEdgeIsRedundant(tasks: Deps, i: nat, c: nat)
    requires Backward(tasks)
    requires Edge(GraphOf(ReducedDeps(tasks)), i, c)
    ensures !Reaches<nat>(Without(GraphOf(ReducedDeps(tasks)), i, c), i, c)
  {
    var (g, h) := (GraphOf(tasks), GraphOf(ReducedDeps(tasks)));
    var without := Without(h, i, c);
    ReducedIsBackward(tasks);
    ReducedEdgeIff(tasks, i, c);
    if Reaches<nat>(without, i, c) {
      var p :| PathFromTo(without, p, i, c);
      var z := FirstStepAway(without, p, i, c);
      SubgraphReaches(without, h, z, c);
      SubgraphReaches(h, g, z, c);
      ReducedEdgeIff(tasks, i, z);
    }
  }

  lemma EmptyIfNoMember(s: seq<nat>)
    ensures s == [] || exists x: nat :: x in s
  {
    if s != [] {
      assert s[0] in s;
    }
  }

  // ---- The number of edges. ----

  function Targets(list: seq<nat>): set<nat> {
    set d | d in list
  }

  function EdgesBelow(tasks: Deps, i: nat): nat
    requires i <= |tasks|
  {
    if i == 0 then 0 else EdgesBelow(tasks, i - 1) + |Targets(tasks[i - 1])|
  }

  function EdgeCount(tasks: Deps): nat {
    EdgesBelow(tasks, |tasks|)
  }

  // ---- What rewriting the lists one by one gives, for any plan. ----

  // The lists after the first n tasks have been handled: each new list depends on how
  // the lists stand when its turn comes.
  ghost function Rewritten(tasks: Deps, n: nat): (r: Deps)
    requires n <= |tasks|
    ensures |r| == |tasks|
  {
    if n == 0 then tasks else
      var lists := Rewritten(tasks, n - 1);
      lists[n - 1 := ReducedList(GraphOf(lists), lists[n - 1])]
  }

  lemma {:induction false} RewrittenAbove(tasks: Deps, n: nat, j: nat)
    requires n <= j < |tasks|
    ensures Rewritten(tasks, n)[j] == tasks[j]
  {
    if n > 0 {
      RewrittenAbove(tasks, n - 1, j);
    }
  }

  // A plan of one task is returned as it is.
  ghost function InPlaceReduced(tasks: Deps): (r: Deps)
    ensures |r| == |tasks|
  {
    if |tasks| <= 1 then tasks else Rewritten(tasks, |tasks|)
  }

  lemma {:induction false} SameEssential(g: Graph<nat>, h: Graph<nat>, list: seq<nat>, candidates: seq<nat>)
    requires forall c :: c in candidates ==> (Redundant(g, list, c) <==> Redundant(h, list, c))
    ensures Essential(g, list, candidates) == Essential(h, list, candidates)
  {
    if candidates != [] {
      SameEssential(g, h, list, candidates[..|candidates| - 1]);
      assert candidates[|candidates| - 1] in candidates;
    }
  }

  // The first lists are reduced as the plan says, the others are still the plan's.
  ghost predicate ReducedBelow(lists: Deps, tasks: Deps, n: nat) {
    && |lists| == |tasks|
    && forall j :: 0 <= j < |tasks| ==> lists[j] == if j < n then ReducedList(GraphOf(tasks), tasks[j]) else tasks[j]
  }

  // Above a rewritten prefix, the searches of a task still see what the plan said.
  lemma RedundantAsInPlan(tasks: Deps, lists: Deps, i: nat, deps: seq<nat>, c: nat)
    requires Backward(tasks) && i < |tasks| && ReducedBelow(lists, tasks, i)
    requires (forall d :: d in deps ==> d < i) && c < i
    ensures Redundant(GraphOf(lists), deps, c) <==> Redundant(GraphOf(tasks), deps, c)
  {
    ReducedIsBackward(tasks);
    ReducedBelowIsBackward(lists, tasks, i);
    forall other: nat | other in deps
      ensures Reaches<nat>(GraphOf(lists), other, c) <==> Reaches<nat>(GraphOf(tasks), other, c)
    {
      SameBelow(lists, ReducedDeps(tasks), other, c);
      ReductionKeepsReachability(tasks, other, c);
    }
  }

  lemma ListAsInPlan(tasks: Deps, lists: Deps, i: nat)
    requires Backward(tasks) && i < |tasks| && ReducedBelow(lists, tasks, i)
    ensures ReducedList(GraphOf(lists), tasks[i]) == ReducedList(GraphOf(tasks), tasks[i])
  {
    var deps := SortUnique(tasks[i]);
    forall c | c in deps
      ensures Redundant(GraphOf(lists), deps, c) <==> Redundant(GraphOf(tasks), deps, c)
    {
      RedundantAsInPlan(tasks, lists, i, deps, c);
    }
    SameEssential(GraphOf(lists), GraphOf(tasks), deps, deps);
  }

  lemma RewriteNext(tasks: Deps, n: nat, lists: Deps, list: seq<nat>)
    requires n < |tasks| && lists == Rewritten(tasks, n) && ReducedList(GraphOf(lists), lists[n]) == list
    ensures Rewritten(tasks, n + 1) == lists[n := list]
  {
  }

  lemma ReducedBelowNext(lists: Deps, tasks: Deps, i: nat, list: seq<nat>)
    requires i < |tasks| && ReducedBelow(lists, tasks, i) && list == ReducedList(GraphOf(tasks), tasks[i])
    ensures ReducedBelow(lists[i := list], tasks, i + 1)
  {
  }

  lemma RewriteKeepsReducedBelow(tasks: Deps, i: nat, lists: Deps, next: Deps)
    requires Backward(tasks) && i < |tasks| && lists == Rewritten(tasks, i) && next == Rewritten(tasks, i + 1)
    requires ReducedBelow(lists, tasks, i)
    ensures ReducedBelow(next, tasks, i + 1)
  {
    var list := ReducedList(GraphOf(tasks), tasks[i]);
    ListAsInPlan(tasks, lists, i);
    RewriteNext(tasks, i, lists, list);
    ReducedBelowNext(lists, tasks, i, list);
  }

  lemma NothingReducedYet(tasks: Deps)
    ensures ReducedBelow(tasks, tasks, 0)
  {
  }

  lemma {:induction false} RewrittenIsReducedBelow(tasks: Deps, n: nat, lists: Deps)
    requires Backward(tasks) && n <= |tasks| && lists == Rewritten(tasks, n)
    ensures ReducedBelow(lists, tasks, n)
  {
    if n == 0 {
      NothingReducedYet(tasks);
    } else {
      var before := Rewritten(tasks, n - 1);
      RewrittenIsReducedBelow(tasks, n - 1, before);
      RewriteKeepsReducedBelow(tasks, n - 1, before, lists);
    }
  }

  // With backward dependencies the order of rewriting does not matter: every list is
  // reduced as the plan that came in says.
  lemma InPlaceIsReduction(tasks: Deps)
    requires Backward(tasks)
    ensures InPlaceReduced(tasks) == ReducedDeps(tasks)
  {
    if |tasks| <= 1 {
      LoneTask(tasks);
    } else {
      RewrittenIsReducedBelow(tasks, |tasks|, InPlaceReduced(tasks));
    }
  }

  lemma LoneTask(tasks: Deps)
    requires Backward(tasks) && |tasks| <= 1
    ensures ReducedDeps(tasks) == tasks
  {
    if |tasks| == 1 {
      assert forall d: nat :: d in tasks[0] ==> d < 0;
      EmptyIfNoMember(tasks[0]);
    }
  }

  // Backward dependencies, which sanitising provides, are needed: on a cycle each of two
  // dependencies is implied by the other, and both are dropped.
  lemma CycleLosesBothEdges()
    ensures var tasks: Deps := [[1, 2], [2], [1]];
      && InPlaceReduced(tasks) == [[], [2], [1]]
      && Reaches<nat>(GraphOf(tasks), 0, 1) && !Reaches<nat>(GraphOf(InPlaceReduced(tasks)), 0, 1)
  {
    var tasks: Deps := [[1, 2], [2], [1]];
    CycleIsRewritten(tasks);
    EdgeReaches<nat>(GraphOf(tasks), 0, 1);
    NoListNoPath([[], [2], [1]]);
  }

  lemma NoListNoPath(lists: Deps)
    requires |lists| > 0 && lists[0] == []
    ensures !Reaches<nat>(GraphOf(lists), 0, 1)
  {
    ReachesIff<nat>(GraphOf(lists), 0, 1);
  }

  lemma CycleIsRewritten(tasks: Deps)
    requires tasks == [[1, 2], [2], [1]]
    ensures InPlaceReduced(tasks) == [[], [2], [1]]
  {
    var lists: Deps := [[], [2], [1]];
    EdgeReaches<nat>(GraphOf(tasks), 1, 2);
    EdgeReaches<nat>(GraphOf(tasks), 2, 1);
    MutualDependenciesAreDropped(GraphOf(tasks), tasks[0], 1, 2);
    RewriteNext(tasks, 0, tasks, []);
    assert tasks[0 := []] == lists;
    SingletonStays(GraphOf(lists), 2);
    RewriteNext(tasks, 1, lists, [2]);
    SingletonStays(GraphOf(lists), 1);
    RewriteNext(tasks, 2, lists, [1]);
  }

  lemma SingletonStays(g: Graph<nat>, x: nat)
    ensures ReducedList(g, [x]) == [x]
  {
    var deps := SortUnique([x]);
    IncreasingHasNoRepeats(deps);
    assert Targets(deps) == {x};
  }

  // Two dependencies that lead to each other are both dropped.
  lemma MutualDependenciesAreDropped(g: Graph<nat>, list: seq<nat>, a: nat, b: nat)
    requires a != b && (forall c :: c in list <==> c == a || c == b)
    requires Reaches<nat>(g, a, b) && Reaches<nat>(g, b, a)
    ensures ReducedList(g, list) == []
  {
    var deps := SortUnique(list);
    assert a in deps && b in deps;
    forall c: nat ensures c !in Essential(g, deps, deps) {
      EssentialIff(g, deps, deps, c);
      assert c == a ==> Redundant(g, deps, c);
      assert c == b ==> Redundant(g, deps, c);
    }
    EmptyIfNoMember(Essential(g, deps, deps));
    IncreasingHasNoRepeats(deps);
    assert Targets(deps) == {a, b};
  }

  lemma ReducedBelowIsBackward(lists: Deps, tasks: Deps, i: nat)
    requires Backward(tasks) && ReducedBelow(lists, tasks, i)
    ensures Backward(lists)
  {
    ReducedIsBackward(tasks);
    forall j, d: nat | 0 <= j < |lists| && d in lists[j]
      ensures d < j
    {
      assert d in tasks[j] || d in ReducedDeps(tasks)[j];
    }
  }

  // ---- The code. ----

  // The indexes some list names.
  function Named(lists: Deps): set<nat> {
    set i: nat, d: nat | i < |lists| && d in lists[i] :: d
  }

  // Every dependency of the node has been visited, and none is the target.
  ghost predicate Expanded(g: Graph<nat>, v: nat, visited: set<nat>, target: nat) {
    forall z: nat :: Edge<nat>(g, v, z) ==> z in visited && z != target
  }

  // From a closed set of nodes without edges to the target nothing leads there.
  lemma {:induction false} ClosedSetMisses(g: Graph<nat>, closed: set<nat>, p: seq<nat>, x: nat, target: nat)
    requires x in closed && x != target && forall v: nat :: v in closed ==> Expanded(g, v, closed, target)
    ensures !PathFromTo<nat>(g, p, x, target)
    decreases |p|
  {
    if PathFromTo<nat>(g, p, x, target) {
      assert Edge<nat>(g, p[0], p[1]);
      assert PathFromTo<nat>(g, p[1..], p[1], target);
      ClosedSetMisses(g, closed, p[1..], p[1], target);
    }
  }

  lemma ExploredMisses(g: Graph<nat>, visited: set<nat>, from: nat, target: nat)
    requires from in visited && from != target && Expanded(g, from, visited, target)
    requires forall v: nat :: v in visited - {from} ==> Expanded(g, v, visited, target)
    ensures !Reaches<nat>(g, from, target)
  {
    forall v: nat | v in visited ensures Expanded(g, v, visited, target) {
      if v != from {
        assert v in visited - {from};
      }
    }
    forall p ensures !PathFromTo<nat>(g, p, from, target) {
      ClosedSetMisses(g, visited, p, from, target);
    }
  }

  // canReach: depth-first search in the lists as they currently stand, for any plan. A
  // negative search has expanded its start and every node it newly visited, so that,
  // begun with nothing but its start visited, it decides reachability.
  method CanReach(tasks: array<seq<nat>>, from: nat, target: nat, visited: set<nat>)
    returns (found: bool, visited': set<nat>)
    ensures found ==> Reaches<nat>(GraphOf(tasks[..]), from, target)
    ensures visited <= visited' <= visited + Named(tasks[..])
    ensures !found ==> from != target && Expanded(GraphOf(tasks[..]), from, visited', target)
    ensures !found ==> forall v: nat :: v in visited' - visited ==> Expanded(GraphOf(tasks[..]), v, visited', target)
    ensures visited == {from} ==> (found <==> Reaches<nat>(GraphOf(tasks[..]), from, target))
    decreases Named(tasks[..]) - visited
  {
    ghost var lists := tasks[..];
    ghost var g := GraphOf(lists);
    visited' := visited;
    if from == target {
      ReachesSelf<nat>(g, from);
      return true, visited';
    }
    var deps: seq<nat> := if from < tasks.Length then tasks[from] else [];
    assert forall z: nat :: Edge<nat>(g, from, z) <==> z in deps;
    for k := 0 to |deps|
      invariant tasks[..] == lists && visited <= visited' <= visited + Named(lists)
      invariant forall j :: 0 <= j < k ==> deps[j] in visited' && deps[j] != target
      invariant forall v: nat :: v in visited' - visited ==> Expanded(g, v, visited', target)
    {
      var dep: nat := deps[k];
      assert Edge<nat>(g, from, dep);
      if dep == target {
        EdgeReaches<nat>(g, from, dep);
        return true, visited';
      }
      if dep !in visited' {
        assert dep in Named(lists) by {
          assert dep in lists[from];
        }
        var hit, seen := CanReach(tasks, dep, target, visited' + {dep});
        assert tasks[..] == lists;
        if hit {
          EdgeThenReaches<nat>(g, from, dep, target);
          return true, seen;
        }
        ExpandedMore(g, visited, visited', seen, dep, target);
        visited' := seen;
      }
    }
    found := false;
    if visited == {from} {
      ExploredMisses(g, visited', from, target);
    }
  }

  // After the search from one more node everything newly visited is expanded.
  lemma ExpandedMore(g: Graph<nat>, visited: set<nat>, before: set<nat>, after: set<nat>, dep: nat, target: nat)
    requires visited <= before && before + {dep} <= after
    requires forall v: nat :: v in before - visited ==> Expanded(g, v, before, target)
    requires Expanded(g, dep, after, target)
    requires forall v: nat :: v in after - (before + {dep}) ==> Expanded(g, v, after, target)
    ensures forall v: nat :: v in after - visited ==> Expanded(g, v, after, target)
  {
    forall v: nat | v in after - visited ensures Expanded(g, v, after, target) {
      if v in before {
        assert v in before - visited;
      } else if v != dep {
        assert v in after - (before + {dep});
      }
    }
  }

  // The inner search of the filter: is there another dependency that leads to the candidate?
  method IsRedundant(tasks: array<seq<nat>>, deps: seq<nat>, candidate: nat) returns (redundant: bool)
    ensures redundant <==> Redundant(GraphOf(tasks[..]), deps, candidate)
  {
    ghost var lists := tasks[..];
    for k := 0 to |deps|
      invariant tasks[..] == lists
      invariant forall j :: 0 <= j < k && deps[j] != candidate ==> !Reaches<nat>(GraphOf(lists), deps[j], candidate)
    {
      var other: nat := deps[k];
      if other != candidate {
        var found, visited := CanReach(tasks, other, candidate, {other});
        if found {
          return true;
        }
      }
    }
    redundant := false;
  }

  // reduceRedundantDependencyIndexes, for any plan: the lists are rewritten one by one, the
  // reported number is the number of edges lost, and a plan that loses none is returned
  // as is. For a plan that goes backward the result is the reduction of that plan.
  method ReduceRedundantDependencyIndexes(tasks: Deps) returns (reduced: Deps, removed: nat)
    ensures reduced == if removed == 0 then tasks else InPlaceReduced(tasks)
    ensures removed == EdgeCount(tasks) - EdgeCount(InPlaceReduced(tasks))
    ensures GraphOf(reduced) == GraphOf(InPlaceReduced(tasks))
    ensures Backward(tasks) ==> InPlaceReduced(tasks) == ReducedDeps(tasks)
  {
    ghost var result := InPlaceReduced(tasks);
    ResultOfReduction(tasks, result);
    if |tasks| <= 1 {
      return tasks, 0;
    }
    var work := new seq<nat>[|tasks|](i requires 0 <= i < |tasks| => tasks[i]);
    assert work[..] == tasks;
    removed := ReduceInPlace(work);
    assert work[..] == result;
    reduced := if removed == 0 then tasks else work[..];
  }

  lemma ResultOfReduction(tasks: Deps, result: Deps)
    requires result == InPlaceReduced(tasks)
    ensures if |tasks| <= 1 then result == tasks else result == Rewritten(tasks, |tasks|)
    ensures EdgeCount(result) == EdgeCount(tasks) ==> GraphOf(result) == GraphOf(tasks)
    ensures Backward(tasks) ==> result == ReducedDeps(tasks)
  {
    if |tasks| > 1 {
      SameCountSameEdges(tasks, result);
    }
    if Backward(tasks) {
      InPlaceIsReduction(tasks);
    }
  }

  lemma {:induction false} RewrittenLosesEdges(tasks: Deps, n: nat, i: nat)
    requires n <= |tasks| && i < |tasks|
    ensures Targets(Rewritten(tasks, n)[i]) <= Targets(tasks[i])
  {
    if n > 0 {
      RewrittenLosesEdges(tasks, n - 1, i);
      if i == n - 1 {
        var lists := Rewritten(tasks, n - 1);
        ReducedListIsSubset(GraphOf(lists), lists[i]);
      }
    }
  }

  lemma ReducedListIsSubset(g: Graph<nat>, list: seq<nat>)
    ensures Targets(ReducedList(g, list)) <= Targets(list)
  {
    var deps := SortUnique(list);
    forall c: nat | c in ReducedList(g, list) ensures c in list {
      EssentialIff(g, deps, deps, c);
    }
  }

  lemma SameTargetsSameGraph(a: Deps, b: Deps)
    requires |a| == |b| && forall i :: 0 <= i < |a| ==> Targets(a[i]) == Targets(b[i])
    ensures GraphOf(a) == GraphOf(b)
  {
    forall i | 0 <= i < |a|
      ensures GraphOf(a)[i] == GraphOf(b)[i]
    {
      assert GraphOf(a)[i] == Targets(a[i]) && GraphOf(b)[i] == Targets(b[i]);
    }
  }

  // If the count did not change, no list lost an edge.
  lemma SameCountSameEdges(tasks: Deps, result: Deps)
    requires result == Rewritten(tasks, |tasks|)
    ensures EdgeCount(result) <= EdgeCount(tasks)
    ensures EdgeCount(result) == EdgeCount(tasks) ==> GraphOf(result) == GraphOf(tasks)
  {
    forall i | 0 <= i < |tasks|
      ensures Targets(result[i]) <= Targets(tasks[i])
    {
      RewrittenLosesEdges(tasks, |tasks|, i);
    }
    FewerEdges(result, tasks, |tasks|);
    if EdgeCount(result) == EdgeCount(tasks) {
      SameTargetsSameGraph(result, tasks);
    }
  }

  lemma {:induction false} FewerEdges(a: Deps, b: Deps, n: nat)
    requires n <= |a| && |a| == |b|
    requires forall i :: 0 <= i < |a| ==> Targets(a[i]) <= Targets(b[i])
    ensures EdgesBelow(a, n) <= EdgesBelow(b, n)
    ensures EdgesBelow(a, n) == EdgesBelow(b, n) ==> forall i :: 0 <= i < n ==> Targets(a[i]) == Targets(b[i])
  {
    if n > 0 {
      FewerEdges(a, b, n - 1);
      SubsetCardinality(Targets(a[n - 1]), Targets(b[n - 1]));
    }
  }

  lemma {:induction false} SubsetCardinality(a: set<nat>, b: set<nat>)
    requires a <= b
    ensures |a| <= |b| && (|a| == |b| ==> a == b)
  {
    if a != {} {
      var x :| x in a;
      SubsetCardinality(a - {x}, b - {x});
      assert a == (a - {x}) + {x} && b == (b - {x}) + {x};
    }
  }

  lemma {:induction false} SameListsSameCount(a: Deps, b: Deps, n: nat)
    requires n <= |a| && n <= |b| && forall j :: 0 <= j < n ==> a[j] == b[j]
    ensures EdgesBelow(a, n) == EdgesBelow(b, n)
  {
    if n > 0 {
      SameListsSameCount(a, b, n - 1);
    }
  }

  // The first lists have been rewritten and so many edges have gone.
  ghost predicate RewrittenSoFar(work: Deps, tasks: Deps, i: nat, removed: nat) {
    && i <= |tasks| && work == Rewritten(tasks, i)
    && EdgesBelow(work, i) + removed == EdgesBelow(tasks, i)
  }

  lemma OneMoreRewritten(work: Deps, tasks: Deps, i: nat, removed: nat, list: seq<nat>, lost: nat)
    requires i < |tasks| && RewrittenSoFar(work, tasks, i, removed)
    requires list == ReducedList(GraphOf(work), work[i]) && lost == |Targets(work[i])| - |Targets(list)|
    ensures RewrittenSoFar(work[i := list], tasks, i + 1, removed + lost)
  {
    RewriteNext(tasks, i, work, list);
    RewrittenAbove(tasks, i, i);
    SameListsSameCount(work[i := list], work, i);
  }

  // The outer loop: the array holds the plan and is rewritten task by task.
  method ReduceInPlace(work: array<seq<nat>>) returns (removed: nat)
    modifies work
    ensures work[..] == Rewritten(old(work[..]), work.Length)
    ensures EdgeCount(work[..]) + removed == EdgeCount(old(work[..]))
  {
    removed := 0;
    for i := 0 to work.Length
      invariant RewrittenSoFar(work[..], old(work[..]), i, removed)
    {
      removed := ReduceAt(work, old(work[..]), i, removed);
    }
  }

  method ReduceAt(work: array<seq<nat>>, ghost tasks: Deps, i: nat, removed: nat) returns (removed': nat)
    requires i < |tasks| && RewrittenSoFar(work[..], tasks, i, removed)
    modifies work
    ensures RewrittenSoFar(work[..], tasks, i + 1, removed')
  {
    ghost var before := work[..];
    var list, lost := ReduceTask(work, i);
    OneMoreRewritten(before, tasks, i, removed, list, lost);
    work[i] := list;
    removed' := removed + lost;
    assert work[..] == before[i := list];
  }

  // One round of the outer loop: the new list of a task and the edges it lost.
  method ReduceTask(work: array<seq<nat>>, i: nat) returns (list: seq<nat>, lost: nat)
    requires i < work.Length
    ensures list == ReducedList(GraphOf(work[..]), work[i])
    ensures lost == |Targets(work[i])| - |Targets(list)|
  {
    var deps := SortUnique(work[i]);
    if |deps| <= 1 {
      return work[i], 0;
    }
    list := FilterEssential(work, deps);
    EssentialIsIncreasing(GraphOf(work[..]), deps, deps);
    IncreasingHasNoRepeats(deps);
    IncreasingHasNoRepeats(list);
    assert Targets(work[i]) == Targets(deps);
    lost := |deps| - |list|;
  }

  method FilterEssential(work: array<seq<nat>>, deps: seq<nat>) returns (kept: seq<nat>)
    ensures kept == Essential(GraphOf(work[..]), deps, deps)
  {
    ghost var lists := work[..];
    kept := [];
    for k := 0 to |deps|
      invariant work[..] == lists
      invariant kept == Essential(GraphOf(lists), deps, deps[..k])
    {
      var redundant := IsRedundant(work, deps, deps[k]);
      assert deps[..k + 1][..k] == deps[..k];
      if !redundant {
        kept := kept + [deps[k]];
      }
    }
    assert deps[..|deps|] == deps;
  }

  lemma {:induction false} EssentialIsIncreasing(g: Graph<nat>, list: seq<nat>, candidates: seq<nat>)
    requires Increasing(candidates)
    ensures Increasing(Essential(g, list, candidates))
  {
    if candidates != [] {
      var prefix := candidates[..|candidates| - 1];
      var r := Essential(g, list, prefix);
      EssentialIsIncreasing(g, list, prefix);
      forall k | 0 <= k < |r|
        ensures r[k] < candidates[|candidates| - 1]
      {
        EssentialIff(g, list, prefix, r[k]);
        assert r[k] in r && r[k] in prefix;
      }
    }
  }

  lemma {:induction false} IncreasingHasNoRepeats(s: seq<nat>)
    requires Increasing(s)
    ensures |Targets(s)| == |s|
  {
    if s != [] {
      var (prefix, last) := (s[..|s| - 1], s[|s| - 1]);
      IncreasingHasNoRepeats(prefix);
      assert s == prefix + [last];
      assert Targets(s) == Targets(prefix) + {last};
    }
  }
}
