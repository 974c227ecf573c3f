// Which plugins can be enabled: the meaning shared by the loader and the validator.
module PluginGraph {
  import opened Digraph

  type PluginId = string

  // For every candidate plugin the ids it requires.
  type Requirements = map<PluginId, seq<PluginId>>

  function RequiresGraph(req: Requirements): Graph<PluginId> {
    map id | id in req :: set d | d in req[id]
  }

  ghost predicate NoRepeats(p: seq<PluginId>) {
    forall j, k :: 0 <= j < k < |p| ==> p[j] != p[k]
  }

  // Every requires-path from the plugin stays among the candidates and never
  // comes back to a plugin it has passed.
  ghost predicate Sound(req: Requirements, id: PluginId) {
    forall p :: Path(RequiresGraph(req), p) && p[0] == id ==> (forall k :: 0 <= k < |p| ==> p[k] in req) && NoRepeats(p)
  }

  // A path that leaves the candidates or repeats a plugin makes its start unsound.
  lemma UnsoundWitness(req: Requirements, p: seq<PluginId>)
    requires Path(RequiresGraph(req), p)
    requires p[|p| - 1] !in req || exists j, k :: 0 <= j < k < |p| && p[j] == p[k]
    ensures !Sound(req, p[0])
  {
  }

  lemma UnsoundPropagates(req: Requirements, id: PluginId, dep: PluginId)
    requires id in req && dep in req[id] && !Sound(req, dep)
    ensures !Sound(req, id)
  {
    var g := RequiresGraph(req);
    var p :| Path(g, p) && p[0] == dep && !((forall k :: 0 <= k < |p| ==> p[k] in req) && NoRepeats(p));
    var q := [id] + p;
    forall k | 0 <= k < |q| - 1
      ensures Edge(g, q[k], q[k + 1])
    {
      assert k > 0 ==> Edge(g, p[k - 1], p[k]);
    }
    assert Path(g, q);
    if k :| 0 <= k < |p| && p[k] !in req {
      assert q[k + 1] !in req;
    } else {
      var j, k :| 0 <= j < k < |p| && p[j] == p[k];
      assert q[j + 1] == q[k + 1];
    }
  }

  // Distinct candidates, each after everything it requires.
  ghost predicate Topological(req: Requirements, order: seq<PluginId>) {
    order == [] ||
      var (before, last) := (order[..|order| - 1], order[|order| - 1]);
      && Topological(req, before)
      && last in req && last !in before
      && forall d :: d in req[last] ==> d in before
  }

  lemma AppendTopological(req: Requirements, order: seq<PluginId>, id: PluginId)
    requires Topological(req, order) && id in req && id !in order
    requires forall d :: d in req[id] ==> d in order
    ensures Topological(req, order + [id])
  {
    assert (order + [id])[..|order|] == order;
  }

  // What the order says about one of its places.
  lemma {:induction false} TopologicalAt(req: Requirements, order: seq<PluginId>, k: nat)
    requires Topological(req, order) && k < |order|
    ensures order[k] in req && order[k] !in order[..k]
    ensures forall d :: d in req[order[k]] ==> d in order[..k]
  {
    var before := order[..|order| - 1];
    if k < |before| {
      TopologicalAt(req, before, k);
      assert before[..k] == order[..k];
    }
  }

  lemma {:induction false} PathsDescend(req: Requirements, order: seq<PluginId>, p: seq<PluginId>, at: nat, k: nat)
    returns (pos: nat)
    requires Topological(req, order) && Path(RequiresGraph(req), p)
    requires at < |order| && order[at] == p[0] && k < |p|
    ensures pos < |order| && order[pos] == p[k] && pos + k <= at
  {
    if k == 0 {
      pos := at;
    } else {
      var before := PathsDescend(req, order, p, at, k - 1);
      assert Edge(RequiresGraph(req), p[k - 1], p[k - 1 + 1]);
      TopologicalAt(req, order, before);
      pos :| 0 <= pos < before && order[pos] == p[k];
    }
  }

  lemma {:induction false} LaterIsLower(req: Requirements, order: seq<PluginId>, p: seq<PluginId>, at: nat, j: nat,
                                        k: nat)
    requires Topological(req, order) && Path(RequiresGraph(req), p)
    requires at < |order| && order[at] == p[0] && j < k < |p|
    ensures p[j] != p[k]
  {
    var pos := PathsDescend(req, order, p, at, j);
    var q := p[j..];
    PathSlice(RequiresGraph(req), p, j, |p|);
    assert q == p[j..|p|];
    var low := PathsDescend(req, order, q, pos, k - j);
    TopologicalAt(req, order, pos);
    assert order[low] == p[k] && low < pos && order[low] in order[..pos];
  }

  // Everything in a topological order is sound.
  lemma TopologicalIsSound(req: Requirements, order: seq<PluginId>, id: PluginId)
    requires Topological(req, order) && id in order
    ensures Sound(req, id)
  {
    var at: nat :| at < |order| && order[at] == id;
    forall p | Path(RequiresGraph(req), p) && p[0] == id
      ensures (forall k :: 0 <= k < |p| ==> p[k] in req) && NoRepeats(p)
    {
      forall k | 0 <= k < |p|
        ensures p[k] in req
      {
        var pos := PathsDescend(req, order, p, at, k);
        TopologicalAt(req, order, pos);
      }
      forall j, k | 0 <= j < k < |p|
        ensures p[j] != p[k]
      {
        LaterIsLower(req, order, p, at, j, k);
      }
    }
  }

  ghost predicate Closed(req: Requirements) {
    forall id, d :: id in req && d in req[id] ==> d in req
  }

  lemma {:induction false} ClosedPathsStay(req: Requirements, p: seq<PluginId>, k: nat)
    requires Closed(req) && Path(RequiresGraph(req), p) && p[0] in req && k < |p|
    ensures p[k] in req
  {
    if k > 0 {
      ClosedPathsStay(req, p, k - 1);
      assert Edge(RequiresGraph(req), p[k - 1], p[k - 1 + 1]);
    }
  }

  lemma CycleIsUnsound(req: Requirements, x: PluginId)
    requires ReachesStrictly(RequiresGraph(req), x, x)
    ensures x in req && !Sound(req, x)
  {
    var p :| PathFromTo(RequiresGraph(req), p, x, x) && |p| > 1;
    assert Edge(RequiresGraph(req), p[0], p[1]);
    UnsoundWitness(req, p);
  }

  // All candidates are sound exactly when the requires graph is closed and acyclic.
  lemma AllSoundIffClosedAndAcyclic(req: Requirements)
    ensures (forall id :: id in req ==> Sound(req, id)) <==> Closed(req) && Acyclic(RequiresGraph(req))
  {
    var g := RequiresGraph(req);
    if forall id :: id in req ==> Sound(req, id) {
      forall id, d | id in req && d in req[id]
        ensures d in req
      {
        assert Path(g, [id, d]);
        assert [id, d][1] == d;
      }
      forall x | ReachesStrictly(g, x, x)
        ensures x in req && !Sound(req, x)
      {
        CycleIsUnsound(req, x);
      }
    } else if Closed(req) {
      var id :| id in req && !Sound(req, id);
      var p :| Path(g, p) && p[0] == id && !((forall k :: 0 <= k < |p| ==> p[k] in req) && NoRepeats(p));
      forall k | 0 <= k < |p|
        ensures p[k] in req
      {
        ClosedPathsStay(req, p, k);
      }
      var j, k :| 0 <= j < k < |p| && p[j] == p[k];
      var loop := p[j..k + 1];
      PathSlice(g, p, j, k + 1);
      assert PathFromTo(g, loop, p[j], p[j]);
      assert ReachesStrictly(g, p[j], p[j]);
    }
  }
}
