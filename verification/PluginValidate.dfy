// The validator's own dependency check: a second depth-first search that only
// collects messages. It complains exactly when the loader would reject something.
module PluginValidate {
  import opened Digraph
  import opened Options
  import opened PluginGraph
  import PluginLoader

  datatype Complaint =
    | Cycle(stack: seq<PluginId>)
    | UnknownPlugin(id: PluginId, dependency: PluginId)

  class CycleChecker {
    const req: Requirements
    var errors: seq<Complaint>
    var visiting: set<PluginId>
    var visited: set<PluginId>
    ghost var finished: seq<PluginId>  // in the order in which visits ended

    constructor (req: Requirements)
      ensures this.req == req && Valid() && errors == [] && visiting == {} && visited == {}
    {
      this.req := req;
      errors, visiting, visited, finished := [], {}, {}, [];
    }

    ghost predicate SomeoneUnsound()
    {
      exists id :: id in req && !Sound(req, id)
    }

    // As long as nothing was reported the finished plugins are in topological
    // order; once something was, some plugin is unsound.
    ghost predicate Valid()
      reads this
    {
      && visiting !! visited && visiting <= req.Keys && visited <= req.Keys
      && (errors == [] ==> Topological(req, finished) && forall id :: id in finished <==> id in visited)
      && (errors != [] ==> SomeoneUnsound())
    }

    method Report(complaint: Complaint, id: PluginId)
      requires Valid() && id in req && !Sound(req, id)
      modifies this`errors
      ensures Valid() && errors == old(errors) + [complaint]
    {
      errors := errors + [complaint];
    }

    method Finish(id: PluginId)
      requires Valid() && id in visiting
      requires errors == [] ==> forall d :: d in req[id] ==> d in visited
      modifies this`visiting, this`visited, this`finished
      ensures Valid() && visiting == old(visiting) - {id} && visited == old(visited) + {id}
    {
      if errors == [] {
        AppendTopological(req, finished, id);
        finished := finished + [id];
      }
      visiting := visiting - {id};
      visited := visited + {id};
    }

    method Visit(id: PluginId, stack: seq<PluginId>)
      requires Valid() && id in req
      requires forall x :: x in stack <==> x in visiting
      requires Path(RequiresGraph(req), stack + [id])
      modifies this
      ensures Valid() && visiting == old(visiting) && old(visited) <= visited && old(errors) <= errors
      ensures errors == [] ==> id in visited
      decreases req.Keys - visited - visiting, 0
    {
      if id in visited {
        return;
      }
      if id in visiting {
        PluginLoader.CycleOnPath(req, stack, id);
        Report(Cycle(stack + [id]), id);
        return;
      }
      visiting := visiting + {id};
      VisitRequired(id, stack + [id]);
      Finish(id);
    }

    method VisitRequired(id: PluginId, stack: seq<PluginId>)
      requires Valid() && id in visiting && stack != [] && stack[|stack| - 1] == id
      requires forall x :: x in stack <==> x in visiting
      requires Path(RequiresGraph(req), stack)
      modifies this
      ensures Valid() && visiting == old(visiting) && old(visited) <= visited && old(errors) <= errors
      ensures errors == [] ==> forall d :: d in req[id] ==> d in visited
      decreases req.Keys - visited - visiting, 1
    {
      var required := req[id];
      for k := 0 to |required|
        invariant Valid() && visiting == old(visiting) && old(visited) <= visited && old(errors) <= errors
        invariant errors == [] ==> forall j :: 0 <= j < k ==> required[j] in visited
      {
        var dep := required[k];
        if dep !in req {
          PluginLoader.LeavesCandidates(req, id, dep);
          Report(UnknownPlugin(id, dep), id);
        } else {
          PluginLoader.ExtendPath(req, stack, dep);
          Visit(dep, stack);
        }
      }
    }
  }

  // checkDependencyCycles: nothing is reported exactly when the requires graph is
  // closed and acyclic; equivalently, when every plugin is sound, which is when the
  // loader, given the same candidates, enables all of them.
  method CheckDependencyCycles(req: Requirements, keys: seq<PluginId>) returns (errors: seq<Complaint>)
    requires forall id :: id in keys <==> id in req
    ensures errors == [] <==> Closed(req) && Acyclic(RequiresGraph(req))
    ensures errors == [] <==> forall id :: id in req ==> Sound(req, id)
  {
    var checker := new CycleChecker(req);
    for k := 0 to |keys|
      invariant checker.Valid() && checker.req == req && checker.visiting == {}
      invariant checker.errors == [] ==> forall j :: 0 <= j < k ==> keys[j] in checker.visited
    {
      checker.Visit(keys[k], []);
    }
    errors := checker.errors;
    if errors == [] {
      forall id | id in req
        ensures Sound(req, id)
      {
        assert id in keys;
        TopologicalIsSound(req, checker.finished, id);
      }
    }
    AllSoundIffClosedAndAcyclic(req);
  }

  // The validator and the loader agree: of manifests with distinct ids the loader enables
  // every one if and only if the validator is silent and each is requested and compatible.
  // In particular, without a list of enabled plugins and with matching versions, if and
  // only if the validator is silent.
  method ValidatorAgreesWithLoader(manifests: seq<PluginLoader.Manifest>, enabledCsv: Option<string>, supported: string)
    returns (silent: bool, allEnabled: bool)
    requires NoRepeats(PluginLoader.ManifestIds(manifests))
    ensures allEnabled <==> silent && forall m :: m in manifests ==>
      PluginLoader.Requested(PluginLoader.ParseEnabledPlugins(enabledCsv), m.id) && m.pluginApiVersion == supported
    ensures silent <==> forall m :: m in manifests ==> Sound(PluginLoader.RequirementsOf(manifests), m.id)
  {
    var req := PluginLoader.RequirementsOf(manifests);
    PluginLoader.CandidateIdsAreRequired(manifests);
    var complaints := CheckDependencyCycles(req, PluginLoader.ManifestIds(manifests));
    var inventory, enabled := PluginLoader.LoadPlugins(manifests, enabledCsv, supported);
    silent := complaints == [];
    allEnabled := forall m :: m in manifests ==> m.id in enabled;
    SilentIffAllSound(manifests, req, silent);
    AllEnabledIff(manifests, PluginLoader.ParseEnabledPlugins(enabledCsv), supported, enabled);
  }

  lemma SilentIffAllSound(manifests: seq<PluginLoader.Manifest>, req: Requirements, silent: bool)
    requires NoRepeats(PluginLoader.ManifestIds(manifests)) && req == PluginLoader.RequirementsOf(manifests)
    requires silent <==> forall id :: id in req ==> Sound(req, id)
    ensures silent <==> forall m :: m in manifests ==> Sound(req, m.id)
  {
    var ids := PluginLoader.ManifestIds(manifests);
    PluginLoader.CandidateIdsAreRequired(manifests);
    forall m | m in manifests ensures m.id in req {
      ManifestIsRequired(manifests, m);
    }
    forall id | id in req ensures exists m :: m in manifests && m.id == id {
      var k :| 0 <= k < |ids| && ids[k] == id;
      assert manifests[k] in manifests;
    }
  }

  lemma AllEnabledIff(manifests: seq<PluginLoader.Manifest>, filter: Option<seq<PluginId>>, supported: string,
                      enabled: seq<PluginId>)
    requires NoRepeats(PluginLoader.ManifestIds(manifests))
    requires var req := PluginLoader.RequirementsOf(PluginLoader.Candidates(manifests, filter, supported));
      forall id :: id in enabled <==> id in req && Sound(req, id)
    ensures (forall m :: m in manifests ==> m.id in enabled) <==>
      && (forall m :: m in manifests ==> Sound(PluginLoader.RequirementsOf(manifests), m.id))
      && (forall m :: m in manifests ==> PluginLoader.Requested(filter, m.id) && m.pluginApiVersion == supported)
  {
    var req := PluginLoader.RequirementsOf(manifests);
    if forall m :: m in manifests ==> PluginLoader.Requested(filter, m.id) && m.pluginApiVersion == supported {
      PluginLoader.AllAreCandidates(manifests, filter, supported);
      forall m | m in manifests ensures m.id in req {
        ManifestIsRequired(manifests, m);
      }
    } else {
      var m :| m in manifests && (!PluginLoader.Requested(filter, m.id) || m.pluginApiVersion != supported);
      PluginLoader.RefusedIsNotRequired(manifests, filter, supported, m);
    }
  }

  lemma ManifestIsRequired(manifests: seq<PluginLoader.Manifest>, m: PluginLoader.Manifest)
    requires NoRepeats(PluginLoader.ManifestIds(manifests)) && m in manifests
    ensures m.id in PluginLoader.RequirementsOf(manifests)
  {
    PluginLoader.RequirementsIff(manifests, m.id);
  }
}
