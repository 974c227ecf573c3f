// Loading plugins: which manifests are candidates, a depth-first topological sort
// with temporary, permanent and error marks, and the inventory.
module PluginLoader {
  import opened Options
  import opened Digraph
  import opened PluginGraph
  import Text

  datatype Reason =
    | CycleDetected(path: seq<PluginId>)
    | MissingPlugin(dependency: PluginId)
    | InvalidDependency(dependency: PluginId)

  // topologicalSort: the marks and lists its recursive visit works on.
  class TopologicalSort {
    const req: Requirements
    var sorted: seq<PluginId>
    var errors: map<PluginId, Reason>
    var permanent: set<PluginId>
    var temporary: set<PluginId>

    constructor (req: Requirements)
      ensures this.req == req && Valid() && sorted == [] && errors == map[] && permanent == {} && temporary == {}
    {
      this.req := req;
      sorted, errors, permanent, temporary := [], map[], {}, {};
    }

    // Finished plugins without an error are sorted after what they require; every
    // plugin with an error is unsound.
    ghost predicate Valid()
      reads this
    {
      && temporary !! permanent && temporary <= req.Keys && permanent <= req.Keys
      && errors.Keys <= temporary + permanent
      && Topological(req, sorted)
      && (forall id :: id in sorted <==> id in permanent && id !in errors)
      && (forall id {:trigger Sound(req, id)} :: id in errors ==> !Sound(req, id))
    }

    // errors.set(id, reason)
    method Mark(id: PluginId, reason: Reason)
      requires Valid() && id in temporary && !Sound(req, id)
      modifies this`errors
      ensures Valid() && errors == old(errors)[id := reason]
    {
      errors := errors[id := reason];
    }

    // The end of a visit: the mark becomes permanent, and a plugin without an error is sorted.
    method Leave(id: PluginId)
      requires Valid() && id in temporary
      requires id !in errors ==> forall d :: d in req[id] ==> d in sorted
      modifies this`temporary, this`permanent, this`sorted
      ensures Valid() && temporary == old(temporary) - {id} && permanent == old(permanent) + {id}
      ensures (forall x :: x in old(sorted) ==> x in sorted) && (id in errors || id in sorted)
    {
      temporary := temporary - {id};
      permanent := permanent + {id};
      if id !in errors {
        AppendTopological(req, sorted, id);
        sorted := sorted + [id];
      }
    }

    // visit: `path` holds the plugins being visited, each requiring the next.
    method Visit(id: PluginId, path: seq<PluginId>)
      requires Valid() && id in req
      requires forall x :: x in path <==> x in temporary
      requires Path(RequiresGraph(req), path + [id])
      modifies this
      ensures Valid() && temporary == old(temporary)
      ensures old(permanent) <= permanent && old(errors).Keys <= errors.Keys
      ensures forall x :: x in old(sorted) ==> x in sorted
      ensures id in errors || id in sorted
      decreases req.Keys - permanent - temporary, 0
    {
      if id in errors || id in permanent {
        return;
      }
      if id in temporary {
        CycleOnPath(req, path, id);
        Mark(id, CycleDetected(path + [id]));
        return;
      }
      temporary := temporary + {id};
      VisitDependencies(id, path + [id]);
      Leave(id);
    }

    // The loop over the required plugins; `path` now ends with the plugin itself.
    method VisitDependencies(id: PluginId, path: seq<PluginId>)
      requires Valid() && id in temporary && path != [] && path[|path| - 1] == id
      requires forall x :: x in path <==> x in temporary
      requires Path(RequiresGraph(req), path)
      modifies this
      ensures Valid() && temporary == old(temporary)
      ensures old(permanent) <= permanent && old(errors).Keys <= errors.Keys
      ensures forall x :: x in old(sorted) ==> x in sorted
      ensures id !in errors ==> forall d :: d in req[id] ==> d in sorted
      decreases req.Keys - permanent - temporary, 2
    {
      var deps := req[id];
      for k := 0 to |deps|
        invariant Valid() && temporary == old(temporary)
        invariant old(permanent) <= permanent && old(errors).Keys <= errors.Keys
        invariant forall x :: x in old(sorted) ==> x in sorted
        invariant id in errors || forall j :: 0 <= j < k ==> deps[j] in sorted
      {
        VisitDependency(id, deps[k], path);
      }
    }

    // One required plugin of the plugin being visited.
    method VisitDependency(id: PluginId, dep: PluginId, path: seq<PluginId>)
      requires Valid() && id in temporary && dep in req[id] && path != [] && path[|path| - 1] == id
      requires forall x :: x in path <==> x in temporary
      requires Path(RequiresGraph(req), path)
      modifies this
      ensures Valid() && temporary == old(temporary)
      ensures old(permanent) <= permanent && old(errors).Keys <= errors.Keys
      ensures forall x :: x in old(sorted) ==> x in sorted
      ensures id in errors || dep in sorted
      decreases req.Keys - permanent - temporary, 1
    {
      if dep !in req {
        LeavesCandidates(req, id, dep);
        Mark(id, MissingPlugin(dep));
      } else {
        ExtendPath(req, path, dep);
        Visit(dep, path);
        if dep in errors {
          UnsoundPropagates(req, id, dep);
          Mark(id, InvalidDependency(dep));
        }
      }
    }

    // Visiting every candidate sorts exactly the sound ones, each after everything
    // it requires, and marks exactly the others as errors.
    method Sort(order: seq<PluginId>)
      requires Valid() && temporary == {} && permanent == {} && errors == map[]
      requires forall id :: id in order <==> id in req
      modifies this
      ensures Valid() && temporary == {} && permanent == req.Keys
      ensures Topological(req, sorted)
      ensures forall id :: id in sorted <==> id in req && Sound(req, id)
      ensures forall id :: id in errors <==> id in req && !Sound(req, id)
    {
      for k := 0 to |order|
        invariant Valid() && temporary == {}
        invariant forall j :: 0 <= j < k ==> order[j] in errors || order[j] in sorted
      {
        Visit(order[k], []);
      }
      forall id | id in req
        ensures id in permanent
        ensures id in sorted <==> Sound(req, id)
      {
        assert id in order;
        if id in sorted {
          TopologicalIsSound(req, sorted, id);
        }
      }
    }
  }

  lemma CycleOnPath(req: Requirements, path: seq<PluginId>, id: PluginId)
    requires Path(RequiresGraph(req), path + [id]) && id in path
    ensures !Sound(req, id)
  {
    var full := path + [id];
    var j: nat :| j < |path| && path[j] == id;
    PathSlice(RequiresGraph(req), full, j, |full|);
    var loop := full[j..|full|];
    assert loop[0] == id && loop[|loop| - 1] == id;
    UnsoundWitness(req, loop);
  }

  lemma LeavesCandidates(req: Requirements, id: PluginId, dep: PluginId)
    requires id in req && dep in req[id] && dep !in req
    ensures !Sound(req, id)
  {
    assert Path(RequiresGraph(req), [id, dep]);
    UnsoundWitness(req, [id, dep]);
  }

  lemma ExtendPath(req: Requirements, path: seq<PluginId>, dep: PluginId)
    requires Path(RequiresGraph(req), path) && path[|path| - 1] in req && dep in req[path[|path| - 1]]
    ensures Path(RequiresGraph(req), path + [dep])
  {
    var longer := path + [dep];
    forall k | 0 <= k < |longer| - 1
      ensures Edge(RequiresGraph(req), longer[k], longer[k + 1])
    {
      if k < |path| - 1 {
        assert Edge(RequiresGraph(req), path[k], path[k + 1]);
      }
    }
  }

  // ---- loadPlugins ----

  datatype Manifest = Manifest(id: PluginId, name: string, pluginApiVersion: string, required: seq<PluginId>)

  datatype Status = Enabled | Disabled | Incompatible | Erroneous

  datatype ItemReason = DuplicateId | VersionMismatch | NotRegistered | DependencyError(reason: Reason)

  datatype InventoryItem = InventoryItem(id: PluginId, status: Status, reason: Option<ItemReason>)

  // parseEnabledPlugins: no filter for a missing or blank value; otherwise the
  // trimmed, nonempty parts, each once. None stands for undefined.
  function ParseEnabledPlugins(csv: Option<string>): Option<seq<PluginId>> {
    if csv.None? || csv.value == "" || Text.Trim(csv.value) == "" then None
    else Some(DistinctParts(Text.Split(csv.value, ',')))
  }

  // A plugin takes part if and only if the list is missing or blank or has its id between
  // two commas, with white space around it or not.
  lemma RequestedIff(enabledCsv: Option<string>, id: PluginId)
    ensures Requested(ParseEnabledPlugins(enabledCsv), id) <==>
      || enabledCsv.None? || Text.Trim(enabledCsv.value) == ""
      || (id != "" && Names(Text.Split(enabledCsv.value, ','), id))
  {
    if enabledCsv == Some("") {
      assert Text.Trim("") == "";
    }
  }

  predicate Names(parts: seq<string>, id: PluginId) {
    exists part :: part in parts && Text.Trim(part) == id
  }

  // Exactly the nonempty ids the parts name, each once.
  function DistinctParts(parts: seq<string>): (ids: seq<PluginId>)
    ensures NoRepeats(ids) && forall id :: id in ids <==> id != "" && Names(parts, id)
  {
    if parts == [] then [] else
      var ids := DistinctParts(parts[..|parts| - 1]);
      assert parts == parts[..|parts| - 1] + [parts[|parts| - 1]];
      var part := Text.Trim(parts[|parts| - 1]);
      if part == "" || part in ids then ids else ids + [part]
  }

  predicate Requested(filter: Option<seq<PluginId>>, id: PluginId) {
    filter.None? || id in filter.value
  }

  predicate Registered(manifests: seq<Manifest>, id: PluginId) {
    exists k :: 0 <= k < |manifests| && manifests[k].id == id
  }

  // The manifests that take part in the dependency resolution: the first of its id,
  // requested, and written for the supported API version.
  predicate IsCandidate(manifests: seq<Manifest>, k: nat, filter: Option<seq<PluginId>>, supported: string)
    requires k < |manifests|
  {
    && !Registered(manifests[..k], manifests[k].id)
    && Requested(filter, manifests[k].id)
    && manifests[k].pluginApiVersion == supported
  }

  function Candidates(manifests: seq<Manifest>, filter: Option<seq<PluginId>>, supported: string): seq<Manifest> {
    if manifests == [] then [] else
      var before := Candidates(manifests[..|manifests| - 1], filter, supported);
      if IsCandidate(manifests, |manifests| - 1, filter, supported)
      then before + [manifests[|manifests| - 1]]
      else before
  }

  function RequirementsOf(candidates: seq<Manifest>): Requirements {
    if candidates == [] then map[] else
      var last := candidates[|candidates| - 1];
      RequirementsOf(candidates[..|candidates| - 1])[last.id := last.required]
  }

  function ManifestIds(manifests: seq<Manifest>): (ids: seq<PluginId>)
    ensures |ids| == |manifests|
    ensures forall k :: 0 <= k < |ids| ==> ids[k] == manifests[k].id
  {
    seq(|manifests|, k requires 0 <= k < |manifests| => manifests[k].id)
  }

  function ItemIds(items: seq<InventoryItem>): (ids: seq<PluginId>)
    ensures |ids| == |items|
    ensures forall k :: 0 <= k < |ids| ==> ids[k] == items[k].id
  {
    seq(|items|, k requires 0 <= k < |items| => items[k].id)
  }

  // Requested ids that no manifest has.
  function UnknownIds(filter: seq<PluginId>, manifests: seq<Manifest>): seq<PluginId> {
    if filter == [] then [] else
      var before := UnknownIds(filter[..|filter| - 1], manifests);
      if Registered(manifests, filter[|filter| - 1]) then before else before + [filter[|filter| - 1]]
  }

  function AllUnknown(filter: Option<seq<PluginId>>, manifests: seq<Manifest>): seq<PluginId> {
    if filter.None? then [] else UnknownIds(filter.value, manifests)
  }

  lemma {:induction false} CandidatesAreDistinct(manifests: seq<Manifest>, filter: Option<seq<PluginId>>,
                                                 supported: string)
    ensures NoRepeats(ManifestIds(Candidates(manifests, filter, supported)))
    ensures forall m :: m in Candidates(manifests, filter, supported) ==> m in manifests && Registered(manifests, m.id)
  {
    if manifests != [] {
      var prefix := manifests[..|manifests| - 1];
      CandidatesAreDistinct(prefix, filter, supported);
      var before := Candidates(prefix, filter, supported);
      forall m | m in before
        ensures Registered(manifests, m.id) && m in manifests
      {
        var k :| 0 <= k < |prefix| && prefix[k].id == m.id;
        assert manifests[k].id == m.id;
      }
      forall k | 0 <= k < |before|
        ensures Registered(prefix, ManifestIds(before)[k])
      {
        assert before[k] in before;
      }
      if IsCandidate(manifests, |prefix|, filter, supported) {
        assert manifests[|prefix|].id == manifests[|prefix|].id;
      }
    }
  }

  lemma {:induction false} RequirementsIff(candidates: seq<Manifest>, id: PluginId)
    requires NoRepeats(ManifestIds(candidates))
    ensures id in RequirementsOf(candidates) <==> exists k :: 0 <= k < |candidates| && candidates[k].id == id
    ensures forall k :: 0 <= k < |candidates| && candidates[k].id == id ==>
      RequirementsOf(candidates)[id] == candidates[k].required
  {
    if candidates != [] {
      var prefix := candidates[..|candidates| - 1];
      assert forall k :: 0 <= k < |prefix| ==> ManifestIds(prefix)[k] == ManifestIds(candidates)[k];
      RequirementsIff(prefix, id);
      assert ManifestIds(candidates)[|prefix|] == candidates[|prefix|].id;
      forall k | 0 <= k < |prefix| && candidates[k].id == id
        ensures id != candidates[|prefix|].id && prefix[k].id == id
      {
        assert ManifestIds(candidates)[k] != ManifestIds(candidates)[|prefix|];
      }
    }
  }

  lemma CandidatesSnoc(manifests: seq<Manifest>, m: Manifest, filter: Option<seq<PluginId>>, supported: string)
    ensures Candidates(manifests + [m], filter, supported) == Candidates(manifests, filter, supported)
      + if !Registered(manifests, m.id) && Requested(filter, m.id) && m.pluginApiVersion == supported then [m] else []
  {
    assert (manifests + [m])[..|manifests|] == manifests;
  }

  // Every manifest is on one of the two lists.
  ghost predicate Accounted(inventory: seq<InventoryItem>, candidates: seq<Manifest>, manifests: seq<Manifest>) {
    multiset(ItemIds(inventory)) + multiset(ManifestIds(candidates)) == multiset(ManifestIds(manifests))
  }

  lemma AccountedStep(inventory: seq<InventoryItem>, candidates: seq<Manifest>, manifests: seq<Manifest>, m: Manifest,
                      item: InventoryItem)
    requires Accounted(inventory, candidates, manifests) && item.id == m.id
    ensures Accounted(inventory + [item], candidates, manifests + [m])
    ensures Accounted(inventory, candidates + [m], manifests + [m])
  {
    assert ManifestIds(manifests + [m]) == ManifestIds(manifests) + [m.id];
    assert ManifestIds(candidates + [m]) == ManifestIds(candidates) + [m.id];
    assert ItemIds(inventory + [item]) == ItemIds(inventory) + [m.id];
  }

  // The inventory item of a manifest that does not become a candidate.
  function RefusedItem(m: Manifest, duplicate: bool, requested: bool): InventoryItem {
    InventoryItem(m.id,
      if duplicate then Erroneous else if !requested then Disabled else Incompatible,
      if duplicate then Some(DuplicateId) else if !requested then None else Some(VersionMismatch))
  }

  ghost predicate SeenIds(seen: set<PluginId>, manifests: seq<Manifest>) {
    forall id :: id in seen <==> Registered(manifests, id)
  }

  lemma SeenSnoc(seen: set<PluginId>, manifests: seq<Manifest>, m: Manifest)
    requires SeenIds(seen, manifests)
    ensures SeenIds(seen + {m.id}, manifests + [m])
    ensures m.id in seen <==> Registered(manifests, m.id)
  {
    forall id ensures Registered(manifests + [m], id) <==> Registered(manifests, id) || id == m.id {
      if j :| 0 <= j < |manifests| && manifests[j].id == id {
        assert (manifests + [m])[j].id == id;
      }
      assert (manifests + [m])[|manifests|] == m;
    }
  }

  // The first loop of loadPlugins: every manifest either gets its inventory item at
  // once or becomes a candidate.
  method SelectCandidates(manifests: seq<Manifest>, filter: Option<seq<PluginId>>, supported: string)
    returns (inventory: seq<InventoryItem>, candidates: seq<Manifest>)
    ensures candidates == Candidates(manifests, filter, supported)
    ensures Accounted(inventory, candidates, manifests)
    ensures forall item :: item in inventory ==> !item.status.Enabled?
  {
    inventory, candidates := [], [];
    var seen: set<PluginId> := {};
    ghost var read: seq<Manifest> := [];
    for k := 0 to |manifests|
      invariant read == manifests[..k]
      invariant candidates == Candidates(read, filter, supported)
      invariant SeenIds(seen, read)
      invariant Accounted(inventory, candidates, read)
      invariant forall item :: item in inventory ==> !item.status.Enabled?
    {
      var m := manifests[k];
      CandidatesSnoc(read, m, filter, supported);
      SeenSnoc(seen, read, m);
      var item := RefusedItem(m, m.id in seen, Requested(filter, m.id));
      AccountedStep(inventory, candidates, read, m, item);
      read := read + [m];
      if m.id in seen || !Requested(filter, m.id) || m.pluginApiVersion != supported {
        inventory := inventory + [item];
      } else {
        candidates := candidates + [m];
      }
      seen := seen + {m.id};
    }
    assert read == manifests;
  }

  // Items for requested ids that nobody registered.
  method ReportUnknown(filter: seq<PluginId>, manifests: seq<Manifest>) returns (items: seq<InventoryItem>)
    ensures ItemIds(items) == UnknownIds(filter, manifests)
    ensures forall item :: item in items ==> !item.status.Enabled?
  {
    items := [];
    for k := 0 to |filter|
      invariant ItemIds(items) == UnknownIds(filter[..k], manifests)
      invariant forall item :: item in items ==> !item.status.Enabled?
    {
      assert filter[..k + 1][..k] == filter[..k];
      if !Registered(manifests, filter[k]) {
        var item := InventoryItem(filter[k], Erroneous, Some(NotRegistered));
        assert ItemIds(items + [item]) == ItemIds(items) + [filter[k]];
        items := items + [item];
      }
    }
    assert filter[..|filter|] == filter;
  }

  // One item per candidate: enabled, or in error with the recorded reason.
  method ReportCandidates(candidates: seq<Manifest>, errors: map<PluginId, Reason>) returns (items: seq<InventoryItem>)
    ensures ItemIds(items) == ManifestIds(candidates)
    ensures forall k :: 0 <= k < |items| ==> (items[k].status.Enabled? <==> items[k].id !in errors)
  {
    items := [];
    for k := 0 to |candidates|
      invariant ItemIds(items) == ManifestIds(candidates[..k])
      invariant |items| == k
      invariant forall j :: 0 <= j < |items| ==> (items[j].status.Enabled? <==> items[j].id !in errors)
    {
      var id := candidates[k].id;
      var item := if id in errors then InventoryItem(id, Erroneous, Some(DependencyError(errors[id])))
                  else InventoryItem(id, Enabled, None);
      assert ItemIds(items + [item]) == ItemIds(items) + [id];
      assert ManifestIds(candidates[..k + 1]) == ManifestIds(candidates[..k]) + [id];
      items := items + [item];
    }
    assert candidates[..|candidates|] == candidates;
  }

  ghost predicate ListedEnabled(inventory: seq<InventoryItem>, id: PluginId) {
    exists item :: item in inventory && item.id == id && item.status.Enabled?
  }

  // loadPlugins, with the environment's list of enabled plugins. The enabled plugins are
  // exactly the sound candidates, each after what it requires; the inventory has one item
  // per manifest and one per unknown requested id; and an item says "enabled" exactly for
  // the enabled plugins.
  method LoadPlugins(manifests: seq<Manifest>, enabledCsv: Option<string>, supported: string)
    returns (inventory: seq<InventoryItem>, enabled: seq<PluginId>)
    ensures var filter := ParseEnabledPlugins(enabledCsv);
      var req := RequirementsOf(Candidates(manifests, filter, supported));
      && Topological(req, enabled)
      && (forall id :: id in enabled <==> id in req && Sound(req, id))
      && multiset(ItemIds(inventory)) == multiset(ManifestIds(manifests)) + multiset(AllUnknown(filter, manifests))
    ensures forall id :: ListedEnabled(inventory, id) <==> id in enabled
  {
    var filter := ParseEnabledPlugins(enabledCsv);
    inventory, enabled := LoadFiltered(manifests, filter, supported);
  }

  // The rest of it, once the list has been parsed.
  method LoadFiltered(manifests: seq<Manifest>, filter: Option<seq<PluginId>>, supported: string)
    returns (inventory: seq<InventoryItem>, enabled: seq<PluginId>)
    ensures var req := RequirementsOf(Candidates(manifests, filter, supported));
      && Topological(req, enabled)
      && (forall id :: id in enabled <==> id in req && Sound(req, id))
    ensures multiset(ItemIds(inventory)) == multiset(ManifestIds(manifests)) + multiset(AllUnknown(filter, manifests))
    ensures forall id :: ListedEnabled(inventory, id) <==> id in enabled
  {
    var early, candidates := SelectCandidates(manifests, filter, supported);
    CandidatesAreDistinct(manifests, filter, supported);
    var unknown := [];
    if filter.Some? {
      unknown := ReportUnknown(filter.value, manifests);
    }
    var errors;
    enabled, errors := Resolve(candidates);
    var late := ReportCandidates(candidates, errors);
    inventory := early + unknown + late;
    assert multiset(ItemIds(inventory))
      == multiset(ManifestIds(manifests)) + multiset(AllUnknown(filter, manifests)) by {
      InventoryIds(early, unknown, late);
    }
    CandidateIdsAreRequired(candidates);
    EnabledItems(early + unknown, late, ManifestIds(candidates), RequirementsOf(candidates), errors, enabled);
  }

  // Sort the candidates; the plugins in `sorted` are those without an error.
  method Resolve(candidates: seq<Manifest>) returns (sorted: seq<PluginId>, errors: map<PluginId, Reason>)
    requires NoRepeats(ManifestIds(candidates))
    ensures var req := RequirementsOf(candidates);
      && Topological(req, sorted)
      && (forall id :: id in sorted <==> id in req && Sound(req, id))
      && (forall id :: id in errors <==> id in req && id !in sorted)
  {
    CandidateIdsAreRequired(candidates);
    var sort := new TopologicalSort(RequirementsOf(candidates));
    sort.Sort(ManifestIds(candidates));
    return sort.sorted, sort.errors;
  }

  lemma CandidateIdsAreRequired(candidates: seq<Manifest>)
    requires NoRepeats(ManifestIds(candidates))
    ensures forall id :: id in ManifestIds(candidates) <==> id in RequirementsOf(candidates)
  {
    var order := ManifestIds(candidates);
    forall id
      ensures id in order <==> id in RequirementsOf(candidates)
    {
      RequirementsIff(candidates, id);
      if id in order {
        var k :| 0 <= k < |order| && order[k] == id;
        assert candidates[k].id == id;
      }
      if k :| 0 <= k < |candidates| && candidates[k].id == id {
        assert order[k] == id;
      }
    }
  }

  lemma InventoryIds(a: seq<InventoryItem>, b: seq<InventoryItem>, c: seq<InventoryItem>)
    ensures multiset(ItemIds(a + b + c)) == multiset(ItemIds(a)) + multiset(ItemIds(b)) + multiset(ItemIds(c))
  {
    assert ItemIds(a + b + c) == ItemIds(a) + ItemIds(b) + ItemIds(c);
  }

  lemma EnabledItems(early: seq<InventoryItem>, late: seq<InventoryItem>, order: seq<PluginId>, req: Requirements,
                     errors: map<PluginId, Reason>, enabled: seq<PluginId>)
    requires forall item :: item in early ==> !item.status.Enabled?
    requires ItemIds(late) == order && (forall id :: id in order <==> id in req)
    requires forall id :: id in enabled ==> id in req
    requires forall id :: id in errors <==> id in req && id !in enabled
    requires forall k :: 0 <= k < |late| ==> (late[k].status.Enabled? <==> late[k].id !in errors)
    ensures forall id :: ListedEnabled(early + late, id) <==> id in enabled
  {
    forall id | id in enabled
      ensures ListedEnabled(early + late, id)
    {
      assert id in order;
      var k :| 0 <= k < |order| && order[k] == id;
      assert late[k] in early + late && late[k].id == id;
    }
    forall item | item in early + late && item.status.Enabled?
      ensures item.id in enabled
    {
      var k :| 0 <= k < |late| && late[k] == item;
      assert order[k] == item.id && order[k] in order;
    }
  }

  // With distinct ids the order in which plugins are registered does not matter:
  // the same requirements are resolved, so the same plugins are enabled.
  lemma ManifestOrderIrrelevant(a: seq<Manifest>, b: seq<Manifest>, filter: Option<seq<PluginId>>, supported: string)
    requires NoRepeats(ManifestIds(a)) && NoRepeats(ManifestIds(b))
    requires forall m :: m in a <==> m in b
    ensures RequirementsOf(Candidates(a, filter, supported)) == RequirementsOf(Candidates(b, filter, supported))
  {
    var (ca, cb) := (Candidates(a, filter, supported), Candidates(b, filter, supported));
    CandidatesAreDistinct(a, filter, supported);
    CandidatesAreDistinct(b, filter, supported);
    forall m
      ensures m in ca <==> m in cb
    {
      DistinctCandidatesIff(a, filter, supported, m);
      DistinctCandidatesIff(b, filter, supported, m);
    }
    SameCandidates(ca, cb);
  }

  // With distinct ids the last manifest is the first of its id.
  lemma LastIsUnregistered(prefix: seq<Manifest>, last: Manifest)
    requires NoRepeats(ManifestIds(prefix + [last]))
    ensures NoRepeats(ManifestIds(prefix)) && !Registered(prefix, last.id)
  {
    var ids := ManifestIds(prefix + [last]);
    forall j, k | 0 <= j < k < |prefix| ensures ManifestIds(prefix)[j] != ManifestIds(prefix)[k] {
      assert ids[j] != ids[k];
    }
    forall k | 0 <= k < |prefix| ensures prefix[k].id != last.id {
      assert ids[k] != ids[|prefix|];
    }
  }

  lemma {:induction false} DistinctCandidatesIff(manifests: seq<Manifest>, filter: Option<seq<PluginId>>,
                                                 supported: string, m: Manifest)
    requires NoRepeats(ManifestIds(manifests))
    ensures m in Candidates(manifests, filter, supported)
       <==> m in manifests && Requested(filter, m.id) && m.pluginApiVersion == supported
  {
    if manifests != [] {
      var (prefix, last) := (manifests[..|manifests| - 1], manifests[|manifests| - 1]);
      assert manifests == prefix + [last];
      LastIsUnregistered(prefix, last);
      DistinctCandidatesIff(prefix, filter, supported, m);
      CandidatesSnoc(prefix, last, filter, supported);
    }
  }

  // When every manifest is requested and compatible they all are candidates.
  lemma AllAreCandidates(manifests: seq<Manifest>, filter: Option<seq<PluginId>>, supported: string)
    requires NoRepeats(ManifestIds(manifests))
    requires forall m :: m in manifests ==> Requested(filter, m.id) && m.pluginApiVersion == supported
    ensures RequirementsOf(Candidates(manifests, filter, supported)) == RequirementsOf(manifests)
  {
    var candidates := Candidates(manifests, filter, supported);
    CandidatesAreDistinct(manifests, filter, supported);
    forall m ensures m in candidates <==> m in manifests {
      DistinctCandidatesIff(manifests, filter, supported, m);
    }
    SameCandidates(candidates, manifests);
  }

  // A manifest that is not requested, or not compatible, keeps its id out of the resolution.
  lemma RefusedIsNotRequired(manifests: seq<Manifest>, filter: Option<seq<PluginId>>, supported: string, m: Manifest)
    requires NoRepeats(ManifestIds(manifests)) && m in manifests
    requires !Requested(filter, m.id) || m.pluginApiVersion != supported
    ensures m.id !in RequirementsOf(Candidates(manifests, filter, supported))
  {
    var candidates := Candidates(manifests, filter, supported);
    CandidatesAreDistinct(manifests, filter, supported);
    RequirementsIff(candidates, m.id);
    forall k | 0 <= k < |candidates| ensures candidates[k].id != m.id {
      DistinctCandidatesIff(manifests, filter, supported, candidates[k]);
      if candidates[k].id == m.id {
        OnlyOneOfItsId(manifests, candidates[k], m);
      }
    }
  }

  lemma OnlyOneOfItsId(manifests: seq<Manifest>, a: Manifest, b: Manifest)
    requires NoRepeats(ManifestIds(manifests)) && a in manifests && b in manifests && a.id == b.id
    ensures a == b
  {
    var j :| 0 <= j < |manifests| && manifests[j] == a;
    var k :| 0 <= k < |manifests| && manifests[k] == b;
    assert ManifestIds(manifests)[j] == ManifestIds(manifests)[k];
  }

  lemma SameCandidates(a: seq<Manifest>, b: seq<Manifest>)
    requires NoRepeats(ManifestIds(a)) && NoRepeats(ManifestIds(b))
    requires forall m :: m in a <==> m in b
    ensures RequirementsOf(a) == RequirementsOf(b)
  {
    var (ra, rb) := (RequirementsOf(a), RequirementsOf(b));
    forall id
      ensures id in ra <==> id in rb
      ensures id in ra ==> ra[id] == rb[id]
    {
      RequirementsIff(a, id);
      RequirementsIff(b, id);
      if k :| 0 <= k < |a| && a[k].id == id {
        assert a[k] in b;
      }
      if k :| 0 <= k < |b| && b[k].id == id {
        assert b[k] in a;
      }
    }
  }
}
