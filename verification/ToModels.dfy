/** Loading an index into the repositories (config/crd/ops/v1alpha1/sink_tomodels.go). Each
    repository call may fail; whatever happens, a stored record's parent is stored. */
module ToModels {
  import opened Text
  import opened Sorting
  import opened ResourceId
  import opened Documents
  import opened Validator
  import opened Sinks
  import NetworkPolicy

  datatype Workspace = Workspace(name: string)
  datatype Provider = Provider(name: string, workspaceID: string)
  datatype Protection = Protection(provisioning: string, installation: string)
  datatype Cluster = Cluster(name: string, providerID: string, protection: Option<Protection>)
  datatype Volume = Volume(name: string, size: int, volumeType: string)
  datatype App = App(name: string, clusterID: string, volumes: seq<Volume>, deployment: Option<DeploymentSpec>,
                     ingressRules: seq<NetworkPolicy.Rule>)
  datatype Box = Box(name: string, appID: string, box: BoxSpec, ingressRules: seq<NetworkPolicy.Rule>)

  datatype LoadError =
    | NoResourceID(kind: Kind)
    | CreateFailed(kind: Kind)
    | BadProtection(level: string)
    | BadVolumeSize(volume: string)
    | PoolAndPools
    | ZoneAndZones
    | SelectorsReserved
    | BadRule(why: NetworkPolicy.RuleError)

  /** Which record refers to which parent, at one moment. */
  datatype References = References(
    workspaces: set<string>,
    providers: map<string, string>,
    clusters: map<string, string>,
    apps: map<string, string>,
    boxes: map<string, string>)
  {
    predicate Closed() {
      && providers.Values <= workspaces
      && clusters.Values <= providers.Keys
      && apps.Values <= clusters.Keys
      && boxes.Values <= apps.Keys
    }
  }

  /** The five repositories, with the history of every state they were in. */
  class Repositories {
    var workspaces: map<string, Workspace>
    var providers: map<string, Provider>
    var clusters: map<string, Cluster>
    var apps: map<string, App>
    var boxes: map<string, Box>
    ghost var history: seq<References>

    ghost predicate Closed()
      reads this`workspaces, this`providers, this`clusters, this`apps, this`boxes
    {
      && (forall id :: id in providers ==> providers[id].workspaceID in workspaces)
      && (forall id :: id in clusters ==> clusters[id].providerID in providers)
      && (forall id :: id in apps ==> apps[id].clusterID in clusters)
      && (forall id :: id in boxes ==> boxes[id].appID in apps)
    }

    ghost function Now(): (r: References)
      reads this`workspaces, this`providers, this`clusters, this`apps, this`boxes
      ensures Closed() ==> r.Closed()
    {
      References(workspaces.Keys,
                 map id | id in providers :: providers[id].workspaceID,
                 map id | id in clusters :: clusters[id].providerID,
                 map id | id in apps :: apps[id].clusterID,
                 map id | id in boxes :: boxes[id].appID)
    }

    /** Closed now, and in every state since the repositories were opened. */
    ghost predicate Valid()
      reads this
    {
      Closed() && forall i :: 0 <= i < |history| ==> history[i].Closed()
    }

    constructor ()
      ensures Valid() && history == []
      ensures workspaces == map[] && providers == map[] && clusters == map[] && apps == map[] && boxes == map[]
    {
      workspaces, providers, clusters, apps, boxes := map[], map[], map[], map[], map[];
      history := [];
    }

    method CreateWorkspace(id: string, r: Workspace) returns (ok: bool)
      requires Valid()
      modifies this`workspaces, this`history
      ensures Valid()
      ensures workspaces == if ok then old(workspaces)[id := r] else old(workspaces)
      ensures history == if ok then old(history) + [Now()] else old(history)
    {
      if * {
        return false;
      }
      hide Now, References.Closed;
      workspaces := workspaces[id := r];
      history := history + [Now()];
      return true;
    }

    method CreateProvider(id: string, r: Provider) returns (ok: bool)
      requires Valid() && r.workspaceID in workspaces
      modifies this`providers, this`history
      ensures Valid()
      ensures providers == if ok then old(providers)[id := r] else old(providers)
      ensures history == if ok then old(history) + [Now()] else old(history)
    {
      if * {
        return false;
      }
      hide Now, References.Closed;
      providers := providers[id := r];
      history := history + [Now()];
      return true;
    }

    method CreateCluster(id: string, r: Cluster) returns (ok: bool)
      requires Valid() && r.providerID in providers
      modifies this`clusters, this`history
      ensures Valid()
      ensures clusters == if ok then old(clusters)[id := r] else old(clusters)
      ensures history == if ok then old(history) + [Now()] else old(history)
    {
      if * {
        return false;
      }
      hide Now, References.Closed;
      clusters := clusters[id := r];
      history := history + [Now()];
      return true;
    }

    method CreateApp(id: string, r: App) returns (ok: bool)
      requires Valid() && r.clusterID in clusters
      modifies this`apps, this`history
      ensures Valid()
      ensures apps == if ok then old(apps)[id := r] else old(apps)
      ensures history == if ok then old(history) + [Now()] else old(history)
    {
      if * {
        return false;
      }
      hide Now, References.Closed;
      apps := apps[id := r];
      history := history + [Now()];
      return true;
    }

    method CreateBox(id: string, r: Box) returns (ok: bool)
      requires Valid() && r.appID in apps
      modifies this`boxes, this`history
      ensures Valid()
      ensures boxes == if ok then old(boxes)[id := r] else old(boxes)
      ensures history == if ok then old(history) + [Now()] else old(history)
    {
      if * {
        return false;
      }
      hide Now, References.Closed;
      boxes := boxes[id := r];
      history := history + [Now()];
      return true;
    }
  }

  // ---------- checks made while an object is converted

  predicate ProtectionLevel(level: string) {
    level in {"none", "cannotDelete", "readOnly"}
  }

  function ConvertProtection(p: Option<ProtectionSpec>): Result<Option<Protection>, LoadError> {
    match p
    case None => Ok(None)
    case Some(s) =>
      var provisioning := if s.provisioning == "" then "none" else s.provisioning;
      var installation := if s.installation == "" then "none" else s.installation;
      if !ProtectionLevel(provisioning) then Err(BadProtection(s.provisioning))
      else if !ProtectionLevel(installation) then Err(BadProtection(s.installation))
      else Ok(Some(Protection(provisioning, installation)))
  }

  function DeploymentFault(d: Option<DeploymentSpec>): Option<LoadError> {
    match d
    case None => None
    case Some(s) =>
      if s.pool != "" && |s.pools| > 0 then Some(PoolAndPools)
      else if s.zone != "" && |s.zones| > 0 then Some(ZoneAndZones)
      else if |s.selectors| > 0 then Some(SelectorsReserved)
      else None
  }

  /** A protection level is kept, and an absent one means none. */
  predicate LevelKept(given: string, stored: string) {
    stored in {"none", "cannotDelete", "readOnly"} && (given == stored || (given == "" && stored == "none"))
  }

  /** The stored protection has both levels of the document's, each in its place. */
  predicate ProtectionKept(given: Option<ProtectionSpec>, stored: Option<Protection>) {
    match given
    case None => stored == None
    case Some(p) =>
      && stored.Some?
      && LevelKept(p.provisioning, stored.value.provisioning)
      && LevelKept(p.installation, stored.value.installation)
  }

  /** A protection is accepted exactly when it can be kept, and then kept. */
  lemma ProtectionExactly(p: Option<ProtectionSpec>)
    ensures ConvertProtection(p).Ok? <==> exists q :: ProtectionKept(p, q)
    ensures ConvertProtection(p).Ok? ==> ProtectionKept(p, ConvertProtection(p).value)
  {
    if ConvertProtection(p).Ok? {
      assert ProtectionKept(p, ConvertProtection(p).value);
    }
  }

  /** A placement names a pool or pools, a zone or zones, not both, and no selectors. */
  predicate PlacementOk(d: Option<DeploymentSpec>) {
    d.Some? ==>
      && (d.value.pool == "" || d.value.pools == []) && (d.value.zone == "" || d.value.zones == [])
      && d.value.selectors == map[]
  }

  lemma PlacementExactly(d: Option<DeploymentSpec>)
    ensures DeploymentFault(d).None? <==> PlacementOk(d)
  {
    if d.Some? {
      assert |d.value.selectors| == 0 <==> d.value.selectors == map[];
    }
  }

  method ConvertVolumes(specs: seq<VolumeSpec>) returns (r: Result<seq<Volume>, LoadError>)
    ensures r.Ok? <==> forall i :: 0 <= i < |specs| ==> specs[i].size.Some?
    ensures r.Ok? ==> VolumesKept(specs, r.value)
    ensures r.Err? ==> exists i :: 0 <= i < |specs| && FirstBadSize(specs, i) && r.error == BadVolumeSize(specs[i].name)
  {
    var out: seq<Volume> := [];
    for i := 0 to |specs|
      invariant |out| == i
      invariant forall k :: 0 <= k < i ==> specs[k].size.Some?
      invariant forall k :: 0 <= k < i ==>
                  out[k] == Volume(specs[k].name, specs[k].size.value,
                                   if specs[k].volumeType == "" then "disk" else specs[k].volumeType)
    {
      var v := specs[i];
      if v.size.None? {
        assert FirstBadSize(specs, i);
        return Err(BadVolumeSize(v.name));
      }
      out := out + [Volume(v.name, v.size.value, if v.volumeType == "" then "disk" else v.volumeType)];
    }
    return Ok(out);
  }

  method ConvertApp(id: FQN, meta: Meta, spec: AppSpec) returns (r: Result<App, LoadError>)
    ensures r.Ok? <==>
              && (forall i :: 0 <= i < |spec.volumes| ==> spec.volumes[i].size.Some?)
              && PlacementOk(spec.deployment)
              && NetworkPolicy.RulesOk(spec.ingressRules)
    ensures r.Ok? ==>
              && r.value.name == meta.name && r.value.clusterID == ParentFQN(id)
              && VolumesKept(spec.volumes, r.value.volumes) && r.value.deployment == spec.deployment
              && r.value.ingressRules == NetworkPolicy.DomainRules(spec.ingressRules)
  {
    var volumes := ConvertVolumes(spec.volumes);
    if volumes.Err? {
      return Err(volumes.error);
    }
    PlacementExactly(spec.deployment);
    var fault := DeploymentFault(spec.deployment);
    if fault.Some? {
      return Err(fault.value);
    }
    var rules := NetworkPolicy.ConvertRules(spec.ingressRules);
    if rules.Err? {
      return Err(BadRule(rules.error));
    }
    return Ok(App(meta.name, ParentFQN(id), volumes.value, spec.deployment, rules.value));
  }

  // ---------- an index whose IDs are the ones its objects carry

  ghost predicate ConsistentTable(table: map<FQN, Object>, kind: Kind, parents: set<FQN>) {
    forall f :: f in table ==>
      && Carries(table[f], kind, f)
      && (kind == WorkspaceKind || ParentFQN(f) in parents)
  }

  lemma MoreParents(table: map<FQN, Object>, kind: Kind, fewer: set<FQN>, more: set<FQN>)
    requires ConsistentTable(table, kind, fewer) && fewer <= more
    ensures ConsistentTable(table, kind, more)
  {
    hide Carries, ParentFQN;
  }

  /** Every indexed object carries its key as Resource ID, and the parent of every key is indexed
      one kind up. */
  ghost predicate Consistent(s: Sink) {
    && ConsistentTable(s.workspaces, WorkspaceKind, {})
    && ConsistentTable(s.providers, ProviderKind, s.workspaces.Keys)
    && ConsistentTable(s.clusters, ClusterKind, s.providers.Keys)
    && ConsistentTable(s.apps, AppKind, s.clusters.Keys)
    && ConsistentTable(s.boxes, BoxKind, s.apps.Keys)
  }

  /** In loaded documents a present parent has the kind one level up. */
  lemma ParentOneKindUp(d: Document, p: Document)
    requires Loaded(d) && Loaded(p) && d.kind != WorkspaceKind && p.fqn == ParentFQN(d.fqn)
    ensures KindOrder(d.kind) == KindOrder(p.kind) + 1
  {
    LoadedNames(d);
    LoadedNames(p);
    hide Loaded, NamesOf, ParentFQN, Render, IsNameList, KindOrder, KindPairs, LastName;
    var names := NamesOf(d.fqn);
    ParentOfRender(names);
    MoreThanOne(d);
    NameListFront(names);
    NamesOfRender(names[..|names| - 1]);
  }

  lemma MoreThanOne(d: Document)
    requires d.kind != WorkspaceKind && KindOrder(d.kind) == |NamesOf(d.fqn)| >= 1
    ensures |NamesOf(d.fqn)| > 1
  {
    hide NamesOf;
  }

  lemma NameListFront(names: seq<string>)
    requires IsNameList(names) && |names| > 1
    ensures IsNameList(names[..|names| - 1])
  {
    hide IsDNS1123Label;
  }

  /** A loaded document's kind is the depth of its ID. */
  lemma LoadedNames(d: Document)
    requires Loaded(d)
    ensures IsNameList(NamesOf(d.fqn)) && |NamesOf(d.fqn)| >= 1 && d.fqn == Render(NamesOf(d.fqn))
    ensures d.kind == KINDS[|NamesOf(d.fqn)| - 1] && KindOrder(d.kind) == |NamesOf(d.fqn)|
  {
    hide Parse, ParentChainFault, LastName, NamesOf, Render;
    AcceptedIsRendered(d.fqn, d.kind, d.obj.meta.name);
  }

  lemma IndexedConsistent(docs: seq<Document>, kind: Kind, parentKind: Kind)
    requires WellFormed(docs) && forall d :: d in docs ==> Loaded(d)
    requires kind == WorkspaceKind || KindOrder(kind) == KindOrder(parentKind) + 1
    ensures ConsistentTable(Indexed(docs, kind), kind, Indexed(docs, parentKind).Keys)
  {
    hide Indexed, Loaded, ParentFQN, Extract, WellFormed, KindOrder, Carries;
    var table := Indexed(docs, kind);
    forall f | f in table
      ensures Carries(table[f], kind, f) && (kind == WorkspaceKind || ParentFQN(f) in Indexed(docs, parentKind))
    {
      OneIndexed(docs, kind, parentKind, f);
    }
  }

  lemma OneIndexed(docs: seq<Document>, kind: Kind, parentKind: Kind, f: FQN)
    requires WellFormed(docs) && forall d :: d in docs ==> Loaded(d)
    requires kind == WorkspaceKind || KindOrder(kind) == KindOrder(parentKind) + 1
    requires f in Indexed(docs, kind)
    ensures Carries(Indexed(docs, kind)[f], kind, f)
    ensures kind == WorkspaceKind || ParentFQN(f) in Indexed(docs, parentKind)
  {
    hide Indexed, ParentFQN, Extract, PairsOk, BoxOk, DistinctIDs, KindOrder;
    IndexedHas(docs, kind, f);
    var d :| d in docs && OfKind(d, kind) && d.fqn == f && d.obj == Indexed(docs, kind)[f];
    if kind != WorkspaceKind {
      assert ParentIn(d, docs);
      var p :| p in docs && p.fqn == ParentFQN(f);
      ParentOneKindUp(d, p);
      LoadedNames(p);
      SameOrder(p.kind, parentKind);
      assert OfKind(p, parentKind);
      IndexedHas(docs, parentKind, p.fqn);
    }
  }

  lemma SameOrder(a: Kind, b: Kind)
    requires KindOrder(a) == KindOrder(b) != 999
    ensures a == b
  {
  }

  /** An index over loaded, validated documents is consistent. */
  lemma LoadedIsConsistent(s: Sink, docs: seq<Document>)
    requires WellFormed(docs) && s.Holds(docs)
    requires forall d :: d in docs ==> Loaded(d)
    ensures Consistent(s)
  {
    hide WellFormed, Loaded, Indexed;
    IndexedConsistent(docs, WorkspaceKind, WorkspaceKind);
    IndexedConsistent(docs, ProviderKind, WorkspaceKind);
    IndexedConsistent(docs, ClusterKind, ProviderKind);
    IndexedConsistent(docs, AppKind, ClusterKind);
    IndexedConsistent(docs, BoxKind, AppKind);
  }

  // ---------- the five phases

  /** The keys visited so far. */
  ghost function Visited(visit: seq<FQN>, i: nat): set<FQN>
    requires i <= |visit|
  {
    Elements(visit[..i])
  }

  lemma VisitOne(visit: seq<FQN>, i: nat)
    requires i < |visit|
    ensures visit[i] in Elements(visit)
    ensures Visited(visit, i + 1) == Visited(visit, i) + {visit[i]}
    ensures Visited(visit, 0) == {} && Visited(visit, |visit|) == Elements(visit)
  {
    assert visit[..i + 1] == visit[..i] + [visit[i]];
    assert visit[..|visit|] == visit;
  }

  lemma VisitAll(visit: seq<FQN>)
    ensures Visited(visit, 0) == {} && Visited(visit, |visit|) == Elements(visit)
  {
    assert visit[..|visit|] == visit;
  }

  /** The object found under a key has the key's kind and carries the key as its Resource ID. */
  ghost predicate Carries(obj: Object, kind: Kind, f: FQN) {
    ObjectKind(obj) == kind && Extract(kind, obj.meta) == Some(f)
  }

  /** Volume i is the first whose size does not parse. */
  predicate FirstBadSize(specs: seq<VolumeSpec>, i: nat)
    requires i < |specs|
  {
    specs[i].size.None? && forall j :: 0 <= j < i ==> specs[j].size.Some?
  }

  predicate VolumesKept(specs: seq<VolumeSpec>, volumes: seq<Volume>) {
    && |volumes| == |specs|
    && forall i :: 0 <= i < |specs| ==>
         && specs[i].size.Some?
         && volumes[i] ==
              Volume(specs[i].name, specs[i].size.value,
                     if specs[i].volumeType == "" then "disk" else specs[i].volumeType)
  }

  ghost predicate WorkspaceKept(obj: Object, w: Workspace) {
    w.name == obj.meta.name
  }

  ghost predicate ProviderKept(obj: Object, f: FQN, p: Provider) {
    p == Provider(obj.meta.name, ParentFQN(f))
  }

  ghost predicate ClusterKept(obj: Object, f: FQN, c: Cluster) {
    && obj.ClusterObject? && c.name == obj.meta.name && c.providerID == ParentFQN(f)
    && ProtectionKept(obj.cluster.protection, c.protection)
  }

  /** The stored app is the document's: its volumes with their sizes, its placement, and the checked
      copies of its rules. */
  ghost predicate AppKept(obj: Object, f: FQN, app: App) {
    && obj.AppObject? && app.name == obj.meta.name && app.clusterID == ParentFQN(f)
    && VolumesKept(obj.app.volumes, app.volumes)
    && app.deployment == obj.app.deployment && PlacementOk(app.deployment)
    && NetworkPolicy.RulesOk(obj.app.ingressRules)
    && app.ingressRules == NetworkPolicy.DomainRules(obj.app.ingressRules)
  }

  ghost predicate BoxKept(obj: Object, f: FQN, b: Box) {
    && obj.BoxObject? && b.name == obj.meta.name && b.appID == ParentFQN(f) && b.box == obj.box
    && NetworkPolicy.RulesOk(obj.box.ingressRules)
    && b.ingressRules == NetworkPolicy.DomainRules(obj.box.ingressRules)
  }

  /** Storing one workspace. */
  method StoreWorkspace(obj: Object, f: FQN, repos: Repositories) returns (err: Option<LoadError>)
    requires repos.Valid() && Carries(obj, WorkspaceKind, f)
    modifies repos`workspaces, repos`history
    ensures repos.Valid()
    ensures err.Some? ==> repos.workspaces == old(repos.workspaces)
    ensures err.None? ==>
              && f in repos.workspaces
              && repos.workspaces == old(repos.workspaces)[f := repos.workspaces[f]]
              && WorkspaceKept(obj, repos.workspaces[f])
  {
    var id := Extract(WorkspaceKind, obj.meta);
    if id.None? {
      return Some(NoResourceID(WorkspaceKind));
    }
    var ok := repos.CreateWorkspace(id.value, Workspace(obj.meta.name));
    return if ok then None else Some(CreateFailed(WorkspaceKind));
  }

  /** Under other IDs nothing was added, and what was stored is as before. */
  ghost predicate OthersKept<V>(before: map<FQN, V>, after: map<FQN, V>, touched: set<FQN>) {
    forall f :: f !in touched ==> (f in after <==> f in before) && (f in before ==> after[f] == before[f])
  }

  method LoadWorkspaces(table: map<FQN, Object>, repos: Repositories) returns (err: Option<LoadError>)
    requires repos.Valid() && ConsistentTable(table, WorkspaceKind, {})
    modifies repos`workspaces, repos`history
    ensures repos.Valid()
    ensures OthersKept(old(repos.workspaces), repos.workspaces, table.Keys)
    ensures err.None? ==> repos.workspaces.Keys == old(repos.workspaces.Keys) + table.Keys
    ensures err.None? ==>
              forall f :: f in table ==> f in repos.workspaces && WorkspaceKept(table[f], repos.workspaces[f])
  {
    hide Carries, ParentFQN, WorkspaceKept, Repositories.Valid;
    var visit := Enumerate(table);
    VisitAll(visit);
    for i := 0 to |visit|
      invariant repos.Valid()
      invariant OthersKept(old(repos.workspaces), repos.workspaces, table.Keys)
      invariant repos.workspaces.Keys == old(repos.workspaces.Keys) + Visited(visit, i)
      invariant forall f :: f in Visited(visit, i) ==>
                  f in repos.workspaces && f in table && WorkspaceKept(table[f], repos.workspaces[f])
    {
      VisitOne(visit, i);
      err := StoreWorkspace(table[visit[i]], visit[i], repos);
      if err.Some? {
        return;
      }
    }
    return None;
  }

  /** Storing one provider under its parent workspace. */
  method StoreProvider(obj: Object, f: FQN, repos: Repositories) returns (err: Option<LoadError>)
    requires repos.Valid() && Carries(obj, ProviderKind, f) && ParentFQN(f) in repos.workspaces
    modifies repos`providers, repos`history
    ensures repos.Valid()
    ensures err.Some? ==> repos.providers == old(repos.providers)
    ensures err.None? ==>
              && f in repos.providers
              && repos.providers == old(repos.providers)[f := repos.providers[f]]
              && ProviderKept(obj, f, repos.providers[f])
  {
    var id := Extract(ProviderKind, obj.meta);
    if id.None? {
      return Some(NoResourceID(ProviderKind));
    }
    var ok := repos.CreateProvider(id.value, Provider(obj.meta.name, ParentFQN(id.value)));
    return if ok then None else Some(CreateFailed(ProviderKind));
  }

  method LoadProviders(table: map<FQN, Object>, repos: Repositories) returns (err: Option<LoadError>)
    requires repos.Valid() && ConsistentTable(table, ProviderKind, repos.workspaces.Keys)
    modifies repos`providers, repos`history
    ensures repos.Valid()
    ensures OthersKept(old(repos.providers), repos.providers, table.Keys)
    ensures err.None? ==> repos.providers.Keys == old(repos.providers.Keys) + table.Keys
    ensures err.None? ==>
              forall f :: f in table ==> f in repos.providers && ProviderKept(table[f], f, repos.providers[f])
  {
    hide Carries, ParentFQN, ProviderKept, Repositories.Valid;
    var visit := Enumerate(table);
    VisitAll(visit);
    for i := 0 to |visit|
      invariant repos.Valid()
      invariant OthersKept(old(repos.providers), repos.providers, table.Keys)
      invariant repos.providers.Keys == old(repos.providers.Keys) + Visited(visit, i)
      invariant forall f :: f in Visited(visit, i) ==>
                  f in repos.providers && f in table && ProviderKept(table[f], f, repos.providers[f])
    {
      VisitOne(visit, i);
      err := StoreProvider(table[visit[i]], visit[i], repos);
      if err.Some? {
        return;
      }
    }
    return None;
  }

  /** Storing one cluster; an unknown protection level is an error. */
  method StoreCluster(obj: Object, f: FQN, repos: Repositories) returns (err: Option<LoadError>)
    requires repos.Valid() && Carries(obj, ClusterKind, f) && ParentFQN(f) in repos.providers
    modifies repos`clusters, repos`history
    ensures repos.Valid()
    ensures err.Some? ==> repos.clusters == old(repos.clusters)
    ensures err.None? ==>
              && f in repos.clusters
              && repos.clusters == old(repos.clusters)[f := repos.clusters[f]]
              && ClusterKept(obj, f, repos.clusters[f])
  {
    var id := Extract(ClusterKind, obj.meta);
    if id.None? {
      return Some(NoResourceID(ClusterKind));
    }
    var protection := ConvertProtection(obj.cluster.protection);
    if protection.Err? {
      return Some(protection.error);
    }
    var ok := repos.CreateCluster(id.value, Cluster(obj.meta.name, ParentFQN(id.value), protection.value));
    return if ok then None else Some(CreateFailed(ClusterKind));
  }

  method LoadClusters(table: map<FQN, Object>, repos: Repositories) returns (err: Option<LoadError>)
    requires repos.Valid() && ConsistentTable(table, ClusterKind, repos.providers.Keys)
    modifies repos`clusters, repos`history
    ensures repos.Valid()
    ensures OthersKept(old(repos.clusters), repos.clusters, table.Keys)
    ensures err.None? ==> repos.clusters.Keys == old(repos.clusters.Keys) + table.Keys
    ensures err.None? ==> forall f :: f in table ==> f in repos.clusters && ClusterKept(table[f], f, repos.clusters[f])
  {
    hide Carries, ParentFQN, ClusterKept, Repositories.Valid;
    var visit := Enumerate(table);
    VisitAll(visit);
    for i := 0 to |visit|
      invariant repos.Valid()
      invariant OthersKept(old(repos.clusters), repos.clusters, table.Keys)
      invariant repos.clusters.Keys == old(repos.clusters.Keys) + Visited(visit, i)
      invariant forall f :: f in Visited(visit, i) ==>
                  f in repos.clusters && f in table && ClusterKept(table[f], f, repos.clusters[f])
    {
      VisitOne(visit, i);
      err := StoreCluster(table[visit[i]], visit[i], repos);
      if err.Some? {
        return;
      }
    }
    return None;
  }

  /** Storing one app; faulty sizes, placement or rules are errors. */
  method StoreApp(obj: Object, f: FQN, repos: Repositories) returns (err: Option<LoadError>)
    requires repos.Valid() && Carries(obj, AppKind, f) && ParentFQN(f) in repos.clusters
    modifies repos`apps, repos`history
    ensures repos.Valid()
    ensures err.Some? ==> repos.apps == old(repos.apps)
    ensures err.None? ==>
              f in repos.apps && repos.apps == old(repos.apps)[f := repos.apps[f]] && AppKept(obj, f, repos.apps[f])
  {
    var id := Extract(AppKind, obj.meta);
    if id.None? {
      return Some(NoResourceID(AppKind));
    }
    var app := ConvertApp(id.value, obj.meta, obj.app);
    if app.Err? {
      return Some(app.error);
    }
    var ok := repos.CreateApp(id.value, app.value);
    return if ok then None else Some(CreateFailed(AppKind));
  }

  method LoadApps(table: map<FQN, Object>, repos: Repositories) returns (err: Option<LoadError>)
    requires repos.Valid() && ConsistentTable(table, AppKind, repos.clusters.Keys)
    modifies repos`apps, repos`history
    ensures repos.Valid()
    ensures OthersKept(old(repos.apps), repos.apps, table.Keys)
    ensures err.None? ==> repos.apps.Keys == old(repos.apps.Keys) + table.Keys
    ensures err.None? ==> forall f :: f in table ==> f in repos.apps && AppKept(table[f], f, repos.apps[f])
  {
    hide Carries, ParentFQN, AppKept, Repositories.Valid;
    var visit := Enumerate(table);
    VisitAll(visit);
    for i := 0 to |visit|
      invariant repos.Valid()
      invariant OthersKept(old(repos.apps), repos.apps, table.Keys)
      invariant repos.apps.Keys == old(repos.apps.Keys) + Visited(visit, i)
      invariant forall f :: f in Visited(visit, i) ==>
                  f in repos.apps && f in table && AppKept(table[f], f, repos.apps[f])
    {
      VisitOne(visit, i);
      err := StoreApp(table[visit[i]], visit[i], repos);
      if err.Some? {
        return;
      }
    }
    return None;
  }

  method ConvertBox(id: FQN, meta: Meta, spec: BoxSpec) returns (r: Result<Box, LoadError>)
    ensures r.Ok? <==> NetworkPolicy.RulesOk(spec.ingressRules)
    ensures r.Ok? ==> r.value == Box(meta.name, ParentFQN(id), spec, NetworkPolicy.DomainRules(spec.ingressRules))
  {
    var rules := NetworkPolicy.ConvertRules(spec.ingressRules);
    if rules.Err? {
      return Err(BadRule(rules.error));
    }
    return Ok(Box(meta.name, ParentFQN(id), spec, rules.value));
  }

  /** Storing one box; a faulty rule is an error. */
  method StoreBox(obj: Object, f: FQN, repos: Repositories) returns (err: Option<LoadError>)
    requires repos.Valid() && Carries(obj, BoxKind, f) && ParentFQN(f) in repos.apps
    modifies repos`boxes, repos`history
    ensures repos.Valid()
    ensures err.Some? ==> repos.boxes == old(repos.boxes)
    ensures err.None? ==>
              && f in repos.boxes
              && repos.boxes == old(repos.boxes)[f := repos.boxes[f]]
              && BoxKept(obj, f, repos.boxes[f])
  {
    var id := Extract(BoxKind, obj.meta);
    if id.None? {
      return Some(NoResourceID(BoxKind));
    }
    var box := ConvertBox(id.value, obj.meta, obj.box);
    if box.Err? {
      return Some(box.error);
    }
    var ok := repos.CreateBox(id.value, box.value);
    return if ok then None else Some(CreateFailed(BoxKind));
  }

  method LoadBoxes(table: map<FQN, Object>, repos: Repositories) returns (err: Option<LoadError>)
    requires repos.Valid() && ConsistentTable(table, BoxKind, repos.apps.Keys)
    modifies repos`boxes, repos`history
    ensures repos.Valid()
    ensures OthersKept(old(repos.boxes), repos.boxes, table.Keys)
    ensures err.None? ==> repos.boxes.Keys == old(repos.boxes.Keys) + table.Keys
    ensures err.None? ==> forall f :: f in table ==> f in repos.boxes && BoxKept(table[f], f, repos.boxes[f])
  {
    hide Carries, ParentFQN, BoxKept, Repositories.Valid;
    var visit := Enumerate(table);
    VisitAll(visit);
    for i := 0 to |visit|
      invariant repos.Valid()
      invariant OthersKept(old(repos.boxes), repos.boxes, table.Keys)
      invariant repos.boxes.Keys == old(repos.boxes.Keys) + Visited(visit, i)
      invariant forall f :: f in Visited(visit, i) ==>
                  f in repos.boxes && f in table && BoxKept(table[f], f, repos.boxes[f])
    {
      VisitOne(visit, i);
      err := StoreBox(table[visit[i]], visit[i], repos);
      if err.Some? {
        return;
      }
    }
    return None;
  }

  /** ToModels: whichever way it ends, every state the repositories went through was closed under
      parent references, and what was stored under other IDs is as before; when it succeeds, every
      document is stored. */
  method LoadModels(s: Sink, repos: Repositories) returns (err: Option<LoadError>)
    requires Consistent(s) && repos.Valid()
    modifies repos
    ensures repos.Valid()
    ensures OthersKept(old(repos.workspaces), repos.workspaces, s.workspaces.Keys)
    ensures OthersKept(old(repos.providers), repos.providers, s.providers.Keys)
    ensures OthersKept(old(repos.clusters), repos.clusters, s.clusters.Keys)
    ensures OthersKept(old(repos.apps), repos.apps, s.apps.Keys)
    ensures OthersKept(old(repos.boxes), repos.boxes, s.boxes.Keys)
    ensures err.None? ==>
              && repos.workspaces.Keys == old(repos.workspaces.Keys) + s.workspaces.Keys
              && repos.providers.Keys == old(repos.providers.Keys) + s.providers.Keys
              && repos.clusters.Keys == old(repos.clusters.Keys) + s.clusters.Keys
              && repos.apps.Keys == old(repos.apps.Keys) + s.apps.Keys
              && repos.boxes.Keys == old(repos.boxes.Keys) + s.boxes.Keys
              && (forall f :: f in s.workspaces ==> WorkspaceKept(s.workspaces[f], repos.workspaces[f]))
              && (forall f :: f in s.providers ==> ProviderKept(s.providers[f], f, repos.providers[f]))
              && (forall f :: f in s.clusters ==> ClusterKept(s.clusters[f], f, repos.clusters[f]))
              && (forall f :: f in s.apps ==> AppKept(s.apps[f], f, repos.apps[f]))
              && (forall f :: f in s.boxes ==> BoxKept(s.boxes[f], f, repos.boxes[f]))
  {
    hide Carries, ParentFQN, WorkspaceKept, ProviderKept, ClusterKept, AppKept, BoxKept, ConsistentTable;
    hide Repositories.Valid;
    err := LoadWorkspaces(s.workspaces, repos);
    if err.Some? { return; }
    MoreParents(s.providers, ProviderKind, s.workspaces.Keys, repos.workspaces.Keys);
    err := LoadProviders(s.providers, repos);
    if err.Some? { return; }
    MoreParents(s.clusters, ClusterKind, s.providers.Keys, repos.providers.Keys);
    err := LoadClusters(s.clusters, repos);
    if err.Some? { return; }
    MoreParents(s.apps, AppKind, s.clusters.Keys, repos.clusters.Keys);
    err := LoadApps(s.apps, repos);
    if err.Some? { return; }
    MoreParents(s.boxes, BoxKind, s.apps.Keys, repos.apps.Keys);
    err := LoadBoxes(s.boxes, repos);
  }

  lemma KnownWhenLoaded(docs: seq<Document>)
    requires forall d :: d in docs ==> Loaded(d)
    ensures KnownKinds(docs)
  {
  }

  /** Loaded documents are indexed exactly when they are well-formed, and an index of them loads
      into repositories that stay closed at every step. */
  method LoadDocuments(docs: seq<Document>, repos: Repositories) returns (indexed: bool, err: Option<LoadError>)
    requires repos.Valid()
    requires forall d :: d in docs ==> Loaded(d)
    modifies repos
    ensures repos.Valid()
    ensures indexed <==> WellFormed(docs)
    ensures !indexed ==> repos.history == old(repos.history)
    ensures indexed && err.None? ==> forall d :: d in docs && d.kind == AppKind ==> d.fqn in repos.apps
  {
    KnownWhenLoaded(docs);
    err := None;
    var sink := NewSink(docs);
    indexed := sink.Some?;
    if sink.Some? {
      LoadedIsConsistent(sink.value, docs);
      err := LoadModels(sink.value, repos);
      forall d | d in docs && d.kind == AppKind ensures d.fqn in sink.value.apps {
        IndexedHas(docs, AppKind, d.fqn);
      }
    }
  }
}
