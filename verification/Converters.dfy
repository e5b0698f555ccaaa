/** The converter object: Convert fills it from a Compose project, BindVolumes adds storage, Build
    assembles the Deployment (adapters/kube/converter.go). */
module Converters {
  import opened Text
  import opened Sorting
  import opened Compose
  import opened Naming
  import opened Routing
  import opened Mounts
  import opened Plans
  import NetworkPolicy

  datatype ClusterIngress = ClusterIngress(namespace: string, domain: string)

  const DEFAULT_INGRESS_NAMESPACE := "traefik"

  // ---------- storage

  datatype Disk = Disk(handle: string, size: int)
  datatype VolumeClass = VolumeClass(csiDriver: string)

  /** A binding as the caller made it; only its resource name is written by the converter. */
  class VolumeBinding {
    const name: string
    const disk: Option<Disk>
    const volumeClass: Option<VolumeClass>
    var resourceName: string

    constructor (name: string, disk: Option<Disk>, volumeClass: Option<VolumeClass>, resourceName: string)
      ensures && this.name == name
              && this.disk == disk
              && this.volumeClass == volumeClass
              && this.resourceName == resourceName
    {
      this.name := name;
      this.disk := disk;
      this.volumeClass := volumeClass;
      this.resourceName := resourceName;
    }
  }

  datatype PersistentVolume = PersistentVolume(name: string, driver: string, handle: string, size: int)
  datatype Claim = Claim(name: string, namespace: string, volumeName: string, size: int)

  datatype BindError =
    | NotConverted
    | NilBinding(index: nat)
    | EmptyName(index: nat)
    | NotAnAppVolume(name: string)
    | NoDisk(name: string)
    | NoHandle(name: string)
    | NoClass(name: string)
    | NoDriver(name: string)

  /** What BindVolumes requires of one binding. */
  predicate BindingAccepted(app: App, vb: VolumeBinding?) {
    && vb != null && TrimSpace(vb.name) != "" && HasVolume(app, vb.name)
    && vb.disk.Some? && TrimSpace(vb.disk.value.handle) != ""
    && vb.volumeClass.Some? && TrimSpace(vb.volumeClass.value.csiDriver) != ""
  }

  /** The size of the last volume of that name, which is the one the index of volumes keeps. */
  function VolumeSize(app: App, name: string): int {
    SizeAmong(app.volumes, name)
  }

  function SizeAmong(volumes: seq<AppVolume>, name: string): int {
    if volumes == [] then 0
    else if volumes[|volumes| - 1].name == name then volumes[|volumes| - 1].size
    else SizeAmong(volumes[..|volumes| - 1], name)
  }

  // ---------- the pod

  datatype PodVolume =
    | ClaimVolume(name: string, claim: string)
    | ProjectedFile(name: string, kind: FileKind, objectName: string, key: string, mode: Option<int>)

  datatype Deployment = Deployment(name: string, containers: seq<Container>, init: Option<InitContainer>,
                                   volumes: seq<PodVolume>)

  datatype BuildError =
    | NotYetConverted
    | BindingCount(bindings: nat, volumes: nat)
    | MissingBinding(index: nat)
    | BindingMismatch(index: nat)
    | NoClaimName(name: string)

  /** The parts of the plan that Convert stores when it has succeeded. */
  datatype Plan = Plan(
    containers: seq<Container>,
    init: Option<InitContainer>,
    envSecrets: seq<EnvSecret>,
    configMaps: seq<DataObject>,
    configSecrets: seq<DataObject>,
    exposure: Exposure,
    headless: seq<string>,
    policy: seq<NetworkPolicy.PolicyRule>)

  /** The volumes projecting one kind of file, one for each mounted file. */
  ghost predicate FileVolumes(volumes: seq<PodVolume>, kind: FileKind, table: FileTable, done: set<string>) {
    && |volumes| == |done|
    && forall v :: v in volumes <==> exists s :: s in done && s in table && v == FileVolume(kind, s, table[s])
  }

  function FileVolume(kind: FileKind, source: string, f: FileMount): PodVolume {
    ProjectedFile(FileVolumeName(kind, source), kind, f.objectName, f.key,
                  match f.mode case None => None case Some(m) => Some(Int32(m)))
  }

  lemma OneMoreFileVolume(volumes: seq<PodVolume>, kind: FileKind, table: FileTable, done: set<string>, s: string)
    requires FileVolumes(volumes, kind, table, done) && s in table && s !in done
    ensures FileVolumes(volumes + [FileVolume(kind, s, table[s])], kind, table, done + {s})
  {
    hide FileVolume;
    var volume := FileVolume(kind, s, table[s]);
    forall v
      ensures v in volumes + [volume] <==>
              exists k :: k in done + {s} && k in table && v == FileVolume(kind, k, table[k])
    {
      assert v in volumes + [volume] <==> v in volumes || v == volume;
    }
  }

  method BuildFileVolumes(kind: FileKind, table: FileTable) returns (volumes: seq<PodVolume>)
    ensures FileVolumes(volumes, kind, table, table.Keys)
  {
    hide FileVolume;
    volumes := [];
    var visit := Enumerate(table);
    assert Elements(visit[..0]) == {};
    assert FileVolumes([], kind, table, {});
    for i := 0 to |visit|
      invariant FileVolumes(volumes, kind, table, Elements(visit[..i]))
    {
      hide FileVolumes;
      var s := visit[i];
      assert s in Elements(visit);
      VisitOneMore(visit, i);
      OneMoreFileVolume(volumes, kind, table, Elements(visit[..i]), s);
      volumes := volumes + [FileVolume(kind, s, table[s])];
    }
    assert visit[..|visit|] == visit;
  }

  // ---------- the converter

  class Converter {
    const app: App
    const source: Project
    const component: string
    const ingress: Option<ClusterIngress>
    const digest: Digest
    const hashes: Hashes

    var project: Option<Project>
    var plan: Option<Plan>
    var configMounts: FileTable
    var secretMounts: FileTable
    var bindings: seq<VolumeBinding?>
    var pvs: seq<PersistentVolume>
    var pvcs: seq<Claim>
    var deployment: Option<Deployment>

    ghost var portMaps: PortMaps
    ghost var recorded: SubPaths
    ghost var visit: seq<string>

    constructor (app: App, source: Project, component: string, ingress: Option<ClusterIngress>, digest: Digest,
                 hashes: Hashes)
      ensures this.app == app && this.source == source && this.component == component
      ensures this.ingress == ingress && this.digest == digest && this.hashes == hashes
      ensures Valid() && project == None && plan == None && configMounts == map[] && secretMounts == map[]
      ensures bindings == [] && deployment == None
    {
      this.app, this.source, this.component := app, source, component;
      this.ingress, this.digest, this.hashes := ingress, digest, hashes;
      project, plan := None, None;
      configMounts, secretMounts := map[], map[];
      bindings, pvs, pvcs, deployment := [], [], [], None;
      portMaps, recorded, visit := PortMaps(map[], map[]), map[], [];
    }

    function Domain(): string {
      match ingress
      case None => ""
      case Some(i) => TrimSpace(i.domain)
    }

    function IngressNamespace(): string {
      match ingress
      case None => TrimSpace(DEFAULT_INGRESS_NAMESPACE)
      case Some(i) => TrimSpace(if i.namespace != "" then i.namespace else DEFAULT_INGRESS_NAMESPACE)
    }

    /** The cluster's ingress domain and namespace without the spaces around them: no domain without an
        ingress, and the namespace traefik where none is given. */
    lemma IngressExactly(d: string, n: string)
      ensures Domain() == d <==>
              if ingress.None? then d == ""
              else Trimmed(d) && exists a, b :: Spaces(a) && Spaces(b) && ingress.value.domain == a + d + b
      ensures IngressNamespace() == n <==>
              if ingress.None? || ingress.value.namespace == "" then n == "traefik"
              else Trimmed(n) && exists a, b :: Spaces(a) && Spaces(b) && ingress.value.namespace == a + n + b
    {
      TrimmedAlready("traefik");
      hide TrimSpace;
      if ingress.Some? {
        TrimsExactly(ingress.value.domain, d);
        TrimsExactly(ingress.value.namespace, n);
      }
    }

    /** Exactly what Convert requires; nothing in it depends on the order of a map. */
    ghost predicate Acceptable(files: Files) {
      && EnvsAccepted(app, files, source.services)
      && DefsAccepted(ConfigFile, files, source.configs) && DefsAccepted(SecretFile, files, source.secrets)
      && ServicesAccepted(app, files, source)
      && (app.ingress != [] ==>
            forall m :: Reflects(m, AllPublished(source.services)) ==> RulesAccepted(app.ingress, m.hostPort, Domain()))
      && (forall n :: n in source.services ==> !Reserved(app, n))
    }

    /** The file tables, which attempts to convert fill and never empty, hold only files that the
        project's services mount. */
    ghost predicate Valid()
      reads this`configMounts, this`secretMounts
    {
      && TableOk(configMounts, ConfigFile, app.name, component, source)
      && TableOk(secretMounts, SecretFile, app.name, component, source)
    }

    /** The generated policy: a rule for the default namespaces, then the app's rules. */
    ghost predicate PolicyPlanned(policy: seq<NetworkPolicy.PolicyRule>) {
      && |policy| >= 1 && policy[1..] == NetworkPolicy.PolicyRules(app.policy) && policy[0].from != []
      && forall labels: NetworkPolicy.Labels, protocol, port ::
           NetworkPolicy.RuleAdmits(policy[0], labels, protocol, port) <==>
           NetworkPolicy.NAME_LABEL in labels
           && labels[NetworkPolicy.NAME_LABEL] in NetworkPolicy.DefaultNamespaces(hashes.namespace, IngressNamespace())
    }

    /** What a successful Convert leaves behind, and binding and building keep. */
    ghost predicate Planned(files: Files)
      reads this`project, this`plan, this`configMounts, this`secretMounts, this`portMaps, this`recorded, this`visit
    {
      && project == Some(source) && plan.Some?
      && ServicesPlanned(app, component, files, source,
           ServicesPlan(plan.value.containers, portMaps, MountState(recorded, configMounts, secretMounts)), visit)
      && InitFor(recorded, plan.value.init)
      && EnvSecretsOf(plan.value.envSecrets, app, component, files, source.services, source.services.Keys)
      && ObjectsOf(plan.value.configMaps, ConfigFile, app.name, component, files, source.configs, source.configs.Keys)
      && ObjectsOf(plan.value.configSecrets, SecretFile, app.name, component, files, source.secrets,
                   source.secrets.Keys)
      && DefsAccepted(ConfigFile, files, source.configs) && DefsAccepted(SecretFile, files, source.secrets)
      && ServicesAccepted(app, files, source)
      && Exposed(app, hashes.appID, Domain(), portMaps.hostPort, plan.value.exposure)
      && NoDup(plan.value.headless) && Elements(plan.value.headless) == source.services.Keys
      && PolicyPlanned(plan.value.policy)
    }

    /** Convert succeeds exactly on acceptable projects, however often it was tried before. */
    method Convert(files: Files) returns (err: Option<ConvertError>)
      requires Valid()
      modifies this`project, this`plan, this`configMounts, this`secretMounts, this`portMaps, this`recorded, this`visit
      ensures Valid()
      ensures err.None? <==> Acceptable(files)
      ensures err.None? ==> Planned(files)
      ensures err.Some? ==> project == old(project) && plan == old(plan)
    {
      hide EnvsAccepted, EnvSecretsOf, ServicesAccepted, DefsAccepted, ObjectsOf, InitFor, RulesAccepted, Exposed;
      hide Reserved, PolicyPlanned, NoDup, Reflects, AllPublished, TableOk, SubPathsFor, ContainersFor;
      var envSecrets := BuildEnvSecrets(app, component, files, source.services);
      if envSecrets.Err? {
        return Some(envSecrets.error);
      }
      var configMaps := BuildObjects(ConfigFile, app.name, component, files, source.configs);
      if configMaps.Err? {
        return Some(MountFault(configMaps.error));
      }
      var configSecrets := BuildObjects(SecretFile, app.name, component, files, source.secrets);
      if configSecrets.Err? {
        return Some(MountFault(configSecrets.error));
      }
      var services, configTable, secretTable, order :=
        ConvertServices(app, component, files, source, configMounts, secretMounts);
      configMounts, secretMounts := configTable, secretTable;
      if services.Err? {
        return Some(services.error);
      }
      var ports := services.value.ports;
      var init := BuildInit(services.value.mounts.subPaths);
      var policy := NetworkPolicy.BuildPolicy(hashes.namespace, IngressNamespace(), app.policy);
      PolicyIsPlanned(policy);
      OnlyPortMap(ports);
      var exposure := Expose(app, hashes.appID, Domain(), ports.hostPort);
      if exposure.Err? {
        return Some(RouteFault(exposure.error));
      }
      var headless := BuildHeadless(app, source.services);
      if headless.Err? {
        return Some(headless.error);
      }
      project := Some(source);
      portMaps, recorded, visit := ports, services.value.mounts.subPaths, order;
      plan := Some(Plan(services.value.containers, init, envSecrets.value, configMaps.value, configSecrets.value,
                        exposure.value, headless.value, policy));
      return None;
    }

    lemma PolicyIsPlanned(policy: seq<NetworkPolicy.PolicyRule>)
      requires |policy| >= 1 && policy[1..] == NetworkPolicy.PolicyRules(app.policy) && policy[0].from != []
      requires forall labels: NetworkPolicy.Labels, protocol, port ::
                 NetworkPolicy.RuleAdmits(policy[0], labels, protocol, port) <==>
                 NetworkPolicy.NAME_LABEL in labels
                 && labels[NetworkPolicy.NAME_LABEL]
                    in NetworkPolicy.DefaultNamespaces(hashes.namespace, IngressNamespace())
      ensures PolicyPlanned(policy)
    {
    }

    lemma OnlyPortMap(m: PortMaps)
      requires Reflects(m, AllPublished(source.services))
      ensures (forall m' ::
                 Reflects(m', AllPublished(source.services)) ==> RulesAccepted(app.ingress, m'.hostPort, Domain())) <==>
              RulesAccepted(app.ingress, m.hostPort, Domain())
    {
      hide Reflects, RulesAccepted, AllPublished;
      forall m' | Reflects(m', AllPublished(source.services)) ensures m' == m {
        MapsUnique(m, m', AllPublished(source.services));
      }
    }

    // ---------- binding

    /** The name a binding ends up with: its own, trimmed, or the default one. */
    function ChosenName(vb: VolumeBinding, given: string): string
      requires vb.disk.Some?
    {
      var own := TrimSpace(given);
      if own != "" then own else VolumeResourceName(digest, hashes, vb.name, TrimSpace(vb.disk.value.handle))
    }

    /** A name that is given counts without the spaces around it; a blank one leaves the default name. */
    lemma ChosenExactly(vb: VolumeBinding, a: string, name: string, b: string)
      requires vb.disk.Some? && Spaces(a) && Spaces(b) && Trimmed(name)
      ensures ChosenName(vb, a + name + b) ==
              if name != "" then name
              else VolumeResourceName(digest, hashes, vb.name, TrimSpace(vb.disk.value.handle))
    {
      TrimsSpaces(a, name, b);
    }

    lemma ChosenStays(vb: VolumeBinding, given: string)
      requires vb.disk.Some? && Base36(digest)
      ensures var n := ChosenName(vb, given); n != "" && TrimSpace(n) == n && ChosenName(vb, n) == n
    {
      hide VolumeResourceName;
      TrimSpaceIdempotent(given);
      VolumeResourceNameTrimmed(digest, hashes, vb.name, TrimSpace(vb.disk.value.handle));
    }

    /** The objects BindVolumes makes for a binding under its final name. */
    function VolumeFor(vb: VolumeBinding, name: string): PersistentVolume
      requires BindingAccepted(app, vb)
    {
      PersistentVolume(name, TrimSpace(vb.volumeClass.value.csiDriver), TrimSpace(vb.disk.value.handle), BoundSize(vb))
    }

    function ClaimFor(vb: VolumeBinding, name: string): Claim
      requires BindingAccepted(app, vb)
    {
      Claim(name, hashes.namespace, name, BoundSize(vb))
    }

    function BoundSize(vb: VolumeBinding): int
      requires vb.disk.Some?
    {
      if vb.disk.value.size <= 0 then VolumeSize(app, vb.name) else vb.disk.value.size
    }

    /** Every stored binding has its PV and PVC under its resource name, which needs no trimming. */
    ghost predicate Bound()
      reads this`bindings, this`pvs, this`pvcs, set vb: VolumeBinding | vb in bindings
    {
      && |pvs| == |pvcs| == |bindings|
      && forall i :: 0 <= i < |bindings| ==>
           && BindingAccepted(app, bindings[i])
           && pvs[i] == VolumeFor(bindings[i], bindings[i].resourceName)
           && pvcs[i] == ClaimFor(bindings[i], bindings[i].resourceName)
           && bindings[i].resourceName != "" && TrimSpace(bindings[i].resourceName) == bindings[i].resourceName
    }

    /** BindVolumes succeeds exactly when every binding is acceptable; the bindings are then stored
        with their chosen names, even when one object occurs more than once. */
    method BindVolumes(vols: seq<VolumeBinding?>) returns (err: Option<BindError>)
      requires Base36(digest)
      modifies this`bindings, this`pvs, this`pvcs, (set vb: VolumeBinding | vb in vols)`resourceName
      ensures err.None? <==> project.Some? && forall i :: 0 <= i < |vols| ==> BindingAccepted(app, vols[i])
      ensures err.None? ==> bindings == vols && Bound()
      ensures err.None? ==>
                forall i :: 0 <= i < |vols| ==> vols[i].resourceName == ChosenName(vols[i], old(vols[i].resourceName))
      ensures err.Some? ==> bindings == old(bindings) && pvs == old(pvs) && pvcs == old(pvcs)
    {
      hide TrimSpace, HasVolume, Base36, BoundSize, ChosenName, VolumeFor, ClaimFor;
      if project.None? {
        return Some(NotConverted);
      }
      var named := CheckNames(vols);
      if named.Some? {
        return named;
      }
      var newPvs: seq<PersistentVolume> := [];
      var newPvcs: seq<Claim> := [];
      for i := 0 to |vols|
        invariant |newPvs| == |newPvcs| == i
        invariant forall j :: 0 <= j < i ==> BindingAccepted(app, vols[j])
        invariant forall vb: VolumeBinding :: vb in vols ==>
                    vb.resourceName == old(vb.resourceName) || Renamed(vb, old(vb.resourceName))
        invariant forall j :: 0 <= j < i ==> Renamed(vols[j], old(vols[j].resourceName))
        invariant forall j :: 0 <= j < i ==>
                    && newPvs[j] == VolumeFor(vols[j], vols[j].resourceName)
                    && newPvcs[j] == ClaimFor(vols[j], vols[j].resourceName)
        invariant bindings == old(bindings) && pvs == old(pvs) && pvcs == old(pvcs)
      {
        var made := BindOne(vols[i], old(vols[i].resourceName));
        if made.Err? {
          return Some(made.error);
        }
        newPvs := newPvs + [made.value.0];
        newPvcs := newPvcs + [made.value.1];
      }
      forall i | 0 <= i < |vols|
        ensures vols[i].resourceName != "" && TrimSpace(vols[i].resourceName) == vols[i].resourceName
      {
        ChosenStays(vols[i], old(vols[i].resourceName));
      }
      bindings, pvs, pvcs := vols, newPvs, newPvcs;
      return None;
    }

    /** The binding has the name chosen for it. */
    ghost predicate Renamed(vb: VolumeBinding, given: string)
      reads vb`resourceName
    {
      vb.disk.Some? && vb.resourceName == ChosenName(vb, given)
    }

    /** The first loop of BindVolumes: every binding is there and names an app volume. */
    method CheckNames(vols: seq<VolumeBinding?>) returns (err: Option<BindError>)
      ensures err.None? <==> forall j :: 0 <= j < |vols| ==> NameAccepted(vols[j])
    {
      hide TrimSpace, HasVolume;
      for i := 0 to |vols|
        invariant forall j :: 0 <= j < i ==> NameAccepted(vols[j])
      {
        if vols[i] == null {
          return Some(NilBinding(i));
        }
        if TrimSpace(vols[i].name) == "" {
          return Some(EmptyName(i));
        }
        if !HasVolume(app, vols[i].name) {
          return Some(NotAnAppVolume(vols[i].name));
        }
      }
      return None;
    }

    predicate NameAccepted(vb: VolumeBinding?) {
      vb != null && TrimSpace(vb.name) != "" && HasVolume(app, vb.name)
    }

    /** One round of its second loop: the objects for a binding under its chosen name, which is chosen
        again when the binding was already renamed. */
    method BindOne(vb: VolumeBinding, ghost given: string) returns (r: Result<(PersistentVolume, Claim), BindError>)
      requires Base36(digest) && NameAccepted(vb) && (vb.resourceName == given || Renamed(vb, given))
      modifies vb`resourceName
      ensures r.Ok? <==> BindingAccepted(app, vb)
      ensures r.Ok? ==>
                && Renamed(vb, given)
                && r.value == (VolumeFor(vb, vb.resourceName), ClaimFor(vb, vb.resourceName))
      ensures r.Err? ==> vb.resourceName == old(vb.resourceName)
    {
      hide TrimSpace, HasVolume, Base36, BoundSize, ChosenName;
      if vb.disk.None? {
        return Err(NoDisk(vb.name));
      }
      var handle := TrimSpace(vb.disk.value.handle);
      if handle == "" {
        return Err(NoHandle(vb.name));
      }
      ChosenStays(vb, given);
      var name := ChosenName(vb, vb.resourceName);
      if vb.volumeClass.None? {
        return Err(NoClass(vb.name));
      }
      var driver := TrimSpace(vb.volumeClass.value.csiDriver);
      if driver == "" {
        return Err(NoDriver(vb.name));
      }
      vb.resourceName := name;
      return Ok((PersistentVolume(name, driver, handle, BoundSize(vb)),
                 Claim(name, hashes.namespace, name, BoundSize(vb))));
    }

    // ---------- building

    /** The pod's volumes: a claim per app volume, then the mounted configs, then the mounted secrets. */
    ghost predicate PodVolumesFor(volumes: seq<PodVolume>)
      reads this`bindings, this`configMounts, this`secretMounts, set vb: VolumeBinding | vb in bindings
    {
      && |bindings| == |app.volumes| <= |volumes|
      && (forall i :: 0 <= i < |app.volumes| ==>
            bindings[i] != null && volumes[i] == ClaimVolume(app.volumes[i].name, TrimSpace(bindings[i].resourceName)))
      && exists cut :: |app.volumes| <= cut <= |volumes|
           && FileVolumes(volumes[|app.volumes|..cut], ConfigFile, configMounts, configMounts.Keys)
           && FileVolumes(volumes[cut..], SecretFile, secretMounts, secretMounts.Keys)
    }

    /** What Build requires of the stored bindings: one per app volume, in order, with a name. */
    ghost predicate Aligned()
      reads this`bindings, set vb: VolumeBinding | vb in bindings
    {
      && |bindings| == |app.volumes|
      && forall i :: 0 <= i < |bindings| ==>
           && bindings[i] != null && TrimSpace(bindings[i].name) == app.volumes[i].name
           && TrimSpace(bindings[i].resourceName) != ""
    }

    /** Build succeeds exactly when the bindings are aligned with the app's volumes. */
    method Build() returns (err: Option<BuildError>)
      modifies this`deployment
      ensures err.None? <==> project.Some? && plan.Some? && Aligned()
      ensures err.None? ==>
                && deployment.Some? && deployment.value.containers == plan.value.containers
                && deployment.value.init == plan.value.init
                && deployment.value.name == app.name + "-" + component
                && PodVolumesFor(deployment.value.volumes)
      ensures err.Some? ==> deployment == old(deployment)
    {
      hide TrimSpace, FileVolumes;
      if project.None? || plan.None? {
        return Some(NotYetConverted);
      }
      if |bindings| != |app.volumes| {
        return Some(BindingCount(|bindings|, |app.volumes|));
      }
      for i := 0 to |app.volumes|
        invariant deployment == old(deployment)
        invariant forall j :: 0 <= j < i ==> bindings[j] != null && TrimSpace(bindings[j].name) == app.volumes[j].name
      {
        if bindings[i] == null {
          return Some(MissingBinding(i));
        }
        if TrimSpace(bindings[i].name) != app.volumes[i].name {
          return Some(BindingMismatch(i));
        }
      }
      var claims: seq<PodVolume> := [];
      for i := 0 to |app.volumes|
        invariant |claims| == i && deployment == old(deployment)
        invariant forall j :: 0 <= j < i ==> TrimSpace(bindings[j].resourceName) != ""
        invariant forall j :: 0 <= j < i ==>
                    claims[j] == ClaimVolume(app.volumes[j].name, TrimSpace(bindings[j].resourceName))
      {
        var claim := TrimSpace(bindings[i].resourceName);
        if claim == "" {
          return Some(NoClaimName(app.volumes[i].name));
        }
        claims := claims + [ClaimVolume(app.volumes[i].name, claim)];
      }
      var configs := BuildFileVolumes(ConfigFile, configMounts);
      var secrets := BuildFileVolumes(SecretFile, secretMounts);
      var volumes := claims + configs + secrets;
      ghost var cut := |claims| + |configs|;
      assert volumes[|claims|..cut] == configs && volumes[cut..] == secrets;
      deployment := Some(Deployment(app.name + "-" + component, plan.value.containers, plan.value.init, volumes));
      return None;
    }
  }
}
