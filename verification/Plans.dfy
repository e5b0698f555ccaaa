/** The parts of Convert's result, each built from the project and the app alone
    (adapters/kube/converter.go). */
module Plans {
  import opened Text
  import opened Sorting
  import opened Compose
  import opened Routing
  import opened Mounts
  import EnvFile

  datatype Container = Container(name: string, ports: seq<int>, mounts: seq<Mount>)

  /** The container that creates sub-path directories: one command line and one mount per volume. */
  datatype InitContainer = InitContainer(lines: seq<string>, mounts: seq<Mount>)

  datatype ConvertError =
    | EnvFault(env: EnvFile.EnvError)
    | MountFault(mount: MountError)
    | RouteFault(route: RouteError)
    | ReservedName(service: string)

  // ---------- env Secrets

  /** The Secret a service's env files are merged into. */
  datatype EnvSecret = EnvSecret(name: string, data: EnvFile.Env)

  function EnvBaseName(app: string, component: string, service: string): string {
    app + "-" + component + "-" + service + "-base"
  }

  function EnvOverrideName(app: string, component: string, service: string): string {
    app + "-" + component + "-" + service + "-override"
  }

  /** The Secrets two containers refer to are never the same, and never one's base and one's override. */
  lemma EnvNamesSeparate(app: string, component: string, s: string, t: string)
    ensures EnvBaseName(app, component, s) == EnvBaseName(app, component, t) <==> s == t
    ensures EnvBaseName(app, component, s) != EnvOverrideName(app, component, t)
  {
    var front := app + "-" + component + "-";
    var a, b, o := EnvBaseName(app, component, s), EnvBaseName(app, component, t), EnvOverrideName(app, component, t);
    assert a == front + s + "-base" && b == front + t + "-base" && o == front + t + "-override";
    assert a[|front|..|a| - 5] == s && b[|front|..|b| - 5] == t;
    assert a[|a| - 1] == 'e' && a[|a| - 2] == 's' && o[|o| - 2] == 'd';
  }

  ghost predicate EnvsAccepted(app: App, files: Files, services: map<string, Service>) {
    forall n :: n in services && services[n].envFiles != [] ==>
      EnvFile.Accepted(files.env, services[n].envFiles, app.refBase)
  }

  ghost function EnvSecretFor(app: App, component: string, files: Files, n: string, s: Service): EnvSecret
    requires EnvFile.ReadAll(files.env, s.envFiles).Ok?
  {
    EnvSecret(EnvBaseName(app.name, component, n), EnvFile.MergeAll(EnvFile.ReadAll(files.env, s.envFiles).value))
  }

  /** One Secret for every service of done that has env files, holding their right-biased merge. */
  ghost predicate EnvSecretsOf(secrets: seq<EnvSecret>, app: App, component: string, files: Files,
                               services: map<string, Service>, done: set<string>)
  {
    && NoDup(secrets)
    && forall e :: e in secrets <==> exists n :: n in done && MakesEnvSecret(app, component, files, services, n, e)
  }

  ghost predicate MakesEnvSecret(app: App, component: string, files: Files, services: map<string, Service>, n: string,
                                 e: EnvSecret)
  {
    && n in services && services[n].envFiles != [] && EnvFile.ReadAll(files.env, services[n].envFiles).Ok?
    && e == EnvSecretFor(app, component, files, n, services[n])
  }

  lemma OneMoreEnvSecret(secrets: seq<EnvSecret>, app: App, component: string, files: Files,
                         services: map<string, Service>, done: set<string>, n: string)
    requires EnvSecretsOf(secrets, app, component, files, services, done) && n in services && n !in done
    ensures services[n].envFiles == [] ==> EnvSecretsOf(secrets, app, component, files, services, done + {n})
    ensures services[n].envFiles != [] && EnvFile.ReadAll(files.env, services[n].envFiles).Ok? ==>
              EnvSecretsOf(secrets + [EnvSecretFor(app, component, files, n, services[n])], app, component, files,
                           services, done + {n})
  {
    hide EnvFile.ReadAll, EnvFile.MergeAll, EnvBaseName;
    if services[n].envFiles != [] && EnvFile.ReadAll(files.env, services[n].envFiles).Ok? {
      var made := EnvSecretFor(app, component, files, n, services[n]);
      forall m | m in done && m in services ensures !MakesEnvSecret(app, component, files, services, m, made) {
        EnvNamesSeparate(app.name, component, m, n);
      }
      assert made !in secrets;
      assert NoDup(secrets + [made]);
      hide EnvSecretFor;
      forall e
        ensures e in secrets + [made] <==>
                exists m :: m in done + {n} && MakesEnvSecret(app, component, files, services, m, e)
      {
        assert e in secrets + [made] <==> e in secrets || e == made;
        assert MakesEnvSecret(app, component, files, services, n, e) <==> e == made;
      }
    } else {
      forall e
        ensures e in secrets <==> exists m :: m in done + {n} && MakesEnvSecret(app, component, files, services, m, e)
      {
        assert !MakesEnvSecret(app, component, files, services, n, e);
      }
    }
  }

  /** The first loop of Convert: the env files of every service that has some. */
  method BuildEnvSecrets(app: App, component: string, files: Files, services: map<string, Service>)
    returns (r: Result<seq<EnvSecret>, ConvertError>)
    ensures r.Ok? <==> EnvsAccepted(app, files, services)
    ensures r.Ok? ==> EnvSecretsOf(r.value, app, component, files, services, services.Keys)
  {
    hide EnvFile.ReadAll, EnvFile.MergeAll, EnvFile.LastChanges, EnvFile.SecretDataOk, EnvBaseName;
    var visit := Enumerate(services);
    var secrets: seq<EnvSecret> := [];
    assert Elements(visit[..0]) == {} && EnvSecretsOf([], app, component, files, services, {});
    for i := 0 to |visit|
      invariant forall j :: 0 <= j < i ==>
                  && visit[j] in services
                  && (services[visit[j]].envFiles != [] ==>
                        EnvFile.Accepted(files.env, services[visit[j]].envFiles, app.refBase))
      invariant EnvSecretsOf(secrets, app, component, files, services, Elements(visit[..i]))
    {
      hide EnvSecretsOf;
      var n := visit[i];
      assert n in Elements(visit);
      VisitOneMore(visit, i);
      OneMoreEnvSecret(secrets, app, component, files, services, Elements(visit[..i]), n);
      if |services[n].envFiles| == 0 {
        continue;
      }
      var merged := EnvFile.MergeEnvFiles(files.env, services[n].envFiles, app.refBase);
      if merged.Err? {
        return Err(EnvFault(merged.error));
      }
      secrets := secrets + [EnvSecret(EnvBaseName(app.name, component, n), merged.value.0)];
    }
    assert visit[..|visit|] == visit;
    forall n | n in services ensures exists j :: 0 <= j < |visit| && visit[j] == n {
      assert n in Elements(visit);
    }
    return Ok(secrets);
  }

  // ---------- containers

  /** A container carries exactly the ports and the mounts its service asks for, and later steps can
      serve all of them. */
  ghost predicate ContainerFor(app: App, files: Files, project: Project, st: MountState, s: Service, c: Container) {
    && c.ports == Listed(s.ports)
    && VolumesAccepted(app, files, s.volumes) && c.mounts == MountsFor(app, files, project, s)
    && ContainerOk(app, st, c.mounts)
  }

  /** One container per visited service, in the order of the visits. */
  ghost predicate ContainersFor(app: App, files: Files, project: Project, st: MountState, containers: seq<Container>,
                                visit: seq<string>)
  {
    && |containers| == |visit|
    && forall i :: 0 <= i < |visit| ==>
         && visit[i] in project.services && containers[i].name == visit[i]
         && ContainerFor(app, files, project, st, project.services[visit[i]], containers[i])
  }

  lemma ContainerLater(app: App, files: Files, project: Project, st: MountState, st': MountState, s: Service,
                       c: Container)
    requires Extends(st, st') && ContainerFor(app, files, project, st, s, c)
    ensures ContainerFor(app, files, project, st', s, c)
  {
    hide Resolved, Extends, Listed, MountsFor, VolumesAccepted;
    forall i | 0 <= i < |c.mounts| ensures Resolved(app, st', c.mounts[i]) {
      ResolvedLater(app, st, st', c.mounts[i]);
    }
    assert ContainerOk(app, st', c.mounts);
  }

  lemma ContainersLater(app: App, files: Files, project: Project, st: MountState, st': MountState,
                        containers: seq<Container>, visit: seq<string>)
    requires Extends(st, st') && ContainersFor(app, files, project, st, containers, visit)
    ensures ContainersFor(app, files, project, st', containers, visit)
  {
    hide ContainerFor, Extends;
    forall i | 0 <= i < |visit|
      ensures ContainerFor(app, files, project, st', project.services[visit[i]], containers[i])
    {
      ContainerLater(app, files, project, st, st', project.services[visit[i]], containers[i]);
    }
  }

  /** The recorded sub-paths are those that some visited service uses. */
  ghost predicate SubPathsFor(app: App, files: Files, project: Project, m: SubPaths, done: set<string>) {
    forall vol, sub :: Records(m, vol, sub) <==>
      exists n :: n in done && n in project.services && UsesSubPath(app, files, project.services[n].volumes, vol, sub)
  }

  lemma SubPathsMore(app: App, files: Files, project: Project, before: SubPaths, after: SubPaths, done: set<string>,
                     n: string)
    requires SubPathsFor(app, files, project, before, done) && n in project.services
    requires RecordsMore(app, files, project.services[n].volumes, before, after)
    ensures SubPathsFor(app, files, project, after, done + {n})
  {
    hide UsesSubPath, Records;
  }

  /** What the loop over the services requires of all of them together. */
  ghost predicate ServicesAccepted(app: App, files: Files, project: Project) {
    && PortsAccepted(project.services)
    && forall n :: n in project.services ==> MountsAccepted(app, files, project, project.services[n])
  }

  datatype ServicesPlan = ServicesPlan(containers: seq<Container>, ports: PortMaps, mounts: MountState)

  ghost predicate ServicesPlanned(app: App, component: string, files: Files, project: Project, plan: ServicesPlan,
                                  visit: seq<string>)
  {
    && NoDup(visit) && Elements(visit) == project.services.Keys
    && Reflects(plan.ports, AllPublished(project.services))
    && StateOk(app, component, project, plan.mounts)
    && SubPathsFor(app, files, project, plan.mounts.subPaths, project.services.Keys)
    && ContainersFor(app, files, project, plan.mounts, plan.containers, visit)
  }

  /** The loop over the services, in whatever order the map yields them. Whether it succeeds, and
      the port maps it fills, do not depend on that order. The file tables of earlier attempts are
      kept, and those of a failed one. */
  method ConvertServices(app: App, component: string, files: Files, project: Project, configs: FileTable,
                         secrets: FileTable)
    returns (r: Result<ServicesPlan, ConvertError>, configTable: FileTable, secretTable: FileTable,
             ghost visit: seq<string>)
    requires && TableOk(configs, ConfigFile, app.name, component, project)
             && TableOk(secrets, SecretFile, app.name, component, project)
    ensures && TableOk(configTable, ConfigFile, app.name, component, project)
            && TableOk(secretTable, SecretFile, app.name, component, project)
    ensures r.Ok? <==> ServicesAccepted(app, files, project)
    ensures r.Ok? ==>
              && ServicesPlanned(app, component, files, project, r.value, visit)
              && r.value.mounts.configs == configTable && r.value.mounts.secrets == secretTable
  {
    hide Reflects, MountsAccepted, ContainersFor, PortsValid, PublishedIn, AllPublished, PortsAccepted, Extends;
    hide PublishedBy, TableOk, SubPathsFor, RecordsMore, Listed, MountsFor, ContainerOk, SubPathsOk;
    var order := Enumerate(project.services);
    visit := order;
    var maps := PortMaps(map[], map[]);
    var st := MountState(map[], configs, secrets);
    var containers: seq<Container> := [];
    NothingVisited(app, component, files, project, configs, secrets);
    for i := 0 to |order|
      invariant Reflects(maps, PublishedIn(project.services, Elements(order[..i])))
      invariant forall n :: n in Elements(order[..i]) ==>
                  && n in project.services && PortsValid(project.services[n].ports)
                  && MountsAccepted(app, files, project, project.services[n])
      invariant && StateOk(app, component, project, st)
                && SubPathsFor(app, files, project, st.subPaths, Elements(order[..i]))
      invariant ContainersFor(app, files, project, st, containers, order[..i])
    {
      hide StateOk;
      var name := order[i];
      assert name in Elements(order);
      var s := project.services[name];
      ghost var done := Elements(order[..i]);
      assert order[..i + 1] == order[..i] + [name] && Elements(order[..i + 1]) == done + {name};
      PublishedOneMore(project.services, done, name);
      TablesOk(app, component, project, st);
      var scanned := ScanPorts(name, s.ports, maps, PublishedIn(project.services, done));
      if scanned.Err? {
        PortsRejected(project.services, done, name);
        return Err(RouteFault(scanned.error)), st.configs, st.secrets, visit;
      }
      var mounted, next := MountService(app, component, files, project, name, st);
      TablesOk(app, component, project, next);
      if mounted.Err? {
        return Err(MountFault(mounted.error)), next.configs, next.secrets, visit;
      }
      maps := scanned.value.0;
      ContainersLater(app, files, project, st, next, containers, order[..i]);
      SubPathsMore(app, files, project, st.subPaths, next.subPaths, done, name);
      st := next;
      OneMoreContainer(app, files, project, st, containers, order[..i],
                       Container(name, scanned.value.1, mounted.value));
      containers := containers + [Container(name, scanned.value.1, mounted.value)];
    }
    assert order[..|order|] == order;
    AllVisited(project.services, maps);
    return Ok(ServicesPlan(containers, maps, st)), st.configs, st.secrets, visit;
  }

  lemma TablesOk(app: App, component: string, project: Project, st: MountState)
    requires StateOk(app, component, project, st)
    ensures && TableOk(st.configs, ConfigFile, app.name, component, project)
            && TableOk(st.secrets, SecretFile, app.name, component, project)
  {
  }

  lemma NothingVisited(app: App, component: string, files: Files, project: Project, configs: FileTable,
                       secrets: FileTable)
    requires && TableOk(configs, ConfigFile, app.name, component, project)
             && TableOk(secrets, SecretFile, app.name, component, project)
    ensures Reflects(PortMaps(map[], map[]), PublishedIn(project.services, Elements([])))
    ensures StateOk(app, component, project, MountState(map[], configs, secrets))
    ensures SubPathsFor(app, files, project, map[], Elements([]))
    ensures ContainersFor(app, files, project, MountState(map[], configs, secrets), [], [])
  {
    hide HostPort, TableOk, UsesSubPath;
    assert PublishedIn(project.services, Elements([])) == {};
  }

  lemma OneMoreContainer(app: App, files: Files, project: Project, st: MountState, containers: seq<Container>,
                         visit: seq<string>, c: Container)
    requires ContainersFor(app, files, project, st, containers, visit)
    requires c.name in project.services && MountsAccepted(app, files, project, project.services[c.name])
    requires c.ports == Listed(project.services[c.name].ports)
    requires c.mounts == MountsFor(app, files, project, project.services[c.name]) && ContainerOk(app, st, c.mounts)
    ensures ContainersFor(app, files, project, st, containers + [c], visit + [c.name])
  {
    hide ContainerOk, Listed, MountsFor, VolumesAccepted, NoDup, RefOk, ContainerFor;
    assert ContainerFor(app, files, project, st, project.services[c.name], c) by {
      OneContainer(app, files, project, st, project.services[c.name], c);
    }
  }

  lemma OneContainer(app: App, files: Files, project: Project, st: MountState, s: Service, c: Container)
    requires MountsAccepted(app, files, project, s) && c.ports == Listed(s.ports)
    requires c.mounts == MountsFor(app, files, project, s) && ContainerOk(app, st, c.mounts)
    ensures ContainerFor(app, files, project, st, s, c)
  {
    hide ContainerOk, Listed, MountsFor, VolumesAccepted, NoDup, RefOk;
  }

  lemma PortsRejected(services: map<string, Service>, done: set<string>, name: string)
    requires name in services
    requires !PortsValid(services[name].ports) || !Unambiguous(PublishedIn(services, done + {name}))
    ensures !PortsAccepted(services)
  {
    hide PortsValid, Unambiguous, PublishedIn;
    if !Unambiguous(PublishedIn(services, done + {name})) {
      PublishedOneMore(services, done + {name}, name);
      MoreIsWorse(PublishedIn(services, done + {name}), AllPublished(services));
    }
  }

  lemma AllVisited(services: map<string, Service>, maps: PortMaps)
    requires Reflects(maps, PublishedIn(services, services.Keys))
    requires forall n :: n in services ==> PortsValid(services[n].ports)
    ensures PortsAccepted(services) && Reflects(maps, AllPublished(services))
  {
    ReflectsUnambiguous(maps, PublishedIn(services, services.Keys));
    hide PortsValid, Unambiguous, PublishedIn, Reflects;
  }

  // ---------- the init container

  function MkdirLine(vol: string, sub: string): string {
    "mkdir -m 1777 -p /work/" + vol + "/" + sub
  }

  ghost predicate LinesFor(m: SubPaths, done: set<string>, lines: seq<string>) {
    forall line ::
      line in lines <==> exists vol, sub :: vol in done && Records(m, vol, sub) && line == MkdirLine(vol, sub)
  }

  ghost predicate WorkMountsFor(done: set<string>, mounts: seq<Mount>) {
    forall mt :: mt in mounts <==> exists vol :: vol in done && mt == Mount(vol, "/work/" + vol, "", false)
  }

  /** A line for every recorded sub-path and no other, a mount for every volume that has one. */
  ghost predicate InitFor(m: SubPaths, init: Option<InitContainer>) {
    && (init.None? <==> m == map[])
    && (init.Some? ==>
          && LinesFor(m, m.Keys, init.value.lines)
          && |init.value.mounts| == |m|
          && WorkMountsFor(m.Keys, init.value.mounts))
  }

  lemma LinesMore(m: SubPaths, done: set<string>, lines: seq<string>, vol: string, more: seq<string>)
    requires LinesFor(m, done, lines) && vol in m
    requires forall line :: line in more <==> exists sub :: sub in m[vol] && line == MkdirLine(vol, sub)
    ensures LinesFor(m, done + {vol}, lines + more)
  {
    hide MkdirLine;
    forall line
      ensures line in lines + more <==>
              exists v, sub :: v in done + {vol} && Records(m, v, sub) && line == MkdirLine(v, sub)
    {
      if line in more {
        var sub :| sub in m[vol] && line == MkdirLine(vol, sub);
        assert Records(m, vol, sub);
      }
    }
  }

  lemma WorkMountsMore(done: set<string>, mounts: seq<Mount>, vol: string)
    requires WorkMountsFor(done, mounts)
    ensures WorkMountsFor(done + {vol}, mounts + [Mount(vol, "/work/" + vol, "", false)])
  {
    var extra := Mount(vol, "/work/" + vol, "", false);
    forall mt
      ensures mt in mounts + [extra] <==> exists v :: v in done + {vol} && mt == Mount(v, "/work/" + v, "", false)
    {
      assert mt in mounts + [extra] <==> mt in mounts || mt == extra;
    }
  }

  method BuildInit(m: SubPaths) returns (init: Option<InitContainer>)
    ensures InitFor(m, init)
  {
    if |m| == 0 {
      return None;
    }
    hide MkdirLine, LinesFor, WorkMountsFor;
    var vols := SortedKeys(m);
    NoLines(m);
    assert Elements(vols[..0]) == {};
    var lines: seq<string> := [];
    var mounts: seq<Mount> := [];
    for i := 0 to |vols|
      invariant |mounts| == i
      invariant LinesFor(m, Elements(vols[..i]), lines) && WorkMountsFor(Elements(vols[..i]), mounts)
    {
      var vol := vols[i];
      assert vol in Elements(vols);
      assert vols[..i + 1] == vols[..i] + [vol] && Elements(vols[..i + 1]) == Elements(vols[..i]) + {vol};
      var more := LinesOf(vol, m[vol]);
      LinesMore(m, Elements(vols[..i]), lines, vol, more);
      WorkMountsMore(Elements(vols[..i]), mounts, vol);
      lines := lines + more;
      mounts := mounts + [Mount(vol, "/work/" + vol, "", false)];
    }
    assert vols[..|vols|] == vols;
    NoDupCount(vols);
    return Some(InitContainer(lines, mounts));
  }

  lemma NoLines(m: SubPaths)
    ensures LinesFor(m, {}, []) && WorkMountsFor({}, [])
  {
  }

  /** The lines of one volume, sorted by sub-path. */
  method LinesOf(vol: string, subs: set<string>) returns (lines: seq<string>)
    ensures forall line :: line in lines <==> exists sub :: sub in subs && line == MkdirLine(vol, sub)
  {
    hide MkdirLine;
    var sorted := SortedKeys(map s | s in subs :: true);
    lines := [];
    for i := 0 to |sorted|
      invariant forall line :: line in lines <==> exists k :: 0 <= k < i && line == MkdirLine(vol, sorted[k])
    {
      lines := lines + [MkdirLine(vol, sorted[i])];
    }
    forall line ensures line in lines <==> exists sub :: sub in subs && line == MkdirLine(vol, sub) {
      if exists sub :: sub in subs && line == MkdirLine(vol, sub) {
        var sub :| sub in subs && line == MkdirLine(vol, sub);
        assert sub in Elements(sorted);
        var k :| 0 <= k < |sorted| && sorted[k] == sub;
      }
      if line in lines {
        var k :| 0 <= k < |sorted| && line == MkdirLine(vol, sorted[k]);
        assert sorted[k] in Elements(sorted);
      }
    }
  }

  // ---------- Service, Ingresses, headless Services

  datatype Exposure = Exposure(servicePorts: Option<seq<ServicePort>>, custom: seq<HttpRule>, default: seq<HttpRule>)

  /** The Service and Ingresses of an app whose rules are accepted under the given port map. */
  ghost predicate Exposed(app: App, hashID: string, domain: string, hostPort: map<int, int>, e: Exposure) {
    if app.ingress != [] then
      && RulesAccepted(app.ingress, hostPort, domain)
      && e.servicePorts == Some(RulePorts(app.ingress, hostPort))
      && e.custom == CustomRules(app.ingress)
      && e.default == if domain == "" then [] else DefaultRules(app.name, hashID, app.ingress, domain)
    else
      && e.custom == [] && e.default == []
      && (e.servicePorts.None? <==> hostPort == map[])
      && (e.servicePorts.Some? ==> exists hps :: PlainPorts(hostPort, e.servicePorts.value, hps))
  }

  /** Once the first loop over the rules passes, no later test on hosts can fail. */
  method Expose(app: App, hashID: string, domain: string, hostPort: map<int, int>)
    returns (r: Result<Exposure, RouteError>)
    ensures r.Ok? <==> app.ingress == [] || RulesAccepted(app.ingress, hostPort, domain)
    ensures r.Ok? ==> Exposed(app, hashID, domain, hostPort, r.value)
  {
    if |app.ingress| == 0 {
      if |hostPort| == 0 {
        return Ok(Exposure(None, [], []));
      }
      var ports := BuildPlainPorts(hostPort);
      return Ok(Exposure(Some(ports), [], []));
    }
    var rulePorts := BuildRulePorts(app.ingress, hostPort, domain);
    if rulePorts.Err? {
      return Err(rulePorts.error);
    }
    hide NamesPorts, CustomRules, Hosts, UnderDomain, RuleNameOk, NoDup, DefaultRules, RulePorts;
    var (ports, names) := rulePorts.value;
    var custom := BuildCustomRules(app.ingress, hostPort, names);
    if domain == "" {
      return Ok(Exposure(Some(ports), custom.value.0, []));
    }
    var default := BuildDefaultRules(app.name, hashID, app.ingress, hostPort, names, domain, |custom.value.0| > 0,
                                     custom.value.1);
    return Ok(Exposure(Some(ports), custom.value.0, default.value));
  }

  predicate Reserved(app: App, name: string) {
    HasPrefix(name, app.name + "-app") || HasPrefix(name, app.name + "-box")
  }

  /** Reserved are the names that go on after the app's name with -app or -box. */
  lemma ReservedExactly(app: App, name: string)
    ensures Reserved(app, name) <==>
            exists rest :: name in {app.name + ("-app" + rest), app.name + ("-box" + rest)}
  {
    if HasPrefix(name, app.name + "-app") {
      assert name == app.name + ("-app" + name[|app.name| + 4..]);
    }
    if HasPrefix(name, app.name + "-box") {
      assert name == app.name + ("-box" + name[|app.name| + 4..]);
    }
    if rest :| name in {app.name + ("-app" + rest), app.name + ("-box" + rest)} {
      assert app.name + ("-app" + rest) == app.name + "-app" + rest;
      assert app.name + ("-box" + rest) == app.name + "-box" + rest;
    }
  }

  method BuildHeadless(app: App, services: map<string, Service>) returns (r: Result<seq<string>, ConvertError>)
    ensures r.Ok? <==> forall n :: n in services ==> !Reserved(app, n)
    ensures r.Ok? ==> NoDup(r.value) && Elements(r.value) == services.Keys
  {
    hide Reserved;
    var visit := Enumerate(services);
    for i := 0 to |visit|
      invariant forall j :: 0 <= j < i ==> !Reserved(app, visit[j])
    {
      if Reserved(app, visit[i]) {
        assert visit[i] in Elements(visit);
        return Err(ReservedName(visit[i]));
      }
    }
    forall n | n in services ensures !Reserved(app, n) {
      assert n in Elements(visit);
    }
    return Ok(visit);
  }
}
