/** What a container mounts, said in the words of the Compose file: which reference asks for which mount,
    and which definition gives which object (adapters/kube/converter.go, adapters/kube/compose.go). */
module MountRequests {
  import opened Text
  import opened Compose
  import opened Mounts
  import opened Plans
  import opened Converters
  import opened Routing
  import EnvFile

  // ---------- volume references

  /** The source is the volume's name, or that and a path behind a slash. */
  predicate NamesVolume(source: string, vol: string, sub: string) {
    Free(vol, '/') && ((source == vol && sub == "") || source == vol + "/" + sub)
  }

  /** The reference stands for this sub-path of this app volume: a bind mount is a directory below the
      reference base and lies in the app's first volume, a named volume is one of the app's. */
  predicate StandsFor(app: App, files: Files, v: VolumeRef, vol: string, sub: string) {
    && v.source != "" && v.target != "" && Free(v.source, ':')
    && match v.kind
       case Bind =>
         && HasPrefix(app.refBase, "file://") && v.source[0] != '/' && v.source !in files.notDirectory
         && app.volumes != [] && vol == app.volumes[0].name && sub == v.source
       case NamedVolume => NamesVolume(v.source, vol, sub) && exists a :: a in app.volumes && a.name == vol
       case OtherMount(_) => false
  }

  /** Exactly what references stand for is resolved. */
  lemma ResolvesExactly(app: App, files: Files, v: VolumeRef, vol: string, sub: string)
    ensures ResolveVolume(app, files, v) == Ok((vol, sub)) <==> StandsFor(app, files, v, vol, sub)
  {
    SplitsExactly(v.source, vol, sub);
    VolumeThere(app, vol);
    hide SplitSource, NamesVolume, HasVolume, HasPrefix;
    assert Free(v.source, ':') <==> ':' !in v.source;
    SlashFirst(v.source);
  }

  lemma SlashFirst(s: string)
    ensures s != "" ==> (HasPrefix(s, "/") <==> s[0] == '/')
  {
    assert s != "" ==> s[..1] == [s[0]];
  }

  lemma VolumeThere(app: App, vol: string)
    ensures HasVolume(app, vol) <==> exists a :: a in app.volumes && a.name == vol
  {
    if a :| a in app.volumes && a.name == vol {
      var i :| 0 <= i < |app.volumes| && app.volumes[i] == a;
      assert app.volumes[i].name == vol;
    }
  }

  lemma SplitsExactly(source: string, vol: string, sub: string)
    ensures SplitSource(source) == (vol, sub) <==> NamesVolume(source, vol, sub)
  {
    IndexInside(source, '/');
    var i := IndexOf(source, '/');
    assert i < |source| ==> source == source[..i] + "/" + source[i + 1..];
    if NamesVolume(source, vol, sub) {
      assert |vol + "/" + sub| > |vol|;
      if source == vol {
        WholeName(vol);
        assert source[..|source|] == source;
      } else {
        NameThenPath(vol, sub);
      }
    }
  }

  lemma WholeName(vol: string)
    requires Free(vol, '/')
    ensures IndexOf(vol, '/') == |vol|
  {
    IndexInside(vol, '/');
  }

  lemma NameThenPath(vol: string, sub: string)
    requires Free(vol, '/')
    ensures SplitSource(vol + "/" + sub) == (vol, sub)
  {
    var source := vol + "/" + sub;
    IndexInside(source, '/');
    var i := IndexOf(source, '/');
    assert source[|vol|] == '/' && forall k :: 0 <= k < |vol| ==> source[k] == vol[k];
    assert i == |vol| && source[..i] == vol && source[i + 1..] == sub;
  }

  // ---------- the key of a file

  predicate OnlySlashes(s: string) {
    forall i :: 0 <= i < |s| ==> s[i] == '/'
  }

  /** The last part of a path, not counting slashes at its end. */
  ghost predicate LastPart(path: string, name: string) {
    if path == "" then name == "."
    else if OnlySlashes(path) then name == "/"
    else
      && name != "" && Free(name, '/')
      && exists front, back ::
           OnlySlashes(back) && path == front + name + back && (front == "" || front[|front| - 1] == '/')
  }

  lemma {:induction false} TrimmedSlashes(path: string) returns (back: string)
    ensures OnlySlashes(back) && path == TrimSlashes(path) + back
    ensures TrimSlashes(path) == "" || TrimSlashes(path)[|TrimSlashes(path)| - 1] != '/'
    ensures OnlySlashes(path) <==> TrimSlashes(path) == ""
  {
    if path != "" && path[|path| - 1] == '/' {
      var front := path[..|path| - 1];
      var rest := TrimmedSlashes(front);
      back := rest + "/";
      assert path == front + "/";
    } else {
      back := "";
    }
  }

  lemma {:induction false} LastSlash(path: string) returns (front: string)
    ensures path == front + AfterLastSlash(path) && Free(AfterLastSlash(path), '/')
    ensures front == "" || front[|front| - 1] == '/'
  {
    if path == "" || path[|path| - 1] == '/' {
      front := path;
    } else {
      front := LastSlash(path[..|path| - 1]);
      assert path == path[..|path| - 1] + [path[|path| - 1]];
    }
  }

  lemma BaseNameIsLast(path: string)
    ensures LastPart(path, BaseName(path))
  {
    var back := TrimmedSlashes(path);
    var trimmed := TrimSlashes(path);
    if path != "" && trimmed != "" {
      var front := LastSlash(trimmed);
      var name := AfterLastSlash(trimmed);
      assert path == front + name + back;
    }
  }

  /** A path has one last part. */
  lemma LastPartUnique(path: string, a: string, b: string)
    requires LastPart(path, a) && LastPart(path, b)
    ensures a == b
  {
    if path != "" && !OnlySlashes(path) {
      var fa, ba :| OnlySlashes(ba) && path == fa + a + ba && (fa == "" || fa[|fa| - 1] == '/');
      var fb, bb :| OnlySlashes(bb) && path == fb + b + bb && (fb == "" || fb[|fb| - 1] == '/');
      NotShorter(path, fa, a, ba, fb, b, bb);
      NotShorter(path, fb, b, bb, fa, a, ba);
      assert |ba| == |bb| && |fa| == |fb|;
      assert a == path[|fa|..|path| - |ba|] == b;
    }
  }

  lemma NotShorter(path: string, fa: string, a: string, ba: string, fb: string, b: string, bb: string)
    requires path == fa + a + ba && path == fb + b + bb && OnlySlashes(ba) && OnlySlashes(bb)
    requires a != "" && b != "" && Free(a, '/') && Free(b, '/')
    requires (fa == "" || fa[|fa| - 1] == '/') && (fb == "" || fb[|fb| - 1] == '/')
    ensures |ba| >= |bb| && (|ba| == |bb| ==> |fa| >= |fb|)
  {
    var end := |path| - |ba| - 1;
    assert path[end] == a[|a| - 1] != '/';
    forall i | |fb| + |b| <= i < |path| ensures path[i] == '/' {
      assert path[i] == bb[i - |fb| - |b|];
    }
    forall i | |fa| <= i < |fa| + |a| ensures path[i] != '/' {
      assert path[i] == a[i - |fa|];
    }
    if fb != "" {
      assert path[|fb| - 1] == fb[|fb| - 1];
    }
  }

  // ---------- file references

  /** The path a file takes when the reference names none. */
  function UsualPath(kind: FileKind, source: string): string {
    (if kind == ConfigFile then "/" else "/run/secrets/") + source
  }

  /** The reference asks for the mount: of the volume for its file, at its path, by the key of its
      definition, read-only. Definitions that are external or only named have none. */
  ghost predicate FileAsks(kind: FileKind, ref: FileRef, defs: map<string, FileDef>, m: Mount) {
    && ref.source != "" && ref.source in defs
    && var def := defs[ref.source];
       && !def.external && (def.name == "" || def.file != "" || def.content != "")
       && m.volume == (if kind == ConfigFile then "cfg-" else "sec-") + ref.source
       && (if ref.target != "" then m.path == ref.target else m.path == UsualPath(kind, ref.source))
       && (if def.file == "" && def.content != "" then m.subPath == ref.source else LastPart(def.file, m.subPath))
       && m.readOnly
  }

  lemma {:induction false} FileMountsAsked(kind: FileKind, refs: seq<FileRef>, defs: map<string, FileDef>, m: Mount)
    requires m in FileMounts(kind, refs, defs)
    ensures exists ref :: ref in refs && FileAsks(kind, ref, defs, m)
  {
    hide FileAsks, MountKey, FileVolumeName, TargetOf, Passthrough, RefOk;
    var front, ref := refs[..|refs| - 1], refs[|refs| - 1];
    assert refs == front + [ref];
    if m in FileMounts(kind, front, defs) {
      FileMountsAsked(kind, front, defs, m);
      var r :| r in front && FileAsks(kind, r, defs, m);
      assert r in refs;
    } else {
      MountAsked(kind, ref, defs, m);
      assert ref in refs;
    }
  }

  lemma MountAsked(kind: FileKind, ref: FileRef, defs: map<string, FileDef>, m: Mount)
    requires RefOk(ref, defs) && !Passthrough(defs[ref.source])
    requires m == Mount(FileVolumeName(kind, ref.source), TargetOf(kind, ref),
                        MountKey(ref.source, defs[ref.source]), true)
    ensures FileAsks(kind, ref, defs, m)
  {
    BaseNameIsLast(defs[ref.source].file);
    hide BaseName, LastPart;
  }

  /** Every reference that asks for a mount gets it. */
  lemma {:induction false} AskedFileMounted(kind: FileKind, refs: seq<FileRef>, defs: map<string, FileDef>,
                                            ref: FileRef, m: Mount)
    requires ref in refs && FileAsks(kind, ref, defs, m)
    ensures m in FileMounts(kind, refs, defs)
  {
    hide LastPart, BaseName;
    var front, last := refs[..|refs| - 1], refs[|refs| - 1];
    assert refs == front + [last];
    if ref in front {
      AskedFileMounted(kind, front, defs, ref, m);
    } else {
      var file := defs[ref.source].file;
      BaseNameIsLast(file);
      if LastPart(file, m.subPath) {
        LastPartUnique(file, m.subPath, BaseName(file));
      }
      assert m == Mount(FileVolumeName(kind, ref.source), TargetOf(kind, ref),
                        MountKey(ref.source, defs[ref.source]), true);
    }
  }

  // ---------- what a container mounts

  /** The reference asks for the mount of an app volume, at its own path and writable. */
  ghost predicate VolumeAsks(app: App, files: Files, v: VolumeRef, m: Mount) {
    StandsFor(app, files, v, m.volume, m.subPath) && m.path == v.target && !m.readOnly
  }

  ghost predicate ServiceAsksVolume(app: App, files: Files, s: Service, m: Mount) {
    exists v :: v in s.volumes && VolumeAsks(app, files, v, m)
  }

  ghost predicate ServiceAsksFile(project: Project, s: Service, m: Mount) {
    || (exists ref :: ref in s.configs && FileAsks(ConfigFile, ref, project.configs, m))
    || exists ref :: ref in s.secrets && FileAsks(SecretFile, ref, project.secrets, m)
  }

  /** Some file of the service takes the path. */
  ghost predicate FileAt(project: Project, s: Service, path: string) {
    exists n: Mount :: n.path == path && ServiceAsksFile(project, s, n)
  }

  lemma VolumeMountsExactly(app: App, files: Files, refs: seq<VolumeRef>, m: Mount)
    requires VolumesAccepted(app, files, refs)
    ensures m in VolumeMounts(app, files, refs) <==> exists v :: v in refs && VolumeAsks(app, files, v, m)
  {
    hide ResolveVolume, StandsFor;
    var mounts := VolumeMounts(app, files, refs);
    forall i | 0 <= i < |refs| ensures mounts[i] == m <==> VolumeAsks(app, files, refs[i], m) {
      ResolvesExactly(app, files, refs[i], m.volume, m.subPath);
    }
    if v :| v in refs && VolumeAsks(app, files, v, m) {
      var i :| 0 <= i < |refs| && refs[i] == v;
      assert mounts[i] == m;
    }
  }

  lemma ServiceFilesAsked(project: Project, s: Service, m: Mount)
    requires m in ServiceFiles(project, s)
    ensures ServiceAsksFile(project, s, m)
  {
    hide FileMounts, FileAsks;
    if m in FileMounts(ConfigFile, s.configs, project.configs) {
      FileMountsAsked(ConfigFile, s.configs, project.configs, m);
    } else {
      FileMountsAsked(SecretFile, s.secrets, project.secrets, m);
    }
  }

  lemma AskedServiceFile(project: Project, s: Service, m: Mount)
    requires ServiceAsksFile(project, s, m)
    ensures m in ServiceFiles(project, s)
  {
    hide FileMounts, FileAsks;
    if ref :| ref in s.configs && FileAsks(ConfigFile, ref, project.configs, m) {
      AskedFileMounted(ConfigFile, s.configs, project.configs, ref, m);
    } else {
      var ref :| ref in s.secrets && FileAsks(SecretFile, ref, project.secrets, m);
      AskedFileMounted(SecretFile, s.secrets, project.secrets, ref, m);
    }
  }

  /** Main result on requests: a container mounts an app volume exactly when a reference of its service
      asks for that and no file takes the path, and a file exactly when a reference asks for it. App
      volumes are not called like files. */
  lemma MountsExactly(app: App, files: Files, project: Project, s: Service, m: Mount)
    requires VolumesAccepted(app, files, s.volumes) && PlainNames(app)
    ensures m in MountsFor(app, files, project, s) <==>
            if m.readOnly then ServiceAsksFile(project, s, m)
            else ServiceAsksVolume(app, files, s, m) && !FileAt(project, s, m.path)
  {
    hide FileMounts, VolumesAccepted, StandsFor, FileAsks, PlainNames, HasVolume;
    var volumes, fs := VolumeMounts(app, files, s.volumes), ServiceFiles(project, s);
    var contested := ContestedPaths(volumes, fs);
    var _ := SurvivorsPicked(app, volumes + fs, contested);
    VolumeMountsExactly(app, files, s.volumes, m);
    FilesAreFiles(app, project, s);
    VolumesAreVolumes(app, files, s);
    hide VolumeMounts, ServiceFiles, Survivors;
    ContestedExactly(app, files, project, s, m);
    assert m in volumes + fs <==> m in volumes || m in fs;
    if m in fs {
      ServiceFilesAsked(project, s, m);
    }
    if m.readOnly && ServiceAsksFile(project, s, m) {
      AskedServiceFile(project, s, m);
    }
  }

  /** The path of a volume mount is contested exactly when a file takes it. */
  lemma ContestedExactly(app: App, files: Files, project: Project, s: Service, m: Mount)
    requires VolumesAccepted(app, files, s.volumes)
    ensures m in VolumeMounts(app, files, s.volumes) ==>
              (m.path in ContestedPaths(VolumeMounts(app, files, s.volumes), ServiceFiles(project, s)) <==>
               FileAt(project, s, m.path))
  {
    hide FileMounts, ServiceFiles, VolumeMounts, VolumesAccepted, ServiceAsksFile;
    var volumes, fs := VolumeMounts(app, files, s.volumes), ServiceFiles(project, s);
    if m in volumes {
      var i :| 0 <= i < |volumes| && volumes[i] == m;
      if m.path in ContestedPaths(volumes, fs) {
        var k, j :| 0 <= k < |volumes| && 0 <= j < |fs| && volumes[k].path == fs[j].path && volumes[k].path == m.path;
        ServiceFilesAsked(project, s, fs[j]);
        assert fs[j].path == m.path;
      }
      if n: Mount :| n.path == m.path && ServiceAsksFile(project, s, n) {
        AskedServiceFile(project, s, n);
        var j :| 0 <= j < |fs| && fs[j] == n;
        assert volumes[i].path == fs[j].path;
      }
    }
  }

  lemma FilesAreFiles(app: App, project: Project, s: Service)
    requires PlainNames(app)
    ensures forall f :: f in ServiceFiles(project, s) ==> f.readOnly && !HasVolume(app, f.volume)
  {
    hide FileMounts, PlainNames, HasVolume, LastPart;
    forall f | f in ServiceFiles(project, s) ensures f.readOnly && !HasVolume(app, f.volume) {
      ServiceFilesAsked(project, s, f);
      var kind, source := VolumeOfFile(project, s, f);
      FileVolumeIsNoAppVolume(app, kind, source);
    }
  }

  lemma VolumeOfFile(project: Project, s: Service, f: Mount) returns (kind: FileKind, source: string)
    requires ServiceAsksFile(project, s, f)
    ensures f.volume == FileVolumeName(kind, source) && f.readOnly
  {
    hide LastPart;
    if ref :| ref in s.configs && FileAsks(ConfigFile, ref, project.configs, f) {
      return ConfigFile, ref.source;
    } else {
      var ref :| ref in s.secrets && FileAsks(SecretFile, ref, project.secrets, f);
      return SecretFile, ref.source;
    }
  }

  lemma VolumesAreVolumes(app: App, files: Files, s: Service)
    requires VolumesAccepted(app, files, s.volumes)
    ensures forall m :: m in VolumeMounts(app, files, s.volumes) ==> !m.readOnly && HasVolume(app, m.volume)
  {
    hide ResolveVolume, HasVolume;
    forall i | 0 <= i < |s.volumes| ensures HasVolume(app, VolumeMount(app, files, s.volumes[i]).volume) {
      ResolvedIsAppVolume(app, files, s.volumes[i]);
    }
  }

  // ---------- after a conversion

  /** Every container mounts what its service asks for, in the words of the Compose file. */
  lemma PlannedMounts(c: Converter, files: Files, k: nat, m: Mount)
    requires c.Planned(files) && k < |c.plan.value.containers| && PlainNames(c.app)
    ensures c.plan.value.containers[k].name in c.source.services
    ensures var s := c.source.services[c.plan.value.containers[k].name];
            m in c.plan.value.containers[k].mounts <==>
            if m.readOnly then ServiceAsksFile(c.source, s, m)
            else ServiceAsksVolume(c.app, files, s, m) && !FileAt(c.source, s, m.path)
  {
    hide ServiceAsksFile, ServiceAsksVolume, FileAt, MountsFor, VolumesAccepted, PlainNames;
    ServiceOfContainer(c, files, k);
    MountsExactly(c.app, files, c.source, c.source.services[c.plan.value.containers[k].name], m);
  }

  lemma ServiceOfContainer(c: Converter, files: Files, k: nat)
    requires c.Planned(files) && k < |c.plan.value.containers|
    ensures c.plan.value.containers[k].name in c.source.services
    ensures var s := c.source.services[c.plan.value.containers[k].name];
            && VolumesAccepted(c.app, files, s.volumes)
            && c.plan.value.containers[k].mounts == MountsFor(c.app, files, c.source, s)
  {
    hide TableOk, EnvSecretsOf, ObjectsOf, DefsAccepted, ServicesAccepted, Exposed, InitFor, StateOk, MountsFor;
    hide VolumesAccepted, ContainerOk, SubPathsFor, c.PolicyPlanned;
    assert ContainerFor(c.app, files, c.source, MountState(c.recorded, c.configMounts, c.secretMounts),
                        c.source.services[c.visit[k]], c.plan.value.containers[k]);
  }

  /** Exactly the sub-paths that references of some service stand for are recorded. */
  lemma PlannedSubPaths(c: Converter, files: Files, vol: string, sub: string)
    requires c.Planned(files)
    ensures Records(c.recorded, vol, sub) <==>
            sub != "" && exists n, v ::
              n in c.source.services && v in c.source.services[n].volumes && StandsFor(c.app, files, v, vol, sub)
  {
    hide StandsFor, ResolveVolume, Records;
    RecordedUses(c, files, vol, sub);
    forall n | n in c.source.services
      ensures UsesSubPath(c.app, files, c.source.services[n].volumes, vol, sub) <==>
              sub != "" && exists v :: v in c.source.services[n].volumes && StandsFor(c.app, files, v, vol, sub)
    {
      UsesExactly(c.app, files, c.source.services[n].volumes, vol, sub);
    }
  }

  lemma RecordedUses(c: Converter, files: Files, vol: string, sub: string)
    requires c.Planned(files)
    ensures Records(c.recorded, vol, sub) <==>
            exists n :: n in c.source.services && UsesSubPath(c.app, files, c.source.services[n].volumes, vol, sub)
  {
    hide TableOk, EnvSecretsOf, ObjectsOf, DefsAccepted, ServicesAccepted, Exposed, InitFor, StateOk, ContainersFor;
    hide Records, UsesSubPath, c.PolicyPlanned;
  }

  lemma UsesExactly(app: App, files: Files, refs: seq<VolumeRef>, vol: string, sub: string)
    ensures UsesSubPath(app, files, refs, vol, sub) <==>
            sub != "" && exists v :: v in refs && StandsFor(app, files, v, vol, sub)
  {
    hide StandsFor, ResolveVolume;
    forall i | 0 <= i < |refs|
      ensures ResolveVolume(app, files, refs[i]) == Ok((vol, sub)) <==> StandsFor(app, files, refs[i], vol, sub)
    {
      ResolvesExactly(app, files, refs[i], vol, sub);
    }
    if v :| v in refs && StandsFor(app, files, v, vol, sub) {
      var i :| 0 <= i < |refs| && refs[i] == v;
      assert StandsFor(app, files, refs[i], vol, sub);
    }
  }

  /** Every service with env files has one Secret under its name, with exactly the keys its files have and
      the value of the last file for each. */
  lemma PlannedEnv(c: Converter, files: Files, n: string, k: string) returns (e: EnvSecret)
    requires c.Acceptable(files) && c.Planned(files)
    requires n in c.source.services && c.source.services[n].envFiles != []
    ensures e in c.plan.value.envSecrets && e.name == c.app.name + "-" + c.component + "-" + n + "-base"
    ensures var refs := c.source.services[n].envFiles;
            && (k in e.data <==> exists i :: 0 <= i < |refs| && EnvFile.FileHas(files.env, refs[i], k))
            && forall i ::
                 0 <= i < |refs| && EnvFile.FileHas(files.env, refs[i], k)
                 && (forall j :: i < j < |refs| ==> !EnvFile.FileHas(files.env, refs[j], k)) ==>
                   k in e.data && e.data[k] == EnvFile.FileSays(files.env, refs[i], k)
  {
    hide TableOk, ObjectsOf, DefsAccepted, ServicesAccepted, Exposed, InitFor, StateOk, ContainersFor, SubPathsFor;
    hide EnvFile.ReadAll, EnvFile.MergeAll, EnvFile.FileHas, EnvFile.FileSays, c.PolicyPlanned;
    hide RulesAccepted, EnvFile.SecretDataOk;
    e := EnvSecretFor(c.app, c.component, files, n, c.source.services[n]);
    assert MakesEnvSecret(c.app, c.component, files, c.source.services, n, e);
    EnvFile.MergedFiles(files.env, c.source.services[n].envFiles, k);
  }

  // ---------- definitions

  /** A definition gives an object under this key: its content under its own name, or its file, which must
      be readable, under the last part of its path. A config's data must be text. */
  ghost predicate Gives(kind: FileKind, files: Files, name: string, def: FileDef, key: string) {
    && !def.external
    && if def.content != "" then
         && key == name && |def.content| <= 1048576
         && (kind == ConfigFile ==>
               Free(def.content, '\0') && def.content[0] != '\U{FEFF}')
       else
         && def.file != "" && def.file in files.readable && LastPart(def.file, key)
         && (kind == ConfigFile ==> files.readable[def.file])
  }

  /** Definitions that are expected to exist in the cluster already. */
  predicate InCluster(def: FileDef) {
    def.external || (def.name != "" && def.file == "" && def.content == "")
  }

  lemma DefsExactly(kind: FileKind, files: Files, name: string, def: FileDef)
    ensures ResolveDef(kind, files, name, def) == Ok(None) <==> InCluster(def)
    ensures ResolveDef(kind, files, name, def).Ok? <==>
            InCluster(def) || exists key :: Gives(kind, files, name, def, key)
    ensures forall key :: ResolveDef(kind, files, name, def) == Ok(Some(key)) ==> Gives(kind, files, name, def, key)
  {
    BaseNameIsLast(def.file);
    hide BaseName, LastPart;
    assert Free(def.content, '\0') <==> '\0' !in def.content;
    if ResolveDef(kind, files, name, def).Ok? && !InCluster(def) {
      assert Gives(kind, files, name, def, ResolveDef(kind, files, name, def).value.value);
    }
  }
}
