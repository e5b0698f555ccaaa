/** The pod that one converter builds is closed: its mounts, volumes, claims, volumes' objects and
    sub-path directories all refer to one another (adapters/kube/converter.go). */
module PodClosure {
  import opened Text
  import opened Sorting
  import opened Compose
  import opened Routing
  import opened Mounts
  import opened Plans
  import opened Converters
  import EnvFile

  // ---------- the names of the pod's volumes

  ghost predicate NamesDistinct(volumes: seq<PodVolume>) {
    forall i, j :: 0 <= i < j < |volumes| ==> volumes[i].name != volumes[j].name
  }

  /** Exactly one volume of the pod has the name. */
  ghost predicate NamesOne(volumes: seq<PodVolume>, name: string) {
    exists i ::
      && 0 <= i < |volumes|
      && volumes[i].name == name
      && forall j :: 0 <= j < |volumes| && volumes[j].name == name ==> j == i
  }

  ghost predicate AppNamesDistinct(app: App) {
    forall i, j :: 0 <= i < j < |app.volumes| ==> app.volumes[i].name != app.volumes[j].name
  }

  /** No mounted file's volume is called like an app volume. */
  ghost predicate FilesApart(app: App, configs: FileTable, secrets: FileTable) {
    && (forall s :: s in configs ==> !HasVolume(app, FileVolumeName(ConfigFile, s)))
    && (forall s :: s in secrets ==> !HasVolume(app, FileVolumeName(SecretFile, s)))
  }

  lemma FileVolumeNamesDiffer(kind: FileKind, s: string, kind': FileKind, s': string)
    ensures FileVolumeName(kind, s) == FileVolumeName(kind', s') <==> kind == kind' && s == s'
  {
    assert FileVolumeName(kind, s)[4..] == s && FileVolumeName(kind', s')[4..] == s';
    assert FileVolumeName(kind, s)[0] == if kind == ConfigFile then 'c' else 's';
    assert FileVolumeName(kind', s')[0] == if kind' == ConfigFile then 'c' else 's';
  }

  /** A list no longer than the set it enumerates enumerates it without repetition. */
  lemma {:induction false} CountedOnce<T>(list: seq<T>)
    requires |Elements(list)| == |list|
    ensures NoDup(list)
  {
    if list != [] {
      var rest, last := list[..|list| - 1], list[|list| - 1];
      assert list == rest + [last];
      assert Elements(list) == Elements(rest) + {last};
      ElementsBound(rest);
      CountedOnce(rest);
    }
  }

  lemma {:induction false} ElementsBound<T>(list: seq<T>)
    ensures |Elements(list)| <= |list|
  {
    if list != [] {
      var rest, last := list[..|list| - 1], list[|list| - 1];
      assert list == rest + [last];
      assert Elements(list) == Elements(rest) + {last};
      ElementsBound(rest);
    }
  }

  /** The source names behind the projected files of one kind. */
  ghost function Sources(volumes: seq<PodVolume>): seq<string> {
    seq(|volumes|, i requires 0 <= i < |volumes| => if |volumes[i].name| < 4 then "" else volumes[i].name[4..])
  }

  /** Each mounted file has one volume, and different files have different ones. */
  lemma FileVolumesDistinct(volumes: seq<PodVolume>, kind: FileKind, table: FileTable)
    requires FileVolumes(volumes, kind, table, table.Keys)
    ensures NamesDistinct(volumes)
    ensures forall i :: 0 <= i < |volumes| ==> exists s :: s in table && volumes[i] == FileVolume(kind, s, table[s])
  {
    var sources := Sources(volumes);
    forall i | 0 <= i < |volumes|
      ensures sources[i] in table && volumes[i] == FileVolume(kind, sources[i], table[sources[i]])
    {
      assert volumes[i] in volumes;
      var s :| s in table && volumes[i] == FileVolume(kind, s, table[s]);
      assert FileVolumeName(kind, s)[4..] == s;
    }
    hide FileVolume;
    forall s ensures s in Elements(sources) <==> s in table {
      if s in table {
        SourceListed(volumes, kind, table, s);
      }
    }
    assert Elements(sources) == table.Keys;
    CountedOnce(sources);
    forall i, j | 0 <= i < j < |volumes| ensures volumes[i].name != volumes[j].name {
      assert sources[i] != sources[j];
    }
  }

  lemma SourceListed(volumes: seq<PodVolume>, kind: FileKind, table: FileTable, s: string)
    requires FileVolumes(volumes, kind, table, table.Keys) && s in table
    ensures s in Sources(volumes)
  {
    var v := FileVolume(kind, s, table[s]);
    assert v in volumes;
    var i :| 0 <= i < |volumes| && volumes[i] == v;
    assert v.name == FileVolumeName(kind, s) && FileVolumeName(kind, s)[4..] == s;
    assert Sources(volumes)[i] == s;
  }

  /** The pod's volume list as Build lays it out. */
  ghost predicate Laid(app: App, configs: FileTable, secrets: FileTable, volumes: seq<PodVolume>, cut: nat) {
    && |app.volumes| <= cut <= |volumes|
    && (forall i :: 0 <= i < |app.volumes| ==> volumes[i].ClaimVolume? && volumes[i].name == app.volumes[i].name)
    && FileVolumes(volumes[|app.volumes|..cut], ConfigFile, configs, configs.Keys)
    && FileVolumes(volumes[cut..], SecretFile, secrets, secrets.Keys)
  }

  lemma LaidAt(app: App, configs: FileTable, secrets: FileTable, volumes: seq<PodVolume>, cut: nat, i: nat)
    requires Laid(app, configs, secrets, volumes, cut) && |app.volumes| <= i < |volumes|
    ensures i < cut ==> exists s :: s in configs && volumes[i] == FileVolume(ConfigFile, s, configs[s])
    ensures i >= cut ==> exists s :: s in secrets && volumes[i] == FileVolume(SecretFile, s, secrets[s])
  {
    hide FileVolume, FileVolumes;
    var n := |app.volumes|;
    FileVolumesDistinct(volumes[n..cut], ConfigFile, configs);
    FileVolumesDistinct(volumes[cut..], SecretFile, secrets);
    if i < cut {
      assert volumes[i] == volumes[n..cut][i - n];
    } else {
      assert volumes[i] == volumes[cut..][i - cut];
    }
  }

  /** The pod's volume names are distinct exactly when the app's are and no file's volume takes one
      of them. */
  lemma DistinctExactly(app: App, configs: FileTable, secrets: FileTable, volumes: seq<PodVolume>, cut: nat)
    requires Laid(app, configs, secrets, volumes, cut)
    ensures NamesDistinct(volumes) <==> AppNamesDistinct(app) && FilesApart(app, configs, secrets)
  {
    hide FileVolumes;
    if AppNamesDistinct(app) && FilesApart(app, configs, secrets) {
      forall i, j | 0 <= i < j < |volumes| ensures volumes[i].name != volumes[j].name {
        LaidPair(app, configs, secrets, volumes, cut, i, j);
      }
    }
    if NamesDistinct(volumes) {
      forall i, j | 0 <= i < j < |app.volumes| ensures app.volumes[i].name != app.volumes[j].name {
        assert volumes[i].name != volumes[j].name;
      }
      forall s | s in configs ensures !HasVolume(app, FileVolumeName(ConfigFile, s)) {
        FileAt(app, configs, secrets, volumes, cut, ConfigFile, s);
      }
      forall s | s in secrets ensures !HasVolume(app, FileVolumeName(SecretFile, s)) {
        FileAt(app, configs, secrets, volumes, cut, SecretFile, s);
      }
    }
  }

  lemma LaidPair(app: App, configs: FileTable, secrets: FileTable, volumes: seq<PodVolume>, cut: nat, i: nat, j: nat)
    requires Laid(app, configs, secrets, volumes, cut) && i < j < |volumes|
    requires AppNamesDistinct(app) && FilesApart(app, configs, secrets)
    ensures volumes[i].name != volumes[j].name
  {
    hide FileVolumes, FileVolumeName;
    var n := |app.volumes|;
    if i < n && j < n {
      assert app.volumes[i].name != app.volumes[j].name;
    } else if i < n {
      LaidAt(app, configs, secrets, volumes, cut, j);
      assert HasVolume(app, volumes[i].name);
    } else if j < cut {
      FileVolumesDistinct(volumes[n..cut], ConfigFile, configs);
      assert volumes[i] == volumes[n..cut][i - n] && volumes[j] == volumes[n..cut][j - n];
    } else if i >= cut {
      FileVolumesDistinct(volumes[cut..], SecretFile, secrets);
      assert volumes[i] == volumes[cut..][i - cut] && volumes[j] == volumes[cut..][j - cut];
    } else {
      LaidAt(app, configs, secrets, volumes, cut, i);
      LaidAt(app, configs, secrets, volumes, cut, j);
      var s :| s in configs && volumes[i] == FileVolume(ConfigFile, s, configs[s]);
      var t :| t in secrets && volumes[j] == FileVolume(SecretFile, t, secrets[t]);
      FileVolumeNamesDiffer(ConfigFile, s, SecretFile, t);
    }
  }

  function TableFor(kind: FileKind, configs: FileTable, secrets: FileTable): FileTable {
    match kind
    case ConfigFile => configs
    case SecretFile => secrets
  }

  /** A mounted file has its volume behind the app's volumes; no app volume before it has its name
      when names are distinct. */
  lemma FileAt(app: App, configs: FileTable, secrets: FileTable, volumes: seq<PodVolume>, cut: nat, kind: FileKind,
               s: string)
    requires Laid(app, configs, secrets, volumes, cut) && s in TableFor(kind, configs, secrets)
    ensures exists i ::
              |app.volumes| <= i < |volumes| && volumes[i] == FileVolume(kind, s, TableFor(kind, configs, secrets)[s])
    ensures NamesDistinct(volumes) ==> !HasVolume(app, FileVolumeName(kind, s))
  {
    var n := |app.volumes|;
    var v := FileVolume(kind, s, TableFor(kind, configs, secrets)[s]);
    var i: int;
    match kind
    case ConfigFile =>
      assert v in volumes[n..cut];
      i :| 0 <= i < cut - n && volumes[n..cut][i] == v;
      i := n + i;
    case SecretFile =>
      assert v in volumes[cut..];
      i :| 0 <= i < |volumes| - cut && volumes[cut..][i] == v;
      i := cut + i;
    assert volumes[i] == v;
    if NamesDistinct(volumes) {
      forall j | 0 <= j < n ensures app.volumes[j].name != v.name {
        assert volumes[j].name != volumes[i].name;
      }
    }
  }

  // ---------- the keys of projected files

  /** The one family of definitions whose mounts and objects disagree on the key: both a file and a
      content, with the file called differently. */
  predicate KeyClash(name: string, def: FileDef) {
    def.file != "" && def.content != "" && BaseName(def.file) != name
  }

  /** The mount's key is the object's key exactly outside that family. */
  lemma KeysAgreeExactly(kind: FileKind, files: Files, name: string, def: FileDef)
    requires !Passthrough(def) && ResolveDef(kind, files, name, def).Ok?
    ensures ResolveDef(kind, files, name, def) == Ok(Some(MountKey(name, def))) <==> !KeyClash(name, def)
  {
    hide BaseName;
  }

  /** The family is inhabited among parsed definitions: this one has a key that is not the mounted one.
      The Compose loader may refuse it before. */
  lemma BothFileAndContent(env: EnvFile.Reader)
    ensures var def := FileDef(false, "", "conf/app.ini", "x");
            var files := Files(map[], {}, env);
            && ResolveDef(ConfigFile, files, "settings", def) == Ok(Some("settings"))
            && MountKey("settings", def) == "app.ini"
  {
    BaseOfPlain("conf", "app.ini");
    assert "conf" + "/" + "app.ini" == "conf/app.ini";
  }

  lemma BaseOfPlain(dir: string, name: string)
    requires name != "" && Free(name, '/')
    ensures BaseName(dir + "/" + name) == name
  {
    var path := dir + "/" + name;
    assert path[|path| - 1] == name[|name| - 1];
    AfterSlash(dir, name);
  }

  lemma {:induction false} AfterSlash(dir: string, name: string)
    requires Free(name, '/')
    ensures AfterLastSlash(dir + "/" + name) == name
  {
    var path := dir + "/" + name;
    if name != "" {
      var front := name[..|name| - 1];
      assert path[..|path| - 1] == dir + "/" + front;
      assert name == front + [name[|name| - 1]];
      AfterSlash(dir, front);
    }
  }

  ghost predicate HasKey(objects: seq<DataObject>, name: string, key: string) {
    exists o :: o in objects && o.name == name && o.key == key && forall p :: p in objects && p.name == name ==> p == o
  }

  /** For a mounted file there is exactly one generated object of the projected name; it has the
      mounted key exactly when the definition is not a key clash. */
  lemma FileHasObject(kind: FileKind, app: string, component: string, files: Files, project: Project,
                      objects: seq<DataObject>, table: FileTable, s: string)
    requires && DefsAccepted(kind, files, DefsOf(kind, project))
             && TableOk(table, kind, app, component, project)
             && s in table
    requires ObjectsOf(objects, kind, app, component, files, DefsOf(kind, project), DefsOf(kind, project).Keys)
    ensures s in DefsOf(kind, project)
    ensures HasKey(objects, table[s].objectName, table[s].key) <==> !KeyClash(s, DefsOf(kind, project)[s])
    ensures exists o :: o in objects && o.name == table[s].objectName
  {
    hide ResolveDef, MountKey, ObjectName, KeyClash, Passthrough, IsDNS1123Label, Refers;
    var defs := DefsOf(kind, project);
    var name := ObjectName(kind, app, component, s);
    KeysAgreeExactly(kind, files, s, defs[s]);
    ResolvedIsSome(kind, files, s, defs[s]);
    var o := DataObject(name, ResolveDef(kind, files, s, defs[s]).value.value);
    assert ObjectFor(kind, app, component, files, s, defs[s]) == Some(o);
    assert o in objects;
    forall p | p in objects && p.name == name ensures p == o {
      var n :| n in defs && ObjectFor(kind, app, component, files, n, defs[n]) == Some(p);
      ObjectNamesDiffer(kind, app, component, n, s);
    }
  }

  lemma ResolvedIsSome(kind: FileKind, files: Files, name: string, def: FileDef)
    requires !Passthrough(def) && ResolveDef(kind, files, name, def).Ok?
    ensures ResolveDef(kind, files, name, def).value.Some?
  {
    hide BaseName;
  }

  // ---------- the closed pod

  /** Convert, BindVolumes and Build have all succeeded. */
  ghost predicate Built(c: Converter, files: Files)
    reads c, set vb: VolumeBinding | vb in c.bindings
  {
    && c.Planned(files) && c.Bound() && c.Aligned()
    && c.deployment.Some?
    && c.deployment.value.containers == c.plan.value.containers && c.deployment.value.init == c.plan.value.init
    && c.PodVolumesFor(c.deployment.value.volumes)
  }

  /** The volume is a claim on a generated PVC, in the app's namespace, bound to a generated PV with the
      disk of the binding for that volume. */
  ghost predicate Claimed(c: Converter, v: PodVolume)
    reads c
  {
    && v.ClaimVolume?
    && exists i ::
         && 0 <= i < |c.bindings| && ForVolume(c.bindings[i], v.name)
         && i < |c.pvcs| && v.claim == c.pvcs[i].name && c.pvcs[i].namespace == c.hashes.namespace
         && i < |c.pvs| && c.pvcs[i].volumeName == c.pvs[i].name
         && c.pvs[i].driver != "" && c.pvs[i].handle != ""
         && c.pvs[i].handle == TrimSpace(c.bindings[i].disk.value.handle)
  }

  predicate ForVolume(vb: VolumeBinding?, name: string) {
    vb != null && vb.disk.Some? && TrimSpace(vb.name) == name
  }

  /** The mount is of a claimed volume, and its sub-path has a directory made for it. */
  ghost predicate VolumeServed(c: Converter, m: Mount)
    reads c
  {
    && c.deployment.Some?
    && exists v ::
         && v in c.deployment.value.volumes && v.name == m.volume && Claimed(c, v)
         && (m.subPath != "" ==>
               c.deployment.value.init.Some? && MkdirLine(m.volume, m.subPath) in c.deployment.value.init.value.lines)
  }

  function ObjectsFor(kind: FileKind, plan: Plan): seq<DataObject> {
    match kind
    case ConfigFile => plan.configMaps
    case SecretFile => plan.configSecrets
  }

  /** The mount is of a projected file under the key the projection uses, and the object it projects
      is generated and has that key. */
  ghost predicate FileServed(c: Converter, m: Mount)
    reads c
  {
    && c.deployment.Some? && c.plan.Some?
    && exists v ::
         && v in c.deployment.value.volumes && v.name == m.volume && v.ProjectedFile? && m.readOnly
         && v.key == m.subPath
         && HasKey(ObjectsFor(v.kind, c.plan.value), v.objectName, m.subPath)
  }

  /** No mounted definition has disagreeing keys. */
  ghost predicate NoKeyClash(c: Converter)
    reads c
  {
    && (forall s :: s in c.configMounts && s in c.source.configs ==> !KeyClash(s, c.source.configs[s]))
    && (forall s :: s in c.secretMounts && s in c.source.secrets ==> !KeyClash(s, c.source.secrets[s]))
  }

  lemma BuiltIsLaid(c: Converter, files: Files) returns (cut: nat)
    requires Built(c, files)
    ensures Laid(c.app, c.configMounts, c.secretMounts, c.deployment.value.volumes, cut)
  {
    hide FileVolumes, c.Planned, c.Bound, TrimSpace;
    var volumes := c.deployment.value.volumes;
    cut :| |c.app.volumes| <= cut <= |volumes|
           && FileVolumes(volumes[|c.app.volumes|..cut], ConfigFile, c.configMounts, c.configMounts.Keys)
           && FileVolumes(volumes[cut..], SecretFile, c.secretMounts, c.secretMounts.Keys);
  }

  /** A mounted file has the mode that was asked for, truncated to 32 bits. */
  lemma FileModeKept(c: Converter, files: Files, kind: FileKind, s: string)
    requires Built(c, files) && s in TableFor(kind, c.configMounts, c.secretMounts)
    ensures exists v :: v in c.deployment.value.volumes
                        && HasMode(v, kind, s, TableFor(kind, c.configMounts, c.secretMounts)[s].mode)
  {
    hide c.Planned, c.Bound, c.Aligned, c.PodVolumesFor, FileVolume, HasMode, Laid, TableFor, FileVolumeName;
    var f := TableFor(kind, c.configMounts, c.secretMounts)[s];
    var cut := BuiltIsLaid(c, files);
    var volumes := c.deployment.value.volumes;
    FileAt(c.app, c.configMounts, c.secretMounts, volumes, cut, kind, s);
    ModeOfVolume(kind, s, f);
    hide Built;
    var i :| |c.app.volumes| <= i < |volumes| && volumes[i] == FileVolume(kind, s, f);
    assert volumes[i] in volumes;
  }

  ghost predicate HasMode(v: PodVolume, kind: FileKind, s: string, mode: Option<Uint32>) {
    && v.ProjectedFile? && v.kind == kind && v.name == FileVolumeName(kind, s)
    && (mode.None? ==> v.mode == None)
    && (mode.Some? ==>
          && v.mode.Some? && -0x8000_0000 <= v.mode.value < 0x8000_0000
          && (mode.value - v.mode.value) % 0x1_0000_0000 == 0)
  }

  lemma ModeOfVolume(kind: FileKind, s: string, f: FileMount)
    ensures HasMode(FileVolume(kind, s, f), kind, s, f.mode)
  {
    if f.mode.Some? {
      Int32Congruent(f.mode.value);
    }
  }

  /** What stands behind app volume i, all under the binding's resource name. */
  lemma BoundParts(c: Converter, files: Files, i: nat)
    requires Built(c, files) && i < |c.app.volumes|
    ensures i < |c.bindings| && c.bindings[i] != null && c.bindings[i].disk.Some?
    ensures c.deployment.value.volumes[i] == ClaimVolume(c.app.volumes[i].name, c.bindings[i].resourceName)
    ensures ForVolume(c.bindings[i], c.app.volumes[i].name)
    ensures |c.pvcs| == |c.pvs| == |c.app.volumes|
    ensures c.pvcs[i].name == c.pvcs[i].volumeName == c.pvs[i].name == c.bindings[i].resourceName
    ensures c.pvcs[i].namespace == c.hashes.namespace && c.pvs[i].driver != ""
    ensures c.pvs[i].handle == TrimSpace(c.bindings[i].disk.value.handle) != ""
  {
    hide TrimSpace, HasVolume, c.Planned, FileVolumes;
    assert BindingAccepted(c.app, c.bindings[i]);
    var name := c.bindings[i].resourceName;
    assert c.pvcs[i] == c.ClaimFor(c.bindings[i], name) && c.pvs[i] == c.VolumeFor(c.bindings[i], name);
  }

  /** The driver of the volume's class, and the disk's size, or the app volume's where the disk has none;
      the claim asks for as much as the volume has. */
  lemma BoundData(c: Converter, files: Files, i: nat)
    requires Built(c, files) && AppNamesDistinct(c.app) && SameNames(c) && i < |c.app.volumes|
    ensures i < |c.bindings| && c.bindings[i] != null && c.bindings[i].disk.Some? && c.bindings[i].volumeClass.Some?
    ensures i < |c.pvs| && i < |c.pvcs| && c.pvs[i].driver == TrimSpace(c.bindings[i].volumeClass.value.csiDriver)
    ensures c.pvs[i].size == c.pvcs[i].size ==
            (if c.bindings[i].disk.value.size > 0 then c.bindings[i].disk.value.size else c.app.volumes[i].size)
  {
    hide TrimSpace, c.Planned, FileVolumes, c.PodVolumesFor, HasVolume;
    assert BindingAccepted(c.app, c.bindings[i]);
    var name := c.bindings[i].resourceName;
    assert c.pvcs[i] == c.ClaimFor(c.bindings[i], name) && c.pvs[i] == c.VolumeFor(c.bindings[i], name);
    SizeOfOnly(c.app.volumes, i);
  }

  /** The bindings are called as the app's volumes are, without spaces around. */
  ghost predicate SameNames(c: Converter)
    reads c
  {
    forall i :: 0 <= i < |c.bindings| && i < |c.app.volumes| && c.bindings[i] != null ==>
      c.bindings[i].name == c.app.volumes[i].name
  }

  lemma {:induction false} SizeOfOnly(volumes: seq<AppVolume>, i: nat)
    requires i < |volumes| && forall j, k :: 0 <= j < k < |volumes| ==> volumes[j].name != volumes[k].name
    ensures SizeAmong(volumes, volumes[i].name) == volumes[i].size
  {
    if i < |volumes| - 1 {
      SizeOfOnly(volumes[..|volumes| - 1], i);
    }
  }

  /** Every claim of the pod leads to the disk bound for its volume. */
  lemma ClaimsServed(c: Converter, files: Files, i: nat)
    requires Built(c, files) && i < |c.app.volumes|
    ensures c.deployment.value.volumes[i].name == c.app.volumes[i].name && Claimed(c, c.deployment.value.volumes[i])
  {
    BoundParts(c, files, i);
    hide Built, TrimSpace, ForVolume;
  }

  predicate OnlyClaim(pvcs: seq<Claim>, name: string, j: nat) {
    j < |pvcs| && pvcs[j].name == name && forall k :: 0 <= k < |pvcs| && pvcs[k].name == name ==> k == j
  }

  predicate OnlyVolume(pvs: seq<PersistentVolume>, name: string, j: nat) {
    j < |pvs| && pvs[j].name == name && forall k :: 0 <= k < |pvs| && pvs[k].name == name ==> k == j
  }

  /** The claim of app volume i names exactly one PVC, that one exactly one PV, and this has the disk of
      the volume's own binding. */
  ghost predicate OwnDisk(c: Converter, i: nat)
    reads c
  {
    && c.deployment.Some? && i < |c.deployment.value.volumes| && c.deployment.value.volumes[i].ClaimVolume?
    && i < |c.bindings| && ForVolume(c.bindings[i], c.deployment.value.volumes[i].name)
    && exists j: nat, k: nat ::
         && OnlyClaim(c.pvcs, c.deployment.value.volumes[i].claim, j)
         && OnlyVolume(c.pvs, c.pvcs[j].volumeName, k)
         && c.pvs[k].handle == TrimSpace(c.bindings[i].disk.value.handle)
  }

  /** No two bindings have ended up under one resource name. */
  ghost predicate ResourceNamesDistinct(c: Converter)
    reads c, set vb: VolumeBinding | vb in c.bindings
  {
    forall i, j :: 0 <= i < j < |c.bindings| && c.bindings[i] != null && c.bindings[j] != null ==>
      c.bindings[i].resourceName != c.bindings[j].resourceName
  }

  /** Every app volume has its own disk behind its claim exactly when the bindings' resource names are
      distinct. */
  lemma OwnDisksExactly(c: Converter, files: Files)
    requires Built(c, files)
    ensures (forall i: nat :: i < |c.app.volumes| ==> OwnDisk(c, i)) <==> ResourceNamesDistinct(c)
  {
    AsManyBindings(c, files);
    hide Built, OwnDisk;
    if ResourceNamesDistinct(c) {
      forall i: nat | i < |c.app.volumes| ensures OwnDisk(c, i) {
        DistinctOwn(c, files, i);
      }
    }
    if forall i: nat :: i < |c.app.volumes| ==> OwnDisk(c, i) {
      forall i, j | 0 <= i < j < |c.bindings| && c.bindings[i] != null && c.bindings[j] != null
        ensures c.bindings[i].resourceName != c.bindings[j].resourceName
      {
        OwnDistinct(c, files, i, j);
      }
    }
  }

  lemma DistinctOwn(c: Converter, files: Files, i: nat)
    requires Built(c, files) && ResourceNamesDistinct(c) && i < |c.app.volumes|
    ensures OwnDisk(c, i)
  {
    hide Built, TrimSpace, ForVolume, OnlyClaim, OnlyVolume;
    AsManyBindings(c, files);
    BoundParts(c, files, i);
    var name := c.bindings[i].resourceName;
    forall k: nat | k < |c.app.volumes|
      ensures c.pvcs[k].name == c.pvs[k].name && (c.pvs[k].name == name ==> k == i)
    {
      BoundParts(c, files, k);
    }
    OnlyOne(c.pvcs, c.pvs, name, i);
    assert OnlyClaim(c.pvcs, c.deployment.value.volumes[i].claim, i) && OnlyVolume(c.pvs, c.pvcs[i].volumeName, i);
  }

  lemma OnlyOne(pvcs: seq<Claim>, pvs: seq<PersistentVolume>, name: string, i: nat)
    requires i < |pvcs| == |pvs| && pvcs[i].name == pvs[i].name == name
    requires forall k: nat :: k < |pvs| ==> pvcs[k].name == pvs[k].name && (pvs[k].name == name ==> k == i)
    ensures OnlyClaim(pvcs, name, i) && OnlyVolume(pvs, name, i)
  {
  }

  lemma OwnDistinct(c: Converter, files: Files, i: nat, j: nat)
    requires Built(c, files) && i < j < |c.app.volumes| && OwnDisk(c, i)
    ensures i < |c.bindings| && j < |c.bindings| && c.bindings[i] != null && c.bindings[j] != null
    ensures c.bindings[i].resourceName != c.bindings[j].resourceName
  {
    hide Built, TrimSpace, ForVolume, OnlyVolume;
    BoundParts(c, files, i);
    BoundParts(c, files, j);
    OnlyOneClaim(c, i);
    assert c.pvcs[i].name == c.deployment.value.volumes[i].claim;
  }

  lemma OnlyOneClaim(c: Converter, i: nat)
    requires OwnDisk(c, i)
    ensures exists k: nat :: OnlyClaim(c.pvcs, c.deployment.value.volumes[i].claim, k)
  {
    hide OnlyClaim, OnlyVolume, ForVolume, TrimSpace;
  }

  lemma AsManyBindings(c: Converter, files: Files)
    requires Built(c, files)
    ensures c.deployment.Some? && |c.bindings| == |c.app.volumes| <= |c.deployment.value.volumes|
  {
    hide TrimSpace, c.Planned, FileVolumes;
  }

  /** A mount of an app volume is served. */
  lemma AppVolumeServed(c: Converter, files: Files, m: Mount)
    requires Built(c, files) && VolumeResolved(c.app, c.recorded, m)
    ensures VolumeServed(c, m)
  {
    hide c.Bound, c.PodVolumesFor, FileVolumes, MkdirLine, Claimed;
    var i :| 0 <= i < |c.app.volumes| && c.app.volumes[i].name == m.volume;
    var cut := BuiltIsLaid(c, files);
    ClaimsServed(c, files, i);
    if m.subPath != "" {
      SubPathMade(c, files, m);
    }
    assert c.deployment.value.volumes[i] in c.deployment.value.volumes;
  }

  lemma SubPathMade(c: Converter, files: Files, m: Mount)
    requires c.Planned(files) && Records(c.recorded, m.volume, m.subPath)
    ensures c.plan.value.init.Some? && MkdirLine(m.volume, m.subPath) in c.plan.value.init.value.lines
  {
    hide MkdirLine, ServicesPlanned, EnvSecretsOf, ObjectsOf, DefsAccepted, ServicesAccepted, Exposed, NoDup;
    hide c.PolicyPlanned;
    assert m.volume in c.recorded.Keys;
  }

  /** A mount of a file is served when its definition is not a key clash. */
  lemma ProjectedFileServed(c: Converter, files: Files, kind: FileKind, m: Mount)
    requires Built(c, files) && FileResolved(kind, TableFor(kind, c.configMounts, c.secretMounts), m) && NoKeyClash(c)
    ensures FileServed(c, m)
  {
    hide c.Bound, c.PodVolumesFor, FileVolumes, KeyClash, HasKey, FileVolumeName, TableOk, Laid, DefsAccepted;
    hide ObjectsOf;
    var table := TableFor(kind, c.configMounts, c.secretMounts);
    var s :| s in table && m.volume == FileVolumeName(kind, s) && m.subPath == table[s].key;
    var cut := BuiltIsLaid(c, files);
    FileAt(c.app, c.configMounts, c.secretMounts, c.deployment.value.volumes, cut, kind, s);
    FileFacts(c, files, kind);
    var i :| |c.app.volumes| <= i < |c.deployment.value.volumes|
      && c.deployment.value.volumes[i] == FileVolume(kind, s, table[s]);
    var defs := DefsOf(kind, c.source);
    FileHasObject(kind, c.app.name, c.component, files, c.source, ObjectsFor(kind, c.plan.value), table, s);
    assert c.deployment.value.volumes[i] in c.deployment.value.volumes;
  }

  lemma FileFacts(c: Converter, files: Files, kind: FileKind)
    requires c.Planned(files)
    ensures var defs := DefsOf(kind, c.source);
            && TableOk(TableFor(kind, c.configMounts, c.secretMounts), kind, c.app.name, c.component, c.source)
            && DefsAccepted(kind, files, defs)
            && ObjectsOf(ObjectsFor(kind, c.plan.value), kind, c.app.name, c.component, files, defs, defs.Keys)
  {
    hide TableOk, EnvSecretsOf, ObjectsOf, DefsAccepted, ServicesAccepted, Exposed, NoDup, ContainersFor, InitFor;
    hide Reflects, AllPublished;
    hide c.PolicyPlanned;
  }

  /** Every mount of every container and of the init container names exactly one volume of the pod,
      and what stands behind that volume is generated: claim, PVC and PV with the sub-path's
      directory, or projection and object with the sub-path as key. No file shares its path with
      another mount of its container. */
  ghost predicate PodClosed(c: Converter)
    reads c
  {
    && c.deployment.Some? && NamesDistinct(c.deployment.value.volumes)
    && (forall i, m :: 0 <= i < |c.deployment.value.containers| && m in c.deployment.value.containers[i].mounts ==>
          NamesOne(c.deployment.value.volumes, m.volume) && (VolumeServed(c, m) || FileServed(c, m)))
    && (forall i :: 0 <= i < |c.deployment.value.containers| ==> PathsApart(c.deployment.value.containers[i].mounts))
    && (c.deployment.value.init.Some? ==> forall m :: m in c.deployment.value.init.value.mounts ==>
          NamesOne(c.deployment.value.volumes, m.volume) && VolumeServed(c, m))
  }

  /** Main result on the pod: with distinct app volume names that no file can take, and without key
      clashes, the built pod is closed. */
  lemma PodIsClosed(c: Converter, files: Files)
    requires Built(c, files) && AppNamesDistinct(c.app) && PlainNames(c.app) && NoKeyClash(c)
    ensures PodClosed(c)
  {
    hide c.Planned, c.Bound, c.PodVolumesFor, Laid, VolumeServed, FileServed, PlainNames, PathsApart, NamesOne;
    hide NamesDistinct, Resolved;
    var cut := BuiltIsLaid(c, files);
    forall s, kind: FileKind ensures !HasVolume(c.app, FileVolumeName(kind, s)) {
      FileVolumeIsNoAppVolume(c.app, kind, s);
    }
    DistinctExactly(c.app, c.configMounts, c.secretMounts, c.deployment.value.volumes, cut);
    forall i, m | 0 <= i < |c.deployment.value.containers| && m in c.deployment.value.containers[i].mounts
      ensures NamesOne(c.deployment.value.volumes, m.volume) && (VolumeServed(c, m) || FileServed(c, m))
    {
      ContainerMounts(c, files, i);
      MountServed(c, files, m);
    }
    forall i | 0 <= i < |c.deployment.value.containers| ensures PathsApart(c.deployment.value.containers[i].mounts) {
      ContainerMounts(c, files, i);
    }
    if c.deployment.value.init.Some? {
      forall m | m in c.deployment.value.init.value.mounts
        ensures NamesOne(c.deployment.value.volumes, m.volume) && VolumeServed(c, m)
      {
        InitMountResolved(c, files, m);
        AppVolumeServed(c, files, m);
        OneOfName(c, m);
      }
    }
  }

  lemma ContainerMounts(c: Converter, files: Files, i: nat)
    requires c.Planned(files) && i < |c.plan.value.containers|
    ensures forall m :: m in c.plan.value.containers[i].mounts ==>
              Resolved(c.app, MountState(c.recorded, c.configMounts, c.secretMounts), m)
    ensures PlainNames(c.app) ==> PathsApart(c.plan.value.containers[i].mounts)
  {
    hide TableOk, EnvSecretsOf, ObjectsOf, DefsAccepted, ServicesAccepted, Exposed, NoDup, InitFor, Reflects;
    hide AllPublished, StateOk, Resolved, PathsApart, PlainNames, Int32;
    hide c.PolicyPlanned;
    assert ContainerFor(c.app, files, c.source, MountState(c.recorded, c.configMounts, c.secretMounts),
                        c.source.services[c.visit[i]], c.plan.value.containers[i]);
  }

  lemma MountServed(c: Converter, files: Files, m: Mount)
    requires Built(c, files) && NoKeyClash(c) && NamesDistinct(c.deployment.value.volumes)
    requires Resolved(c.app, MountState(c.recorded, c.configMounts, c.secretMounts), m)
    ensures NamesOne(c.deployment.value.volumes, m.volume) && (VolumeServed(c, m) || FileServed(c, m))
  {
    hide Built, VolumeResolved, FileResolved, NoKeyClash;
    if VolumeResolved(c.app, c.recorded, m) {
      AppVolumeServed(c, files, m);
    } else if FileResolved(ConfigFile, c.configMounts, m) {
      ProjectedFileServed(c, files, ConfigFile, m);
    } else {
      ProjectedFileServed(c, files, SecretFile, m);
    }
    OneOfName(c, m);
  }

  lemma OneOfName(c: Converter, m: Mount)
    requires VolumeServed(c, m) || FileServed(c, m)
    requires NamesDistinct(c.deployment.value.volumes)
    ensures NamesOne(c.deployment.value.volumes, m.volume)
  {
    hide HasKey, Claimed, MkdirLine;
    var volumes := c.deployment.value.volumes;
    var v :| v in volumes && v.name == m.volume;
    var i :| 0 <= i < |volumes| && volumes[i] == v;
    assert forall j :: 0 <= j < |volumes| && volumes[j].name == m.volume ==> j == i;
  }

  lemma InitMountResolved(c: Converter, files: Files, m: Mount)
    requires c.Planned(files) && c.plan.value.init.Some? && m in c.plan.value.init.value.mounts
    ensures VolumeResolved(c.app, c.recorded, m)
  {
    hide TableOk, EnvSecretsOf, ObjectsOf, DefsAccepted, ServicesAccepted, Exposed, NoDup, Reflects, AllPublished;
    hide ContainersFor, HasVolume, LinesFor;
    hide c.PolicyPlanned;
    var vol :| vol in c.recorded.Keys && m == Mount(vol, "/work/" + vol, "", false);
  }
}
