/** What the containers mount: app volumes with their sub-paths, and single files projected from the
    ConfigMaps and Secrets generated for top-level configs and secrets
    (adapters/kube/converter.go, adapters/kube/compose.go, adapters/kube/naming.go). */
module Mounts {
  import opened Text
  import opened Sorting
  import opened Compose
  import EnvFile

  datatype MountError =
    | EmptyVolumeRef
    | ColonInSource(source: string)
    | BindNotAllowed(source: string)
    | AbsoluteBind(source: string)
    | BindOfFile(source: string)
    | NoDefaultVolume(source: string)
    | UndefinedVolume(name: string)
    | UnsupportedType(text: string)
    | EmptyReference
    | UndefinedReference(source: string)
    | TargetConflict
    | BadFileName(name: string)
    | NothingToProject(name: string)
    | Unreadable(name: string)
    | NotText(name: string)
    | TooLarge(name: string)

  datatype Mount = Mount(volume: string, path: string, subPath: string, readOnly: bool)

  /** The file system: which paths can be read as config or secret files, with whether the content
      is text, which existing paths are not directories, and what reading an env file gives. */
  datatype Files = Files(readable: map<string, bool>, notDirectory: set<string>, env: EnvFile.Reader)

  // ---------- app volumes

  /** A named volume source: the volume's name up to the first slash, the sub-path after it. */
  function SplitSource(source: string): (string, string) {
    IndexInside(source, '/');
    var i := IndexOf(source, '/');
    (source[..i], if i < |source| then source[i + 1..] else "")
  }

  predicate HasVolume(app: App, name: string) {
    exists i :: 0 <= i < |app.volumes| && app.volumes[i].name == name
  }

  /** The app volume and sub-path a volume reference stands for. */
  function ResolveVolume(app: App, files: Files, v: VolumeRef): Result<(string, string), MountError> {
    if v.source == "" || v.target == "" then Err(EmptyVolumeRef)
    else if ':' in v.source then Err(ColonInSource(v.source))
    else match v.kind
      case Bind =>
        if !HasPrefix(app.refBase, "file://") then Err(BindNotAllowed(v.source))
        else if HasPrefix(v.source, "/") then Err(AbsoluteBind(v.source))
        else if v.source in files.notDirectory then Err(BindOfFile(v.source))
        else if |app.volumes| == 0 then Err(NoDefaultVolume(v.source))
        else Ok((app.volumes[0].name, v.source))
      case NamedVolume =>
        var (name, rest) := SplitSource(v.source);
        if !HasVolume(app, name) then Err(UndefinedVolume(name)) else Ok((name, rest))
      case OtherMount(text) => Err(UnsupportedType(text))
  }

  lemma ResolvedIsAppVolume(app: App, files: Files, v: VolumeRef)
    requires ResolveVolume(app, files, v).Ok?
    ensures HasVolume(app, ResolveVolume(app, files, v).value.0)
  {
    hide SplitSource;
  }

  type SubPaths = map<string, set<string>>

  predicate Records(m: SubPaths, vol: string, sub: string) {
    vol in m && sub in m[vol]
  }

  /** Only app volumes are recorded, each with at least one sub-path and none empty. */
  ghost predicate SubPathsOk(app: App, m: SubPaths) {
    forall vol :: vol in m ==> HasVolume(app, vol) && m[vol] != {} && "" !in m[vol]
  }

  // ---------- configs and secrets

  function ObjectName(kind: FileKind, app: string, component: string, name: string): string {
    match kind
    case ConfigFile => app + "-" + component + "--cfg-" + name
    case SecretFile => app + "-" + component + "--sec-" + name
  }

  lemma ObjectNamesDiffer(kind: FileKind, app: string, component: string, s: string, s': string)
    ensures ObjectName(kind, app, component, s) == ObjectName(kind, app, component, s') <==> s == s'
  {
    var front := app + "-" + component + if kind == ConfigFile then "--cfg-" else "--sec-";
    assert ObjectName(kind, app, component, s) == front + s && ObjectName(kind, app, component, s') == front + s';
    assert (front + s)[|front|..] == s && (front + s')[|front|..] == s';
  }

  function FileVolumeName(kind: FileKind, name: string): string {
    match kind
    case ConfigFile => "cfg-" + name
    case SecretFile => "sec-" + name
  }

  function DefaultTarget(kind: FileKind, source: string): string {
    match kind
    case ConfigFile => "/" + source
    case SecretFile => "/run/secrets/" + source
  }

  function TrimSlashes(path: string): string {
    if path != "" && path[|path| - 1] == '/' then TrimSlashes(path[..|path| - 1]) else path
  }

  function AfterLastSlash(path: string): string {
    if path == "" || path[|path| - 1] == '/' then ""
    else AfterLastSlash(path[..|path| - 1]) + [path[|path| - 1]]
  }

  /** filepath.Base. */
  function BaseName(path: string): string {
    if path == "" then "." else
      var trimmed := TrimSlashes(path);
      if trimmed == "" then "/" else AfterLastSlash(trimmed)
  }

  /** External or name-only definitions are expected to exist in the cluster. */
  predicate Passthrough(def: FileDef) {
    def.external || (def.name != "" && def.file == "" && def.content == "")
  }

  const MAX_FILE_SIZE: nat := 0x10_0000

  predicate IsText(content: string) {
    '\0' !in content && (content == "" || content[0] != '\U{FEFF}')
  }

  /** resolveConfigOrSecretFile: the key of the generated object, None for a passthrough. */
  function ResolveDef(kind: FileKind, files: Files, name: string, def: FileDef): Result<Option<string>, MountError> {
    if Passthrough(def) then Ok(None)
    else if def.content != "" then
      if |def.content| > MAX_FILE_SIZE then Err(TooLarge(name))
      else if kind == ConfigFile && !IsText(def.content) then Err(NotText(name))
      else Ok(Some(name))
    else if def.file == "" then Err(NothingToProject(name))
    else if def.file !in files.readable then Err(Unreadable(name))
    else if kind == ConfigFile && !files.readable[def.file] then Err(NotText(name))
    else Ok(Some(BaseName(def.file)))
  }

  /** The key Convert gives to a mount of the file. */
  function MountKey(source: string, def: FileDef): string {
    if def.file == "" && def.content != "" then source else BaseName(def.file)
  }

  /** A generated ConfigMap or Secret: its name and its one data key. */
  datatype DataObject = DataObject(name: string, key: string)

  ghost predicate DefsAccepted(kind: FileKind, files: Files, defs: map<string, FileDef>) {
    forall n :: n in defs ==> IsDNS1123Label(n) && ResolveDef(kind, files, n, defs[n]).Ok?
  }

  /** The object generated for a definition that is accepted and not passed through. */
  function ObjectFor(kind: FileKind, app: string, component: string, files: Files, name: string,
                     def: FileDef): Option<DataObject>
  {
    match ResolveDef(kind, files, name, def)
    case Ok(Some(key)) => Some(DataObject(ObjectName(kind, app, component, name), key))
    case _ => None
  }

  /** The objects are those generated for the definitions named in done, each once, and nothing else. */
  ghost predicate ObjectsOf(objects: seq<DataObject>, kind: FileKind, app: string, component: string, files: Files,
                            defs: map<string, FileDef>, done: set<string>) {
    && NoDup(objects)
    && forall o ::
         o in objects <==>
         exists n :: n in done && n in defs && ObjectFor(kind, app, component, files, n, defs[n]) == Some(o)
  }

  method BuildObjects(kind: FileKind, app: string, component: string, files: Files, defs: map<string, FileDef>)
    returns (r: Result<seq<DataObject>, MountError>)
    ensures r.Ok? <==> DefsAccepted(kind, files, defs)
    ensures r.Ok? ==> ObjectsOf(r.value, kind, app, component, files, defs, defs.Keys)
  {
    hide IsDNS1123Label, ResolveDef, ObjectName, ObjectsOf;
    var visit := Enumerate(defs);
    var objects: seq<DataObject> := [];
    NoObjects(kind, app, component, files, defs);
    assert Elements(visit[..0]) == {};
    for i := 0 to |visit|
      invariant forall n :: n in Elements(visit[..i]) ==>
                  n in defs && IsDNS1123Label(n) && ResolveDef(kind, files, n, defs[n]).Ok?
      invariant ObjectsOf(objects, kind, app, component, files, defs, Elements(visit[..i]))
    {
      var n := visit[i];
      assert n in Elements(visit);
      VisitOneMore(visit, i);
      if !IsDNS1123Label(n) {
        return Err(BadFileName(n));
      }
      var key := ResolveDef(kind, files, n, defs[n]);
      if key.Err? {
        return Err(key.error);
      }
      OneMoreObject(objects, kind, app, component, files, defs, Elements(visit[..i]), n);
      if key.value.Some? {
        objects := objects + [DataObject(ObjectName(kind, app, component, n), key.value.value)];
      }
    }
    assert visit[..|visit|] == visit;
    return Ok(objects);
  }

  lemma NoObjects(kind: FileKind, app: string, component: string, files: Files, defs: map<string, FileDef>)
    ensures ObjectsOf([], kind, app, component, files, defs, {})
  {
  }

  lemma OneMoreObject(objects: seq<DataObject>, kind: FileKind, app: string, component: string, files: Files,
                      defs: map<string, FileDef>, done: set<string>, n: string)
    requires ObjectsOf(objects, kind, app, component, files, defs, done) && n in defs && n !in done
    ensures var o := ObjectFor(kind, app, component, files, n, defs[n]);
            ObjectsOf(if o.Some? then objects + [o.value] else objects, kind, app, component, files, defs, done + {n})
  {
    var made := ObjectFor(kind, app, component, files, n, defs[n]);
    var more := if made.Some? then objects + [made.value] else objects;
    forall m | m in done && m in defs && made.Some? ensures ObjectFor(kind, app, component, files, m, defs[m]) != made {
      ObjectNamesDiffer(kind, app, component, m, n);
    }
    hide ObjectFor;
    forall o ensures o in more <==>
      exists m :: m in done + {n} && m in defs && ObjectFor(kind, app, component, files, m, defs[m]) == Some(o)
    {
      assert o in more <==> o in objects || made == Some(o);
    }
  }

  /** A mounted file, kept for Build: the object it projects, its key and the first reference's mode. */
  datatype FileMount = FileMount(objectName: string, key: string, mode: Option<Uint32>)
  type FileTable = map<string, FileMount>

  /** Some service refers to the file with this mode. */
  ghost predicate Refers(project: Project, kind: FileKind, source: string, mode: Option<Uint32>) {
    exists n, i ::
      && n in project.services && 0 <= i < |RefsOf(kind, project.services[n])|
      && RefsOf(kind, project.services[n])[i].source == source && RefsOf(kind, project.services[n])[i].mode == mode
  }

  /** The table has only files that some service mounts, under the right object, key and a mode that
      was asked for. */
  ghost predicate TableOk(table: FileTable, kind: FileKind, app: string, component: string, project: Project) {
    forall s :: s in table ==>
      && s in DefsOf(kind, project) && !Passthrough(DefsOf(kind, project)[s])
      && table[s].objectName == ObjectName(kind, app, component, s)
      && table[s].key == MountKey(s, DefsOf(kind, project)[s])
      && Refers(project, kind, s, table[s].mode)
  }

  /** Where a mount comes from, with the path it takes. */
  datatype Origin = VolumeOrigin | FileOrigin(kind: FileKind)
  datatype Mapping = Mapping(origin: Origin, source: string, target: string)

  function TargetOf(kind: FileKind, ref: FileRef): string {
    if ref.target == "" then DefaultTarget(kind, ref.source) else ref.target
  }

  predicate RefOk(ref: FileRef, defs: map<string, FileDef>) {
    ref.source != "" && ref.source in defs
  }

  /** The mounts of a service's file references; passthroughs have none. */
  function FileMounts(kind: FileKind, refs: seq<FileRef>, defs: map<string, FileDef>): seq<Mount> {
    if refs == [] then []
    else
      var ref := refs[|refs| - 1];
      var rest := FileMounts(kind, refs[..|refs| - 1], defs);
      if !RefOk(ref, defs) || Passthrough(defs[ref.source]) then rest
      else
        var key := MountKey(ref.source, defs[ref.source]);
        rest + [Mount(FileVolumeName(kind, ref.source), TargetOf(kind, ref), key, true)]
  }

  /** One mapping per mount, with the same path. */
  ghost predicate Mapped(mounts: seq<Mount>, mappings: seq<Mapping>, origin: Origin) {
    && |mappings| == |mounts|
    && forall i :: 0 <= i < |mounts| ==> mappings[i].origin == origin && mappings[i].target == mounts[i].path
  }

  /** The mount is of a file of this kind that the table knows under the mount's key. */
  ghost predicate FileResolved(kind: FileKind, table: FileTable, m: Mount) {
    m.readOnly && exists s :: s in table && m.volume == FileVolumeName(kind, s) && m.subPath == table[s].key
  }

  /** Entering a file that a service refers to. */
  lemma AddFile(table: FileTable, kind: FileKind, app: string, component: string, project: Project, n: string, i: nat)
    requires TableOk(table, kind, app, component, project)
    requires n in project.services && i < |RefsOf(kind, project.services[n])|
    requires var ref := RefsOf(kind, project.services[n])[i];
             ref.source in DefsOf(kind, project) && !Passthrough(DefsOf(kind, project)[ref.source])
    ensures var ref := RefsOf(kind, project.services[n])[i];
            TableOk(table[ref.source := FileMount(ObjectName(kind, app, component, ref.source),
                                                  MountKey(ref.source, DefsOf(kind, project)[ref.source]), ref.mode)],
                    kind, app, component, project)
  {
    hide MountKey, ObjectName, Passthrough;
    var ref := RefsOf(kind, project.services[n])[i];
    assert Refers(project, kind, ref.source, ref.mode);
    hide Refers;
  }

  /** The mount of one reference; a passthrough has none. */
  function FileMountOf(kind: FileKind, ref: FileRef, defs: map<string, FileDef>): seq<Mount>
    requires RefOk(ref, defs)
  {
    if Passthrough(defs[ref.source]) then []
    else [Mount(FileVolumeName(kind, ref.source), TargetOf(kind, ref), MountKey(ref.source, defs[ref.source]), true)]
  }

  lemma FileMountsSnoc(kind: FileKind, refs: seq<FileRef>, i: nat, defs: map<string, FileDef>)
    requires i < |refs| && RefOk(refs[i], defs)
    ensures FileMounts(kind, refs[..i + 1], defs) ==
              FileMounts(kind, refs[..i], defs) + FileMountOf(kind, refs[i], defs)
  {
    hide MountKey, FileVolumeName, TargetOf, Passthrough;
    assert refs[..i + 1][..i] == refs[..i] && refs[..i + 1][i] == refs[i];
  }

  /** No entry of the table is lost or changed. */
  ghost predicate Grows(table: FileTable, table': FileTable) {
    forall s :: s in table ==> s in table' && table'[s] == table[s]
  }

  ghost predicate AllResolved(kind: FileKind, table: FileTable, mounts: seq<Mount>) {
    forall i :: 0 <= i < |mounts| ==> FileResolved(kind, table, mounts[i])
  }

  lemma GrowsOn(a: FileTable, b: FileTable, c: FileTable)
    requires Grows(a, b) && Grows(b, c)
    ensures Grows(a, c)
  {
  }

  lemma MoreResolved(kind: FileKind, table: FileTable, table': FileTable, mounts: seq<Mount>, more: seq<Mount>)
    requires Grows(table, table') && AllResolved(kind, table, mounts) && AllResolved(kind, table', more)
    ensures AllResolved(kind, table', mounts + more)
  {
    hide FileResolved;
    forall i | 0 <= i < |mounts| ensures FileResolved(kind, table', mounts[i]) {
      FileResolvedLater(kind, table, table', mounts[i]);
    }
  }

  function MappingsOf(mounts: seq<Mount>, origin: Origin, source: string): seq<Mapping> {
    seq(|mounts|, j requires 0 <= j < |mounts| => Mapping(origin, source, mounts[j].path))
  }

  lemma MappedMore(mounts: seq<Mount>, mappings: seq<Mapping>, more: seq<Mount>, origin: Origin, source: string)
    requires Mapped(mounts, mappings, origin)
    ensures Mapped(mounts + more, mappings + MappingsOf(more, origin, source), origin)
  {
  }

  /** One config or secret reference: its mount, and its file entered in the table. */
  method MountFile(kind: FileKind, app: string, component: string, project: Project, n: string, i: nat,
                   table: FileTable)
    returns (r: Result<seq<Mount>, MountError>, out: FileTable)
    requires && n in project.services
             && i < |RefsOf(kind, project.services[n])|
             && TableOk(table, kind, app, component, project)
    ensures TableOk(out, kind, app, component, project) && Grows(table, out)
    ensures r.Ok? <==> RefOk(RefsOf(kind, project.services[n])[i], DefsOf(kind, project))
    ensures r.Ok? ==>
              && r.value == FileMountOf(kind, RefsOf(kind, project.services[n])[i], DefsOf(kind, project))
              && AllResolved(kind, out, r.value)
  {
    hide MountKey, ObjectName, FileVolumeName, TargetOf, Passthrough, TableOk, FileResolved;
    var ref, defs := RefsOf(kind, project.services[n])[i], DefsOf(kind, project);
    out := table;
    if ref.source == "" {
      return Err(EmptyReference), out;
    }
    var target := TargetOf(kind, ref);
    if ref.source !in defs {
      return Err(UndefinedReference(ref.source)), out;
    }
    var def := defs[ref.source];
    if Passthrough(def) {
      return Ok([]), out;
    }
    var key := MountKey(ref.source, def);
    if ref.source !in out {
      AddFile(out, kind, app, component, project, n, i);
      out := out[ref.source := FileMount(ObjectName(kind, app, component, ref.source), key, ref.mode)];
    }
    EnteredKey(out, kind, app, component, project, ref.source);
    EnteredResolved(kind, out, ref.source, target, key);
    return Ok([Mount(FileVolumeName(kind, ref.source), target, key, true)]), out;
  }

  /** The config or secret references of one service. What was entered in the table stays there even
      when a later reference is faulty. */
  method MountFiles(kind: FileKind, app: string, component: string, project: Project, n: string, table: FileTable)
    returns (r: Result<(seq<Mount>, seq<Mapping>), MountError>, out: FileTable)
    requires n in project.services && TableOk(table, kind, app, component, project)
    ensures TableOk(out, kind, app, component, project) && Grows(table, out)
    ensures r.Ok? <==>
            forall i :: 0 <= i < |RefsOf(kind, project.services[n])| ==>
              RefOk(RefsOf(kind, project.services[n])[i], DefsOf(kind, project))
    ensures r.Ok? ==>
              && r.value.0 == FileMounts(kind, RefsOf(kind, project.services[n]), DefsOf(kind, project))
              && Mapped(r.value.0, r.value.1, FileOrigin(kind))
              && AllResolved(kind, out, r.value.0)
  {
    hide TableOk, RefOk, FileMountOf, FileResolved;
    var refs, defs := RefsOf(kind, project.services[n]), DefsOf(kind, project);
    var mounts: seq<Mount> := [];
    var mappings: seq<Mapping> := [];
    out := table;
    for i := 0 to |refs|
      invariant forall j :: 0 <= j < i ==> RefOk(refs[j], defs)
      invariant mounts == FileMounts(kind, refs[..i], defs) && Mapped(mounts, mappings, FileOrigin(kind))
      invariant TableOk(out, kind, app, component, project)
      invariant Grows(table, out) && AllResolved(kind, out, mounts)
    {
      hide FileMounts, Mapped, MappingsOf, Grows, AllResolved;
      ghost var before := out;
      var mount: Result<seq<Mount>, MountError>;
      mount, out := MountFile(kind, app, component, project, n, i, out);
      if mount.Err? {
        return Err(mount.error), out;
      }
      GrowsOn(table, before, out);
      MoreResolved(kind, before, out, mounts, mount.value);
      FileMountsSnoc(kind, refs, i, defs);
      MappedMore(mounts, mappings, mount.value, FileOrigin(kind), refs[i].source);
      mounts := mounts + mount.value;
      mappings := mappings + MappingsOf(mount.value, FileOrigin(kind), refs[i].source);
    }
    assert refs[..|refs|] == refs;
    return Ok((mounts, mappings)), out;
  }

  lemma EnteredResolved(kind: FileKind, table: FileTable, s: string, target: string, key: string)
    requires s in table && table[s].key == key
    ensures FileResolved(kind, table, Mount(FileVolumeName(kind, s), target, key, true))
  {
  }

  lemma EnteredKey(table: FileTable, kind: FileKind, app: string, component: string, project: Project, s: string)
    requires TableOk(table, kind, app, component, project) && s in table
    ensures s in DefsOf(kind, project) && table[s].key == MountKey(s, DefsOf(kind, project)[s])
  {
  }

  // ---------- volumes of one service

  ghost predicate VolumesAccepted(app: App, files: Files, refs: seq<VolumeRef>) {
    forall i :: 0 <= i < |refs| ==> ResolveVolume(app, files, refs[i]).Ok?
  }

  /** The mount is of an app volume, and its sub-path, if any, is recorded. */
  ghost predicate VolumeResolved(app: App, m: SubPaths, mount: Mount) {
    !mount.readOnly && HasVolume(app, mount.volume) && (mount.subPath != "" ==> Records(m, mount.volume, mount.subPath))
  }

  /** The mount a volume reference becomes. */
  function VolumeMount(app: App, files: Files, v: VolumeRef): Mount
    requires ResolveVolume(app, files, v).Ok?
  {
    Mount(ResolveVolume(app, files, v).value.0, v.target, ResolveVolume(app, files, v).value.1, false)
  }

  ghost function VolumeMounts(app: App, files: Files, refs: seq<VolumeRef>): seq<Mount>
    requires VolumesAccepted(app, files, refs)
  {
    seq(|refs|, i requires 0 <= i < |refs| => VolumeMount(app, files, refs[i]))
  }

  /** One of the references stands for this sub-path of this app volume. */
  ghost predicate UsesSubPath(app: App, files: Files, refs: seq<VolumeRef>, vol: string, sub: string) {
    sub != "" && exists i :: 0 <= i < |refs| && ResolveVolume(app, files, refs[i]) == Ok((vol, sub))
  }

  /** The sub-paths recorded so far and those of the references, and no others. */
  ghost predicate RecordsMore(app: App, files: Files, refs: seq<VolumeRef>, before: SubPaths, after: SubPaths) {
    forall vol, sub ::
      Records(after, vol, sub) <==> Records(before, vol, sub) || UsesSubPath(app, files, refs, vol, sub)
  }

  lemma RecordOneMore(app: App, files: Files, refs: seq<VolumeRef>, i: nat, before: SubPaths, after: SubPaths,
                      vol: string, sub: string)
    requires && i < |refs|
             && RecordsMore(app, files, refs[..i], before, after)
             && ResolveVolume(app, files, refs[i]) == Ok((vol, sub))
    ensures RecordsMore(app, files, refs[..i + 1], before,
                        if sub == "" then after else after[vol := (if vol in after then after[vol] else {}) + {sub}])
  {
    hide ResolveVolume;
    var next := if sub == "" then after else after[vol := (if vol in after then after[vol] else {}) + {sub}];
    var front, all := refs[..i], refs[..i + 1];
    assert all == front + [refs[i]];
    forall v, s ensures Records(next, v, s) <==> Records(before, v, s) || UsesSubPath(app, files, all, v, s) {
      assert UsesSubPath(app, files, all, v, s) <==>
             UsesSubPath(app, files, front, v, s) || (s != "" && v == vol && s == sub) by {
        if UsesSubPath(app, files, front, v, s) {
          var j :| 0 <= j < |front| && ResolveVolume(app, files, front[j]) == Ok((v, s));
          assert all[j] == front[j];
        }
        assert all[i] == refs[i];
      }
      assert Records(next, v, s) <==> Records(after, v, s) || (s != "" && v == vol && s == sub);
    }
  }

  method MountVolumes(app: App, files: Files, refs: seq<VolumeRef>, subPaths: SubPaths)
    returns (r: Result<(seq<Mount>, seq<Mapping>, SubPaths), MountError>)
    requires SubPathsOk(app, subPaths)
    ensures r.Ok? <==> VolumesAccepted(app, files, refs)
    ensures r.Ok? ==>
              && r.value.0 == VolumeMounts(app, files, refs) && Mapped(r.value.0, r.value.1, VolumeOrigin)
              && SubPathsOk(app, r.value.2) && RecordsMore(app, files, refs, subPaths, r.value.2)
              && (forall vol, sub :: Records(subPaths, vol, sub) ==> Records(r.value.2, vol, sub))
              && (forall i :: 0 <= i < |r.value.0| ==> VolumeResolved(app, r.value.2, r.value.0[i]))
  {
    hide ResolveVolume, RecordsMore;
    var mounts: seq<Mount> := [];
    var mappings: seq<Mapping> := [];
    var out := subPaths;
    NothingRecorded(app, files, refs[..0], subPaths);
    for i := 0 to |refs|
      invariant |mounts| == i && Mapped(mounts, mappings, VolumeOrigin)
      invariant forall j :: 0 <= j < i ==>
                  ResolveVolume(app, files, refs[j]).Ok? && mounts[j] == VolumeMount(app, files, refs[j])
      invariant SubPathsOk(app, out) && RecordsMore(app, files, refs[..i], subPaths, out)
      invariant forall vol, sub :: Records(subPaths, vol, sub) ==> Records(out, vol, sub)
      invariant forall j :: 0 <= j < i ==> VolumeResolved(app, out, mounts[j])
    {
      hide HasVolume;
      var v := refs[i];
      var found := ResolveVolume(app, files, v);
      if found.Err? {
        return Err(found.error);
      }
      var (vol, sub) := found.value;
      ResolvedIsAppVolume(app, files, v);
      RecordOneMore(app, files, refs, i, subPaths, out, vol, sub);
      mappings := mappings + [Mapping(VolumeOrigin, v.source, v.target)];
      if sub != "" {
        AddSubPath(app, out, vol, sub);
        out := out[vol := (if vol in out then out[vol] else {}) + {sub}];
      }
      mounts := mounts + [Mount(vol, v.target, sub, false)];
    }
    assert refs[..|refs|] == refs;
    return Ok((mounts, mappings, out));
  }

  lemma NothingRecorded(app: App, files: Files, none: seq<VolumeRef>, m: SubPaths)
    requires none == []
    ensures RecordsMore(app, files, none, m, m)
  {
    hide ResolveVolume;
  }

  lemma AddSubPath(app: App, m: SubPaths, vol: string, sub: string)
    requires SubPathsOk(app, m) && HasVolume(app, vol) && sub != ""
    ensures var n := m[vol := (if vol in m then m[vol] else {}) + {sub}];
            && SubPathsOk(app, n) && Records(n, vol, sub)
            && forall v, s :: Records(m, v, s) ==> Records(n, v, s)
  {
    hide HasVolume;
    var n := m[vol := (if vol in m then m[vol] else {}) + {sub}];
    assert sub in n[vol];
  }

  // ---------- conflicting targets

  predicate IsFile(m: Mapping) {
    m.origin.FileOrigin?
  }

  /** Two files of a service take the same path. */
  ghost predicate FilesClash(ms: seq<Mapping>) {
    exists i, j :: 0 <= i < j < |ms| && IsFile(ms[i]) && IsFile(ms[j]) && ms[i].target == ms[j].target
  }

  /** A volume and a file of a service take this path. */
  ghost predicate Contested(ms: seq<Mapping>, target: string) {
    && (exists i :: 0 <= i < |ms| && IsFile(ms[i]) && ms[i].target == target)
    && (exists j :: 0 <= j < |ms| && !IsFile(ms[j]) && ms[j].target == target)
  }

  function At(ms: seq<Mapping>, target: string): seq<Mapping> {
    if ms == [] then []
    else
      var rest := At(ms[..|ms| - 1], target);
      if ms[|ms| - 1].target == target then rest + [ms[|ms| - 1]] else rest
  }

  function CountFiles(ms: seq<Mapping>): nat {
    if ms == [] then 0 else CountFiles(ms[..|ms| - 1]) + if IsFile(ms[|ms| - 1]) then 1 else 0
  }

  lemma AtSnoc(ms: seq<Mapping>, m: Mapping, target: string)
    ensures At(ms + [m], target) == if m.target == target then At(ms, target) + [m] else At(ms, target)
    ensures CountFiles(ms + [m]) == CountFiles(ms) + if IsFile(m) then 1 else 0
  {
    assert (ms + [m])[..|ms|] == ms;
  }

  /** How many of the mappings at a path are files, and how many are not. */
  function FilesTo(ms: seq<Mapping>, target: string): nat {
    CountFiles(At(ms, target))
  }

  lemma FilesToSnoc(ms: seq<Mapping>, m: Mapping, target: string)
    ensures FilesTo(ms + [m], target) == FilesTo(ms, target) + if IsFile(m) && m.target == target then 1 else 0
    ensures |At(ms + [m], target)| == |At(ms, target)| + if m.target == target then 1 else 0
  {
    AtSnoc(ms, m, target);
    AtSnoc(At(ms, target), m, target);
  }

  lemma {:induction false} FilesAtNone(ms: seq<Mapping>, target: string)
    ensures FilesTo(ms, target) == 0 <==> forall i :: 0 <= i < |ms| && IsFile(ms[i]) ==> ms[i].target != target
    ensures FilesTo(ms, target) <= |At(ms, target)|
    ensures FilesTo(ms, target) == |At(ms, target)| <==>
            forall i :: 0 <= i < |ms| && !IsFile(ms[i]) ==> ms[i].target != target
  {
    if ms != [] {
      var rest, last := ms[..|ms| - 1], ms[|ms| - 1];
      assert ms == rest + [last];
      hide At, FilesTo, IsFile;
      FilesAtNone(rest, target);
      FilesToSnoc(rest, last, target);
    }
  }

  lemma {:induction false} FilesAtTwo(ms: seq<Mapping>, target: string)
    ensures FilesTo(ms, target) > 1 <==>
            exists i, j :: 0 <= i < j < |ms| && IsFile(ms[i]) && IsFile(ms[j]) && ms[i].target == ms[j].target == target
  {
    if ms != [] {
      var rest, last := ms[..|ms| - 1], ms[|ms| - 1];
      assert ms == rest + [last];
      hide At, FilesTo, IsFile;
      FilesAtTwo(rest, target);
      FilesAtNone(rest, target);
      FilesToSnoc(rest, last, target);
      if FilesTo(rest, target) == 1 && IsFile(last) && last.target == target {
        var i :| 0 <= i < |rest| && IsFile(rest[i]) && rest[i].target == target;
        assert ms[i] == rest[i] && ms[|rest|] == last;
      }
    }
  }

  lemma SplitDecides(ms: seq<Mapping>, t: string)
    ensures Crowded(ms, t) <==> CountFiles(At(ms, t)) > 1
    ensures Mixed(ms, t) <==> 0 < CountFiles(At(ms, t)) < |At(ms, t)|
  {
  }

  ghost function Targets(ms: seq<Mapping>): set<string> {
    set j | 0 <= j < |ms| :: ms[j].target
  }

  ghost predicate Grouped(groups: map<string, seq<Mapping>>, ms: seq<Mapping>) {
    && groups.Keys == Targets(ms)
    && forall t :: t in groups ==> groups[t] == At(ms, t)
  }

  lemma {:induction false} NoneAt(ms: seq<Mapping>, t: string)
    requires t !in Targets(ms)
    ensures At(ms, t) == []
  {
    if ms != [] {
      var front := ms[..|ms| - 1];
      assert forall j :: 0 <= j < |front| ==> front[j].target == ms[j].target;
      NoneAt(front, t);
    }
  }

  lemma GroupedMore(groups: map<string, seq<Mapping>>, ms: seq<Mapping>, m: Mapping)
    requires Grouped(groups, ms)
    ensures Grouped(groups[m.target := (if m.target in groups then groups[m.target] else []) + [m]], ms + [m])
  {
    var more := ms + [m];
    assert Targets(more) == Targets(ms) + {m.target} by { TargetsMore(ms, m); }
    if m.target !in groups {
      NoneAt(ms, m.target);
    }
    forall t { AtSnoc(ms, m, t); }
    hide At, Targets;
  }

  lemma TargetsMore(ms: seq<Mapping>, m: Mapping)
    ensures Targets(ms + [m]) == Targets(ms) + {m.target}
  {
    var more := ms + [m];
    assert more[|ms|] == m;
    forall t | t in Targets(ms) ensures t in Targets(more) {
      var j :| 0 <= j < |ms| && ms[j].target == t;
      assert more[j].target == t;
    }
  }

  /** The mappings of a service, grouped by target path. */
  method GroupByTarget(ms: seq<Mapping>) returns (groups: map<string, seq<Mapping>>)
    ensures Grouped(groups, ms)
  {
    groups := map[];
    assert Grouped(groups, ms[..0]);
    for i := 0 to |ms|
      invariant Grouped(groups, ms[..i])
    {
      hide Grouped;
      GroupedMore(groups, ms[..i], ms[i]);
      assert ms[..i + 1] == ms[..i] + [ms[i]];
      var t := ms[i].target;
      groups := groups[t := (if t in groups then groups[t] else []) + [ms[i]]];
    }
    assert ms[..|ms|] == ms;
  }

  /** checkTargetConflict: whether there are errors, and whether there are warnings. */
  method CheckTargetConflict(ms: seq<Mapping>) returns (errors: nat, warnings: nat)
    ensures errors > 0 <==> FilesClash(ms)
    ensures warnings > 0 <==> exists t :: Contested(ms, t)
  {
    hide At, CountFiles, Crowded, Mixed, FilesClash, Contested, Targets;
    var groups := GroupByTarget(ms);
    errors, warnings := 0, 0;
    var visit := Enumerate(groups);
    for i := 0 to |visit|
      invariant errors > 0 <==> exists j :: 0 <= j < i && Crowded(ms, visit[j])
      invariant warnings > 0 <==> exists j :: 0 <= j < i && Mixed(ms, visit[j])
    {
      var t := visit[i];
      assert t in Elements(visit);
      var files, volumes := SplitByOrigin(groups[t]);
      SplitDecides(ms, t);
      if |groups[t]| == 1 {
        continue;
      }
      if files > 1 {
        errors := errors + 1;
      }
      if files > 0 && volumes > 0 {
        warnings := warnings + volumes;
      }
    }
    Verdicts(ms, visit);
  }

  method SplitByOrigin(group: seq<Mapping>) returns (files: nat, volumes: nat)
    ensures files == CountFiles(group) && volumes == |group| - CountFiles(group) && files + volumes == |group|
  {
    hide IsFile;
    files, volumes := 0, 0;
    for k := 0 to |group|
      invariant files == CountFiles(group[..k]) && volumes == k - files
    {
      assert group[..k + 1][..k] == group[..k] && group[..k + 1][k] == group[k];
      if IsFile(group[k]) {
        files := files + 1;
      } else {
        volumes := volumes + 1;
      }
    }
    assert group[..|group|] == group;
  }

  /** More than one file takes the path. */
  predicate Crowded(ms: seq<Mapping>, t: string) {
    FilesTo(ms, t) > 1
  }

  /** A file takes the path and so does something that is no file. */
  predicate Mixed(ms: seq<Mapping>, t: string) {
    0 < FilesTo(ms, t) < |At(ms, t)|
  }

  lemma CountsDecide(ms: seq<Mapping>, t: string)
    ensures Crowded(ms, t) ==> FilesClash(ms)
    ensures Contested(ms, t) <==> Mixed(ms, t)
  {
    FilesAtNone(ms, t);
    FilesAtTwo(ms, t);
    hide At, CountFiles, IsFile;
  }

  lemma ClashCrowds(ms: seq<Mapping>) returns (t: string)
    requires FilesClash(ms)
    ensures Crowded(ms, t) && exists i :: 0 <= i < |ms| && ms[i].target == t
  {
    hide At, CountFiles, IsFile;
    var i, j :| 0 <= i < j < |ms| && IsFile(ms[i]) && IsFile(ms[j]) && ms[i].target == ms[j].target;
    t := ms[i].target;
    FilesAtTwo(ms, t);
  }

  lemma Verdicts(ms: seq<Mapping>, visit: seq<string>)
    requires Elements(visit) == Targets(ms)
    ensures FilesClash(ms) <==> exists j :: 0 <= j < |visit| && Crowded(ms, visit[j])
    ensures (exists t :: Contested(ms, t)) <==> exists j :: 0 <= j < |visit| && Mixed(ms, visit[j])
  {
    hide Crowded, Mixed, IsFile;
    forall t { CountsDecide(ms, t); }
    forall i | 0 <= i < |ms| ensures exists k :: 0 <= k < |visit| && visit[k] == ms[i].target {
      assert ms[i].target in Elements(visit);
    }
    if FilesClash(ms) {
      var t := ClashCrowds(ms);
      var k :| 0 <= k < |visit| && visit[k] == t;
      assert Crowded(ms, visit[k]);
    }
    if exists t :: Contested(ms, t) {
      var t :| Contested(ms, t);
      var j :| 0 <= j < |ms| && !IsFile(ms[j]) && ms[j].target == t;
      var k :| 0 <= k < |visit| && visit[k] == t;
      assert Mixed(ms, visit[k]);
    }
    if exists j :: 0 <= j < |visit| && Mixed(ms, visit[j]) {
      var j :| 0 <= j < |visit| && Mixed(ms, visit[j]);
      assert Contested(ms, visit[j]);
    }
  }

  // ---------- one container

  /** An app volume has a name that no file's volume can have. */
  ghost predicate PlainNames(app: App) {
    forall i :: 0 <= i < |app.volumes| ==>
      !HasPrefix(app.volumes[i].name, "cfg-") && !HasPrefix(app.volumes[i].name, "sec-")
  }

  lemma FileVolumeIsNoAppVolume(app: App, kind: FileKind, name: string)
    requires PlainNames(app)
    ensures !HasVolume(app, FileVolumeName(kind, name))
  {
    assert HasPrefix("cfg-" + name, "cfg-") && HasPrefix("sec-" + name, "sec-");
  }

  /** Everything later steps need to know about a mount. */
  ghost predicate Resolved(app: App, st: MountState, m: Mount) {
    || VolumeResolved(app, st.subPaths, m)
    || FileResolved(ConfigFile, st.configs, m)
    || FileResolved(SecretFile, st.secrets, m)
  }

  /** What the services visited so far have recorded. */
  datatype MountState = MountState(subPaths: SubPaths, configs: FileTable, secrets: FileTable)

  ghost predicate StateOk(app: App, component: string, project: Project, st: MountState) {
    && SubPathsOk(app, st.subPaths)
    && TableOk(st.configs, ConfigFile, app.name, component, project)
    && TableOk(st.secrets, SecretFile, app.name, component, project)
  }

  /** Later states know everything earlier states knew. */
  ghost predicate Extends(st: MountState, st': MountState) {
    && (forall vol, sub :: Records(st.subPaths, vol, sub) ==> Records(st'.subPaths, vol, sub))
    && (forall s :: s in st.configs ==> s in st'.configs && st'.configs[s] == st.configs[s])
    && (forall s :: s in st.secrets ==> s in st'.secrets && st'.secrets[s] == st.secrets[s])
  }

  lemma FileResolvedLater(kind: FileKind, table: FileTable, table': FileTable, m: Mount)
    requires forall s :: s in table ==> s in table' && table'[s] == table[s]
    requires FileResolved(kind, table, m)
    ensures FileResolved(kind, table', m)
  {
    var s :| s in table && m.volume == FileVolumeName(kind, s) && m.subPath == table[s].key;
    assert s in table' && m.volume == FileVolumeName(kind, s) && m.subPath == table'[s].key;
  }

  lemma ResolvedLater(app: App, st: MountState, st': MountState, m: Mount)
    requires Extends(st, st') && Resolved(app, st, m)
    ensures Resolved(app, st', m)
  {
    if FileResolved(ConfigFile, st.configs, m) {
      FileResolvedLater(ConfigFile, st.configs, st'.configs, m);
      assert Resolved(app, st', m);
    } else if FileResolved(SecretFile, st.secrets, m) {
      FileResolvedLater(SecretFile, st.secrets, st'.secrets, m);
      assert Resolved(app, st', m);
    } else {
      assert VolumeResolved(app, st'.subPaths, m);
    }
  }

  /** No file shares its path with another mount of the container. */
  ghost predicate PathsApart(mounts: seq<Mount>) {
    forall i, j :: 0 <= i < |mounts| && 0 <= j < |mounts| && i != j && mounts[i].readOnly ==>
      mounts[i].path != mounts[j].path
  }

  /** The mounts of a service's configs and secrets. */
  function ServiceFiles(project: Project, s: Service): seq<Mount> {
    FileMounts(ConfigFile, s.configs, project.configs) + FileMounts(SecretFile, s.secrets, project.secrets)
  }

  function Paths(mounts: seq<Mount>): seq<string> {
    seq(|mounts|, i requires 0 <= i < |mounts| => mounts[i].path)
  }

  /** What Convert requires of a service's mounts; it depends on that service alone. */
  ghost predicate MountsAccepted(app: App, files: Files, project: Project, s: Service) {
    && VolumesAccepted(app, files, s.volumes)
    && (forall i :: 0 <= i < |s.configs| ==> RefOk(s.configs[i], project.configs))
    && (forall i :: 0 <= i < |s.secrets| ==> RefOk(s.secrets[i], project.secrets))
    && NoDup(Paths(ServiceFiles(project, s)))
  }

  /** Kept mounts are mounts, in the order they had. */
  ghost predicate Picks(kept: seq<Mount>, mounts: seq<Mount>, from: seq<nat>) {
    && |from| == |kept|
    && (forall j :: 0 <= j < |kept| ==> from[j] < |mounts| && kept[j] == mounts[from[j]])
    && (forall j, k :: 0 <= j < k < |kept| ==> from[j] < from[k])
  }

  /** The filter on conflicts: mounts of app volumes at a contested path go, everything else stays. */
  ghost function Survivors(app: App, mounts: seq<Mount>, contested: set<string>): seq<Mount> {
    if mounts == [] then []
    else
      var rest, last := Survivors(app, mounts[..|mounts| - 1], contested), mounts[|mounts| - 1];
      if HasVolume(app, last.volume) && last.path in contested then rest else rest + [last]
  }

  method DropContested(app: App, mounts: seq<Mount>, contested: set<string>) returns (kept: seq<Mount>)
    ensures kept == Survivors(app, mounts, contested)
  {
    hide HasVolume;
    kept := [];
    for i := 0 to |mounts|
      invariant kept == Survivors(app, mounts[..i], contested)
    {
      assert mounts[..i + 1][..i] == mounts[..i] && mounts[..i + 1][i] == mounts[i];
      if HasVolume(app, mounts[i].volume) && mounts[i].path in contested {
        continue;
      }
      kept := kept + [mounts[i]];
    }
    assert mounts[..|mounts|] == mounts;
  }

  /** What survives, and from where it comes. */
  lemma {:induction false} SurvivorsPicked(app: App, mounts: seq<Mount>, contested: set<string>)
    returns (from: seq<nat>)
    ensures Picks(Survivors(app, mounts, contested), mounts, from)
    ensures forall m ::
              m in Survivors(app, mounts, contested) <==>
              m in mounts && !(HasVolume(app, m.volume) && m.path in contested)
  {
    hide HasVolume;
    from := [];
    if mounts != [] {
      var front, last := mounts[..|mounts| - 1], mounts[|mounts| - 1];
      assert mounts == front + [last];
      from := SurvivorsPicked(app, front, contested);
      if !(HasVolume(app, last.volume) && last.path in contested) {
        from := from + [|front|];
      }
    }
  }

  lemma {:induction false} NothingContested(app: App, mounts: seq<Mount>)
    ensures Survivors(app, mounts, {}) == mounts
  {
    if mounts != [] {
      NothingContested(app, mounts[..|mounts| - 1]);
    }
  }

  method ContestedTargets(ms: seq<Mapping>) returns (targets: set<string>)
    ensures forall t :: t in targets <==> Contested(ms, t)
  {
    targets := {};
    for i := 0 to |ms|
      invariant forall t :: t in targets <==>
                  && (exists j :: 0 <= j < |ms| && IsFile(ms[j]) && ms[j].target == t)
                  && (exists j :: 0 <= j < i && !IsFile(ms[j]) && ms[j].target == t)
    {
      if IsFile(ms[i]) {
        continue;
      }
      for k := 0 to |ms|
        invariant forall j :: 0 <= j < k ==> !(IsFile(ms[j]) && ms[j].target == ms[i].target)
        invariant forall t :: t in targets <==>
                    && (exists j :: 0 <= j < |ms| && IsFile(ms[j]) && ms[j].target == t)
                    && (exists j :: 0 <= j < i && !IsFile(ms[j]) && ms[j].target == t)
      {
        if IsFile(ms[k]) && ms[k].target == ms[i].target {
          targets := targets + {ms[i].target};
          break;
        }
      }
    }
  }

  // ---------- the mounts of one service

  /** The files' mappings clash exactly when two of their paths are equal. */
  lemma ClashIsDuplicate(volumes: seq<Mapping>, files: seq<Mapping>, mounts: seq<Mount>)
    requires forall i :: 0 <= i < |volumes| ==> !IsFile(volumes[i])
    requires && |files| == |mounts|
             && forall i :: 0 <= i < |files| ==> IsFile(files[i]) && files[i].target == mounts[i].path
    ensures FilesClash(volumes + files) <==> !NoDup(Paths(mounts))
  {
    var ms, paths := volumes + files, Paths(mounts);
    if FilesClash(ms) {
      var i, j :| 0 <= i < j < |ms| && IsFile(ms[i]) && IsFile(ms[j]) && ms[i].target == ms[j].target;
      assert i >= |volumes| && j >= |volumes|;
      assert ms[i] == files[i - |volumes|] && ms[j] == files[j - |volumes|];
      assert paths[i - |volumes|] == paths[j - |volumes|];
    }
    if !NoDup(paths) {
      var i, j :| 0 <= i < j < |paths| && paths[i] == paths[j];
      assert ms[|volumes| + i] == files[i] && ms[|volumes| + j] == files[j];
    }
  }

  lemma PathsDiffer(mappings: seq<Mapping>, x: nat, y: nat)
    requires x < |mappings| && y < |mappings| && x != y && IsFile(mappings[x]) && !FilesClash(mappings)
    requires IsFile(mappings[y]) || !Contested(mappings, mappings[y].target)
    ensures mappings[x].target != mappings[y].target
  {
    hide IsFile;
  }

  /** After the filter no file shares its path: not with another file, whose paths are distinct, and
      not with a volume, whose contested mounts are gone. */
  lemma FilteredApart(app: App, mounts: seq<Mount>, mappings: seq<Mapping>, kept: seq<Mount>, from: seq<nat>)
    requires |mappings| == |mounts|
    requires forall i :: 0 <= i < |mounts| ==>
               mappings[i].target == mounts[i].path && (IsFile(mappings[i]) <==> mounts[i].readOnly)
    requires forall i :: 0 <= i < |mounts| ==> (HasVolume(app, mounts[i].volume) <==> !mounts[i].readOnly)
    requires !FilesClash(mappings) && Picks(kept, mounts, from)
    requires forall m :: m in kept ==> m in mounts && !(HasVolume(app, m.volume) && Contested(mappings, m.path))
    ensures PathsApart(kept)
  {
    hide HasVolume, FilesClash, Contested;
    forall i, j | 0 <= i < |kept| && 0 <= j < |kept| && i != j && kept[i].readOnly
      ensures kept[i].path != kept[j].path
    {
      assert kept[j] in kept;
      PathsDiffer(mappings, from[i], from[j]);
    }
  }

  /** The mounts are such that later steps can serve them. */
  ghost predicate ContainerOk(app: App, st: MountState, mounts: seq<Mount>) {
    && (forall i :: 0 <= i < |mounts| ==> Resolved(app, st, mounts[i]))
    && (PlainNames(app) ==> PathsApart(mounts))
  }

  /** The paths that a volume and a file both take. */
  ghost function ContestedPaths(volumes: seq<Mount>, files: seq<Mount>): set<string> {
    set i, j | 0 <= i < |volumes| && 0 <= j < |files| && volumes[i].path == files[j].path :: volumes[i].path
  }

  /** What a service's container mounts: its volumes, configs and secrets in order, without the
      volumes at contested paths. */
  ghost function MountsFor(app: App, files: Files, project: Project, s: Service): seq<Mount>
    requires VolumesAccepted(app, files, s.volumes)
  {
    var volumes, fs := VolumeMounts(app, files, s.volumes), ServiceFiles(project, s);
    Survivors(app, volumes + fs, ContestedPaths(volumes, fs))
  }

  lemma ContestedByPaths(vm: seq<Mount>, va: seq<Mapping>, cm: seq<Mount>, ca: seq<Mapping>, sm: seq<Mount>,
                         sa: seq<Mapping>, t: string)
    requires && Mapped(vm, va, VolumeOrigin)
             && Mapped(cm, ca, FileOrigin(ConfigFile))
             && Mapped(sm, sa, FileOrigin(SecretFile))
    ensures Contested(va + ca + sa, t) <==> t in ContestedPaths(vm, cm + sm)
  {
    var ms, fm, fa := va + ca + sa, cm + sm, ca + sa;
    assert ms == va + fa;
    assert forall j :: 0 <= j < |fm| ==> IsFile(fa[j]) && fa[j].target == fm[j].path;
    assert forall i :: 0 <= i < |vm| ==> !IsFile(va[i]) && va[i].target == vm[i].path;
    if Contested(ms, t) {
      var j :| 0 <= j < |ms| && IsFile(ms[j]) && ms[j].target == t;
      var i :| 0 <= i < |ms| && !IsFile(ms[i]) && ms[i].target == t;
      assert i < |va| && j >= |va|;
      assert vm[i].path == fm[j - |va|].path;
    }
    if t in ContestedPaths(vm, fm) {
      var i, j :| 0 <= i < |vm| && 0 <= j < |fm| && vm[i].path == fm[j].path && vm[i].path == t;
      assert ms[i] == va[i] && ms[|va| + j] == fa[j];
    }
  }

  /** The volumes, configs and secrets of one service. Its container gets exactly the mounts the
      service asks for, less the contested volumes. */
  method MountService(app: App, component: string, files: Files, project: Project, n: string, st: MountState)
    returns (r: Result<seq<Mount>, MountError>, out: MountState)
    requires n in project.services && StateOk(app, component, project, st)
    ensures StateOk(app, component, project, out) && Extends(st, out)
    ensures r.Ok? <==> MountsAccepted(app, files, project, project.services[n])
    ensures r.Ok? ==>
              && r.value == MountsFor(app, files, project, project.services[n])
              && RecordsMore(app, files, project.services[n].volumes, st.subPaths, out.subPaths)
              && ContainerOk(app, out, r.value)
  {
    hide VolumesAccepted, RefOk, SubPathsOk, TableOk, Resolved, Mapped, FileResolved, VolumeResolved, RecordsMore;
    hide FilesClash, Contested, FileMounts, Survivors, NoDup, VolumeMounts, ContestedPaths, ContainerOk, HasVolume;
    out := st;
    var s := project.services[n];
    var volumes := MountVolumes(app, files, s.volumes, st.subPaths);
    if volumes.Err? {
      return Err(volumes.error), out;
    }
    var configs, configTable := MountFiles(ConfigFile, app.name, component, project, n, st.configs);
    out := out.(configs := configTable);
    if configs.Err? {
      return Err(configs.error), out;
    }
    var secrets, secretTable := MountFiles(SecretFile, app.name, component, project, n, st.secrets);
    out := out.(secrets := secretTable);
    if secrets.Err? {
      return Err(secrets.error), out;
    }
    var mounts := volumes.value.0 + configs.value.0 + secrets.value.0;
    var mappings := volumes.value.1 + configs.value.1 + secrets.value.1;
    out := MountState(volumes.value.2, configTable, secretTable);
    ClashOfParts(project, s, volumes.value.0, volumes.value.1, configs.value.0, configs.value.1, secrets.value.0,
                 secrets.value.1);
    var errors, warnings := CheckTargetConflict(mappings);
    if errors > 0 {
      return Err(TargetConflict), out;
    }
    var contested: set<string> := {};
    var kept := mounts;
    if warnings > 0 {
      contested := ContestedTargets(mappings);
      kept := DropContested(app, mounts, contested);
    }
    NothingContested(app, mounts);
    assert kept == Survivors(app, mounts, contested);
    forall t ensures t in contested <==> Contested(mappings, t) {
    }
    forall t ensures t in contested <==> t in ContestedPaths(volumes.value.0, configs.value.0 + secrets.value.0) {
      ContestedByPaths(volumes.value.0, volumes.value.1, configs.value.0, configs.value.1, secrets.value.0,
                       secrets.value.1, t);
    }
    assert contested == ContestedPaths(volumes.value.0, configs.value.0 + secrets.value.0);
    assert mounts == volumes.value.0 + (configs.value.0 + secrets.value.0);
    PartsResolved(app, out, volumes.value.0, configs.value.0, secrets.value.0);
    KeptOk(app, out, volumes.value.0, volumes.value.1, configs.value.0, configs.value.1, secrets.value.0,
           secrets.value.1, contested);
    return Ok(kept), out;
  }

  lemma ClashOfParts(project: Project, s: Service, vm: seq<Mount>, va: seq<Mapping>, cm: seq<Mount>, ca: seq<Mapping>,
                     sm: seq<Mount>, sa: seq<Mapping>)
    requires && Mapped(vm, va, VolumeOrigin)
             && Mapped(cm, ca, FileOrigin(ConfigFile))
             && Mapped(sm, sa, FileOrigin(SecretFile))
    requires && cm == FileMounts(ConfigFile, s.configs, project.configs)
             && sm == FileMounts(SecretFile, s.secrets, project.secrets)
    ensures FilesClash(va + ca + sa) <==> !NoDup(Paths(ServiceFiles(project, s)))
  {
    hide FileMounts, NoDup;
    assert va + ca + sa == va + (ca + sa);
    ClashIsDuplicate(va, ca + sa, cm + sm);
  }

  lemma PartsResolved(app: App, st: MountState, vm: seq<Mount>, cm: seq<Mount>, sm: seq<Mount>)
    requires forall i :: 0 <= i < |vm| ==> VolumeResolved(app, st.subPaths, vm[i])
    requires forall i :: 0 <= i < |cm| ==> FileResolved(ConfigFile, st.configs, cm[i])
    requires forall i :: 0 <= i < |sm| ==> FileResolved(SecretFile, st.secrets, sm[i])
    ensures forall m :: m in vm + cm + sm ==> Resolved(app, st, m)
  {
    forall m | m in vm + cm + sm ensures Resolved(app, st, m) {
      assert m in vm || m in cm || m in sm;
    }
  }

  lemma KeptOk(app: App, st: MountState, vm: seq<Mount>, va: seq<Mapping>, cm: seq<Mount>, ca: seq<Mapping>,
               sm: seq<Mount>, sa: seq<Mapping>, contested: set<string>)
    requires && Mapped(vm, va, VolumeOrigin)
             && Mapped(cm, ca, FileOrigin(ConfigFile))
             && Mapped(sm, sa, FileOrigin(SecretFile))
    requires forall i :: 0 <= i < |vm| ==> VolumeResolved(app, st.subPaths, vm[i])
    requires forall i :: 0 <= i < |cm| ==> FileResolved(ConfigFile, st.configs, cm[i])
    requires forall i :: 0 <= i < |sm| ==> FileResolved(SecretFile, st.secrets, sm[i])
    requires forall m :: m in vm + cm + sm ==> Resolved(app, st, m)
    requires !FilesClash(va + ca + sa) && forall t :: t in contested <==> Contested(va + ca + sa, t)
    ensures ContainerOk(app, st, Survivors(app, vm + cm + sm, contested))
  {
    hide Resolved, FilesClash, Contested, PathsApart, Picks, Survivors;
    var from := SurvivorsPicked(app, vm + cm + sm, contested);
    var kept := Survivors(app, vm + cm + sm, contested);
    if PlainNames(app) {
      PartsAligned(app, st, vm, va, cm, ca, sm, sa);
      FilteredApart(app, vm + cm + sm, va + ca + sa, kept, from);
    }
  }

  /** Mount by mount: its mapping, and whether it is a file's or an app volume's. */
  lemma PartsAligned(app: App, st: MountState, vm: seq<Mount>, va: seq<Mapping>, cm: seq<Mount>, ca: seq<Mapping>,
                     sm: seq<Mount>, sa: seq<Mapping>)
    requires PlainNames(app)
    requires && Mapped(vm, va, VolumeOrigin)
             && Mapped(cm, ca, FileOrigin(ConfigFile))
             && Mapped(sm, sa, FileOrigin(SecretFile))
    requires forall i :: 0 <= i < |vm| ==> VolumeResolved(app, st.subPaths, vm[i])
    requires forall i :: 0 <= i < |cm| ==> FileResolved(ConfigFile, st.configs, cm[i])
    requires forall i :: 0 <= i < |sm| ==> FileResolved(SecretFile, st.secrets, sm[i])
    ensures var mounts, mappings := vm + cm + sm, va + ca + sa;
            && |mappings| == |mounts|
            && (forall i :: 0 <= i < |mounts| ==>
                  mappings[i].target == mounts[i].path && (IsFile(mappings[i]) <==> mounts[i].readOnly))
            && (forall i :: 0 <= i < |mounts| ==> (HasVolume(app, mounts[i].volume) <==> !mounts[i].readOnly))
  {
    hide PlainNames, HasVolume, FileResolved;
    var mounts, mappings := vm + cm + sm, va + ca + sa;
    forall i | 0 <= i < |mounts|
      ensures mappings[i].target == mounts[i].path && (IsFile(mappings[i]) <==> mounts[i].readOnly)
      ensures HasVolume(app, mounts[i].volume) <==> !mounts[i].readOnly
    {
      if i < |vm| {
        assert mounts[i] == vm[i] && mappings[i] == va[i];
      } else if i < |vm| + |cm| {
        assert mounts[i] == cm[i - |vm|] && mappings[i] == ca[i - |vm|];
        FileMountIsNoVolume(app, ConfigFile, st.configs, mounts[i]);
      } else {
        assert mounts[i] == sm[i - |vm| - |cm|] && mappings[i] == sa[i - |vm| - |cm|];
        FileMountIsNoVolume(app, SecretFile, st.secrets, mounts[i]);
      }
    }
  }

  lemma FileMountIsNoVolume(app: App, kind: FileKind, table: FileTable, m: Mount)
    requires PlainNames(app) && FileResolved(kind, table, m)
    ensures !HasVolume(app, m.volume) && m.readOnly
  {
    var s :| s in table && m.volume == FileVolumeName(kind, s) && m.subPath == table[s].key;
    FileVolumeIsNoAppVolume(app, kind, s);
  }
}
