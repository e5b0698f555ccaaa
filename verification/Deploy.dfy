/** The check that comes before a deployment: each app volume must have one usable assigned disk, and
    then the converter's three steps run on the bindings (usecase/app/validations.go). */
module Deploy {
  import opened Text
  import opened Cloud
  import opened DiskRuns
  import opened Volumes
  import Compose
  import Mounts
  import opened Converters
  import opened Naming
  import PodClosure

  datatype Severity = Warning | Failure

  datatype Issue =
    | PortUnavailable
    | LookupFailed(volume: string)
    | AssignmentMissing(volume: string)
    | AssignmentInvalid(volume: string, count: nat)
    | HandleMissing(volume: string)
    | DriverMissing
    | ClassUnresolved(volume: string)
    | ClassWithoutDriver(volume: string)
    | ConversionFailed

  function SeverityOf(i: Issue): Severity {
    match i
    case PortUnavailable | LookupFailed(_) | AssignmentInvalid(_, _) | HandleMissing(_) => Failure
    case _ => Warning
  }

  predicate HasFailure(issues: seq<Issue>) {
    exists i :: 0 <= i < |issues| && SeverityOf(issues[i]) == Failure
  }

  /** The volume classes a provider driver resolves, by volume name; no driver at all is None. */
  type Classes = Option<map<string, VolumeClass>>

  /** The cloud as the driver shows it for the app, with the sizes of its disks. */
  datatype View = View(driver: Driver, cloud: Resources, sizeOf: VolumeDisk -> int)

  function ViewOf(store: VolumeStore, sizeOf: VolumeDisk -> int): View
    reads store
  {
    View(store.driver, store.cloud, sizeOf)
  }

  // ---------- one volume

  /** What is wrong with a volume, in the order of the tests: one the driver does not find or support
      cannot be looked up; the others have disks in their stores, which can fail to be listed. */
  ghost function Fault(v: View, name: string, classes: Classes): Option<Issue> {
    match Resolve(v.driver, name)
    case Err(_) => Some(LookupFailed(name))
    case Ok(vol) => StoredFault(v.cloud, vol, classes)
  }

  ghost function StoredFault(c: Resources, vol: Volume, classes: Classes): Option<Issue> {
    var keys := AssignedKeys(c, vol);
    if |keys| == 0 then Some(AssignmentMissing(vol.name))
    else if |keys| > 1 then Some(AssignmentInvalid(vol.name, |keys|))
    else
      var k :| k in keys;
      if TrimSpace(c[k].handle) == "" then Some(HandleMissing(vol.name))
      else if classes.None? then Some(DriverMissing)
      else if vol.name !in classes.value then Some(ClassUnresolved(vol.name))
      else if TrimSpace(classes.value[vol.name].csiDriver) == "" then Some(ClassWithoutDriver(vol.name))
      else None
  }

  /** Found, with exactly one assigned disk in its store, a handle on it, and a class with a CSI driver. */
  ghost predicate Ready(v: View, name: string, classes: Classes) {
    Resolve(v.driver, name).Ok? && StoredReady(v.cloud, Resolve(v.driver, name).value, classes)
  }

  ghost predicate StoredReady(c: Resources, vol: Volume, classes: Classes) {
    && ExactlyOne(c, vol)
    && (forall k :: IsAssigned(c, vol, k) ==> TrimSpace(c[k].handle) != "")
    && classes.Some? && vol.name in classes.value && TrimSpace(classes.value[vol.name].csiDriver) != ""
  }

  lemma ReadyExactly(v: View, name: string, classes: Classes)
    ensures Fault(v, name, classes).None? <==> Ready(v, name, classes)
  {
    hide TrimSpace, IsAssigned, AtMostOne, Resolve;
    if Resolve(v.driver, name).Ok? {
      var c, vol := v.cloud, Resolve(v.driver, name).value;
      CountDecides(c, vol);
      var keys := AssignedKeys(c, vol);
      MembersInCloud(c, vol);
      assert forall k :: k in keys <==> IsAssigned(c, vol, k);
      if |keys| == 1 {
        var j :| j in keys;
        OnlyMember(keys, j);
      }
    }
  }

  /** What a reported fault says. */
  lemma FaultMeans(v: View, name: string, classes: Classes)
    ensures Resolve(v.driver, name).Err? <==> Fault(v, name, classes) == Some(LookupFailed(name))
    ensures Resolve(v.driver, name).Ok? ==>
              var keys := AssignedKeys(v.cloud, Resolve(v.driver, name).value);
              match Fault(v, name, classes)
              case None => true
              case Some(AssignmentMissing(w)) => w == name && keys == {}
              case Some(AssignmentInvalid(w, n)) => w == name && |keys| == n > 1
              case Some(HandleMissing(w)) =>
                w == name && |keys| == 1 && forall k :: k in keys ==> TrimSpace(v.cloud[k].handle) == ""
              case Some(DriverMissing) => |keys| == 1 && classes.None?
              case Some(ClassUnresolved(w)) => w == name && |keys| == 1 && classes.Some? && name !in classes.value
              case Some(ClassWithoutDriver(w)) =>
                && w == name && |keys| == 1 && classes.Some? && name in classes.value
                && TrimSpace(classes.value[name].csiDriver) == ""
              case Some(_) => false
  {
    hide TrimSpace, IsAssigned, Resolve;
    if Resolve(v.driver, name).Ok? {
      var vol := Resolve(v.driver, name).value;
      var keys := AssignedKeys(v.cloud, vol);
      if |keys| == 1 {
        var j :| j in keys;
        OnlyMember(keys, j);
      }
    }
  }

  lemma OnlyMember(s: set<Place>, j: Place)
    requires |s| == 1 && j in s
    ensures forall k :: k in s ==> k == j
  {
    assert |s - {j}| == 0;
    forall k | k in s ensures k == j {
      assert k !in s - {j};
    }
  }

  /** A binding made from the volume's one assigned disk and its class. */
  ghost predicate Binds(v: View, name: string, classes: Classes, vb: VolumeBinding) {
    && vb.name == name && vb.disk.Some? && vb.volumeClass.Some?
    && Resolve(v.driver, name).Ok? && IsDiskOf(v, Resolve(v.driver, name).value, vb.disk.value)
    && classes.Some? && name in classes.value && vb.volumeClass.value == classes.value[name]
  }

  /** The handle and the size of the volume's one assigned disk. */
  ghost predicate IsDiskOf(v: View, vol: Volume, disk: Disk) {
    exists k ::
      && IsAssigned(v.cloud, vol, k) && AssignedKeys(v.cloud, vol) == {k}
      && disk == Disk(v.cloud[k].handle, v.sizeOf(VolumeDisk(NameOf(v.cloud[k]), vol.name, true, v.cloud[k].handle)))
  }

  /** The disk was read from an assigned resource of the volume. */
  ghost predicate FromAssigned(c: Resources, vol: Volume, d: VolumeDisk) {
    exists k :: k in AssignedKeys(c, vol) && k in c && d == VolumeDisk(NameOf(c[k]), vol.name, true, c[k].handle)
  }

  lemma ListedAssigned(c: Resources, vol: Volume, disks: seq<VolumeDisk>, keys: seq<Place>, i: nat)
    requires Listing(c, vol, disks, keys) && i < |disks| && disks[i].isAssigned
    ensures FromAssigned(c, vol, disks[i])
  {
    ListedFlags(c, vol, disks, keys, i);
    hide AssignedKeys;
    assert keys[i] in AssignedKeys(c, vol) && keys[i] in c;
    assert disks[i] == VolumeDisk(NameOf(c[keys[i]]), vol.name, true, c[keys[i]].handle);
  }

  /** The assigned disks of a listing: as many as assigned keys, each read from one of them. */
  method SelectAssigned(c: Resources, ghost vol: Volume, disks: seq<VolumeDisk>, ghost keys: seq<Place>)
    returns (picked: seq<VolumeDisk>)
    requires Listing(c, vol, disks, keys)
    ensures |picked| == |AssignedKeys(c, vol)|
    ensures forall j :: 0 <= j < |picked| ==> FromAssigned(c, vol, picked[j])
  {
    hide Listing, AssignedKeys, AssignedAmong, FromAssigned;
    ListedCount(c, vol, disks, keys);
    ListingLength(c, vol, disks, keys);
    picked := [];
    for i := 0 to |disks|
      invariant |picked| == AssignedAmong(c, vol, keys[..i])
      invariant forall j :: 0 <= j < |picked| ==> FromAssigned(c, vol, picked[j])
    {
      ListedFlags(c, vol, disks, keys, i);
      if disks[i].isAssigned {
        ListedAssigned(c, vol, disks, keys, i);
        picked := picked + [disks[i]];
      }
    }
  }

  /** One round of validateAppVolumes. */
  method CheckVolume(name: string, store: VolumeStore?, classes: Classes, sizeOf: VolumeDisk -> int)
    returns (r: Result<VolumeBinding, Issue>)
    ensures r.Err? && store == null ==> r.error == PortUnavailable
    ensures r.Err? && store != null ==>
              r.error == LookupFailed(name) || Fault(ViewOf(store, sizeOf), name, classes) == Some(r.error)
    ensures r.Ok? ==>
              && store != null && Fault(ViewOf(store, sizeOf), name, classes).None?
              && Binds(ViewOf(store, sizeOf), name, classes, r.value)
    ensures r.Ok? ==> fresh(r.value) && r.value.resourceName == ""
  {
    if store == null {
      return Err(PortUnavailable);
    }
    var list, keys := store.DiskList(name);
    if list.Err? {
      return Err(LookupFailed(name));
    }
    hide TrimSpace, Listing, IsAssigned;
    ghost var vol := Resolve(store.driver, name).value;
    var picked := SelectAssigned(store.cloud, vol, list.value, keys);
    if |picked| == 0 {
      return Err(AssignmentMissing(name));
    }
    if |picked| > 1 {
      return Err(AssignmentInvalid(name, |picked|));
    }
    var disk := picked[0];
    ghost var taken := AssignedKeys(store.cloud, vol);
    ghost var k :| k in taken && k in store.cloud
                   && disk == VolumeDisk(NameOf(store.cloud[k]), vol.name, true, store.cloud[k].handle);
    OnlyMember(taken, k);
    if TrimSpace(disk.handle) == "" {
      return Err(HandleMissing(name));
    }
    if classes.None? {
      return Err(DriverMissing);
    }
    if name !in classes.value {
      return Err(ClassUnresolved(name));
    }
    if TrimSpace(classes.value[name].csiDriver) == "" {
      return Err(ClassWithoutDriver(name));
    }
    assert taken == {k};
    var vb := new VolumeBinding(name, Some(Disk(disk.handle, sizeOf(disk))), Some(classes.value[name]), "");
    return Ok(vb);
  }

  // ---------- all volumes

  ghost predicate AllReady(v: View, app: Compose.App, classes: Classes) {
    forall i :: 0 <= i < |app.volumes| ==> Ready(v, app.volumes[i].name, classes)
  }

  /** What may be reported for a volume: nothing or its fault, or that it could not be looked up. */
  ghost predicate Reported(v: Option<View>, name: string, classes: Classes, issue: Option<Issue>) {
    match v
    case None => issue == Some(PortUnavailable)
    case Some(view) => issue == Some(LookupFailed(name)) || issue == Fault(view, name, classes)
  }

  function Somes(outcomes: seq<Option<Issue>>): seq<Issue> {
    if outcomes == [] then []
    else
      var rest, last := Somes(outcomes[..|outcomes| - 1]), outcomes[|outcomes| - 1];
      if last.Some? then rest + [last.value] else rest
  }

  /** The issues are those of the volumes, in order, one at most for each. */
  ghost predicate IssuesFor(app: Compose.App, v: Option<View>, classes: Classes, issues: seq<Issue>) {
    exists outcomes ::
      && |outcomes| == |app.volumes| && issues == Somes(outcomes)
      && forall i :: 0 <= i < |outcomes| ==> Reported(v, app.volumes[i].name, classes, outcomes[i])
  }

  /** validateAppVolumes, for an app with volumes: without lookup failures it is complete exactly when
      every volume is ready, and then has one binding per volume, in order. */
  method ValidateAppVolumes(app: Compose.App, store: VolumeStore?, classes: Classes, sizeOf: VolumeDisk -> int)
    returns (bindings: seq<VolumeBinding?>, issues: seq<Issue>, complete: bool)
    ensures app.volumes == [] ==> complete && bindings == [] && issues == []
    ensures complete && app.volumes != [] ==>
              && store != null && AllReady(ViewOf(store, sizeOf), app, classes) && issues == []
              && |bindings| == |app.volumes|
              && forall i :: 0 <= i < |bindings| ==>
                   bindings[i] != null && fresh(bindings[i]) && bindings[i].resourceName == ""
                   && Binds(ViewOf(store, sizeOf), app.volumes[i].name, classes, bindings[i])
    ensures app.volumes != [] ==>
              IssuesFor(app, if store == null then None else Some(ViewOf(store, sizeOf)), classes, issues)
    ensures !complete ==> issues != [] && bindings == []
    ensures !complete && store != null ==>
              (exists vol :: LookupFailed(vol) in issues) || !AllReady(ViewOf(store, sizeOf), app, classes)
  {
    hide Fault, Ready, Binds, Reported, Somes;
    ghost var outcomes: seq<Option<Issue>> := [];
    ghost var view := if store == null then None else Some(ViewOf(store, sizeOf));
    if |app.volumes| == 0 {
      return [], [], true;
    }
    issues := [];
    bindings := seq(|app.volumes|, _ => null);
    var ready := 0;
    NoOutcomes();
    for i := 0 to |app.volumes|
      invariant |outcomes| == i && issues == Somes(outcomes) && ready + |issues| == i
      invariant forall j :: 0 <= j < i ==> Reported(view, app.volumes[j].name, classes, outcomes[j])
      invariant |bindings| == |app.volumes|
      invariant forall j :: 0 <= j < i && outcomes[j].None? ==>
                  && store != null && bindings[j] != null && fresh(bindings[j]) && bindings[j].resourceName == ""
                  && Binds(ViewOf(store, sizeOf), app.volumes[j].name, classes, bindings[j])
    {
      var vb := CheckVolume(app.volumes[i].name, store, classes, sizeOf);
      ghost var outcome := if vb.Err? then Some(vb.error) else None;
      assert Reported(view, app.volumes[i].name, classes, outcome) by {
        ReportedNow(view, app.volumes[i].name, classes, outcome);
      }
      SomesSnoc(outcomes, outcome);
      outcomes := outcomes + [outcome];
      if vb.Err? {
        issues := issues + [vb.error];
        continue;
      }
      bindings := bindings[i := vb.value];
      ready := ready + 1;
    }
    SomesMembers(outcomes);
    Verdict(app, view, classes, outcomes);
    if ready != |app.volumes| {
      return [], issues, false;
    }
    return bindings, issues, true;
  }

  lemma NoOutcomes()
    ensures Somes([]) == []
  {
  }

  lemma SomesSnoc(outcomes: seq<Option<Issue>>, last: Option<Issue>)
    ensures Somes(outcomes + [last]) == if last.Some? then Somes(outcomes) + [last.value] else Somes(outcomes)
  {
    assert (outcomes + [last])[..|outcomes|] == outcomes;
  }

  lemma {:induction false} SomesMembers(outcomes: seq<Option<Issue>>)
    ensures Somes(outcomes) == [] <==> forall j :: 0 <= j < |outcomes| ==> outcomes[j].None?
    ensures forall j :: 0 <= j < |outcomes| && outcomes[j].Some? ==> outcomes[j].value in Somes(outcomes)
  {
    if outcomes != [] {
      var front, last := outcomes[..|outcomes| - 1], outcomes[|outcomes| - 1];
      assert outcomes == front + [last];
      SomesMembers(front);
    }
  }

  lemma ReportedNow(v: Option<View>, name: string, classes: Classes, issue: Option<Issue>)
    requires v.None? ==> issue == Some(PortUnavailable)
    requires v.Some? ==> issue == Some(LookupFailed(name)) || issue == Fault(v.value, name, classes)
    ensures Reported(v, name, classes, issue)
  {
  }

  /** What the outcomes of all volumes say: none has an issue exactly when all are ready, unless a
      lookup failed. */
  lemma Verdict(app: Compose.App, v: Option<View>, classes: Classes, outcomes: seq<Option<Issue>>)
    requires |outcomes| == |app.volumes| && app.volumes != []
    requires forall j :: 0 <= j < |outcomes| ==> Reported(v, app.volumes[j].name, classes, outcomes[j])
    ensures IssuesFor(app, v, classes, Somes(outcomes))
    ensures Somes(outcomes) == [] ==> v.Some? && AllReady(v.value, app, classes)
    ensures Somes(outcomes) != [] && v.Some? ==>
              (exists vol :: LookupFailed(vol) in Somes(outcomes)) || !AllReady(v.value, app, classes)
  {
    SomesMembers(outcomes);
    hide Fault, Ready, Somes;
    forall j | 0 <= j < |outcomes| && v.Some? {
      ReadyExactly(v.value, app.volumes[j].name, classes);
    }
    if Somes(outcomes) == [] {
      assert outcomes[0].None?;
    }
  }

  /** Every volume's name is not empty and needs no trimming, as labels do. */
  predicate NamesTrimmed(app: Compose.App) {
    forall i :: 0 <= i < |app.volumes| ==>
      app.volumes[i].name != "" && TrimSpace(app.volumes[i].name) == app.volumes[i].name
  }

  lemma LabelsAreTrimmed(app: Compose.App)
    requires forall i :: 0 <= i < |app.volumes| ==> IsDNS1123Label(app.volumes[i].name)
    ensures NamesTrimmed(app)
  {
    hide TrimSpace, IsDNS1123Label;
    forall i | 0 <= i < |app.volumes|
      ensures app.volumes[i].name != "" && TrimSpace(app.volumes[i].name) == app.volumes[i].name
    {
      LabelIsTrimmed(app.volumes[i].name);
    }
  }

  lemma BindsAccepted(v: View, app: Compose.App, i: nat, classes: Classes, vb: VolumeBinding)
    requires i < |app.volumes| && NamesTrimmed(app)
    requires Ready(v, app.volumes[i].name, classes) && Binds(v, app.volumes[i].name, classes, vb)
    ensures BindingAccepted(app, vb)
  {
    hide TrimSpace, ExactlyOne, IsAssigned;
  }

  /** Bindings of ready volumes pass both later steps exactly when the names need no trimming. */
  lemma BindableExactly(v: View, app: Compose.App, classes: Classes, bindings: seq<VolumeBinding?>)
    requires AllReady(v, app, classes) && |bindings| == |app.volumes|
    requires forall i :: 0 <= i < |bindings| ==>
               bindings[i] != null && Binds(v, app.volumes[i].name, classes, bindings[i])
    ensures forall i :: 0 <= i < |bindings| ==> bindings[i].name == app.volumes[i].name
    ensures NamesTrimmed(app) <==>
            forall i :: 0 <= i < |bindings| ==>
              BindingAccepted(app, bindings[i]) && TrimSpace(bindings[i].name) == app.volumes[i].name
  {
    hide TrimSpace, Ready, AssignedKeys, IsAssigned, Mounts.HasVolume;
    if NamesTrimmed(app) {
      forall i | 0 <= i < |bindings| ensures BindingAccepted(app, bindings[i]) {
        BindsAccepted(v, app, i, classes, bindings[i]);
      }
    }
    if forall i :: 0 <= i < |bindings| ==>
           BindingAccepted(app, bindings[i]) && TrimSpace(bindings[i].name) == app.volumes[i].name
    {
      forall i | 0 <= i < |app.volumes|
        ensures app.volumes[i].name != "" && TrimSpace(app.volumes[i].name) == app.volumes[i].name
      {
        assert BindingAccepted(app, bindings[i]);
      }
    }
  }

  // ---------- the whole check

  lemma PlannedHasPlan(conv: Converter, files: Mounts.Files)
    requires conv.Planned(files)
    ensures conv.project.Some? && conv.plan.Some?
  {
  }

  /** BindVolumes and Build on the bindings of ready volumes. */
  method BindAndBuild(conv: Converter, files: Mounts.Files, v: View, classes: Classes,
                      bindings: seq<VolumeBinding?>)
    returns (built: bool)
    requires conv.Planned(files) && Base36(conv.digest)
    requires AllReady(v, conv.app, classes) && |bindings| == |conv.app.volumes|
    requires forall i :: 0 <= i < |bindings| ==>
               && bindings[i] != null && bindings[i].resourceName == ""
               && Binds(v, conv.app.volumes[i].name, classes, bindings[i])
    modifies conv, (set vb: VolumeBinding | vb in bindings)`resourceName
    ensures conv.project == old(conv.project)
    ensures built <==> NamesTrimmed(conv.app)
    ensures built ==> PodClosure.Built(conv, files) && conv.bindings == bindings && DefaultNamed(conv)
  {
    hide TrimSpace, Ready, Binds, BindingAccepted, VolumeResourceName;
    hide NamesTrimmed;
    hide conv.Planned, conv.PodVolumesFor, conv.ChosenName, conv.VolumeFor, conv.ClaimFor, conv.Bound, conv.Aligned;
    BindableExactly(v, conv.app, classes, bindings);
    PlannedHasPlan(conv, files);
    var unbound := conv.BindVolumes(bindings);
    if unbound.Some? {
      return false;
    }
    BoundIsAligned(conv, bindings);
    var unbuilt := conv.Build();
    return unbuilt.None?;
  }

  /** Every binding has its default name. */
  ghost predicate DefaultNamed(conv: Converter)
    reads conv, set vb: VolumeBinding | vb in conv.bindings
  {
    forall i :: 0 <= i < |conv.bindings| && conv.bindings[i] != null && conv.bindings[i].disk.Some? ==>
      conv.bindings[i].resourceName == conv.ChosenName(conv.bindings[i], "")
  }

  /** Bound bindings are aligned exactly when their names, trimmed, are the app's. */
  lemma BoundIsAligned(conv: Converter, bindings: seq<VolumeBinding?>)
    requires conv.Bound() && conv.bindings == bindings && |bindings| == |conv.app.volumes|
    ensures conv.Aligned() <==>
            forall i :: 0 <= i < |bindings| ==>
              bindings[i] != null && TrimSpace(bindings[i].name) == conv.app.volumes[i].name
  {
    hide TrimSpace, BindingAccepted, conv.VolumeFor, conv.ClaimFor;
  }

  /** Default names of bindings for different volumes differ. */
  lemma DefaultNamesDistinct(conv: Converter)
    requires DefaultNamed(conv) && PodClosure.AppNamesDistinct(conv.app) && |conv.bindings| == |conv.app.volumes|
    requires forall i :: 0 <= i < |conv.bindings| && conv.bindings[i] != null ==>
               conv.bindings[i].disk.Some? && conv.bindings[i].name == conv.app.volumes[i].name
    ensures PodClosure.ResourceNamesDistinct(conv)
  {
    hide VolumeResourceName, TrimSpace;
    forall i, j | 0 <= i < j < |conv.bindings| && conv.bindings[i] != null && conv.bindings[j] != null
      ensures conv.bindings[i].resourceName != conv.bindings[j].resourceName
    {
      var a, b := conv.bindings[i], conv.bindings[j];
      TrimmedEmpty();
      VolumeResourceNamesSeparate(conv.digest, conv.hashes, a.name, TrimSpace(a.disk.value.handle), b.name,
                                  TrimSpace(b.disk.value.handle));
    }
  }

  lemma TrimmedEmpty()
    ensures TrimSpace("") == ""
  {
  }

  /** The claim of app volume i leads, over exactly one PVC and one PV, to the disk that is the volume's
      one assigned disk in the cloud. */
  ghost predicate MountsAssigned(conv: Converter, v: View, i: nat)
    reads conv
  {
    && PodClosure.OwnDisk(conv, i) && i < |conv.app.volumes|
    && Resolve(v.driver, conv.app.volumes[i].name).Ok?
    && IsDiskOf(v, Resolve(v.driver, conv.app.volumes[i].name).value, conv.bindings[i].disk.value)
  }

  lemma AssignedMounted(conv: Converter, files: Mounts.Files, v: View, classes: Classes)
    requires PodClosure.Built(conv, files) && DefaultNamed(conv) && PodClosure.AppNamesDistinct(conv.app)
    requires |conv.bindings| == |conv.app.volumes|
    requires forall i :: 0 <= i < |conv.bindings| ==>
               conv.bindings[i] != null && Binds(v, conv.app.volumes[i].name, classes, conv.bindings[i])
    ensures forall i: nat :: i < |conv.app.volumes| ==> MountsAssigned(conv, v, i)
  {
    hide PodClosure.Built, PodClosure.OwnDisk, DefaultNamed, IsDiskOf, PodClosure.AppNamesDistinct, Resolve;
    hide PodClosure.ResourceNamesDistinct;
    DefaultNamesDistinct(conv);
    PodClosure.OwnDisksExactly(conv, files);
  }

  /** The part of validateApp behind the conversion of the Compose text. It builds the app exactly
      when the project is acceptable, every volume is ready and its name needs no trimming, unless
      a listing fails. With distinct volume names the pod then mounts the assigned disks. */
  method ValidateApp(conv: Converter, files: Mounts.Files, store: VolumeStore, classes: Classes,
                     sizeOf: VolumeDisk -> int)
    returns (issues: seq<Issue>, built: bool)
    requires conv.Valid() && Base36(conv.digest)
    modifies conv
    ensures store.cloud == old(store.cloud)
    ensures built ==>
              && PodClosure.Built(conv, files)
              && conv.Acceptable(files) && AllReady(ViewOf(store, sizeOf), conv.app, classes) && NamesTrimmed(conv.app)
              && issues == []
    ensures built && PodClosure.AppNamesDistinct(conv.app) && Mounts.PlainNames(conv.app)
            && PodClosure.NoKeyClash(conv) ==>
              PodClosure.PodClosed(conv)
    ensures built && PodClosure.AppNamesDistinct(conv.app) ==>
              forall i: nat :: i < |conv.app.volumes| ==> MountsAssigned(conv, ViewOf(store, sizeOf), i)
    ensures !built ==>
              || (exists vol :: LookupFailed(vol) in issues)
              || !conv.Acceptable(files)
              || !AllReady(ViewOf(store, sizeOf), conv.app, classes) || !NamesTrimmed(conv.app)
    ensures !built ==> issues != []
  {
    hide Ready, Binds, NamesTrimmed;
    hide conv.Acceptable, conv.Planned, PodClosure.PodClosed, PodClosure.Built, Mounts.PlainNames;
    hide PodClosure.NoKeyClash, PodClosure.AppNamesDistinct, DefaultNamed, MountsAssigned;
    var fault := conv.Convert(files);
    if fault.Some? {
      return [ConversionFailed], false;
    }
    var bindings, bindingIssues, complete := ValidateAppVolumes(conv.app, store, classes, sizeOf);
    if HasFailure(bindingIssues) || !complete {
      return bindingIssues, false;
    }
    built := BindAndBuild(conv, files, ViewOf(store, sizeOf), classes, bindings);
    if built && PodClosure.AppNamesDistinct(conv.app) && Mounts.PlainNames(conv.app) && PodClosure.NoKeyClash(conv) {
      PodClosure.PodIsClosed(conv, files);
    }
    if built && PodClosure.AppNamesDistinct(conv.app) {
      AssignedMounted(conv, files, ViewOf(store, sizeOf), classes);
    }
    return if built then [] else [ConversionFailed], built;
  }

  // ---------- a bootstrap makes the check pass

  predicate SuppliesHandles(supply: seq<(string, string)>) {
    forall i :: 0 <= i < |supply| ==> TrimSpace(supply[i].1) != ""
  }

  /** The provider driver has a class with a CSI driver for every volume of the app. */
  predicate ClassesResolve(app: Compose.App, classes: Classes) {
    classes.Some? && forall i :: 0 <= i < |app.volumes| ==>
      app.volumes[i].name in classes.value && TrimSpace(classes.value[app.volumes[i].name].csiDriver) != ""
  }

  /** Main result: after a bootstrap that creates disks with handles, every volume of the app is ready,
      whether it keeps managed disks or shares, and whatever unassigned disks the volumes had. With
      names that need no trimming, ValidateApp then builds every app it can convert, and a second
      bootstrap changes nothing. */
  lemma BootstrapEnablesDeploy(drv: Driver, app: Compose.App, c: Resources, supply: seq<(string, string)>,
                               classes: Classes, sizeOf: VolumeDisk -> int)
    requires drv.volumes == app.volumes && Inv(drv, c)
    requires Supported(drv) && BootFrom(drv, VolumesOf(drv), c, supply).1
    requires forall i :: 0 <= i < |drv.volumes| && i < |supply| ==> Apart(drv, VolumesOf(drv)[i], supply[i].0)
    requires SuppliesHandles(supply) && ClassesResolve(app, classes)
    ensures var after := BootFrom(drv, VolumesOf(drv), c, supply).0;
            AllReady(View(drv, after, sizeOf), app, classes) && BootApply(drv, after, supply) == after
  {
    BootstrapInitialises(drv, c, supply);
    hide TrimSpace, Inv, BootFrom, BootApply, ExactlyOne, IsAssigned, Apart, Resolve;
    var after := BootFrom(drv, VolumesOf(drv), c, supply).0;
    forall i | 0 <= i < |app.volumes| ensures Ready(View(drv, after, sizeOf), app.volumes[i].name, classes) {
      assert HasDisk(after, VolumesOf(drv)[i], supply[i]);
      assert TrimSpace(supply[i].1) != "";
    }
  }
}
