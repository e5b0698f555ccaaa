/** Disks of volumes in the cloud: what a tagged resource says, which resources a volume owns,
    and the effect of every disk operation on the whole cloud (adapters/drivers/provider/aks/volume.go,
    volume_backend_disk.go, volume_backend_files.go). */
module Cloud {
  import opened Text
  import opened Naming
  import Compose

  /** Disks are managed disks in the app's resource group or shares in its storage account. The two
      differ in resource names and in how a first disk is flagged. */
  datatype Store = ManagedDisks | FileShares

  /** A volume with the store its type selects. */
  datatype Volume = Volume(store: Store, name: string)

  /** A resource's name in its store. */
  datatype Place = Place(store: Store, name: string)

  /** The driver as it serves one app: the ends of resource names, and the app's volumes. */
  datatype Driver = Driver(prefix: string, hash: string, volumes: seq<Compose.AppVolume>)

  /** The tags (or share metadata) that carry a disk's volume, name and assigned flag. */
  datatype Tag = VolumeTag | NameTag | AssignedTag | OtherTag(text: string)

  datatype Resource = Resource(store: Store, tags: map<Tag, string>, handle: string)
  type Resources = map<Place, Resource>

  datatype VolumeDisk = VolumeDisk(name: string, volume: string, isAssigned: bool, handle: string)

  datatype DiskError =
    | CloudFailure
    | DiskNotFound
    | AlreadyExists
    | BadName
    | UnknownVolume
    | UnsupportedType
    | ShareNameTooLong
    | DiskAssigned
    | NoCompactID
    | ConcurrentAssignment
    | InvalidState

  // ---------- from a volume's name to its store

  /** The first volume of that name. */
  function FindVolume(volumes: seq<Compose.AppVolume>, name: string): Option<Compose.AppVolume> {
    if volumes == [] then None
    else if volumes[0].name == name then Some(volumes[0])
    else FindVolume(volumes[1..], name)
  }

  function StoreOf(volumeType: string): Option<Store> {
    if volumeType == "" || volumeType == "disk" then Some(ManagedDisks)
    else if volumeType == "files" then Some(FileShares)
    else None
  }

  /** The step every driver call begins with. */
  function Resolve(drv: Driver, name: string): (r: Result<Volume, DiskError>)
    ensures r.Ok? ==> r.value.name == name
    ensures r.Err? ==> r.error == UnknownVolume || r.error == UnsupportedType
  {
    match FindVolume(drv.volumes, name)
    case None => Err(UnknownVolume)
    case Some(v) =>
      match StoreOf(v.volumeType)
      case None => Err(UnsupportedType)
      case Some(store) => Ok(Volume(store, name))
  }

  /** The volume is one the driver finds. */
  predicate Serves(drv: Driver, vol: Volume) {
    Resolve(drv, vol.name) == Ok(vol)
  }

  predicate FirstOfName(volumes: seq<Compose.AppVolume>, name: string, i: nat) {
    i < |volumes| && volumes[i].name == name && forall j :: 0 <= j < i ==> volumes[j].name != name
  }

  lemma {:induction false} FoundIsFirst(volumes: seq<Compose.AppVolume>, name: string, i: nat)
    requires FirstOfName(volumes, name, i)
    ensures FindVolume(volumes, name) == Some(volumes[i])
  {
    if i > 0 {
      assert volumes[0].name != name;
      assert forall j :: 0 <= j < i - 1 ==> volumes[1..][j].name != name by {
        assert forall j :: 0 <= j < i - 1 ==> volumes[1..][j] == volumes[j + 1];
      }
      FoundIsFirst(volumes[1..], name, i - 1);
    }
  }

  lemma {:induction false} FirstExists(volumes: seq<Compose.AppVolume>, name: string) returns (i: nat)
    requires FindVolume(volumes, name).Some?
    ensures FirstOfName(volumes, name, i)
  {
    if volumes[0].name == name {
      i := 0;
    } else {
      var k := FirstExists(volumes[1..], name);
      i := k + 1;
      assert forall j :: 0 < j < i ==> volumes[j] == volumes[1..][j - 1];
    }
  }

  /** The types that mean a store. */
  function TypesOf(store: Store): set<string> {
    match store
    case ManagedDisks => {"", "disk"}
    case FileShares => {"files"}
  }

  /** The driver serves a volume exactly when the first one of the name has a type that means its store. */
  lemma ServesExactly(drv: Driver, vol: Volume)
    ensures Serves(drv, vol) <==>
            exists i: nat ::
              FirstOfName(drv.volumes, vol.name, i) && drv.volumes[i].volumeType in TypesOf(vol.store)
  {
    forall i: nat | FirstOfName(drv.volumes, vol.name, i)
      ensures FindVolume(drv.volumes, vol.name) == Some(drv.volumes[i])
      ensures StoreOf(drv.volumes[i].volumeType) == Some(vol.store) <==>
              drv.volumes[i].volumeType in TypesOf(vol.store)
    {
      FoundIsFirst(drv.volumes, vol.name, i);
      StoreExactly(drv.volumes[i].volumeType, vol.store);
    }
    hide StoreOf, TypesOf;
    if FindVolume(drv.volumes, vol.name).Some? {
      var i := FirstExists(drv.volumes, vol.name);
    }
  }

  lemma StoreExactly(volumeType: string, store: Store)
    ensures StoreOf(volumeType) == Some(store) <==> volumeType in TypesOf(store)
  {
    assert "disk"[0] != "files"[0];
  }

  predicate Supported(drv: Driver) {
    forall i :: 0 <= i < |drv.volumes| ==> Resolve(drv, drv.volumes[i].name).Ok?
  }

  /** The app's volumes in order. */
  function VolumesOf(drv: Driver): (vs: seq<Volume>)
    requires Supported(drv)
    ensures |vs| == |drv.volumes|
    ensures forall i :: 0 <= i < |vs| ==> Resolve(drv, drv.volumes[i].name) == Ok(vs[i])
  {
    seq(|drv.volumes|, i requires 0 <= i < |drv.volumes| => Resolve(drv, drv.volumes[i].name).value)
  }

  lemma {:induction false} FoundAmong(volumes: seq<Compose.AppVolume>, name: string)
    ensures FindVolume(volumes, name).Some? <==> exists i :: 0 <= i < |volumes| && volumes[i].name == name
  {
    if volumes != [] {
      FoundAmong(volumes[1..], name);
      if i :| 1 <= i < |volumes| && volumes[i].name == name {
        assert volumes[1..][i - 1].name == name;
      }
    }
  }

  lemma ServedIsListed(drv: Driver, vol: Volume)
    requires Supported(drv) && Serves(drv, vol)
    ensures exists i :: 0 <= i < |drv.volumes| && VolumesOf(drv)[i] == vol
  {
    FoundAmong(drv.volumes, vol.name);
    var i :| 0 <= i < |drv.volumes| && drv.volumes[i].name == vol.name;
    assert VolumesOf(drv)[i] == vol;
  }

  // ---------- reading a resource

  function NameOf(r: Resource): string {
    if NameTag in r.tags then r.tags[NameTag] else ""
  }

  /** The resource is a disk of that volume: in its store, with both tags present and not empty. */
  predicate Owns(r: Resource, vol: Volume) {
    r.store == vol.store && VolumeTag in r.tags && r.tags[VolumeTag] == vol.name && vol.name != "" && NameOf(r) != ""
  }

  /** Both tags must be there: a resource without a name tag is no disk of any volume. */
  lemma OwnsExactly(r: Resource, vol: Volume)
    ensures Owns(r, vol) <==>
            && r.store == vol.store && VolumeTag in r.tags && NameTag in r.tags
            && r.tags[VolumeTag] == vol.name != "" && r.tags[NameTag] != ""
    ensures Owns(r, vol) ==> NameOf(r) == r.tags[NameTag]
  {
  }

  /** The assigned tag reads true in any letter case. */
  predicate Flag(r: Resource) {
    AssignedTag in r.tags && ToLower(r.tags[AssignedTag]) == "true"
  }

  /** newDisk: the volume's disk a resource stands for, if it does. */
  function ReadDisk(r: Resource, vol: Volume): Option<VolumeDisk> {
    if Owns(r, vol) then Some(VolumeDisk(NameOf(r), vol.name, Flag(r), r.handle)) else None
  }

  /** Every way of writing the word counts, and nothing but such a word. */
  lemma FlagExactly(r: Resource)
    ensures Flag(r) <==>
            && AssignedTag in r.tags && |r.tags[AssignedTag]| == 4
            && r.tags[AssignedTag][0] in "tT" && r.tags[AssignedTag][1] in "rR"
            && r.tags[AssignedTag][2] in "uU" && r.tags[AssignedTag][3] in "eE"
  {
    if AssignedTag in r.tags {
      LowerOfFour(r.tags[AssignedTag]);
    }
  }

  lemma LowerOfFour(s: string)
    ensures |ToLower(s)| == |s|
    ensures |s| == 4 ==> ToLower(s) == [LowerChar(s[0]), LowerChar(s[1]), LowerChar(s[2]), LowerChar(s[3])]
  {
    LoweredExactly(s);
    if |s| == 4 {
      assert s[1..][0] == s[1] && s[1..][1..] == s[2..] && s[2..][0] == s[2] && s[2..][1..] == s[3..];
      assert s[3..][0] == s[3] && s[3..][1..] == "";
    }
  }

  function Mark(r: Resource, isAssigned: bool): Resource {
    r.(tags := r.tags[AssignedTag := if isAssigned then "true" else "false"])
  }

  lemma MarkFlags(r: Resource, isAssigned: bool, vol: Volume)
    ensures Flag(Mark(r, isAssigned)) == isAssigned
    ensures Owns(Mark(r, isAssigned), vol) <==> Owns(r, vol)
    ensures Owns(r, vol) ==> NameOf(Mark(r, isAssigned)) == NameOf(r)
  {
    TrueIsLower();
  }

  lemma TrueIsLower()
    ensures ToLower("true") == "true" && ToLower("false") != "true"
  {
    ToLowerConcat("tr", "ue");
    assert ToLower("tr") == "tr" && ToLower("ue") == "ue" && "tr" + "ue" == "true";
    assert ToLower("false")[0] == 'f';
  }

  // ---------- the key of a disk

  const MAX_SHARE_NAME: nat := 41

  function Key(drv: Driver, vol: Volume, disk: string): Option<Place> {
    match vol.store
    case ManagedDisks =>
      (match AppDiskName(drv.prefix, drv.hash, vol.name, disk)
       case Ok(name) => Some(Place(ManagedDisks, name))
       case Err(_) => None)
    case FileShares => Some(Place(FileShares, vol.name + "-" + disk))
  }

  /** Every disk of the app's volumes lies under the key its tags determine. The operations below rely
      on it and keep it. */
  ghost predicate Consistent(drv: Driver, c: Resources) {
    forall k, vol :: k in c && Serves(drv, vol) && Owns(c[k], vol) ==> Key(drv, vol, NameOf(c[k])) == Some(k)
  }

  predicate IsDisk(c: Resources, vol: Volume, disk: string, k: Place) {
    k in c && Owns(c[k], vol) && NameOf(c[k]) == disk
  }

  predicate Taken(c: Resources, vol: Volume, disk: string) {
    exists k :: k in c && IsDisk(c, vol, disk, k)
  }

  predicate IsAssigned(c: Resources, vol: Volume, k: Place) {
    k in c && Owns(c[k], vol) && Flag(c[k])
  }

  ghost function AssignedKeys(c: Resources, vol: Volume): set<Place> {
    set k | k in c && IsAssigned(c, vol, k)
  }

  ghost predicate AtMostOne(c: Resources, vol: Volume) {
    forall j, k :: IsAssigned(c, vol, j) && IsAssigned(c, vol, k) ==> j == k
  }

  ghost predicate ExactlyOne(c: Resources, vol: Volume) {
    AtMostOne(c, vol) && exists k :: IsAssigned(c, vol, k)
  }

  ghost predicate NoneAssigned(c: Resources, vol: Volume) {
    forall k :: !IsAssigned(c, vol, k)
  }

  /** The count the code compares with 0 and 1. */
  lemma CountDecides(c: Resources, vol: Volume)
    ensures |AssignedKeys(c, vol)| == 0 <==> NoneAssigned(c, vol)
    ensures |AssignedKeys(c, vol)| == 1 <==> ExactlyOne(c, vol)
    ensures |AssignedKeys(c, vol)| <= 1 <==> AtMostOne(c, vol)
  {
    hide IsAssigned;
    var s := AssignedKeys(c, vol);
    assert forall k :: k in s <==> k in c && IsAssigned(c, vol, k);
    assert forall k :: IsAssigned(c, vol, k) ==> k in s by { MembersInCloud(c, vol); }
    if |s| >= 1 {
      var k :| k in s;
      assert |s - {k}| == |s| - 1;
      if |s| >= 2 {
        var j :| j in s - {k};
        assert !AtMostOne(c, vol);
      } else {
        assert s == {k};
      }
    }
  }

  lemma MembersInCloud(c: Resources, vol: Volume)
    ensures forall k :: IsAssigned(c, vol, k) ==> k in c
  {
  }

  // ---------- assignment

  /** The disk's flag is not what assigning disk name to the volume asks for. */
  predicate WrongAt(r: Resource, vol: Volume, name: string) {
    Owns(r, vol) && Flag(r) != (NameOf(r) == name)
  }

  ghost function Wrong(c: Resources, vol: Volume, name: string): set<Place> {
    set k | k in c && WrongAt(c[k], vol, name)
  }

  /** The cloud once the wrong flags among the keys done are corrected. */
  ghost function Fixed(c: Resources, vol: Volume, name: string, done: set<Place>): Resources {
    map k | k in c :: if k in done && WrongAt(c[k], vol, name) then Mark(c[k], NameOf(c[k]) == name) else c[k]
  }

  /** A completed assignment. */
  ghost function Assigned(c: Resources, vol: Volume, name: string): Resources {
    Fixed(c, vol, name, c.Keys)
  }

  /** Correcting one more key rewrites that resource when it was wrong, and nothing otherwise. */
  lemma FixedStep(c: Resources, vol: Volume, name: string, done: set<Place>, k: Place)
    requires k in c && k !in done
    ensures Fixed(c, vol, name, done)[k] == c[k]
    ensures Fixed(c, vol, name, done + {k}) ==
            if WrongAt(c[k], vol, name) then Fixed(c, vol, name, done)[k := Mark(c[k], NameOf(c[k]) == name)]
            else Fixed(c, vol, name, done)
  {
    hide WrongAt, Mark;
  }

  /** What corrections keep: keys, owners, names, other volumes' flags; and what they achieve. */
  lemma FixedEffect(c: Resources, vol: Volume, name: string, done: set<Place>)
    ensures var f := Fixed(c, vol, name, done);
            && f.Keys == c.Keys
            && (forall k, w :: k in c ==> (Owns(f[k], w) <==> Owns(c[k], w)))
            && (forall k, w :: k in c && Owns(c[k], w) ==> NameOf(f[k]) == NameOf(c[k]))
            && (forall k, w :: k in c && Owns(c[k], w) && w != vol ==> f[k] == c[k])
            && Wrong(f, vol, name) == Wrong(c, vol, name) - done
  {
    var f := Fixed(c, vol, name, done);
    forall k, w | k in c
      ensures Owns(f[k], w) <==> Owns(c[k], w)
      ensures Owns(c[k], w) ==> NameOf(f[k]) == NameOf(c[k])
      ensures Owns(c[k], w) && w != vol ==> f[k] == c[k]
    {
      MarkFlags(c[k], NameOf(c[k]) == name, w);
    }
    forall k | k in c ensures k in Wrong(f, vol, name) <==> k in Wrong(c, vol, name) - done {
      MarkFlags(c[k], NameOf(c[k]) == name, vol);
    }
  }

  lemma FixedConsistent(drv: Driver, c: Resources, vol: Volume, name: string, done: set<Place>)
    requires Consistent(drv, c)
    ensures Consistent(drv, Fixed(c, vol, name, done))
  {
    hide Key, Owns, Fixed;
    FixedEffect(c, vol, name, done);
  }

  /** After an assignment the volume's assigned disk is the named one and no other; the other
      volumes keep theirs. */
  lemma AssignedEffect(c: Resources, vol: Volume, name: string)
    ensures var a := Assigned(c, vol, name);
            && (forall k :: IsAssigned(a, vol, k) <==> IsDisk(c, vol, name, k))
            && (forall k, w :: w != vol ==> (IsAssigned(a, w, k) <==> IsAssigned(c, w, k)))
            && Wrong(a, vol, name) == {}
  {
    var a := Assigned(c, vol, name);
    FixedEffect(c, vol, name, c.Keys);
    forall k ensures IsAssigned(a, vol, k) <==> IsDisk(c, vol, name, k) {
      if k in c {
        assert k !in Wrong(a, vol, name);
        assert !WrongAt(a[k], vol, name);
      }
    }
    forall k, w | w != vol ensures IsAssigned(a, w, k) <==> IsAssigned(c, w, k) {
      if k in c {
        assert Owns(a[k], w) <==> Owns(c[k], w);
      }
    }
  }

  /** Under consistency a named disk of an app's volume is unique. */
  lemma NamedDiskUnique(drv: Driver, c: Resources, vol: Volume, name: string, j: Place, k: Place)
    requires Consistent(drv, c) && Serves(drv, vol) && IsDisk(c, vol, name, j) && IsDisk(c, vol, name, k)
    ensures j == k && Key(drv, vol, name) == Some(k)
  {
    hide Key;
  }

  // ---------- creation

  /** The resource a create call puts: unassigned, except the first share of a volume. */
  function NewResource(vol: Volume, name: string, first: bool, handle: string): Resource {
    var flag := if vol.store.FileShares? && first then "true" else "false";
    Resource(vol.store, map[VolumeTag := vol.name, NameTag := name, AssignedTag := flag], handle)
  }

  predicate NoDisks(c: Resources, vol: Volume) {
    forall k :: k in c ==> !Owns(c[k], vol)
  }

  function CreateName(disk: string, id: string): string {
    if TrimSpace(disk) == "" then id else TrimSpace(disk)
  }

  /** The name a caller gives counts without the spaces around it; a blank one makes the code generate one. */
  lemma CreateNameExactly(a: string, name: string, b: string, id: string)
    requires Spaces(a) && Spaces(b) && Trimmed(name)
    ensures CreateName(a + name + b, id) == if name != "" then name else id
  {
    TrimsSpaces(a, name, b);
  }

  /** What a create call without a source puts where, or why it refuses. A managed disk under a
      generated ID is not looked up among the existing names; a share always is. */
  function CreateSpec(drv: Driver, c: Resources, vol: Volume, disk: string, id: string, handle: string)
    : Result<(Place, Resource), DiskError>
  {
    var name := CreateName(disk, id);
    match vol.store
    case ManagedDisks =>
      if TrimSpace(disk) != "" && Taken(c, vol, name) then Err(AlreadyExists)
      else if Key(drv, vol, name).None? then Err(BadName)
      else Ok((Key(drv, vol, name).value, NewResource(vol, name, false, handle)))
    case FileShares =>
      if |vol.name + "-" + name| > MAX_SHARE_NAME then Err(ShareNameTooLong)
      else if Taken(c, vol, name) then Err(AlreadyExists)
      else Ok((Place(FileShares, vol.name + "-" + name), NewResource(vol, name, NoDisks(c, vol), handle)))
  }

  /** What a create call that succeeds does to the flags: it adds at most its own key, to a volume
      that has none, and takes away at most the key it overwrites. */
  lemma CreateEffect(drv: Driver, c: Resources, vol: Volume, disk: string, id: string, handle: string)
    requires Consistent(drv, c) && CreateSpec(drv, c, vol, disk, id, handle).Ok?
    ensures var (key, r) := CreateSpec(drv, c, vol, disk, id, handle).value;
            var n := c[key := r];
            && Consistent(drv, n)
            && Key(drv, vol, CreateName(disk, id)) == Some(key)
            && (forall k, w :: k != key ==> (IsAssigned(n, w, k) <==> IsAssigned(c, w, k)))
            && (forall w :: w != vol ==> !IsAssigned(n, w, key))
            && (IsAssigned(n, vol, key) ==> NoneAssigned(c, vol))
            && (vol.name != "" && CreateName(disk, id) != "" ==> IsDisk(n, vol, CreateName(disk, id), key))
            && (vol.store.ManagedDisks? ==> !IsAssigned(n, vol, key))
            && (vol.store.FileShares? && IsDisk(n, vol, CreateName(disk, id), key) ==>
                  (IsAssigned(n, vol, key) <==> forall k :: k in c ==> !Owns(c[k], vol)))
  {
    hide TrimSpace, ToLower;
    TrueIsLower();
    var (key, r) := CreateSpec(drv, c, vol, disk, id, handle).value;
    var name := CreateName(disk, id);
    assert r.tags[VolumeTag] == vol.name && NameOf(r) == name;
    assert Key(drv, vol, name) == Some(key);
    hide Key;
    if Flag(r) {
      assert NoDisks(c, vol);
    }
  }

  /** Exactly when a create goes through, and what it puts where. A managed disk needs names within the
      driver's bounds, a share a resource name of at most 41 characters; a name given by the caller,
      and any share's name, must be new in the volume. */
  lemma CreateExactly(drv: Driver, c: Resources, vol: Volume, disk: string, id: string, handle: string)
    requires |drv.hash| == HASH_LENGTH
    ensures var name := CreateName(disk, id);
            CreateSpec(drv, c, vol, disk, id, handle).Ok? <==>
            && (vol.store.ManagedDisks? ==> |vol.name| <= 16 && |name| <= 24)
            && (vol.store.FileShares? ==> |vol.name| + 1 + |name| <= 41)
            && (vol.store.FileShares? || name == TrimSpace(disk) ==>
                  forall k :: k in c && Owns(c[k], vol) ==> NameOf(c[k]) != name)
    ensures var spec := CreateSpec(drv, c, vol, disk, id, handle);
            spec.Ok? ==>
              && Key(drv, vol, CreateName(disk, id)) == Some(spec.value.0)
              && spec.value.1.store == vol.store
              && spec.value.1.handle == handle
              && NameOf(spec.value.1) == CreateName(disk, id)
              && VolumeTag in spec.value.1.tags && spec.value.1.tags[VolumeTag] == vol.name
  {
    hide TrimSpace, ToLower;
    var name := CreateName(disk, id);
    assert Taken(c, vol, name) <==> exists k :: k in c && Owns(c[k], vol) && NameOf(c[k]) == name;
    assert |vol.name + "-" + name| == |vol.name| + 1 + |name|;
  }

  // ---------- deletion

  /** DiskDelete of the use case and the backend behind it: only a disk of the volume that is not
      assigned goes. */
  function DeleteSpec(drv: Driver, c: Resources, vol: Volume, disk: string): Result<Resources, DiskError> {
    match Key(drv, vol, disk)
    case None => Err(DiskNotFound)
    case Some(k) =>
      if !IsDisk(c, vol, disk, k) then Err(DiskNotFound)
      else if Flag(c[k]) then Err(DiskAssigned)
      else Ok(c - {k})
  }

  /** Exactly when a delete goes through, and what it leaves: everything but the volume's disk of that
      name, which must be there and not be assigned. */
  lemma DeleteExactly(drv: Driver, c: Resources, vol: Volume, disk: string)
    requires Consistent(drv, c) && Serves(drv, vol)
    ensures var r := DeleteSpec(drv, c, vol, disk);
            && (r == Err(DiskNotFound) <==> forall k :: k in c && Owns(c[k], vol) ==> NameOf(c[k]) != disk)
            && (r == Err(DiskAssigned) <==> exists k :: IsAssigned(c, vol, k) && NameOf(c[k]) == disk)
            && (r.Ok? ==> forall k :: k in c && !(Owns(c[k], vol) && NameOf(c[k]) == disk) ==>
                  k in r.value && r.value[k] == c[k])
            && (r.Ok? ==> forall k :: k in r.value ==> k in c && !(Owns(c[k], vol) && NameOf(c[k]) == disk))
            && (r.Err? ==> r.error == DiskNotFound || r.error == DiskAssigned)
  {
    hide Key, Resolve;
    forall j, k | IsDisk(c, vol, disk, j) && IsDisk(c, vol, disk, k) ensures j == k && Key(drv, vol, disk) == Some(k) {
      NamedDiskUnique(drv, c, vol, disk, j, k);
    }
  }

  lemma DeleteEffect(drv: Driver, c: Resources, vol: Volume, disk: string)
    requires Consistent(drv, c) && DeleteSpec(drv, c, vol, disk).Ok?
    ensures var n := DeleteSpec(drv, c, vol, disk).value;
            && Consistent(drv, n)
            && forall k, w :: IsAssigned(n, w, k) <==> IsAssigned(c, w, k)
  {
    hide Key;
    var k := Key(drv, vol, disk).value;
    assert forall w :: Owns(c[k], w) ==> w == vol;
  }
}
