/** Sequential, failure-free runs of the disk operations, and what holds in every state of a run. */
module DiskRuns {
  import opened Text
  import opened Naming
  import opened Cloud

  /** An operation with what the environment supplies: generated IDs and the handles of new disks. */
  datatype Op =
    | Create(vol: string, disk: string, id: string, handle: string)
    | Assign(vol: string, disk: string)
    | Delete(vol: string, disk: string)
    | Bootstrap(supply: seq<(string, string)>)

  function CreateApply(drv: Driver, c: Resources, vol: Volume, disk: string, id: string, handle: string)
    : Resources
  {
    match CreateSpec(drv, c, vol, disk, id, handle)
    case Err(_) => c
    case Ok((k, r)) => c[k := r]
  }

  ghost function AssignApply(c: Resources, vol: Volume, disk: string): Resources {
    if Taken(c, vol, disk) then Assigned(c, vol, disk) else c
  }

  function DeleteApply(drv: Driver, c: Resources, vol: Volume, disk: string): Resources {
    match DeleteSpec(drv, c, vol, disk)
    case Err(_) => c
    case Ok(n) => n
  }

  ghost predicate AllZero(c: Resources, volumes: seq<Volume>) {
    forall i :: 0 <= i < |volumes| ==> NoneAssigned(c, volumes[i])
  }

  ghost predicate AllOne(c: Resources, volumes: seq<Volume>) {
    forall i :: 0 <= i < |volumes| ==> ExactlyOne(c, volumes[i])
  }

  /** The create-and-assign loop of the bootstrap over the volumes todo; it stops at the first
      error, keeping what it did. The flag tells whether it reached the end. */
  ghost function BootFrom(drv: Driver, todo: seq<Volume>, c: Resources, supply: seq<(string, string)>)
    : (Resources, bool)
  {
    if todo == [] then (c, true)
    else if !NoneAssigned(c, todo[0]) || supply == [] then (c, false)
    else if CreateSpec(drv, c, todo[0], "", supply[0].0, supply[0].1).Err? then (c, false)
    else
      var c1 := CreateApply(drv, c, todo[0], "", supply[0].0, supply[0].1);
      if !Taken(c1, todo[0], supply[0].0) then (c1, false)
      else BootFrom(drv, todo[1..], Assigned(c1, todo[0], supply[0].0), supply[1..])
  }

  ghost function BootApply(drv: Driver, c: Resources, supply: seq<(string, string)>): Resources {
    if Supported(drv) && AllZero(c, VolumesOf(drv)) then BootFrom(drv, VolumesOf(drv), c, supply).0 else c
  }

  /** An operation on the volume its name resolves to. */
  ghost function ApplyTo(drv: Driver, c: Resources, op: Op, vol: Volume): Resources
    requires !op.Bootstrap?
  {
    match op
    case Create(_, disk, id, handle) => CreateApply(drv, c, vol, disk, id, handle)
    case Assign(_, disk) => AssignApply(c, vol, disk)
    case Delete(_, disk) => DeleteApply(drv, c, vol, disk)
  }

  /** An operation whose volume the driver does not find, or whose type it does not support, does
      nothing. */
  ghost function Apply(drv: Driver, c: Resources, op: Op): Resources {
    match op
    case Bootstrap(supply) => BootApply(drv, c, supply)
    case _ =>
      match Resolve(drv, op.vol)
      case Err(_) => c
      case Ok(vol) => ApplyTo(drv, c, op, vol)
  }

  ghost function Run(drv: Driver, c: Resources, ops: seq<Op>): Resources
    decreases |ops|
  {
    if ops == [] then c else Run(drv, Apply(drv, c, ops[0]), ops[1..])
  }

  // ---------- at most one assigned disk, in every state of every run

  ghost predicate Inv(drv: Driver, c: Resources) {
    Consistent(drv, c) && forall vol :: Serves(drv, vol) ==> AtMostOne(c, vol)
  }

  lemma CreateKeepsInv(drv: Driver, c: Resources, vol: Volume, disk: string, id: string, handle: string)
    requires Inv(drv, c)
    ensures Inv(drv, CreateApply(drv, c, vol, disk, id, handle))
  {
    if CreateSpec(drv, c, vol, disk, id, handle).Ok? {
      hide CreateSpec, Consistent, IsAssigned, IsDisk;
      CreateEffect(drv, c, vol, disk, id, handle);
      var (key, r) := CreateSpec(drv, c, vol, disk, id, handle).value;
      var n := c[key := r];
      forall w | Serves(drv, w) ensures AtMostOne(n, w) {
        assert AtMostOne(c, w);
      }
    }
  }

  lemma AssignKeepsInv(drv: Driver, c: Resources, vol: Volume, disk: string)
    requires Inv(drv, c)
    ensures Inv(drv, Assigned(c, vol, disk))
  {
    FixedConsistent(drv, c, vol, disk, c.Keys);
    AssignedEffect(c, vol, disk);
    var a := Assigned(c, vol, disk);
    hide Consistent, IsAssigned, Assigned, Wrong;
    forall w | Serves(drv, w) ensures AtMostOne(a, w) {
      if w == vol {
        forall j, k | IsAssigned(a, vol, j) && IsAssigned(a, vol, k) ensures j == k {
          NamedDiskUnique(drv, c, vol, disk, j, k);
        }
      } else {
        assert AtMostOne(c, w);
      }
    }
  }

  lemma DeleteKeepsInv(drv: Driver, c: Resources, vol: Volume, disk: string)
    requires Inv(drv, c)
    ensures Inv(drv, DeleteApply(drv, c, vol, disk))
  {
    if DeleteSpec(drv, c, vol, disk).Ok? {
      hide Consistent, IsAssigned, DeleteSpec;
      DeleteEffect(drv, c, vol, disk);
      var n := DeleteSpec(drv, c, vol, disk).value;
      forall w | Serves(drv, w) ensures AtMostOne(n, w) {
        assert AtMostOne(c, w);
      }
    }
  }

  lemma {:induction false} BootKeepsInv(drv: Driver, todo: seq<Volume>, c: Resources, supply: seq<(string, string)>)
    requires Inv(drv, c)
    ensures Inv(drv, BootFrom(drv, todo, c, supply).0)
    decreases |todo|
  {
    hide Inv, CreateApply, Assigned;
    if todo != [] && supply != [] {
      CreateKeepsInv(drv, c, todo[0], "", supply[0].0, supply[0].1);
      var c1 := CreateApply(drv, c, todo[0], "", supply[0].0, supply[0].1);
      AssignKeepsInv(drv, c1, todo[0], supply[0].0);
      BootKeepsInv(drv, todo[1..], Assigned(c1, todo[0], supply[0].0), supply[1..]);
    }
  }

  lemma ApplyToKeepsInv(drv: Driver, c: Resources, op: Op, vol: Volume)
    requires Inv(drv, c) && !op.Bootstrap?
    ensures Inv(drv, ApplyTo(drv, c, op, vol))
  {
    hide Inv, Assigned;
    match op
    case Create(_, disk, id, handle) => CreateKeepsInv(drv, c, vol, disk, id, handle);
    case Assign(_, disk) => AssignKeepsInv(drv, c, vol, disk);
    case Delete(_, disk) => DeleteKeepsInv(drv, c, vol, disk);
  }

  lemma ApplyKeepsInv(drv: Driver, c: Resources, op: Op)
    requires Inv(drv, c)
    ensures Inv(drv, Apply(drv, c, op))
  {
    hide Inv;
    match op
    case Bootstrap(supply) =>
      if Supported(drv) {
        BootKeepsInv(drv, VolumesOf(drv), c, supply);
      }
    case _ =>
      if Resolve(drv, op.vol).Ok? {
        ApplyToKeepsInv(drv, c, op, Resolve(drv, op.vol).value);
      }
  }

  lemma {:induction false} RunKeepsInv(drv: Driver, c: Resources, ops: seq<Op>)
    requires Inv(drv, c)
    ensures Inv(drv, Run(drv, c, ops))
    decreases |ops|
  {
    hide Inv, Apply;
    if ops != [] {
      ApplyKeepsInv(drv, c, ops[0]);
      RunKeepsInv(drv, Apply(drv, c, ops[0]), ops[1..]);
    }
  }

  /** Main result: from an empty cloud, after any sequence of creates, assigns, deletes and
      bootstraps, no volume of the app has two assigned disks, whether it keeps them as managed disks
      or as shares. */
  lemma AtMostOneAlways(drv: Driver, ops: seq<Op>, vol: Volume)
    requires Serves(drv, vol)
    ensures AtMostOne(Run(drv, map[], ops), vol)
    ensures |AssignedKeys(Run(drv, map[], ops), vol)| <= 1
  {
    RunKeepsInv(drv, map[], ops);
    CountDecides(Run(drv, map[], ops), vol);
  }

  // ---------- exactly one, once reached, stays

  /** The create puts its resource over an assigned disk of w. */
  predicate Overwrites(drv: Driver, c: Resources, vol: Volume, disk: string, id: string, handle: string, w: Volume) {
    var spec := CreateSpec(drv, c, vol, disk, id, handle);
    spec.Ok? && IsAssigned(c, w, spec.value.0)
  }

  /** A create keeps a volume's one assigned disk exactly when it does not write over it. */
  lemma CreateKeepsOne(drv: Driver, c: Resources, vol: Volume, disk: string, id: string, handle: string, w: Volume)
    requires Inv(drv, c) && ExactlyOne(c, w)
    ensures var n := CreateApply(drv, c, vol, disk, id, handle);
            && (ExactlyOne(n, w) <==> !Overwrites(drv, c, vol, disk, id, handle, w))
            && (ExactlyOne(n, w) || NoneAssigned(n, w))
  {
    var spec := CreateSpec(drv, c, vol, disk, id, handle);
    if spec.Ok? {
      CreateEffect(drv, c, vol, disk, id, handle);
      hide CreateSpec, Consistent, IsAssigned, IsDisk, Serves;
      var k :| IsAssigned(c, w, k);
      var n := c[spec.value.0 := spec.value.1];
      assert !IsAssigned(n, w, spec.value.0);
      if k != spec.value.0 {
        assert IsAssigned(n, w, k);
      }
    }
  }

  /** A create for another volume gives w no assigned disk. */
  lemma CreateKeepsNone(drv: Driver, c: Resources, vol: Volume, disk: string, id: string, handle: string, w: Volume)
    requires Inv(drv, c) && NoneAssigned(c, w) && vol != w
    ensures NoneAssigned(CreateApply(drv, c, vol, disk, id, handle), w)
  {
    if CreateSpec(drv, c, vol, disk, id, handle).Ok? {
      CreateEffect(drv, c, vol, disk, id, handle);
      hide CreateSpec, Consistent, IsAssigned, IsDisk;
    }
  }

  lemma AssignKeepsOne(drv: Driver, c: Resources, vol: Volume, disk: string, w: Volume)
    requires Inv(drv, c) && ExactlyOne(c, w) && (vol == w ==> Serves(drv, vol))
    ensures ExactlyOne(AssignApply(c, vol, disk), w)
  {
    if Taken(c, vol, disk) {
      AssignKeepsInv(drv, c, vol, disk);
      AssignedEffect(c, vol, disk);
      hide IsAssigned, Assigned, Consistent, Wrong;
      var a := Assigned(c, vol, disk);
      if w == vol {
        var k :| k in c && IsDisk(c, vol, disk, k);
        assert IsAssigned(a, w, k);
      } else {
        var k :| IsAssigned(c, w, k);
        assert IsAssigned(a, w, k);
      }
    }
  }

  lemma DeleteKeepsOne(drv: Driver, c: Resources, vol: Volume, disk: string, w: Volume)
    requires Inv(drv, c) && ExactlyOne(c, w)
    ensures ExactlyOne(DeleteApply(drv, c, vol, disk), w)
  {
    if DeleteSpec(drv, c, vol, disk).Ok? {
      hide IsAssigned, DeleteSpec, Consistent;
      DeleteEffect(drv, c, vol, disk);
    }
  }

  /** No create in the loop of a bootstrap writes over an assigned disk of w. */
  ghost predicate BootSpares(drv: Driver, todo: seq<Volume>, c: Resources, supply: seq<(string, string)>, w: Volume)
    decreases |todo|
  {
    todo != [] && supply != [] && NoneAssigned(c, todo[0]) ==>
      && !Overwrites(drv, c, todo[0], "", supply[0].0, supply[0].1, w)
      && var c1 := CreateApply(drv, c, todo[0], "", supply[0].0, supply[0].1);
         (CreateSpec(drv, c, todo[0], "", supply[0].0, supply[0].1).Ok? && Taken(c1, todo[0], supply[0].0) ==>
            BootSpares(drv, todo[1..], Assigned(c1, todo[0], supply[0].0), supply[1..], w))
  }

  /** The operation writes over no assigned disk of w. */
  ghost predicate Spares(drv: Driver, c: Resources, op: Op, w: Volume) {
    match op
    case Create(name, disk, id, handle) =>
      (match Resolve(drv, name) case Err(_) => true case Ok(vol) => !Overwrites(drv, c, vol, disk, id, handle, w))
    case Bootstrap(supply) =>
      Supported(drv) && AllZero(c, VolumesOf(drv)) ==> BootSpares(drv, VolumesOf(drv), c, supply, w)
    case _ => true
  }

  ghost predicate AllSpare(drv: Driver, c: Resources, ops: seq<Op>, w: Volume)
    decreases |ops|
  {
    ops != [] ==> Spares(drv, c, ops[0], w) && AllSpare(drv, Apply(drv, c, ops[0]), ops[1..], w)
  }

  /** The volume has exactly one assigned disk in every state of the run. */
  ghost predicate StaysOne(drv: Driver, c: Resources, ops: seq<Op>, w: Volume)
    decreases |ops|
  {
    ExactlyOne(c, w) && (ops != [] ==> StaysOne(drv, Apply(drv, c, ops[0]), ops[1..], w))
  }

  lemma AssignKeepsNone(drv: Driver, c: Resources, vol: Volume, disk: string, w: Volume)
    requires NoneAssigned(c, w) && vol != w
    ensures NoneAssigned(Assigned(c, vol, disk), w)
  {
    AssignedEffect(c, vol, disk);
    hide IsAssigned, Assigned, Wrong;
  }

  /** What the loop of a bootstrap has taken from a volume it does not create for, it never gives back. */
  lemma {:induction false} BootKeepsNone(drv: Driver, todo: seq<Volume>, c: Resources,
                                         supply: seq<(string, string)>, w: Volume)
    requires Inv(drv, c) && NoneAssigned(c, w) && w !in todo
    ensures NoneAssigned(BootFrom(drv, todo, c, supply).0, w)
    decreases |todo|
  {
    hide Inv, CreateApply, Assigned, CreateSpec, NoneAssigned, Taken;
    if todo != [] && supply != [] {
      var c1 := CreateApply(drv, c, todo[0], "", supply[0].0, supply[0].1);
      CreateKeepsNone(drv, c, todo[0], "", supply[0].0, supply[0].1, w);
      CreateKeepsInv(drv, c, todo[0], "", supply[0].0, supply[0].1);
      AssignKeepsNone(drv, c1, todo[0], supply[0].0, w);
      AssignKeepsInv(drv, c1, todo[0], supply[0].0);
      BootKeepsNone(drv, todo[1..], Assigned(c1, todo[0], supply[0].0), supply[1..], w);
    }
  }

  lemma NoneIsNotOne(c: Resources, w: Volume)
    ensures NoneAssigned(c, w) ==> !ExactlyOne(c, w)
  {
    hide IsAssigned;
  }

  /** The loop of a bootstrap for other volumes keeps a volume's one assigned disk exactly when none
      of its creates writes over it. */
  lemma {:induction false} BootKeepsOne(drv: Driver, todo: seq<Volume>, c: Resources,
                                        supply: seq<(string, string)>, w: Volume)
    requires Inv(drv, c) && ExactlyOne(c, w) && w !in todo
    ensures ExactlyOne(BootFrom(drv, todo, c, supply).0, w) <==> BootSpares(drv, todo, c, supply, w)
    decreases |todo|
  {
    hide Inv, CreateApply, Assigned, ExactlyOne, NoneAssigned, CreateSpec, Taken, Overwrites;
    if todo != [] && supply != [] && NoneAssigned(c, todo[0]) {
      var c1 := CreateApply(drv, c, todo[0], "", supply[0].0, supply[0].1);
      var c2 := Assigned(c1, todo[0], supply[0].0);
      CreateKeepsOne(drv, c, todo[0], "", supply[0].0, supply[0].1, w);
      CreateKeepsInv(drv, c, todo[0], "", supply[0].0, supply[0].1);
      AssignKeepsInv(drv, c1, todo[0], supply[0].0);
      FailedCreateChangesNothing(drv, c, todo[0], "", supply[0].0, supply[0].1);
      if Overwrites(drv, c, todo[0], "", supply[0].0, supply[0].1, w) {
        AssignKeepsNone(drv, c1, todo[0], supply[0].0, w);
        BootKeepsNone(drv, todo[1..], c2, supply[1..], w);
        NoneIsNotOne(BootFrom(drv, todo, c, supply).0, w);
        NoneIsNotOne(c, w);
      } else if Taken(c1, todo[0], supply[0].0) {
        AssignKeepsOne(drv, c1, todo[0], supply[0].0, w);
        assert AssignApply(c1, todo[0], supply[0].0) == c2;
        BootKeepsOne(drv, todo[1..], c2, supply[1..], w);
      }
    }
  }

  lemma FailedCreateChangesNothing(drv: Driver, c: Resources, vol: Volume, disk: string, id: string, handle: string)
    ensures CreateSpec(drv, c, vol, disk, id, handle).Err? ==>
              CreateApply(drv, c, vol, disk, id, handle) == c
    ensures forall w :: Overwrites(drv, c, vol, disk, id, handle, w) ==>
              CreateSpec(drv, c, vol, disk, id, handle).Ok?
  {
    hide CreateSpec;
  }

  /** Any operation keeps a volume's one assigned disk exactly when it writes over no assigned disk of it. */
  lemma ApplyKeepsOne(drv: Driver, c: Resources, op: Op, w: Volume)
    requires Inv(drv, c) && ExactlyOne(c, w)
    ensures ExactlyOne(Apply(drv, c, op), w) <==> Spares(drv, c, op, w)
  {
    hide Inv, ExactlyOne, NoneAssigned, AssignApply, CreateApply, DeleteApply, BootFrom, BootSpares, Overwrites;
    match op
    case Bootstrap(supply) =>
      NoneIsNotOne(c, w);
      if Supported(drv) && AllZero(c, VolumesOf(drv)) {
        BootKeepsOne(drv, VolumesOf(drv), c, supply, w);
      }
    case _ =>
      if Resolve(drv, op.vol).Ok? {
        var vol := Resolve(drv, op.vol).value;
        match op
        case Create(_, disk, id, handle) => CreateKeepsOne(drv, c, vol, disk, id, handle, w);
        case Assign(_, disk) => AssignKeepsOne(drv, c, vol, disk, w);
        case Delete(_, disk) => DeleteKeepsOne(drv, c, vol, disk, w);
      }
  }

  /** Main result: a volume that has exactly one assigned disk has exactly one in every later state of
      the run if and only if no create of the run puts its resource over the assigned disk. */
  lemma {:induction false} ExactlyOneForever(drv: Driver, c: Resources, ops: seq<Op>, w: Volume)
    requires Inv(drv, c) && ExactlyOne(c, w)
    ensures StaysOne(drv, c, ops, w) <==> AllSpare(drv, c, ops, w)
    ensures AllSpare(drv, c, ops, w) ==> ExactlyOne(Run(drv, c, ops), w)
    decreases |ops|
  {
    hide Inv, Apply, ExactlyOne, Spares;
    if ops != [] {
      ApplyKeepsInv(drv, c, ops[0]);
      ApplyKeepsOne(drv, c, ops[0], w);
      if Spares(drv, c, ops[0], w) {
        ExactlyOneForever(drv, Apply(drv, c, ops[0]), ops[1..], w);
      } else {
        StaysNeedsFirst(drv, c, ops, w);
      }
    }
  }

  lemma StaysNeedsFirst(drv: Driver, c: Resources, ops: seq<Op>, w: Volume)
    requires ops != [] && !ExactlyOne(Apply(drv, c, ops[0]), w)
    ensures !StaysOne(drv, c, ops, w)
  {
    hide Apply, ExactlyOne;
  }

  // ---------- what names alone ensure

  /** Every managed disk belongs to a volume of the app, with names that are labels short enough not to
      be cut. */
  ghost predicate ShortLabels(drv: Driver, c: Resources) {
    forall k :: k in c && k.store.ManagedDisks? ==>
      && VolumeTag in c[k].tags
      && var vol := Volume(ManagedDisks, c[k].tags[VolumeTag]);
         Serves(drv, vol) && Owns(c[k], vol) && ShortPair(drv, vol, NameOf(c[k]))
  }

  predicate ShortPair(drv: Driver, vol: Volume, disk: string) {
    IsDNS1123Label(vol.name) && IsDNS1123Label(disk) && |drv.prefix| + |vol.name| + |disk| <= 58
  }

  lemma OccupiedByNamesake(drv: Driver, c: Resources, vol: Volume, name: string, k: Place)
    requires |drv.hash| == HASH_LENGTH && Consistent(drv, c) && ShortLabels(drv, c) && vol.store.ManagedDisks?
    requires ShortPair(drv, vol, name) && k in c && Key(drv, vol, name) == Some(k)
    ensures IsDisk(c, vol, name, k)
  {
    hide AppDiskName, IsDNS1123Label, Serves;
    var v, d := Volume(ManagedDisks, c[k].tags[VolumeTag]), NameOf(c[k]);
    assert Owns(c[k], v);
    assert Key(drv, v, d) == Some(k);
    LabelNoUnderscore(v.name);
    LabelNoUnderscore(vol.name);
    DiskNamesSeparate(drv.prefix, drv.hash, v.name, d, vol.name, name);
  }

  lemma LabelNoUnderscore(s: string)
    requires IsDNS1123Label(s)
    ensures Free(s, '_')
  {
  }

  /** Managed disks: with short label names, a disk name not yet used in the volume is a free key. */
  lemma ManagedNamesFresh(drv: Driver, c: Resources, vol: Volume, disk: string, id: string, handle: string)
    requires |drv.hash| == HASH_LENGTH && Consistent(drv, c) && ShortLabels(drv, c) && vol.store.ManagedDisks?
    requires ShortPair(drv, vol, CreateName(disk, id)) && !Taken(c, vol, CreateName(disk, id))
    ensures var spec := CreateSpec(drv, c, vol, disk, id, handle);
            spec.Ok? ==> spec.value.0 !in c
  {
    hide AppDiskName, IsDNS1123Label, TrimSpace, ShortLabels, Consistent, ShortPair, IsDisk;
    var spec := CreateSpec(drv, c, vol, disk, id, handle);
    if spec.Ok? && spec.value.0 in c {
      OccupiedByNamesake(drv, c, vol, CreateName(disk, id), spec.value.0);
    }
  }

  /** File shares: the name volume-disk tells pairs apart when disk names have no hyphen, as
      generated IDs have none. */
  lemma ShareKeysSeparate(drv: Driver, v: Volume, d: string, w: Volume, e: string)
    requires v.store.FileShares? && w.store.FileShares? && Free(d, '-') && Free(e, '-')
    ensures Key(drv, v, d) == Key(drv, w, e) <==> v == w && d == e
  {
    var s, s' := v.name + "-" + d, w.name + "-" + e;
    if s == s' {
      assert s[|v.name|] == '-' && s'[|w.name|] == '-';
      assert forall i :: |v.name| < i < |s| ==> s[i] == d[i - |v.name| - 1] != '-';
      assert forall i :: |w.name| < i < |s'| ==> s'[i] == e[i - |w.name| - 1] != '-';
      assert |v.name| == |w.name|;
      assert v.name == s[..|v.name|] && w.name == s'[..|w.name|];
      assert d == s[|v.name| + 1..] && e == s'[|w.name| + 1..];
    }
  }

  /** Names that keep the resource names of different volumes apart, as the code's own names do: no
      underscore in volumes and at most 32 characters of prefix for managed disks, no hyphen in disk
      names for shares. */
  predicate Apart(drv: Driver, vol: Volume, disk: string) {
    match vol.store
    case ManagedDisks => |drv.hash| == HASH_LENGTH && |drv.prefix| <= 32 && Free(vol.name, '_')
    case FileShares => Free(disk, '-')
  }

  /** Different volumes in one store are kept apart by such names, in two stores by any. */
  lemma ApartVolumes(drv: Driver, v: Volume, d: string, w: Volume, e: string)
    requires v.store == w.store ==> Apart(drv, v, d) && Apart(drv, w, e)
    requires v != w && Key(drv, v, d).Some?
    ensures Key(drv, v, d) != Key(drv, w, e)
  {
    ApartKeys(drv, v, d, w, e);
  }

  /** In one store, apart in different volumes, and in one volume short enough that nothing is cut off. */
  predicate ApartPairs(drv: Driver, v: Volume, d: string, w: Volume, e: string) {
    v.store == w.store ==>
      && Apart(drv, v, d) && Apart(drv, w, e)
      && (v == w && v.store.ManagedDisks? ==>
            |drv.prefix| + |v.name| + |d| <= 58 && |drv.prefix| + |w.name| + |e| <= 58)
  }

  lemma ApartKeys(drv: Driver, v: Volume, d: string, w: Volume, e: string)
    requires ApartPairs(drv, v, d, w, e) && (v, d) != (w, e) && Key(drv, v, d).Some?
    ensures Key(drv, v, d) != Key(drv, w, e)
  {
    hide AppDiskName, Free;
    if v.store == w.store && Key(drv, w, e).Some? {
      match v.store
      case FileShares => ShareKeysSeparate(drv, v, d, w, e);
      case ManagedDisks => DiskNamesSeparate(drv.prefix, drv.hash, v.name, d, w.name, e);
    }
  }

  /** Two apps may share a resource group, and listings do not look at the app. A managed disk of
      another app leaves the cloud consistent for this one exactly when it is not listed, that is, when
      its volume is none of this app's: names under different hashes differ. */
  lemma ForeignDisk(drv: Driver, other: Driver, c: Resources, vol: Volume, k: Place, r: Resource)
    requires |drv.hash| == |other.hash| == HASH_LENGTH && drv.hash != other.hash
    requires vol.store.ManagedDisks? && Owns(r, vol) && Key(other, vol, NameOf(r)) == Some(k)
    requires Consistent(drv, c) && k !in c
    ensures Consistent(drv, c[k := r]) <==> !Serves(drv, vol)
  {
    hide Resolve;
    assert Key(drv, vol, NameOf(r)) != Some(k) by {
      HashesSeparate(drv, other, vol, NameOf(r));
    }
    hide Key;
    assert forall w :: Owns(r, w) ==> w == vol;
    var n := c[k := r];
    if !Serves(drv, vol) {
      assert forall j, w :: j in c && Serves(drv, w) && Owns(c[j], w) ==> Key(drv, w, NameOf(c[j])) == Some(j);
    } else {
      assert k in n && n[k] == r;
    }
  }

  lemma HashesSeparate(drv: Driver, other: Driver, vol: Volume, disk: string)
    requires |drv.hash| == |other.hash| == HASH_LENGTH && drv.hash != other.hash && vol.store.ManagedDisks?
    ensures Key(drv, vol, disk) == Key(other, vol, disk) ==> Key(drv, vol, disk).None?
  {
    if Key(drv, vol, disk).Some? && Key(other, vol, disk).Some? {
      var a, b := Key(drv, vol, disk).value.name, Key(other, vol, disk).value.name;
      var cutA, cutB := a[..|a| - HASH_LENGTH], b[..|b| - HASH_LENGTH];
      assert a == cutA + drv.hash && b == cutB + other.hash;
      if a == b {
        EqualTails(cutA, cutB, drv.hash, other.hash);
      }
    }
  }

  /** All disks of the volume have known names. */
  ghost predicate Known(c: Resources, w: Volume, known: set<string>) {
    forall k :: k in c && Owns(c[k], w) ==> NameOf(c[k]) in known
  }

  /** A managed disk under a generated ID is created without looking for a namesake. */
  predicate Unchecked(vol: Volume, disk: string) {
    vol.store.ManagedDisks? && TrimSpace(disk) == ""
  }

  /** A create is apart from the known disks of w, and a generated ID is not among them. */
  predicate FitsKnown(drv: Driver, w: Volume, known: set<string>, vol: Volume, disk: string, id: string) {
    var name := CreateName(disk, id);
    && (forall d :: d in known && (vol, name) != (w, d) ==> ApartPairs(drv, vol, name, w, d))
    && (vol == w && Unchecked(vol, disk) ==> name !in known)
  }

  /** The disk names of w known after an operation. */
  function KnownThen(drv: Driver, w: Volume, known: set<string>, op: Op): set<string> {
    if op.Create? && Resolve(drv, op.vol) == Ok(w) then known + {CreateName(op.disk, op.id)} else known
  }

  /** A create's names, if its volume is found, fit the disks of w known so far. */
  predicate OpFits(drv: Driver, w: Volume, known: set<string>, op: Op) {
    op.Create? && Resolve(drv, op.vol).Ok? ==>
      FitsKnown(drv, w, known, Resolve(drv, op.vol).value, op.disk, op.id)
  }

  /** The names in the operations, taken one after the other, fit the disks of w known so far. */
  predicate NamesFit(drv: Driver, w: Volume, known: set<string>, ops: seq<Op>)
    decreases |ops|
  {
    ops != [] ==> OpFits(drv, w, known, ops[0]) && NamesFit(drv, w, KnownThen(drv, w, known, ops[0]), ops[1..])
  }

  lemma FittingSpares(drv: Driver, c: Resources, vol: Volume, disk: string, id: string, handle: string, w: Volume,
                      known: set<string>)
    requires Consistent(drv, c) && Serves(drv, w) && Known(c, w, known) && FitsKnown(drv, w, known, vol, disk, id)
    ensures !Overwrites(drv, c, vol, disk, id, handle, w)
  {
    hide TrimSpace, ApartPairs, Key, Flag, Serves;
    var name := CreateName(disk, id);
    var spec := CreateSpec(drv, c, vol, disk, id, handle);
    if spec.Ok? {
      CreateEffect(drv, c, vol, disk, id, handle);
      if IsAssigned(c, w, spec.value.0) {
        var d := NameOf(c[spec.value.0]);
        assert IsDisk(c, w, d, spec.value.0);
        if !Unchecked(vol, disk) {
          SpecTaken(drv, c, vol, disk, id, handle);
        }
        if (vol, name) != (w, d) {
          ApartKeys(drv, vol, name, w, d);
        }
      }
    }
  }

  /** A create that looks for namesakes goes through only when there is none. */
  lemma SpecTaken(drv: Driver, c: Resources, vol: Volume, disk: string, id: string, handle: string)
    requires CreateSpec(drv, c, vol, disk, id, handle).Ok? && !Unchecked(vol, disk)
    ensures !Taken(c, vol, CreateName(disk, id))
  {
    hide TrimSpace, Key, IsDisk;
  }

  /** The disks of a volume after an operation: those it had, and the one a create names. */
  lemma KnownAfter(drv: Driver, c: Resources, op: Op, w: Volume, known: set<string>)
    requires Known(c, w, known)
    requires op.Bootstrap? && Supported(drv) ==> !AllZero(c, VolumesOf(drv))
    ensures Known(Apply(drv, c, op), w, KnownThen(drv, w, known, op))
  {
    hide TrimSpace, Key, AllZero, BootFrom, Taken, Resolve;
    if !op.Bootstrap? && Resolve(drv, op.vol).Ok? {
      var vol := Resolve(drv, op.vol).value;
      match op
      case Assign(_, disk) => FixedEffect(c, vol, disk, c.Keys);
      case Create(_, disk, id, handle) => NewIsNamed(drv, c, vol, disk, id, handle);
      case _ =>
    }
  }

  lemma NewIsNamed(drv: Driver, c: Resources, vol: Volume, disk: string, id: string, handle: string)
    ensures var spec := CreateSpec(drv, c, vol, disk, id, handle);
            spec.Ok? ==>
              NameOf(spec.value.1) == CreateName(disk, id) && forall w :: Owns(spec.value.1, w) ==> w == vol
  {
    hide TrimSpace, Key, Taken;
  }

  /** Names alone: an app's volume that has its one assigned disk keeps it through any run whose names
      fit, whatever disks the other volumes have. */
  lemma {:induction false} NamesKeepOne(drv: Driver, c: Resources, ops: seq<Op>, w: Volume, known: set<string>)
    requires Inv(drv, c) && ExactlyOne(c, w) && Serves(drv, w) && Known(c, w, known) && NamesFit(drv, w, known, ops)
    ensures StaysOne(drv, c, ops, w)
    decreases |ops|
  {
    hide ExactlyOne, NoneAssigned, Apply, FitsKnown, Known, Overwrites, BootSpares, Resolve;
    if ops != [] {
      var op := ops[0];
      NotAllZero(drv, c, w);
      if op.Create? && Resolve(drv, op.vol).Ok? {
        FittingSpares(drv, c, Resolve(drv, op.vol).value, op.disk, op.id, op.handle, w, known);
      }
      assert Spares(drv, c, op, w);
      ApplyKeepsOne(drv, c, op, w);
      ApplyKeepsInv(drv, c, op);
      KnownAfter(drv, c, op, w, known);
      hide Inv;
      NamesKeepOne(drv, Apply(drv, c, op), ops[1..], w, KnownThen(drv, w, known, op));
    }
  }

  lemma NotAllZero(drv: Driver, c: Resources, w: Volume)
    requires Serves(drv, w) && ExactlyOne(c, w)
    ensures Supported(drv) ==> !AllZero(c, VolumesOf(drv))
  {
    hide Serves, NoneAssigned, ExactlyOne;
    NoneIsNotOne(c, w);
    if Supported(drv) {
      ServedIsListed(drv, w);
    }
  }

  /** Hyphens do break it, where a put on an occupied name replaces the share's metadata, as this model
      assumes: after a volume v gets its first share, named w-d, the first share d of a volume called
      v-w takes over the resource, and v has no assigned share left. */
  lemma ShareTakeover(drv: Driver, v: string, w: string, d: string)
    requires v != "" && w != "" && d != "" && |v| + |w| + |d| <= 38
    requires !IsSpace(w[0]) && !IsSpace(d[0]) && !IsSpace(d[|d| - 1])
    requires Serves(drv, Volume(FileShares, v)) && Serves(drv, Volume(FileShares, v + "-" + w))
    ensures var first := Create(v, w + "-" + d, "", "h1");
            var second := Create(v + "-" + w, d, "", "h2");
            && ExactlyOne(Run(drv, map[], [first]), Volume(FileShares, v))
            && NoneAssigned(Run(drv, map[], [first, second]), Volume(FileShares, v))
  {
    hide Resolve, TrimSpace;
    var vol, other := Volume(FileShares, v), Volume(FileShares, v + "-" + w);
    var wd := w + "-" + d;
    var first, second := Create(v, wd, "", "h1"), Create(other.name, d, "", "h2");
    TrimmedAlready(wd);
    TrimmedAlready(d);
    var share := Place(FileShares, v + "-" + wd);
    assert v + "-" + wd == other.name + "-" + d && vol != other;
    var r1, r2 := NewResource(vol, wd, true, "h1"), NewResource(other, d, true, "h2");
    var c1: Resources := map[][share := r1];
    NewShare(r1, vol, wd, "h1");
    NewShare(r2, other, d, "h2");
    FirstShare(drv, map[], vol, wd, "h1");
    FirstShare(drv, c1, other, d, "h2");
    assert [first, second][1..] == [second] && [first][1..] == [] && [second][1..] == [];
    hide CreateSpec, NewResource, Owns, Flag, Apply, Serves;
    var c2 := c1[share := r2];
    assert Run(drv, map[], [first]) == Run(drv, c1, []) == c1;
    assert Run(drv, map[], [first, second]) == Run(drv, c1, [second]) == Run(drv, c2, []) == c2;
    assert IsAssigned(c1, vol, share);
  }

  lemma NewShare(r: Resource, vol: Volume, disk: string, handle: string)
    requires vol.store.FileShares? && r == NewResource(vol, disk, true, handle) && vol.name != "" && disk != ""
    ensures Flag(r) && forall w :: Owns(r, w) <==> w == vol
  {
    TrueIsLower();
  }

  /** The first share of a volume goes under its name, whatever is there. */
  lemma FirstShare(drv: Driver, c: Resources, vol: Volume, disk: string, handle: string)
    requires vol.store.FileShares? && Serves(drv, vol) && NoDisks(c, vol)
    requires disk != "" && TrimSpace(disk) == disk && |vol.name + "-" + disk| <= MAX_SHARE_NAME
    ensures Apply(drv, c, Create(vol.name, disk, "", handle)) ==
            c[Place(FileShares, vol.name + "-" + disk) := NewResource(vol, disk, true, handle)]
  {
    hide Owns, NewResource, Resolve, TrimSpace;
  }
}
