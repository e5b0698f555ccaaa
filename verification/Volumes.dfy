/** The disk operations as they run against the cloud, one call after another, any of which may
    fail (adapters/drivers/provider/aks/volume.go, volume_backend_disk.go,
    volume_backend_files.go, usecase/volume/disk_delete.go, usecase/volume/disk_create_bootstrap.go). */
module Volumes {
  import opened Text
  import opened Sorting
  import opened Cloud
  import opened DiskRuns

  /** The disks of one volume, each read from its own key, in any order. */
  ghost predicate Listing(c: Resources, vol: Volume, disks: seq<VolumeDisk>, keys: seq<Place>) {
    && NoDup(keys) && |keys| == |disks|
    && (forall k :: k in keys <==> k in c && Owns(c[k], vol))
    && forall i :: 0 <= i < |disks| ==> keys[i] in c && ReadDisk(c[keys[i]], vol) == Some(disks[i])
  }

  datatype BootstrapResult = Created(disks: seq<VolumeDisk>) | Skipped

  lemma CountOneMore(w: set<Place>, done: set<Place>, k: Place)
    requires k !in done
    ensures |w * (done + {k})| == |w * done| + if k in w then 1 else 0
  {
    if k in w {
      assert w * (done + {k}) == (w * done) + {k};
    } else {
      assert w * (done + {k}) == w * done;
    }
  }

  /** Correcting the listed keys corrects the whole volume. */
  lemma ListedIsAll(c: Resources, vol: Volume, name: string, disks: seq<VolumeDisk>, keys: seq<Place>)
    requires Listing(c, vol, disks, keys)
    ensures Fixed(c, vol, name, Elements(keys)) == Assigned(c, vol, name)
    ensures Wrong(c, vol, name) * Elements(keys) == Wrong(c, vol, name)
    ensures Wrong(c, vol, name) * Elements(keys[..0]) == {}
    ensures Fixed(c, vol, name, Elements(keys[..0])) == c
  {
    forall k | k in Wrong(c, vol, name) ensures k in Elements(keys) {
      assert k in keys;
    }
  }

  /** How many of the keys are assigned ones of the volume. */
  ghost function AssignedAmong(c: Resources, vol: Volume, keys: seq<Place>): nat {
    |AssignedKeys(c, vol) * Elements(keys)|
  }

  /** The flags listed are the flags counted. */
  lemma {:induction false} ListedFlags(c: Resources, vol: Volume, disks: seq<VolumeDisk>, keys: seq<Place>, i: nat)
    requires Listing(c, vol, disks, keys) && i < |keys|
    ensures disks[i].isAssigned <==> keys[i] in AssignedKeys(c, vol)
    ensures AssignedAmong(c, vol, keys[..i + 1]) ==
              AssignedAmong(c, vol, keys[..i]) + if disks[i].isAssigned then 1 else 0
  {
    VisitOneMore(keys, i);
    CountOneMore(AssignedKeys(c, vol), Elements(keys[..i]), keys[i]);
  }

  lemma ListedCount(c: Resources, vol: Volume, disks: seq<VolumeDisk>, keys: seq<Place>)
    requires Listing(c, vol, disks, keys)
    ensures AssignedAmong(c, vol, keys) == |AssignedKeys(c, vol)| && AssignedAmong(c, vol, keys[..0]) == 0
    ensures keys[..|keys|] == keys
  {
    forall k | k in AssignedKeys(c, vol) ensures k in Elements(keys) {
      assert k in keys;
    }
    assert AssignedKeys(c, vol) * Elements(keys) == AssignedKeys(c, vol);
    assert AssignedKeys(c, vol) * Elements(keys[..0]) == {};
  }

  lemma ListingLength(c: Resources, vol: Volume, disks: seq<VolumeDisk>, keys: seq<Place>)
    requires Listing(c, vol, disks, keys)
    ensures |keys| == |disks|
  {
  }

  /** A name no listed disk has is the name of no disk of the volume. */
  lemma NotListed(c: Resources, vol: Volume, disks: seq<VolumeDisk>, keys: seq<Place>, name: string)
    requires Listing(c, vol, disks, keys)
    requires forall j :: 0 <= j < |disks| ==> disks[j].name != name
    ensures !Taken(c, vol, name) && forall k :: !IsDisk(c, vol, name, k)
  {
    forall k | k in c && Owns(c[k], vol) ensures NameOf(c[k]) != name {
      var j :| 0 <= j < |keys| && keys[j] == k;
      assert disks[j].name != name;
    }
  }

  lemma ListedThere(c: Resources, vol: Volume, disks: seq<VolumeDisk>, keys: seq<Place>, name: string)
    requires Listing(c, vol, disks, keys)
    requires exists j :: 0 <= j < |disks| && disks[j].name == name
    ensures Taken(c, vol, name)
  {
    var j :| 0 <= j < |disks| && disks[j].name == name;
    assert IsDisk(c, vol, name, keys[j]);
  }

  lemma NothingDone(c: Resources, vol: Volume, name: string)
    ensures c == Fixed(c, vol, name, {})
  {
  }

  // ---------- what the operations on one volume may do

  /** Completed, an assignment has corrected every wrong flag of the volume, one update each, and
      nothing else; stopped by a failure, it has corrected some of them. */
  ghost predicate AssignOutcome(before: Resources, vol: Volume, name: string, after: Resources,
                                r: Result<nat, DiskError>)
  {
    && (r.Ok? ==>
          && Taken(before, vol, name)
          && after == Assigned(before, vol, name)
          && r.value == |Wrong(before, vol, name)|)
    && (r.Err? ==> r.error == DiskNotFound || r.error == CloudFailure)
    && (!Taken(before, vol, name) || r == Err(DiskNotFound) ==> after == before)
    && (r == Err(DiskNotFound) ==> !Taken(before, vol, name))
    && exists done :: after == Fixed(before, vol, name, done)
  }

  /** A create has the specified effect or refusal; a failed call may have taken effect or not. */
  ghost predicate CreateOutcome(drv: Driver, before: Resources, vol: Volume, disk: string, id: string, handle: string,
                                after: Resources, r: Result<VolumeDisk, DiskError>)
  {
    var spec := CreateSpec(drv, before, vol, disk, id, handle);
    && (r.Ok? ==>
          && spec.Ok? && after == CreateApply(drv, before, vol, disk, id, handle)
          && r.value.name == CreateName(disk, id) && r.value.volume == vol.name && r.value.handle == handle
          && Taken(after, vol, r.value.name)
          && (vol.store.ManagedDisks? ==> !r.value.isAssigned)
          && (vol.store.FileShares? ==> (r.value.isAssigned <==> forall k :: k in before ==> !Owns(before[k], vol))))
    && (r.Err? && r.error != CloudFailure ==> after == before && spec == Err(r.error))
    && (r == Err(CloudFailure) ==> after == before || after == CreateApply(drv, before, vol, disk, id, handle))
  }

  /** Likewise for a delete: the disk goes only if the volume has it and it is not assigned. */
  ghost predicate DeleteOutcome(drv: Driver, before: Resources, vol: Volume, disk: string, after: Resources,
                                r: Result<(), DiskError>)
  {
    && (r.Ok? ==> DeleteSpec(drv, before, vol, disk) == Ok(after))
    && (r.Err? && r.error != CloudFailure ==> after == before && DeleteSpec(drv, before, vol, disk) == Err(r.error))
    && (r == Err(CloudFailure) ==> after == before || after == DeleteApply(drv, before, vol, disk))
  }

  class VolumeStore {
    const driver: Driver
    var cloud: Resources

    constructor (driver: Driver)
      ensures this.driver == driver && cloud == map[]
    {
      this.driver := driver;
      cloud := map[];
    }

    // ---------- the driver, which finds the volume's store first

    method DiskList(name: string) returns (r: Result<seq<VolumeDisk>, DiskError>, ghost keys: seq<Place>)
      ensures Resolve(driver, name).Err? ==> r == Err(Resolve(driver, name).error)
      ensures r.Ok? ==> Resolve(driver, name).Ok? && Listing(cloud, Resolve(driver, name).value, r.value, keys)
      ensures Resolve(driver, name).Ok? && r.Err? ==> r.error == CloudFailure
    {
      var vol := Resolve(driver, name);
      if vol.Err? {
        return Err(vol.error), [];
      }
      r, keys := List(vol.value);
    }

    method DiskCreate(name: string, disk: string, id: string, handle: string) returns (r: Result<VolumeDisk, DiskError>)
      requires Consistent(driver, cloud)
      modifies this`cloud
      ensures Consistent(driver, cloud)
      ensures Resolve(driver, name).Err? ==> cloud == old(cloud) && r == Err(Resolve(driver, name).error)
      ensures Resolve(driver, name).Ok? ==>
                CreateOutcome(driver, old(cloud), Resolve(driver, name).value, disk, id, handle, cloud, r)
    {
      hide CreateOutcome, Consistent;
      var vol := Resolve(driver, name);
      if vol.Err? {
        return Err(vol.error);
      }
      r := Create(vol.value, disk, id, handle);
    }

    method DiskAssign(name: string, disk: string) returns (r: Result<nat, DiskError>)
      requires Consistent(driver, cloud)
      modifies this`cloud
      ensures Consistent(driver, cloud)
      ensures Resolve(driver, name).Err? ==> cloud == old(cloud) && r == Err(Resolve(driver, name).error)
      ensures Resolve(driver, name).Ok? ==> AssignOutcome(old(cloud), Resolve(driver, name).value, disk, cloud, r)
    {
      hide AssignOutcome, Consistent;
      var vol := Resolve(driver, name);
      if vol.Err? {
        return Err(vol.error);
      }
      r := Assign(vol.value, disk);
    }

    // ---------- the backends, on one volume

    method List(vol: Volume) returns (r: Result<seq<VolumeDisk>, DiskError>, ghost keys: seq<Place>)
      ensures r.Ok? ==> Listing(cloud, vol, r.value, keys)
      ensures r.Err? ==> r.error == CloudFailure
    {
      keys := [];
      if * {
        return Err(CloudFailure), keys;
      }
      var visit := Enumerate(cloud);
      var disks: seq<VolumeDisk> := [];
      for i := 0 to |visit|
        invariant NoDup(keys) && |keys| == |disks|
        invariant forall k :: k in keys <==> k in visit[..i] && k in cloud && Owns(cloud[k], vol)
        invariant forall j :: 0 <= j < |disks| ==> keys[j] in cloud && ReadDisk(cloud[keys[j]], vol) == Some(disks[j])
      {
        assert visit[i] in Elements(visit);
        var disk := ReadDisk(cloud[visit[i]], vol);
        assert forall j :: 0 <= j < |keys| ==> keys[j] in keys;
        if disk.Some? {
          keys := keys + [visit[i]];
          disks := disks + [disk.value];
        }
      }
      assert forall k :: k in visit <==> k in Elements(visit);
      return Ok(disks), keys;
    }

    /** Reading a disk's tags, setting the flag, writing them back. A failed update may have been
        applied or not. */
    method UpdateFlag(key: Place, isAssigned: bool) returns (ok: bool)
      modifies this`cloud
      ensures ok ==> key in old(cloud) && cloud == old(cloud)[key := Mark(old(cloud)[key], isAssigned)]
      ensures !ok ==>
                || cloud == old(cloud)
                || (key in old(cloud) && cloud == old(cloud)[key := Mark(old(cloud)[key], isAssigned)])
    {
      if key !in cloud {
        return false;
      }
      if * {
        return false;
      }
      cloud := cloud[key := Mark(cloud[key], isAssigned)];
      if * {
        return false;
      }
      return true;
    }

    method Assign(vol: Volume, name: string) returns (r: Result<nat, DiskError>)
      requires Consistent(driver, cloud) && Serves(driver, vol)
      modifies this`cloud
      ensures Consistent(driver, cloud) && AssignOutcome(old(cloud), vol, name, cloud, r)
    {
      hide Key, WrongAt, Mark, Owns, Fixed, Assigned, Consistent, IsDisk;
      var list, keys := List(vol);
      NothingDone(cloud, vol, name);
      if list.Err? {
        return Err(CloudFailure);
      }
      var found := HasDisk(list.value, name);
      if !found {
        NotListed(cloud, vol, list.value, keys, name);
        return Err(DiskNotFound);
      }
      ListedThere(cloud, vol, list.value, keys, name);
      r := CorrectFlags(vol, name, list.value, keys);
    }

    /** The search of an assignment for its target. */
    method HasDisk(disks: seq<VolumeDisk>, name: string) returns (found: bool)
      ensures found <==> exists i :: 0 <= i < |disks| && disks[i].name == name
    {
      found := false;
      for i := 0 to |disks|
        invariant !found
        invariant forall j :: 0 <= j < i ==> disks[j].name != name
      {
        if disks[i].name == name {
          return true;
        }
      }
    }

    /** The update loop of an assignment. */
    method CorrectFlags(vol: Volume, name: string, disks: seq<VolumeDisk>, ghost keys: seq<Place>)
      returns (r: Result<nat, DiskError>)
      requires Consistent(driver, cloud) && Serves(driver, vol) && Listing(cloud, vol, disks, keys)
      modifies this`cloud
      ensures Consistent(driver, cloud)
      ensures r.Ok? ==> cloud == Assigned(old(cloud), vol, name) && r.value == |Wrong(old(cloud), vol, name)|
      ensures r.Err? ==> r.error == CloudFailure
      ensures exists done :: cloud == Fixed(old(cloud), vol, name, done)
    {
      hide Key, WrongAt, Mark, Owns, Fixed, Assigned, Consistent, Wrong;
      ghost var before := cloud;
      var updates: nat := 0;
      ListedIsAll(before, vol, name, disks, keys);
      for i := 0 to |disks|
        invariant Listing(before, vol, disks, keys)
        invariant cloud == Fixed(before, vol, name, Elements(keys[..i]))
        invariant updates == |Wrong(before, vol, name) * Elements(keys[..i])|
      {
        var step, n := AssignOne(vol, name, disks[i], before, disks, keys, i);
        if !step {
          FixedConsistent(driver, before, vol, name, Elements(keys[..i]));
          FixedConsistent(driver, before, vol, name, Elements(keys[..i + 1]));
          return Err(CloudFailure);
        }
        updates := updates + n;
      }
      assert keys[..|keys|] == keys;
      FixedConsistent(driver, before, vol, name, Elements(keys));
      return Ok(updates);
    }

    /** One round of that loop: an update exactly when the listed flag is wrong. */
    method AssignOne(vol: Volume, name: string, disk: VolumeDisk, ghost before: Resources, ghost disks: seq<VolumeDisk>,
                     ghost keys: seq<Place>, ghost i: nat)
      returns (ok: bool, updates: nat)
      requires Consistent(driver, before) && Serves(driver, vol) && Listing(before, vol, disks, keys)
      requires i < |disks| && disk == disks[i]
      requires cloud == Fixed(before, vol, name, Elements(keys[..i]))
      modifies this`cloud
      ensures ok ==> cloud == Fixed(before, vol, name, Elements(keys[..i + 1]))
      ensures ok ==>
                |Wrong(before, vol, name) * Elements(keys[..i + 1])| ==
                  |Wrong(before, vol, name) * Elements(keys[..i])| + updates
      ensures !ok ==>
                || cloud == Fixed(before, vol, name, Elements(keys[..i]))
                || cloud == Fixed(before, vol, name, Elements(keys[..i + 1]))
    {
      hide Mark, Flag;
      VisitOneMore(keys, i);
      FixedStep(before, vol, name, Elements(keys[..i]), keys[i]);
      CountOneMore(Wrong(before, vol, name), Elements(keys[..i]), keys[i]);
      var isTarget := disk.name == name;
      if isTarget == disk.isAssigned {
        return true, 0;
      }
      assert Key(driver, vol, disk.name) == Some(keys[i]);
      var key := Key(driver, vol, disk.name);
      ok := UpdateFlag(key.value, isTarget);
      updates := 1;
    }

    /** A create without a source. */
    method Create(vol: Volume, disk: string, id: string, handle: string) returns (r: Result<VolumeDisk, DiskError>)
      requires Consistent(driver, cloud)
      modifies this`cloud
      ensures Consistent(driver, cloud) && CreateOutcome(driver, old(cloud), vol, disk, id, handle, cloud, r)
    {
      var list, keys := List(vol);
      if list.Err? {
        return Err(CloudFailure);
      }
      var spec := CreateSpec(driver, cloud, vol, disk, id, handle);
      if spec.Err? {
        SpecErrors(disk, vol, id, handle);
        return Err(spec.error);
      }
      CreateEffect(driver, cloud, vol, disk, id, handle);
      hide CreateSpec, Consistent, Key, TrimSpace;
      if * {
        return Err(CloudFailure);
      }
      cloud := cloud[spec.value.0 := spec.value.1];
      if * {
        return Err(CloudFailure);
      }
      var made := ReadDisk(spec.value.1, vol);
      if made.None? {
        return Err(CloudFailure);
      }
      CreatedName(vol, disk, id, handle, old(cloud));
      return Ok(made.value);
    }

    lemma SpecErrors(disk: string, vol: Volume, id: string, handle: string)
      ensures CreateSpec(driver, cloud, vol, disk, id, handle).Err? ==>
                CreateSpec(driver, cloud, vol, disk, id, handle).error != CloudFailure
    {
    }

    lemma CreatedName(vol: Volume, disk: string, id: string, handle: string, c: Resources)
      ensures var spec := CreateSpec(driver, c, vol, disk, id, handle);
              spec.Ok? ==> NameOf(spec.value.1) == CreateName(disk, id)
    {
    }

    /** DiskDelete of the use case. */
    method DiskDelete(name: string, disk: string) returns (r: Result<(), DiskError>)
      requires Consistent(driver, cloud)
      modifies this`cloud
      ensures Consistent(driver, cloud)
      ensures Resolve(driver, name).Err? ==> cloud == old(cloud) && r == Err(Resolve(driver, name).error)
      ensures Resolve(driver, name).Ok? ==>
                DeleteOutcome(driver, old(cloud), Resolve(driver, name).value, disk, cloud, r)
    {
      hide Key, Resolve;
      var list, keys := DiskList(name);
      if list.Err? {
        return Err(list.error);
      }
      ghost var vol := Resolve(driver, name).value;
      var disks := list.value;
      var found := false;
      for i := 0 to |disks|
        invariant !found && cloud == old(cloud)
        invariant forall j :: 0 <= j < i ==> disks[j].name != disk
      {
        if disks[i].name == disk {
          found := true;
          NamedDiskUnique(driver, cloud, vol, disk, keys[i], keys[i]);
          if disks[i].isAssigned {
            return Err(DiskAssigned);
          }
          break;
        }
      }
      if !found {
        NotListed(cloud, vol, disks, keys, disk);
        return Err(DiskNotFound);
      }
      if * {
        return Err(CloudFailure);
      }
      DeleteEffect(driver, cloud, vol, disk);
      var place := Key(driver, Resolve(driver, name).value, disk);
      cloud := cloud - {place.value};
      if * {
        return Err(CloudFailure);
      }
      return Ok(());
    }

    /** The number of assigned disks a listing shows. */
    method CountAssigned(name: string) returns (r: Result<nat, DiskError>)
      ensures Resolve(driver, name).Err? ==> r == Err(Resolve(driver, name).error)
      ensures r.Ok? ==> Resolve(driver, name).Ok? && r.value == |AssignedKeys(cloud, Resolve(driver, name).value)|
      ensures Resolve(driver, name).Ok? && r.Err? ==> r.error == CloudFailure
    {
      hide Resolve;
      var list, keys := DiskList(name);
      if list.Err? {
        return Err(list.error);
      }
      hide Listing, AssignedKeys, AssignedAmong;
      ghost var vol := Resolve(driver, name).value;
      ListedCount(cloud, vol, list.value, keys);
      ListingLength(cloud, vol, list.value, keys);
      var n: nat := 0;
      for i := 0 to |list.value|
        invariant n == AssignedAmong(cloud, vol, keys[..i])
      {
        ListedFlags(cloud, vol, list.value, keys, i);
        if list.value[i].isAssigned {
          n := n + 1;
        }
      }
      return Ok(n);
    }

    /** DiskCreateBootstrap: skips when every volume has one assigned disk, refuses mixed states, and
        otherwise creates and assigns one disk per volume, each in its own store. Unless the cloud
        fails, the effect on the cloud is the one a run ascribes to it. */
    method DiskCreateBootstrap(supply: seq<(string, string)>) returns (r: Result<BootstrapResult, DiskError>)
      requires Consistent(driver, cloud)
      modifies this`cloud
      ensures Consistent(driver, cloud)
      ensures r == Ok(Skipped) ==> cloud == old(cloud) && Supported(driver) && AllOne(cloud, VolumesOf(driver))
      ensures r.Ok? && r.value.Created? ==>
                && driver.volumes != [] && Supported(driver) && AllZero(old(cloud), VolumesOf(driver))
                && BootFrom(driver, VolumesOf(driver), old(cloud), supply) == (cloud, true)
                && Supplied(r.value.disks, supply)
      ensures r == Err(InvalidState) ==>
                && cloud == old(cloud) && Supported(driver)
                && !AllZero(cloud, VolumesOf(driver)) && !AllOne(cloud, VolumesOf(driver))
      ensures r == Err(UnsupportedType) ==> cloud == old(cloud) && !Supported(driver)
      ensures r != Err(CloudFailure) ==> cloud == BootApply(driver, old(cloud), supply)
      ensures r != Err(CloudFailure) && Supported(driver) && AllOne(old(cloud), VolumesOf(driver)) ==> r == Ok(Skipped)
    {
      hide Consistent, NoneAssigned, ExactlyOne, Resolve, BootFrom;
      if driver.volumes == [] {
        BootNothing(driver, cloud, supply);
        return Ok(Skipped);
      }
      var allZero, allOne := true, true;
      for i := 0 to |driver.volumes|
        invariant cloud == old(cloud)
        invariant forall j :: 0 <= j < i ==> Resolve(driver, driver.volumes[j].name).Ok?
        invariant allZero <==>
                  forall j :: 0 <= j < i ==> NoneAssigned(cloud, Resolve(driver, driver.volumes[j].name).value)
        invariant allOne <==>
                  forall j :: 0 <= j < i ==> ExactlyOne(cloud, Resolve(driver, driver.volumes[j].name).value)
      {
        var count := CountAssigned(driver.volumes[i].name);
        if count.Err? {
          OwnVolumeFound(driver, i);
          return Err(count.error);
        }
        CountDecides(cloud, Resolve(driver, driver.volumes[i].name).value);
        if count.value != 0 {
          allZero := false;
        }
        if count.value != 1 {
          allOne := false;
        }
      }
      ghost var vols := VolumesOf(driver);
      assert allZero <==> AllZero(cloud, vols);
      assert allOne <==> AllOne(cloud, vols);
      ZeroIsNotOne(cloud, vols);
      if allZero {
        r := CreateAll(supply);
      } else if allOne {
        r := Ok(Skipped);
      } else {
        r := Err(InvalidState);
      }
    }

    /** One disk per volume, in order, with the supplied names and handles. */
    predicate Supplied(disks: seq<VolumeDisk>, supply: seq<(string, string)>) {
      && |disks| == |driver.volumes| <= |supply|
      && forall i :: 0 <= i < |disks| ==>
           && disks[i].volume == driver.volumes[i].name
           && disks[i].name == supply[i].0
           && disks[i].handle == supply[i].1
    }

    /** The create-and-assign loop of the bootstrap. */
    method CreateAll(supply: seq<(string, string)>) returns (r: Result<BootstrapResult, DiskError>)
      requires Consistent(driver, cloud) && Supported(driver)
      modifies this`cloud
      ensures Consistent(driver, cloud)
      ensures r.Ok? ==>
                && r.value.Created? && Supplied(r.value.disks, supply)
                && BootFrom(driver, VolumesOf(driver), old(cloud), supply) == (cloud, true)
      ensures r.Err? && r.error != CloudFailure ==>
                cloud == BootFrom(driver, VolumesOf(driver), old(cloud), supply).0
      ensures r != Err(InvalidState) && r != Err(UnsupportedType)
    {
      hide Consistent, CreateSpec, CreateApply, NoneAssigned, Taken, Assigned, Resolve;
      var created: seq<VolumeDisk> := [];
      ghost var vols := VolumesOf(driver);
      assert vols[0..] == vols && supply[0..] == supply;
      for i := 0 to |driver.volumes|
        invariant Consistent(driver, cloud) && |created| == i <= |supply|
        invariant forall j :: 0 <= j < i ==>
                    && created[j].volume == driver.volumes[j].name
                    && created[j].name == supply[j].0
                    && created[j].handle == supply[j].1
        invariant BootFrom(driver, vols, old(cloud), supply) == BootFrom(driver, vols[i..], cloud, supply[i..])
      {
        assert vols[i..][0] == vols[i] && vols[i..][1..] == vols[i + 1..];
        if i < |supply| {
          assert supply[i..][0] == supply[i] && supply[i..][1..] == supply[i + 1..];
        }
        var made := CreateOne(driver.volumes[i].name, vols[i], if i < |supply| then Some(supply[i]) else None);
        if made.Err? {
          return Err(made.error);
        }
        created := created + [made.value];
      }
      assert vols[|vols|..] == [];
      return Ok(Created(created));
    }

    /** One round of that loop: look again, create, assign. */
    method CreateOne(name: string, ghost vol: Volume, supply: Option<(string, string)>)
      returns (r: Result<VolumeDisk, DiskError>)
      requires Consistent(driver, cloud) && Resolve(driver, name) == Ok(vol)
      modifies this`cloud
      ensures Consistent(driver, cloud)
      ensures r.Ok? ==>
                && supply.Some? && NoneAssigned(old(cloud), vol)
                && CreateSpec(driver, old(cloud), vol, "", supply.value.0, supply.value.1).Ok?
                && var c1 := CreateApply(driver, old(cloud), vol, "", supply.value.0, supply.value.1);
                   Taken(c1, vol, supply.value.0) && cloud == Assigned(c1, vol, supply.value.0)
      ensures r.Ok? ==>
                && supply.Some?
                && r.value.volume == name
                && r.value.name == supply.value.0
                && r.value.handle == supply.value.1
      ensures r.Err? && r.error != CloudFailure ==>
                && cloud == old(cloud)
                && (|| supply.None? || !NoneAssigned(cloud, vol)
                    || CreateSpec(driver, cloud, vol, "", supply.value.0, supply.value.1).Err?)
      ensures r != Err(InvalidState) && r != Err(UnsupportedType)
    {
      hide Resolve;
      var count := CountAssigned(name);
      if count.Err? {
        return Err(CloudFailure);
      }
      CountDecides(cloud, vol);
      if count.value != 0 {
        return Err(ConcurrentAssignment);
      }
      if supply.None? {
        return Err(NoCompactID);
      }
      EmptyNameGenerates(supply.value.0);
      SpecNeverInvalid(vol, supply.value.0, supply.value.1);
      hide NoneAssigned, CreateSpec, CreateApply, Consistent, CreateName, Taken, Assigned, Fixed, Wrong;
      var disk := DiskCreate(name, "", supply.value.0, supply.value.1);
      if disk.Err? {
        return Err(disk.error);
      }
      var assignment := DiskAssign(name, disk.value.name);
      if assignment.Err? {
        return Err(CloudFailure);
      }
      return Ok(disk.value);
    }

    lemma EmptyNameGenerates(id: string)
      ensures CreateName("", id) == id
    {
    }

    lemma SpecNeverInvalid(vol: Volume, id: string, handle: string)
      ensures var spec := CreateSpec(driver, cloud, vol, "", id, handle);
              spec.Err? ==> spec.error != InvalidState && spec.error != UnsupportedType
    {
    }
  }

  lemma ZeroIsNotOne(c: Resources, vols: seq<Volume>)
    ensures vols != [] && AllZero(c, vols) ==> !AllOne(c, vols)
  {
    hide NoneAssigned, ExactlyOne;
    if vols != [] && AllZero(c, vols) {
      assert NoneAssigned(c, vols[0]);
      CountDecides(c, vols[0]);
    }
  }

  lemma BootNothing(drv: Driver, c: Resources, supply: seq<(string, string)>)
    requires drv.volumes == []
    ensures BootApply(drv, c, supply) == c && Supported(drv) && AllOne(c, VolumesOf(drv))
  {
  }

  /** The driver finds the app's own volumes, and may only not support their type. */
  lemma OwnVolumeFound(drv: Driver, i: nat)
    requires i < |drv.volumes|
    ensures var vol := Resolve(drv, drv.volumes[i].name);
            vol.Err? ==> vol.error == UnsupportedType && !Supported(drv)
  {
    FoundAmong(drv.volumes, drv.volumes[i].name);
  }

  // ---------- what a bootstrap achieves, and how assignments converge

  /** The volume's one assigned disk is the one created under this name with this handle. */
  ghost predicate HasDisk(c: Resources, vol: Volume, made: (string, string)) {
    && ExactlyOne(c, vol)
    && forall k :: IsAssigned(c, vol, k) ==> NameOf(c[k]) == made.0 && c[k].handle == made.1
  }

  /** The cloud after one round of the bootstrap loop. */
  ghost function AfterRound(drv: Driver, c: Resources, vol: Volume, made: (string, string)): Resources {
    Assigned(CreateApply(drv, c, vol, "", made.0, made.1), vol, made.0)
  }

  /** A round leaves its volume with the new disk as the assigned one. */
  lemma RoundGives(drv: Driver, c: Resources, vol: Volume, made: (string, string))
    requires Inv(drv, c) && Serves(drv, vol) && CreateSpec(drv, c, vol, "", made.0, made.1).Ok?
    requires Taken(CreateApply(drv, c, vol, "", made.0, made.1), vol, made.0)
    ensures HasDisk(AfterRound(drv, c, vol, made), vol, made)
  {
    var c1 := CreateApply(drv, c, vol, "", made.0, made.1);
    var key := CreateSpec(drv, c, vol, "", made.0, made.1).value.0;
    CreateEffect(drv, c, vol, "", made.0, made.1);
    CreatedUnder(drv, c, vol, made);
    AssignedEffect(c1, vol, made.0);
    FixedEffect(c1, vol, made.0, c1.Keys);
    AssignedHandles(c1, vol, made.0);
    hide CreateSpec, Key, Owns, Flag, Assigned, Fixed, NoneAssigned, Wrong, CreateName;
    var a := Assigned(c1, vol, made.0);
    forall k ensures IsAssigned(a, vol, k) <==> k == key {
      assert IsDisk(c1, vol, made.0, k) ==> Key(drv, vol, made.0) == Some(k);
    }
    var k :| k in c1 && IsDisk(c1, vol, made.0, k);
    assert k == key;
  }

  lemma CreatedUnder(drv: Driver, c: Resources, vol: Volume, made: (string, string))
    requires CreateSpec(drv, c, vol, "", made.0, made.1).Ok?
    ensures CreateName("", made.0) == made.0
    ensures CreateSpec(drv, c, vol, "", made.0, made.1).value.1.handle == made.1
    ensures CreateSpec(drv, c, vol, "", made.0, made.1).value.1.tags.Keys >= {VolumeTag, NameTag}
    ensures NameOf(CreateSpec(drv, c, vol, "", made.0, made.1).value.1) == made.0
  {
    hide Key, Taken;
    assert TrimSpace("") == "";
  }

  /** Correcting flags changes no handle. */
  lemma AssignedHandles(c: Resources, vol: Volume, name: string)
    ensures forall k :: k in c ==> k in Assigned(c, vol, name) && Assigned(c, vol, name)[k].handle == c[k].handle
  {
    hide WrongAt;
  }

  /** A round for another volume leaves the volume's disk alone, since its resource has another name. */
  lemma RoundKeeps(drv: Driver, c: Resources, vol: Volume, made: (string, string), w: Volume, p: (string, string))
    requires Inv(drv, c) && CreateSpec(drv, c, vol, "", made.0, made.1).Ok?
    requires Serves(drv, w) && HasDisk(c, w, p) && w != vol && Apart(drv, w, p.0) && Apart(drv, vol, made.0)
    ensures HasDisk(AfterRound(drv, c, vol, made), w, p)
  {
    hide CreateSpec, Key, Flag, Apart, Fixed, Wrong, CreateName, IsDisk, NoneAssigned;
    var c1 := CreateApply(drv, c, vol, "", made.0, made.1);
    var key := CreateSpec(drv, c, vol, "", made.0, made.1).value.0;
    CreateEffect(drv, c, vol, "", made.0, made.1);
    CreatedUnder(drv, c, vol, made);
    ApartVolumes(drv, vol, made.0, w, p.0);
    var k :| IsAssigned(c, w, k);
    assert k != key && c1[k] == c[k];
    AssignedEffect(c1, vol, made.0);
    AssignedElsewhere(c1, vol, made.0, w, k);
    hide Assigned, Owns;
    assert forall j :: IsAssigned(c1, w, j) <==> IsAssigned(c, w, j);
  }

  lemma AssignedElsewhere(c: Resources, vol: Volume, name: string, w: Volume, k: Place)
    requires k in c && Owns(c[k], w) && w != vol
    ensures k in Assigned(c, vol, name) && Assigned(c, vol, name)[k] == c[k]
  {
    FixedEffect(c, vol, name, c.Keys);
    hide Owns, Fixed;
  }

  /** The loop of a bootstrap that reaches its end gives every volume the disk supplied for it, and
      keeps the disks of the volumes it has been through. */
  lemma {:induction false} BootCompletes(drv: Driver, todo: seq<Volume>, c: Resources,
                                         supply: seq<(string, string)>, w: Volume, p: (string, string))
    requires Inv(drv, c) && BootFrom(drv, todo, c, supply).1
    requires Serves(drv, w) && forall i :: 0 <= i < |todo| ==> Serves(drv, todo[i])
    requires Apart(drv, w, p.0) && forall i :: 0 <= i < |todo| && i < |supply| ==> Apart(drv, todo[i], supply[i].0)
    requires HasDisk(c, w, p) || exists i :: 0 <= i < |todo| && i < |supply| && todo[i] == w && supply[i] == p
    ensures |todo| <= |supply| && HasDisk(BootFrom(drv, todo, c, supply).0, w, p)
    decreases |todo|
  {
    hide Inv, CreateApply, CreateSpec, Taken, Apart, Assigned, HasDisk, NoneAssigned;
    if todo != [] {
      var c1 := CreateApply(drv, c, todo[0], "", supply[0].0, supply[0].1);
      var c2 := AfterRound(drv, c, todo[0], supply[0]);
      CreateKeepsInv(drv, c, todo[0], "", supply[0].0, supply[0].1);
      AssignKeepsInv(drv, c1, todo[0], supply[0].0);
      RoundGives(drv, c, todo[0], supply[0]);
      if HasDisk(c, w, p) {
        HasDiskAssigned(c, w, p);
        RoundKeeps(drv, c, todo[0], supply[0], w, p);
      } else {
        LaterRound(todo, supply, w, p);
      }
      BootCompletes(drv, todo[1..], c2, supply[1..], w, p);
    }
  }

  lemma HasDiskAssigned(c: Resources, w: Volume, p: (string, string))
    requires HasDisk(c, w, p)
    ensures !NoneAssigned(c, w)
  {
  }

  lemma LaterRound(todo: seq<Volume>, supply: seq<(string, string)>, w: Volume, p: (string, string))
    requires todo != [] && supply != []
    requires exists i :: 0 <= i < |todo| && i < |supply| && todo[i] == w && supply[i] == p
    ensures (todo[0] == w && supply[0] == p)
            || exists i :: 0 <= i < |todo[1..]| && i < |supply[1..]| && todo[1..][i] == w && supply[1..][i] == p
  {
    var i :| 0 <= i < |todo| && i < |supply| && todo[i] == w && supply[i] == p;
    if i > 0 {
      assert todo[1..][i - 1] == w && supply[1..][i - 1] == p;
    }
  }

  /** Main result on bootstraps: one that reaches its end leaves every volume with exactly one assigned
      disk, the one created for it, be it a managed disk or a share, whatever unassigned disks the
      volumes had; a second one finds nothing to do. All it takes are names such as the code
      generates. */
  lemma BootstrapInitialises(drv: Driver, c: Resources, supply: seq<(string, string)>)
    requires Inv(drv, c) && Supported(drv) && BootFrom(drv, VolumesOf(drv), c, supply).1
    requires forall i :: 0 <= i < |drv.volumes| && i < |supply| ==> Apart(drv, VolumesOf(drv)[i], supply[i].0)
    ensures |drv.volumes| <= |supply|
    ensures var vols := VolumesOf(drv);
            var after := BootFrom(drv, vols, c, supply).0;
            && Inv(drv, after) && AllOne(after, vols) && BootApply(drv, after, supply) == after
            && forall i :: 0 <= i < |vols| ==> HasDisk(after, vols[i], supply[i])
  {
    hide Inv, BootFrom, Apart, ExactlyOne, NoneAssigned, Resolve;
    var vols := VolumesOf(drv);
    var after := BootFrom(drv, vols, c, supply).0;
    BootKeepsInv(drv, vols, c, supply);
    EnoughSupply(drv, vols, c, supply);
    forall i | 0 <= i < |vols| ensures HasDisk(after, vols[i], supply[i]) {
      BootCompletes(drv, vols, c, supply, vols[i], supply[i]);
    }
    assert forall i :: 0 <= i < |vols| ==> HasDisk(after, vols[i], supply[i]);
    if vols != [] {
      HasDiskAssigned(after, vols[0], supply[0]);
    } else {
      BootNothing(drv, after, supply);
    }
  }

  lemma {:induction false} EnoughSupply(drv: Driver, todo: seq<Volume>, c: Resources, supply: seq<(string, string)>)
    requires BootFrom(drv, todo, c, supply).1
    ensures |todo| <= |supply|
    decreases |todo|
  {
    hide CreateApply, CreateSpec, Taken, Assigned, NoneAssigned;
    if todo != [] {
      var c1 := CreateApply(drv, c, todo[0], "", supply[0].0, supply[0].1);
      EnoughSupply(drv, todo[1..], Assigned(c1, todo[0], supply[0].0), supply[1..]);
    }
  }

  /** Every single correction makes the set of wrong flags smaller by that disk, whatever else is
      wrong, and leaves other volumes alone. */
  lemma UpdateReducesWrong(c: Resources, vol: Volume, name: string, k: Place)
    requires k in Wrong(c, vol, name)
    ensures var n := c[k := Mark(c[k], NameOf(c[k]) == name)];
            && Wrong(n, vol, name) == Wrong(c, vol, name) - {k}
            && |Wrong(n, vol, name)| == |Wrong(c, vol, name)| - 1
            && forall j, w :: w != vol ==> (IsAssigned(n, w, j) <==> IsAssigned(c, w, j))
  {
    FixedStep(c, vol, name, {}, k);
    FixedEffect(c, vol, name, {k});
    assert Fixed(c, vol, name, {}) == c;
    assert {} + {k} == {k};
    var n := c[k := Mark(c[k], NameOf(c[k]) == name)];
    assert n == Fixed(c, vol, name, {k});
    forall j, w | w != vol ensures IsAssigned(n, w, j) <==> IsAssigned(c, w, j) {
      if j in c {
        assert Owns(n[j], w) <==> Owns(c[j], w);
      }
    }
  }

  lemma NothingWrongNothingDone(c: Resources, vol: Volume, name: string)
    ensures Wrong(c, vol, name) == {} ==> Assigned(c, vol, name) == c
  {
    assert forall j :: j in c && WrongAt(c[j], vol, name) ==> j in Wrong(c, vol, name);
  }

  /** Convergence: from whatever earlier failed calls left, a completed call leaves the target as the
      volume's one assigned disk, and a repetition has nothing to correct. */
  lemma AssignConverges(drv: Driver, c: Resources, vol: Volume, name: string)
    requires Consistent(drv, c) && Serves(drv, vol) && Taken(c, vol, name)
    ensures var a := Assigned(c, vol, name);
            && Consistent(drv, a)
            && (exists k :: IsDisk(a, vol, name, k) && AssignedKeys(a, vol) == {k})
            && Wrong(a, vol, name) == {} && Assigned(a, vol, name) == a
  {
    var a := Assigned(c, vol, name);
    FixedConsistent(drv, c, vol, name, c.Keys);
    AssignedEffect(c, vol, name);
    FixedEffect(c, vol, name, c.Keys);
    var k :| k in c && IsDisk(c, vol, name, k);
    forall j | IsDisk(c, vol, name, j) ensures j == k {
      NamedDiskUnique(drv, c, vol, name, j, k);
    }
    assert IsDisk(a, vol, name, k);
    NothingWrongNothingDone(a, vol, name);
    hide Assigned, Wrong, Key, Owns, Flag, Fixed;
    assert forall j :: IsAssigned(a, vol, j) <==> j == k;
    assert AssignedKeys(a, vol) == {k};
  }
}
