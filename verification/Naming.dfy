/** Hashes and bounded names (internal/naming/naming.go, adapters/drivers/provider/aks/naming.go).
    The SHA-256 digest stays uninterpreted: it is a parameter, given as base-36 text. */
module Naming {
  import opened Text

  type Digest = string -> string

  /** Zeros in front up to length n, then the first n characters. */
  function Fit(h: string, n: nat): (r: string)
    ensures |r| == n
    decreases n - |h|
  {
    if |h| >= n then h[..n] else Fit("0" + h, n)
  }

  /** Short text is padded with zeros in front, long text is cut behind the first n characters. */
  lemma {:induction false} FitExactly(h: string, n: nat)
    ensures |h| <= n ==> Fit(h, n) == Zeros(n - |h|) + h
    ensures |h| >= n ==> exists rest :: h == Fit(h, n) + rest
    decreases n - |h|
  {
    if |h| < n {
      FitExactly("0" + h, n);
      assert Zeros(n - |h| - 1) + ("0" + h) == Zeros(n - |h|) + h;
    } else {
      assert h == Fit(h, n) + h[n..];
      assert |h| == n ==> h[..n] == h && Zeros(0) + h == h;
    }
  }

  function ShortHash(digest: Digest, s: string, n: nat): (r: string)
    ensures |r| == n
  {
    Fit(digest(s), n)
  }

  method ComputeShortHash(digest: Digest, s: string, n: nat) returns (h: string)
    ensures h == ShortHash(digest, s, n)
  {
    h := digest(s);
    while |h| < n
      invariant Fit(h, n) == Fit(digest(s), n)
      decreases n - |h|
    {
      h := "0" + h;
    }
    if |h| > n {
      h := h[..n];
    }
  }

  const HASH_LENGTH: nat := 6

  /** What base-36 text consists of. */
  ghost predicate Base36(digest: Digest) {
    forall s, i :: 0 <= i < |digest(s)| ==> LowerAlnum(digest(s)[i])
  }

  lemma {:induction false} FitAlnum(h: string, n: nat)
    requires forall i :: 0 <= i < |h| ==> LowerAlnum(h[i])
    ensures forall i :: 0 <= i < n ==> LowerAlnum(Fit(h, n)[i])
    decreases n - |h|
  {
    if |h| < n {
      FitAlnum("0" + h, n);
    }
  }

  datatype Hashes = Hashes(provider: string, appID: string, appInstance: string, namespace: string)

  function NewHashes(digest: Digest, workspace: string, provider: string, cluster: string, app: string): (h: Hashes)
    ensures |h.provider| == |h.appID| == |h.appInstance| == HASH_LENGTH
  {
    var p := ShortHash(digest, workspace + ":" + provider, HASH_LENGTH);
    var a := ShortHash(digest, workspace + ":" + provider + ":" + app, HASH_LENGTH);
    var i := ShortHash(digest, workspace + ":" + provider + ":" + cluster + ":" + app, HASH_LENGTH);
    Hashes(p, a, i, "k4x-" + p + "-" + app + "-" + a)
  }

  /** What is hashed are the identifiers joined by colons, each hash covering one level more, and the
      instance's hash the cluster too; the namespace joins hashes and app by hyphens. */
  lemma HashedIdentifiers(digest: Digest, workspace: string, provider: string, cluster: string, app: string)
    ensures var h := NewHashes(digest, workspace, provider, cluster, app);
            && h.provider == ShortHash(digest, Join([workspace, provider], ':'), HASH_LENGTH)
            && h.appID == ShortHash(digest, Join([workspace, provider, app], ':'), HASH_LENGTH)
            && h.appInstance == ShortHash(digest, Join([workspace, provider, cluster, app], ':'), HASH_LENGTH)
            && h.namespace == Join(["k4x", h.provider, app, h.appID], '-')
  {
    hide ShortHash;
    var h := NewHashes(digest, workspace, provider, cluster, app);
    JoinTwo(workspace, provider, ':');
    JoinTwo(provider, app, ':');
    JoinTwo(cluster, app, ':');
    JoinTwo(app, h.appID, '-');
    JoinMore(workspace, [provider, app], ':');
    JoinMore(provider, [cluster, app], ':');
    JoinMore(workspace, [provider, cluster, app], ':');
    JoinMore(h.provider, [app, h.appID], '-');
    JoinMore("k4x", [h.provider, app, h.appID], '-');
    hide Join;
    assert workspace + ":" + provider == workspace + [':'] + provider;
    assert workspace + ":" + provider + ":" + app == workspace + [':'] + (provider + [':'] + app);
    assert workspace + ":" + provider + ":" + cluster + ":" + app ==
           workspace + [':'] + (provider + [':'] + (cluster + [':'] + app));
    assert "k4x-" + h.provider + "-" + app + "-" + h.appID ==
           "k4x" + ['-'] + (h.provider + ['-'] + (app + ['-'] + h.appID));
  }

  lemma JoinTwo(a: string, b: string, c: char)
    ensures Join([a, b], c) == a + [c] + b
  {
    assert [a, b][1..] == [b];
  }

  lemma JoinMore(a: string, rest: seq<string>, c: char)
    requires rest != []
    ensures Join([a] + rest, c) == a + [c] + Join(rest, c)
    ensures |rest| == 2 ==> [a] + rest == [a, rest[0], rest[1]]
    ensures |rest| == 3 ==> [a] + rest == [a, rest[0], rest[1], rest[2]]
  {
    assert ([a] + rest)[1..] == rest;
  }

  /** The default name of a volume's PV and PVC. */
  function VolumeResourceName(digest: Digest, h: Hashes, volume: string, handle: string): string {
    "k4x-" + h.provider + "-" + volume + "-" + h.appID + "-" + ShortHash(digest, handle, HASH_LENGTH)
  }

  /** Default resource names need no trimming. */
  lemma VolumeResourceNameTrimmed(digest: Digest, h: Hashes, volume: string, handle: string)
    requires Base36(digest)
    ensures TrimSpace(VolumeResourceName(digest, h, volume, handle)) == VolumeResourceName(digest, h, volume, handle)
    ensures VolumeResourceName(digest, h, volume, handle) != ""
  {
    var hash := ShortHash(digest, handle, HASH_LENGTH);
    var name := VolumeResourceName(digest, h, volume, handle);
    assert LowerAlnum(hash[5]) by {
      FitAlnum(digest(handle), HASH_LENGTH);
    }
    assert name[0] == 'k' && name[|name| - 1] == hash[5];
    TrimmedAlready(name);
  }

  /** Two strings with equally long tails are equal only if both parts are. */
  lemma EqualTails(a: string, b: string, x: string, y: string)
    requires |x| == |y| && a + x == b + y
    ensures a == b && x == y
  {
    assert |a| == |b|;
    assert a == (a + x)[..|a|] && b == (b + y)[..|b|];
    assert x == (a + x)[|a|..] && y == (b + y)[|b|..];
  }

  /** Within one app, default resource names tell volumes and handle hashes apart. */
  lemma VolumeResourceNamesSeparate(digest: Digest, h: Hashes, v: string, handle: string, v': string, handle': string)
    ensures VolumeResourceName(digest, h, v, handle) == VolumeResourceName(digest, h, v', handle') <==>
            v == v' && ShortHash(digest, handle, HASH_LENGTH) == ShortHash(digest, handle', HASH_LENGTH)
  {
    hide ShortHash;
    var s, s' := ShortHash(digest, handle, HASH_LENGTH), ShortHash(digest, handle', HASH_LENGTH);
    var front := "k4x-" + h.provider + "-";
    if VolumeResourceName(digest, h, v, handle) == VolumeResourceName(digest, h, v', handle') {
      EqualTails(front + v + "-" + h.appID + "-", front + v' + "-" + h.appID + "-", s, s');
      assert front + v + "-" + h.appID + "-" == front + v + ("-" + h.appID + "-");
      assert front + v' + "-" + h.appID + "-" == front + v' + ("-" + h.appID + "-");
      EqualTails(front + v, front + v', "-" + h.appID + "-", "-" + h.appID + "-");
      assert v == (front + v)[|front|..] && v' == (front + v')[|front|..];
    }
  }

  // ---------- names of cloud resources, bounded to 72 characters

  const MAX_RESOURCE_NAME: nat := 72
  const MAX_VOLUME_NAME: nat := 16
  const MAX_DISK_NAME: nat := 24

  datatype NameError = HashTooLong | VolumeTooLong | DiskTooLong

  function SafeTruncate(base: string, hash: string): Result<string, NameError> {
    var maxBase: int := MAX_RESOURCE_NAME - (|hash| + 1);
    if maxBase < 1 then Err(HashTooLong)
    else Ok((if |base| > maxBase then base[..maxBase] else base) + "_" + hash)
  }

  /** The part of a managed disk's or snapshot's name in front of the hash. */
  function ResourceBase(prefix: string, infix: string, volume: string, item: string): string {
    prefix + infix + volume + "_" + item
  }

  function ResourceName(prefix: string, infix: string, hash: string, volume: string, item: string)
    : Result<string, NameError>
  {
    if |volume| > MAX_VOLUME_NAME then Err(VolumeTooLong)
    else if |item| > MAX_DISK_NAME then Err(DiskTooLong)
    else SafeTruncate(ResourceBase(prefix, infix, volume, item), hash)
  }

  function AppDiskName(prefix: string, hash: string, volume: string, disk: string): Result<string, NameError> {
    ResourceName(prefix, "_disk_", hash, volume, disk)
  }

  function AppSnapshotName(prefix: string, hash: string, volume: string, snapshot: string): Result<string, NameError> {
    ResourceName(prefix, "_snap_", hash, volume, snapshot)
  }

  /** Every bounded name has at most 72 characters, ends in its hash, and loses nothing of a base
      that fits. */
  lemma TruncationBounds(base: string, hash: string)
    requires |hash| <= MAX_RESOURCE_NAME - 2
    ensures var name := SafeTruncate(base, hash);
            && name.Ok? && |name.value| <= MAX_RESOURCE_NAME && HasSuffix(name.value, "_" + hash)
            && (|base| + |hash| < MAX_RESOURCE_NAME ==> name.value == base + "_" + hash)
  {
    var kept := MAX_RESOURCE_NAME - (|hash| + 1);
    var cut := if |base| > kept then base[..kept] else base;
    assert cut + "_" + hash == cut + ("_" + hash);
    SuffixOfConcat(cut, "_" + hash);
  }

  /** Two bounded names under one hash are equal exactly when their bases agree on the characters
      that are kept. */
  lemma TruncationKeeps(base: string, base': string, hash: string)
    requires |hash| <= MAX_RESOURCE_NAME - 2
    ensures var kept := MAX_RESOURCE_NAME - (|hash| + 1);
            SafeTruncate(base, hash) == SafeTruncate(base', hash) <==>
            base == base' || (|base| >= kept && |base'| >= kept && base[..kept] == base'[..kept])
  {
    var kept := MAX_RESOURCE_NAME - (|hash| + 1);
    var cut := if |base| > kept then base[..kept] else base;
    var cut' := if |base'| > kept then base'[..kept] else base';
    assert cut + "_" + hash == cut + ("_" + hash) && cut' + "_" + hash == cut' + ("_" + hash);
    if cut + "_" + hash == cut' + "_" + hash {
      EqualTails(cut, cut', "_" + hash, "_" + hash);
    }
  }

  /** A label has no underscore, so the volume ends at the first one. */
  lemma BaseSeparates(prefix: string, infix: string, v: string, d: string, v': string, d': string)
    requires Free(v, '_') && Free(v', '_')
    requires ResourceBase(prefix, infix, v, d) == ResourceBase(prefix, infix, v', d')
    ensures v == v' && d == d'
  {
    var front := prefix + infix;
    var rest, rest' := v + "_" + d, v' + "_" + d';
    assert ResourceBase(prefix, infix, v, d) == front + rest && ResourceBase(prefix, infix, v', d') == front + rest';
    assert rest == (front + rest)[|front|..] && rest' == (front + rest')[|front|..];
    assert rest == rest';
    assert rest[|v|] == '_' && rest'[|v'|] == '_';
    assert forall i :: 0 <= i < |v| ==> rest[i] == v[i] != '_';
    assert forall i :: 0 <= i < |v'| ==> rest'[i] == v'[i] != '_';
    assert |v| == |v'|;
    assert v == rest[..|v|] && v' == rest'[..|v'|];
    assert d == rest[|v| + 1..] && d' == rest'[|v'| + 1..];
  }

  /** In different volumes the kept parts differ, whatever is cut off: with the prefix of at most 32
      characters that the driver allows, the end of the volume's name is always kept. */
  lemma KeptVolumesDiffer(prefix: string, v: string, d: string, v': string, d': string)
    requires |prefix| <= 32 && |v| <= MAX_VOLUME_NAME && |v'| <= MAX_VOLUME_NAME
    requires Free(v, '_') && Free(v', '_') && v != v'
    ensures var base, base' := ResourceBase(prefix, "_disk_", v, d), ResourceBase(prefix, "_disk_", v', d');
            && base != base'
            && (|base| >= 65 && |base'| >= 65 ==> base[..65] != base'[..65])
  {
    var base, base' := ResourceBase(prefix, "_disk_", v, d), ResourceBase(prefix, "_disk_", v', d');
    if base == base' {
      BaseSeparates(prefix, "_disk_", v, d, v', d');
    }
    if |base| >= 65 && |base'| >= 65 && base[..65] == base'[..65] {
      var front := prefix + "_disk_";
      var rest, rest' := d[..59 - |prefix| - |v| - 1], d'[..59 - |prefix| - |v'| - 1];
      assert base[..65] == ResourceBase(prefix, "_disk_", v, rest);
      assert base'[..65] == ResourceBase(prefix, "_disk_", v', rest');
      BaseSeparates(prefix, "_disk_", v, rest, v', rest');
    }
  }

  /** Main result on names: different (volume, disk) pairs get different resource names. In different
      volumes, whose names have no underscore, the driver's bounds are enough; in one volume, or
      under a longer prefix, prefix, volume and disk may have 58 characters together. */
  lemma DiskNamesSeparate(prefix: string, hash: string, v: string, d: string, v': string, d': string)
    requires |hash| == HASH_LENGTH && Free(v, '_') && Free(v', '_')
    requires v == v' || |prefix| > 32 ==> |prefix| + |v| + |d| <= 58 && |prefix| + |v'| + |d'| <= 58
    requires AppDiskName(prefix, hash, v, d).Ok? && AppDiskName(prefix, hash, v', d').Ok?
    ensures AppDiskName(prefix, hash, v, d) == AppDiskName(prefix, hash, v', d') <==> v == v' && d == d'
  {
    hide SafeTruncate;
    var base, base' := ResourceBase(prefix, "_disk_", v, d), ResourceBase(prefix, "_disk_", v', d');
    TruncationKeeps(base, base', hash);
    if v != v' && |prefix| <= 32 {
      KeptVolumesDiffer(prefix, v, d, v', d');
    } else {
      if base == base' {
        BaseSeparates(prefix, "_disk_", v, d, v', d');
      }
      if |base| >= 65 && |base'| >= 65 {
        assert |base| == |base'| == 65;
        assert base == base[..65] && base' == base'[..65];
      }
    }
  }

  /** A disk's name is never a snapshot's name, whatever was cut off. */
  lemma DiskIsNotSnapshot(prefix: string, hash: string, v: string, d: string, v': string, s: string)
    requires |hash| == HASH_LENGTH && |prefix| <= 32
    requires AppDiskName(prefix, hash, v, d).Ok? && AppSnapshotName(prefix, hash, v', s).Ok?
    ensures AppDiskName(prefix, hash, v, d) != AppSnapshotName(prefix, hash, v', s)
  {
    hide SafeTruncate;
    var base, base' := ResourceBase(prefix, "_disk_", v, d), ResourceBase(prefix, "_snap_", v', s);
    TruncationKeeps(base, base', hash);
    var k := |prefix| + 1;
    assert base[k] == 'd' && base'[k] == 's';
    if |base| >= 65 && |base'| >= 65 {
      assert base[..65][k] == 'd' && base'[..65][k] == 's';
    }
  }

  /** Within one volume the bound of 58 is needed: longer names that differ only in what is cut off share a resource. */
  lemma DiskNamesCollide(prefix: string, hash: string, v: string, d: string, d': string)
    requires |hash| == HASH_LENGTH && |prefix| == 32 && |v| == MAX_VOLUME_NAME
    requires |d| == |d'| == MAX_DISK_NAME && d[..10] == d'[..10]
    ensures AppDiskName(prefix, hash, v, d).Ok? && AppDiskName(prefix, hash, v, d) == AppDiskName(prefix, hash, v, d')
  {
    hide SafeTruncate;
    var base, base' := ResourceBase(prefix, "_disk_", v, d), ResourceBase(prefix, "_disk_", v, d');
    TruncationBounds(base, hash);
    TruncationKeeps(base, base', hash);
    var front := prefix + "_disk_" + v + "_";
    assert base[..65] == front + d[..10] && base'[..65] == front + d'[..10];
  }
}
