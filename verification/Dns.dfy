/** DNS records in Azure zones: which zone a name belongs to and what it is called inside it
    (adapters/drivers/provider/aks/azure_dns.go). */
module Dns {
  import opened Text

  datatype Zone = Zone(id: string, name: string)

  datatype DnsError = NoZones | NoMatch(fqdn: string) | NoFQDN | UnsupportedType | TooMuchData

  /** A name without its trailing dot; only one is removed. */
  function Bare(s: string): string {
    TrimSuffix(s, ".")
  }

  /** The name is the zone itself or lies below it. */
  predicate Covers(zone: string, name: string) {
    name == zone || HasSuffix(name, "." + zone)
  }

  // ---------- choosing the zone

  predicate Hinted(z: Zone, hint: string) {
    z.id == hint || z.name == hint
  }

  /** The zone covers the name; a zone without a name never wins. */
  predicate Matches(z: Zone, fqdn: string) {
    Covers(Bare(z.name), Bare(fqdn)) && Bare(z.name) != ""
  }

  /** The first among the longest matching zones. */
  ghost predicate Best(zones: seq<Zone>, fqdn: string, i: nat)
    requires i < |zones|
  {
    && Matches(zones[i], fqdn)
    && (forall j :: 0 <= j < |zones| && Matches(zones[j], fqdn) ==> |Bare(zones[j].name)| <= |Bare(zones[i].name)|)
    && (forall j :: 0 <= j < i && Matches(zones[j], fqdn) ==> |Bare(zones[j].name)| < |Bare(zones[i].name)|)
  }

  ghost predicate FirstHinted(zones: seq<Zone>, hint: string, i: nat)
    requires i < |zones|
  {
    hint in {zones[i].id, zones[i].name} && forall j :: 0 <= j < i ==> hint !in {zones[j].id, zones[j].name}
  }

  /** A hint that names a zone decides; otherwise the longest match does. */
  method SelectZone(fqdn: string, zones: seq<Zone>, hint: string) returns (r: Result<Zone, DnsError>)
    ensures zones == [] ==> r == Err(NoZones)
    ensures hint != "" && (exists z :: z in zones && hint in {z.id, z.name}) ==>
              exists i :: 0 <= i < |zones| && FirstHinted(zones, hint, i) && r == Ok(zones[i])
    ensures zones != [] && (hint == "" || forall z :: z in zones ==> hint !in {z.id, z.name}) ==>
              && (r.Ok? <==> exists z :: z in zones && Matches(z, fqdn))
              && (r.Ok? ==> exists i :: 0 <= i < |zones| && Best(zones, fqdn, i) && r == Ok(zones[i]))
  {
    hide Covers, Bare;
    if |zones| == 0 {
      return Err(NoZones);
    }
    if hint != "" {
      for i := 0 to |zones|
        invariant forall j :: 0 <= j < i ==> !Hinted(zones[j], hint)
      {
        if Hinted(zones[i], hint) {
          assert FirstHinted(zones, hint, i);
          return Ok(zones[i]);
        }
      }
    }
    r := LongestMatch(fqdn, zones);
  }

  method LongestMatch(fqdn: string, zones: seq<Zone>) returns (r: Result<Zone, DnsError>)
    ensures r.Ok? <==> exists z :: z in zones && Matches(z, fqdn)
    ensures r.Ok? ==> exists i :: 0 <= i < |zones| && Best(zones, fqdn, i) && r == Ok(zones[i])
  {
    hide Covers, Bare;
    var best: Option<nat> := None;
    var length := 0;
    for i := 0 to |zones|
      invariant best.None? ==> length == 0 && forall j :: 0 <= j < i ==> !Matches(zones[j], fqdn)
      invariant best.Some? ==>
                  && best.value < i && Matches(zones[best.value], fqdn) && length == |Bare(zones[best.value].name)|
                  && (forall j :: 0 <= j < i && Matches(zones[j], fqdn) ==> |Bare(zones[j].name)| <= length)
                  && (forall j :: 0 <= j < best.value && Matches(zones[j], fqdn) ==> |Bare(zones[j].name)| < length)
    {
      var name := Bare(zones[i].name);
      if Covers(name, Bare(fqdn)) {
        if |name| > length {
          best := Some(i);
          length := |name|;
        }
      }
    }
    if best.None? {
      return Err(NoMatch(Bare(fqdn)));
    }
    assert Best(zones, fqdn, best.value);
    return Ok(zones[best.value]);
  }

  // ---------- covering is about whole labels

  lemma {:induction false} JoinConcat(a: seq<string>, b: seq<string>)
    requires a != [] && b != []
    ensures Join(a + b, '.') == Join(a, '.') + ['.'] + Join(b, '.')
  {
    if |a| == 1 {
      assert (a + b)[1..] == b;
    } else {
      assert (a + b)[1..] == a[1..] + b;
      JoinConcat(a[1..], b);
    }
  }

  function Labels(name: string): seq<string> {
    Split(name, '.')
  }

  /** The zone's labels are the last labels of the name. */
  predicate LabelSuffix(zone: string, name: string) {
    |Labels(zone)| <= |Labels(name)| && Labels(name)[|Labels(name)| - |Labels(zone)|..] == Labels(zone)
  }

  /** The test on characters is the test on labels: a zone never covers a name by ending inside a label. */
  lemma CoversIsLabelSuffix(zone: string, name: string)
    ensures Covers(zone, name) <==> LabelSuffix(zone, name)
  {
    if Covers(zone, name) && name != zone {
      SuffixSplits(name, "." + zone);
      BelowHasLabels(zone, name[..|name| - |"." + zone|], name);
    }
    if LabelSuffix(zone, name) {
      LabelsGiveSuffix(zone, name);
    }
  }

  lemma BelowHasLabels(zone: string, front: string, name: string)
    requires name == front + "." + zone
    ensures LabelSuffix(zone, name)
  {
    SplitConcat(front, zone, '.');
    assert (Labels(front) + Labels(zone))[|Labels(front)|..] == Labels(zone);
  }

  lemma LabelsGiveSuffix(zone: string, name: string)
    requires LabelSuffix(zone, name)
    ensures Covers(zone, name)
  {
    var front := Labels(name)[..|Labels(name)| - |Labels(zone)|];
    assert Labels(name) == front + Labels(zone);
    JoinSplit(name, '.');
    JoinSplit(zone, '.');
    hide Split, Join;
    if front == [] {
      assert front + Labels(zone) == Labels(zone);
    } else {
      JoinConcat(front, Labels(zone));
      SuffixOfConcat(Join(front, '.'), "." + zone);
      assert name == Join(front, '.') + ("." + zone);
    }
  }

  lemma CoversShorter(f: string, a: string, b: string)
    requires Covers(a, f) && Covers(b, f) && |a| <= |b|
    ensures Covers(a, b)
  {
    if |a| == |b| {
      assert a == f[|f| - |a|..] && b == f[|f| - |b|..];
    } else if f != b {
      var n := |f|;
      assert f[n - |"." + a|..] == "." + a && f[n - |"." + b|..] == "." + b;
      assert b == f[n - |b|..];
      assert b[|b| - |"." + a|..] == f[n - |"." + a|..];
    }
  }

  /** Main result on the choice: every other matching zone is an ancestor of the chosen one. */
  lemma OthersAreAncestors(zones: seq<Zone>, fqdn: string, i: nat, j: nat)
    requires i < |zones| && j < |zones| && Best(zones, fqdn, i) && Matches(zones[j], fqdn)
    ensures LabelSuffix(Bare(zones[j].name), Bare(zones[i].name)) && LabelSuffix(Bare(zones[i].name), Bare(fqdn))
  {
    hide Bare, LabelSuffix;
    CoversShorter(Bare(fqdn), Bare(zones[j].name), Bare(zones[i].name));
    CoversIsLabelSuffix(Bare(zones[j].name), Bare(zones[i].name));
    CoversIsLabelSuffix(Bare(zones[i].name), Bare(fqdn));
  }

  // ---------- names relative to a zone

  /** azureDNSRecordSetName. */
  function RecordName(fqdn: string, zone: string): string {
    if Bare(fqdn) == Bare(zone) then "@"
    else TrimSuffix(Bare(fqdn), "." + Bare(zone))
  }

  /** What a relative name stands for in a zone (section 5.1 of RFC 1035). */
  function Absolute(name: string, zone: string): string {
    if name == "@" then zone else name + "." + zone
  }

  /** Main result on names: below the zone, relative name and zone give back the name, except for the
      one whose relative name reads as the apex. */
  lemma RebuiltExactly(fqdn: string, zone: string)
    requires Covers(Bare(zone), Bare(fqdn))
    ensures Absolute(RecordName(fqdn, zone), Bare(zone)) == Bare(fqdn) <==> Bare(fqdn) != "@." + Bare(zone)
  {
    hide Bare;
    var f, z := Bare(fqdn), Bare(zone);
    if f != z {
      SuffixSplits(f, "." + z);
      var front := f[..|f| - |"." + z|];
      assert RecordName(fqdn, zone) == front && f == front + "." + z;
      assert |"@." + z| == |z| + 2;
      if f == "@." + z {
        assert front == "@";
      }
    }
  }

  /** Exactly when two names below a zone share a record: they are equal, or one is the apex and the
      other the label @ below it. */
  lemma SharedExactly(f: string, g: string, zone: string)
    requires Covers(Bare(zone), Bare(f)) && Covers(Bare(zone), Bare(g))
    ensures RecordName(f, zone) == RecordName(g, zone) <==>
            || Bare(f) == Bare(g)
            || (Bare(f) == Bare(zone) && Bare(g) == "@." + Bare(zone))
            || (Bare(g) == Bare(zone) && Bare(f) == "@." + Bare(zone))
  {
    hide Bare;
    var z := Bare(zone);
    RelativeOf(f, zone);
    RelativeOf(g, zone);
    assert ("@." + z)[..1] == "@" && "@" + "." + z == "@." + z;
  }

  lemma RelativeOf(f: string, zone: string)
    requires Covers(Bare(zone), Bare(f))
    ensures Bare(f) == Bare(zone) ==> RecordName(f, zone) == "@"
    ensures Bare(f) != Bare(zone) ==> Bare(f) == RecordName(f, zone) + "." + Bare(zone)
  {
    hide Bare;
    if Bare(f) != Bare(zone) {
      SuffixSplits(Bare(f), "." + Bare(zone));
      assert RecordName(f, zone) + ("." + Bare(zone)) == RecordName(f, zone) + "." + Bare(zone);
    }
  }

  /** Names none of whose labels is @ are told apart. */
  lemma DistinctNamesDistinctRecords(f: string, g: string, zone: string)
    requires Covers(Bare(zone), Bare(f)) && Covers(Bare(zone), Bare(g))
    requires "@" !in Labels(Bare(f)) && "@" !in Labels(Bare(g)) && Bare(f) != Bare(g)
    ensures RecordName(f, zone) != RecordName(g, zone)
  {
    SharedExactly(f, g, zone);
    hide Bare, Covers, RecordName;
    var z := Bare(zone);
    SplitAtSeparator("@", z, '.');
    assert "@" + ['.'] + z == "@." + z;
    assert ([("@")] + Labels(z))[0] == "@";
  }

  // ---------- record sets

  const DEFAULT_TTL := 300

  datatype RecordType = A | AAAA | CNAME | OtherType(text: string)

  class RecordSet {
    var fqdn: string
    var recordType: RecordType
    var data: seq<string>
    var ttl: int

    constructor (fqdn: string, recordType: RecordType, data: seq<string>, ttl: int)
      ensures this.fqdn == fqdn && this.recordType == recordType && this.data == data && this.ttl == ttl
    {
      this.fqdn, this.recordType, this.data, this.ttl := fqdn, recordType, data, ttl;
    }

    /** normalizeDNSRecordSet: a fault found after the name is checked leaves the name trimmed. */
    method Normalize() returns (err: Option<DnsError>)
      modifies this`fqdn, this`ttl
      ensures err.None? <==> old(fqdn) != "" && !recordType.OtherType? && (recordType == CNAME ==> |data| <= 1)
      ensures fqdn == Bare(old(fqdn))
      ensures ttl == if err.None? && old(ttl) == 0 then DEFAULT_TTL else old(ttl)
    {
      if fqdn == "" {
        return Some(NoFQDN);
      }
      fqdn := TrimSuffix(fqdn, ".");
      if recordType.OtherType? {
        return Some(UnsupportedType);
      }
      if recordType == CNAME && |data| > 1 {
        return Some(TooMuchData);
      }
      if ttl == 0 {
        ttl := DEFAULT_TTL;
      }
      return None;
    }
  }

  /** A normalized name is its own normalization exactly when it does not end in two dots; for such
      a name the later steps, which trim again, all see the same name. */
  lemma NormalizedOnce(fqdn: string)
    ensures Bare(Bare(fqdn)) == Bare(fqdn) <==> !HasSuffix(fqdn, "..")
  {
    LastDots(fqdn);
    LastDots(Bare(fqdn));
    hide HasSuffix;
  }

  lemma LastDots(s: string)
    ensures HasSuffix(s, ".") <==> s != "" && s[|s| - 1] == '.'
    ensures HasSuffix(s, "..") <==> |s| >= 2 && s[|s| - 2] == '.' && s[|s| - 1] == '.'
  {
    if |s| >= 1 {
      assert s[|s| - 1..] == [s[|s| - 1]];
    }
    if |s| >= 2 {
      assert s[|s| - 2..] == [s[|s| - 2], s[|s| - 1]];
    }
  }
}
