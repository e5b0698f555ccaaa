/** The aggregate hash of a pod: the content hashes of everything it refers to, one after another
    (adapters/kube/content_hash.go). */
module PodHash {
  import opened Text
  import opened Sorting
  import opened Naming

  /** A Secret or ConfigMap as far as the hash reads it: its name and its content-hash annotation. */
  datatype HashedObject = HashedObject(name: string, hash: Option<string>)

  /** A reference to a Secret, to a ConfigMap, to both or to neither. */
  datatype SourceRef = SourceRef(secret: Option<string>, configMap: Option<string>)

  datatype PodContainer = PodContainer(name: string, envFrom: seq<SourceRef>)

  datatype PodSpec = PodSpec(imagePullSecrets: seq<string>, containers: seq<PodContainer>, volumes: seq<SourceRef>)

  type HashTable = map<string, string>

  // ---------- the table of hashes

  predicate Contributes(o: HashedObject) {
    o.name != "" && o.hash.Some?
  }

  /** Later objects of a name override earlier ones. */
  function Collect(objects: seq<HashedObject>): HashTable {
    if objects == [] then map[]
    else
      var o := objects[|objects| - 1];
      var rest := Collect(objects[..|objects| - 1]);
      if Contributes(o) then rest[o.name := o.hash.value] else rest
  }

  /** ConfigMaps override Secrets of the same name. */
  function TableOf(secrets: seq<HashedObject>, configMaps: seq<HashedObject>): HashTable {
    Collect(secrets) + Collect(configMaps)
  }

  method BuildTable(secrets: seq<HashedObject>, configMaps: seq<HashedObject>) returns (m: HashTable)
    ensures m == TableOf(secrets, configMaps)
  {
    m := map[];
    for i := 0 to |secrets|
      invariant m == Collect(secrets[..i])
    {
      assert secrets[..i + 1][..i] == secrets[..i] && secrets[..i + 1][i] == secrets[i];
      if secrets[i].name == "" || secrets[i].hash.None? {
        continue;
      }
      m := m[secrets[i].name := secrets[i].hash.value];
    }
    assert secrets[..|secrets|] == secrets;
    for i := 0 to |configMaps|
      invariant m == Collect(secrets) + Collect(configMaps[..i])
    {
      assert configMaps[..i + 1][..i] == configMaps[..i] && configMaps[..i + 1][i] == configMaps[i];
      if configMaps[i].name == "" || configMaps[i].hash.None? {
        continue;
      }
      m := m[configMaps[i].name := configMaps[i].hash.value];
    }
    assert configMaps[..|configMaps|] == configMaps;
  }

  // ---------- the references

  function Named(name: Option<string>): seq<string> {
    if name.Some? && name.value != "" then [name.value] else []
  }

  function SourceNames(refs: seq<SourceRef>): seq<string> {
    if refs == [] then []
    else SourceNames(refs[..|refs| - 1]) + Named(refs[|refs| - 1].secret) + Named(refs[|refs| - 1].configMap)
  }

  function PullNames(pulls: seq<string>): seq<string> {
    if pulls == [] then [] else PullNames(pulls[..|pulls| - 1]) + Named(Some(pulls[|pulls| - 1]))
  }

  function EnvNames(containers: seq<PodContainer>): seq<string> {
    if containers == [] then []
    else EnvNames(containers[..|containers| - 1]) + SourceNames(containers[|containers| - 1].envFrom)
  }

  /** All names a pod refers to, in the order they are hashed. */
  function References(spec: PodSpec, sorted: seq<PodContainer>): seq<string> {
    PullNames(spec.imagePullSecrets) + EnvNames(sorted) + SourceNames(spec.volumes)
  }

  function Segment(table: HashTable, name: string): string {
    if name in table then table[name] else ""
  }

  function Segments(table: HashTable, refs: seq<string>): seq<string> {
    seq(|refs|, i requires 0 <= i < |refs| => Segment(table, refs[i]))
  }

  function Concat(parts: seq<string>): string {
    if parts == [] then "" else parts[0] + Concat(parts[1..])
  }

  predicate ByName(a: PodContainer, b: PodContainer) {
    Leq(a.name, b.name)
  }

  lemma ByNameIsPreorder()
    ensures TotalPreorder(ByName)
  {
    LeqIsPreorder();
    forall a, b ensures ByName(a, b) || ByName(b, a) { LeqTotal(a.name, b.name); }
    forall a, b, c | ByName(a, b) && ByName(b, c) ensures ByName(a, c) { LeqTransitive(a.name, b.name, c.name); }
  }

  /** A rearrangement of the containers by name; containers of one name may come in any order. */
  ghost predicate SortedByName(sorted: seq<PodContainer>, containers: seq<PodContainer>) {
    multiset(sorted) == multiset(containers) && Sorted(ByName, sorted)
  }

  /** The text hashed for a pod; None when it refers to nothing. */
  ghost predicate PodText(spec: PodSpec, table: HashTable, text: Option<string>) {
    exists sorted :: SortedByName(sorted, spec.containers)
      && text ==
           if References(spec, sorted) == [] then None else Some(Concat(Segments(table, References(spec, sorted))))
  }

  lemma SegmentsAppend(table: HashTable, names: seq<string>, more: seq<string>)
    ensures Segments(table, names + more) == Segments(table, names) + Segments(table, more)
  {
    hide Segment;
  }

  lemma SourceNamesSnoc(refs: seq<SourceRef>, i: nat)
    requires i < |refs|
    ensures SourceNames(refs[..i + 1]) == SourceNames(refs[..i]) + (Named(refs[i].secret) + Named(refs[i].configMap))
  {
    hide Named;
    assert refs[..i + 1][..i] == refs[..i] && refs[..i + 1][i] == refs[i];
  }

  lemma SourceSegments(table: HashTable, refs: seq<SourceRef>, i: nat, front: seq<string>)
    requires i < |refs|
    ensures front + Segments(table, SourceNames(refs[..i + 1])) ==
            front + Segments(table, SourceNames(refs[..i])) + Segments(table, Named(refs[i].secret))
            + Segments(table, Named(refs[i].configMap))
  {
    SourceNamesSnoc(refs, i);
    SegmentsAppend(table, SourceNames(refs[..i]), Named(refs[i].secret) + Named(refs[i].configMap));
    SegmentsAppend(table, Named(refs[i].secret), Named(refs[i].configMap));
    hide Segments, SourceNames, Named;
    Regroup(front, Segments(table, SourceNames(refs[..i])), Segments(table, Named(refs[i].secret)),
            Segments(table, Named(refs[i].configMap)));
  }

  lemma Regroup(a: seq<string>, b: seq<string>, c: seq<string>, d: seq<string>)
    ensures a + (b + (c + d)) == a + b + c + d
  {
  }

  /** Appending the segment of one name, if there is one. */
  method AppendName(table: HashTable, name: Option<string>, segments: seq<string>) returns (out: seq<string>)
    ensures out == segments + Segments(table, Named(name))
  {
    hide Segment;
    if name.Some? && name.value != "" {
      return segments + [Segment(table, name.value)];
    }
    return segments;
  }

  /** Appending the segments of more names. */
  method AppendSources(table: HashTable, refs: seq<SourceRef>, segments: seq<string>) returns (out: seq<string>)
    ensures out == segments + Segments(table, SourceNames(refs))
  {
    out := segments;
    for i := 0 to |refs|
      invariant out == segments + Segments(table, SourceNames(refs[..i]))
    {
      hide Segments, SourceNames, Named;
      SourceSegments(table, refs, i, segments);
      out := AppendName(table, refs[i].secret, out);
      out := AppendName(table, refs[i].configMap, out);
    }
    assert refs[..|refs|] == refs;
  }

  method PullSegments(table: HashTable, pulls: seq<string>) returns (segments: seq<string>)
    ensures segments == Segments(table, PullNames(pulls))
  {
    segments := [];
    for i := 0 to |pulls|
      invariant segments == Segments(table, PullNames(pulls[..i]))
    {
      hide Segment, Segments;
      assert pulls[..i + 1][..i] == pulls[..i] && pulls[..i + 1][i] == pulls[i];
      SegmentsAppend(table, PullNames(pulls[..i]), Named(Some(pulls[i])));
      segments := AppendName(table, Some(pulls[i]), segments);
    }
    assert pulls[..|pulls|] == pulls;
  }

  method EnvSegments(table: HashTable, sorted: seq<PodContainer>) returns (segments: seq<string>)
    ensures segments == Segments(table, EnvNames(sorted))
  {
    segments := [];
    for i := 0 to |sorted|
      invariant segments == Segments(table, EnvNames(sorted[..i]))
    {
      hide Segments, SourceNames;
      assert sorted[..i + 1][..i] == sorted[..i] && sorted[..i + 1][i] == sorted[i];
      SegmentsAppend(table, EnvNames(sorted[..i]), SourceNames(sorted[i].envFrom));
      segments := AppendSources(table, sorted[i].envFrom, segments);
    }
    assert sorted[..|sorted|] == sorted;
  }

  method CollectSegments(spec: PodSpec, table: HashTable, sorted: seq<PodContainer>) returns (segments: seq<string>)
    ensures segments == Segments(table, References(spec, sorted))
  {
    hide Segments, PullNames, EnvNames, SourceNames;
    var pulls := PullSegments(table, spec.imagePullSecrets);
    var envs := EnvSegments(table, sorted);
    segments := AppendSources(table, spec.volumes, pulls + envs);
    SegmentsAppend(table, PullNames(spec.imagePullSecrets), EnvNames(sorted));
    SegmentsAppend(table, PullNames(spec.imagePullSecrets) + EnvNames(sorted), SourceNames(spec.volumes));
  }

  method JoinSegments(segments: seq<string>) returns (text: string)
    ensures text == Concat(segments)
  {
    text := "";
    assert Concat(segments[0..]) == Concat(segments) by { assert segments[0..] == segments; }
    for i := 0 to |segments|
      invariant text + Concat(segments[i..]) == Concat(segments)
    {
      assert segments[i..][1..] == segments[i + 1..];
      text := text + segments[i];
    }
    assert segments[|segments|..] == [] && text + "" == text;
  }

  /** The hash of a pod's text, empty when there is none. */
  function HashOf(digest: Digest, text: Option<string>): string {
    match text
    case None => ""
    case Some(t) => ShortHash(digest, t, HASH_LENGTH)
  }

  method ComputePodContentHash(digest: Digest, spec: PodSpec, secrets: seq<HashedObject>, configMaps: seq<HashedObject>)
    returns (h: string)
    ensures exists text :: PodText(spec, TableOf(secrets, configMaps), text) && h == HashOf(digest, text)
  {
    var table := BuildTable(secrets, configMaps);
    ByNameIsPreorder();
    var sorted := Sort(ByName, spec.containers);
    hide Segment, SourceNames, PullNames, EnvNames, TableOf, Sorted, ByName;
    var segments := CollectSegments(spec, table, sorted);
    assert |segments| == |References(spec, sorted)|;
    if |segments| == 0 {
      assert References(spec, sorted) == [];
      assert PodText(spec, table, None) && HashOf(digest, None) == "";
      return "";
    }
    var base := JoinSegments(segments);
    assert PodText(spec, table, Some(base));
    h := ComputeShortHash(digest, base, HASH_LENGTH);
  }

  // ---------- what a pod refers to

  predicate RefersTo(r: SourceRef, name: string) {
    r.secret == Some(name) || r.configMap == Some(name)
  }

  /** A pull secret, an envFrom entry of a container or a volume names the Secret or ConfigMap. */
  predicate Mentions(spec: PodSpec, name: string) {
    || name in spec.imagePullSecrets
    || (exists c :: c in spec.containers && exists r :: r in c.envFrom && RefersTo(r, name))
    || exists v :: v in spec.volumes && RefersTo(v, name)
  }

  lemma {:induction false} SourceNamesExactly(refs: seq<SourceRef>, name: string)
    ensures name in SourceNames(refs) <==> name != "" && exists r :: r in refs && RefersTo(r, name)
  {
    if refs != [] {
      var front, last := refs[..|refs| - 1], refs[|refs| - 1];
      assert forall r :: r in refs <==> r in front || r == last by {
        assert refs == front + [last];
      }
      SourceNamesExactly(front, name);
      assert name in Named(last.secret) + Named(last.configMap) <==> name != "" && RefersTo(last, name);
      hide RefersTo, Named;
      assert SourceNames(refs) == SourceNames(front) + (Named(last.secret) + Named(last.configMap));
    }
  }

  lemma {:induction false} PullNamesExactly(pulls: seq<string>, name: string)
    ensures name in PullNames(pulls) <==> name != "" && name in pulls
  {
    if pulls != [] {
      assert pulls == pulls[..|pulls| - 1] + [pulls[|pulls| - 1]];
      PullNamesExactly(pulls[..|pulls| - 1], name);
    }
  }

  lemma {:induction false} EnvNamesExactly(containers: seq<PodContainer>, name: string)
    ensures name in EnvNames(containers) <==>
            name != "" && exists c :: c in containers && exists r :: r in c.envFrom && RefersTo(r, name)
  {
    hide RefersTo, SourceNames;
    if containers != [] {
      var front, last := containers[..|containers| - 1], containers[|containers| - 1];
      assert containers == front + [last];
      EnvNamesExactly(front, name);
      SourceNamesExactly(last.envFrom, name);
    }
  }

  /** Main result on references: exactly the names that the pod mentions are hashed, apart from the empty
      one. */
  lemma ReferencesExactly(spec: PodSpec, sorted: seq<PodContainer>, name: string)
    requires SortedByName(sorted, spec.containers)
    ensures name in References(spec, sorted) <==> name != "" && Mentions(spec, name)
  {
    hide RefersTo, PullNames, EnvNames, SourceNames;
    PullNamesExactly(spec.imagePullSecrets, name);
    EnvNamesExactly(sorted, name);
    SourceNamesExactly(spec.volumes, name);
    forall c ensures c in sorted <==> c in spec.containers {
      assert c in sorted <==> c in multiset(sorted);
      assert c in spec.containers <==> c in multiset(spec.containers);
    }
  }

  /** A pod that mentions nothing has no text and an empty hash; any other has a text. */
  lemma HashedExactly(digest: Digest, spec: PodSpec, table: HashTable, text: Option<string>)
    requires PodText(spec, table, text)
    ensures text.None? <==> forall name :: name != "" ==> !Mentions(spec, name)
    ensures text.None? ==> HashOf(digest, text) == ""
    ensures text.Some? ==> HashOf(digest, text) == ShortHash(digest, text.value, HASH_LENGTH)
  {
    hide Mentions, SortedByName, References, Segments, Concat;
    var sorted :| SortedByName(sorted, spec.containers)
      && text ==
           if References(spec, sorted) == [] then None else Some(Concat(Segments(table, References(spec, sorted))));
    forall name ensures name in References(spec, sorted) <==> name != "" && Mentions(spec, name) {
      ReferencesExactly(spec, sorted, name);
    }
    if References(spec, sorted) != [] {
      assert References(spec, sorted)[0] in References(spec, sorted);
    }
  }

  /** What each reference names, the Secret before the ConfigMap, with nothing in place of an absent one. */
  function Slots(refs: seq<SourceRef>): seq<string> {
    seq(2 * |refs|,
        i requires 0 <= i < 2 * |refs| => Slot(if i % 2 == 0 then refs[i / 2].secret else refs[i / 2].configMap))
  }

  function Slot(name: Option<string>): string {
    if name.Some? then name.value else ""
  }

  function EnvRefs(containers: seq<PodContainer>): seq<SourceRef> {
    if containers == [] then [] else containers[0].envFrom + EnvRefs(containers[1..])
  }

  /** The order: pull secrets, then envFrom by container name, then volumes, each in its own order. */
  lemma ReferencesInOrder(spec: PodSpec, sorted: seq<PodContainer>)
    ensures References(spec, sorted) ==
            NonEmpty(spec.imagePullSecrets) + NonEmpty(Slots(EnvRefs(sorted))) + NonEmpty(Slots(spec.volumes))
  {
    PullsInOrder(spec.imagePullSecrets);
    EnvsInOrder(sorted);
    SourcesInOrder(spec.volumes);
  }

  lemma {:induction false} NonEmptyConcat(a: seq<string>, b: seq<string>)
    ensures NonEmpty(a + b) == NonEmpty(a) + NonEmpty(b)
  {
    if a == [] {
      assert a + b == b;
    } else {
      assert (a + b)[1..] == a[1..] + b;
      NonEmptyConcat(a[1..], b);
    }
  }

  lemma {:induction false} PullsInOrder(pulls: seq<string>)
    ensures PullNames(pulls) == NonEmpty(pulls)
  {
    if pulls != [] {
      var front, last := pulls[..|pulls| - 1], pulls[|pulls| - 1];
      assert pulls == front + [last];
      PullsInOrder(front);
      NonEmptyConcat(front, [last]);
    }
  }

  lemma {:induction false} SourcesInOrder(refs: seq<SourceRef>)
    ensures SourceNames(refs) == NonEmpty(Slots(refs))
  {
    hide Slot, Named;
    if refs != [] {
      var front, last := refs[..|refs| - 1], refs[|refs| - 1];
      SourcesInOrder(front);
      var two := [Slot(last.secret), Slot(last.configMap)];
      assert Slots(refs) == Slots(front) + two;
      NonEmptyConcat(Slots(front), two);
      BothSlots(last.secret, last.configMap);
      hide Slots, NonEmpty;
      assert SourceNames(refs) == SourceNames(front) + (Named(last.secret) + Named(last.configMap));
    }
  }

  lemma BothSlots(a: Option<string>, b: Option<string>)
    ensures NonEmpty([Slot(a), Slot(b)]) == Named(a) + Named(b)
  {
    OneSlot(a);
    OneSlot(b);
    NonEmptyConcat([Slot(a)], [Slot(b)]);
    assert [Slot(a)] + [Slot(b)] == [Slot(a), Slot(b)];
  }

  lemma OneSlot(a: Option<string>)
    ensures NonEmpty([Slot(a)]) == Named(a)
  {
    assert [Slot(a)][1..] == [];
  }

  lemma {:induction false} EnvsInOrder(containers: seq<PodContainer>)
    ensures EnvNames(containers) == NonEmpty(Slots(EnvRefs(containers)))
  {
    hide NonEmpty, SourceNames, Slots, EnvRefs;
    if containers == [] {
      NoEnvRefs();
    } else {
      var front, last := containers[..|containers| - 1], containers[|containers| - 1];
      assert containers == front + [last];
      EnvsInOrder(front);
      SourcesInOrder(last.envFrom);
      EnvRefsSnoc(front, last);
      SlotsConcat(EnvRefs(front), last.envFrom);
      NonEmptyConcat(Slots(EnvRefs(front)), Slots(last.envFrom));
    }
  }

  lemma NoEnvRefs()
    ensures NonEmpty(Slots(EnvRefs([]))) == []
  {
  }

  lemma SlotsConcat(a: seq<SourceRef>, b: seq<SourceRef>)
    ensures Slots(a + b) == Slots(a) + Slots(b)
  {
    hide Slot;
    assert forall i :: 0 <= i < 2 * |b| ==> (2 * |a| + i) / 2 == |a| + i / 2 && (2 * |a| + i) % 2 == i % 2;
  }

  lemma {:induction false} EnvRefsSnoc(front: seq<PodContainer>, last: PodContainer)
    ensures EnvRefs(front + [last]) == EnvRefs(front) + last.envFrom
  {
    if front == [] {
      assert front + [last] == [last] && [last][1..] == [];
    } else {
      assert (front + [last])[1..] == front[1..] + [last];
      EnvRefsSnoc(front[1..], last);
    }
  }

  // ---------- the order of containers, Secrets and ConfigMaps does not matter

  ghost predicate NamesDistinct(containers: seq<PodContainer>) {
    forall i, j :: 0 <= i < j < |containers| ==> containers[i].name != containers[j].name
  }

  lemma OneSorting(a: seq<PodContainer>, b: seq<PodContainer>, containers: seq<PodContainer>,
                   containers': seq<PodContainer>)
    requires NamesDistinct(containers) && multiset(containers) == multiset(containers')
    requires SortedByName(a, containers) && SortedByName(b, containers')
    ensures a == b
  {
    ByNameIsPreorder();
    forall x, y | x in a && y in a && ByName(x, y) && ByName(y, x) ensures x == y {
      LeqAntisymmetric(x.name, y.name);
      assert x in multiset(containers) && y in multiset(containers);
      var i :| 0 <= i < |containers| && containers[i] == x;
      var j :| 0 <= j < |containers| && containers[j] == y;
    }
    hide ByName;
    SortedUnique(ByName, a, b);
  }

  ghost predicate ObjectsDistinct(objects: seq<HashedObject>) {
    forall i, j :: 0 <= i < j < |objects| && Contributes(objects[i]) && Contributes(objects[j]) ==>
      objects[i].name != objects[j].name
  }

  /** The table says for a name what the last object of it says. */
  lemma {:induction false} CollectLast(objects: seq<HashedObject>, i: nat)
    requires i < |objects| && Contributes(objects[i])
    requires forall j :: i < j < |objects| && Contributes(objects[j]) ==> objects[j].name != objects[i].name
    ensures objects[i].name in Collect(objects) && Collect(objects)[objects[i].name] == objects[i].hash.value
  {
    if i < |objects| - 1 {
      CollectLast(objects[..|objects| - 1], i);
    }
  }

  /** A ConfigMap's hash counts before that of a Secret of the same name. */
  lemma ConfigMapsFirst(secrets: seq<HashedObject>, configMaps: seq<HashedObject>, o: HashedObject)
    requires ObjectsDistinct(secrets) && ObjectsDistinct(configMaps) && Contributes(o)
    ensures o in configMaps ==>
              o.name in TableOf(secrets, configMaps) && TableOf(secrets, configMaps)[o.name] == o.hash.value
    ensures o in secrets && (forall m :: m in configMaps && Contributes(m) ==> m.name != o.name) ==>
              o.name in TableOf(secrets, configMaps) && TableOf(secrets, configMaps)[o.name] == o.hash.value
  {
    CollectExactly(secrets, o.name);
    CollectExactly(configMaps, o.name);
  }

  /** With distinct names the table holds exactly what the objects say. */
  lemma {:induction false} CollectExactly(objects: seq<HashedObject>, name: string)
    requires ObjectsDistinct(objects)
    ensures name in Collect(objects) <==> exists o :: o in objects && Contributes(o) && o.name == name
    ensures forall o :: o in objects && Contributes(o) && o.name == name ==>
              name in Collect(objects) && Collect(objects)[name] == o.hash.value
  {
    if objects != [] {
      var front, last := objects[..|objects| - 1], objects[|objects| - 1];
      assert objects == front + [last];
      assert forall i :: 0 <= i < |front| ==> front[i] == objects[i];
      CollectExactly(front, name);
      forall o | o in objects && Contributes(o) && o.name == name
        ensures name in Collect(objects) && Collect(objects)[name] == o.hash.value
      {
        if o in front {
          var i :| 0 <= i < |front| && front[i] == o;
          assert Contributes(last) ==> last.name != name;
        }
      }
    }
  }

  lemma SameTable(a: seq<HashedObject>, b: seq<HashedObject>)
    requires ObjectsDistinct(a) && ObjectsDistinct(b) && multiset(a) == multiset(b)
    ensures Collect(a) == Collect(b)
  {
    forall o ensures o in a <==> o in b {
      assert o in a <==> o in multiset(a);
      assert o in b <==> o in multiset(b);
    }
    forall name ensures name in Collect(a) <==> name in Collect(b)
      ensures name in Collect(a) ==> Collect(a)[name] == Collect(b)[name]
    {
      CollectExactly(a, name);
      CollectExactly(b, name);
    }
  }

  /** A rearrangement of objects with distinct names has distinct names. */
  lemma StillDistinct(a: seq<HashedObject>, b: seq<HashedObject>)
    requires ObjectsDistinct(a) && multiset(a) == multiset(b)
    ensures ObjectsDistinct(b)
  {
    forall i, j | 0 <= i < j < |b| && Contributes(b[i]) && Contributes(b[j]) ensures b[i].name != b[j].name {
      assert b[i] in multiset(a) && b[j] in multiset(a);
      var k :| 0 <= k < |a| && a[k] == b[i];
      var l :| 0 <= l < |a| && a[l] == b[j];
      if k == l {
        MultiplicityOfPair(b, i, j);
        OnceOnly(a, k);
      }
    }
  }

  lemma OnceOnly(a: seq<HashedObject>, k: nat)
    requires ObjectsDistinct(a) && k < |a| && Contributes(a[k])
    ensures multiset(a)[a[k]] == 1
  {
    var front, back := a[..k], a[k + 1..];
    assert a == front + [a[k]] + back;
    assert a[k] !in front && a[k] !in back;
    assert a[k] !in multiset(front) && a[k] !in multiset(back);
  }

  /** Main result on order: rearranging distinctly named containers, Secrets and ConfigMaps does not
      change the text. */
  lemma OrderInvariant(spec: PodSpec, spec': PodSpec, secrets: seq<HashedObject>, secrets': seq<HashedObject>,
                       configMaps: seq<HashedObject>, configMaps': seq<HashedObject>,
                       text: Option<string>, text': Option<string>)
    requires spec'.imagePullSecrets == spec.imagePullSecrets && spec'.volumes == spec.volumes
    requires NamesDistinct(spec.containers) && multiset(spec'.containers) == multiset(spec.containers)
    requires ObjectsDistinct(secrets) && multiset(secrets') == multiset(secrets)
    requires ObjectsDistinct(configMaps) && multiset(configMaps') == multiset(configMaps)
    requires PodText(spec, TableOf(secrets, configMaps), text) && PodText(spec', TableOf(secrets', configMaps'), text')
    ensures text == text'
  {
    StillDistinct(secrets, secrets');
    StillDistinct(configMaps, configMaps');
    SameTable(secrets, secrets');
    SameTable(configMaps, configMaps');
    hide Segments, Concat, SortedByName, NamesDistinct, PullNames, EnvNames, SourceNames;
    var table := TableOf(secrets, configMaps);
    var a :| SortedByName(a, spec.containers)
          && text == if References(spec, a) == [] then None else Some(Concat(Segments(table, References(spec, a))));
    var b :| SortedByName(b, spec'.containers)
          && text' == if References(spec', b) == [] then None else Some(Concat(Segments(table, References(spec', b))));
    OneSorting(a, b, spec.containers, spec'.containers);
  }

  /** A pod with distinctly named containers has one text. */
  lemma OneText(spec: PodSpec, table: HashTable, s: Option<string>, t: Option<string>)
    requires NamesDistinct(spec.containers) && PodText(spec, table, s) && PodText(spec, table, t)
    ensures s == t
  {
    hide SortedByName, NamesDistinct, References, Segments, Concat;
    forall a, b | SortedByName(a, spec.containers) && SortedByName(b, spec.containers) ensures a == b {
      OneSorting(a, b, spec.containers, spec.containers);
    }
  }

  // ---------- what a change does

  predicate AllShort(parts: seq<string>) {
    forall i :: 0 <= i < |parts| ==> |parts[i]| == 0 || |parts[i]| == HASH_LENGTH
  }

  function NonEmpty(parts: seq<string>): seq<string> {
    if parts == [] then [] else (if parts[0] == "" then [] else [parts[0]]) + NonEmpty(parts[1..])
  }

  lemma {:induction false} ConcatNonEmpty(parts: seq<string>)
    ensures Concat(NonEmpty(parts)) == Concat(parts)
    ensures forall i :: 0 <= i < |NonEmpty(parts)| ==> NonEmpty(parts)[i] != "" && NonEmpty(parts)[i] in parts
  {
    if parts != [] {
      ConcatNonEmpty(parts[1..]);
      var rest := NonEmpty(parts[1..]);
      if parts[0] != "" {
        assert ([parts[0]] + rest)[1..] == rest;
      } else {
        assert [] + rest == rest && "" + Concat(parts[1..]) == Concat(parts[1..]);
      }
    }
  }

  lemma {:induction false} EqualBlocks(a: seq<string>, b: seq<string>)
    requires forall i :: 0 <= i < |a| ==> |a[i]| == HASH_LENGTH
    requires forall i :: 0 <= i < |b| ==> |b[i]| == HASH_LENGTH
    requires Concat(a) == Concat(b)
    ensures a == b
  {
    BlocksEmpty(a);
    BlocksEmpty(b);
    if a != [] {
      EqualHeads(a[0], b[0], Concat(a[1..]), Concat(b[1..]));
      EqualBlocks(a[1..], b[1..]);
      assert a == [a[0]] + a[1..] && b == [b[0]] + b[1..];
    }
  }

  lemma BlocksEmpty(a: seq<string>)
    requires forall i :: 0 <= i < |a| ==> |a[i]| == HASH_LENGTH
    ensures Concat(a) == "" <==> a == []
  {
    if a != [] {
      assert |Concat(a)| >= |a[0]|;
    }
  }

  lemma EqualHeads(x: string, y: string, s: string, t: string)
    requires |x| == |y| && x + s == y + t
    ensures x == y && s == t
  {
    assert (x + s)[..|x|] == x && (y + t)[..|y|] == y;
    assert (x + s)[|x|..] == s && (y + t)[|y|..] == t;
  }

  /** Exactly when two texts are equal: the hashes found, without the missing ones, are the same list. */
  lemma TextsEqualExactly(a: seq<string>, b: seq<string>)
    requires AllShort(a) && AllShort(b)
    ensures Concat(a) == Concat(b) <==> NonEmpty(a) == NonEmpty(b)
  {
    ConcatNonEmpty(a);
    ConcatNonEmpty(b);
    if Concat(a) == Concat(b) {
      EqualBlocks(NonEmpty(a), NonEmpty(b));
    }
  }

  /** So a hash that moves from one missing reference to the next is not noticed. */
  lemma MovedHashUnnoticed(h: string)
    requires |h| == HASH_LENGTH
    ensures Concat(Segments(map["a" := h], ["a", "b"])) == Concat(Segments(map["b" := h], ["a", "b"]))
  {
    var s, t := Segments(map["a" := h], ["a", "b"]), Segments(map["b" := h], ["a", "b"]);
    assert s == [h, ""] && t == ["", h];
    assert NonEmpty([h, ""][1..]) == [] && NonEmpty(["", h][1..]) == [h] by {
      assert [h, ""][1..] == [""] && ["", h][1..] == [h];
      assert [""][1..] == [] && [h][1..] == [];
    }
    TextsEqualExactly(s, t);
  }

  /** Main result on changes: when one referenced object's hash becomes a different hash of the same
      length and all others stay, the text changes. */
  lemma {:induction false} ChangeNoticed(table: HashTable, table': HashTable, refs: seq<string>, name: string)
    requires name in refs && name in table && name in table'
    requires |table[name]| == |table'[name]| && table[name] != table'[name]
    requires forall r :: r in refs && r != name ==> Segment(table, r) == Segment(table', r)
    ensures Concat(Segments(table, refs)) != Concat(Segments(table', refs))
  {
    var s, t := Segments(table, refs), Segments(table', refs);
    assert s[1..] == Segments(table, refs[1..]) && t[1..] == Segments(table', refs[1..]);
    if Concat(s) == Concat(t) {
      assert |s[0]| == |t[0]|;
      EqualHeads(s[0], t[0], Concat(s[1..]), Concat(t[1..]));
      assert refs[0] != name;
      ChangeNoticed(table, table', refs[1..], name);
    }
  }

  /** The same for whole pods: such a change of the hash of anything the pod mentions changes the text of
      the pod. */
  lemma PodChangeNoticed(spec: PodSpec, table: HashTable, table': HashTable, name: string, text: Option<string>,
                         text': Option<string>)
    requires NamesDistinct(spec.containers)
    requires PodText(spec, table, text) && PodText(spec, table', text')
    requires name != "" && Mentions(spec, name) && name in table && name in table'
    requires |table[name]| == |table'[name]| && table[name] != table'[name]
    requires forall r :: Mentions(spec, r) && r != name ==> Segment(table, r) == Segment(table', r)
    ensures text.Some? && text'.Some? && text != text'
  {
    hide Segments, Concat, SortedByName, NamesDistinct, References, Segment, Mentions;
    var sorted :| SortedByName(sorted, spec.containers)
      && text ==
           if References(spec, sorted) == [] then None else Some(Concat(Segments(table, References(spec, sorted))));
    var refs := References(spec, sorted);
    forall a | SortedByName(a, spec.containers) ensures a == sorted {
      OneSorting(a, sorted, spec.containers, spec.containers);
    }
    forall r ensures r in refs <==> r != "" && Mentions(spec, r) {
      ReferencesExactly(spec, sorted, r);
    }
    ChangeNoticed(table, table', refs, name);
  }
}
