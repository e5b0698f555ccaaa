/** Keeping a Deployment's content-hash annotation and pull secrets up to date: what changed, the JSON
    patch for it, and the merge patch when that fails (adapters/kube/client_deployment.go). */
module Rollout {
  import opened Text
  import opened Naming
  import opened PodHash
  import opened Patch

  const HASH_KEY := "kompox.dev/compose-content-hash"

  const TEMPLATE := ["spec", "template"]
  const ANNOTATIONS := ["spec", "template", "metadata", "annotations"]
  const POD_SPEC := ["spec", "template", "spec"]
  const PULLS := ["spec", "template", "spec", "imagePullSecrets"]

  // ---------- reading the Deployment

  /** The template's annotations; nil when there is no object. */
  function Annotations(doc: Json): Option<map<string, Json>> {
    match At(doc, ANNOTATIONS)
    case Some(Obj(m)) => Some(m)
    case _ => None
  }

  function TextOf(j: Json): string {
    if j.Str? then j.text else ""
  }

  function Previous(doc: Json): string {
    match Annotations(doc)
    case Some(m) => if HASH_KEY in m then TextOf(m[HASH_KEY]) else ""
    case None => ""
  }

  /** The names of the template's pull secrets. */
  function PullSecrets(doc: Json): seq<string> {
    match At(doc, PULLS)
    case Some(Arr(items)) => seq(|items|, i requires 0 <= i < |items| => TextOf(Child(items[i], "name")))
    case _ => []
  }

  // ---------- what changed, and both patches

  predicate HashChanged(doc: Json, newHash: string) {
    newHash != "" && newHash != Previous(doc)
  }

  /** The one pull secret a Deployment should have, if that Secret exists. */
  function Wanted(pull: Option<string>): seq<string> {
    match pull
    case Some(name) => [name]
    case None => []
  }

  predicate PullsChanged(doc: Json, pull: Option<string>) {
    PullSecrets(doc) != Wanted(pull)
  }

  function PullValue(pull: Option<string>): Json {
    match pull
    case Some(name) => Arr([Obj(map["name" := Str(name)])])
    case None => Arr([])
  }

  /** "/spec/template/metadata/annotations", token by token. */
  const ANNOTATIONS_POINTER := "/" + "spec" + "/" + "template" + "/" + "metadata" + "/" + "annotations"
  const PULLS_POINTER := "/" + "spec" + "/" + "template" + "/" + "spec" + "/" + "imagePullSecrets"

  function HashOps(doc: Json, newHash: string): seq<PatchOp> {
    var path := ANNOTATIONS_POINTER + "/" + Escape(HASH_KEY);
    if !HashChanged(doc, newHash) then []
    else match Annotations(doc)
      case None => [Add(ANNOTATIONS_POINTER, Obj(map[])), Add(path, Str(newHash))]
      case Some(m) => if HASH_KEY in m then [Replace(path, Str(newHash))] else [Add(path, Str(newHash))]
  }

  function PullOps(doc: Json, pull: Option<string>): seq<PatchOp> {
    if !PullsChanged(doc, pull) then []
    else if pull.Some? && PullSecrets(doc) == [] then [Add(PULLS_POINTER, PullValue(pull))]
    else [Replace(PULLS_POINTER, PullValue(pull))]
  }

  /** The merge patch for a new hash, new pull secrets or both. */
  function MergeDoc(hash: Option<string>, pull: Option<Json>): Json {
    var metadata := Nest(["annotations", HASH_KEY], Str(if hash.Some? then hash.value else ""));
    var podSpec := Nest(["imagePullSecrets"], if pull.Some? then pull.value else Null);
    var template :=
      if hash.Some? && pull.Some? then map["metadata" := metadata, "spec" := podSpec]
      else if hash.Some? then map["metadata" := metadata]
      else if pull.Some? then map["spec" := podSpec]
      else map[];
    Nest(TEMPLATE, Obj(template))
  }

  /** What both patches should do: set the annotation, set the pull secrets, keep everything else. */
  function Update(doc: Json, hash: Option<string>, pull: Option<Json>): Json {
    var annotated := if hash.Some? then SetAt(doc, ANNOTATIONS + [HASH_KEY], Str(hash.value)) else doc;
    if pull.Some? then SetAt(annotated, PULLS, pull.value) else annotated
  }

  function UpdateTemplate(t: Json, hash: Option<string>, pull: Option<Json>): Json {
    var annotated := if hash.Some? then SetAt(t, ["metadata", "annotations", HASH_KEY], Str(hash.value)) else t;
    if pull.Some? then SetAt(annotated, ["spec", "imagePullSecrets"], pull.value) else annotated
  }

  lemma UpdateBelow(doc: Json, hash: Option<string>, pull: Option<Json>)
    requires hash.Some? || pull.Some?
    ensures Update(doc, hash, pull) ==
            SetMember(doc, "spec",
                      SetMember(Child(doc, "spec"), "template",
                                UpdateTemplate(Child(Child(doc, "spec"), "template"), hash, pull)))
  {
    hide SetMember, Child;
    var a, p := ["metadata", "annotations", HASH_KEY], ["spec", "imagePullSecrets"];
    assert ANNOTATIONS + [HASH_KEY] == ["spec"] + (["template"] + a) && PULLS == ["spec"] + (["template"] + p);
    var h := Str(if hash.Some? then hash.value else "");
    var v := if pull.Some? then pull.value else Null;
    var inner := Child(doc, "spec");
    if hash.Some? && pull.Some? {
      SetBelow(doc, "spec", ["template"] + a, h, ["template"] + p, v);
      SetBelow(inner, "template", a, h, p, v);
    } else if hash.Some? {
      SetOneBelow(doc, "spec", ["template"] + a, h);
      SetOneBelow(inner, "template", a, h);
    } else {
      SetOneBelow(doc, "spec", ["template"] + p, v);
      SetOneBelow(inner, "template", p, v);
    }
  }

  lemma SetOneBelow(j: Json, k: string, p: seq<string>, v: Json)
    ensures SetAt(j, [k] + p, v) == SetMember(j, k, SetAt(Child(j, k), p, v))
  {
    assert ([k] + p)[1..] == p;
  }

  /** The merge patch is that update. */
  lemma MergeUpdates(doc: Json, hash: Option<string>, pull: Option<Json>)
    requires hash.Some? || pull.Some?
    requires pull.Some? ==> pull.value.Arr?
    ensures MergePatch(doc, MergeDoc(hash, pull)) == Update(doc, hash, pull)
  {
    hide SetMember, Child, MergePatch, Nest;
    var metadata := Nest(["annotations", HASH_KEY], Str(if hash.Some? then hash.value else ""));
    var podSpec := Nest(["imagePullSecrets"], if pull.Some? then pull.value else Null);
    var inner := Child(doc, "spec");
    var t := Child(inner, "template");
    if hash.Some? {
      MergeNest(Child(t, "metadata"), ["annotations", HASH_KEY], Str(hash.value));
      SetOneBelow(t, "metadata", ["annotations", HASH_KEY], Str(hash.value));
      assert ["metadata", "annotations", HASH_KEY] == ["metadata"] + ["annotations", HASH_KEY];
    }
    if pull.Some? {
      MergeNest(Child(t, "spec"), ["imagePullSecrets"], pull.value);
      SetOneBelow(t, "spec", ["imagePullSecrets"], pull.value);
      SetChild(t, "metadata",
               SetAt(Child(t, "metadata"), ["annotations", HASH_KEY], Str(if hash.Some? then hash.value else "")));
      SetOneBelow(SetMember(t, "metadata",
                            SetAt(Child(t, "metadata"), ["annotations", HASH_KEY],
                                  Str(if hash.Some? then hash.value else ""))),
                  "spec", ["imagePullSecrets"], pull.value);
      assert ["spec", "imagePullSecrets"] == ["spec"] + ["imagePullSecrets"];
    }
    var template :=
      if hash.Some? && pull.Some? then map["metadata" := metadata, "spec" := podSpec]
      else if hash.Some? then map["metadata" := metadata]
      else map["spec" := podSpec];
    if hash.Some? && pull.Some? {
      MergeTwoMembers(t, "metadata", metadata, "spec", podSpec);
    } else if hash.Some? {
      MergeOneMember(t, "metadata", metadata);
    } else {
      MergeOneMember(t, "spec", podSpec);
    }
    assert MergePatch(t, Obj(template)) == UpdateTemplate(t, hash, pull);
    MergeOneMember(inner, "template", Obj(template));
    MergeOneMember(doc, "spec", Obj(map["template" := Obj(template)]));
    TemplateNest(template);
    UpdateBelow(doc, hash, pull);
  }

  lemma TemplateNest(template: map<string, Json>)
    ensures Nest(TEMPLATE, Obj(template)) == Obj(map["spec" := Obj(map["template" := Obj(template)])])
  {
    assert TEMPLATE[1..] == ["template"] && ["template"][1..] == [];
    assert Nest(["template"], Obj(template)) == Obj(map["template" := Nest([], Obj(template))]);
  }

  // ---------- the JSON patch is that update too

  lemma PointersName()
    ensures Tokens(ANNOTATIONS_POINTER) == Some(ANNOTATIONS)
    ensures Tokens(PULLS_POINTER) == Some(PULLS)
    ensures Tokens(ANNOTATIONS_POINTER + "/" + Escape(HASH_KEY)) == Some(ANNOTATIONS + [HASH_KEY])
  {
    AnnotationsPointer();
    PullsPointer();
    PointerSnoc(ANNOTATIONS, HASH_KEY);
    hide Tokens, Escape, Pointer;
    TokensOfPointer(ANNOTATIONS);
    TokensOfPointer(PULLS);
    TokensOfPointer(ANNOTATIONS + [HASH_KEY]);
  }

  lemma AnnotationsPointer()
    ensures Pointer(ANNOTATIONS) == ANNOTATIONS_POINTER
  {
    hide Pointer;
    PlainPointer("spec", "template", "metadata", "annotations");
  }

  lemma PullsPointer()
    ensures Pointer(PULLS) == PULLS_POINTER
  {
    hide Pointer;
    PlainPointer("spec", "template", "spec", "imagePullSecrets");
  }

  lemma {:induction false} PointerSnoc(path: seq<string>, k: string)
    ensures Pointer(path + [k]) == Pointer(path) + "/" + Escape(k)
  {
    hide Escape;
    if path == [] {
      assert [k][1..] == [];
    } else {
      assert (path + [k])[1..] == path[1..] + [k];
      PointerSnoc(path[1..], k);
    }
  }

  lemma PlainSnoc(path: seq<string>, k: string)
    requires Free(k, '~') && Free(k, '/')
    ensures Pointer(path + [k]) == Pointer(path) + "/" + k
  {
    hide Pointer, Escape;
    PointerSnoc(path, k);
    EscapePlain(k);
  }

  lemma PlainPointer(a: string, b: string, c: string, d: string)
    requires Free(a, '~') && Free(a, '/') && Free(b, '~') && Free(b, '/')
    requires Free(c, '~') && Free(c, '/') && Free(d, '~') && Free(d, '/')
    ensures Pointer([a, b, c, d]) == "/" + a + "/" + b + "/" + c + "/" + d
  {
    hide Free;
    PlainSnoc([], a);
    PlainSnoc([a], b);
    PlainSnoc([a, b], c);
    PlainSnoc([a, b, c], d);
    assert Pointer([]) == "";
    hide Pointer;
    assert [a, b, c, d] == [a, b, c] + [d] && [a, b, c] == [a, b] + [c] && [a, b] == [a] + [b] && [a] == [] + [a];
    assert "" + "/" + a == "/" + a;
  }

  const METADATA := ["spec", "template", "metadata"]

  /** The operations on the annotation: they apply exactly where the template has metadata. */
  lemma HashOpsUpdate(doc: Json, newHash: string)
    requires HashChanged(doc, newHash)
    ensures ApplyPatch(doc, HashOps(doc, newHash)) ==
            if IsObject(At(doc, METADATA)) then Some(SetAt(doc, ANNOTATIONS + [HASH_KEY], Str(newHash))) else None
  {
    hide SetAt, AddAt, At, Tokens, Escape;
    PointersName();
    assert ANNOTATIONS == METADATA + ["annotations"];
    AtSnoc(doc, METADATA, "annotations");
    AtSnoc(doc, ANNOTATIONS, HASH_KEY);
    var path := ANNOTATIONS + [HASH_KEY];
    var ops := HashOps(doc, newHash);
    if Annotations(doc).None? {
      assert ops ==
               [Add(ANNOTATIONS_POINTER, Obj(map[])), Add(ANNOTATIONS_POINTER + "/" + Escape(HASH_KEY), Str(newHash))];
      AddApplies(doc, METADATA, "annotations", Obj(map[]));
      if IsObject(At(doc, METADATA)) {
        AddSets(doc, ANNOTATIONS, Obj(map[]));
        var next := SetAt(doc, ANNOTATIONS, Obj(map[]));
        SetThere(doc, ANNOTATIONS, Obj(map[]));
        AddApplies(next, ANNOTATIONS, HASH_KEY, Str(newHash));
        AddSets(next, path, Str(newHash));
        SetInEmpty(doc, ANNOTATIONS, HASH_KEY, Str(newHash));
        assert ApplyOp(doc, ops[0]) == Some(next);
        assert ApplyOp(next, ops[1]) == Some(SetAt(doc, path, Str(newHash)));
        assert ops[1..] == [ops[1]] && ops[1..][1..] == [];
        assert ApplyPatch(next, ops[1..]) == Some(SetAt(doc, path, Str(newHash)));
      }
    } else {
      AddApplies(doc, ANNOTATIONS, HASH_KEY, Str(newHash));
      AddSets(doc, path, Str(newHash));
      assert ops[1..] == [];
    }
  }

  /** The operation on the pull secrets: it applies exactly where the template has a pod spec. */
  lemma PullOpsUpdate(doc: Json, d: Json, pull: Option<string>)
    requires && PullsChanged(doc, pull)
             && At(d, PULLS) == At(doc, PULLS)
             && (IsObject(At(d, POD_SPEC)) <==> IsObject(At(doc, POD_SPEC)))
    ensures ApplyPatch(d, PullOps(doc, pull)) ==
            if IsObject(At(doc, POD_SPEC)) then Some(SetAt(d, PULLS, PullValue(pull))) else None
  {
    hide SetAt, AddAt, At, Tokens;
    PointersName();
    assert PULLS == POD_SPEC + ["imagePullSecrets"];
    AtSnoc(d, POD_SPEC, "imagePullSecrets");
    AddApplies(d, POD_SPEC, "imagePullSecrets", PullValue(pull));
    if IsObject(At(doc, POD_SPEC)) {
      AddSets(d, PULLS, PullValue(pull));
    }
    assert PullOps(doc, pull)[1..] == [];
  }

  lemma {:induction false} PatchInTwo(j: Json, a: seq<PatchOp>, b: seq<PatchOp>)
    ensures ApplyPatch(j, a + b) == match ApplyPatch(j, a) case None => None case Some(next) => ApplyPatch(next, b)
    decreases |a|
  {
    hide ApplyOp;
    if a == [] {
      assert a + b == b;
    } else {
      assert (a + b)[1..] == a[1..] + b && (a + b)[0] == a[0];
      var next := ApplyOp(j, a[0]);
      if next.Some? {
        PatchInTwo(next.value, a[1..], b);
      }
    }
  }

  function NewHash(doc: Json, newHash: string): Option<string> {
    if HashChanged(doc, newHash) then Some(newHash) else None
  }

  function NewPulls(doc: Json, pull: Option<string>): Option<Json> {
    if PullsChanged(doc, pull) then Some(PullValue(pull)) else None
  }

  /** The template has the objects that the changes go into. */
  predicate Patchable(doc: Json, newHash: string, pull: Option<string>) {
    && (HashChanged(doc, newHash) ==> IsObject(At(doc, METADATA)))
    && (PullsChanged(doc, pull) ==> IsObject(At(doc, POD_SPEC)))
  }

  /** What setting the annotation leaves alone. */
  lemma AnnotationElsewhere(doc: Json, v: Json)
    ensures At(SetAt(doc, ANNOTATIONS + [HASH_KEY], v), PULLS) == At(doc, PULLS)
    ensures At(SetAt(doc, ANNOTATIONS + [HASH_KEY], v), POD_SPEC) == At(doc, POD_SPEC)
    ensures forall k :: At(SetAt(doc, ANNOTATIONS + [HASH_KEY], v), POD_SPEC + [k]) == At(doc, POD_SPEC + [k])
  {
    hide SetAt, At;
    assert ANNOTATIONS + [HASH_KEY] == TEMPLATE + ["metadata"] + ["annotations", HASH_KEY];
    assert PULLS == TEMPLATE + ["spec"] + ["imagePullSecrets"] && POD_SPEC == TEMPLATE + ["spec"] + [];
    SetElsewhere(doc, TEMPLATE, "metadata", ["annotations", HASH_KEY], v, "spec", ["imagePullSecrets"]);
    SetElsewhere(doc, TEMPLATE, "metadata", ["annotations", HASH_KEY], v, "spec", []);
    forall k ensures At(SetAt(doc, ANNOTATIONS + [HASH_KEY], v), POD_SPEC + [k]) == At(doc, POD_SPEC + [k]) {
      assert POD_SPEC + [k] == TEMPLATE + ["spec"] + [k];
      SetElsewhere(doc, TEMPLATE, "metadata", ["annotations", HASH_KEY], v, "spec", [k]);
    }
  }

  lemma PullsElsewhere(doc: Json, v: Json)
    ensures At(SetAt(doc, PULLS, v), ANNOTATIONS) == At(doc, ANNOTATIONS)
    ensures forall k :: k != "imagePullSecrets" ==> At(SetAt(doc, PULLS, v), POD_SPEC + [k]) == At(doc, POD_SPEC + [k])
  {
    hide SetAt, At;
    assert && PULLS == TEMPLATE + ["spec"] + ["imagePullSecrets"]
           && ANNOTATIONS == TEMPLATE + ["metadata"] + ["annotations"];
    SetElsewhere(doc, TEMPLATE, "spec", ["imagePullSecrets"], v, "metadata", ["annotations"]);
    forall k | k != "imagePullSecrets" ensures At(SetAt(doc, PULLS, v), POD_SPEC + [k]) == At(doc, POD_SPEC + [k]) {
      assert PULLS == POD_SPEC + ["imagePullSecrets"] + [] && POD_SPEC + [k] == POD_SPEC + [k] + [];
      SetElsewhere(doc, POD_SPEC, "imagePullSecrets", [], v, k, []);
    }
  }

  /** Main result on the two languages: on every document, the JSON patch applies exactly where the
      template has the objects it needs, and then it and the merge patch give the same document. */
  lemma PatchesAgree(doc: Json, newHash: string, pull: Option<string>)
    requires HashChanged(doc, newHash) || PullsChanged(doc, pull)
    ensures var merged := MergePatch(doc, MergeDoc(NewHash(doc, newHash), NewPulls(doc, pull)));
            ApplyPatch(doc, HashOps(doc, newHash) + PullOps(doc, pull)) ==
                if Patchable(doc, newHash, pull) then Some(merged) else None
  {
    hide SetAt, At, ApplyOp, MergePatch, MergeDoc, Escape, Previous, PullSecrets;
    PatchInTwo(doc, HashOps(doc, newHash), PullOps(doc, pull));
    MergeUpdates(doc, NewHash(doc, newHash), NewPulls(doc, pull));
    var d := doc;
    if HashChanged(doc, newHash) {
      HashOpsUpdate(doc, newHash);
      d := SetAt(doc, ANNOTATIONS + [HASH_KEY], Str(newHash));
      AnnotationElsewhere(doc, Str(newHash));
    }
    if PullsChanged(doc, pull) {
      PullOpsUpdate(doc, d, pull);
    }
  }

  // ---------- afterwards there is nothing left to change

  lemma UpdateSettles(doc: Json, newHash: string, pull: Option<string>)
    ensures var d := Update(doc, NewHash(doc, newHash), NewPulls(doc, pull));
            && !HashChanged(d, newHash) && !PullsChanged(d, pull)
            && forall k :: k != "imagePullSecrets" ==> At(d, POD_SPEC + [k]) == At(doc, POD_SPEC + [k])
  {
    hide SetAt, At;
    var annotated := if HashChanged(doc, newHash) then SetAt(doc, ANNOTATIONS + [HASH_KEY], Str(newHash)) else doc;
    AnnotationElsewhere(doc, Str(newHash));
    PullsElsewhere(annotated, PullValue(pull));
    SetThere(annotated, PULLS, PullValue(pull));
    if HashChanged(doc, newHash) {
      SetThere(doc, ANNOTATIONS + [HASH_KEY], Str(newHash));
      AtSnoc(annotated, ANNOTATIONS, HASH_KEY);
    }
    assert PullSecrets(SetAt(annotated, PULLS, PullValue(pull))) == Wanted(pull);
  }

  /** The template's pull secrets are those of these names, in order; there may be none at all. */
  ghost predicate PullsAre(doc: Json, names: seq<string>) {
    match At(doc, ["spec", "template", "spec", "imagePullSecrets"])
    case Some(Arr(items)) =>
      |items| == |names| && forall i :: 0 <= i < |items| ==> NameIs(items[i], names[i])
    case _ => names == []
  }

  /** The item's name; one that is absent or no text reads as the empty name. */
  predicate NameIs(item: Json, name: string) {
    match At(item, ["name"])
    case Some(Str(text)) => name == text
    case _ => name == ""
  }

  lemma PullsRead(doc: Json, names: seq<string>)
    ensures PullSecrets(doc) == names <==> PullsAre(doc, names)
  {
    hide At;
    match At(doc, PULLS)
    case Some(Arr(items)) =>
      forall i, name | 0 <= i < |items| ensures TextOf(Child(items[i], "name")) == name <==> NameIs(items[i], name) {
        NameRead(items[i], name);
      }
      hide TextOf, Child, NameIs;
    case _ =>
  }

  lemma NameRead(item: Json, name: string)
    ensures TextOf(Child(item, "name")) == name <==> NameIs(item, name)
  {
    AtSnoc(item, [], "name");
    assert [] + ["name"] == ["name"];
  }

  /** The template's annotation with the hash is this text. */
  ghost predicate HashIs(doc: Json, h: string) {
    At(doc, ["spec", "template", "metadata", "annotations", HASH_KEY]) == Some(Str(h))
  }

  lemma HashRead(doc: Json, h: string)
    requires h != ""
    ensures Previous(doc) == h <==> HashIs(doc, h)
  {
    hide At;
    assert ["spec", "template", "metadata", "annotations", HASH_KEY] == ANNOTATIONS + [HASH_KEY];
    AtSnoc(doc, ANNOTATIONS, HASH_KEY);
  }

  /** What an update says afterwards: the new hash, if there is one, and exactly the wanted pull secret. */
  lemma UpdateSays(doc: Json, newHash: string, pull: Option<string>)
    ensures var d := Update(doc, NewHash(doc, newHash), NewPulls(doc, pull));
            && (newHash != "" ==> HashIs(d, newHash))
            && (newHash == "" ==> At(d, ANNOTATIONS) == At(doc, ANNOTATIONS))
            && PullsAre(d, match pull case Some(name) => [name] case None => [])
  {
    hide At, SetAt;
    UpdateSettles(doc, newHash, pull);
    var d := Update(doc, NewHash(doc, newHash), NewPulls(doc, pull));
    if newHash != "" {
      HashRead(d, newHash);
    } else {
      PullsElsewhere(doc, PullValue(pull));
    }
    PullsRead(d, Wanted(pull));
  }

  /** Updating twice is updating once, so a first attempt that failed after taking effect does no harm. */
  lemma UpdateAgain(doc: Json, hash: Option<string>, pull: Option<Json>)
    ensures Update(Update(doc, hash, pull), hash, pull) == Update(doc, hash, pull)
  {
    if hash.Some? || pull.Some? {
      UpdateBelow(doc, hash, pull);
      var d := Update(doc, hash, pull);
      UpdateBelow(d, hash, pull);
      hide Update, UpdateTemplate, SetMember, Child;
      var inner := Child(doc, "spec");
      var t := Child(inner, "template");
      var t' := UpdateTemplate(t, hash, pull);
      SetChild(doc, "spec", SetMember(inner, "template", t'));
      SetChild(inner, "template", t');
      UpdateTemplateAgain(t, hash, pull);
    }
  }

  lemma UpdateTemplateAgain(t: Json, hash: Option<string>, pull: Option<Json>)
    ensures UpdateTemplate(UpdateTemplate(t, hash, pull), hash, pull) == UpdateTemplate(t, hash, pull)
  {
    var a, p := ["metadata", "annotations", HASH_KEY], ["spec", "imagePullSecrets"];
    var h := Str(if hash.Some? then hash.value else "");
    var v := if pull.Some? then pull.value else Null;
    if hash.Some? && pull.Some? {
      assert a == ["metadata"] + ["annotations", HASH_KEY] && p == ["spec"] + ["imagePullSecrets"];
      SetBothAgain(t, "metadata", ["annotations", HASH_KEY], h, "spec", ["imagePullSecrets"], v);
    } else if hash.Some? {
      SetAgain(t, a, h);
    } else if pull.Some? {
      SetAgain(t, p, v);
    }
  }

  lemma SetBothAgain(t: Json, k: string, a: seq<string>, h: Json, l: string, p: seq<string>, v: Json)
    requires k != l
    ensures var once := SetAt(SetAt(t, [k] + a, h), [l] + p, v);
            SetAt(SetAt(once, [k] + a, h), [l] + p, v) == once
  {
    hide SetAt, SetMember, Child;
    var x, y := SetAt(Child(t, k), a, h), SetAt(Child(t, l), p, v);
    SetOneBelow(t, k, a, h);
    SetChild(t, k, x);
    var t1 := SetMember(t, k, x);
    SetOneBelow(t1, l, p, v);
    SetChild(t1, l, y);
    var once := SetMember(t1, l, y);
    assert Child(once, k) == x && Child(once, l) == y;
    SetOneBelow(once, k, a, h);
    SetAgain(Child(t, k), a, h);
    MemberSet(t, k, x);
    MemberAgain(t1, l, y, k, x);
    SetOneBelow(once, l, p, v);
    SetAgain(Child(t, l), p, v);
  }

  lemma MemberSet(j: Json, k: string, v: Json)
    ensures var m := SetMember(j, k, v); m.Obj? && k in m.members && m.members[k] == v
  {
  }

  /** Setting a member to the value it has changes nothing. */
  lemma MemberAgain(j: Json, l: string, y: Json, k: string, x: Json)
    requires k != l && j.Obj? && k in j.members && j.members[k] == x
    ensures SetMember(SetMember(j, l, y), k, x) == SetMember(j, l, y)
  {
    assert j.members[l := y][k := x] == j.members[l := y];
  }

  // ---------- the client

  /** How the pod's containers and volumes are read from their members; patches leave them alone. */
  datatype Reader = Reader(containers: Option<Json> -> seq<PodContainer>, volumes: Option<Json> -> seq<SourceRef>)

  /** A namespace with one Deployment. Every call to the server may fail, and a failed call may have
      taken effect. */
  class Namespace {
    const digest: Digest
    const reader: Reader
    const secrets: seq<HashedObject>
    const configMaps: seq<HashedObject>
    var deployment: Json

    constructor (digest: Digest, reader: Reader, secrets: seq<HashedObject>, configMaps: seq<HashedObject>,
                 deployment: Json)
      ensures this.digest == digest && this.reader == reader && this.secrets == secrets && this.configMaps == configMaps
      ensures this.deployment == deployment
    {
      this.digest, this.reader, this.secrets, this.configMaps := digest, reader, secrets, configMaps;
      this.deployment := deployment;
    }

    function PullName(name: string): string {
      name + "--pull"
    }

    predicate HasSecret(name: string) {
      exists i :: 0 <= i < |secrets| && secrets[i].name == name
    }

    /** The pull secret the Deployment should have. */
    function Pull(name: string): Option<string> {
      if HasSecret(PullName(name)) then Some(PullName(name)) else None
    }

    /** The pod as it should be: the wanted pull secret, the containers and volumes it has. */
    function Desired(doc: Json, name: string): PodSpec {
      PodSpec(Wanted(Pull(name)), reader.containers(At(doc, POD_SPEC + ["containers"])),
              reader.volumes(At(doc, POD_SPEC + ["volumes"])))
    }

    ghost predicate IsHash(doc: Json, name: string, h: string) {
      exists text :: PodText(Desired(doc, name), TableOf(secrets, configMaps), text) && h == HashOf(digest, text)
    }

    /** The document with everything brought up to date for that hash. */
    function UpToDate(doc: Json, name: string, h: string): Json {
      Update(doc, NewHash(doc, h), NewPulls(doc, Pull(name)))
    }

    method CallJsonPatch(ops: seq<PatchOp>) returns (ok: bool)
      modifies this`deployment
      ensures ok ==> ApplyPatch(old(deployment), ops) == Some(deployment)
      ensures !ok ==> deployment == old(deployment) || ApplyPatch(old(deployment), ops) == Some(deployment)
    {
      var patched := ApplyPatch(deployment, ops);
      if patched.None? {
        return false;
      }
      if * {
        return false;
      }
      deployment := patched.value;
      ok := *;
    }

    method CallMergePatch(patch: Json) returns (ok: bool)
      modifies this`deployment
      ensures ok ==> deployment == MergePatch(old(deployment), patch)
      ensures !ok ==> deployment == old(deployment) || deployment == MergePatch(old(deployment), patch)
    {
      if * {
        return false;
      }
      deployment := MergePatch(deployment, patch);
      ok := *;
    }

    /** PatchDeploymentPodContentHash. A call that succeeds leaves the Deployment up to date and
        changes nothing else in it; one that fails leaves it as it was or up to date. */
    method PatchDeploymentPodContentHash(name: string) returns (ok: bool, ghost h: string)
      modifies this`deployment
      ensures name == "" ==> ok && deployment == old(deployment)
      ensures name != "" && ok ==> IsHash(old(deployment), name, h) && deployment == UpToDate(old(deployment), name, h)
      ensures !ok ==> deployment == old(deployment) || deployment == UpToDate(old(deployment), name, h)
    {
      if name == "" {
        return true, "";
      }
      if * {
        return false, "";
      }
      hide Update, HashChanged, PullsChanged, PodText, ApplyPatch, MergePatch, MergeDoc, HashOps, PullOps, TableOf;
      var doc := deployment;
      var pull := Pull(name);
      var newHash := ComputePodContentHash(digest, Desired(doc, name), secrets, configMaps);
      h := newHash;
      if !HashChanged(doc, newHash) && !PullsChanged(doc, pull) {
        NothingToUpdate(doc);
        return true, h;
      }
      PatchesAgree(doc, newHash, pull);
      MergeUpdates(doc, NewHash(doc, newHash), NewPulls(doc, pull));
      MergeUpdates(UpToDate(doc, name, newHash), NewHash(doc, newHash), NewPulls(doc, pull));
      UpdateAgain(doc, NewHash(doc, newHash), NewPulls(doc, pull));
      var patched := CallJsonPatch(HashOps(doc, newHash) + PullOps(doc, pull));
      if patched {
        return true, h;
      }
      ok := CallMergePatch(MergeDoc(NewHash(doc, newHash), NewPulls(doc, pull)));
    }

    lemma NothingToUpdate(doc: Json)
      ensures Update(doc, None, None) == doc
    {
    }

    /** The name of the Secret with a Deployment's registry credentials. */
    ghost predicate HasPull(name: string) {
      exists i :: 0 <= i < |secrets| && secrets[i].name == name + "--pull"
    }

    /** What a successful call leaves behind: the hash of the pod as it should be, if it refers to anything,
        and the Deployment's own pull secret exactly if that Secret exists. */
    lemma UpToDateSays(doc: Json, name: string, h: string)
      ensures var d := UpToDate(doc, name, h);
              && (h != "" ==> HashIs(d, h))
              && (h == "" ==> At(d, ANNOTATIONS) == At(doc, ANNOTATIONS))
              && PullsAre(d, if HasPull(name) then [name + "--pull"] else [])
    {
      UpdateSays(doc, h, Pull(name));
      hide Update, PullsAre, HashIs, At;
    }

    /** The pull secret is among what the pod's hash covers, with everything its containers and volumes
        mention. */
    lemma DesiredMentions(doc: Json, name: string, n: string)
      ensures Mentions(Desired(doc, name), n) <==>
              || (HasPull(name) && n == name + "--pull")
              || (exists c :: c in reader.containers(At(doc, POD_SPEC + ["containers"]))
                              && exists r :: r in c.envFrom && RefersTo(r, n))
              || exists v :: v in reader.volumes(At(doc, POD_SPEC + ["volumes"])) && RefersTo(v, n)
    {
      hide At, RefersTo;
    }

    /** Main result on repetition: on a Deployment brought up to date, with distinctly named containers,
        the next call finds the same hash and nothing to patch. */
    lemma SecondCallQuiet(doc: Json, name: string, h: string, h': string)
      requires IsHash(doc, name, h) && NamesDistinct(Desired(doc, name).containers)
      requires IsHash(UpToDate(doc, name, h), name, h')
      ensures h' == h
      ensures !HashChanged(UpToDate(doc, name, h), h') && !PullsChanged(UpToDate(doc, name, h), Pull(name))
    {
      UpdateSettles(doc, h, Pull(name));
      hide Update, HashChanged, PullsChanged, PodText, TableOf, NamesDistinct, At;
      assert Desired(UpToDate(doc, name, h), name) == Desired(doc, name);
      forall s, t |
        && PodText(Desired(doc, name), TableOf(secrets, configMaps), s)
        && PodText(Desired(doc, name), TableOf(secrets, configMaps), t)
        ensures s == t
      {
        OneText(Desired(doc, name), TableOf(secrets, configMaps), s, t);
      }
    }
  }
}
