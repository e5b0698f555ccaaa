/** The index over validated documents (config/crd/ops/v1alpha1/sink.go). */
module Sinks {
  import opened Text
  import opened ResourceId
  import opened Documents
  import opened Validator

  predicate OfKind(d: Document, kind: Kind) {
    d.kind == kind && ObjectKind(d.obj) == kind
  }

  /** The documents of one kind, keyed by ID. */
  ghost function Indexed(docs: seq<Document>, kind: Kind): map<FQN, Object> {
    if docs == [] then map[]
    else
      var last := docs[|docs| - 1];
      var rest := Indexed(docs[..|docs| - 1], kind);
      if OfKind(last, kind) then rest[last.fqn := last.obj] else rest
  }

  lemma IndexedSnoc(docs: seq<Document>, d: Document, kind: Kind)
    ensures Indexed(docs + [d], kind) ==
            if OfKind(d, kind) then Indexed(docs, kind)[d.fqn := d.obj] else Indexed(docs, kind)
  {
    assert (docs + [d])[..|docs|] == docs;
  }

  /** With distinct IDs the index answers for every document of its kind, and for nothing else. */
  lemma {:induction false} IndexedHas(docs: seq<Document>, kind: Kind, f: FQN)
    requires DistinctIDs(docs)
    ensures forall d :: d in docs && OfKind(d, kind) && d.fqn == f ==>
              f in Indexed(docs, kind) && Indexed(docs, kind)[f] == d.obj
    ensures f in Indexed(docs, kind) ==>
              exists d :: d in docs && OfKind(d, kind) && d.fqn == f && d.obj == Indexed(docs, kind)[f]
  {
    if docs != [] {
      var rest, last := docs[..|docs| - 1], docs[|docs| - 1];
      assert docs == rest + [last];
      IndexedHas(rest, kind, f);
      forall d | d in rest ensures d.fqn != last.fqn {
        var i :| 0 <= i < |rest| && rest[i] == d;
        assert docs[i] == d && docs[|docs| - 1] == last;
      }
    }
  }

  lemma IndexedRearranged(a: seq<Document>, b: seq<Document>, kind: Kind)
    requires DistinctIDs(a) && DistinctIDs(b) && multiset(a) == multiset(b)
    ensures Indexed(a, kind) == Indexed(b, kind)
  {
    Rearranged(a, b);
    var m, n := Indexed(a, kind), Indexed(b, kind);
    forall f ensures f in m <==> f in n
             ensures f in m && f in n ==> m[f] == n[f]
    {
      IndexedHas(a, kind, f);
      IndexedHas(b, kind, f);
    }
  }

  datatype Sink = Sink(
    workspaces: map<FQN, Object>,
    providers: map<FQN, Object>,
    clusters: map<FQN, Object>,
    apps: map<FQN, Object>,
    boxes: map<FQN, Object>)
  {
    /** The index holds exactly the given documents, each under its kind and ID. */
    ghost predicate Holds(docs: seq<Document>) {
      && workspaces == Indexed(docs, WorkspaceKind)
      && providers == Indexed(docs, ProviderKind)
      && clusters == Indexed(docs, ClusterKind)
      && apps == Indexed(docs, AppKind)
      && boxes == Indexed(docs, BoxKind)
    }

    function Count(): nat {
      |workspaces| + |providers| + |clusters| + |apps| + |boxes|
    }

    /** Adding a document; one whose object does not have the stated kind is left out. */
    function Add(doc: Document): Sink {
      match doc.kind
      case WorkspaceKind =>
        if doc.obj.WorkspaceObject? then this.(workspaces := workspaces[doc.fqn := doc.obj]) else this
      case ProviderKind =>
        if doc.obj.ProviderObject? then this.(providers := providers[doc.fqn := doc.obj]) else this
      case ClusterKind =>
        if doc.obj.ClusterObject? then this.(clusters := clusters[doc.fqn := doc.obj]) else this
      case AppKind =>
        if doc.obj.AppObject? then this.(apps := apps[doc.fqn := doc.obj]) else this
      case BoxKind =>
        if doc.obj.BoxObject? then this.(boxes := boxes[doc.fqn := doc.obj]) else this
      case OtherKind(_) => this
    }

    lemma AddHolds(docs: seq<Document>, doc: Document)
      requires Holds(docs)
      ensures Add(doc).Holds(docs + [doc])
    {
      hide Indexed;
      IndexedSnoc(docs, doc, WorkspaceKind);
      IndexedSnoc(docs, doc, ProviderKind);
      IndexedSnoc(docs, doc, ClusterKind);
      IndexedSnoc(docs, doc, AppKind);
      IndexedSnoc(docs, doc, BoxKind);
    }
  }

  lemma IndexedCount(docs: seq<Document>, d: Document, kind: Kind)
    requires DistinctIDs(docs + [d])
    ensures |Indexed(docs + [d], kind)| == |Indexed(docs, kind)| + if OfKind(d, kind) then 1 else 0
  {
    IndexedSnoc(docs, d, kind);
    assert DistinctIDs(docs) by {
      forall i, j | 0 <= i < j < |docs| ensures docs[i].fqn != docs[j].fqn {
        assert (docs + [d])[i].fqn != (docs + [d])[j].fqn;
      }
    }
    forall e | e in docs ensures e.fqn != d.fqn {
      var i :| 0 <= i < |docs| && docs[i] == e;
      assert (docs + [d])[i].fqn != (docs + [d])[|docs|].fqn;
    }
    IndexedHas(docs, kind, d.fqn);
  }

  /** The size of the five tables together. */
  ghost function TableSizes(docs: seq<Document>): nat {
    |Indexed(docs, WorkspaceKind)| + |Indexed(docs, ProviderKind)| + |Indexed(docs, ClusterKind)|
    + |Indexed(docs, AppKind)| + |Indexed(docs, BoxKind)|
  }

  /** Each document whose object has the stated kind is counted exactly once. */
  lemma {:induction false} CountsDocuments(docs: seq<Document>)
    requires DistinctIDs(docs)
    requires forall d :: d in docs ==> !d.kind.OtherKind? && ObjectKind(d.obj) == d.kind
    ensures TableSizes(docs) == |docs|
    ensures forall s: Sink :: s.Holds(docs) ==> s.Count() == |docs|
  {
    if docs != [] {
      var rest, last := docs[..|docs| - 1], docs[|docs| - 1];
      assert docs == rest + [last];
      CountsDocuments(rest);
      assert last in docs;
      hide Indexed;
      IndexedCount(rest, last, WorkspaceKind);
      IndexedCount(rest, last, ProviderKind);
      IndexedCount(rest, last, ClusterKind);
      IndexedCount(rest, last, AppKind);
      IndexedCount(rest, last, BoxKind);
    }
  }

  lemma NothingIndexed(s: Sink)
    requires s == Sink(map[], map[], map[], map[], map[])
    ensures s.Holds([])
  {
  }

  /** NewSink: an index of all the documents when validation finds no error, and nothing otherwise. */
  method NewSink(docs: seq<Document>) returns (sink: Option<Sink>)
    ensures sink.Some? ==> WellFormed(docs) && sink.value.Holds(docs)
    ensures KnownKinds(docs) && WellFormed(docs) ==> sink.Some?
  {
    hide KnownKinds, DistinctIDs, PairsOk, BoxOk, ParentIn, Grounded, Indexed;
    var outcome := Validator.Validate(docs);
    if outcome.errors != [] {
      return None;
    }
    var valid := outcome.valid;
    var s := Sink(map[], map[], map[], map[], map[]);
    NothingIndexed(s);
    for i := 0 to |valid|
      invariant s.Holds(valid[..i])
    {
      assert valid[..i + 1] == valid[..i] + [valid[i]];
      s.AddHolds(valid[..i], valid[i]);
      s := s.Add(valid[i]);
    }
    assert valid[..|valid|] == valid;
    IndexedRearranged(valid, docs, WorkspaceKind);
    IndexedRearranged(valid, docs, ProviderKind);
    IndexedRearranged(valid, docs, ClusterKind);
    IndexedRearranged(valid, docs, AppKind);
    IndexedRearranged(valid, docs, BoxKind);
    return Some(s);
  }
}
