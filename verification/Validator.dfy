/** Validation of a set of documents (config/crd/ops/v1alpha1/validator.go): one pass over the
    documents in topological order, so that a parent is judged before its children. */
module Validator {
  import opened Text
  import opened Sorting
  import opened ResourceId
  import opened Documents

  datatype Fault =
    | WrongPairs(expected: nat, found: nat)
    | DuplicateID(first: nat)
    | MissingParent(parent: FQN)
    | BadBox(why: BoxFault)

  datatype BoxFault =
    | NameNotLabel
    | NameReserved
    | ComponentMismatch
    | StandaloneIngress
    | ComposeCommand
    | ComposeArgs
    | ComposeIngress

  datatype ValidationError = ValidationError(doc: Document, fault: Fault)

  function KindOrder(kind: Kind): nat {
    match kind
    case WorkspaceKind => 1
    case ProviderKind => 2
    case ClusterKind => 3
    case AppKind => 4
    case BoxKind => 5
    case OtherKind(_) => 999
  }

  function ValidateBox(meta: Meta, box: BoxSpec): Option<BoxFault> {
    if !IsDNS1123Label(meta.name) then Some(NameNotLabel)
    else if meta.name == "app" then Some(NameReserved)
    else if box.component != "" && box.component != meta.name then Some(ComponentMismatch)
    else if box.image != "" then
      if box.hasIngress then Some(StandaloneIngress) else None
    else if |box.command| > 0 then Some(ComposeCommand)
    else if |box.args| > 0 then Some(ComposeArgs)
    else if box.hasIngress then Some(ComposeIngress)
    else None
  }

  /** A Box document in order: its name is a label other than app, its component is empty or that name,
      it has no ingress, and without an image it has no command and no arguments. */
  predicate BoxFits(meta: Meta, box: BoxSpec) {
    && IsDNS1123Label(meta.name) && meta.name != "app" && box.component in ["", meta.name]
    && !box.hasIngress
    && (box.image == "" ==> box.command == [] && box.args == [])
  }

  /** Exactly the Boxes in order pass, and a fault says what is wrong. */
  lemma BoxFitsExactly(meta: Meta, box: BoxSpec)
    ensures ValidateBox(meta, box).None? <==> BoxFits(meta, box)
    ensures match ValidateBox(meta, box)
            case None => true
            case Some(NameNotLabel) => !IsDNS1123Label(meta.name)
            case Some(NameReserved) => meta.name == "app"
            case Some(ComponentMismatch) => box.component !in ["", meta.name]
            case Some(StandaloneIngress) => box.image != "" && box.hasIngress
            case Some(ComposeCommand) => box.image == "" && box.command != []
            case Some(ComposeArgs) => box.image == "" && box.args != []
            case Some(ComposeIngress) => box.image == "" && box.hasIngress
  {
    hide IsDNS1123Label;
  }

  /** All Box documents are in order. */
  predicate BoxesFit(docs: seq<Document>) {
    forall d :: d in docs && d.kind == BoxKind && d.obj.BoxObject? ==> BoxFits(d.obj.meta, d.obj.box)
  }

  lemma BoxOkExactly(d: Document)
    ensures BoxOk(d) <==> (d.kind == BoxKind && d.obj.BoxObject? ==> BoxFits(d.obj.meta, d.obj.box))
  {
    if d.kind == BoxKind && d.obj.BoxObject? {
      BoxFitsExactly(d.obj.meta, d.obj.box);
    }
  }

  /** Well-formed sets in the documents' own fields: distinct IDs, as many pairs as the kind has levels,
      parents present, Boxes in order. */
  lemma WellFormedExactly(docs: seq<Document>)
    ensures WellFormed(docs) <==>
            && DistinctIDs(docs) && BoxesFit(docs)
            && forall d :: d in docs ==> PairsOk(d) && ParentIn(d, docs)
  {
    hide BoxOk, BoxFits, PairsOk, ParentIn, DistinctIDs;
    forall d | d in docs
      ensures BoxOk(d) <==> (d.kind == BoxKind && d.obj.BoxObject? ==> BoxFits(d.obj.meta, d.obj.box))
    {
      BoxOkExactly(d);
    }
  }

  /** Kind order first, then the ID. */
  predicate DocLeq(a: Document, b: Document) {
    KindOrder(a.kind) < KindOrder(b.kind) || (KindOrder(a.kind) == KindOrder(b.kind) && Leq(a.fqn, b.fqn))
  }

  lemma DocLeqIsPreorder()
    ensures TotalPreorder(DocLeq)
  {
    LeqIsPreorder();
    assert forall a: Document, b: Document :: Leq(a.fqn, b.fqn) || Leq(b.fqn, a.fqn);
    forall a, b, c | DocLeq(a, b) && DocLeq(b, c) ensures DocLeq(a, c) {
      if Leq(a.fqn, b.fqn) && Leq(b.fqn, c.fqn) {
        LeqTransitive(a.fqn, b.fqn, c.fqn);
      }
    }
  }

  method SortByTopology(docs: seq<Document>) returns (sorted: seq<Document>)
    ensures multiset(sorted) == multiset(docs)
    ensures Sorted(DocLeq, sorted)
  {
    DocLeqIsPreorder();
    sorted := Sort(DocLeq, docs);
  }

  // ---------- the property that validation decides

  predicate KnownKinds(docs: seq<Document>) {
    forall d :: d in docs ==> KindOrder(d.kind) != 999
  }

  predicate PairsOk(d: Document) {
    KindOrder(d.kind) == 999 || |KindPairs(d.fqn)| == KindOrder(d.kind)
  }

  predicate BoxOk(d: Document) {
    d.kind == BoxKind && d.obj.BoxObject? ==> ValidateBox(d.obj.meta, d.obj.box).None?
  }

  predicate ParentIn(d: Document, docs: seq<Document>) {
    d.kind == WorkspaceKind || exists p :: p in docs && p.fqn == ParentFQN(d.fqn)
  }

  predicate DistinctIDs(docs: seq<Document>) {
    forall i, j :: 0 <= i < j < |docs| ==> docs[i].fqn != docs[j].fqn
  }

  predicate WellFormed(docs: seq<Document>) {
    && DistinctIDs(docs)
    && forall d :: d in docs ==> PairsOk(d) && BoxOk(d) && ParentIn(d, docs)
  }

  /** A document whose whole chain of ancestors is present and in order. */
  ghost predicate Grounded(d: Document, docs: seq<Document>)
    decreases KindOrder(d.kind)
  {
    && PairsOk(d) && BoxOk(d)
    && (d.kind == WorkspaceKind ||
        exists p ::
          p in docs && p.fqn == ParentFQN(d.fqn) && KindOrder(p.kind) < KindOrder(d.kind) && Grounded(p, docs))
  }

  /** Removing the last pair of a path leaves one pair less. */
  lemma PairsOfParent(f: FQN)
    requires |KindPairs(f)| >= 2
    ensures |KindPairs(ParentFQN(f))| == |KindPairs(f)| - 1
  {
    SegmentsAreFree(f);
    hide Split, Join, Free, TrimPrefix;
    var segs := Segments(f);
    SegmentsOfPath(segs[..|segs| - 2]);
  }

  lemma SegmentsAreFree(f: FQN)
    ensures forall k :: 0 <= k < |Segments(f)| ==> Free(Segments(f)[k], '/')
  {
    hide Split, Free;
    SplitFree(TrimPrefix(f, "/"), '/');
  }

  /** In documents of the right depth, a parent's kind comes strictly first. */
  lemma ParentFirst(d: Document, p: Document)
    requires KindOrder(d.kind) != 999 && KindOrder(p.kind) != 999 && d.kind != WorkspaceKind
    requires PairsOk(d) && PairsOk(p) && p.fqn == ParentFQN(d.fqn)
    ensures KindOrder(p.kind) < KindOrder(d.kind)
  {
    PairsOfParent(d.fqn);
  }

  // ---------- the pass

  datatype Outcome = Outcome(valid: seq<Document>, errors: seq<ValidationError>)

  function IDs(docs: seq<Document>): set<FQN> {
    set d | d in docs :: d.fqn
  }

  /** What holds after the pass has seen the documents of done. */
  ghost predicate Seen(done: seq<Document>, o: Outcome) {
    && |o.valid| + |o.errors| == |done|
    && (o.errors == [] ==> o.valid == done)
    && (forall d :: d in o.valid ==> d in done && PairsOk(d) && BoxOk(d) && ParentIn(d, o.valid))
    && DistinctIDs(o.valid)
  }

  /** The four tests of one document, in the order they are made. */
  method CheckDocument(doc: Document, seen: map<FQN, nat>, validParents: set<FQN>) returns (fault: Option<Fault>)
    ensures fault.None? <==>
              && PairsOk(doc) && BoxOk(doc) && doc.fqn !in seen
              && (doc.kind == WorkspaceKind || ParentFQN(doc.fqn) in validParents)
  {
    var pairs := KindSegments(doc.fqn);
    var expected := KindOrder(doc.kind);
    if expected != 999 && |pairs| != expected {
      return Some(WrongPairs(expected, |pairs|));
    }
    if doc.fqn in seen {
      return Some(DuplicateID(seen[doc.fqn]));
    }
    if doc.kind != WorkspaceKind && ParentFQN(doc.fqn) !in validParents {
      return Some(MissingParent(ParentFQN(doc.fqn)));
    }
    if doc.kind == BoxKind && doc.obj.BoxObject? {
      var why := ValidateBox(doc.obj.meta, doc.obj.box);
      if why.Some? {
        return Some(BadBox(why.value));
      }
    }
    return None;
  }

  lemma SeenError(done: seq<Document>, o: Outcome, doc: Document, e: ValidationError)
    requires Seen(done, o)
    ensures Seen(done + [doc], Outcome(o.valid, o.errors + [e]))
  {
  }

  lemma SeenValid(done: seq<Document>, o: Outcome, doc: Document)
    requires Seen(done, o)
    requires PairsOk(doc) && BoxOk(doc) && doc.fqn !in IDs(o.valid)
    requires doc.kind == WorkspaceKind || ParentFQN(doc.fqn) in IDs(o.valid)
    ensures Seen(done + [doc], Outcome(o.valid + [doc], o.errors))
    ensures IDs(o.valid + [doc]) == IDs(o.valid) + {doc.fqn}
  {
    ExtendValid(o.valid, doc);
  }

  /** Validate decides WellFormed for documents of the five kinds. Whatever the input, what it
      calls valid has distinct IDs and is closed under parents; with distinct IDs it is exactly
      the grounded documents. */
  method Validate(docs: seq<Document>) returns (o: Outcome)
    ensures |o.valid| + |o.errors| == |docs|
    ensures o.errors == [] ==> multiset(o.valid) == multiset(docs) && WellFormed(docs)
    ensures KnownKinds(docs) && WellFormed(docs) ==> o.errors == []
    ensures BoxesFit(o.valid) && (o.errors == [] ==> BoxesFit(docs))
    ensures DistinctIDs(o.valid)
    ensures forall d :: d in o.valid ==> d in docs && PairsOk(d) && BoxOk(d) && ParentIn(d, o.valid)
    ensures KnownKinds(docs) && DistinctIDs(docs) ==> forall d :: d in docs ==> (d in o.valid <==> Grounded(d, docs))
  {
    hide BoxesFit, Passed, KnownKinds, WellFormed, DistinctIDs, PairsOk, BoxOk, ParentIn, IDs, Sorted, ParentFQN;
    hide Grounded;
    var sorted := SortByTopology(docs);
    NothingSeen(docs);
    assert sorted[..0] == [];
    var valid: seq<Document> := [];
    var errors: seq<ValidationError> := [];
    var seen: map<FQN, nat> := map[];
    var validParents: set<FQN> := {};
    for i := 0 to |sorted|
      invariant seen.Keys == validParents == IDs(valid)
      invariant Passed(docs, sorted[..i], Outcome(valid, errors))
    {
      var doc := sorted[i];
      assert sorted[..i + 1] == sorted[..i] + [doc];
      var fault := CheckDocument(doc, seen, validParents);
      if fault.Some? {
        var e := ValidationError(doc, fault.value);
        PassedOver(docs, sorted, i, Outcome(valid, errors), e);
        errors := errors + [e];
      } else {
        PassedOn(docs, sorted, i, Outcome(valid, errors));
        seen := seen[doc.fqn := i];
        validParents := validParents + {doc.fqn};
        valid := valid + [doc];
      }
    }
    assert sorted[..|sorted|] == sorted;
    o := Outcome(valid, errors);
    AllSeen(docs, sorted, o);
    ValidBoxesFit(o.valid);
    WellFormedExactly(docs);
  }

  lemma ValidBoxesFit(docs: seq<Document>)
    requires forall d :: d in docs ==> BoxOk(d)
    ensures BoxesFit(docs)
  {
    hide BoxOk, BoxFits;
    forall d | d in docs && d.kind == BoxKind && d.obj.BoxObject? ensures BoxFits(d.obj.meta, d.obj.box) {
      BoxOkExactly(d);
    }
  }

  /** What the pass keeps: what it has seen, no error for a well-formed set, and with distinct IDs the
      right judgement. */
  ghost predicate Passed(docs: seq<Document>, done: seq<Document>, o: Outcome) {
    && Seen(done, o)
    && (KnownKinds(docs) && WellFormed(docs) ==> o.errors == [] && o.valid == done)
    && (KnownKinds(docs) && DistinctIDs(docs) ==> JudgedRightly(docs, done, o.valid))
  }

  /** The tests that CheckDocument makes against the documents found valid so far. */
  predicate Passes(doc: Document, valid: seq<Document>) {
    && PairsOk(doc) && BoxOk(doc) && doc.fqn !in IDs(valid)
    && (doc.kind == WorkspaceKind || ParentFQN(doc.fqn) in IDs(valid))
  }

  lemma PassedOver(docs: seq<Document>, sorted: seq<Document>, i: nat, o: Outcome, e: ValidationError)
    requires multiset(sorted) == multiset(docs) && Sorted(DocLeq, sorted) && i < |sorted|
    requires Passed(docs, sorted[..i], o) && !Passes(sorted[i], o.valid)
    ensures Passed(docs, sorted[..i] + [sorted[i]], Outcome(o.valid, o.errors + [e]))
  {
    hide KnownKinds, WellFormed, DistinctIDs, PairsOk, BoxOk, IDs, Sorted, ParentFQN, Seen, Grounded, JudgedRightly;
    SeenError(sorted[..i], o, sorted[i], e);
    if KnownKinds(docs) && WellFormed(docs) {
      WellFormedStep(docs, sorted, i);
    }
    if KnownKinds(docs) && DistinctIDs(docs) {
      GroundedStep(docs, sorted, i, o.valid);
    }
  }

  lemma PassedOn(docs: seq<Document>, sorted: seq<Document>, i: nat, o: Outcome)
    requires multiset(sorted) == multiset(docs) && Sorted(DocLeq, sorted) && i < |sorted|
    requires Passed(docs, sorted[..i], o) && Passes(sorted[i], o.valid)
    ensures Passed(docs, sorted[..i] + [sorted[i]], Outcome(o.valid + [sorted[i]], o.errors))
    ensures IDs(o.valid + [sorted[i]]) == IDs(o.valid) + {sorted[i].fqn}
  {
    hide KnownKinds, WellFormed, DistinctIDs, PairsOk, BoxOk, IDs, Sorted, ParentFQN, Seen, Grounded, JudgedRightly;
    SeenValid(sorted[..i], o, sorted[i]);
    if KnownKinds(docs) && DistinctIDs(docs) {
      GroundedStep(docs, sorted, i, o.valid);
    }
  }

  lemma NothingSeen(docs: seq<Document>)
    ensures Passed(docs, [], Outcome([], [])) && IDs([]) == {}
  {
  }

  /** What the pass says when it is through. */
  lemma AllSeen(docs: seq<Document>, sorted: seq<Document>, o: Outcome)
    requires multiset(sorted) == multiset(docs) && Passed(docs, sorted, o)
    ensures |o.valid| + |o.errors| == |docs|
    ensures o.errors == [] ==> multiset(o.valid) == multiset(docs) && WellFormed(docs)
    ensures KnownKinds(docs) && WellFormed(docs) ==> o.errors == []
    ensures DistinctIDs(o.valid)
    ensures forall d :: d in o.valid ==> d in docs && PairsOk(d) && BoxOk(d) && ParentIn(d, o.valid)
    ensures KnownKinds(docs) && DistinctIDs(docs) ==> forall d :: d in docs ==> (d in o.valid <==> Grounded(d, docs))
  {
    hide KnownKinds, PairsOk, BoxOk, ParentIn, Grounded, DistinctIDs;
    Rearranged(docs, sorted);
    if o.errors == [] {
      assert WellFormed(sorted);
      SameDocuments(sorted, docs);
    }
  }

  /** Among the documents seen, exactly the grounded ones were called valid. */
  ghost predicate JudgedRightly(docs: seq<Document>, done: seq<Document>, valid: seq<Document>) {
    && (forall d :: d in valid ==> d in done)
    && forall d :: d in done ==> (d in valid <==> Grounded(d, docs))
  }

  lemma Rearranged(docs: seq<Document>, sorted: seq<Document>)
    requires multiset(sorted) == multiset(docs)
    ensures |sorted| == |docs|
    ensures forall d :: d in sorted <==> d in docs
    ensures DistinctIDs(docs) <==> DistinctIDs(sorted)
  {
    assert |multiset(sorted)| == |sorted| && |multiset(docs)| == |docs|;
    forall d ensures d in sorted <==> d in docs {
      assert d in sorted <==> d in multiset(sorted);
      assert d in docs <==> d in multiset(docs);
    }
    if DistinctIDs(docs) {
      DistinctRearranged(docs, sorted);
    }
    if DistinctIDs(sorted) {
      DistinctRearranged(sorted, docs);
    }
  }

  lemma DistinctRearranged(a: seq<Document>, b: seq<Document>)
    requires multiset(a) == multiset(b) && DistinctIDs(a)
    ensures DistinctIDs(b)
  {
    forall i, j | 0 <= i < j < |b| ensures b[i].fqn != b[j].fqn {
      if b[i].fqn == b[j].fqn {
        assert b[i] in multiset(a) && b[j] in multiset(a);
        var x :| 0 <= x < |a| && a[x] == b[i];
        var y :| 0 <= y < |a| && a[y] == b[j];
        assert x == y;
        MultiplicityOfPair(b, i, j);
        OnceInDistinct(a, x);
      }
    }
  }

  lemma OnceInDistinct(a: seq<Document>, x: nat)
    requires DistinctIDs(a) && x < |a|
    ensures multiset(a)[a[x]] == 1
  {
    assert a == a[..x] + [a[x]] + a[x + 1..];
    assert a[x] !in a[..x] && a[x] !in a[x + 1..];
  }

  lemma ExtendValid(valid: seq<Document>, doc: Document)
    requires DistinctIDs(valid) && doc.fqn !in IDs(valid)
    ensures DistinctIDs(valid + [doc])
    ensures IDs(valid + [doc]) == IDs(valid) + {doc.fqn}
    ensures forall d :: d in valid && ParentIn(d, valid) ==> ParentIn(d, valid + [doc])
  {
    forall i | 0 <= i < |valid| ensures valid[i].fqn != doc.fqn {
      assert valid[i] in valid;
    }
    assert forall d :: d in valid + [doc] <==> d in valid || d == doc;
  }

  /** A well-formed set gives the pass nothing to object to. */
  lemma WellFormedStep(docs: seq<Document>, sorted: seq<Document>, i: nat)
    requires KnownKinds(docs) && WellFormed(docs) && multiset(sorted) == multiset(docs)
    requires Sorted(DocLeq, sorted) && i < |sorted|
    ensures PairsOk(sorted[i]) && BoxOk(sorted[i]) && KindOrder(sorted[i].kind) != 999
    ensures sorted[i].fqn !in IDs(sorted[..i])
    ensures sorted[i].kind != WorkspaceKind ==> ParentFQN(sorted[i].fqn) in IDs(sorted[..i])
  {
    Rearranged(docs, sorted);
    var d := sorted[i];
    assert d in docs;
    if d.kind != WorkspaceKind {
      var p :| p in docs && p.fqn == ParentFQN(d.fqn);
      ParentEarlier(sorted, i, p);
    }
  }

  lemma ParentEarlier(sorted: seq<Document>, i: nat, p: Document)
    requires Sorted(DocLeq, sorted) && i < |sorted| && p in sorted
    requires KindOrder(sorted[i].kind) != 999 && KindOrder(p.kind) != 999 && sorted[i].kind != WorkspaceKind
    requires PairsOk(sorted[i]) && PairsOk(p) && p.fqn == ParentFQN(sorted[i].fqn)
    ensures p in sorted[..i]
  {
    ParentFirst(sorted[i], p);
    var j :| 0 <= j < |sorted| && sorted[j] == p;
    assert j > i ==> DocLeq(sorted[i], sorted[j]);
    assert j < i;
    assert sorted[..i][j] == p;
  }

  /** With distinct IDs the parent test of the pass is the groundedness of the parent. */
  lemma GroundedStep(docs: seq<Document>, sorted: seq<Document>, i: nat, valid: seq<Document>)
    requires KnownKinds(docs) && DistinctIDs(docs) && multiset(sorted) == multiset(docs)
    requires Sorted(DocLeq, sorted) && i < |sorted|
    requires JudgedRightly(docs, sorted[..i], valid)
    ensures Grounded(sorted[i], docs) <==> Passes(sorted[i], valid)
    ensures JudgedRightly(docs, sorted[..i] + [sorted[i]],
                          if Grounded(sorted[i], docs) then valid + [sorted[i]] else valid)
  {
    NotJudgedYet(docs, sorted, i, valid);
    JudgedNext(docs, sorted[..i], valid, sorted[i]);
    hide Sorted, KnownKinds, PairsOk, BoxOk, DistinctIDs, ParentFQN, KindOrder, IDs, JudgedRightly;
    if PairsOk(sorted[i]) && sorted[i].kind != WorkspaceKind {
      ParentJudged(docs, sorted, i, valid);
    }
  }

  lemma JudgedNext(docs: seq<Document>, done: seq<Document>, valid: seq<Document>, d: Document)
    requires JudgedRightly(docs, done, valid) && d !in valid
    ensures JudgedRightly(docs, done + [d], if Grounded(d, docs) then valid + [d] else valid)
  {
    hide Grounded;
    if d in done {
      assert !Grounded(d, docs);
    }
  }

  /** A document not visited yet is not among the valid ones, nor is another of its ID. */
  lemma NotJudgedYet(docs: seq<Document>, sorted: seq<Document>, i: nat, valid: seq<Document>)
    requires DistinctIDs(docs) && multiset(sorted) == multiset(docs) && i < |sorted|
    requires JudgedRightly(docs, sorted[..i], valid)
    ensures sorted[i].fqn !in IDs(valid) && forall v :: v in valid ==> v != sorted[i] && v in docs
  {
    Rearranged(docs, sorted);
    hide Grounded;
    forall v | v in valid ensures v.fqn != sorted[i].fqn && v in docs {
      var j :| 0 <= j < i && sorted[j] == v;
    }
  }

  /** Whether the parent was found valid is whether it is there, in order and grounded. */
  lemma ParentJudged(docs: seq<Document>, sorted: seq<Document>, i: nat, valid: seq<Document>)
    requires KnownKinds(docs) && DistinctIDs(docs) && multiset(sorted) == multiset(docs)
    requires Sorted(DocLeq, sorted) && i < |sorted|
    requires JudgedRightly(docs, sorted[..i], valid)
    requires PairsOk(sorted[i]) && sorted[i].kind != WorkspaceKind
    ensures var d := sorted[i];
            ParentFQN(d.fqn) in IDs(valid) <==>
            exists p ::
              p in docs && p.fqn == ParentFQN(d.fqn) && KindOrder(p.kind) < KindOrder(d.kind) && Grounded(p, docs)
  {
    Rearranged(docs, sorted);
    var d := sorted[i];
    assert d in sorted;
    if ParentFQN(d.fqn) in IDs(valid) {
      var p :| p in valid && p.fqn == ParentFQN(d.fqn);
      var j :| 0 <= j < i && sorted[j] == p;
      GroundedPairs(p, docs);
      ParentFirst(d, p);
      assert p in docs && Grounded(p, docs);
    }
    hide DistinctIDs, ParentFQN, PairsOk;
    if exists p ::
         p in docs && p.fqn == ParentFQN(d.fqn) && KindOrder(p.kind) < KindOrder(d.kind) && Grounded(p, docs)
    {
      var p :| p in docs && p.fqn == ParentFQN(d.fqn) && KindOrder(p.kind) < KindOrder(d.kind) && Grounded(p, docs);
      ParentEarlier(sorted, i, p);
      assert p in valid;
    }
  }

  lemma GroundedPairs(p: Document, docs: seq<Document>)
    requires Grounded(p, docs)
    ensures PairsOk(p)
  {
  }

  /** The verdict depends on which documents there are, not on their order. */
  lemma SameDocuments(a: seq<Document>, b: seq<Document>)
    requires multiset(a) == multiset(b)
    ensures WellFormed(a) <==> WellFormed(b)
    ensures KnownKinds(a) <==> KnownKinds(b)
  {
    Rearranged(a, b);
  }
}
