/** Resource IDs: paths such as /ws/w1/prv/p1 that name a document and its whole parent chain
    (config/crd/ops/v1alpha1/fqn.go). */
module ResourceId {
  import opened Text

  type FQN = string

  /** The kind a document states; any text other than the five names is an OtherKind. */
  datatype Kind = WorkspaceKind | ProviderKind | ClusterKind | AppKind | BoxKind | OtherKind(text: string)

  datatype IdError =
    | NoLeadingSlash
    | OddSegments
    | NoPair
    | UnknownShortKind(short: string)
    | InvalidName(name: string)
    | KindMismatch
    | NameMismatch
    | InvalidStructure
    | UnknownKind(kind: Kind)
    | WrongPairCount
    | WrongParentKind(position: nat)
    | WrongLastKind
    | WorkspaceHasParent
    | ParentRequired

  function FullKind(short: string): Option<Kind> {
    if short == "ws" then Some(WorkspaceKind)
    else if short == "prv" then Some(ProviderKind)
    else if short == "cls" then Some(ClusterKind)
    else if short == "app" then Some(AppKind)
    else if short == "box" then Some(BoxKind)
    else None
  }

  function ShortName(kind: Kind): Option<string> {
    match kind
    case WorkspaceKind => Some("ws")
    case ProviderKind => Some("prv")
    case ClusterKind => Some("cls")
    case AppKind => Some("app")
    case BoxKind => Some("box")
    case OtherKind(_) => None
  }

  /** The kinds an ID of each kind must name before its own. */
  function ExpectedChain(kind: Kind): Option<seq<string>> {
    match kind
    case WorkspaceKind => Some([])
    case ProviderKind => Some(["ws"])
    case ClusterKind => Some(["ws", "prv"])
    case AppKind => Some(["ws", "prv", "cls"])
    case BoxKind => Some(["ws", "prv", "cls", "app"])
    case OtherKind(_) => None
  }

  // ---------- accessors

  function Segments(f: FQN): seq<string> {
    if f == "" || f == "/" then [] else Split(TrimPrefix(f, "/"), '/')
  }

  function Pairs(segs: seq<string>): seq<(string, string)>
    requires |segs| % 2 == 0
  {
    seq(|segs| / 2, i requires 0 <= i < |segs| / 2 => (segs[2 * i], segs[2 * i + 1]))
  }

  function KindPairs(f: FQN): seq<(string, string)> {
    var segs := Segments(f);
    if |segs| % 2 != 0 then [] else Pairs(segs)
  }

  method KindSegments(f: FQN) returns (pairs: seq<(string, string)>)
    ensures pairs == KindPairs(f)
  {
    var segs := Segments(f);
    if |segs| % 2 != 0 {
      return [];
    }
    pairs := [];
    var i := 0;
    while i < |segs|
      invariant 0 <= i <= |segs| && i % 2 == 0
      invariant pairs == Pairs(segs)[..i / 2]
    {
      pairs := pairs + [(segs[i], segs[i + 1])];
      i := i + 2;
    }
  }

  function LastName(f: FQN): string {
    var segs := Segments(f);
    if |segs| < 2 then "" else segs[|segs| - 1]
  }

  function ParentFQN(f: FQN): FQN {
    var segs := Segments(f);
    if |segs| <= 2 then "" else "/" + Join(segs[..|segs| - 2], '/')
  }

  // ---------- parsing and validation

  function CheckPairs(segs: seq<string>, i: nat): Option<IdError>
    requires |segs| % 2 == 0 && i % 2 == 0 && i <= |segs|
    decreases |segs| - i
  {
    if i == |segs| then None
    else if FullKind(segs[i]).None? then Some(UnknownShortKind(segs[i]))
    else if !IsDNS1123Label(segs[i + 1]) then Some(InvalidName(segs[i + 1]))
    else CheckPairs(segs, i + 2)
  }

  /** The full kind of a syntactically correct ID, or its first fault. */
  function Parse(id: string): Result<Kind, IdError> {
    var segs := Segments(id);
    if !HasPrefix(id, "/") then Err(NoLeadingSlash)
    else if |segs| % 2 != 0 then Err(OddSegments)
    else if |segs| < 2 then Err(NoPair)
    else match CheckPairs(segs, 0)
      case Some(e) => Err(e)
      case None => PairsChecked(segs, 0); assert SegmentOk(segs, |segs| - 2); Ok(FullKind(segs[|segs| - 2]).value)
  }

  /** A kind shortname at every even place, a DNS label at every odd one. */
  ghost predicate SegmentOk(segs: seq<string>, k: nat)
    requires k < |segs|
  {
    if k % 2 == 0 then FullKind(segs[k]).Some? else IsDNS1123Label(segs[k])
  }

  lemma {:induction false} PairsChecked(segs: seq<string>, i: nat)
    requires |segs| % 2 == 0 && i % 2 == 0 && i <= |segs|
    ensures CheckPairs(segs, i).None? <==> forall k :: i <= k < |segs| ==> SegmentOk(segs, k)
    decreases |segs| - i
  {
    if i < |segs| {
      PairsChecked(segs, i + 2);
      assert SegmentOk(segs, i) <==> FullKind(segs[i]).Some?;
      assert SegmentOk(segs, i + 1) <==> IsDNS1123Label(segs[i + 1]);
    }
  }

  method ParseResourceID(id: string) returns (r: Result<Kind, IdError>)
    ensures r == Parse(id)
  {
    hide Segments, IsDNS1123Label, FullKind;
    if !HasPrefix(id, "/") {
      return Err(NoLeadingSlash);
    }
    var segs := Segments(id);
    if |segs| % 2 != 0 {
      return Err(OddSegments);
    }
    if |segs| < 2 {
      return Err(NoPair);
    }
    var fullKind := OtherKind("");
    var i := 0;
    while i < |segs|
      invariant 0 <= i <= |segs| && i % 2 == 0
      invariant CheckPairs(segs, 0) == CheckPairs(segs, i)
      invariant i == |segs| ==> FullKind(segs[|segs| - 2]) == Some(fullKind)
    {
      if FullKind(segs[i]).None? {
        return Err(UnknownShortKind(segs[i]));
      }
      if i == |segs| - 2 {
        fullKind := FullKind(segs[i]).value;
      }
      if !IsDNS1123Label(segs[i + 1]) {
        return Err(InvalidName(segs[i + 1]));
      }
      i := i + 2;
    }
    return Ok(fullKind);
  }

  function ChainMismatch(pairs: seq<(string, string)>, chain: seq<string>, i: nat): Option<IdError>
    requires |chain| <= |pairs| && i <= |chain|
    decreases |chain| - i
  {
    if i == |chain| then None
    else if pairs[i].0 != chain[i] then Some(WrongParentKind(i))
    else ChainMismatch(pairs, chain, i + 1)
  }

  function ParentChainFault(f: FQN, kind: Kind): Option<IdError> {
    var pairs := KindPairs(f);
    if |pairs| == 0 then Some(InvalidStructure)
    else if ExpectedChain(kind).None? then Some(UnknownKind(kind))
    else if |pairs| != |ExpectedChain(kind).value| + 1 then Some(WrongPairCount)
    else if ChainMismatch(pairs, ExpectedChain(kind).value, 0).Some?
    then ChainMismatch(pairs, ExpectedChain(kind).value, 0)
    else if pairs[|pairs| - 1].0 != ShortName(kind).value then Some(WrongLastKind)
    else None
  }

  method ValidateParentChain(f: FQN, kind: Kind) returns (fault: Option<IdError>)
    ensures fault == ParentChainFault(f, kind)
  {
    var pairs := KindSegments(f);
    if |pairs| == 0 {
      return Some(InvalidStructure);
    }
    if ExpectedChain(kind).None? {
      return Some(UnknownKind(kind));
    }
    var chain := ExpectedChain(kind).value;
    if |pairs| != |chain| + 1 {
      return Some(WrongPairCount);
    }
    for i := 0 to |chain|
      invariant ChainMismatch(pairs, chain, 0) == ChainMismatch(pairs, chain, i)
    {
      if pairs[i].0 != chain[i] {
        return Some(WrongParentKind(i));
      }
    }
    if pairs[|pairs| - 1].0 != ShortName(kind).value {
      return Some(WrongLastKind);
    }
    return None;
  }

  /** ValidateResourceID: the ID itself when it names a document of that kind and name. */
  function Validate(id: string, kind: Kind, name: string): Result<FQN, IdError> {
    match Parse(id)
    case Err(e) => Err(e)
    case Ok(actual) =>
      if actual != kind then Err(KindMismatch)
      else if LastName(id) != name then Err(NameMismatch)
      else match ParentChainFault(id, kind)
        case Some(e) => Err(e)
        case None => Ok(id)
  }

  /** BuildResourceID: the ID of a named child of a parent ID. */
  function Build(parent: FQN, kind: Kind, name: string): Result<FQN, IdError> {
    if !IsDNS1123Label(name) then Err(InvalidName(name))
    else if ShortName(kind).None? then Err(UnknownKind(kind))
    else if kind == WorkspaceKind then
      if parent != "" then Err(WorkspaceHasParent) else Validate("/ws/" + name, kind, name)
    else if parent == "" then Err(ParentRequired)
    else Validate(parent + "/" + ShortName(kind).value + "/" + name, kind, name)
  }

  // ---------- the reference definition: an ID is a list of one to five names

  const CHAIN: seq<string> := ["ws", "prv", "cls", "app", "box"]
  const KINDS: seq<Kind> := [WorkspaceKind, ProviderKind, ClusterKind, AppKind, BoxKind]

  ghost predicate IsNameList(names: seq<string>) {
    1 <= |names| <= 5 && forall i :: 0 <= i < |names| ==> IsDNS1123Label(names[i])
  }

  ghost function Interleave(names: seq<string>): seq<string>
    requires |names| <= 5
  {
    seq(2 * |names|, k requires 0 <= k < 2 * |names| => if k % 2 == 0 then CHAIN[k / 2] else names[k / 2])
  }

  /** The ID that a list of names denotes. */
  ghost function Render(names: seq<string>): FQN
    requires IsNameList(names)
  {
    "/" + Join(Interleave(names), '/')
  }

  ghost function NamesOf(id: FQN): seq<string> {
    var pairs := KindPairs(id);
    seq(|pairs|, i requires 0 <= i < |pairs| => pairs[i].1)
  }

  lemma SlashFree(names: seq<string>)
    requires IsNameList(names)
    ensures forall k :: 0 <= k < 2 * |names| ==> Free(Interleave(names)[k], '/')
  {
    assert Free("ws", '/') && Free("prv", '/') && Free("cls", '/') && Free("app", '/') && Free("box", '/');
    forall k | 0 <= k < 2 * |names| ensures Free(Interleave(names)[k], '/') {
      if k % 2 == 1 {
        assert IsDNS1123Label(names[k / 2]);
      }
    }
  }

  /** A path with at least two segments is not one of the texts Segments treats as empty. */
  lemma SegmentsOfPath(segs: seq<string>)
    requires |segs| >= 2 && forall k :: 0 <= k < |segs| ==> Free(segs[k], '/')
    ensures Segments("/" + Join(segs, '/')) == segs
  {
    var path := Join(segs, '/');
    assert |path| >= 1;
    assert ("/" + path)[1..] == path;
    SplitJoin(segs, '/');
  }

  lemma SegmentsOfRender(names: seq<string>)
    requires IsNameList(names)
    ensures Segments(Render(names)) == Interleave(names)
  {
    SlashFree(names);
    SegmentsOfPath(Interleave(names));
  }

  /** Reading a list of segments two by two. */
  lemma PairedSegments(segs: seq<string>, names: seq<string>)
    requires |names| <= 5 && |segs| % 2 == 0
    ensures segs == Interleave(names) <==>
            Pairs(segs) == seq(|names|, i requires 0 <= i < |names| => (CHAIN[i], names[i]))
  {
    var pairs := seq(|names|, i requires 0 <= i < |names| => (CHAIN[i], names[i]));
    if Pairs(segs) == pairs {
      forall k | 0 <= k < |segs| ensures segs[k] == Interleave(names)[k] {
        assert Pairs(segs)[k / 2] == pairs[k / 2];
      }
    }
  }

  lemma NamesOfRender(names: seq<string>)
    requires IsNameList(names)
    ensures KindPairs(Render(names)) == seq(|names|, i requires 0 <= i < |names| => (CHAIN[i], names[i]))
    ensures NamesOf(Render(names)) == names
    ensures LastName(Render(names)) == names[|names| - 1]
  {
    hide Split, IsDNS1123Label;
    var id, segs := Render(names), Interleave(names);
    SegmentsOfRender(names);
    PairedSegments(segs, names);
    assert KindPairs(id) == Pairs(segs);
    assert LastName(id) == segs[|segs| - 1];
  }

  lemma ParentOfRender(names: seq<string>)
    requires IsNameList(names)
    ensures ParentFQN(Render(names)) == if |names| == 1 then "" else Render(names[..|names| - 1])
  {
    SegmentsOfRender(names);
    if |names| > 1 {
      assert Interleave(names)[..2 * |names| - 2] == Interleave(names[..|names| - 1]);
    }
  }

  lemma {:induction false} ChainAccepted(pairs: seq<(string, string)>, chain: seq<string>, i: nat)
    requires |chain| <= |pairs| && i <= |chain|
    ensures ChainMismatch(pairs, chain, i).None? <==> forall k :: i <= k < |chain| ==> pairs[k].0 == chain[k]
    decreases |chain| - i
  {
    if i < |chain| {
      ChainAccepted(pairs, chain, i + 1);
    }
  }

  lemma KindDepth(kind: Kind)
    requires ExpectedChain(kind).Some?
    ensures var k := |ExpectedChain(kind).value|;
            && k <= 4 && kind == KINDS[k]
            && ExpectedChain(kind).value == CHAIN[..k] && ShortName(kind) == Some(CHAIN[k])
  {
  }

  lemma ChainKnown(i: nat)
    requires i < 5
    ensures FullKind(CHAIN[i]) == Some(KINDS[i])
  {
  }

  lemma RenderedParses(names: seq<string>)
    requires IsNameList(names)
    ensures Parse(Render(names)) == Ok(KINDS[|names| - 1])
  {
    hide IsDNS1123Label, Segments, CheckPairs;
    var segs := Interleave(names);
    SegmentsOfRender(names);
    forall k | 0 <= k < |segs| ensures SegmentOk(segs, k) {
      if k % 2 == 0 {
        ChainKnown(k / 2);
      }
    }
    PairsChecked(segs, 0);
    ChainKnown(|names| - 1);
  }

  /** Every ID that denotes a list of names is accepted, for the kind of its length. */
  lemma RenderedIsAccepted(names: seq<string>)
    requires IsNameList(names)
    ensures Validate(Render(names), KINDS[|names| - 1], names[|names| - 1]) == Ok(Render(names))
  {
    var kind := KINDS[|names| - 1];
    RenderedParses(names);
    NamesOfRender(names);
    DepthOfKind(|names| - 1);
    ChainAccepted(KindPairs(Render(names)), ExpectedChain(kind).value, 0);
  }

  lemma DepthOfKind(i: nat)
    requires i < 5
    ensures ExpectedChain(KINDS[i]).Some? && ExpectedChain(KINDS[i]).value == CHAIN[..i]
    ensures ShortName(KINDS[i]) == Some(CHAIN[i])
  {
  }

  /** Every accepted ID denotes its list of names. */
  lemma AcceptedIsRendered(id: string, kind: Kind, name: string)
    requires Validate(id, kind, name).Ok?
    ensures IsNameList(NamesOf(id)) && id == Render(NamesOf(id))
    ensures kind == KINDS[|NamesOf(id)| - 1] && name == NamesOf(id)[|NamesOf(id)| - 1]
  {
    AcceptedSegments(id, kind, name);
    AcceptedParts(id, kind, name);
    hide Split, Join, Validate, NamesOf, IsDNS1123Label;
    JoinSplit(TrimPrefix(id, "/"), '/');
  }

  lemma AcceptedChain(f: FQN, kind: Kind)
    requires ParentChainFault(f, kind).None?
    ensures var pairs := KindPairs(f);
            && 1 <= |pairs| <= 5 && kind == KINDS[|pairs| - 1]
            && forall i :: 0 <= i < |pairs| ==> pairs[i].0 == CHAIN[i]
  {
    KindDepth(kind);
    ChainAccepted(KindPairs(f), ExpectedChain(kind).value, 0);
  }

  /** What the two checks behind an accepted ID found. */
  lemma AcceptedParts(id: string, kind: Kind, name: string)
    requires Validate(id, kind, name).Ok?
    ensures ParentChainFault(id, kind).None? && LastName(id) == name
    ensures |Segments(id)| % 2 == 0 && |Segments(id)| >= 2
    ensures forall k :: 0 <= k < |Segments(id)| ==> SegmentOk(Segments(id), k)
    ensures id == "/" + TrimPrefix(id, "/") && id != "/"
  {
    hide ParentChainFault, Split, SegmentOk, IsDNS1123Label;
    PairsChecked(Segments(id), 0);
  }

  lemma PairAt(f: FQN, i: nat)
    requires |Segments(f)| % 2 == 0 && i < |Segments(f)| / 2
    ensures |KindPairs(f)| == |NamesOf(f)| == |Segments(f)| / 2
    ensures KindPairs(f)[i] == (Segments(f)[2 * i], Segments(f)[2 * i + 1])
    ensures NamesOf(f)[i] == Segments(f)[2 * i + 1]
  {
    hide Segments;
  }

  lemma AcceptedNames(id: string, kind: Kind, name: string)
    requires Validate(id, kind, name).Ok?
    ensures IsNameList(NamesOf(id)) && name == NamesOf(id)[|NamesOf(id)| - 1]
  {
    AcceptedParts(id, kind, name);
    AcceptedChain(id, kind);
    PairAt(id, |Segments(id)| / 2 - 1);
    LastNameIsLast(id);
    hide Segments, IsDNS1123Label, ParentChainFault, Validate, NamesOf, KindPairs, SegmentOk, LastName;
    var names := NamesOf(id);
    forall i | 0 <= i < |names| ensures IsDNS1123Label(names[i]) {
      LabelAt(id, i);
    }
  }

  lemma LastNameIsLast(f: FQN)
    requires |Segments(f)| % 2 == 0 && |Segments(f)| >= 2
    ensures |NamesOf(f)| >= 1 && LastName(f) == NamesOf(f)[|NamesOf(f)| - 1]
  {
    PairAt(f, |Segments(f)| / 2 - 1);
    hide Segments, NamesOf, KindPairs;
  }

  lemma LabelAt(f: FQN, i: nat)
    requires |Segments(f)| % 2 == 0 && i < |Segments(f)| / 2
    requires forall k :: 0 <= k < |Segments(f)| ==> SegmentOk(Segments(f), k)
    ensures i < |NamesOf(f)| && IsDNS1123Label(NamesOf(f)[i])
  {
    PairAt(f, i);
    hide Segments, NamesOf, KindPairs, IsDNS1123Label;
    assert SegmentOk(Segments(f), 2 * i + 1);
  }

  lemma AcceptedSegments(id: string, kind: Kind, name: string)
    requires Validate(id, kind, name).Ok?
    ensures IsNameList(NamesOf(id)) && Segments(id) == Interleave(NamesOf(id))
    ensures kind == KINDS[|NamesOf(id)| - 1] && name == NamesOf(id)[|NamesOf(id)| - 1]
  {
    AcceptedNames(id, kind, name);
    AcceptedParts(id, kind, name);
    AcceptedChain(id, kind);
    hide Segments, IsDNS1123Label, ParentChainFault, Validate, SegmentOk;
    PairedSegments(Segments(id), NamesOf(id));
  }

  /** Main result: ValidateResourceID accepts exactly the renderings of one to five DNS labels,
      each for the kind of its depth and under its last name. */
  lemma AcceptedExactly(id: string, kind: Kind, name: string)
    ensures Validate(id, kind, name).Ok? <==>
            exists names :: IsNameList(names) && id == Render(names)
                         && kind == KINDS[|names| - 1] && name == names[|names| - 1]
    ensures Validate(id, kind, name).Ok? ==> Validate(id, kind, name).value == id
  {
    if Validate(id, kind, name).Ok? {
      AcceptedIsRendered(id, kind, name);
    }
    if exists names :: IsNameList(names) && id == Render(names)
                    && kind == KINDS[|names| - 1] && name == names[|names| - 1] {
      var names :| IsNameList(names) && id == Render(names)
                && kind == KINDS[|names| - 1] && name == names[|names| - 1];
      RenderedIsAccepted(names);
    }
  }

  /** Rendering and reading names back are inverse: accepted IDs and name lists correspond one to one. */
  lemma NamesBijection(a: seq<string>, b: seq<string>)
    requires IsNameList(a) && IsNameList(b)
    ensures NamesOf(Render(a)) == a
    ensures Render(a) == Render(b) <==> a == b
  {
    NamesOfRender(a);
    NamesOfRender(b);
  }

  lemma RenderSnoc(names: seq<string>, name: string)
    requires IsNameList(names) && |names| <= 4 && IsDNS1123Label(name)
    ensures IsNameList(names + [name])
    ensures Render(names + [name]) == Render(names) + ("/" + CHAIN[|names|] + "/" + name)
  {
    var segs := Interleave(names);
    assert Interleave(names + [name]) == segs + [CHAIN[|names|]] + [name];
    JoinSnoc(segs, CHAIN[|names|], '/');
    JoinSnoc(segs + [CHAIN[|names|]], name, '/');
  }

  /** What BuildResourceID prints before it validates the result. */
  lemma PrintedChild(names: seq<string>)
    requires IsNameList(names)
    ensures var parent := if |names| == 1 then "" else Render(names[..|names| - 1]);
            Render(names) == parent + ("/" + CHAIN[|names| - 1] + "/" + names[|names| - 1])
  {
    if |names| == 1 {
      assert Interleave(names) == ["ws", names[0]];
      assert Join(["ws", names[0]], '/') == "ws" + ['/'] + Join([names[0]], '/');
    } else {
      var parent := names[..|names| - 1];
      RenderSnoc(parent, names[|names| - 1]);
      assert parent + [names[|names| - 1]] == names;
    }
  }

  lemma BuildRendered(names: seq<string>)
    requires IsNameList(names)
    ensures var parent := if |names| == 1 then "" else Render(names[..|names| - 1]);
            Build(parent, KINDS[|names| - 1], names[|names| - 1]) == Ok(Render(names))
  {
    hide Validate;
    var k := |names| - 1;
    var parent := if k == 0 then "" else Render(names[..k]);
    PrintedChild(names);
    RenderedIsAccepted(names);
    DepthOfKind(k);
    assert parent + "/" + CHAIN[k] + "/" + names[k] == parent + ("/" + CHAIN[k] + "/" + names[k]);
    assert k == 0 ==> "/ws/" + names[k] == "" + ("/" + CHAIN[k] + "/" + names[k]);
    assert KINDS[k] == WorkspaceKind <==> k == 0;
  }

  /** Round trip 1: rebuilding an accepted ID from its parent, kind and last name returns it. */
  lemma BuildFromParts(id: string, kind: Kind, name: string)
    requires Validate(id, kind, name).Ok?
    ensures Build(ParentFQN(id), kind, LastName(id)) == Ok(id)
  {
    AcceptedIsRendered(id, kind, name);
    var names := NamesOf(id);
    NamesOfRender(names);
    ParentOfRender(names);
    BuildRendered(names);
  }

  lemma ValidateReturnsItsInput(parent: FQN, kind: Kind, name: string)
    ensures Validate("/ws/" + name, kind, name).Ok? ==> Validate("/ws/" + name, kind, name).value == "/ws/" + name
    ensures ShortName(kind).Some? ==>
              var id := parent + "/" + ShortName(kind).value + "/" + name;
              Validate(id, kind, name).Ok? ==> Validate(id, kind, name).value == id
  {
    hide Parse, ParentChainFault, LastName;
  }

  lemma BuiltForm(parent: FQN, kind: Kind, name: string)
    requires Build(parent, kind, name).Ok?
    ensures ShortName(kind).Some? && (kind == WorkspaceKind <==> parent == "")
    ensures Build(parent, kind, name).value == parent + ("/" + ShortName(kind).value + "/" + name)
    ensures Validate(Build(parent, kind, name).value, kind, name).Ok?
  {
    ValidateReturnsItsInput(parent, kind, name);
    hide Validate;
    assert kind == WorkspaceKind ||
           parent + "/" + ShortName(kind).value + "/" + name == parent + ("/" + ShortName(kind).value + "/" + name);
    assert "/ws/" + name == "" + ("/" + "ws" + "/" + name);
  }

  /** Round trip 2: the parent of a built ID is the parent it was built from. */
  lemma ParentOfBuilt(parent: FQN, kind: Kind, name: string)
    requires Build(parent, kind, name).Ok?
    ensures ParentFQN(Build(parent, kind, name).value) == parent
  {
    var id := Build(parent, kind, name).value;
    BuiltForm(parent, kind, name);
    ParentOfPrinted(parent, kind, name, id);
  }

  lemma ParentOfPrinted(parent: FQN, kind: Kind, name: string, id: FQN)
    requires ShortName(kind).Some? && (kind == WorkspaceKind <==> parent == "")
    requires id == parent + ("/" + ShortName(kind).value + "/" + name)
    requires Validate(id, kind, name).Ok?
    ensures ParentFQN(id) == parent
  {
    AcceptedIsRendered(id, kind, name);
    var names := NamesOf(id);
    ParentOfRender(names);
    PrintedChild(names);
    DepthOfKind(|names| - 1);
    if |names| > 1 {
      SameTail(parent, Render(names[..|names| - 1]), "/" + CHAIN[|names| - 1] + "/" + name);
    }
  }

  lemma SameTail(a: string, b: string, tail: string)
    requires a + tail == b + tail
    ensures a == b
  {
    assert a == (a + tail)[..|a|] && b == (b + tail)[..|b|];
  }

  /** The parent of an accepted non-workspace ID is itself accepted, one kind up. */
  lemma ParentIsAccepted(id: string, kind: Kind, name: string)
    requires Validate(id, kind, name).Ok? && kind != WorkspaceKind
    ensures |NamesOf(id)| > 1
    ensures Validate(ParentFQN(id), KINDS[|NamesOf(id)| - 2], LastName(ParentFQN(id))) == Ok(ParentFQN(id))
  {
    AcceptedIsRendered(id, kind, name);
    var names := NamesOf(id);
    ParentOfRender(names);
    var rest := names[..|names| - 1];
    NamesOfRender(rest);
    RenderedIsAccepted(rest);
  }
}
