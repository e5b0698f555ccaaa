/** Two ways to say the same change of a Deployment: a JSON patch (RFC 6902, with the pointers of
    RFC 6901) and the merge patch (RFC 7396) it falls back to (adapters/kube/client_deployment.go). */
module Patch {
  import opened Text

  datatype Json =
    | Null
    | Str(text: string)
    | Scalar(literal: string)
    | Arr(items: seq<Json>)
    | Obj(members: map<string, Json>)

  // ---------- pointers

  /** strings.ReplaceAll for a pattern that is not empty. */
  function ReplaceAll(s: string, find: string, subst: string): string
    requires find != ""
    decreases |s|
  {
    if s == "" then ""
    else if find <= s then subst + ReplaceAll(s[|find|..], find, subst)
    else [s[0]] + ReplaceAll(s[1..], find, subst)
  }

  function Escape(s: string): string {
    ReplaceAll(ReplaceAll(s, "~", "~0"), "/", "~1")
  }

  /** Section 4 of RFC 6901: first ~1, then ~0. */
  function Unescape(s: string): string {
    ReplaceAll(ReplaceAll(s, "~1", "/"), "~0", "~")
  }

  function EscapeChar(c: char): string {
    if c == '~' then "~0" else if c == '/' then "~1" else [c]
  }

  lemma ReplaceNot(c: char, s: string, find: string, subst: string)
    requires find != "" && (find[0] != c || (|find| > 1 && s != "" && find[1] != s[0]))
    ensures ReplaceAll([c] + s, find, subst) == [c] + ReplaceAll(s, find, subst)
  {
    var t := [c] + s;
    assert t[0] == c && t[1..] == s;
    assert s != "" ==> t[1] == s[0];
    assert !(find <= t);
  }

  lemma ReplaceThis(s: string, find: string, subst: string)
    requires find != ""
    ensures ReplaceAll(find + s, find, subst) == subst + ReplaceAll(s, find, subst)
  {
    assert (find + s)[|find|..] == s;
  }

  lemma EscapeOne(c: char, s: string)
    ensures Escape([c] + s) == EscapeChar(c) + Escape(s)
  {
    hide ReplaceAll;
    var inner := ReplaceAll(s, "~", "~0");
    if c == '~' {
      ReplaceThis(s, "~", "~0");
      assert "~" + s == [c] + s;
      assert "~0" + inner == ['~'] + (['0'] + inner);
      ReplaceNot('~', ['0'] + inner, "/", "~1");
      ReplaceNot('0', inner, "/", "~1");
      assert ['~'] + (['0'] + Escape(s)) == "~0" + Escape(s);
    } else if c == '/' {
      ReplaceNot(c, s, "~", "~0");
      assert [c] + inner == "/" + inner;
      ReplaceThis(inner, "/", "~1");
    } else {
      ReplaceNot(c, s, "~", "~0");
      ReplaceNot(c, inner, "/", "~1");
    }
  }

  lemma UnescapeOne(c: char, s: string)
    ensures Unescape(EscapeChar(c) + s) == [c] + Unescape(s)
  {
    hide ReplaceAll;
    var inner := ReplaceAll(s, "~1", "/");
    if c == '~' {
      assert "~0" + s == ['~'] + (['0'] + s);
      assert (['~'] + (['0'] + s))[1] == '0';
      ReplaceNot('~', ['0'] + s, "~1", "/");
      ReplaceNot('0', s, "~1", "/");
      assert ['~'] + (['0'] + inner) == "~0" + inner;
      ReplaceThis(inner, "~0", "~");
    } else if c == '/' {
      ReplaceThis(s, "~1", "/");
      assert "/" + inner == ['/'] + inner;
      ReplaceNot('/', inner, "~0", "~");
    } else {
      ReplaceNot(c, s, "~1", "/");
      ReplaceNot(c, inner, "~0", "~");
    }
  }

  /** Unescaping undoes escaping, on every text. */
  lemma {:induction false} UnescapeEscape(s: string)
    ensures Unescape(Escape(s)) == s
  {
    if s != "" {
      assert s == [s[0]] + s[1..];
      EscapeOne(s[0], s[1..]);
      UnescapeOne(s[0], Escape(s[1..]));
      UnescapeEscape(s[1..]);
    }
  }

  /** An escaped key is a single reference token. */
  lemma {:induction false} EscapeFree(s: string)
    ensures Free(Escape(s), '/')
  {
    if s != "" {
      assert s == [s[0]] + s[1..];
      EscapeOne(s[0], s[1..]);
      EscapeFree(s[1..]);
    }
  }

  /** The reference tokens of a pointer (section 3 of RFC 6901). */
  function Tokens(pointer: string): Option<seq<string>> {
    if pointer == "" then Some([])
    else if pointer[0] != '/' then None
    else
      var parts := Split(pointer[1..], '/');
      Some(seq(|parts|, i requires 0 <= i < |parts| => Unescape(parts[i])))
  }

  function Pointer(path: seq<string>): string {
    if path == [] then "" else "/" + Escape(path[0]) + Pointer(path[1..])
  }

  lemma {:induction false} PointerParts(path: seq<string>)
    requires path != []
    ensures Pointer(path) != "" && Pointer(path)[0] == '/'
    ensures Split(Pointer(path)[1..], '/') == seq(|path|, i requires 0 <= i < |path| => Escape(path[i]))
  {
    hide Escape;
    EscapeFree(path[0]);
    var escaped := seq(|path|, i requires 0 <= i < |path| => Escape(path[i]));
    if |path| == 1 {
      assert Pointer(path)[1..] == Escape(path[0]);
      SplitOfFree(Escape(path[0]), '/');
    } else {
      PointerParts(path[1..]);
      var rest := Pointer(path[1..]);
      assert rest == "/" + rest[1..];
      assert Pointer(path)[1..] == Escape(path[0]) + ['/'] + rest[1..];
      SplitAtSeparator(Escape(path[0]), rest[1..], '/');
      assert escaped == [Escape(path[0])] + escaped[1..];
    }
  }

  /** A pointer names the path it was written for, whatever characters the keys have. */
  lemma TokensOfPointer(path: seq<string>)
    ensures Tokens(Pointer(path)) == Some(path)
  {
    hide Escape, Unescape;
    if path == [] {
      assert Pointer(path) == "";
    } else {
      PointerParts(path);
      var parts := Split(Pointer(path)[1..], '/');
      forall i | 0 <= i < |path| ensures Unescape(parts[i]) == path[i] {
        UnescapeEscape(path[i]);
      }
      assert Tokens(Pointer(path)).value == path;
    }
  }

  // ---------- JSON patch, on objects

  function Child(j: Json, k: string): Json {
    if j.Obj? && k in j.members then j.members[k] else Null
  }

  function At(j: Json, path: seq<string>): Option<Json> {
    if path == [] then Some(j)
    else if j.Obj? && path[0] in j.members then At(j.members[path[0]], path[1..])
    else None
  }

  /** The add operation (section 4.1 of RFC 6902): the object holding the member must exist. */
  function AddAt(j: Json, path: seq<string>, v: Json): Option<Json> {
    if path == [] then Some(v)
    else if !j.Obj? then None
    else if |path| == 1 then Some(Obj(j.members[path[0] := v]))
    else if path[0] !in j.members then None
    else match AddAt(j.members[path[0]], path[1..], v)
      case None => None
      case Some(inner) => Some(Obj(j.members[path[0] := inner]))
  }

  /** The replace operation (section 4.3): the target itself must exist. */
  function ReplaceAt(j: Json, path: seq<string>, v: Json): Option<Json> {
    if At(j, path).None? then None else AddAt(j, path, v)
  }

  datatype PatchOp = Add(path: string, value: Json) | Replace(path: string, value: Json)

  function ApplyOp(j: Json, op: PatchOp): Option<Json> {
    match Tokens(op.path)
    case None => None
    case Some(path) => if op.Add? then AddAt(j, path, op.value) else ReplaceAt(j, path, op.value)
  }

  /** All operations in order, or none. */
  function ApplyPatch(j: Json, ops: seq<PatchOp>): Option<Json>
    decreases |ops|
  {
    if ops == [] then Some(j)
    else match ApplyOp(j, ops[0])
      case None => None
      case Some(next) => ApplyPatch(next, ops[1..])
  }

  // ---------- merge patch (section 2 of RFC 7396)

  function MergePatch(target: Json, patch: Json): Json
    decreases patch
  {
    if !patch.Obj? then patch
    else
      var base := if target.Obj? then target.members else map[];
      Obj(map k | k in base.Keys + patch.members.Keys && (k in patch.members ==> !patch.members[k].Null?)
          :: if k in patch.members then MergePatch(Child(target, k), patch.members[k]) else base[k])
  }

  // ---------- both as one update

  /** The target as an object with member k set to v. */
  function SetMember(j: Json, k: string, v: Json): Json {
    Obj((if j.Obj? then j.members else map[])[k := v])
  }

  /** Setting the value at a path, making objects on the way where there are none. */
  function SetAt(j: Json, path: seq<string>, v: Json): Json
    decreases |path|
  {
    if path == [] then v else SetMember(j, path[0], SetAt(Child(j, path[0]), path[1..], v))
  }

  /** Replacing needs the target to be there; then it is adding. */
  lemma ReplaceNeedsTarget(j: Json, path: seq<string>, v: Json)
    ensures ReplaceAt(j, path, v).Some? <==> At(j, path).Some? && AddAt(j, path, v).Some?
    ensures ReplaceAt(j, path, v).Some? ==> ReplaceAt(j, path, v) == AddAt(j, path, v)
  {
  }

  lemma {:induction false} AddSets(j: Json, path: seq<string>, v: Json)
    requires AddAt(j, path, v).Some?
    ensures AddAt(j, path, v) == Some(SetAt(j, path, v))
    decreases |path|
  {
    if |path| == 1 {
      assert path[1..] == [];
    } else if |path| > 1 {
      AddSets(j.members[path[0]], path[1..], v);
    }
  }

  /** What a merge makes of one member. */
  lemma MergedAt(j: Json, patch: map<string, Json>, x: string)
    ensures MergePatch(j, Obj(patch)).Obj?
    ensures var m := MergePatch(j, Obj(patch)).members;
            && (x in patch && !patch[x].Null? ==> x in m && m[x] == MergePatch(Child(j, x), patch[x]))
            && (x in patch && patch[x].Null? ==> x !in m)
            && (x !in patch ==> (x in m <==> j.Obj? && x in j.members) && (x in m ==> m[x] == Child(j, x)))
  {
  }

  lemma MergeOneMember(j: Json, k: string, p: Json)
    requires !p.Null?
    ensures MergePatch(j, Obj(map[k := p])) == SetMember(j, k, MergePatch(Child(j, k), p))
  {
  }

  lemma MergeTwoMembers(j: Json, k: string, p: Json, l: string, q: Json)
    requires !p.Null? && !q.Null? && k != l
    ensures MergePatch(j, Obj(map[k := p, l := q])) ==
              SetMember(SetMember(j, k, MergePatch(Child(j, k), p)), l, MergePatch(Child(j, l), q))
  {
    var patch := map[k := p, l := q];
    var merged := MergePatch(j, Obj(patch));
    var updated := SetMember(SetMember(j, k, MergePatch(Child(j, k), p)), l, MergePatch(Child(j, l), q));
    forall x { MergedAt(j, patch, x); }
    hide MergePatch;
    assert merged.members == updated.members;
  }

  /** The patch that sets one value at a path. */
  function Nest(path: seq<string>, v: Json): Json {
    if path == [] then v else Obj(map[path[0] := Nest(path[1..], v)])
  }

  lemma {:induction false} MergeNest(j: Json, path: seq<string>, v: Json)
    requires !v.Null? && !v.Obj?
    ensures !Nest(path, v).Null? && MergePatch(j, Nest(path, v)) == SetAt(j, path, v)
    decreases |path|
  {
    if path != [] {
      MergeNest(Child(j, path[0]), path[1..], v);
      MergeOneMember(j, path[0], Nest(path[1..], v));
    }
  }

  lemma SetChild(j: Json, k: string, v: Json)
    ensures Child(SetMember(j, k, v), k) == v
    ensures forall l :: l != k ==> Child(SetMember(j, k, v), l) == Child(j, l)
    ensures forall w :: SetMember(SetMember(j, k, v), k, w) == SetMember(j, k, w)
  {
    forall w ensures SetMember(SetMember(j, k, v), k, w) == SetMember(j, k, w) {
      assert SetMember(SetMember(j, k, v), k, w).members == SetMember(j, k, w).members;
    }
  }

  /** Two updates below one key are one update of that member. */
  lemma SetBelow(j: Json, k: string, p: seq<string>, v: Json, q: seq<string>, w: Json)
    ensures SetAt(SetAt(j, [k] + p, v), [k] + q, w) == SetMember(j, k, SetAt(SetAt(Child(j, k), p, v), q, w))
  {
    assert ([k] + p)[1..] == p && ([k] + q)[1..] == q;
    SetChild(j, k, SetAt(Child(j, k), p, v));
  }

  /** Where there is no object yet, making an empty one first changes nothing. */
  lemma {:induction false} SetInEmpty(j: Json, path: seq<string>, k: string, v: Json)
    requires At(j, path).Some? ==> !At(j, path).value.Obj?
    ensures SetAt(SetAt(j, path, Obj(map[])), path + [k], v) == SetAt(j, path + [k], v)
    decreases |path|
  {
    if path == [] {
      assert [k][1..] == [];
    } else {
      var rest := path[1..];
      assert path == [path[0]] + rest && path + [k] == [path[0]] + (rest + [k]);
      SetBelow(j, path[0], rest, Obj(map[]), rest + [k], v);
      if j.Obj? && path[0] in j.members {
        SetInEmpty(j.members[path[0]], rest, k, v);
      } else {
        NothingBelowNull(rest);
        SetInEmpty(Null, rest, k, v);
      }
      assert (path + [k])[1..] == rest + [k];
    }
  }

  lemma NothingBelowNull(path: seq<string>)
    ensures At(Null, path).Some? ==> !At(Null, path).value.Obj?
  {
  }

  /** Setting the same value again changes nothing. */
  lemma {:induction false} SetAgain(j: Json, path: seq<string>, v: Json)
    ensures SetAt(SetAt(j, path, v), path, v) == SetAt(j, path, v)
    decreases |path|
  {
    if path != [] {
      SetAgain(Child(j, path[0]), path[1..], v);
      SetChild(j, path[0], SetAt(Child(j, path[0]), path[1..], v));
    }
  }

  /** What an update leaves at its own path, and at a path that branches off below a common prefix. */
  lemma {:induction false} SetThere(j: Json, path: seq<string>, v: Json)
    ensures At(SetAt(j, path, v), path) == Some(v)
    decreases |path|
  {
    if path != [] {
      SetThere(Child(j, path[0]), path[1..], v);
    }
  }

  lemma {:induction false} SetElsewhere(j: Json, prefix: seq<string>, k: string, p: seq<string>, v: Json, l: string,
                                        q: seq<string>)
    requires k != l
    ensures At(SetAt(j, prefix + [k] + p, v), prefix + [l] + q) == At(j, prefix + [l] + q)
    decreases |prefix|
  {
    var path, other := prefix + [k] + p, prefix + [l] + q;
    if prefix == [] {
      assert path[0] == k && other[0] == l;
      assert At(Obj(map[]), other) == None;
    } else {
      assert path[1..] == prefix[1..] + [k] + p && other[1..] == prefix[1..] + [l] + q;
      if j.Obj? && path[0] in j.members {
        SetElsewhere(j.members[path[0]], prefix[1..], k, p, v, l, q);
      } else {
        SetElsewhere(Null, prefix[1..], k, p, v, l, q);
      }
    }
  }

  predicate IsObject(j: Option<Json>) {
    j.Some? && j.value.Obj?
  }

  /** Adding a member works exactly where the object for it exists. */
  lemma {:induction false} AddApplies(j: Json, path: seq<string>, k: string, v: Json)
    ensures AddAt(j, path + [k], v).Some? <==> IsObject(At(j, path))
    decreases |path|
  {
    if path != [] {
      assert (path + [k])[1..] == path[1..] + [k];
      if j.Obj? && path[0] in j.members {
        AddApplies(j.members[path[0]], path[1..], k, v);
      }
    }
  }

  /** A value below a path means an object at that path. */
  lemma {:induction false} AtSnoc(j: Json, path: seq<string>, k: string)
    ensures At(j, path + [k]) ==
              if IsObject(At(j, path)) && k in At(j, path).value.members then Some(At(j, path).value.members[k])
              else None
    decreases |path|
  {
    if path == [] {
      assert [k][1..] == [];
    } else {
      assert (path + [k])[1..] == path[1..] + [k];
      if j.Obj? && path[0] in j.members {
        AtSnoc(j.members[path[0]], path[1..], k);
      }
    }
  }

  /** Keys without ~ and / are their own escape. */
  lemma {:induction false} EscapePlain(s: string)
    requires Free(s, '~') && Free(s, '/')
    ensures Escape(s) == s
  {
    if s != "" {
      assert s == [s[0]] + s[1..];
      EscapeOne(s[0], s[1..]);
      EscapePlain(s[1..]);
    }
  }
}
