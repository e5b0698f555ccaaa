/** What is hashed: the content of one Secret or ConfigMap, and the hashes a pod refers to
    (adapters/kube/content_hash.go). Results are about the texts; the digest stays uninterpreted. */
module ContentHash {
  import opened Text
  import opened Sorting
  import opened Naming
  import opened EnvFile

  // ---------- the text of one map

  function Entry(k: string, v: string): string {
    k + "=" + v
  }

  function TextOver(keys: seq<string>, m: Env): string
    requires forall k :: k in keys ==> k in m
  {
    if keys == [] then ""
    else TextOver(keys[..|keys| - 1], m) + (Entry(keys[|keys| - 1], m[keys[|keys| - 1]]) + ['\0'])
  }

  /** The text hashed for a map: its entries in the order of its keys. */
  ghost predicate HashedText(m: Env, text: string) {
    exists keys :: IsSortedKeys(keys, m.Keys) && (forall k :: k in keys ==> k in m) && text == TextOver(keys, m)
  }

  method ComputeContentHash(digest: Digest, m: Env) returns (h: string)
    ensures exists text :: HashedText(m, text) && h == ShortHash(digest, text, HASH_LENGTH)
  {
    if |m| == 0 {
      assert IsSortedKeys([], m.Keys) && TextOver([], m) == "";
      assert HashedText(m, "");
      h := ComputeShortHash(digest, "", HASH_LENGTH);
      return;
    }
    hide Entry, Sorted, NoDup;
    var keys := SortedKeys(m);
    assert forall k :: k in keys ==> k in Elements(keys);
    var b := "";
    for i := 0 to |keys|
      invariant b == TextOver(keys[..i], m)
    {
      assert keys[..i + 1][..i] == keys[..i] && keys[..i + 1][i] == keys[i];
      b := b + (Entry(keys[i], m[keys[i]]) + ['\0']);
    }
    assert keys[..|keys|] == keys;
    assert HashedText(m, b);
    h := ComputeShortHash(digest, b, HASH_LENGTH);
  }

  /** A map has one text, whatever order its entries were visited in. */
  lemma OneText(m: Env, s: string, t: string)
    requires HashedText(m, s) && HashedText(m, t)
    ensures s == t
  {
    hide IsSortedKeys;
    var a :| IsSortedKeys(a, m.Keys) && (forall k :: k in a ==> k in m) && s == TextOver(a, m);
    var b :| IsSortedKeys(b, m.Keys) && (forall k :: k in b ==> k in m) && t == TextOver(b, m);
    SortedKeysUnique(a, b, m.Keys);
  }

  /** Keys without equals sign, nothing with a NUL. */
  ghost predicate Separable(m: Env) {
    forall k :: k in m ==> Free(k, '=') && Free(k, '\0') && Free(m[k], '\0')
  }

  lemma AcceptedSeparable(m: Env)
    requires SecretDataOk(m)
    ensures Separable(m)
  {
    forall k | k in m ensures Free(k, '=') && Free(k, '\0') && Free(m[k], '\0') {
      assert forall i :: 0 <= i < |k| ==> KeyChar(k[i]);
      assert Control('\0');
    }
  }

  function EntriesOver(keys: seq<string>, m: Env): seq<string>
    requires forall k :: k in keys ==> k in m
  {
    seq(|keys|, i requires 0 <= i < |keys| => assert keys[i] in keys; Entry(keys[i], m[keys[i]]))
  }

  /** The text splits at its NULs into the entries and an empty rest. */
  lemma {:induction false} TextSplits(keys: seq<string>, m: Env)
    requires forall k :: k in keys ==> k in m
    requires Separable(m)
    ensures Split(TextOver(keys, m), '\0') == EntriesOver(keys, m) + [""]
  {
    if keys == [] {
      assert Split("", '\0') == [""];
    } else {
      hide Split;
      var front, last := keys[..|keys| - 1], keys[|keys| - 1];
      TextSplits(front, m);
      var e := Entry(last, m[last]);
      EntryFree(m, last);
      hide Entry, Separable;
      assert TextOver(keys, m) == TextOver(front, m) + e + ['\0'] + "";
      EntrySplits(TextOver(front, m), EntriesOver(front, m), e);
      assert EntriesOver(keys, m) == EntriesOver(front, m) + [e];
    }
  }

  lemma EntryFree(m: Env, k: string)
    requires Separable(m) && k in m
    ensures Free(Entry(k, m[k]), '\0')
  {
  }

  lemma EntrySplits(text: string, entries: seq<string>, e: string)
    requires Split(text, '\0') == entries + [""] && Free(e, '\0')
    ensures Split(text + e + ['\0'] + "", '\0') == entries + [e] + [""]
  {
    SplitConcat(text + e, "", '\0');
    assert Split("", '\0') == [""];
    SplitAppend(text, entries, e);
  }

  /** Text without separators goes into the last piece. */
  lemma {:induction false} SplitAppend(text: string, entries: seq<string>, e: string)
    requires Split(text, '\0') == entries + [""] && Free(e, '\0')
    ensures Split(text + e, '\0') == entries + [e]
  {
    JoinSplit(text, '\0');
    SplitFree(text, '\0');
    var parts := entries + [e];
    forall k | 0 <= k < |parts| ensures Free(parts[k], '\0') {
      assert k < |entries| ==> parts[k] == Split(text, '\0')[k];
    }
    SplitJoin(parts, '\0');
    if entries == [] {
      assert [""] == entries + [""] && parts == [e];
      assert text == "" && text + e == e;
    } else {
      JoinSnoc(entries, "", '\0');
      JoinSnoc(entries, e, '\0');
      assert text == Join(entries, '\0') + ['\0'] + "";
      assert text + e == Join(parts, '\0');
    }
  }

  /** An entry tells its key and its value. */
  lemma EntryInjective(k: string, v: string, k': string, v': string)
    requires Free(k, '=') && Free(k', '=') && Entry(k, v) == Entry(k', v')
    ensures k == k' && v == v'
  {
    assert k + ['='] + v == Entry(k, v) && k' + ['='] + v' == Entry(k', v');
    SplitAtSeparator(k, v, '=');
    SplitAtSeparator(k', v', '=');
    JoinSplit(v, '=');
    JoinSplit(v', '=');
    assert Split(v, '=') == ([k] + Split(v, '='))[1..] == ([k'] + Split(v', '='))[1..] == Split(v', '=');
    assert k == ([k] + Split(v, '='))[0] == ([k'] + Split(v', '='))[0] == k';
  }

  /** Main result on contents: different separable maps, and so all different maps accepted as secret
      data, are hashed as different texts. */
  lemma ContentsSeparate(m: Env, m': Env, text: string)
    requires Separable(m) && Separable(m') && HashedText(m, text) && HashedText(m', text)
    ensures m == m'
  {
    hide Sorted, NoDup, Split, TextOver, Entry;
    var a :| IsSortedKeys(a, m.Keys) && (forall k :: k in a ==> k in m) && text == TextOver(a, m);
    var b :| IsSortedKeys(b, m'.Keys) && (forall k :: k in b ==> k in m') && text == TextOver(b, m');
    TextSplits(a, m);
    TextSplits(b, m');
    var es, es' := EntriesOver(a, m), EntriesOver(b, m');
    assert es == (es + [""])[..|es|] && es' == (es' + [""])[..|es'|];
    assert |es + [""]| == |es' + [""]| && es == es';
    EntriesSame(a, m, b, m');
  }

  lemma EntriesSame(a: seq<string>, m: Env, b: seq<string>, m': Env)
    requires (forall k :: k in a ==> k in m) && (forall k :: k in b ==> k in m')
    requires Elements(a) == m.Keys && Elements(b) == m'.Keys && Separable(m) && Separable(m')
    requires EntriesOver(a, m) == EntriesOver(b, m')
    ensures m == m'
  {
    hide Entry;
    assert |a| == |EntriesOver(a, m)| == |EntriesOver(b, m')| == |b|;
    forall i | 0 <= i < |a| ensures a[i] == b[i] && a[i] in m && b[i] in m' && m[a[i]] == m'[b[i]] {
      assert a[i] in a && b[i] in b;
      assert EntriesOver(a, m)[i] == EntriesOver(b, m')[i];
      EntryInjective(a[i], m[a[i]], b[i], m'[b[i]]);
    }
    assert a == b;
    forall k | k in m ensures k in m' && m[k] == m'[k] {
      assert k in Elements(a);
      var i :| 0 <= i < |a| && a[i] == k;
    }
  }

  /** The check on secret data is needed: with a NUL in a value two maps have one text. */
  lemma UncheckedCollide()
    ensures HashedText(map["a" := "1\0b=2"], "a=1\0b=2\0") && HashedText(map["a" := "1", "b" := "2"], "a=1\0b=2\0")
  {
    var m := map["a" := "1\0b=2"];
    var m' := map["a" := "1", "b" := "2"];
    OneKey(m, "a", "1\0b=2");
    OneKey(m', "a", "1");
    TwoKeys(m', "a", "1", "b", "2");
    assert Leq("a", "b") by {
      assert "b"[0] > "a"[0];
    }
    assert IsSortedKeys(["a"], m.Keys) && IsSortedKeys(["a", "b"], m'.Keys);
    hide TextOver, IsSortedKeys;
    assert "a" + "=" + "1\0b=2" + ['\0'] == "a=1\0b=2\0";
    assert "a" + "=" + "1" + ['\0'] + ("b" + "=" + "2" + ['\0']) == "a=1\0b=2\0";
  }

  lemma OneKey(m: Env, k: string, v: string)
    requires k in m && m[k] == v
    ensures TextOver([k], m) == k + "=" + v + ['\0']
  {
    assert [k][..0] == [];
  }

  lemma TwoKeys(m: Env, k: string, v: string, l: string, w: string)
    requires k in m && m[k] == v && l in m && m[l] == w
    ensures TextOver([k, l], m) == k + "=" + v + ['\0'] + (l + "=" + w + ['\0'])
  {
    OneKey(m, k, v);
    assert [k, l][..1] == [k];
  }
}
