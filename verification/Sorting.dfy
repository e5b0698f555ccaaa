/** Orders, sorting and the enumeration of maps. Go's sort.Slice may leave equal keys in any
    order and ranging over a map visits it in any order: both are methods here whose contracts
    promise only what Go promises, so a result proved from them holds for every outcome. */
module Sorting {

  // ---------- lexicographic order on strings (Go's < on string)

  predicate Less(a: string, b: string) {
    b != "" && (a == "" || a[0] < b[0] || (a[0] == b[0] && Less(a[1..], b[1..])))
  }

  predicate Leq(a: string, b: string) {
    !Less(b, a)
  }

  lemma {:induction false} LeqTotal(a: string, b: string)
    ensures Leq(a, b) || Leq(b, a)
  {
    if a != "" && b != "" {
      LeqTotal(a[1..], b[1..]);
    }
  }

  lemma {:induction false} LeqAntisymmetric(a: string, b: string)
    requires Leq(a, b) && Leq(b, a)
    ensures a == b
  {
    if a != "" && b != "" {
      LeqAntisymmetric(a[1..], b[1..]);
    }
  }

  lemma {:induction false} LeqTransitive(a: string, b: string, c: string)
    requires Leq(a, b) && Leq(b, c)
    ensures Leq(a, c)
  {
    if a != "" && b != "" && c != "" && a[0] == b[0] == c[0] {
      LeqTransitive(a[1..], b[1..], c[1..]);
    }
  }

  lemma LeqIsPreorder()
    ensures TotalPreorder(Leq)
  {
    forall a, b ensures Leq(a, b) || Leq(b, a) { LeqTotal(a, b); }
    forall a, b, c | Leq(a, b) && Leq(b, c) ensures Leq(a, c) { LeqTransitive(a, b, c); }
  }

  // ---------- sorting by any total preorder

  ghost predicate TotalPreorder<T(!new)>(leq: (T, T) -> bool) {
    && (forall a, b :: leq(a, b) || leq(b, a))
    && (forall a, b, c :: leq(a, b) && leq(b, c) ==> leq(a, c))
  }

  predicate Sorted<T>(leq: (T, T) -> bool, s: seq<T>) {
    forall i, j :: 0 <= i < j < |s| ==> leq(s[i], s[j])
  }

  lemma SortedAfterInsert<T>(leq: (T, T) -> bool, ys: seq<T>, k: nat, x: T)
    requires Sorted(leq, ys) && k <= |ys|
    requires forall i :: 0 <= i < k ==> leq(ys[i], x)
    requires forall i :: k <= i < |ys| ==> leq(x, ys[i])
    ensures Sorted(leq, ys[..k] + [x] + ys[k..])
  {
    var zs := ys[..k] + [x] + ys[k..];
    forall i, j | 0 <= i < j < |zs| ensures leq(zs[i], zs[j]) {
      assert zs[i] == if i < k then ys[i] else if i == k then x else ys[i - 1];
      assert zs[j] == if j < k then ys[j] else if j == k then x else ys[j - 1];
    }
  }

  /** One step of insertion: x goes behind every element it does not precede. */
  method InsertSorted<T(!new)>(leq: (T, T) -> bool, ys: seq<T>, x: T) returns (zs: seq<T>)
    requires TotalPreorder(leq) && Sorted(leq, ys)
    ensures multiset(zs) == multiset(ys) + multiset{x}
    ensures Sorted(leq, zs)
  {
    var k := |ys|;
    while k > 0 && !leq(ys[k - 1], x)
      invariant 0 <= k <= |ys|
      invariant forall i :: k <= i < |ys| ==> leq(x, ys[i])
    {
      k := k - 1;
    }
    forall i | 0 <= i < k ensures leq(ys[i], x) {
      assert i < k - 1 ==> leq(ys[i], ys[k - 1]);
    }
    SortedAfterInsert(leq, ys, k, x);
    zs := ys[..k] + [x] + ys[k..];
    assert ys == ys[..k] + ys[k..];
  }

  /** The contract of sort.Slice: some ordered rearrangement of the input. */
  method Sort<T(!new)>(leq: (T, T) -> bool, xs: seq<T>) returns (ys: seq<T>)
    requires TotalPreorder(leq)
    ensures multiset(ys) == multiset(xs)
    ensures Sorted(leq, ys)
  {
    ys := [];
    for n := 0 to |xs|
      invariant multiset(ys) == multiset(xs[..n])
      invariant Sorted(leq, ys)
    {
      assert xs[..n + 1] == xs[..n] + [xs[n]];
      ys := InsertSorted(leq, ys, xs[n]);
    }
    assert xs[..|xs|] == xs;
  }

  lemma SameFirst<T(!new)>(leq: (T, T) -> bool, a: seq<T>, b: seq<T>)
    requires TotalPreorder(leq)
    requires Sorted(leq, a) && Sorted(leq, b) && multiset(a) == multiset(b) && a != [] && b != []
    ensures a[0] in b && b[0] in a && leq(a[0], b[0]) && leq(b[0], a[0])
  {
    assert a[0] in multiset(a) && b[0] in multiset(b);
    var i :| 0 <= i < |b| && b[i] == a[0];
    var j :| 0 <= j < |a| && a[j] == b[0];
    assert leq(a[0], a[0]) && leq(b[0], b[0]);
    assert i > 0 ==> leq(b[0], b[i]);
    assert j > 0 ==> leq(a[0], a[j]);
  }

  lemma SameRest<T>(a: seq<T>, b: seq<T>)
    requires multiset(a) == multiset(b) && a != [] && b != [] && a[0] == b[0]
    ensures multiset(a[1..]) == multiset(b[1..])
  {
    assert a == [a[0]] + a[1..] && b == [b[0]] + b[1..];
    assert multiset(a[1..]) == multiset(a) - multiset{a[0]};
    assert multiset(b[1..]) == multiset(b) - multiset{b[0]};
  }

  /** When no two different elements tie, the ordered rearrangement is unique. */
  lemma {:induction false} SortedUnique<T(!new)>(leq: (T, T) -> bool, a: seq<T>, b: seq<T>)
    requires TotalPreorder(leq)
    requires Sorted(leq, a) && Sorted(leq, b) && multiset(a) == multiset(b)
    requires forall x, y :: x in a && y in a && leq(x, y) && leq(y, x) ==> x == y
    ensures a == b
  {
    assert |a| == |multiset(a)| == |multiset(b)| == |b|;
    if a != [] {
      SameFirst(leq, a, b);
      SameRest(a, b);
      assert a == [a[0]] + a[1..] && b == [b[0]] + b[1..];
      SortedUnique(leq, a[1..], b[1..]);
    }
  }

  // ---------- lists without repetition, and the visits of a map

  predicate NoDup<T(==)>(s: seq<T>) {
    forall i, j :: 0 <= i < j < |s| ==> s[i] != s[j]
  }

  function Elements<T>(s: seq<T>): set<T> {
    set x | x in s
  }

  /** Ranging over a map's keys: each key once, in an order nobody chooses. */
  method Enumerate<K, V>(m: map<K, V>) returns (keys: seq<K>)
    ensures NoDup(keys) && Elements(keys) == m.Keys
  {
    keys := [];
    var rest := m.Keys;
    while rest != {}
      invariant NoDup(keys) && Elements(keys) !! rest && Elements(keys) + rest == m.Keys
      decreases rest
    {
      var k :| k in rest;
      assert forall i :: 0 <= i < |keys| ==> keys[i] in Elements(keys);
      assert Elements(keys + [k]) == Elements(keys) + {k};
      keys := keys + [k];
      rest := rest - {k};
    }
  }

  /** A visit adds one new key to those visited before. */
  lemma VisitOneMore<T>(visit: seq<T>, i: nat)
    requires i < |visit| && NoDup(visit)
    ensures Elements(visit[..i + 1]) == Elements(visit[..i]) + {visit[i]} && visit[i] !in Elements(visit[..i])
  {
    assert visit[..i + 1] == visit[..i] + [visit[i]];
  }

  lemma NoDupCount<T>(s: seq<T>)
    requires NoDup(s)
    ensures |s| == |Elements(s)|
    ensures forall x :: multiset(s)[x] == if x in s then 1 else 0
  {
    if s != [] {
      var t := s[..|s| - 1];
      NoDupCount(t);
      assert s == t + [s[|s| - 1]];
      assert Elements(s) == Elements(t) + {s[|s| - 1]};
      assert s[|s| - 1] !in Elements(t);
    }
  }

  lemma MultiplicityOfPair<T>(s: seq<T>, i: nat, j: nat)
    requires i < j < |s|
    ensures s[i] == s[j] ==> multiset(s)[s[i]] >= 2
  {
    assert s == s[..j] + s[j..];
    assert s[i] in s[..j] && s[j] in s[j..];
  }

  /** Two enumerations of the same set are rearrangements of each other. */
  lemma SameElementsSameMultiset<T>(a: seq<T>, b: seq<T>)
    requires NoDup(a) && NoDup(b) && Elements(a) == Elements(b)
    ensures multiset(a) == multiset(b)
  {
    NoDupCount(a);
    NoDupCount(b);
    forall x ensures multiset(a)[x] == multiset(b)[x] {
      assert x in a <==> x in Elements(a);
      assert x in b <==> x in Elements(b);
    }
  }

  ghost predicate IsSortedKeys(keys: seq<string>, s: set<string>) {
    NoDup(keys) && Elements(keys) == s && Sorted(Leq, keys)
  }

  /** The sorted listing of a set of strings is unique. */
  lemma SortedKeysUnique(a: seq<string>, b: seq<string>, s: set<string>)
    requires IsSortedKeys(a, s) && IsSortedKeys(b, s)
    ensures a == b
  {
    LeqIsPreorder();
    SameElementsSameMultiset(a, b);
    forall x, y | x in a && y in a && Leq(x, y) && Leq(y, x) ensures x == y {
      LeqAntisymmetric(x, y);
    }
    SortedUnique(Leq, a, b);
  }

  /** Collecting a map's keys and sorting them, as the code does before it prints a map. */
  method SortedKeys<V>(m: map<string, V>) returns (keys: seq<string>)
    ensures IsSortedKeys(keys, m.Keys)
  {
    var visit := Enumerate(m);
    LeqIsPreorder();
    keys := Sort(Leq, visit);
    NoDupCount(visit);
    forall i, j | 0 <= i < j < |keys| ensures keys[i] != keys[j] {
      MultiplicityOfPair(keys, i, j);
    }
    assert forall x :: x in keys <==> x in multiset(keys);
    assert forall x :: x in visit <==> x in multiset(visit);
  }
}
