/** Kubeconfig files: reducing one to its current context under a chosen name, and merging one into
    another without losing entries (internal/kubeconfig/kubeconfig.go). */
module Kubeconfig {
  import opened Text

  datatype Context = Context(cluster: string, user: string, namespace: string)
  datatype ClusterEntry = ClusterEntry(server: string)
  datatype UserEntry = UserEntry(credentials: string)

  /** The content of a kubeconfig. */
  datatype Kube = Kube(current: string, contexts: map<string, Context>, clusters: map<string, ClusterEntry>,
                       users: map<string, UserEntry>)

  datatype KubeError =
    | NoCurrentContext
    | ContextNotFound(name: string)
    | CannotMinify
    | ClusterNotFound(name: string)
    | UserNotFound(name: string)

  /** The cluster and the user a context names exist. */
  predicate Resolves(k: Kube, name: string) {
    name in k.contexts && k.contexts[name].cluster in k.clusters && k.contexts[name].user in k.users
  }

  /** Every context resolves. */
  ghost predicate Closed(k: Kube) {
    forall name :: name in k.contexts ==> Resolves(k, name)
  }

  // ---------- unused names

  function Candidate(name: string, i: nat): string {
    name + "-" + Itoa(i)
  }

  /** name-n, with n as a numeral. */
  ghost function Suffixed(name: string, n: nat): string {
    name + ("-" + Itoa(n))
  }

  lemma CandidateText(name: string, n: nat)
    ensures Candidate(name, n) == Suffixed(name, n)
  {
  }

  ghost function Candidates(name: string, n: nat): set<string> {
    set i | 1 <= i <= n :: Candidate(name, i)
  }

  lemma CandidatesDiffer(name: string, i: nat, j: nat)
    ensures Candidate(name, i) == Candidate(name, j) ==> i == j
  {
    hide Itoa;
    var front := name + "-";
    assert Candidate(name, i)[|front|..] == Itoa(i) && Candidate(name, j)[|front|..] == Itoa(j);
    ItoaInjective(i, j);
  }

  lemma {:induction false} CandidatesCount(name: string, n: nat)
    ensures |Candidates(name, n)| == n
  {
    if n == 0 {
      assert Candidates(name, 0) == {};
    } else {
      CandidatesCount(name, n - 1);
      forall i | 1 <= i <= n - 1 ensures Candidate(name, i) != Candidate(name, n) {
        CandidatesDiffer(name, i, n);
      }
      assert Candidates(name, n) == Candidates(name, n - 1) + {Candidate(name, n)};
    }
  }

  /** There cannot be more used candidates than used names. */
  lemma FewCandidates(name: string, used: set<string>, n: nat)
    requires forall i :: 1 <= i <= n ==> Candidate(name, i) in used
    ensures n <= |used|
  {
    CandidatesCount(name, n);
    SubsetCount(Candidates(name, n), used);
  }

  lemma {:induction false} SubsetCount(a: set<string>, b: set<string>)
    requires a <= b
    ensures |a| <= |b|
  {
    assert b == a + (b - a);
  }

  /** The name, or the name with the smallest suffix that is not used. */
  ghost predicate FirstUnused(name: string, used: set<string>, r: string) {
    && r !in used
    && (name !in used ==> r == name)
    && (name in used ==>
          exists n :: n >= 1 && r == Suffixed(name, n) && forall i :: 1 <= i < n ==> Suffixed(name, i) in used)
  }

  /** The search for an unused name ends. */
  method UniqueName<T>(name: string, m: map<string, T>) returns (r: string)
    ensures FirstUnused(name, m.Keys, r)
  {
    hide Candidate, Suffixed;
    forall n: nat ensures Candidate(name, n) == Suffixed(name, n) {
      CandidateText(name, n);
    }
    if name !in m {
      return name;
    }
    var i := 1;
    FewCandidates(name, m.Keys, 0);
    while Candidate(name, i) in m
      invariant 1 <= i <= |m.Keys| + 1
      invariant forall j :: 1 <= j < i ==> Candidate(name, j) in m
      decreases |m.Keys| + 1 - i
    {
      FewCandidates(name, m.Keys, i);
      i := i + 1;
    }
    return Candidate(name, i);
  }

  // ---------- merging

  /** A kubeconfig that can be merged: its current context exists and resolves. */
  predicate Mergeable(k: Kube) {
    k.current != "" && Resolves(k, k.current)
  }

  /** The three entries of the current context under the given names, everything else as it was. */
  function Merged(k: Kube, add: Kube, name: string, cluster: string, user: string, setCurrent: bool): Kube
    requires Mergeable(add)
  {
    var c := add.contexts[add.current];
    Kube(
      if setCurrent || k.current == "" then name else k.current,
      k.contexts[name := Context(cluster, user, c.namespace)],
      k.clusters[cluster := add.clusters[c.cluster]],
      k.users[user := add.users[c.user]])
  }

  class Config {
    var current: string
    var contexts: map<string, Context>
    var clusters: map<string, ClusterEntry>
    var users: map<string, UserEntry>

    constructor (k: Kube)
      ensures Content() == k
    {
      current, contexts, clusters, users := k.current, k.contexts, k.clusters, k.users;
    }

    function Content(): Kube
      reads this
    {
      Kube(current, contexts, clusters, users)
    }

    /** LoadAndNormalize on the loaded configuration: one context, one cluster and one user are left,
        under the wanted name if there is one. */
    method Normalize(ctxName: string, nsName: string) returns (err: Option<KubeError>)
      modifies this
      ensures err.None? ==> Normalized(old(Content()), Content(), ctxName, nsName)
      ensures err.None? <==> Normalizable(old(Content()))
    {
      var found := Choose();
      if found.Err? {
        return Some(found.error);
      }
      var cur := found.value;
      var ctx := contexts[cur];
      if (ctx.cluster != "" && ctx.cluster !in clusters) || (ctx.user != "" && ctx.user !in users) {
        return Some(CannotMinify);
      }
      contexts := map[cur := ctx];
      clusters := if ctx.cluster == "" then map[] else map[ctx.cluster := clusters[ctx.cluster]];
      users := if ctx.user == "" then map[] else map[ctx.user := users[ctx.user]];
      if ctx.cluster !in clusters {
        return Some(ClusterNotFound(ctx.cluster));
      }
      if ctx.user !in users {
        return Some(UserNotFound(ctx.user));
      }
      if nsName != "" {
        contexts := contexts[cur := contexts[cur].(namespace := nsName)];
      }
      Rename(ctxName, cur, ctx);
      NormalizedInto(old(Content()), Content(), ctxName, nsName, cur);
      return None;
    }

    /** The current context, or the only one. */
    method Choose() returns (r: Result<string, KubeError>)
      modifies this`current
      ensures r.Ok? ==> Chosen(old(Content()), r.value) && current == r.value
      ensures r.Err? ==> forall name :: !Chosen(old(Content()), name)
      ensures r.Ok? ==> forall name :: Chosen(old(Content()), name) ==> name == r.value
    {
      if current == "" {
        if |contexts| != 1 {
          return Err(NoCurrentContext);
        }
        OnlyKey(contexts);
        var k :| k in contexts;
        current := k;
        if current == "" {
          return Err(CannotMinify);
        }
      } else if current !in contexts {
        return Err(ContextNotFound(current));
      }
      return Ok(current);
    }

    /** The three renamings, each of its own map. */
    method Rename(ctxName: string, cur: string, ctx: Context)
      requires contexts.Keys == {cur} && contexts[cur].cluster == ctx.cluster && contexts[cur].user == ctx.user
      requires clusters.Keys == {ctx.cluster} && users.Keys == {ctx.user} && current == cur
      modifies this
      ensures var to := if ctxName == "" then Names(cur, ctx.cluster, ctx.user) else Names(ctxName, ctxName, ctxName);
              Content() ==
                  Kube(to.context, map[to.context := Context(to.cluster, to.user, old(contexts)[cur].namespace)],
                                map[to.cluster := old(clusters)[ctx.cluster]], map[to.user := old(users)[ctx.user]])
    {
      var name := cur;
      OnlyRenamed(contexts, cur, ctxName);
      OnlyRenamed(clusters, ctx.cluster, ctxName);
      OnlyRenamed(users, ctx.user, ctxName);
      if ctxName != "" && ctxName != cur {
        contexts := contexts[ctxName := contexts[cur]] - {cur};
        name := ctxName;
        current := name;
      }
      if ctxName != "" && ctxName != ctx.cluster {
        clusters := clusters[ctxName := clusters[ctx.cluster]] - {ctx.cluster};
        contexts := contexts[name := contexts[name].(cluster := ctxName)];
      }
      if ctxName != "" && ctxName != ctx.user {
        users := users[ctxName := users[ctx.user]] - {ctx.user};
        contexts := contexts[name := contexts[name].(user := ctxName)];
      }
    }

    /** MergeIntoExisting into this configuration. */
    method Merge(add: Config, force: bool, setCurrent: bool) returns (r: Result<string, KubeError>)
      requires add != this
      modifies this
      ensures r.Ok? <==> Mergeable(add.Content())
      ensures r.Err? ==> Content() == old(Content())
      ensures r.Ok? ==> exists cluster, user ::
                          && NamesChosen(old(Content()), add.Content(), force, r.value, cluster, user)
                          && Content() == Merged(old(Content()), add.Content(), r.value, cluster, user, setCurrent)
    {
      if add.current == "" {
        return Err(NoCurrentContext);
      }
      if add.current !in add.contexts {
        return Err(ContextNotFound(add.current));
      }
      var ctx := add.contexts[add.current];
      if ctx.cluster !in add.clusters {
        return Err(ClusterNotFound(ctx.cluster));
      }
      if ctx.user !in add.users {
        return Err(UserNotFound(ctx.user));
      }
      var chosen := ChooseNames(Names(add.current, ctx.cluster, ctx.user), force);
      PutAfterDrop(old(contexts), chosen.context, Context(chosen.cluster, chosen.user, ctx.namespace));
      PutAfterDrop(old(clusters), chosen.cluster, add.clusters[ctx.cluster]);
      PutAfterDrop(old(users), chosen.user, add.users[ctx.user]);
      hide FirstUnused;
      clusters := clusters[chosen.cluster := add.clusters[ctx.cluster]];
      users := users[chosen.user := add.users[ctx.user]];
      contexts := contexts[chosen.context := Context(chosen.cluster, chosen.user, ctx.namespace)];
      if setCurrent || current == "" {
        current := chosen.context;
      }
      ghost var before := old(Content());
      assert Content() == Merged(before, add.Content(), chosen.context, chosen.cluster, chosen.user, setCurrent);
      return Ok(chosen.context);
    }

    /** The names for the new entries: unused ones, or with force the given ones, dropping what they name. */
    method ChooseNames(given: Names, force: bool) returns (chosen: Names)
      modifies this`contexts, this`clusters, this`users
      ensures if force then chosen == given else
                && FirstUnused(given.context, old(contexts).Keys, chosen.context)
                && FirstUnused(given.cluster, old(clusters).Keys, chosen.cluster)
                && FirstUnused(given.user, old(users).Keys, chosen.user)
      ensures contexts == if force then old(contexts) - {chosen.context} else old(contexts)
      ensures clusters == if force then old(clusters) - {chosen.cluster} else old(clusters)
      ensures users == if force then old(users) - {chosen.user} else old(users)
    {
      if !force {
        hide FirstUnused;
        var context := UniqueName(given.context, contexts);
        var cluster := UniqueName(given.cluster, clusters);
        var user := UniqueName(given.user, users);
        return Names(context, cluster, user);
      }
      contexts, clusters, users := contexts - {given.context}, clusters - {given.cluster}, users - {given.user};
      return given;
    }
  }

  lemma PutAfterDrop<T>(m: map<string, T>, k: string, v: T)
    ensures (m - {k})[k := v] == m[k := v]
  {
  }

  lemma OnlyRenamed<T>(m: map<string, T>, k: string, to: string)
    requires m.Keys == {k}
    ensures m == map[k := m[k]] && (to != k ==> m[to := m[k]] - {k} == map[to := m[k]])
  {
    assert m[to := m[k]].Keys == {k, to};
  }

  lemma NormalizedInto(k: Kube, n: Kube, ctxName: string, nsName: string, name: string)
    requires Chosen(k, name) && Resolves(k, name)
    requires var c := k.contexts[name];
             var to := if ctxName == "" then Names(name, c.cluster, c.user) else Names(ctxName, ctxName, ctxName);
             n ==
                 Kube(to.context,
                      map[to.context := Context(to.cluster, to.user, if nsName != "" then nsName else c.namespace)],
                       map[to.cluster := k.clusters[c.cluster]], map[to.user := k.users[c.user]])
    ensures Normalized(k, n, ctxName, nsName)
  {
  }

  datatype Names = Names(context: string, cluster: string, user: string)

  /** Which names a merge uses: unused ones, or with force the entries' own. */
  ghost predicate NamesChosen(k: Kube, add: Kube, force: bool, name: string, cluster: string, user: string)
    requires Mergeable(add)
  {
    var c := add.contexts[add.current];
    if force then name == add.current && cluster == c.cluster && user == c.user
    else
      && FirstUnused(add.current, k.contexts.Keys, name)
      && FirstUnused(c.cluster, k.clusters.Keys, cluster)
      && FirstUnused(c.user, k.users.Keys, user)
  }

  lemma OnlyKey<T>(m: map<string, T>)
    requires |m| == 1
    ensures exists k :: k in m
    ensures forall j, k :: j in m && k in m ==> j == k
  {
    assert m.Keys != {};
    var k :| k in m.Keys;
    assert |m.Keys - {k}| == 0;
    assert m.Keys == {k};
  }

  /** The context a kubeconfig is reduced to: the current one, or the only one. */
  ghost predicate Chosen(k: Kube, name: string) {
    name != "" && name in k.contexts && if k.current != "" then name == k.current else |k.contexts| == 1
  }

  ghost predicate Normalizable(k: Kube) {
    exists name :: Chosen(k, name) && Resolves(k, name) && k.contexts[name].cluster != "" && k.contexts[name].user != ""
  }

  /** One context, one cluster and one user, with the data of the chosen context and consistent names. */
  ghost predicate Normalized(k: Kube, n: Kube, ctxName: string, nsName: string) {
    exists name, to: Names ::
      && Chosen(k, name) && Resolves(k, name)
      && var c := k.contexts[name];
         to == (if ctxName == "" then Names(name, c.cluster, c.user) else Names(ctxName, ctxName, ctxName))
         && n ==
              Kube(to.context,
                   map[to.context := Context(to.cluster, to.user, if nsName != "" then nsName else c.namespace)],
                      map[to.cluster := k.clusters[c.cluster]], map[to.user := k.users[c.user]])
  }

  // ---------- what a merge keeps

  /** A normalized configuration can be merged and is closed. */
  lemma NormalizedMergeable(k: Kube, n: Kube, ctxName: string, nsName: string)
    requires Normalized(k, n, ctxName, nsName)
    ensures Mergeable(n) && Closed(n) && |n.contexts| == |n.clusters| == |n.users| == 1
  {
  }

  /** Main result without force: every entry there was is unchanged, and exactly one context, cluster
      and user are new. */
  lemma NothingLost(k: Kube, add: Kube, name: string, cluster: string, user: string, setCurrent: bool)
    requires Mergeable(add) && NamesChosen(k, add, false, name, cluster, user)
    ensures var m := Merged(k, add, name, cluster, user, setCurrent);
            && m.contexts - {name} == k.contexts && m.clusters - {cluster} == k.clusters && m.users - {user} == k.users
            && |m.contexts| == |k.contexts| + 1 && |m.clusters| == |k.clusters| + 1 && |m.users| == |k.users| + 1
  {
    hide Candidate;
    var c := add.contexts[add.current];
    AddNew(k.contexts, name, Context(cluster, user, c.namespace));
    AddNew(k.clusters, cluster, add.clusters[c.cluster]);
    AddNew(k.users, user, add.users[c.user]);
  }

  lemma AddNew<T>(m: map<string, T>, k: string, v: T)
    requires k !in m
    ensures m[k := v] - {k} == m && |m[k := v]| == |m| + 1
  {
    assert m[k := v].Keys == m.Keys + {k};
  }

  /** Main result with force: only the three named entries can differ. */
  lemma OnlyNamedChange(k: Kube, add: Kube, name: string, cluster: string, user: string, setCurrent: bool)
    requires Mergeable(add) && NamesChosen(k, add, true, name, cluster, user)
    ensures var m := Merged(k, add, name, cluster, user, setCurrent);
            && m.contexts - {name} == k.contexts - {name} && m.clusters - {cluster} == k.clusters - {cluster}
            && m.users - {user} == k.users - {user}
            && m.contexts[name] == add.contexts[add.current] && m.clusters[cluster] == add.clusters[cluster]
            && m.users[user] == add.users[user]
  {
  }

  /** A repetition with force changes nothing. */
  lemma ForceAgain(k: Kube, add: Kube, name: string, cluster: string, user: string, setCurrent: bool)
    requires Mergeable(add) && NamesChosen(k, add, true, name, cluster, user)
    ensures var m := Merged(k, add, name, cluster, user, setCurrent);
            Merged(m, add, name, cluster, user, setCurrent) == m
  {
    var m := Merged(k, add, name, cluster, user, setCurrent);
    var again := Merged(m, add, name, cluster, user, setCurrent);
    assert again.contexts == m.contexts && again.clusters == m.clusters && again.users == m.users;
  }

  /** What a merge says afterwards: the three entries of the other configuration under the chosen names,
      the context with its namespace; and the new context is the current one when that is asked for or
      there was none. */
  lemma MergedSays(k: Kube, add: Kube, name: string, cluster: string, user: string, setCurrent: bool)
    requires Mergeable(add)
    ensures var m := Merged(k, add, name, cluster, user, setCurrent);
            && name in m.contexts && m.contexts[name].cluster == cluster && m.contexts[name].user == user
            && m.contexts[name].namespace == add.contexts[add.current].namespace
            && cluster in m.clusters && m.clusters[cluster] == add.clusters[add.contexts[add.current].cluster]
            && user in m.users && m.users[user] == add.users[add.contexts[add.current].user]
            && (m.current == name || (m.current == k.current && k.current != "" && !setCurrent))
            && (setCurrent || k.current == "" ==> m.current == name)
            && (!setCurrent && k.current != "" ==> m.current == k.current)
  {
  }

  /** Either way, references stay closed, and the new context always resolves. */
  lemma StaysClosed(k: Kube, add: Kube, name: string, cluster: string, user: string, setCurrent: bool)
    requires Mergeable(add)
    ensures var m := Merged(k, add, name, cluster, user, setCurrent);
            && Resolves(m, name)
            && (forall n :: n != name && n in k.contexts && Resolves(k, n) ==> Resolves(m, n))
            && (Closed(k) ==> Closed(m))
  {
  }
}
