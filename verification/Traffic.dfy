/** What the network objects of one converter let through: a request that enters by an Ingress host
    reaches the container that published its port, and the policy admits exactly the intended peers
    (adapters/kube/converter.go). */
module Traffic {
  import opened Text
  import opened Sorting
  import opened Compose
  import opened Routing
  import opened Plans
  import opened Converters
  import NetworkPolicy
  import Documents
  import ToModels

  // ---------- where a request arrives

  /** Container i alone listens on the port its service published under the host port. */
  ghost predicate Target(containers: seq<Container>, published: set<Published>, hp: int, i: int, cp: int) {
    && 0 <= i < |containers|
    && Published(containers[i].name, hp, cp) in published
    && forall k :: 0 <= k < |containers| ==> (Int32(cp) in containers[k].ports <==> k == i)
  }

  /** The containers of a pod, what their services published, and the Service and Ingresses before them. */
  datatype Net = Net(containers: seq<Container>, published: set<Published>, exposure: Exposure)

  /** Kubernetes admits the Service, and a request to the backend port arrives, through it, at a
      container port that the service behind the host port published for it, where no other container
      listens. */
  ghost predicate Reaches(net: Net, backend: string, hp: int) {
    && net.exposure.servicePorts.Some? && Admissible(net.exposure.servicePorts.value)
    && exists i, cp ::
         && Target(net.containers, net.published, hp, i, cp)
         && Leads(net.exposure.servicePorts.value, backend, Int32(cp))
  }

  /** The entries of those of the two Ingresses that Kubernetes admits. */
  ghost function Admitted(e: Exposure): seq<HttpRule> {
    (if IngressOk(e.custom) then e.custom else []) + (if IngressOk(e.default) then e.default else [])
  }

  /** Exactly one admitted entry is for the host, and its backend reaches the port's publisher. */
  ghost predicate HostReaches(net: Net, host: string, hp: int) {
    var entries := Admitted(net.exposure);
    exists k ::
      && 0 <= k < |entries| && entries[k].host == host && Reaches(net, entries[k].backendPort, hp)
      && forall j :: 0 <= j < |entries| && entries[j].host == host ==> j == k
  }

  /** The rule is reached by its custom hosts and, under a domain, by its default host. */
  ghost predicate RuleReached(app: App, hashID: string, domain: string, net: Net, i: nat)
    requires i < |app.ingress|
  {
    && (forall host :: host in app.ingress[i].hosts ==> HostReaches(net, TrimSpace(host), app.ingress[i].port))
    && (domain != "" ==>
          HostReaches(net, DefaultHost(app.name, hashID, app.ingress[i].port, domain), app.ingress[i].port))
    && Reaches(net, app.ingress[i].name, app.ingress[i].port)
  }

  /** Every mapped host port has its one container. */
  ghost predicate AllTargets(containers: seq<Container>, published: set<Published>, hostPort: map<int, int>) {
    forall hp :: hp in hostPort ==>
      && 0 <= hostPort[hp] < 0x1_0000_0000
      && exists i :: Target(containers, published, hp, i, hostPort[hp])
  }

  lemma PublishedIsMapped(m: PortMaps, t: set<Published>, p: Published)
    requires Reflects(m, t) && p in t
    ensures p.host in m.hostPort && m.hostPort[p.host] == p.container
  {
  }

  /** A backend reaches the publisher of a host port exactly when the Service is admissible and the
      name leads to the container port the map has for it. */
  lemma ReachesExactly(net: Net, m: PortMaps, backend: string, hp: int)
    requires Reflects(m, net.published) && AllTargets(net.containers, net.published, m.hostPort)
    requires hp in m.hostPort && net.exposure.servicePorts.Some?
    ensures Reaches(net, backend, hp) <==>
            && Admissible(net.exposure.servicePorts.value)
            && Leads(net.exposure.servicePorts.value, backend, Int32(m.hostPort[hp]))
  {
    hide Int32, Leads, Reflects, Admissible;
    if Reaches(net, backend, hp) {
      var k, cp :| Target(net.containers, net.published, hp, k, cp)
        && Leads(net.exposure.servicePorts.value, backend, Int32(cp));
      PublishedIsMapped(m, net.published, Published(net.containers[k].name, hp, cp));
    }
  }

  // ---------- the entries of the Ingresses

  function EntryHosts(entries: seq<HttpRule>): seq<string> {
    seq(|entries|, i requires 0 <= i < |entries| => entries[i].host)
  }

  lemma {:induction false} CustomHosts(rules: seq<IngressRule>)
    ensures EntryHosts(CustomRules(rules)) == Hosts(rules)
  {
    if rules != [] {
      var rest, last := rules[..|rules| - 1], rules[|rules| - 1];
      CustomHosts(rest);
      assert EntryHosts(HostRules(last.hosts, last.name)) == TrimAll(last.hosts);
      assert EntryHosts(CustomRules(rest) + HostRules(last.hosts, last.name))
          == EntryHosts(CustomRules(rest)) + EntryHosts(HostRules(last.hosts, last.name));
    }
  }

  /** Every host of a rule has an entry that leads to the rule's name. */
  lemma {:induction false} CustomEntry(rules: seq<IngressRule>, i: nat, k: nat)
    requires i < |rules| && k < |rules[i].hosts|
    ensures HttpRule(TrimSpace(rules[i].hosts[k]), rules[i].name) in CustomRules(rules)
  {
    hide TrimSpace;
    var rest, last := rules[..|rules| - 1], rules[|rules| - 1];
    if i < |rest| {
      assert rest[i] == rules[i];
      CustomEntry(rest, i, k);
    } else {
      assert HostRules(last.hosts, last.name)[k] == HttpRule(TrimSpace(rules[i].hosts[k]), rules[i].name);
    }
  }

  /** No two entries of the Ingresses have the same host. */
  lemma HostsNeverCollide(app: App, hashID: string, domain: string, hostPort: map<int, int>, e: Exposure)
    requires app.ingress != [] && Exposed(app, hashID, domain, hostPort, e)
    ensures NoDup(EntryHosts(e.custom + e.default))
  {
    hide DefaultHost, UnderDomain, RuleNameOk, CustomRules, Int32;
    var hosts := EntryHosts(e.custom + e.default);
    CustomHosts(app.ingress);
    assert EntryHosts(e.custom)[..] == Hosts(app.ingress);
    var n := |e.custom|;
    assert |Hosts(app.ingress)| == n;
    forall i, j | 0 <= i < j < |hosts| ensures hosts[i] != hosts[j] {
      if j < n {
        assert hosts[i] == Hosts(app.ingress)[i] && hosts[j] == Hosts(app.ingress)[j];
      } else {
        assert hosts[j] == DefaultHost(app.name, hashID, app.ingress[j - n].port, domain);
        if i < n {
          assert hosts[i] == EntryHosts(e.custom)[i];
          assert hosts[i] in Hosts(app.ingress);
          DefaultHostUnderDomain(app.name, hashID, app.ingress[j - n].port, domain);
        } else {
          assert hosts[i] == DefaultHost(app.name, hashID, app.ingress[i - n].port, domain);
          DefaultHostsDistinct(app.name, hashID, app.ingress[i - n].port, app.ingress[j - n].port, domain);
        }
      }
    }
  }

  lemma EntryIndex(entries: seq<HttpRule>, entry: HttpRule) returns (k: nat)
    requires NoDup(EntryHosts(entries)) && entry in entries
    ensures && k < |entries|
            && entries[k] == entry
            && forall j :: 0 <= j < |entries| && entries[j].host == entry.host ==> j == k
  {
    k :| 0 <= k < |entries| && entries[k] == entry;
    forall j | 0 <= j < |entries| && entries[j].host == entry.host ensures j == k {
      assert EntryHosts(entries)[j] == EntryHosts(entries)[k];
    }
  }

  /** Dropping an Ingress that is not admitted leaves the other's entries. */
  lemma AdmittedParts(e: Exposure)
    requires NoDup(EntryHosts(e.custom + e.default))
    ensures NoDup(EntryHosts(Admitted(e)))
    ensures IngressOk(e.custom) ==> forall entry :: entry in e.custom ==> entry in Admitted(e)
    ensures IngressOk(e.default) ==> forall entry :: entry in e.default ==> entry in Admitted(e)
    ensures !IngressOk(e.custom) ==>
              forall entry, other :: entry in e.custom && other in Admitted(e) ==> other.host != entry.host
    ensures !IngressOk(e.default) ==>
              forall entry, other :: entry in e.default && other in Admitted(e) ==> other.host != entry.host
  {
    hide IngressOk;
    var all := EntryHosts(e.custom + e.default);
    var n := |e.custom|;
    assert forall i :: 0 <= i < n ==> all[i] == e.custom[i].host;
    assert forall i :: 0 <= i < |e.default| ==> all[n + i] == e.default[i].host;
    forall entry, other | entry in e.custom && other in e.default ensures other.host != entry.host {
      var i :| 0 <= i < n && e.custom[i] == entry;
      var j :| 0 <= j < |e.default| && e.default[j] == other;
      assert all[i] != all[n + j];
    }
    var custom, default := if IngressOk(e.custom) then e.custom else [], if IngressOk(e.default) then e.default else [];
    assert Admitted(e) == custom + default;
    var hosts := EntryHosts(custom + default);
    forall i, j | 0 <= i < j < |hosts| ensures hosts[i] != hosts[j] {
      if j < |custom| {
        assert all[i] != all[j];
      } else if i >= |custom| {
        assert all[n + i - |custom|] != all[n + j - |custom|];
      } else {
        assert custom[i] in e.custom && default[j - |custom|] in e.default;
      }
    }
  }

  /** Of entries with distinct hosts, the host of an admitted one is reached if its backend is. */
  lemma OneEntry(net: Net, entry: HttpRule, hp: int)
    requires NoDup(EntryHosts(Admitted(net.exposure)))
    requires entry in Admitted(net.exposure) && Reaches(net, entry.backendPort, hp)
    ensures HostReaches(net, entry.host, hp)
  {
    hide Reaches, NoDup, Admitted;
    var k := EntryIndex(Admitted(net.exposure), entry);
  }

  // ---------- what the rules must be like

  predicate BackendFits(name: string) {
    !HasSuffix(name, "-") && !DoubleHyphen(name)
  }

  /** The rules with hosts of their own fit an Ingress. */
  predicate CustomFits(rules: seq<IngressRule>) {
    forall i :: 0 <= i < |rules| && rules[i].hosts != [] ==> RuleFitsIngress(rules[i])
  }

  predicate RuleFitsIngress(rule: IngressRule) {
    BackendFits(rule.name) && forall h :: h in rule.hosts ==> IngressHost(TrimSpace(h))
  }

  /** All rules with their generated hosts fit an Ingress. */
  predicate DefaultFits(app: App, hashID: string, domain: string) {
    forall i :: 0 <= i < |app.ingress| ==>
      BackendFits(app.ingress[i].name) && IngressHost(DefaultHost(app.name, hashID, app.ingress[i].port, domain))
  }

  /** What it takes for a rule to be reached: the rules fit a Service, and the Ingresses that have its hosts. */
  ghost predicate RuleServed(app: App, hashID: string, domain: string, hostPort: map<int, int>, i: nat)
    requires i < |app.ingress| && forall k :: 0 <= k < |app.ingress| ==> app.ingress[k].port in hostPort
  {
    && ServiceFits(app.ingress, hostPort)
    && (app.ingress[i].hosts != [] ==> CustomFits(app.ingress))
    && (domain != "" ==> DefaultFits(app, hashID, domain))
  }

  /** The custom Ingress is admitted exactly when the rules fit it. */
  lemma {:induction false} CustomFitsExactly(rules: seq<IngressRule>)
    requires forall i :: 0 <= i < |rules| ==> RuleNameOk(rules[i].name)
    ensures IngressOk(CustomRules(rules)) <==> CustomFits(rules)
  {
    hide RuleNameOk, IngressHost, BackendName, BackendFits, TrimSpace, RuleFitsIngress;
    if rules != [] {
      var rest, last := rules[..|rules| - 1], rules[|rules| - 1];
      var front, back := CustomRules(rest), HostRules(last.hosts, last.name);
      CustomFitsExactly(rest);
      RuleFitsExactly(last);
      hide CustomRules, HostRules;
      assert CustomRules(rules) == front + back by {
        LastRule(rules);
      }
      OkConcat(front, back);
      assert CustomFits(rules) <==> CustomFits(rest) && (last.hosts != [] ==> RuleFitsIngress(last)) by {
        assert forall i :: 0 <= i < |rest| ==> rest[i] == rules[i];
      }
    }
  }

  lemma LastRule(rules: seq<IngressRule>)
    requires rules != []
    ensures var last := rules[|rules| - 1];
            CustomRules(rules) == CustomRules(rules[..|rules| - 1]) + HostRules(last.hosts, last.name)
  {
  }

  lemma OkConcat(a: seq<HttpRule>, b: seq<HttpRule>)
    ensures IngressOk(a + b) <==> IngressOk(a) && IngressOk(b)
  {
    hide IngressHost, BackendName;
    if IngressOk(a + b) {
      assert forall k :: 0 <= k < |a| ==> (a + b)[k] == a[k];
      assert forall k :: 0 <= k < |b| ==> (a + b)[|a| + k] == b[k];
    }
  }

  lemma RuleFitsExactly(rule: IngressRule)
    requires RuleNameOk(rule.name)
    ensures IngressOk(HostRules(rule.hosts, rule.name)) <==> rule.hosts == [] || RuleFitsIngress(rule)
  {
    NameForms(rule.name);
    hide RuleNameOk, IngressHost, BackendName, TrimSpace, IsDNS1123Label, BackendFits;
    assert BackendFits(rule.name) <==> BackendName(rule.name) by {
      BackendFitsExactly(rule.name);
    }
    var entries := HostRules(rule.hosts, rule.name);
    assert forall k :: 0 <= k < |rule.hosts| ==> entries[k] == HttpRule(TrimSpace(rule.hosts[k]), rule.name);
    if IngressOk(entries) && rule.hosts != [] {
      assert BackendName(entries[0].backendPort);
      forall h | h in rule.hosts ensures IngressHost(TrimSpace(h)) {
        var k :| 0 <= k < |rule.hosts| && rule.hosts[k] == h;
        assert IngressHost(entries[k].host);
      }
    }
  }

  lemma BackendFitsExactly(name: string)
    requires RuleNameOk(name)
    ensures BackendFits(name) <==> BackendName(name)
  {
    NameForms(name);
  }

  /** The default Ingress likewise. */
  lemma DefaultFitsExactly(app: App, hashID: string, domain: string)
    requires forall i :: 0 <= i < |app.ingress| ==> RuleNameOk(app.ingress[i].name)
    ensures IngressOk(DefaultRules(app.name, hashID, app.ingress, domain)) <==> DefaultFits(app, hashID, domain)
  {
    hide RuleNameOk, IngressHost, BackendName, BackendFits, DefaultHost;
    var entries := DefaultRules(app.name, hashID, app.ingress, domain);
    forall i | 0 <= i < |app.ingress|
      ensures entries[i] ==
              HttpRule(DefaultHost(app.name, hashID, app.ingress[i].port, domain), app.ingress[i].name)
      ensures BackendFits(app.ingress[i].name) <==> BackendName(app.ingress[i].name)
    {
      BackendFitsExactly(app.ingress[i].name);
    }
    if IngressOk(entries) {
      forall i | 0 <= i < |app.ingress|
        ensures BackendFits(app.ingress[i].name)
        ensures IngressHost(DefaultHost(app.name, hashID, app.ingress[i].port, domain))
      {
        assert IngressHost(entries[i].host) && BackendName(entries[i].backendPort);
      }
    }
  }

  // ---------- rules and the requests for their hosts

  /** A rule whose name reaches its publisher is reached by all its hosts exactly when the Ingresses that
      have them are admitted. */
  lemma HostsReached(app: App, hashID: string, domain: string, hostPort: map<int, int>, net: Net, i: nat)
    requires Exposed(app, hashID, domain, hostPort, net.exposure) && i < |app.ingress|
    requires Reaches(net, app.ingress[i].name, app.ingress[i].port)
    ensures RuleReached(app, hashID, domain, net, i) <==>
            && (app.ingress[i].hosts != [] ==> IngressOk(net.exposure.custom))
            && (domain != "" ==> IngressOk(net.exposure.default))
  {
    var rule, e := app.ingress[i], net.exposure;
    CustomHostsReached(app, hashID, domain, hostPort, net, i);
    DefaultHostReached(app, hashID, domain, hostPort, net, i);
    hide Exposed, Reaches, HostReaches, IngressOk, DefaultHost, TrimSpace;
    if rule.hosts != [] {
      assert rule.hosts[0] in rule.hosts;
    }
  }

  lemma CustomHostsReached(app: App, hashID: string, domain: string, hostPort: map<int, int>, net: Net, i: nat)
    requires Exposed(app, hashID, domain, hostPort, net.exposure) && i < |app.ingress|
    requires Reaches(net, app.ingress[i].name, app.ingress[i].port)
    ensures forall host :: host in app.ingress[i].hosts ==>
              (HostReaches(net, TrimSpace(host), app.ingress[i].port) <==> IngressOk(net.exposure.custom))
  {
    HostsNeverCollide(app, hashID, domain, hostPort, net.exposure);
    AdmittedParts(net.exposure);
    hide Reaches, Int32, DefaultHost, TrimSpace, CustomRules, RulesAccepted, NoDup, IngressOk, Admitted, EntryHosts;
    var rule := app.ingress[i];
    forall host | host in rule.hosts
      ensures HostReaches(net, TrimSpace(host), rule.port) <==> IngressOk(net.exposure.custom)
    {
      var k :| 0 <= k < |rule.hosts| && rule.hosts[k] == host;
      CustomEntry(app.ingress, i, k);
      var entry := HttpRule(TrimSpace(host), rule.name);
      assert entry in net.exposure.custom;
      if IngressOk(net.exposure.custom) {
        OneEntry(net, entry, rule.port);
      }
    }
  }

  lemma DefaultHostReached(app: App, hashID: string, domain: string, hostPort: map<int, int>, net: Net, i: nat)
    requires Exposed(app, hashID, domain, hostPort, net.exposure) && i < |app.ingress|
    requires Reaches(net, app.ingress[i].name, app.ingress[i].port)
    ensures domain != "" ==>
              (HostReaches(net, DefaultHost(app.name, hashID, app.ingress[i].port, domain), app.ingress[i].port) <==>
               IngressOk(net.exposure.default))
  {
    HostsNeverCollide(app, hashID, domain, hostPort, net.exposure);
    AdmittedParts(net.exposure);
    hide Reaches, Int32, DefaultHost, CustomRules, RulesAccepted, NoDup, IngressOk, Admitted, EntryHosts;
    var rule := app.ingress[i];
    if domain != "" {
      var entry := HttpRule(DefaultHost(app.name, hashID, rule.port, domain), rule.name);
      assert net.exposure.default[i] == entry;
      if IngressOk(net.exposure.default) {
        OneEntry(net, entry, rule.port);
      }
    }
  }

  lemma ExposedRules(app: App, hashID: string, domain: string, hostPort: map<int, int>, e: Exposure)
    requires Exposed(app, hashID, domain, hostPort, e) && app.ingress != []
    ensures forall i :: 0 <= i < |app.ingress| ==> app.ingress[i].port in hostPort
    ensures e.servicePorts == Some(RulePorts(app.ingress, hostPort))
    ensures e.custom == CustomRules(app.ingress)
    ensures domain != "" ==> e.default == DefaultRules(app.name, hashID, app.ingress, domain)
    ensures NamesOk(app.ingress, hostPort)
  {
    hide Int32, UnderDomain, Hosts, NoDup, RuleNameOk, CustomRules;
  }

  /** Each rule is reached by all its hosts exactly when the rules fit what Kubernetes admits. */
  lemma RulesReached(app: App, hashID: string, domain: string, m: PortMaps, net: Net)
    requires Exposed(app, hashID, domain, m.hostPort, net.exposure) && app.ingress != []
    requires Reflects(m, net.published) && AllTargets(net.containers, net.published, m.hostPort)
    ensures forall i :: 0 <= i < |app.ingress| ==> app.ingress[i].port in m.hostPort
    ensures forall i :: 0 <= i < |app.ingress| ==>
              (RuleReached(app, hashID, domain, net, i) <==> RuleServed(app, hashID, domain, m.hostPort, i))
  {
    ExposedRules(app, hashID, domain, m.hostPort, net.exposure);
    RoutedExactly(app.ingress, m.hostPort);
    CustomFitsExactly(app.ingress);
    DefaultFitsExactly(app, hashID, domain);
    hide Exposed, Reflects, ServiceFits, RulePorts, Leads, Admissible, Int32, Reaches, HostReaches, DefaultHost;
    hide TrimSpace, CustomFits, DefaultFits, IngressOk, NamesOk, CustomRules, DefaultRules;
    forall i | 0 <= i < |app.ingress|
      ensures RuleReached(app, hashID, domain, net, i) <==> RuleServed(app, hashID, domain, m.hostPort, i)
    {
      ReachesExactly(net, m, app.ingress[i].name, app.ingress[i].port);
      if ServiceFits(app.ingress, m.hostPort) {
        assert Routed(app.ingress, i, m.hostPort);
        HostsReached(app, hashID, domain, m.hostPort, net, i);
      }
    }
  }

  // ---------- after a conversion

  ghost function NetOf(c: Converter): Net
    requires c.plan.Some?
    reads c`plan
  {
    Net(c.plan.value.containers, AllPublished(c.source.services), c.plan.value.exposure)
  }

  /** Every mapped host port leads to the one container that lists its container port. */
  lemma PlannedTargets(c: Converter, files: Mounts.Files)
    requires c.Planned(files)
    ensures AllTargets(c.plan.value.containers, AllPublished(c.source.services), c.portMaps.hostPort)
  {
    hide Int32, Reflects, AllPublished, PortsAccepted, Lists, Target, Exposed, NoDup, Elements;
    hide c.Planned, c.PolicyPlanned;
    PlannedPorts(c, files);
    PlannedVisit(c, files);
    forall k, port | 0 <= k < |c.visit|
      ensures port in c.plan.value.containers[k].ports <==> Lists(c.source.services[c.visit[k]], port)
    {
      ListsPlanned(c, files, k, port);
    }
    forall hp | hp in c.portMaps.hostPort
      ensures 0 <= c.portMaps.hostPort[hp] < 0x1_0000_0000
      ensures exists i ::
                Target(c.plan.value.containers, AllPublished(c.source.services), hp, i, c.portMaps.hostPort[hp])
    {
      var _ := TargetFound(c.source.services, c.visit, c.plan.value.containers, c.portMaps, hp);
    }
  }

  lemma TargetFound(services: map<string, Service>, visit: seq<string>, containers: seq<Container>, m: PortMaps,
                    hp: int)
    returns (i: nat)
    requires PortsAccepted(services) && Reflects(m, AllPublished(services)) && hp in m.hostPort
    requires NoDup(visit) && Elements(visit) == services.Keys && |containers| == |visit|
    requires forall k :: 0 <= k < |visit| ==> visit[k] in services && containers[k].name == visit[k]
    requires forall k, port :: 0 <= k < |visit| ==> (port in containers[k].ports <==> Lists(services[visit[k]], port))
    ensures 0 <= m.hostPort[hp] < 0x1_0000_0000
    ensures Target(containers, AllPublished(services), hp, i, m.hostPort[hp])
  {
    hide Int32, Reflects, AllPublished, PortsAccepted, Lists;
    var cp := m.hostPort[hp];
    OnePublisher(services, m, hp);
    var n :| n in services && Published(n, hp, cp) in AllPublished(services)
          && forall s :: s in services ==> (Lists(services[s], Int32(cp)) <==> s == n);
    assert n in Elements(visit);
    i :| 0 <= i < |visit| && visit[i] == n;
  }

  lemma PlannedPorts(c: Converter, files: Mounts.Files)
    requires c.Planned(files)
    ensures c.plan.Some?
    ensures PortsAccepted(c.source.services) && Reflects(c.portMaps, AllPublished(c.source.services))
    ensures Exposed(c.app, c.hashes.appID, c.Domain(), c.portMaps.hostPort, c.plan.value.exposure)
    ensures c.PolicyPlanned(c.plan.value.policy)
  {
    hide Exposed, EnvSecretsOf, Mounts.ObjectsOf, Mounts.DefsAccepted, NoDup, InitFor, Reflects, AllPublished;
    hide Mounts.StateOk, SubPathsFor, ContainersFor, PortsAccepted;
    hide c.PolicyPlanned;
  }

  lemma PlannedVisit(c: Converter, files: Mounts.Files)
    requires c.Planned(files)
    ensures NoDup(c.visit) && Elements(c.visit) == c.source.services.Keys && |c.plan.value.containers| == |c.visit|
    ensures forall i :: 0 <= i < |c.visit| ==>
              c.visit[i] in c.source.services && c.plan.value.containers[i].name == c.visit[i]
  {
    hide Exposed, EnvSecretsOf, Mounts.ObjectsOf, Mounts.DefsAccepted, InitFor, Reflects, AllPublished, Mounts.StateOk;
    hide SubPathsFor, ContainerFor, ServicesAccepted;
    hide c.PolicyPlanned;
  }

  lemma ListsPlanned(c: Converter, files: Mounts.Files, k: nat, port: int)
    requires c.Planned(files) && k < |c.plan.value.containers|
    ensures k < |c.visit| && c.visit[k] in c.source.services
    ensures port in c.plan.value.containers[k].ports <==> Lists(c.source.services[c.visit[k]], port)
  {
    hide Exposed, EnvSecretsOf, Mounts.ObjectsOf, Mounts.DefsAccepted, InitFor, Reflects, AllPublished, Mounts.StateOk;
    hide ServicesAccepted, Mounts.ContainerOk, Int32, Listed, SubPathsFor, Mounts.MountsFor;
    hide c.PolicyPlanned;
    assert ContainerFor(c.app, files, c.source, Mounts.MountState(c.recorded, c.configMounts, c.secretMounts),
                        c.source.services[c.visit[k]], c.plan.value.containers[k]);
    ListedMembers(c.source.services[c.visit[k]].ports);
  }

  /** After Convert the map of host ports says what the published texts say, in particular for texts
      that are plain numerals. */
  lemma PortsRead(c: Converter, files: Mounts.Files)
    requires c.Planned(files)
    ensures EntriesFit(c.source.services) && MapSays(c.source.services, c.portMaps.hostPort)
    ensures forall s, n, cp :: Numeral(c.source.services, s, n, cp) ==>
              n in c.portMaps.hostPort && c.portMaps.hostPort[n] == cp
  {
    PlannedPorts(c, files);
    hide c.Planned, c.PolicyPlanned, c.Domain, Exposed;
    NumeralsRead(c.source.services, c.portMaps);
  }

  /** An entry of service s publishes container port cp under the numeral of n. */
  ghost predicate Numeral(services: map<string, Service>, s: string, n: int, cp: int) {
    s in services && 0 < n <= MAX_INT64
    && exists i ::
         0 <= i < |services[s].ports| && services[s].ports[i].published == Itoa(n) && services[s].ports[i].target == cp
  }

  lemma NumeralsRead(services: map<string, Service>, m: PortMaps)
    requires PortsAccepted(services) && Reflects(m, AllPublished(services))
    ensures EntriesFit(services) && MapSays(services, m.hostPort)
    ensures forall s, n, cp :: Numeral(services, s, n, cp) ==> n in m.hostPort && m.hostPort[n] == cp
  {
    hide Reflects, AllPublished, Publishes, HostPort, Itoa;
    PortsAcceptedExactly(services);
    MapSaysEntries(services, m);
    forall s, n, cp | Numeral(services, s, n, cp) ensures Says(services, s, n, cp) {
      var i :| 0 <= i < |services[s].ports| && services[s].ports[i].published == Itoa(n)
            && services[s].ports[i].target == cp;
      TargetOfEntry(services[s].ports[i]);
      NumeralSays(services[s].ports[i], n);
    }
  }

  lemma TargetOfEntry(p: Port)
    ensures HostPort(p).Some? ==> p.target != 0
  {
  }

  /** Main result on requests: after Convert, a rule is reached by all its hosts, at the one container
      that published its host port, exactly when the rules, their hosts and the cluster's domain have
      the form that Kubernetes demands. Convert checks only a part of that. */
  lemma TrafficReaches(c: Converter, files: Mounts.Files)
    requires c.Planned(files) && c.app.ingress != []
    ensures forall i :: 0 <= i < |c.app.ingress| ==> c.app.ingress[i].port in c.portMaps.hostPort
    ensures forall i :: 0 <= i < |c.app.ingress| ==>
              (RuleReached(c.app, c.hashes.appID, c.Domain(), NetOf(c), i) <==>
               RuleServed(c.app, c.hashes.appID, c.Domain(), c.portMaps.hostPort, i))
  {
    PlannedPorts(c, files);
    PlannedTargets(c, files);
    hide c.Planned, c.PolicyPlanned, c.Domain;
    hide Exposed, Reflects, AllPublished, PortsAccepted, RuleServed, RuleReached, AllTargets;
    RulesReached(c.app, c.hashes.appID, c.Domain(), c.portMaps, NetOf(c));
  }

  /** Without ingress rules every published host port has its own Service port, which reaches the
      container that published it exactly when all published ports fit a Service. */
  lemma PlainTrafficReaches(c: Converter, files: Mounts.Files, hp: int)
    requires c.Planned(files) && c.app.ingress == [] && hp in c.portMaps.hostPort
    ensures Reaches(NetOf(c), "p" + Itoa(hp), hp) <==> PlainFits(c.portMaps.hostPort)
  {
    PlannedPorts(c, files);
    PlannedTargets(c, files);
    hide c.Planned, c.PolicyPlanned, c.Domain;
    HostPortsPositive(c.source.services, c.portMaps);
    hide Reflects, AllPublished, PortsAccepted, AllTargets, Reaches, Int32, Itoa, Leads, Admissible, PlainFits;
    PlainServicePorts(c.app, c.hashes.appID, c.Domain(), c.portMaps.hostPort, c.plan.value.exposure, hp);
    ReachesExactly(NetOf(c), c.portMaps, "p" + Itoa(hp), hp);
  }

  /** Published host ports are positive and fit 64 bits, as Atoi reads them. */
  lemma HostPortsPositive(services: map<string, Service>, m: PortMaps)
    requires Reflects(m, AllPublished(services))
    ensures forall h :: h in m.hostPort ==> 0 < h <= MAX_INT64
  {
    hide HostPort;
    forall h | h in m.hostPort ensures 0 < h <= MAX_INT64 {
      var p :| p in AllPublished(services) && p.host == h;
      var n, i :| n in services && 0 <= i < |services[n].ports| && HostPort(services[n].ports[i]).Some?
        && p == Published(n, HostPort(services[n].ports[i]).value, services[n].ports[i].target);
      HostPortRange(services[n].ports[i]);
    }
  }

  lemma HostPortRange(p: Port)
    ensures HostPort(p).Some? ==> 0 < HostPort(p).value <= MAX_INT64
  {
    hide Atoi;
  }

  lemma PlainServicePorts(app: App, hashID: string, domain: string, hostPort: map<int, int>, e: Exposure, hp: int)
    requires Exposed(app, hashID, domain, hostPort, e) && app.ingress == [] && hp in hostPort
    requires forall h :: h in hostPort ==> 0 < h <= MAX_INT64
    ensures e.servicePorts.Some? && (Admissible(e.servicePorts.value) <==> PlainFits(hostPort))
    ensures Leads(e.servicePorts.value, "p" + Itoa(hp), Int32(hostPort[hp]))
  {
    hide Int32, Itoa, Leads, Admissible, PlainFits;
    var ports := e.servicePorts.value;
    var hps :| PlainPorts(hostPort, ports, hps);
    PlainPortsRoute(hostPort, ports, hps, hp);
  }

  /** Main result on the policy: for an app that the document loader stored from obj, the generated
      policy admits exactly the default namespaces and what the document's rules ask for. */
  lemma PolicyMeansRules(c: Converter, files: Mounts.Files, obj: Documents.Object, f: string, loaded: ToModels.App)
    requires c.Planned(files) && ToModels.AppKept(obj, f, loaded) && c.app.policy == loaded.ingressRules
    ensures forall i :: 0 <= i < |c.plan.value.policy| ==> c.plan.value.policy[i].from != []
    ensures forall labels: NetworkPolicy.Labels, protocol, port ::
              NetworkPolicy.PolicyAdmits(c.plan.value.policy, labels, protocol, port) <==>
              || NetworkPolicy.FromDefault(labels, c.hashes.namespace, c.IngressNamespace())
              || exists i ::
                   && 0 <= i < |obj.app.ingressRules|
                   && NetworkPolicy.Asks(obj.app.ingressRules[i], labels, protocol, port)
  {
    PlannedPorts(c, files);
    hide c.Planned, Exposed, Reflects, AllPublished, PortsAccepted;
    hide NetworkPolicy.RulesOk, NetworkPolicy.DomainRules, NetworkPolicy.RuleAdmits, NetworkPolicy.Asks;
    hide NetworkPolicy.PolicyAdmits, NetworkPolicy.DefaultNamespaces, NetworkPolicy.PolicyRules;
    NetworkPolicy.PolicyKeepsMeaning(obj.app.ingressRules, c.hashes.namespace, c.IngressNamespace(),
                                     c.plan.value.policy);
  }
}
