/** From published ports to containers: the port maps Convert fills while it visits the services in
    map order, the Service and the Ingresses it builds from them, and the route a request takes
    through the result (adapters/kube/converter.go). */
module Routing {
  import opened Text
  import opened Sorting
  import opened Compose

  datatype RouteError =
    | PortNotNumeric(service: string)
    | InvalidHostPort(published: string)
    | ContainerPortShared(port: int)
    | HostPortAmbiguous(port: int)
    | InvalidIngressName(name: string)
    | DuplicateIngressPort(port: int)
    | IngressPortUnknown(port: int)
    | ContainerPortNames(port: int)
    | HostUnderDomain(host: string)
    | HostDuplicated(host: string)
    | CustomHostDuplicated(host: string)
    | DefaultHostDuplicated(host: string)
    | DefaultHostCollides(host: string)

  // ---------- the port scan

  /** The host port of an accepted port entry. */
  function HostPort(p: Port): Option<int> {
    if p.published == "" || p.target == 0 then None
    else match Atoi(p.published)
      case None => None
      case Some(hp) => if hp <= 0 then None else Some(hp)
  }

  /** A service publishes a host port for a container port. */
  datatype Published = Published(service: string, host: int, container: int)

  ghost function PublishedBy(name: string, ports: seq<Port>): set<Published> {
    set i | 0 <= i < |ports| && HostPort(ports[i]).Some? :: Published(name, HostPort(ports[i]).value, ports[i].target)
  }

  ghost function PublishedIn(services: map<string, Service>, done: set<string>): set<Published> {
    set n, i | n in services && n in done && 0 <= i < |services[n].ports| && HostPort(services[n].ports[i]).Some?
      :: Published(n, HostPort(services[n].ports[i]).value, services[n].ports[i].target)
  }

  ghost function AllPublished(services: map<string, Service>): set<Published> {
    PublishedIn(services, services.Keys)
  }

  /** Visiting one more service adds what it publishes. */
  lemma PublishedOneMore(services: map<string, Service>, done: set<string>, n: string)
    requires n in services
    ensures PublishedIn(services, done + {n}) == PublishedIn(services, done) + PublishedBy(n, services[n].ports)
    ensures PublishedIn(services, done) <= AllPublished(services)
    ensures PublishedIn(services, {}) == {}
  {
    hide HostPort;
    var more, parts := PublishedIn(services, done + {n}), PublishedIn(services, done)
          + PublishedBy(n, services[n].ports);
    forall p ensures p in more <==> p in parts {
      if p in PublishedBy(n, services[n].ports) {
        var i :| 0 <= i < |services[n].ports| && HostPort(services[n].ports[i]).Some?
              && p == Published(n, HostPort(services[n].ports[i]).value, services[n].ports[i].target);
        assert p in more;
      }
      if p in more && p !in PublishedIn(services, done) {
        var m, i :| m in services
          && m in done + {n}
          && 0 <= i < |services[m].ports|
          && HostPort(services[m].ports[i]).Some?
                 && p == Published(m, HostPort(services[m].ports[i]).value, services[m].ports[i].target);
        assert m == n;
        assert p in PublishedBy(n, services[n].ports);
      }
    }
  }

  predicate PortsValid(ports: seq<Port>) {
    forall i :: 0 <= i < |ports| ==> HostPort(ports[i]).Some?
  }

  /** No container port in two services, no host port for two container ports. */
  ghost predicate Unambiguous(t: set<Published>) {
    forall p, q :: p in t && q in t ==>
      && (p.container == q.container ==> p.service == q.service)
      && (p.host == q.host ==> p.container == q.container)
  }

  ghost predicate PortsAccepted(services: map<string, Service>) {
    (forall n :: n in services ==> PortsValid(services[n].ports)) && Unambiguous(AllPublished(services))
  }

  datatype PortMaps = PortMaps(hostPort: map<int, int>, owner: map<int, string>)

  /** The two maps say exactly what has been published so far. */
  ghost predicate Reflects(m: PortMaps, t: set<Published>) {
    && (forall p :: p in t ==>
          && p.host in m.hostPort && m.hostPort[p.host] == p.container
          && p.container in m.owner && m.owner[p.container] == p.service)
    && (forall h :: h in m.hostPort ==> exists p :: p in t && p.host == h)
    && (forall c :: c in m.owner ==> exists p :: p in t && p.container == c)
  }

  lemma ReflectsUnambiguous(m: PortMaps, t: set<Published>)
    requires Reflects(m, t)
    ensures Unambiguous(t)
  {
  }

  lemma PublishedSnoc(name: string, ports: seq<Port>, i: nat)
    requires i < |ports| && HostPort(ports[i]).Some?
    ensures PublishedBy(name, ports[..i + 1]) ==
            PublishedBy(name, ports[..i]) + {Published(name, HostPort(ports[i]).value, ports[i].target)}
  {
    hide HostPort;
    var all := ports[..i + 1];
    assert forall j :: 0 <= j < i ==> all[j] == ports[..i][j];
    assert all[i] == ports[i];
    forall p | p in PublishedBy(name, ports[..i]) ensures p in PublishedBy(name, all) {
      var j :| 0 <= j < i
        && HostPort(ports[..i][j]).Some?
        && p == Published(name, HostPort(ports[..i][j]).value, ports[..i][j].target);
      assert all[j] == ports[..i][j];
    }
  }

  lemma PublishedPrefix(name: string, ports: seq<Port>, i: nat)
    requires i <= |ports|
    ensures PublishedBy(name, ports[..i]) <= PublishedBy(name, ports)
    ensures PublishedBy(name, ports[..0]) == {} && PublishedBy(name, ports[..|ports|]) == PublishedBy(name, ports)
  {
    hide HostPort;
    forall p | p in PublishedBy(name, ports[..i]) ensures p in PublishedBy(name, ports) {
      var j :| 0 <= j < i
        && HostPort(ports[..i][j]).Some?
        && p == Published(name, HostPort(ports[..i][j]).value, ports[..i][j].target);
      assert ports[j] == ports[..i][j];
    }
    assert ports[..|ports|] == ports;
  }

  /** One port entry: recorded in both maps, or rejected because it contradicts them. */
  method AddPort(name: string, hp: int, cp: int, m: PortMaps, ghost t: set<Published>)
    returns (r: Result<PortMaps, RouteError>)
    requires Reflects(m, t)
    ensures r.Ok? ==> Reflects(r.value, t + {Published(name, hp, cp)})
    ensures r.Err? ==> !Unambiguous(t + {Published(name, hp, cp)})
  {
    var entry := Published(name, hp, cp);
    assert entry in t + {entry};
    if cp in m.owner && m.owner[cp] != name {
      return Err(ContainerPortShared(cp));
    }
    if hp in m.hostPort && m.hostPort[hp] != cp {
      return Err(HostPortAmbiguous(hp));
    }
    return Ok(PortMaps(m.hostPort[hp := cp], m.owner[cp := name]));
  }

  /** The ports a service's container lists: each container port where it first occurs. */
  function Listed(ports: seq<Port>): seq<int> {
    if ports == [] then []
    else
      var rest, last := Listed(ports[..|ports| - 1]), ports[|ports| - 1];
      if last.target in rest then rest else rest + [Int32(last.target)]
  }

  lemma {:induction false} ListedMembers(ports: seq<Port>)
    ensures forall e :: e in Listed(ports) <==> exists i :: 0 <= i < |ports| && e == Int32(ports[i].target)
  {
    if ports != [] {
      var front, last := ports[..|ports| - 1], ports[|ports| - 1];
      assert ports == front + [last];
      ListedMembers(front);
      if last.target in Listed(front) {
        var i :| 0 <= i < |front| && last.target == Int32(front[i].target);
        assert Int32(last.target) == last.target;
      }
    }
  }

  lemma PublishedStep(t: set<Published>, name: string, ports: seq<Port>, i: nat)
    requires i < |ports| && HostPort(ports[i]).Some?
    ensures t + PublishedBy(name, ports[..i + 1]) ==
            t + PublishedBy(name, ports[..i]) + {Published(name, HostPort(ports[i]).value, ports[i].target)}
    ensures t + PublishedBy(name, ports[..i + 1]) <= t + PublishedBy(name, ports)
  {
    PublishedSnoc(name, ports, i);
    PublishedPrefix(name, ports, i + 1);
    hide HostPort, PublishedBy;
  }

  lemma PublishedStart(t: set<Published>, name: string, ports: seq<Port>)
    ensures t + PublishedBy(name, ports[..0]) == t
  {
    PublishedPrefix(name, ports, 0);
  }

  lemma ListedSnoc(ports: seq<Port>, i: nat)
    requires i < |ports|
    ensures Listed(ports[..i + 1]) ==
            if ports[i].target in Listed(ports[..i]) then Listed(ports[..i])
            else Listed(ports[..i]) + [Int32(ports[i].target)]
  {
    hide Int32;
    assert ports[..i + 1][..i] == ports[..i] && ports[..i + 1][i] == ports[i];
  }

  /** The host port of one entry, or why it has none. */
  method ReadPort(name: string, p: Port) returns (hp: Result<int, RouteError>)
    ensures hp.Ok? <==> HostPort(p).Some?
    ensures hp.Ok? ==> hp.value == HostPort(p).value
  {
    hide Atoi;
    if p.published == "" || p.target == 0 {
      return Err(PortNotNumeric(name));
    }
    var n := Atoi(p.published);
    if n.None? || n.value <= 0 {
      return Err(InvalidHostPort(p.published));
    }
    return Ok(n.value);
  }

  /** One entry of a service: checked, recorded and listed. */
  method ScanPort(name: string, ports: seq<Port>, i: nat, m: PortMaps, listed: seq<int>, ghost t: set<Published>)
    returns (r: Result<(PortMaps, seq<int>), RouteError>)
    requires i < |ports| && Reflects(m, t + PublishedBy(name, ports[..i])) && listed == Listed(ports[..i])
    ensures r.Ok? ==>
              && HostPort(ports[i]).Some?
              && Reflects(r.value.0, t + PublishedBy(name, ports[..i + 1])) && r.value.1 == Listed(ports[..i + 1])
    ensures r.Err? ==> HostPort(ports[i]).None? || !Unambiguous(t + PublishedBy(name, ports))
  {
    hide Int32, HostPort, Listed, Reflects, Unambiguous, PublishedBy;
    ListedSnoc(ports, i);
    var p := ports[i];
    var hp := ReadPort(name, p);
    if hp.Err? {
      return Err(hp.error);
    }
    PublishedStep(t, name, ports, i);
    var step := AddPort(name, hp.value, p.target, m, t + PublishedBy(name, ports[..i]));
    if step.Err? {
      MoreIsWorse(t + PublishedBy(name, ports[..i + 1]), t + PublishedBy(name, ports));
      return Err(step.error);
    }
    return Ok((step.value, if p.target in listed then listed else listed + [Int32(p.target)]));
  }

  /** The port entries of one service, in order. */
  method ScanPorts(name: string, ports: seq<Port>, m: PortMaps, ghost t: set<Published>)
    returns (r: Result<(PortMaps, seq<int>), RouteError>)
    requires Reflects(m, t)
    ensures r.Ok? ==> PortsValid(ports) && Reflects(r.value.0, t + PublishedBy(name, ports))
    ensures r.Ok? ==> r.value.1 == Listed(ports)
    ensures r.Err? ==> !PortsValid(ports) || !Unambiguous(t + PublishedBy(name, ports))
  {
    var maps := m;
    var listed: seq<int> := [];
    hide HostPort, Reflects, Unambiguous, PublishedBy;
    PublishedStart(t, name, ports);
    for i := 0 to |ports|
      invariant forall j :: 0 <= j < i ==> HostPort(ports[j]).Some?
      invariant Reflects(maps, t + PublishedBy(name, ports[..i])) && listed == Listed(ports[..i])
    {
      hide Listed;
      var step := ScanPort(name, ports, i, maps, listed, t);
      if step.Err? {
        return Err(step.error);
      }
      maps := step.value.0;
      listed := step.value.1;
    }
    assert ports[..|ports|] == ports;
    return Ok((maps, listed));
  }

  lemma MoreIsWorse(s: set<Published>, t: set<Published>)
    requires s <= t && !Unambiguous(s)
    ensures !Unambiguous(t)
  {
  }

  // ---------- what the published texts say

  /** The entry has a container port, and its text says the positive host port n. */
  ghost predicate Publishes(p: Port, n: int) {
    p.target != 0 && 0 < n <= MAX_INT64 && Reads(p.published, n)
  }

  lemma HostPortExactly(p: Port, n: int)
    ensures HostPort(p) == Some(n) <==> Publishes(p, n)
  {
    hide Atoi, Reads;
    AtoiExactly(p.published, n);
    NoDigits();
  }

  lemma NoDigits()
    ensures Atoi("") == None
  {
  }

  /** An entry of service s says host port n for container port cp. */
  ghost predicate Says(services: map<string, Service>, s: string, n: int, cp: int) {
    s in services && exists i ::
      0 <= i < |services[s].ports| && Publishes(services[s].ports[i], n) && services[s].ports[i].target == cp
  }

  ghost predicate SaysPort(p: Port) {
    exists n :: Publishes(p, n)
  }

  ghost predicate AllSay(ports: seq<Port>) {
    forall i :: 0 <= i < |ports| ==> SaysPort(ports[i])
  }

  /** Every entry says a host port, no container port is listed by two services, and no host port is
      said for two container ports. */
  ghost predicate EntriesFit(services: map<string, Service>) {
    (forall s :: s in services ==> AllSay(services[s].ports)) && SaysApart(services)
  }

  /** What the entries say is what is published. */
  lemma SaysExactly(services: map<string, Service>, s: string, n: int, cp: int)
    ensures Says(services, s, n, cp) <==> Published(s, n, cp) in AllPublished(services)
  {
    if s in services {
      forall i | 0 <= i < |services[s].ports|
        ensures HostPort(services[s].ports[i]) == Some(n) <==> Publishes(services[s].ports[i], n)
      {
        HostPortExactly(services[s].ports[i], n);
      }
    }
    hide HostPort, Publishes;
  }

  lemma SaysPortExactly(p: Port)
    ensures SaysPort(p) <==> HostPort(p).Some?
  {
    hide HostPort, Publishes;
    if SaysPort(p) {
      var n :| Publishes(p, n);
      HostPortExactly(p, n);
    }
    if HostPort(p).Some? {
      HostPortExactly(p, HostPort(p).value);
    }
  }

  lemma AllSayExactly(ports: seq<Port>)
    ensures AllSay(ports) <==> PortsValid(ports)
  {
    hide HostPort, SaysPort;
    forall i | 0 <= i < |ports| ensures SaysPort(ports[i]) <==> HostPort(ports[i]).Some? {
      SaysPortExactly(ports[i]);
    }
  }

  /** Main result on ports: the services' ports are accepted exactly when what their texts say fits
      together. */
  lemma PortsAcceptedExactly(services: map<string, Service>)
    ensures PortsAccepted(services) <==> EntriesFit(services)
  {
    hide PortsValid, AllPublished, AllSay, Unambiguous, SaysApart;
    SaysApartExactly(services);
    if EntriesFit(services) {
      forall s | s in services ensures PortsValid(services[s].ports) {
        AllSayExactly(services[s].ports);
      }
      assert PortsAccepted(services);
    }
    if PortsAccepted(services) {
      forall s | s in services ensures AllSay(services[s].ports) {
        AllSayExactly(services[s].ports);
      }
      assert EntriesFit(services);
    }
  }

  ghost predicate SaysApart(services: map<string, Service>) {
    forall s, n, cp, t, k, cq :: Says(services, s, n, cp) && Says(services, t, k, cq) ==>
      (cp == cq ==> s == t) && (n == k ==> cp == cq)
  }

  lemma SaysApartExactly(services: map<string, Service>)
    ensures Unambiguous(AllPublished(services)) <==> SaysApart(services)
  {
    hide Says, AllPublished;
    var all := AllPublished(services);
    forall s, n, cp ensures Says(services, s, n, cp) <==> Published(s, n, cp) in all {
      SaysExactly(services, s, n, cp);
    }
    if SaysApart(services) {
      forall p, q | p in all && q in all
        ensures p.container == q.container ==> p.service == q.service
        ensures p.host == q.host ==> p.container == q.container
      {
        assert p == Published(p.service, p.host, p.container) && q == Published(q.service, q.host, q.container);
        assert Says(services, p.service, p.host, p.container) && Says(services, q.service, q.host, q.container);
      }
    }
    if Unambiguous(all) {
      forall s, n, cp, t, k, cq | Says(services, s, n, cp) && Says(services, t, k, cq)
        ensures (cp == cq ==> s == t) && (n == k ==> cp == cq)
      {
        assert Published(s, n, cp) in all && Published(t, k, cq) in all;
      }
    }
  }

  /** The map of host ports says what the entries say. */
  ghost predicate MapSays(services: map<string, Service>, hostPort: map<int, int>) {
    && (forall s, n, cp :: Says(services, s, n, cp) ==> n in hostPort && hostPort[n] == cp)
    && forall n :: n in hostPort ==> exists s :: Says(services, s, n, hostPort[n])
  }

  lemma MapSaysEntries(services: map<string, Service>, m: PortMaps)
    requires Reflects(m, AllPublished(services))
    ensures MapSays(services, m.hostPort)
  {
    hide Says, AllPublished;
    forall s, n, cp ensures Says(services, s, n, cp) <==> Published(s, n, cp) in AllPublished(services) {
      SaysExactly(services, s, n, cp);
    }
  }

  /** The numeral of a positive 64-bit number says that number. */
  lemma NumeralSays(p: Port, n: int)
    requires p.target != 0 && 0 < n <= MAX_INT64 && p.published == Itoa(n)
    ensures Publishes(p, n)
  {
    hide Atoi, Itoa, Reads;
    AtoiItoa(n);
    AtoiExactly(Itoa(n), n);
  }

  // ---------- rules of the app's ingress

  predicate RuleNameOk(name: string) {
    && 1 <= |name| <= 15 && 'a' <= name[0] <= 'z'
    && forall i :: 0 <= i < |name| ==> name[i] == '-' || LowerAlnum(name[i])
  }

  /** The host is the cluster's ingress domain or a name below it, in any letter case. */
  predicate UnderDomain(host: string, domain: string) {
    domain != "" && (ToLower(host) == ToLower(domain) || HasSuffix(ToLower(host), "." + ToLower(domain)))
  }

  /** Exactly the domain and what ends in a dot and the domain lie under it, whatever the case. */
  lemma UnderDomainExactly(host: string, domain: string)
    ensures UnderDomain(host, domain) <==>
            domain != "" && (ToLower(host) == ToLower(domain)
                             || exists front :: ToLower(host) == front + ("." + ToLower(domain)))
  {
    if HasSuffix(ToLower(host), "." + ToLower(domain)) {
      SuffixSplits(ToLower(host), "." + ToLower(domain));
    }
    if front :| ToLower(host) == front + ("." + ToLower(domain)) {
      SuffixOfConcat(front, "." + ToLower(domain));
    }
  }

  /** The custom hosts of all rules, trimmed, in order. */
  function Hosts(rules: seq<IngressRule>): seq<string> {
    if rules == [] then [] else Hosts(rules[..|rules| - 1]) + TrimAll(rules[|rules| - 1].hosts)
  }

  function TrimAll(hosts: seq<string>): seq<string> {
    seq(|hosts|, i requires 0 <= i < |hosts| => TrimSpace(hosts[i]))
  }

  ghost predicate RulesAccepted(rules: seq<IngressRule>, hostPort: map<int, int>, domain: string) {
    && (forall i :: 0 <= i < |rules| ==> RuleNameOk(rules[i].name) && rules[i].port in hostPort)
    && (forall i, j :: 0 <= i < j < |rules| ==> rules[i].port != rules[j].port)
    && (forall i, j :: 0 <= i < j < |rules| && hostPort[rules[i].port] == hostPort[rules[j].port] ==>
          rules[i].name == rules[j].name)
    && (forall h :: h in Hosts(rules) ==> !UnderDomain(h, domain))
    && NoDup(Hosts(rules))
  }

  datatype ServicePort = ServicePort(name: string, port: int, targetPort: int)

  ghost function RulePorts(rules: seq<IngressRule>, hostPort: map<int, int>): seq<ServicePort>
    requires forall i :: 0 <= i < |rules| ==> rules[i].port in hostPort
  {
    seq(|rules|,
        i requires 0 <= i < |rules| => ServicePort(rules[i].name, Int32(rules[i].port), Int32(hostPort[rules[i].port])))
  }

  /** Which name a container port was given. */
  ghost predicate NamesPorts(names: map<int, string>, rules: seq<IngressRule>, hostPort: map<int, int>) {
    && (forall i :: 0 <= i < |rules| ==>
          && rules[i].port in hostPort && hostPort[rules[i].port] in names
          && names[hostPort[rules[i].port]] == rules[i].name)
    && (forall c :: c in names ==>
          exists i :: 0 <= i < |rules| && rules[i].port in hostPort && hostPort[rules[i].port] == c)
  }

  /** The hosts of one rule, checked against the domain and the hosts seen before. */
  method CheckHosts(hosts: seq<string>, domain: string, seen: set<string>, ghost before: seq<string>)
    returns (r: Result<set<string>, RouteError>)
    requires seen == Elements(before) && NoDup(before)
    ensures r.Ok? ==>
              && NoDup(before + TrimAll(hosts)) && r.value == Elements(before + TrimAll(hosts))
              && forall h :: h in TrimAll(hosts) ==> !UnderDomain(h, domain)
    ensures r.Err? ==> !NoDup(before + TrimAll(hosts)) || exists h :: h in TrimAll(hosts) && UnderDomain(h, domain)
  {
    hide TrimSpace, UnderDomain;
    var hostSeen := seen;
    var all := TrimAll(hosts);
    assert before + all[..0] == before;
    for i := 0 to |hosts|
      invariant hostSeen == Elements(before + all[..i]) && NoDup(before + all[..i])
      invariant forall h :: h in all[..i] ==> !UnderDomain(h, domain)
    {
      var host := TrimSpace(hosts[i]);
      assert all[i] == host && all[..i + 1] == all[..i] + [host];
      if UnderDomain(host, domain) {
        assert host in all;
        return Err(HostUnderDomain(host));
      }
      SnocNoDup(before + all[..i], host);
      assert before + all[..i + 1] == before + all[..i] + [host];
      if host in hostSeen {
        assert before + all == before + all[..i + 1] + all[i + 1..];
        DupStays(before + all[..i + 1], all[i + 1..]);
        return Err(HostDuplicated(host));
      }
      hostSeen := hostSeen + {host};
    }
    assert all[..|hosts|] == all;
    return Ok(hostSeen);
  }

  lemma SnocNoDup(s: seq<string>, x: string)
    requires NoDup(s)
    ensures NoDup(s + [x]) <==> x !in Elements(s)
    ensures Elements(s + [x]) == Elements(s) + {x}
  {
    if x in Elements(s) {
      var i :| 0 <= i < |s| && s[i] == x;
      assert (s + [x])[i] == (s + [x])[|s|];
    }
    assert forall i :: 0 <= i < |s| ==> s[i] in Elements(s);
  }

  lemma DupStays(s: seq<string>, t: seq<string>)
    requires !NoDup(s)
    ensures !NoDup(s + t)
  {
    var i, j :| 0 <= i < j < |s| && s[i] == s[j];
    assert (s + t)[i] == (s + t)[j];
  }

  lemma HostsPrefix(rules: seq<IngressRule>, i: nat)
    requires i < |rules|
    ensures Hosts(rules[..i + 1]) == Hosts(rules[..i]) + TrimAll(rules[i].hosts)
  {
    assert rules[..i + 1][..i] == rules[..i];
  }

  /** Dropping rules cannot make a bad set of hosts worse. */
  lemma {:induction false} HostsOfPrefix(rules: seq<IngressRule>, i: nat)
    requires i <= |rules|
    ensures Hosts(rules[..i]) <= Hosts(rules)
    decreases |rules| - i
  {
    if i < |rules| {
      HostsPrefix(rules, i);
      HostsOfPrefix(rules, i + 1);
    } else {
      assert rules[..i] == rules;
    }
  }

  /** The checks on one rule apart from its hosts. */
  ghost predicate RuleFits(rules: seq<IngressRule>, i: nat, hostPort: map<int, int>)
    requires i < |rules|
  {
    && RuleNameOk(rules[i].name) && rules[i].port in hostPort
    && (forall j :: 0 <= j < i ==> rules[j].port != rules[i].port)
    && (forall j :: 0 <= j < i && rules[j].port in hostPort && hostPort[rules[j].port] == hostPort[rules[i].port] ==>
          rules[j].name == rules[i].name)
  }

  method CheckRule(rules: seq<IngressRule>, i: nat, hostPort: map<int, int>, portSeen: set<int>,
                   names: map<int, string>)
    returns (fault: Option<RouteError>)
    requires i < |rules|
    requires portSeen == set j | 0 <= j < i :: rules[j].port
    requires NamesPorts(names, rules[..i], hostPort)
    ensures fault.None? <==> RuleFits(rules, i, hostPort)
    ensures fault.None? ==> NamesPorts(names[hostPort[rules[i].port] := rules[i].name], rules[..i + 1], hostPort)
  {
    var r := rules[i];
    assert forall j :: 0 <= j < i ==> rules[..i][j] == rules[j];
    if r.name == "" || |r.name| > 15 || !('a' <= r.name[0] <= 'z') {
      return Some(InvalidIngressName(r.name));
    }
    for k := 0 to |r.name|
      invariant forall j :: 0 <= j < k ==> r.name[j] == '-' || LowerAlnum(r.name[j])
    {
      if !(r.name[k] == '-' || LowerAlnum(r.name[k])) {
        return Some(InvalidIngressName(r.name));
      }
    }
    if r.port in portSeen {
      return Some(DuplicateIngressPort(r.port));
    }
    if r.port !in hostPort {
      return Some(IngressPortUnknown(r.port));
    }
    var cp := hostPort[r.port];
    if cp in names && names[cp] != r.name {
      return Some(ContainerPortNames(cp));
    }
    assert rules[..i + 1] == rules[..i] + [r];
    return None;
  }

  /** The loop over the app's ingress rules: the ports of the Service, or the first fault. */
  method BuildRulePorts(rules: seq<IngressRule>, hostPort: map<int, int>, domain: string)
    returns (r: Result<(seq<ServicePort>, map<int, string>), RouteError>)
    ensures r.Ok? <==> RulesAccepted(rules, hostPort, domain)
    ensures r.Ok? ==> r.value.0 == RulePorts(rules, hostPort) && NamesPorts(r.value.1, rules, hostPort)
  {
    hide RuleNameOk, UnderDomain, TrimAll, Int32, NamesPorts, NoDup, RuleFits, RulesAccepted;
    var portSeen: set<int> := {};
    var hostSeen: set<string> := {};
    var names: map<int, string> := map[];
    var ports: seq<ServicePort> := [];
    NothingChecked(rules, hostPort);
    for i := 0 to |rules|
      invariant forall j :: 0 <= j < i ==> RuleFits(rules, j, hostPort)
      invariant portSeen == set j | 0 <= j < i :: rules[j].port
      invariant NamesPorts(names, rules[..i], hostPort)
      invariant PortsOfRules(ports, rules[..i], hostPort)
      invariant hostSeen == Elements(Hosts(rules[..i])) && NoDup(Hosts(rules[..i]))
      invariant forall h :: h in Hosts(rules[..i]) ==> !UnderDomain(h, domain)
    {
      hide Elements, PortsOfRules;
      var fault := CheckRule(rules, i, hostPort, portSeen, names);
      if fault.Some? {
        RejectRule(rules, i, hostPort, domain);
        return Err(fault.value);
      }
      RuleHasPort(rules, i, hostPort);
      HostsPrefix(rules, i);
      var hosts := CheckHosts(rules[i].hosts, domain, hostSeen, Hosts(rules[..i]));
      if hosts.Err? {
        RejectHosts(rules, i, hostPort, domain);
        return Err(hosts.error);
      }
      var cp := hostPort[rules[i].port];
      names := names[cp := rules[i].name];
      portSeen := portSeen + {rules[i].port};
      OneMorePort(ports, rules, i, hostPort);
      ports := ports + [ServicePort(rules[i].name, Int32(rules[i].port), Int32(cp))];
      hostSeen := hosts.value;
    }
    assert rules[..|rules|] == rules;
    AcceptRules(rules, hostPort, domain);
    return Ok((ports, names));
  }

  lemma NothingChecked(rules: seq<IngressRule>, hostPort: map<int, int>)
    ensures NamesPorts(map[], rules[..0], hostPort) && NoDup(Hosts(rules[..0])) && Elements(Hosts(rules[..0])) == {}
  {
  }

  lemma RuleHasPort(rules: seq<IngressRule>, i: nat, hostPort: map<int, int>)
    requires i < |rules| && RuleFits(rules, i, hostPort)
    ensures rules[i].port in hostPort
  {
  }

  ghost predicate PortsOfRules(ports: seq<ServicePort>, rules: seq<IngressRule>, hostPort: map<int, int>) {
    && (forall i :: 0 <= i < |rules| ==> rules[i].port in hostPort)
    && ports == RulePorts(rules, hostPort)
  }

  lemma OneMorePort(ports: seq<ServicePort>, rules: seq<IngressRule>, i: nat, hostPort: map<int, int>)
    requires i < |rules| && PortsOfRules(ports, rules[..i], hostPort) && rules[i].port in hostPort
    ensures PortsOfRules(ports + [ServicePort(rules[i].name, Int32(rules[i].port), Int32(hostPort[rules[i].port]))],
                         rules[..i + 1], hostPort)
  {
    assert rules[..i + 1] == rules[..i] + [rules[i]];
  }

  lemma AcceptRules(rules: seq<IngressRule>, hostPort: map<int, int>, domain: string)
    requires forall j :: 0 <= j < |rules| ==> RuleFits(rules, j, hostPort)
    requires NoDup(Hosts(rules)) && forall h :: h in Hosts(rules) ==> !UnderDomain(h, domain)
    ensures RulesAccepted(rules, hostPort, domain)
  {
    hide RuleNameOk, UnderDomain, Hosts, NoDup;
    forall i, j | 0 <= i < j < |rules|
      ensures rules[i].port != rules[j].port
      ensures rules[i].port in hostPort && rules[j].port in hostPort
      ensures hostPort[rules[i].port] == hostPort[rules[j].port] ==> rules[i].name == rules[j].name
    {
      assert RuleFits(rules, i, hostPort) && RuleFits(rules, j, hostPort);
    }
    forall i | 0 <= i < |rules| ensures RuleNameOk(rules[i].name) && rules[i].port in hostPort {
      assert RuleFits(rules, i, hostPort);
    }
  }

  lemma RejectRule(rules: seq<IngressRule>, i: nat, hostPort: map<int, int>, domain: string)
    requires i < |rules| && !RuleFits(rules, i, hostPort)
    ensures !RulesAccepted(rules, hostPort, domain)
  {
    hide RuleNameOk, UnderDomain, Hosts, NoDup;
  }

  lemma RejectHosts(rules: seq<IngressRule>, i: nat, hostPort: map<int, int>, domain: string)
    requires i < |rules|
    requires var hosts := Hosts(rules[..i + 1]); !NoDup(hosts) || exists h :: h in hosts && UnderDomain(h, domain)
    ensures !RulesAccepted(rules, hostPort, domain)
  {
    hide RuleNameOk, UnderDomain, TrimAll;
    HostsOfPrefix(rules, i + 1);
    var hosts, all := Hosts(rules[..i + 1]), Hosts(rules);
    assert all == hosts + all[|hosts|..];
    if !NoDup(hosts) {
      DupStays(hosts, all[|hosts|..]);
    }
  }

  // ---------- the Ingresses

  /** One host of an Ingress, leading to a named port of the app's Service. */
  datatype HttpRule = HttpRule(host: string, backendPort: string)

  function HostRules(hosts: seq<string>, name: string): seq<HttpRule> {
    seq(|hosts|, i requires 0 <= i < |hosts| => HttpRule(TrimSpace(hosts[i]), name))
  }

  function CustomRules(rules: seq<IngressRule>): seq<HttpRule> {
    if rules == [] then []
    else CustomRules(rules[..|rules| - 1]) + HostRules(rules[|rules| - 1].hosts, rules[|rules| - 1].name)
  }

  function DefaultHost(app: string, hashID: string, port: int, domain: string): string {
    app + "-" + hashID + "-" + Itoa(port) + "." + domain
  }

  ghost function DefaultRules(app: string, hashID: string, rules: seq<IngressRule>, domain: string): seq<HttpRule> {
    seq(|rules|,
        i requires 0 <= i < |rules| => HttpRule(DefaultHost(app, hashID, rules[i].port, domain), rules[i].name))
  }

  /** A generated host lies under the domain it is generated for. */
  lemma DefaultHostUnderDomain(app: string, hashID: string, port: int, domain: string)
    requires domain != ""
    ensures UnderDomain(DefaultHost(app, hashID, port, domain), domain)
  {
    hide Itoa;
    var front := app + "-" + hashID + "-" + Itoa(port);
    assert DefaultHost(app, hashID, port, domain) == front + ("." + domain);
    ToLowerConcat(front, "." + domain);
    ToLowerConcat(".", domain);
    assert ToLower(".") == ".";
    SuffixOfConcat(ToLower(front), "." + ToLower(domain));
  }

  lemma DefaultHostsDistinct(app: string, hashID: string, p: int, q: int, domain: string)
    ensures DefaultHost(app, hashID, p, domain) == DefaultHost(app, hashID, q, domain) ==> p == q
  {
    hide Itoa;
    var front, back := app + "-" + hashID + "-", "." + domain;
    assert DefaultHost(app, hashID, p, domain) == front + (Itoa(p) + back);
    assert DefaultHost(app, hashID, q, domain) == front + (Itoa(q) + back);
    if front + (Itoa(p) + back) == front + (Itoa(q) + back) {
      assert Itoa(p) + back == (front + (Itoa(p) + back))[|front|..] == Itoa(q) + back;
      assert Itoa(p) == (Itoa(p) + back)[..|Itoa(p) + back| - |back|];
      assert Itoa(q) == (Itoa(q) + back)[..|Itoa(q) + back| - |back|];
      ItoaInjective(p, q);
    }
  }

  /** The hosts of one rule for the custom Ingress. With the hosts already checked, the duplicate
      test never fires. */
  method AddCustomHosts(hosts: seq<string>, name: string, seen: set<string>, ghost before: seq<string>)
    returns (r: Result<(seq<HttpRule>, set<string>), RouteError>)
    requires seen == Elements(before) && NoDup(before + TrimAll(hosts))
    ensures r == Ok((HostRules(hosts, name), Elements(before + TrimAll(hosts))))
  {
    hide TrimSpace;
    var hostSeen := seen;
    var out: seq<HttpRule> := [];
    var all := TrimAll(hosts);
    assert before + all[..0] == before;
    for i := 0 to |hosts|
      invariant hostSeen == Elements(before + all[..i])
      invariant out == HostRules(hosts, name)[..i]
    {
      var host := TrimSpace(hosts[i]);
      assert all[i] == host;
      assert before + all[..i + 1] == before + all[..i] + [host];
      assert before + all == before + all[..i + 1] + all[i + 1..];
      DistinctPrefix(before + all[..i + 1], all[i + 1..]);
      DistinctPrefix(before + all[..i], [host]);
      SnocNoDup(before + all[..i], host);
      if host in hostSeen {
        return Err(CustomHostDuplicated(host));
      }
      hostSeen := hostSeen + {host};
      out := out + [HttpRule(host, name)];
    }
    assert all[..|hosts|] == all && out == HostRules(hosts, name);
    return Ok((out, hostSeen));
  }

  lemma DistinctPrefix(s: seq<string>, t: seq<string>)
    requires NoDup(s + t)
    ensures NoDup(s)
  {
    forall i, j | 0 <= i < j < |s| ensures s[i] != s[j] {
      assert (s + t)[i] == s[i] && (s + t)[j] == s[j];
    }
  }

  method BuildCustomRules(rules: seq<IngressRule>, hostPort: map<int, int>, names: map<int, string>)
    returns (r: Result<(seq<HttpRule>, set<string>), RouteError>)
    requires NoDup(Hosts(rules)) && NamesPorts(names, rules, hostPort)
    ensures r == Ok((CustomRules(rules), Elements(Hosts(rules))))
  {
    var out: seq<HttpRule> := [];
    var seen: set<string> := {};
    for i := 0 to |rules|
      invariant out == CustomRules(rules[..i]) && seen == Elements(Hosts(rules[..i]))
    {
      hide HostRules, TrimAll, NoDup;
      assert rules[..i + 1][..i] == rules[..i];
      HostsPrefix(rules, i);
      HostsOfPrefix(rules, i + 1);
      var hosts := Hosts(rules[..i + 1]);
      assert Hosts(rules) == hosts + Hosts(rules)[|hosts|..];
      DistinctPrefix(hosts, Hosts(rules)[|hosts|..]);
      var portName := names[hostPort[rules[i].port]];
      var added := AddCustomHosts(rules[i].hosts, portName, seen, Hosts(rules[..i]));
      if added.Err? {
        return added;
      }
      out := out + added.value.0;
      seen := added.value.1;
    }
    assert rules[..|rules|] == rules;
    return Ok((out, seen));
  }

  /** The default Ingress. Once the rules are accepted, a generated host is never generated twice
      and never a custom host. */
  method BuildDefaultRules(app: string, hashID: string, rules: seq<IngressRule>, hostPort: map<int, int>,
                           names: map<int, string>,
                           domain: string, hasCustom: bool, customHosts: set<string>)
    returns (r: Result<seq<HttpRule>, RouteError>)
    requires domain != "" && RulesAccepted(rules, hostPort, domain) && NamesPorts(names, rules, hostPort)
    requires customHosts == Elements(Hosts(rules))
    ensures r == Ok(DefaultRules(app, hashID, rules, domain))
  {
    hide UnderDomain, RuleNameOk, Hosts, NoDup, DefaultHost;
    var out: seq<HttpRule> := [];
    var seen: set<string> := {};
    for i := 0 to |rules|
      invariant out == DefaultRules(app, hashID, rules, domain)[..i]
      invariant seen == set j | 0 <= j < i :: DefaultHost(app, hashID, rules[j].port, domain)
    {
      var portName := names[hostPort[rules[i].port]];
      var host := DefaultHost(app, hashID, rules[i].port, domain);
      if host in seen {
        var j :| 0 <= j < i && DefaultHost(app, hashID, rules[j].port, domain) == host;
        DefaultHostsDistinct(app, hashID, rules[j].port, rules[i].port, domain);
        return Err(DefaultHostDuplicated(host));
      }
      if hasCustom && host in customHosts {
        DefaultHostUnderDomain(app, hashID, rules[i].port, domain);
        return Err(DefaultHostCollides(host));
      }
      seen := seen + {host};
      out := out + [HttpRule(host, portName)];
    }
    assert out == DefaultRules(app, hashID, rules, domain);
    return Ok(out);
  }

  // ---------- the Service without ingress rules

  /** Every published host port, in ascending order, under the name p<port>. */
  ghost predicate PlainPorts(hostPort: map<int, int>, ports: seq<ServicePort>, hps: seq<int>) {
    && Elements(hps) == hostPort.Keys && |ports| == |hps|
    && (forall i, j :: 0 <= i < j < |hps| ==> hps[i] < hps[j])
    && forall i :: 0 <= i < |hps| ==>
         hps[i] in hostPort && ports[i] == ServicePort("p" + Itoa(hps[i]), Int32(hps[i]), Int32(hostPort[hps[i]]))
  }

  method BuildPlainPorts(hostPort: map<int, int>) returns (ports: seq<ServicePort>)
    ensures exists hps :: PlainPorts(hostPort, ports, hps)
  {
    hide Int32, Itoa;
    var visit := Enumerate(hostPort);
    var sorted := Sort((a: int, b: int) => a <= b, visit);
    SortedDistinct(visit, sorted);
    ports := [];
    for i := 0 to |sorted|
      invariant |ports| == i
      invariant forall j :: 0 <= j < i ==>
                  && sorted[j] in hostPort
                  && ports[j] == ServicePort("p" + Itoa(sorted[j]), Int32(sorted[j]), Int32(hostPort[sorted[j]]))
    {
      assert sorted[i] in Elements(sorted);
      ports := ports + [ServicePort("p" + Itoa(sorted[i]), Int32(sorted[i]), Int32(hostPort[sorted[i]]))];
    }
    assert PlainPorts(hostPort, ports, sorted);
  }

  lemma SortedDistinct(visit: seq<int>, sorted: seq<int>)
    requires NoDup(visit) && multiset(sorted) == multiset(visit) && Sorted((a: int, b: int) => a <= b, sorted)
    ensures Elements(sorted) == Elements(visit)
    ensures forall i, j :: 0 <= i < j < |sorted| ==> sorted[i] < sorted[j]
  {
    NoDupCount(visit);
    forall i, j | 0 <= i < j < |sorted| ensures sorted[i] < sorted[j] {
      MultiplicityOfPair(sorted, i, j);
    }
    assert forall x :: x in sorted <==> x in multiset(sorted);
    assert forall x :: x in visit <==> x in multiset(visit);
  }

  // ---------- the route of a request

  // ---------- what Kubernetes admits

  /** A port of a Service: named by a label, with a port number on both sides. */
  predicate PortOk(p: ServicePort) {
    IsDNS1123Label(p.name) && PortNumber(p.port) && PortNumber(p.targetPort)
  }

  predicate PortNumber(n: int) {
    1 <= n <= 65535
  }

  /** A port number has 16 bits and is not 0. */
  lemma PortNumberExactly(n: int)
    ensures PortNumber(n) <==> n != 0 && n / 0x1_0000 == 0
  {
  }

  /** A Service has ports, and no name or number twice among them. */
  ghost predicate Admissible(ports: seq<ServicePort>) {
    && ports != []
    && (forall i :: 0 <= i < |ports| ==> PortOk(ports[i]))
    && forall i, j :: 0 <= i < j < |ports| ==> ports[i].name != ports[j].name && ports[i].port != ports[j].port
  }

  predicate DoubleHyphen(s: string) {
    exists i :: 0 <= i < |s| - 1 && s[i] == '-' && s[i + 1] == '-'
  }

  /** The name of a port as the backend of an Ingress refers to it. */
  predicate BackendName(s: string) {
    && 1 <= |s| <= 15 && s[0] != '-' && s[|s| - 1] != '-' && !DoubleHyphen(s)
    && (forall i :: 0 <= i < |s| ==> LowerAlnum(s[i]) || s[i] == '-')
    && exists i :: 0 <= i < |s| && 'a' <= s[i] <= 'z'
  }

  predicate IsIPv4(s: string) {
    var parts := Split(s, '.');
    |parts| == 4 && forall k :: 0 <= k < 4 ==> ByteNumeral(parts[k])
  }

  predicate ByteNumeral(s: string) {
    s != "" && (forall i :: 0 <= i < |s| ==> IsDigit(s[i])) && DigitsValue(s) <= 255
  }

  /** The host of an Ingress entry: none at all, or a lower-case domain name, perhaps behind one wildcard,
      that is no IP address. */
  predicate IngressHost(h: string) {
    h == "" || (|h| <= 253 && LabelParts(if HasPrefix(h, "*.") then h[2..] else h) && !IsIPv4(h))
  }

  ghost predicate IngressOk(entries: seq<HttpRule>) {
    forall k :: 0 <= k < |entries| ==> IngressHost(entries[k].host) && BackendName(entries[k].backendPort)
  }

  // ---------- the route of a request

  /** A port of that name has the target. */
  ghost predicate Leads(ports: seq<ServicePort>, name: string, target: int) {
    exists i :: 0 <= i < |ports| && ports[i].name == name && ports[i].targetPort == target
  }

  /** The name of rule i leads to the container port its host port is mapped to, and nowhere else. */
  ghost predicate Routed(rules: seq<IngressRule>, i: nat, hostPort: map<int, int>)
    requires i < |rules| && forall k :: 0 <= k < |rules| ==> rules[k].port in hostPort
  {
    forall t :: Leads(RulePorts(rules, hostPort), rules[i].name, t) <==> t == Int32(hostPort[rules[i].port])
  }

  /** The rules and their container ports are in order for a Service: distinct names, none ending in a
      hyphen, and, once truncated to 32 bits, distinct port numbers and container ports in range. */
  ghost predicate ServiceFits(rules: seq<IngressRule>, hostPort: map<int, int>)
    requires forall k :: 0 <= k < |rules| ==> rules[k].port in hostPort
  {
    && (forall i :: 0 <= i < |rules| ==> RuleFitsPort(rules[i], hostPort[rules[i].port]))
    && forall i, j :: 0 <= i < j < |rules| ==>
         rules[i].name != rules[j].name && Int32(rules[i].port) != Int32(rules[j].port)
  }

  predicate RuleFitsPort(rule: IngressRule, container: int) {
    !HasSuffix(rule.name, "-") && PortNumber(Int32(rule.port)) && PortNumber(Int32(container))
  }

  /** An accepted name that does not end in a hyphen is a label, and names a backend if it has no two
      hyphens in a row. */
  lemma NameForms(name: string)
    requires RuleNameOk(name)
    ensures IsDNS1123Label(name) <==> !HasSuffix(name, "-")
    ensures BackendName(name) <==> !HasSuffix(name, "-") && !DoubleHyphen(name)
  {
    assert name[|name| - 1..] == [name[|name| - 1]];
    assert forall i :: 0 <= i < |name| ==> LowerAlnum(name[i]) || name[i] == '-';
  }

  ghost predicate NamesOk(rules: seq<IngressRule>, hostPort: map<int, int>) {
    forall k :: 0 <= k < |rules| ==> RuleNameOk(rules[k].name) && rules[k].port in hostPort
  }

  /** Main result on names: the Service made from rules that Convert accepts is admissible exactly when
      they fit a Service, and then every rule is routed to its container port. Convert checks neither
      that names are distinct and end well nor that numbers are in range. */
  lemma RoutedExactly(rules: seq<IngressRule>, hostPort: map<int, int>)
    requires rules != [] && NamesOk(rules, hostPort)
    ensures Admissible(RulePorts(rules, hostPort)) <==> ServiceFits(rules, hostPort)
    ensures ServiceFits(rules, hostPort) ==> forall i :: 0 <= i < |rules| ==> Routed(rules, i, hostPort)
  {
    hide Int32, RuleNameOk, IsDNS1123Label, HasSuffix, PortNumber;
    var ports := RulePorts(rules, hostPort);
    forall i | 0 <= i < |rules|
      ensures ports[i].name == rules[i].name && ports[i].port == Int32(rules[i].port)
      ensures PortOk(ports[i]) <==> RuleFitsPort(rules[i], hostPort[rules[i].port])
    {
      NameForms(rules[i].name);
    }
    hide PortOk, RuleFitsPort;
    if Admissible(ports) {
      forall i, j | 0 <= i < j < |rules|
        ensures rules[i].name != rules[j].name && Int32(rules[i].port) != Int32(rules[j].port)
      {
        assert ports[i].name != ports[j].name;
      }
    }
    if ServiceFits(rules, hostPort) {
      forall i | 0 <= i < |rules| ensures Routed(rules, i, hostPort) {
        RoutedOnce(rules, i, hostPort);
      }
    }
  }

  lemma RoutedOnce(rules: seq<IngressRule>, i: nat, hostPort: map<int, int>)
    requires i < |rules| && forall k :: 0 <= k < |rules| ==> rules[k].port in hostPort
    requires ServiceFits(rules, hostPort)
    ensures Routed(rules, i, hostPort)
  {
    hide Int32, RuleFitsPort;
    var ports := RulePorts(rules, hostPort);
    assert ports[i].targetPort == Int32(hostPort[rules[i].port]);
    assert forall j :: 0 <= j < |rules| ==> ports[j].name == rules[j].name;
  }

  /** Two host ports of rules on one container port: whatever the rules are called, Convert either
      refuses them or makes a Service that Kubernetes refuses. */
  lemma SharedPortRefused(rules: seq<IngressRule>, hostPort: map<int, int>, domain: string, i: nat, j: nat)
    requires RulesAccepted(rules, hostPort, domain)
    requires i < j < |rules| && hostPort[rules[i].port] == hostPort[rules[j].port]
    ensures !Admissible(RulePorts(rules, hostPort))
  {
    hide Int32, UnderDomain, RuleNameOk, Hosts, NoDup, RuleFitsPort;
    RoutedExactly(rules, hostPort);
    assert rules[i].name == rules[j].name;
  }

  lemma WebIsName()
    ensures RuleNameOk("web")
  {
  }

  /** Both ways to repeat a name occur: two accepted rules of one name on two container ports, and on
      one, where the name even leads to the right target. */
  lemma EqualNamesRefused(a: int, b: int, p: int, q: int)
    requires 0 < a && 0 < b && a != b && 0 < p < 0x1_0000_0000 && 0 < q < 0x1_0000_0000
    ensures var rules := [IngressRule("web", a, []), IngressRule("web", b, [])];
            var hostPort := map[a := p, b := q];
            && RulesAccepted(rules, hostPort, "") && !Admissible(RulePorts(rules, hostPort))
            && (p == q ==> Routed(rules, 0, hostPort) && Routed(rules, 1, hostPort))
  {
    hide Int32, UnderDomain;
    var rules := [IngressRule("web", a, []), IngressRule("web", b, [])];
    var hostPort := map[a := p, b := q];
    WebIsName();
    hide RuleNameOk, PortOk;
    var first := [IngressRule("web", a, [])];
    assert first[..0] == [] && rules[..1] == first;
    assert TrimAll([]) == [];
    assert Hosts(first) == Hosts([]) + TrimAll([]) == [];
    assert Hosts(rules) == Hosts(first) + TrimAll([]) == [];
    var ports := RulePorts(rules, hostPort);
    assert ports[0].name == "web" && ports[1].name == "web";
    assert ports[0].targetPort == Int32(p) && ports[1].targetPort == Int32(q);
  }

  /** One rule is enough: Convert accepts a name that ends in a hyphen and a port number out of range,
      and makes a Service that Kubernetes refuses; and it accepts a name with two hyphens in a row and
      a host with a capital letter, and makes an Ingress that Kubernetes refuses. */
  lemma FormsRefused(p: int)
    ensures RulesAccepted([IngressRule("w-", 80, [])], map[80 := p], "")
            && !Admissible(RulePorts([IngressRule("w-", 80, [])], map[80 := p]))
    ensures RulesAccepted([IngressRule("w", 70000, [])], map[70000 := p], "")
            && !Admissible(RulePorts([IngressRule("w", 70000, [])], map[70000 := p]))
    ensures RulesAccepted([IngressRule("w--b", 80, ["a"])], map[80 := p], "")
            && !IngressOk(CustomRules([IngressRule("w--b", 80, ["a"])]))
    ensures RulesAccepted([IngressRule("w", 80, ["A"])], map[80 := p], "")
            && !IngressOk(CustomRules([IngressRule("w", 80, ["A"])]))
  {
    hide RuleNameOk, TrimSpace, IngressHost, BackendName, IsDNS1123Label, CustomRules, Hosts;
    BadForms();
    OneRule("w-", 80, [], p);
    OneRule("w", 70000, [], p);
    OneRule("w--b", 80, ["a"], p);
    OneRule("w", 80, ["A"], p);
  }

  /** A single rule with at most one host, if that needs no trimming. */
  lemma OneRule(name: string, port: int, hosts: seq<string>, p: int)
    requires RuleNameOk(name) && |hosts| <= 1 && forall h :: h in hosts ==> TrimSpace(h) == h
    ensures var rules := [IngressRule(name, port, hosts)];
            && RulesAccepted(rules, map[port := p], "")
            && (Admissible(RulePorts(rules, map[port := p])) ==> PortOk(ServicePort(name, Int32(port), Int32(p))))
            && (hosts != [] && IngressOk(CustomRules(rules)) ==> IngressHost(hosts[0]) && BackendName(name))
  {
    hide TrimSpace, RuleNameOk, Int32, IngressHost, BackendName, PortOk;
    var rules := [IngressRule(name, port, hosts)];
    assert rules[..0] == [];
    assert Hosts(rules) == Hosts([]) + TrimAll(hosts) == hosts;
    assert RulePorts(rules, map[port := p])[0] == ServicePort(name, Int32(port), Int32(p));
    assert CustomRules(rules) == CustomRules([]) + HostRules(hosts, name);
    if hosts != [] {
      assert CustomRules(rules)[0] == HttpRule(hosts[0], name);
    }
  }

  lemma BadForms()
    ensures RuleNameOk("w") && RuleNameOk("w-") && RuleNameOk("w--b")
    ensures !IsDNS1123Label("w-") && !BackendName("w--b") && !IngressHost("A")
    ensures TrimSpace("a") == "a" && TrimSpace("A") == "A"
  {
    hide IsIPv4;
    assert "w-"[1] == '-' && "w--b"[1] == '-' && "w--b"[2] == '-';
    TrimmedAlready("a");
    TrimmedAlready("A");
    SplitOfFree("A", '.');
    assert !LabelShape(Split("A", '.')[0]);
  }

  /** A generated host, for an app named by a label: accepted exactly when the domain is lower-case and
      well-formed and the whole is not too long. */
  lemma DefaultHostForm(app: string, hashID: string, port: int, domain: string)
    requires LabelShape(app) && hashID != "" && (forall i :: 0 <= i < |hashID| ==> LowerAlnum(hashID[i])) && port > 0
    ensures var host := DefaultHost(app, hashID, port, domain);
            IngressHost(host) <==> |host| <= 253 && LabelParts(domain)
  {
    var front := app + "-" + hashID + "-" + Itoa(port);
    var host := DefaultHost(app, hashID, port, domain);
    FrontShape(app, hashID, port);
    assert host == front + ['.'] + domain;
    SplitAtSeparator(front, domain, '.');
    hide Itoa, LabelShape, Split;
    assert Split(host, '.')[0] == front && Split(host, '.')[1..] == Split(domain, '.');
    assert host[0] == front[0] != '*';
    assert !ByteNumeral(front) by {
      assert front[|app|] == '-';
    }
    assert LabelParts(host) <==> LabelParts(domain) by {
      FirstPart(Split(host, '.'));
      hide LowerAlnum;
    }
  }

  lemma FrontShape(app: string, hashID: string, port: int)
    requires LabelShape(app) && hashID != "" && (forall i :: 0 <= i < |hashID| ==> LowerAlnum(hashID[i])) && port > 0
    ensures var front := app + "-" + hashID + "-" + Itoa(port);
            && LabelShape(front) && Free(front, '.') && front[0] != '*'
            && |app| < |front| && front[|app|] == '-'
  {
    var number := Itoa(port);
    var front := app + "-" + hashID + "-" + number;
    hide Decimal;
    assert forall i :: 0 <= i < |number| ==> IsDigit(number[i]);
    assert front[|front| - 1] == number[|number| - 1] && front[0] == app[0];
  }

  lemma FirstPart(parts: seq<string>)
    requires parts != [] && LabelShape(parts[0])
    ensures (forall k :: 0 <= k < |parts| ==> LabelShape(parts[k])) <==>
            forall k :: 0 <= k < |parts[1..]| ==> LabelShape(parts[1..][k])
  {
    hide LabelShape;
    if forall k :: 0 <= k < |parts[1..]| ==> LabelShape(parts[1..][k]) {
      forall k | 0 <= k < |parts| ensures LabelShape(parts[k]) {
        if k > 0 {
          assert parts[1..][k - 1] == parts[k];
        }
      }
    }
  }

  /** The container a target port belongs to lists it. */
  ghost predicate Lists(s: Service, targetPort: int) {
    exists i :: 0 <= i < |s.ports| && Int32(s.ports[i].target) == targetPort
  }

  /** Main result on containers: the container port of a host port is listed by exactly one
      service's container, and that service published the host port. */
  lemma OnePublisher(services: map<string, Service>, m: PortMaps, hp: int)
    requires PortsAccepted(services) && Reflects(m, AllPublished(services)) && hp in m.hostPort
    ensures 0 <= m.hostPort[hp] < 0x1_0000_0000
    ensures exists n :: n in services && Published(n, hp, m.hostPort[hp]) in AllPublished(services)
                     && forall s :: s in services ==> (Lists(services[s], Int32(m.hostPort[hp])) <==> s == n)
  {
    hide Int32, HostPort;
    var all := AllPublished(services);
    var p :| p in all && p.host == hp;
    var cp := m.hostPort[hp];
    assert p.container == cp;
    var i :| p.service in services
      && 0 <= i < |services[p.service].ports|
      && HostPort(services[p.service].ports[i]).Some?
      && p == Published(p.service, HostPort(services[p.service].ports[i]).value, services[p.service].ports[i].target);
    forall s | s in services ensures Lists(services[s], Int32(cp)) <==> s == p.service {
      if Lists(services[s], Int32(cp)) {
        var k :| 0 <= k < |services[s].ports| && Int32(services[s].ports[k].target) == Int32(cp);
        Int32Injective(services[s].ports[k].target, cp);
        assert HostPort(services[s].ports[k]).Some?;
        var q := Published(s, HostPort(services[s].ports[k]).value, services[s].ports[k].target);
        assert q in all;
      }
      if s == p.service {
        assert Int32(services[s].ports[i].target) == Int32(cp);
      }
    }
  }

  /** The maps are determined by what is published, not by the order of the visits. */
  lemma MapsUnique(m: PortMaps, m': PortMaps, t: set<Published>)
    requires Reflects(m, t) && Reflects(m', t)
    ensures m == m'
  {
    forall h | h in m.hostPort || h in m'.hostPort
      ensures h in m.hostPort && h in m'.hostPort && m.hostPort[h] == m'.hostPort[h]
    {
      var p :| p in t && p.host == h;
    }
    forall c | c in m.owner || c in m'.owner
      ensures c in m.owner && c in m'.owner && m.owner[c] == m'.owner[c]
    {
      var p :| p in t && p.container == c;
    }
    assert m.hostPort == m'.hostPort && m.owner == m'.owner;
  }

  /** The published ports are in order for a Service: truncated to 32 bits, they are distinct and in
      range, and so are their container ports. */
  ghost predicate PlainFits(hostPort: map<int, int>) {
    && (forall hp :: hp in hostPort ==> PortNumber(Int32(hp)) && PortNumber(Int32(hostPort[hp])))
    && forall hp, hq :: hp in hostPort && hq in hostPort && hp != hq ==> Int32(hp) != Int32(hq)
  }

  /** Without ingress rules the Service is admissible exactly when the published ports fit it, and every
      host port has a port name of its own that leads to its container port. */
  lemma PlainPortsRoute(hostPort: map<int, int>, ports: seq<ServicePort>, hps: seq<int>, hp: int)
    requires PlainPorts(hostPort, ports, hps) && hp in hostPort
    requires forall h :: h in hostPort ==> 0 < h <= MAX_INT64
    ensures Admissible(ports) <==> PlainFits(hostPort)
    ensures forall t :: Leads(ports, "p" + Itoa(hp), t) <==> t == Int32(hostPort[hp])
  {
    hide Int32, Itoa, PortNumber, IsDNS1123Label;
    forall i | 0 <= i < |ports|
      ensures hps[i] in hostPort
      ensures PortOk(ports[i]) <==> PortNumber(Int32(hps[i])) && PortNumber(Int32(hostPort[hps[i]]))
    {
      assert hps[i] in Elements(hps);
      PlainNameForm(hps[i]);
    }
    hide PortOk;
    forall i, j | 0 <= i < |ports| && 0 <= j < |ports| && i != j ensures ports[i].name != ports[j].name {
      PlainNamesDiffer(hps[i], hps[j]);
    }
    assert hp in Elements(hps);
    var i :| 0 <= i < |hps| && hps[i] == hp;
    assert ports[i].name == "p" + Itoa(hp) && ports[i].targetPort == Int32(hostPort[hp]);
    PlainAdmissible(hostPort, ports, hps);
  }

  lemma PlainAdmissible(hostPort: map<int, int>, ports: seq<ServicePort>, hps: seq<int>)
    requires PlainPorts(hostPort, ports, hps) && hps != []
    requires forall i :: 0 <= i < |ports| ==>
               && hps[i] in hostPort
               && (PortOk(ports[i]) <==> PortNumber(Int32(hps[i])) && PortNumber(Int32(hostPort[hps[i]])))
    requires forall i, j :: 0 <= i < |ports| && 0 <= j < |ports| && i != j ==> ports[i].name != ports[j].name
    ensures Admissible(ports) <==> PlainFits(hostPort)
  {
    hide Int32, Itoa, PortNumber, PortOk;
    if Admissible(ports) {
      forall hp | hp in hostPort ensures PortNumber(Int32(hp)) && PortNumber(Int32(hostPort[hp])) {
        assert hp in Elements(hps);
        var i :| 0 <= i < |hps| && hps[i] == hp;
        assert PortOk(ports[i]);
      }
      forall hp, hq | hp in hostPort && hq in hostPort && hp != hq ensures Int32(hp) != Int32(hq) {
        assert hp in Elements(hps) && hq in Elements(hps);
        var i :| 0 <= i < |hps| && hps[i] == hp;
        var j :| 0 <= j < |hps| && hps[j] == hq;
        assert ports[i].port != ports[j].port;
      }
    }
    if PlainFits(hostPort) {
      forall i, j | 0 <= i < j < |ports| ensures ports[i].port != ports[j].port {
        assert hps[i] != hps[j];
      }
    }
  }

  lemma EnoughDigits()
    ensures MAX_INT64 < Tens(19)
  {
    assert Tens(5) == 100_000 && Tens(10) == 100_000 * Tens(5) && Tens(15) == 100_000 * Tens(10);
    assert Tens(19) == 10_000 * Tens(15);
  }

  lemma PlainNameForm(hp: int)
    requires 0 < hp <= MAX_INT64
    ensures IsDNS1123Label("p" + Itoa(hp))
  {
    EnoughDigits();
    DecimalLength(hp, 19);
    hide Decimal, Tens;
    var name := "p" + Itoa(hp);
    assert forall i :: 0 < i < |name| ==> IsDigit(name[i]);
  }

  lemma PlainNamesDiffer(p: int, q: int)
    ensures "p" + Itoa(p) == "p" + Itoa(q) ==> p == q
  {
    hide Itoa;
    assert ("p" + Itoa(p))[1..] == Itoa(p) && ("p" + Itoa(q))[1..] == Itoa(q);
    ItoaInjective(p, q);
  }
}
