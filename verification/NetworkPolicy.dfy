/** Network policies: the rules a document states, the check and copy ToModels makes of them
    (config/crd/ops/v1alpha1/sink_tomodels.go), the Kubernetes policy Convert generates from the
    copy (adapters/kube/converter.go), and the traffic each of the three admits. */
module NetworkPolicy {
  import opened Text
  import opened Sorting

  datatype Requirement = Requirement(key: string, operator: string, values: seq<string>)
  datatype Selector = Selector(matchLabels: map<string, string>, expressions: seq<Requirement>)
  datatype Peer = Peer(selector: Option<Selector>)
  datatype Port = Port(protocol: string, port: int)

  /** An ingress rule, in a document or in the domain model: the two types have the same fields. */
  datatype Rule = Rule(from: seq<Peer>, ports: seq<Port>)

  /** A generated rule: peers are namespace selectors and ports are 32-bit. */
  datatype PolicyRule = PolicyRule(from: seq<Selector>, ports: seq<Port>)

  datatype RuleError =
    | EmptyRule
    | PortsWithoutFrom
    | MissingSelector
    | EmptySelector
    | UnknownOperator(operator: string)
    | ValuesForbidden
    | ValuesRequired
    | UnknownProtocol(protocol: string)
    | PortOutOfRange(port: int)

  type Labels = map<string, string>

  // ---------- meaning: which (namespace labels, protocol, port) a rule admits

  predicate Satisfies(labels: Labels, r: Requirement) {
    match r.operator
    case "In" => r.key in labels && labels[r.key] in r.values
    case "NotIn" => r.key !in labels || labels[r.key] !in r.values
    case "Exists" => r.key in labels
    case "DoesNotExist" => r.key !in labels
    case _ => false
  }

  /** The four operators of label selectors; any other selects nothing. */
  lemma OperatorsMean(labels: Labels, r: Requirement)
    ensures r.operator == "In" ==> (Satisfies(labels, r) <==> exists v :: v in r.values && (r.key, v) in labels.Items)
    ensures r.operator == "NotIn" ==>
              (Satisfies(labels, r) <==> forall v :: v in r.values ==> (r.key, v) !in labels.Items)
    ensures r.operator == "Exists" ==> (Satisfies(labels, r) <==> r.key in labels.Keys)
    ensures r.operator == "DoesNotExist" ==> (Satisfies(labels, r) <==> r.key !in labels.Keys)
    ensures r.operator !in {"In", "NotIn", "Exists", "DoesNotExist"} ==> !Satisfies(labels, r)
  {
    assert forall v :: (r.key, v) in labels.Items <==> r.key in labels && labels[r.key] == v;
  }

  ghost predicate Selects(s: Selector, labels: Labels) {
    && (forall k :: k in s.matchLabels ==> k in labels && labels[k] == s.matchLabels[k])
    && (forall i :: 0 <= i < |s.expressions| ==> Satisfies(labels, s.expressions[i]))
  }

  /** A port is for its protocol, and for TCP when it names none. */
  predicate Names(p: Port, protocol: string) {
    if p.protocol == "" then protocol == "TCP" else protocol == p.protocol
  }

  function Protocol(p: Port): string {
    if p.protocol == "" then "TCP" else p.protocol
  }

  /** The traffic a rule of an app's document asks for. */
  ghost predicate Asks(rule: Rule, labels: Labels, protocol: string, port: int) {
    && (rule.from == [] ||
        exists i :: 0 <= i < |rule.from| && rule.from[i].selector.Some? && Selects(rule.from[i].selector.value, labels))
    && (rule.ports == [] ||
        exists j :: 0 <= j < |rule.ports| && Names(rule.ports[j], protocol) && rule.ports[j].port == port)
  }

  /** The traffic Kubernetes lets through under a generated rule: no peers means every source,
      no ports means every port. */
  ghost predicate RuleAdmits(rule: PolicyRule, labels: Labels, protocol: string, port: int) {
    && (rule.from == [] || exists i :: 0 <= i < |rule.from| && Selects(rule.from[i], labels))
    && (rule.ports == [] || exists j :: 0 <= j < |rule.ports| && rule.ports[j] == Port(protocol, port))
  }

  ghost predicate PolicyAdmits(policy: seq<PolicyRule>, labels: Labels, protocol: string, port: int) {
    exists i :: 0 <= i < |policy| && RuleAdmits(policy[i], labels, protocol, port)
  }

  // ---------- ToModels: checking and copying the rules

  predicate RequirementOk(r: Requirement) {
    || (r.operator in {"Exists", "DoesNotExist"} && r.values == [])
    || (r.operator in {"In", "NotIn"} && r.values != [])
  }

  predicate SelectorEmpty(s: Selector) {
    |s.matchLabels| == 0 && |s.expressions| == 0
  }

  /** Accepted requirements can be met and can be missed; the others are refused: no values where the
      operator compares, values where it does not, or no operator that is known. */
  lemma RequirementExactly(r: Requirement)
    ensures RequirementOk(r) ==>
              (exists labels: Labels :: Satisfies(labels, r)) && exists labels: Labels :: !Satisfies(labels, r)
    ensures r.operator in {"In", "NotIn"} ==> (RequirementOk(r) <==> |r.values| > 0)
    ensures r.operator in {"Exists", "DoesNotExist"} ==> (RequirementOk(r) <==> |r.values| == 0)
    ensures r.operator !in {"In", "NotIn", "Exists", "DoesNotExist"} ==> !RequirementOk(r)
  {
    var none: Labels := map[];
    if r.operator in {"In", "NotIn"} && r.values != [] {
      var some: Labels := map[r.key := r.values[0]];
      assert Satisfies(some, r) <==> r.operator == "In";
      assert Satisfies(none, r) <==> r.operator == "NotIn";
    } else {
      var some: Labels := map[r.key := ""];
      assert r.operator in {"Exists", "DoesNotExist"} ==> (Satisfies(some, r) <==> r.operator == "Exists");
      assert r.operator in {"Exists", "DoesNotExist"} ==> (Satisfies(none, r) <==> r.operator == "DoesNotExist");
    }
  }

  /** An empty selector selects every namespace, and one with accepted requirements that is not empty
      does not: so no accepted peer admits everything. */
  lemma EmptySelectsAll(s: Selector)
    requires forall k :: 0 <= k < |s.expressions| ==> RequirementOk(s.expressions[k])
    ensures SelectorEmpty(s) <==> forall labels: Labels :: Selects(s, labels)
  {
    hide RequirementOk, Satisfies;
    assert |s.matchLabels| == 0 <==> s.matchLabels == map[];
    if s.matchLabels != map[] {
      var k :| k in s.matchLabels;
      var none: Labels := map[];
      assert !Selects(s, none);
    } else if s.expressions != [] {
      RequirementExactly(s.expressions[0]);
      var labels: Labels :| !Satisfies(labels, s.expressions[0]);
      assert !Selects(s, labels);
    }
  }

  /** A port is for one of the three protocols, or for none named, and has a number of 16 bits but 0. */
  lemma PortExactly(p: Port)
    ensures PortOk(p) <==> p.protocol in ["", "TCP", "UDP", "SCTP"] && 0 < p.port < 0x1_0000
  {
  }

  predicate PeerOk(p: Peer) {
    && p.selector.Some? && !SelectorEmpty(p.selector.value)
    && forall k :: 0 <= k < |p.selector.value.expressions| ==> RequirementOk(p.selector.value.expressions[k])
  }

  predicate PortOk(p: Port) {
    p.protocol in {"", "TCP", "UDP", "SCTP"} && 1 <= p.port <= 65535
  }

  predicate RuleOk(rule: Rule) {
    && rule.from != []
    && (forall i :: 0 <= i < |rule.from| ==> PeerOk(rule.from[i]))
    && (forall j :: 0 <= j < |rule.ports| ==> PortOk(rule.ports[j]))
  }

  /** The domain copy of a rule: protocols defaulted, everything else kept. */
  function DomainRule(rule: Rule): Rule {
    Rule(rule.from,
         seq(|rule.ports|, j requires 0 <= j < |rule.ports| => Port(Protocol(rule.ports[j]), rule.ports[j].port)))
  }

  method ConvertPeer(p: Peer) returns (r: Result<Peer, RuleError>)
    ensures r.Ok? <==> PeerOk(p)
    ensures r.Ok? ==> r.value == p
  {
    if p.selector.None? {
      return Err(MissingSelector);
    }
    var s := p.selector.value;
    if |s.matchLabels| == 0 && |s.expressions| == 0 {
      return Err(EmptySelector);
    }
    var copied: seq<Requirement> := [];
    for k := 0 to |s.expressions|
      invariant copied == s.expressions[..k]
      invariant forall i :: 0 <= i < k ==> RequirementOk(s.expressions[i])
    {
      var e := s.expressions[k];
      if e.operator !in {"In", "NotIn", "Exists", "DoesNotExist"} {
        return Err(UnknownOperator(e.operator));
      }
      if e.operator in {"Exists", "DoesNotExist"} && |e.values| > 0 {
        return Err(ValuesForbidden);
      }
      if e.operator in {"In", "NotIn"} && |e.values| == 0 {
        return Err(ValuesRequired);
      }
      copied := copied + [Requirement(e.key, e.operator, e.values)];
    }
    assert copied == s.expressions;
    return Ok(Peer(Some(Selector(s.matchLabels, copied))));
  }

  method ConvertPort(p: Port) returns (r: Result<Port, RuleError>)
    ensures r.Ok? <==> PortOk(p)
    ensures r.Ok? ==> r.value == Port(Protocol(p), p.port)
  {
    var protocol := p.protocol;
    if protocol == "" {
      protocol := "TCP";
    } else if protocol != "TCP" && protocol != "UDP" && protocol != "SCTP" {
      return Err(UnknownProtocol(protocol));
    }
    if p.port < 1 || p.port > 65535 {
      return Err(PortOutOfRange(p.port));
    }
    return Ok(Port(protocol, p.port));
  }

  method ConvertRule(rule: Rule) returns (r: Result<Rule, RuleError>)
    ensures r.Ok? <==> RuleOk(rule)
    ensures r.Ok? ==> r.value == DomainRule(rule)
  {
    if rule.from == [] && rule.ports == [] {
      return Err(EmptyRule);
    }
    if rule.ports != [] && rule.from == [] {
      return Err(PortsWithoutFrom);
    }
    var from: seq<Peer> := [];
    for i := 0 to |rule.from|
      invariant from == rule.from[..i]
      invariant forall k :: 0 <= k < i ==> PeerOk(rule.from[k])
    {
      var peer := ConvertPeer(rule.from[i]);
      if peer.Err? {
        return Err(peer.error);
      }
      from := from + [peer.value];
    }
    var ports: seq<Port> := [];
    for j := 0 to |rule.ports|
      invariant ports == DomainRule(rule).ports[..j]
      invariant forall k :: 0 <= k < j ==> PortOk(rule.ports[k])
    {
      var port := ConvertPort(rule.ports[j]);
      if port.Err? {
        return Err(port.error);
      }
      ports := ports + [port.value];
    }
    return Ok(Rule(from, ports));
  }

  ghost predicate RulesOk(rules: seq<Rule>) {
    forall i :: 0 <= i < |rules| ==> RuleOk(rules[i])
  }

  function DomainRules(rules: seq<Rule>): seq<Rule> {
    seq(|rules|, i requires 0 <= i < |rules| => DomainRule(rules[i]))
  }

  /** The rule part of ToModels, the same for apps and boxes: all rules copied, or the first fault. */
  method ConvertRules(rules: seq<Rule>) returns (r: Result<seq<Rule>, RuleError>)
    ensures r.Ok? <==> RulesOk(rules)
    ensures r.Ok? ==> r.value == DomainRules(rules)
  {
    var out: seq<Rule> := [];
    for i := 0 to |rules|
      invariant out == DomainRules(rules)[..i]
      invariant forall k :: 0 <= k < i ==> RuleOk(rules[k])
    {
      var rule := ConvertRule(rules[i]);
      if rule.Err? {
        return Err(rule.error);
      }
      out := out + [rule.value];
    }
    return Ok(out);
  }

  // ---------- Convert: generating the policy

  const NAME_LABEL := "kubernetes.io/metadata.name"

  ghost function DefaultNamespaces(nsName: string, ingressNs: string): set<string> {
    {nsName, "kube-system"} + if ingressNs == "" then {} else {ingressNs}
  }

  /** The labels of the app's own namespace, of kube-system or of the ingress controller's. */
  predicate FromDefault(labels: Labels, nsName: string, ingressNs: string) {
    "kubernetes.io/metadata.name" in labels
    && var name := labels["kubernetes.io/metadata.name"];
       name == nsName || name == "kube-system" || (name == ingressNs && ingressNs != "")
  }

  lemma FromDefaultExactly(labels: Labels, nsName: string, ingressNs: string)
    ensures FromDefault(labels, nsName, ingressNs) <==>
            NAME_LABEL in labels && labels[NAME_LABEL] in DefaultNamespaces(nsName, ingressNs)
  {
  }

  /** The namespaces every policy admits: the app's own, kube-system and the ingress controller's. */
  method NamespaceValues(nsName: string, ingressNs: string) returns (values: seq<string>)
    ensures NoDup(values) && Elements(values) == DefaultNamespaces(nsName, ingressNs)
  {
    values := [nsName];
    var seen := {nsName};
    var others := ["kube-system", ingressNs];
    for i := 0 to 2
      invariant NoDup(values) && Elements(values) == seen
      invariant seen == {nsName} + (if i > 0 then {"kube-system"} else {})
                                 + (if i > 1 && ingressNs != "" then {ingressNs} else {})
    {
      var n := others[i];
      if n == "" || n in seen {
        continue;
      }
      assert forall k :: 0 <= k < |values| ==> values[k] in Elements(values);
      assert Elements(values + [n]) == Elements(values) + {n};
      seen := seen + {n};
      values := values + [n];
    }
  }

  /** Peers of a generated rule: a peer without a selector, or with an empty one, is skipped. */
  function PolicyPeers(from: seq<Peer>): seq<Selector> {
    if from == [] then []
    else
      var rest := PolicyPeers(from[1..]);
      match from[0].selector
      case None => rest
      case Some(s) => if SelectorEmpty(s) then rest else [s] + rest
  }

  function PolicyPorts(ports: seq<Port>): seq<Port> {
    seq(|ports|, j requires 0 <= j < |ports| => Port(Protocol(ports[j]), Int32(ports[j].port)))
  }

  function PolicyRules(rules: seq<Rule>): seq<PolicyRule> {
    if rules == [] then []
    else
      var rule := PolicyRule(PolicyPeers(rules[0].from), PolicyPorts(rules[0].ports));
      if rule.from == [] && rule.ports == [] then PolicyRules(rules[1..]) else [rule] + PolicyRules(rules[1..])
  }

  /** Whatever the rules, exactly the selectors that are not empty become peers. */
  lemma {:induction false} PeersExactly(from: seq<Peer>, s: Selector)
    ensures s in PolicyPeers(from) <==> !SelectorEmpty(s) && exists p :: p in from && p.selector == Some(s)
  {
    hide SelectorEmpty;
    if from != [] {
      PeersExactly(from[1..], s);
      assert forall p :: p in from <==> p == from[0] || p in from[1..] by {
        assert from == [from[0]] + from[1..];
      }
    }
  }

  /** Whatever the rules, none of the generated ones is open to every source and every port. */
  lemma {:induction false} NoOpenRule(rules: seq<Rule>)
    ensures forall i :: 0 <= i < |PolicyRules(rules)| ==>
              PolicyRules(rules)[i].from != [] || PolicyRules(rules)[i].ports != []
    ensures |PolicyRules(rules)| <= |rules|
  {
    if rules != [] {
      NoOpenRule(rules[1..]);
    }
  }

  lemma {:induction false} PolicyPeersSnoc(from: seq<Peer>, p: Peer)
    ensures PolicyPeers(from + [p]) == PolicyPeers(from) + PolicyPeers([p])
  {
    if from == [] {
      assert from + [p] == [p];
    } else {
      assert (from + [p])[1..] == from[1..] + [p];
      PolicyPeersSnoc(from[1..], p);
    }
  }

  lemma {:induction false} PolicyRulesSnoc(rules: seq<Rule>, r: Rule)
    ensures PolicyRules(rules + [r]) == PolicyRules(rules) + PolicyRules([r])
  {
    if rules == [] {
      assert rules + [r] == [r];
    } else {
      assert (rules + [r])[1..] == rules[1..] + [r];
      PolicyRulesSnoc(rules[1..], r);
    }
  }

  method BuildPeers(from: seq<Peer>) returns (peers: seq<Selector>)
    ensures peers == PolicyPeers(from)
  {
    peers := [];
    for i := 0 to |from|
      invariant peers == PolicyPeers(from[..i])
    {
      assert from[..i + 1] == from[..i] + [from[i]];
      PolicyPeersSnoc(from[..i], from[i]);
      assert [from[i]][1..] == [] && PolicyPeers([]) == [];
      if from[i].selector.Some? {
        var s := from[i].selector.value;
        if |s.matchLabels| == 0 && |s.expressions| == 0 {
          continue;
        }
        var expressions: seq<Requirement> := [];
        for k := 0 to |s.expressions|
          invariant expressions == s.expressions[..k]
        {
          var e := s.expressions[k];
          expressions := expressions + [Requirement(e.key, e.operator, e.values)];
        }
        assert expressions == s.expressions;
        peers := peers + [Selector(s.matchLabels, expressions)];
      }
    }
    assert from[..|from|] == from;
  }

  /** The policy Convert stores: the default rule, then one rule per domain rule that has a peer or a port. */
  method BuildPolicy(nsName: string, ingressNs: string, rules: seq<Rule>) returns (policy: seq<PolicyRule>)
    ensures |policy| >= 1 && policy[1..] == PolicyRules(rules)
    ensures policy[0].from != [] && policy[0].ports == []
    ensures forall labels: Labels, protocol, port :: RuleAdmits(policy[0], labels, protocol, port) <==>
              NAME_LABEL in labels && labels[NAME_LABEL] in DefaultNamespaces(nsName, ingressNs)
  {
    var values := NamespaceValues(nsName, ingressNs);
    var default := PolicyRule([Selector(map[], [Requirement(NAME_LABEL, "In", values)])], []);
    DefaultRuleMeaning(default, values);
    assert forall n :: n in values <==> n in Elements(values);
    policy := [default];
    for i := 0 to |rules|
      invariant |policy| >= 1 && policy[0] == default
      invariant policy[1..] == PolicyRules(rules[..i])
    {
      assert rules[..i + 1] == rules[..i] + [rules[i]];
      PolicyRulesSnoc(rules[..i], rules[i]);
      assert [rules[i]][1..] == [] && PolicyRules([]) == [];
      var from := BuildPeers(rules[i].from);
      var ports: seq<Port> := [];
      for j := 0 to |rules[i].ports|
        invariant ports == PolicyPorts(rules[i].ports)[..j]
      {
        var p := rules[i].ports[j];
        ports := ports + [Port(if p.protocol == "" then "TCP" else p.protocol, Int32(p.port))];
      }
      assert ports == PolicyPorts(rules[i].ports);
      if from == [] && ports == [] {
        continue;
      }
      assert (policy + [PolicyRule(from, ports)])[1..] == policy[1..] + [PolicyRule(from, ports)];
      policy := policy + [PolicyRule(from, ports)];
    }
    assert rules[..|rules|] == rules;
  }

  lemma DefaultRuleMeaning(rule: PolicyRule, values: seq<string>)
    requires rule == PolicyRule([Selector(map[], [Requirement(NAME_LABEL, "In", values)])], [])
    ensures forall labels: Labels, protocol, port :: RuleAdmits(rule, labels, protocol, port) <==>
              NAME_LABEL in labels && labels[NAME_LABEL] in values
  {
    forall labels: Labels
      ensures Selects(rule.from[0], labels) <==> NAME_LABEL in labels && labels[NAME_LABEL] in values
    {
      assert Satisfies(labels, rule.from[0].expressions[0]) <==> NAME_LABEL in labels && labels[NAME_LABEL] in values;
    }
  }

  // ---------- the generated policy means what the document asked for

  lemma {:induction false} PeersKept(from: seq<Peer>)
    requires forall i :: 0 <= i < |from| ==> PeerOk(from[i])
    ensures |PolicyPeers(from)| == |from|
    ensures forall i :: 0 <= i < |from| ==> from[i].selector == Some(PolicyPeers(from)[i])
  {
    if from != [] {
      PeersKept(from[1..]);
    }
  }

  lemma {:induction false} RulesKept(rules: seq<Rule>)
    requires RulesOk(rules)
    ensures var policy := PolicyRules(DomainRules(rules));
            && |policy| == |rules|
            && forall i :: 0 <= i < |rules| ==>
                 policy[i] == PolicyRule(PolicyPeers(rules[i].from), PolicyPorts(DomainRule(rules[i]).ports))
  {
    if rules != [] {
      assert DomainRules(rules)[1..] == DomainRules(rules[1..]);
      RulesKept(rules[1..]);
      PeersKept(rules[0].from);
    }
  }

  lemma RuleMeaning(rule: Rule, labels: Labels, protocol: string, port: int)
    requires RuleOk(rule)
    ensures var generated := PolicyRule(PolicyPeers(rule.from), PolicyPorts(DomainRule(rule).ports));
            RuleAdmits(generated, labels, protocol, port) <==> Asks(rule, labels, protocol, port)
  {
    var ports := PolicyPorts(DomainRule(rule).ports);
    PeersKept(rule.from);
    assert forall j :: 0 <= j < |ports| ==> ports[j] == Port(Protocol(rule.ports[j]), rule.ports[j].port);
    assert forall j :: 0 <= j < |ports| ==> (Names(rule.ports[j], protocol) <==> ports[j].protocol == protocol);
    assert PolicyPeers(rule.from) == [] <==> rule.from == [];
  }

  /** Main result: for rules ToModels accepts, the generated policy admits exactly the default
      namespaces and what the document's rules ask for; no rule or peer is lost, and no generated
      rule is open to every source. */
  lemma PolicyKeepsMeaning(rules: seq<Rule>, nsName: string, ingressNs: string, policy: seq<PolicyRule>)
    requires RulesOk(rules)
    requires |policy| >= 1 && policy[1..] == PolicyRules(DomainRules(rules))
    requires policy[0].from != []
    requires forall labels: Labels, protocol, port :: RuleAdmits(policy[0], labels, protocol, port) <==>
               NAME_LABEL in labels && labels[NAME_LABEL] in DefaultNamespaces(nsName, ingressNs)
    ensures |policy| == 1 + |rules|
    ensures forall i :: 0 <= i < |rules| ==> |policy[i + 1].from| == |rules[i].from|
    ensures forall i :: 0 <= i < |policy| ==> policy[i].from != []
    ensures forall labels: Labels, protocol, port :: PolicyAdmits(policy, labels, protocol, port) <==>
              || FromDefault(labels, nsName, ingressNs)
              || exists i :: 0 <= i < |rules| && Asks(rules[i], labels, protocol, port)
  {
    hide Asks, Selects, FromDefault, DefaultNamespaces;
    RulesKept(rules);
    var generated := policy[1..];
    forall i | 0 <= i < |rules| ensures |policy[i + 1].from| == |rules[i].from| > 0 {
      assert policy[i + 1] == generated[i];
      PeersKept(rules[i].from);
    }
    forall i | 0 <= i < |policy| ensures policy[i].from != [] {
      assert i > 0 ==> |policy[(i - 1) + 1].from| == |rules[i - 1].from|;
    }
    forall labels: Labels, protocol, port
      ensures PolicyAdmits(policy, labels, protocol, port) <==>
              || FromDefault(labels, nsName, ingressNs)
              || exists i :: 0 <= i < |rules| && Asks(rules[i], labels, protocol, port)
    {
      FromDefaultExactly(labels, nsName, ingressNs);
      forall i | 0 <= i < |rules|
        ensures RuleAdmits(policy[i + 1], labels, protocol, port) <==> Asks(rules[i], labels, protocol, port)
      {
        assert policy[i + 1] == generated[i];
        RuleMeaning(rules[i], labels, protocol, port);
      }
      if PolicyAdmits(policy, labels, protocol, port) && !RuleAdmits(policy[0], labels, protocol, port) {
        var i :| 0 <= i < |policy| && RuleAdmits(policy[i], labels, protocol, port);
        assert RuleAdmits(policy[(i - 1) + 1], labels, protocol, port);
        assert Asks(rules[i - 1], labels, protocol, port);
      }
    }
  }
}
