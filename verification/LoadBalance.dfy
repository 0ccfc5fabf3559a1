/** How the kernel traverses the rules, as probabilities: a packet to a service address reaches each
    endpoint of the service with the same probability (rkube_proxy/src/k8s_iptables.rs). */
module LoadBalance {
  import opened Common
  import opened Nat
  import opened ServiceTables
  import opened ServiceSteps
  import opened ServiceChanges
  import opened ServiceCleanup
  import opened ServiceRuns

  datatype Packet = Packet(dst: Ip, dport: Port)

  /** The destination a packet is rewritten to. */
  datatype Backend = Backend(ip: Ip, port: Port)

  /** The odds that a traversal rewrites the packet to the backend, and that it falls off the end. */
  datatype Odds = Odds(hit: real, pass: real)

  /** The probability that the rule applies to the packet. Of the foreign rules only the portal applies to
      packets for services. */
  function Applies(r: Rule, pkt: Packet): real {
    match r
    case SvcRule(dst, dport, _, _) => if pkt == Packet(dst, dport) then 1.0 else 0.0
    case LbRule(i, _) => if i <= 1 then 1.0 else 1.0 / i as real
    case DnatRule(_, _, _) => 1.0
    case ForeignRule(text, _) => if text == PORTAL_TEXT then 1.0 else 0.0
  }

  /** Walk down a list of rules: a rewrite ends the walk, a jump that falls off the end of its chain
      comes back to the next rule. */
  function Walk(t: Table, depth: nat, rules: seq<Rule>, pkt: Packet, to: Backend): Odds
    decreases depth, |rules|
  {
    if rules == [] then Odds(0.0, 1.0)
    else
      var p := Applies(rules[0], pkt);
      var taken := Take(t, depth, rules[0], pkt, to);
      Mix(p, taken, Walk(t, depth, rules[1..], pkt, to))
  }

  /** What happens when the rule applies. */
  function Take(t: Table, depth: nat, r: Rule, pkt: Packet, to: Backend): Odds
    decreases depth, 0
  {
    if r.DnatRule? then Odds(if to == Backend(r.ep, r.port) then 1.0 else 0.0, 0.0)
    else if Target(r).Some? && Target(r).value in t && depth > 0 then
      Walk(t, depth - 1, t[Target(r).value], pkt, to)
    else Odds(0.0, 1.0)
  }

  function Mix(p: real, taken: Odds, rest: Odds): Odds {
    var onward := p * taken.pass + (1.0 - p);
    Odds(p * taken.hit + onward * rest.hit, onward * rest.pass)
  }

  // ---------- one load balancer ----------

  /** Each endpoint chain in the list holds just the rewrite to its endpoint. */
  predicate EpChains(t: Table, ips: seq<Ip>, eps: map<Ip, string>, svc: string, port: Port) {
    forall ip <- ips :: ip in eps && eps[ip] in t && t[eps[ip]] == [DnatRule(svc, ip, port)]
  }

  predicate Distinct(ips: seq<Ip>) {
    forall i, j :: 0 <= i < j < |ips| ==> ips[i] != ips[j]
  }

  /** All endpoints equally likely, nothing passes; with no endpoint, everything passes. */
  function Uniform(n: nat, member: bool): Odds {
    Odds(if member then Share(n) else 0.0, if n == 0 then 1.0 else 0.0)
  }

  function Share(n: nat): real { if n == 0 then 0.0 else 1.0 / n as real }

  lemma EpWalk(t: Table, depth: nat, svc: string, ip: Ip, port: Port, pkt: Packet, to: Backend)
    ensures Walk(t, depth, [DnatRule(svc, ip, port)], pkt, to) ==
      Odds(if to == Backend(ip, port) then 1.0 else 0.0, 0.0)
  {
    var rules := [DnatRule(svc, ip, port)];
    assert Walk(t, depth, rules[1..], pkt, to) == Odds(0.0, 1.0);
  }

  lemma TopRule(t: Table, depth: nat, r: Rule, rest: seq<Rule>, pkt: Packet, to: Backend)
    ensures Walk(t, depth, [r] + rest, pkt, to) ==
      Mix(Applies(r, pkt), Take(t, depth, r, pkt, to), Walk(t, depth, rest, pkt, to))
  {
    assert ([r] + rest)[1..] == rest;
  }

  lemma Telescopes(n: nat)
    requires n > 1
    ensures (1.0 - 1.0 / n as real) * Share(n - 1) == Share(n)
  {
    var x := n as real;
    assert (n - 1) as real == x - 1.0;
    assert (1.0 - 1.0 / x) == (x - 1.0) / x;
    assert (x - 1.0) / x * (1.0 / (x - 1.0)) == 1.0 / x;
  }

  lemma MixUniform(n: nat, last: bool, member: bool)
    requires n > 0 && !(last && member)
    ensures Mix(if n <= 1 then 1.0 else 1.0 / n as real, Odds(if last then 1.0 else 0.0, 0.0),
      Uniform(n - 1, member && n > 1))
         == Uniform(n, last || (member && n > 1))
  {
    if n > 1 {
      Telescopes(n);
    }
  }

  /** Rules 1..n, each inserted above the last with probability 1/i, choose uniformly: 1/n each. */
  lemma {:induction false} LbWalk(t: Table, depth: nat, ips: seq<Ip>, eps: map<Ip, string>, svc: string, port: Port,
      pkt: Packet, to: Backend)
    requires Distinct(ips) && EpChains(t, ips, eps, svc, port) && depth > 0
    ensures Walk(t, depth, LbRules(ips, eps), pkt, to) == Uniform(|ips|, to.port == port && to.ip in ips)
  {
    hide Mix;
    if ips != [] {
      hide Uniform, Walk;
      var n := |ips|;
      var front, last := ips[..n - 1], ips[n - 1];
      assert ips == front + [last];
      LbWalk(t, depth, front, eps, svc, port, pkt, to);
      EpWalk(t, depth - 1, svc, last, port, pkt, to);
      TopRule(t, depth, LbRule(n, eps[last]), LbRules(front, eps), pkt, to);
      assert Take(t, depth, LbRule(n, eps[last]), pkt, to) == Walk(t, depth - 1, t[eps[last]], pkt, to);
      MixUniform(n, to == Backend(last, port), to.port == port && to.ip in front);
    }
  }

  lemma EnumerationIsDistinct(ips: seq<Ip>, eps: map<Ip, string>)
    requires Enumerates(ips, eps)
    ensures Distinct(ips) && |ips| == |eps| && forall ip :: ip in ips <==> ip in eps
  {
    forall i, j | 0 <= i < j < |ips| ensures ips[i] != ips[j] {
      var x := ips[j];
      assert ips == ips[..j] + [x] + ips[j + 1..];
      assert multiset(ips)[x] == multiset(ips[..j])[x] + 1 + multiset(ips[j + 1..])[x];
      assert multiset(eps.Keys)[x] <= 1;
      assert ips[..j][i] == ips[i];
      assert ips[i] in multiset(ips[..j]);
    }
    assert |multiset(ips)| == |multiset(eps.Keys)|;
    forall ip ensures ip in ips <==> ip in eps {
      assert ip in ips <==> ip in multiset(ips);
    }
  }

  /** A load balancer of a valid state picks each of its endpoints with probability 1/n. */
  lemma {:induction false} LbIsUniform(st: Proxy, s: string, p: Port, depth: nat, pkt: Packet, to: Backend)
    requires Inv(st) && HasLb(st.tables, s, p) && depth > 0
    ensures var lb := Lb(st.tables, s, p);
      lb.chain in st.chains
      && Walk(st.chains, depth, st.chains[lb.chain], pkt, to) ==
        Uniform(|lb.eps|, to.port == lb.targetPort && to.ip in lb.eps)
  {
    var lb := Lb(st.tables, s, p);
    assert PortOwned(st.owners, lb, s, p);
    assert Live(st, lb.chain, LbOf(s, p));
    var ips :| Enumerates(ips, lb.eps) && st.chains[lb.chain] == LbRules(ips, lb.eps);
    EnumerationIsDistinct(ips, lb.eps);
    forall ip | ip in ips ensures ip in lb.eps && lb.eps[ip] in st.chains
      && st.chains[lb.eps[ip]] == [DnatRule(s, ip, lb.targetPort)] {
      assert Live(st, lb.eps[ip], EpOf(s, p, ip));
    }
    LbWalk(st.chains, depth, ips, lb.eps, s, lb.targetPort, pkt, to);
  }

  // ---------- from the service address to an endpoint ----------

  /** The service port that serves the packet: the first entry rule for its address that has endpoints. */
  function Server(tables: map<string, ServiceTable>, rules: seq<Rule>, pkt: Packet): Option<Rule> {
    if rules == [] then None
    else if Serving(tables, rules[0], pkt) then Some(rules[0])
    else Server(tables, rules[1..], pkt)
  }

  predicate Serving(tables: map<string, ServiceTable>, r: Rule, pkt: Packet) {
    r.SvcRule? && pkt == Packet(r.dst, r.dport) && HasLb(tables, r.svc, r.dport) && |Lb(tables, r.svc, r.dport).eps| > 0
  }

  /** The odds the service map promises. */
  function Promised(tables: map<string, ServiceTable>, server: Option<Rule>, to: Backend): Odds
    requires server.Some? ==> server.value.SvcRule? && HasLb(tables, server.value.svc, server.value.dport)
  {
    match server
    case None => Odds(0.0, 1.0)
    case Some(r) =>
      var lb := Lb(tables, r.svc, r.dport);
      Uniform(|lb.eps|, to.port == lb.targetPort && to.ip in lb.eps)
  }

  lemma {:induction false} EntryWalk(st: Proxy, depth: nat, rules: seq<Rule>, pkt: Packet, to: Backend)
    requires Inv(st) && depth > 1 && forall r <- rules :: IsEntry(st, r)
    ensures var server := Server(st.tables, rules, pkt);
      && (server.Some? ==> server.value.SvcRule? && HasLb(st.tables, server.value.svc, server.value.dport))
      && Walk(st.chains, depth, rules, pkt, to) == Promised(st.tables, server, to)
  {
    hide Inv, Mix, Uniform;
    if rules != [] {
      var r := rules[0];
      assert IsEntry(st, r);
      var lb := Lb(st.tables, r.svc, r.dport);
      LbIsUniform(st, r.svc, r.dport, depth - 1, pkt, to);
      EntryWalk(st, depth, rules[1..], pkt, to);
      EmptyHasNoMember(lb.eps, to.ip);
      assert Take(st.chains, depth, r, pkt, to) == Uniform(|lb.eps|, to.port == lb.targetPort && to.ip in lb.eps);
      TopRule(st.chains, depth, r, rules[1..], pkt, to);
      assert rules == [r] + rules[1..];
      hide Walk, Take;
      EntryMix(pkt == Packet(r.dst, r.dport), |lb.eps|, to.port == lb.targetPort && to.ip in lb.eps,
        Walk(st.chains, depth, rules[1..], pkt, to));
    }
  }

  /** An entry decides the packet's fate if it applies and has endpoints, and has no effect otherwise. */
  lemma EntryMix(applies: bool, n: nat, member: bool, rest: Odds)
    requires n == 0 ==> !member
    ensures Mix(if applies then 1.0 else 0.0, Uniform(n, member), rest) ==
      if applies && n > 0 then Uniform(n, member) else rest
  {
  }

  lemma EmptyHasNoMember(eps: map<Ip, string>, ip: Ip)
    ensures |eps| == 0 ==> ip !in eps
  {
    if ip in eps { assert ip in eps.Keys && |eps.Keys| == |eps|; }
  }

  // ---------- from a built-in chain ----------

  /** Rules of others, apart from the portal. */
  predicate ForeignOnly(rules: seq<Rule>) {
    forall r <- rules :: r.ForeignRule? && (r.text == PORTAL_TEXT ==> r == PORTAL)
  }

  /** A built-in chain that leads into the service chain, and otherwise holds rules of others. */
  predicate Gate(rules: seq<Rule>) {
    PORTAL in rules && ForeignOnly(rules)
  }

  /** The walk has ended, or the packet passes unchanged. */
  predicate Decided(odds: Odds) { odds.pass == 0.0 || odds == Odds(0.0, 1.0) }

  /** From a gate a packet fares as from the service chain: before the portal nothing applies, and a packet
      that comes back from it unchanged falls off the end. */
  lemma {:induction false} GateWalk(t: Table, depth: nat, rules: seq<Rule>, pkt: Packet, to: Backend, odds: Odds)
    requires ForeignOnly(rules) && Decided(odds)
    requires KUBE_SERVICES in t && depth > 0 && odds == Walk(t, depth - 1, t[KUBE_SERVICES], pkt, to)
    ensures Walk(t, depth, rules, pkt, to) == if PORTAL in rules then odds else Odds(0.0, 1.0)
  {
    if rules != [] {
      hide Walk, Take, Mix, Applies, Decided;
      var r, rest := rules[0], rules[1..];
      assert rules == [r] + rest && r in rules;
      GateWalk(t, depth, rest, pkt, to, odds);
      TopRule(t, depth, r, rest, pkt, to);
      TakePortal(t, depth, pkt, to);
      ForeignApplies(r, pkt);
      GateMix(odds, Take(t, depth, r, pkt, to));
    } else {
      assert Walk(t, depth, rules, pkt, to) == Odds(0.0, 1.0);
    }
  }

  lemma ForeignApplies(r: Rule, pkt: Packet)
    requires r.ForeignRule? && (r.text == PORTAL_TEXT ==> r == PORTAL)
    ensures Applies(r, pkt) == if r == PORTAL then 1.0 else 0.0
  {
  }

  lemma {:induction false} TakePortal(t: Table, depth: nat, pkt: Packet, to: Backend)
    requires KUBE_SERVICES in t && depth > 0
    ensures Take(t, depth, PORTAL, pkt, to) == Walk(t, depth - 1, t[KUBE_SERVICES], pkt, to)
  {
    hide Walk;
  }

  lemma GateMix(odds: Odds, taken: Odds)
    requires Decided(odds)
    ensures Mix(1.0, odds, odds) == odds && Mix(1.0, odds, Odds(0.0, 1.0)) == odds
    ensures Mix(0.0, taken, odds) == odds && Mix(0.0, taken, Odds(0.0, 1.0)) == Odds(0.0, 1.0)
  {
  }

  lemma PromisedPasses(tables: map<string, ServiceTable>, server: Option<Rule>, to: Backend)
    requires server.Some? ==> server.value.SvcRule? && HasLb(tables, server.value.svc, server.value.dport)
    ensures Decided(Promised(tables, server, to))
  {
    if server.Some? {
      EmptyHasNoMember(Lb(tables, server.value.svc, server.value.dport).eps, to.ip);
    }
  }

  /** In an exact table, a packet that enters through a built-in chain is rewritten to each endpoint of its
      server with probability 1/n, to nothing else, and passes unchanged exactly when no service port serves
      its address. */
  lemma TrafficIsBalanced(st: Proxy, base: Table, depth: nat, c: string, pkt: Packet, to: Backend)
    requires Exact(st, base) && depth > 2
    requires c in base && c != KUBE_SERVICES && Gate(base[c])
    ensures KUBE_SERVICES in st.chains && c in st.chains
    ensures var server := Server(st.tables, st.chains[KUBE_SERVICES], pkt);
      && (server.Some? ==> server.value.SvcRule? && HasLb(st.tables, server.value.svc, server.value.dport))
      && Walk(st.chains, depth, st.chains[c], pkt, to) == Promised(st.tables, server, to)
  {
    EntryWalk(st, depth - 1, st.chains[KUBE_SERVICES], pkt, to);
    hide Walk, Server, Promised, Inv, ForeignOnly, Decided;
    var server := Server(st.tables, st.chains[KUBE_SERVICES], pkt);
    PromisedPasses(st.tables, server, to);
    GateWalk(st.chains, depth, st.chains[c], pkt, to, Promised(st.tables, server, to));
  }

  /** The sweep at start-up makes both built-in chains gates, if it finds only rules of others in them. */
  lemma SweptChainsAreGates(before: Table, after: Table)
    requires Entered(before, after)
    requires PREROUTING in before && ForeignOnly(before[PREROUTING]) && OUTPUT in before && ForeignOnly(before[OUTPUT])
    ensures PREROUTING in after && Gate(after[PREROUTING]) && OUTPUT in after && Gate(after[OUTPUT])
  {
  }

  lemma {:induction false} ServerIs(tables: map<string, ServiceTable>, rules: seq<Rule>, pkt: Packet, r: Rule)
    requires r in rules && Serving(tables, r, pkt) && forall r' <- rules :: Serving(tables, r', pkt) ==> r' == r
    ensures Server(tables, rules, pkt) == Some(r)
  {
    if rules[0] != r {
      ServerIs(tables, rules[1..], pkt, r);
    }
  }

  predicate AloneAt(tables: map<string, ServiceTable>, s: string, p: Port) {
    s in tables && forall s' <- tables :: s' != s && p in tables[s'].lbs ==> tables[s'].clusterIp != tables[s].clusterIp
  }

  /** After any run, the packets for a service port whose address no other service shares are spread
      evenly over the port's endpoints, through whichever built-in chain they enter. */
  lemma {:induction false} ServiceIsBalanced(trace: seq<Proxy>, ns: seq<Notification>, base: Table, i: nat, s: string,
      p: Port, ip: Ip, depth: nat, c: string)
    requires Run(trace, ns) && Exact(trace[0], base) && i < |trace| && depth > 2
    requires c in base && c != KUBE_SERVICES && Gate(base[c])
    requires HasLb(trace[i].tables, s, p) && AloneAt(trace[i].tables, s, p) && ip in Lb(trace[i].tables, s, p).eps
    ensures c in trace[i].chains
    ensures var st, lb := trace[i], Lb(trace[i].tables, s, p);
      Walk(st.chains, depth, st.chains[c], Packet(st.tables[s].clusterIp, p), Backend(ip, lb.targetPort))
        == Odds(1.0 / |lb.eps| as real, 0.0)
  {
    var st := trace[i];
    var lb := Lb(st.tables, s, p);
    var pkt := Packet(st.tables[s].clusterIp, p);
    RunsStayExact(trace, ns, base);
    TrafficIsBalanced(st, base, depth, c, pkt, Backend(ip, lb.targetPort));
    EmptyHasNoMember(lb.eps, ip);
    var rules := st.chains[KUBE_SERVICES];
    assert EntryRule(st.tables, s, p) in rules;
    forall r | r in rules && Serving(st.tables, r, pkt) ensures r == EntryRule(st.tables, s, p) {
      assert IsEntry(st, r);
    }
    ServerIs(st.tables, rules, pkt, EntryRule(st.tables, s, p));
  }
}
