/** What adding and deleting a whole service does to the proxy's state, as relations between the
    states before and after (rkube_proxy/src/k8s_iptables.rs). */
module ServiceChanges {
  import opened Common
  import opened Nat
  import opened ServiceTables
  import opened ServiceSteps

  datatype ServicePort = ServicePort(port: Port, targetPort: Port)

  datatype Service = Service(name: string, clusterIp: Ip, ports: seq<ServicePort>, endpoints: set<Ip>)

  function PortsOf(ports: seq<ServicePort>): seq<Port> {
    if ports == [] then [] else PortsOf(ports[..|ports| - 1]) + [ports[|ports| - 1].port]
  }

  /** The entry rules of a service's ports, in order. */
  function EntryRules(tables: map<string, ServiceTable>, s: string, ports: seq<Port>): seq<Rule>
    requires forall p <- ports :: HasLb(tables, s, p)
  {
    if ports == [] then []
    else EntryRules(tables, s, ports[..|ports| - 1]) + [EntryRule(tables, s, ports[|ports| - 1])]
  }

  ghost predicate HasPorts(tables: map<string, ServiceTable>, s: string, ports: seq<Port>) {
    && s in tables
    && (forall p <- ports :: HasLb(tables, s, p))
    && (forall p <- tables[s].lbs :: p in ports)
  }

  /** `st` is `st0` with one more service `s`: its chains are new, its entry rules are appended
      in the order of its ports, and nothing else has changed. */
  ghost predicate Built(st0: Proxy, st: Proxy, s: string, ports: seq<Port>) {
    && s !in st0.tables
    && HasPorts(st.tables, s, ports)
    && st.tables == st0.tables[s := st.tables[s]]
    && OwnersGrow(st0, st, s)
    && ChainsGrow(st0, st, EntryRules(st.tables, s, ports))
  }

  ghost predicate OwnersGrow(st0: Proxy, st: Proxy, s: string) {
    && (forall c <- st0.owners :: c in st.owners && st.owners[c] == st0.owners[c] && st0.owners[c].svc != s)
    && (forall c <- st.owners :: c !in st0.owners ==> st.owners[c].svc == s && c !in st0.chains)
  }

  ghost predicate ChainsGrow(st0: Proxy, st: Proxy, entries: seq<Rule>) {
    && KUBE_SERVICES in st0.chains && KUBE_SERVICES in st.chains
    && st.chains[KUBE_SERVICES] == st0.chains[KUBE_SERVICES] + entries
    && (forall c :: c in st.chains <==> c in st0.chains || (c in st.owners && c !in st0.owners))
    && (forall c <- st0.chains :: c != KUBE_SERVICES ==> st.chains[c] == st0.chains[c])
  }

  /** The first n ports and the endpoints `eps` of `svc` have been added to `st0`. */
  ghost predicate PartlyAdded(st0: Proxy, svc: Service, n: nat, eps: set<Ip>, st: Proxy)
    requires n <= |svc.ports|
  {
    && Built(st0, st, svc.name, PortsOf(svc.ports[..n]))
    && st.tables[svc.name].clusterIp == svc.clusterIp
    && (forall sp <- svc.ports[..n] ::
      HasLb(st.tables, svc.name, sp.port) && Lb(st.tables, svc.name, sp.port).targetPort == sp.targetPort)
    && (forall p <- st.tables[svc.name].lbs :: st.tables[svc.name].lbs[p].eps.Keys == eps)
  }

  /** `svc` has been added to `st0`. */
  ghost predicate ServiceAdded(st0: Proxy, svc: Service, st: Proxy) {
    && Inv(st)
    && PartlyAdded(st0, svc, |svc.ports|, svc.endpoints, st)
  }

  /** A service that can be added cleanly: absent, and with distinct ports. */
  predicate Addable(tables: map<string, ServiceTable>, svc: Service) {
    svc.name !in tables && NoDup(PortsOf(svc.ports))
  }

  /** Every load balancer of the service has exactly the endpoint `ep` more. */
  predicate EpEverywhere(tb: ServiceTable, tb': ServiceTable, ep: Ip) {
    && tb'.clusterIp == tb.clusterIp
    && tb'.lbs.Keys == tb.lbs.Keys
    && forall p <- tb.lbs :: EpAt(tb.lbs[p], tb'.lbs[p], ep)
  }

  /** The load balancers outside `todo` have the endpoint; those in `todo` are as before. */
  predicate EpServed(tb: ServiceTable, tb': ServiceTable, ep: Ip, todo: set<Port>) {
    && tb'.clusterIp == tb.clusterIp
    && tb'.lbs.Keys == tb.lbs.Keys
    && forall p <- tb.lbs :: if p in todo then tb'.lbs[p] == tb.lbs[p] else EpAt(tb.lbs[p], tb'.lbs[p], ep)
  }

  lemma EpServedStep(tb: ServiceTable, st: Proxy, s: string, p: Port, ip: Ip, c: string, ips: seq<Ip>, todo: set<Port>)
    requires HasLb(st.tables, s, p) && p in todo && EpServed(tb, st.tables[s], ip, todo)
    ensures s in EpAdded(st, s, p, ip, c, ips).tables
    ensures EpServed(tb, EpAdded(st, s, p, ip, c, ips).tables[s], ip, todo - {p})
  {
    EpAddedAt(st, s, p, ip, c, ips);
  }

  predicate EpAt(lb: LBTable, lb': LBTable, ep: Ip) {
    lb'.chain == lb.chain && lb'.targetPort == lb.targetPort && lb'.eps.Keys == lb.eps.Keys + {ep}
  }

  // ---------- the steps of an addition ----------

  lemma AbsentServiceOwnsNothing(st: Proxy, s: string, p: Port)
    requires OwnersLive(st) && !HasLb(st.tables, s, p)
    ensures Disowned(st.owners, s, p) == st.owners
  {
    forall c | c in st.owners ensures !(st.owners[c].svc == s && st.owners[c].port == p) {
      assert Live(st, c, st.owners[c]);
    }
  }

  lemma {:induction false} EntryRulesFrame(t: map<string, ServiceTable>, t': map<string, ServiceTable>, s: string,
      ports: seq<Port>)
    requires forall p <- ports :: HasLb(t, s, p) && HasLb(t', s, p) && EntryRule(t, s, p) == EntryRule(t', s, p)
    ensures EntryRules(t, s, ports) == EntryRules(t', s, ports)
  {
    if ports != [] {
      EntryRulesFrame(t, t', s, ports[..|ports| - 1]);
    }
  }

  lemma StartsEmpty(st: Proxy, svc: Service)
    requires Inv(st) && svc.name !in st.tables
    ensures PartlyAdded(st, svc, 0, {}, ServiceNamed(st, svc.name, svc.clusterIp))
  {
    assert svc.ports[..0] == [];
    assert st.chains[KUBE_SERVICES] + [] == st.chains[KUBE_SERVICES];
  }

  lemma PortsGrow(t: map<string, ServiceTable>, t': map<string, ServiceTable>, s: string, ports: seq<Port>, p: Port)
    requires HasPorts(t, s, ports) && p !in ports
    requires SameBut(t, t', s, p) && s in t' && HasLb(t', s, p)
    ensures HasPorts(t', s, ports + [p])
    ensures EntryRules(t', s, ports + [p]) == EntryRules(t, s, ports) + [EntryRule(t', s, p)]
  {
    forall q | q in ports ensures HasLb(t', s, q) && EntryRule(t, s, q) == EntryRule(t', s, q) {
      assert SameAt(t, t', s, q);
    }
    forall q | q in t'[s].lbs ensures q in ports + [p] {
      if q != p { assert SameAt(t, t', s, q); assert HasLb(t, s, q); }
    }
    EntryRulesFrame(t, t', s, ports);
    assert (ports + [p])[..|ports|] == ports;
  }

  lemma BuiltPortOwners(st0: Proxy, st: Proxy, st': Proxy, s: string, p: Port, c: string)
    requires OwnersGrow(st0, st, s) && c !in st.owners && c !in st0.chains
    requires st'.owners == st.owners[c := LbOf(s, p)]
    ensures OwnersGrow(st0, st', s)
  {
  }

  lemma BuiltPortChains(st0: Proxy, st: Proxy, st': Proxy, s: string, p: Port, c: string, entries: seq<Rule>,
      rule: Rule)
    requires ChainsGrow(st0, st, entries) && c !in st.owners && c !in st.chains && c !in st0.owners
    requires st'.owners == st.owners[c := LbOf(s, p)]
    requires st'.chains == st.chains[c := []][KUBE_SERVICES := st.chains[KUBE_SERVICES] + [rule]]
    ensures ChainsGrow(st0, st', entries + [rule])
  {
    assert st0.chains[KUBE_SERVICES] + entries + [rule] == st0.chains[KUBE_SERVICES] + (entries + [rule]);
  }

  lemma {:induction false} BuiltPort(st0: Proxy, st: Proxy, s: string, ports: seq<Port>, p: Port, targetPort: Port,
      c: string)
    requires Inv(st) && Built(st0, st, s, ports) && p !in ports && c !in st.chains
    ensures Built(st0, PortAdded(st, s, p, targetPort, c), s, ports + [p])
  {
    var st' := PortAdded(st, s, p, targetPort, c);
    WithLbIsLocal(st.tables, s, p, LBTable(c, targetPort, map[]));
    FreshIsUnowned(st, c);
    AbsentServiceOwnsNothing(st, s, p);
    PortsGrow(st.tables, st'.tables, s, ports, p);
    BuiltPortOwners(st0, st, st', s, p, c);
    BuiltPortChains(st0, st, st', s, p, c, EntryRules(st.tables, s, ports), EntryRule(st'.tables, s, p));
  }

  lemma BuiltEpOwners(st0: Proxy, st: Proxy, st': Proxy, s: string, p: Port, ip: Ip, c: string)
    requires OwnersGrow(st0, st, s) && c !in st.owners && c !in st0.chains
    requires st'.owners == st.owners[c := EpOf(s, p, ip)]
    ensures OwnersGrow(st0, st', s)
  {
  }

  lemma BuiltEpChains(st0: Proxy, st: Proxy, st': Proxy, s: string, p: Port, ip: Ip, c: string, lbChain: string,
      entries: seq<Rule>, ep: seq<Rule>, lbRules: seq<Rule>)
    requires ChainsGrow(st0, st, entries) && c !in st.owners && c !in st.chains && c !in st0.owners
    requires c != KUBE_SERVICES
    requires lbChain in st.chains && lbChain !in st0.chains && lbChain != KUBE_SERVICES
    requires st'.owners == st.owners[c := EpOf(s, p, ip)]
    requires st'.chains == st.chains[c := ep][lbChain := lbRules]
    ensures ChainsGrow(st0, st', entries)
  {
  }

  lemma NamesAreNew(st0: Proxy, st: Proxy, s: string, p: Port, ip: Ip, c: string, entries: seq<Rule>)
    requires HasLb(st.tables, s, p) && NamesApart(st, s, p, ip, c)
    requires OwnersGrow(st0, st, s) && ChainsGrow(st0, st, entries)
    ensures c !in st0.chains && c !in st0.owners && Lb(st.tables, s, p).chain !in st0.chains
  {
  }

  lemma BuiltEpTables(st0: Proxy, st: Proxy, s: string, ports: seq<Port>, p: Port, lb: LBTable)
    requires HasPorts(st.tables, s, ports) && st.tables == st0.tables[s := st.tables[s]]
    requires HasLb(st.tables, s, p) && lb.chain == Lb(st.tables, s, p).chain
    ensures var t := WithLb(st.tables, s, p, lb);
            && HasPorts(t, s, ports) && t == st0.tables[s := t[s]]
            && EntryRules(t, s, ports) == EntryRules(st.tables, s, ports)
  {
    WithLbIsLocal(st.tables, s, p, lb);
    PortsKept(st.tables, WithLb(st.tables, s, p, lb), s, ports, p);
  }

  lemma BuiltEp(st0: Proxy, st: Proxy, s: string, ports: seq<Port>, p: Port, ip: Ip, c: string, ips: seq<Ip>)
    requires Inv(st) && Built(st0, st, s, ports) && HasLb(st.tables, s, p) && c !in st.chains
    requires ip !in Lb(st.tables, s, p).eps
    ensures Built(st0, EpAdded(st, s, p, ip, c, ips), s, ports)
  {
    var st' := EpAdded(st, s, p, ip, c, ips);
    var lb := Lb(st.tables, s, p);
    BuiltEpTables(st0, st, s, ports, p, lb.(eps := lb.eps[ip := c]));
    EpAddedNames(st, s, p, ip, c);
    NamesAreNew(st0, st, s, p, ip, c, EntryRules(st.tables, s, ports));
    BuiltEpOwners(st0, st, st', s, p, ip, c);
    BuiltEpChains(st0, st, st', s, p, ip, c, lb.chain, EntryRules(st.tables, s, ports),
                  [DnatRule(s, ip, lb.targetPort)], LbRules(ips, lb.eps[ip := c]));
  }

  lemma PortsKept(t: map<string, ServiceTable>, t': map<string, ServiceTable>, s: string, ports: seq<Port>, p: Port)
    requires HasPorts(t, s, ports) && HasLb(t, s, p)
    requires SameBut(t, t', s, p) && s in t' && HasLb(t', s, p) && EntryRule(t, s, p) == EntryRule(t', s, p)
    ensures HasPorts(t', s, ports)
    ensures EntryRules(t', s, ports) == EntryRules(t, s, ports)
  {
    forall q | q in ports ensures HasLb(t', s, q) && EntryRule(t, s, q) == EntryRule(t', s, q) {
      assert q == p || SameAt(t, t', s, q);
    }
    forall q | q in t'[s].lbs ensures q in ports {
      if q != p { assert SameAt(t, t', s, q); }
      assert HasLb(t, s, q);
    }
    EntryRulesFrame(t, t', s, ports);
  }

  lemma BuiltHasService(st0: Proxy, st: Proxy, s: string, ports: seq<Port>)
    requires Built(st0, st, s, ports)
    ensures s in st.tables && KUBE_SERVICES in st.chains
    ensures HasPorts(st.tables, s, ports)
  {
  }

  lemma PartlyAddedHas(st0: Proxy, svc: Service, n: nat, eps: set<Ip>, st: Proxy)
    requires n <= |svc.ports| && PartlyAdded(st0, svc, n, eps, st)
    ensures svc.name in st.tables && Built(st0, st, svc.name, PortsOf(svc.ports[..n]))
    ensures forall p <- st.tables[svc.name].lbs :: st.tables[svc.name].lbs[p].eps.Keys == eps
  {
  }

  lemma PortStepTables(t: map<string, ServiceTable>, svc: Service, n: nat, c: string)
    requires n < |svc.ports| && svc.name in t
    requires forall sp <- svc.ports[..n] ::
      HasLb(t, svc.name, sp.port) && Lb(t, svc.name, sp.port).targetPort == sp.targetPort
    requires forall sp <- svc.ports[..n] :: sp.port != svc.ports[n].port
    requires forall p <- t[svc.name].lbs :: t[svc.name].lbs[p].eps.Keys == {}
    ensures var t' := WithLb(t, svc.name, svc.ports[n].port, LBTable(c, svc.ports[n].targetPort, map[]));
            && (forall sp <- svc.ports[..n + 1] ::
              HasLb(t', svc.name, sp.port) && Lb(t', svc.name, sp.port).targetPort == sp.targetPort)
            && (forall p <- t'[svc.name].lbs :: t'[svc.name].lbs[p].eps.Keys == {})
            && t'[svc.name].clusterIp == t[svc.name].clusterIp
  {
    assert svc.ports[..n + 1] == svc.ports[..n] + [svc.ports[n]];
  }

  lemma PortStep(st0: Proxy, svc: Service, n: nat, st: Proxy, c: string)
    requires Inv(st) && n < |svc.ports| && PartlyAdded(st0, svc, n, {}, st)
    requires NoDup(PortsOf(svc.ports)) && c !in st.chains
    ensures PartlyAdded(st0, svc, n + 1, {}, PortAdded(st, svc.name, svc.ports[n].port, svc.ports[n].targetPort, c))
  {
    hide Inv, Built, WithLb;
    assert svc.ports[..n + 1][..n] == svc.ports[..n];
    PortIsNew(svc.ports, n);
    PortsListed(svc.ports[..n]);
    BuiltPort(st0, st, svc.name, PortsOf(svc.ports[..n]), svc.ports[n].port, svc.ports[n].targetPort, c);
    BuiltHasService(st0, st, svc.name, PortsOf(svc.ports[..n]));
    PortStepTables(st.tables, svc, n, c);
  }

  lemma {:induction false} PortsListed(ports: seq<ServicePort>)
    ensures forall sp <- ports :: sp.port in PortsOf(ports)
  {
    if ports != [] {
      PortsListed(ports[..|ports| - 1]);
    }
  }

  lemma {:induction false} PortIsNew(ports: seq<ServicePort>, n: nat)
    requires n < |ports| && NoDup(PortsOf(ports))
    ensures ports[n].port !in PortsOf(ports[..n])
  {
    var m := |ports| - 1;
    NoDupFront(PortsOf(ports[..m]), ports[m].port);
    if n < m {
      PortIsNew(ports[..m], n);
      assert ports[..m][..n] == ports[..n];
    }
  }

  lemma {:induction false} NoDupFront<T>(s: seq<T>, x: T)
    requires NoDup(s + [x])
    ensures NoDup(s) && x !in s
  {
    if s != [] {
      assert (s + [x])[1..] == s[1..] + [x];
      NoDupFront(s[1..], x);
      assert x in (s + [x])[1..];
    }
  }

  lemma EpsStep(st0: Proxy, svc: Service, eps: set<Ip>, st: Proxy, st': Proxy, ep: Ip)
    requires PartlyAdded(st0, svc, |svc.ports|, eps, st)
    requires Built(st0, st', svc.name, PortsOf(svc.ports[..|svc.ports|]))
    requires EpEverywhere(st.tables[svc.name], st'.tables[svc.name], ep)
    ensures PartlyAdded(st0, svc, |svc.ports|, eps + {ep}, st')
  {
    var tb, tb' := st.tables[svc.name], st'.tables[svc.name];
    forall p | p in tb'.lbs ensures tb'.lbs[p].eps.Keys == eps + {ep} {
      assert EpAt(tb.lbs[p], tb'.lbs[p], ep);
    }
    forall sp | sp in svc.ports[..|svc.ports|]
      ensures HasLb(st'.tables, svc.name, sp.port) && Lb(st'.tables, svc.name, sp.port).targetPort == sp.targetPort
    {
      assert EpAt(tb.lbs[sp.port], tb'.lbs[sp.port], ep);
    }
  }

  // ---------- deleting a service ----------

  predicate Belongs(o: Owner, s: string, p: Port) { o.svc == s && o.port == p }

  /** The state after one port of a service has been cleaned up, endpoint chains included. */
  function PortRemoved(st: Proxy, s: string, p: Port): Proxy
    requires HasLb(st.tables, s, p) && KUBE_SERVICES in st.chains
  {
    var dropped := PortDropped(st, s, p);
    dropped.(chains := dropped.chains - Lb(st.tables, s, p).eps.Values)
  }

  predicate OwnedBy(owners: map<string, Owner>, c: string, s: string) { c in owners && owners[c].svc == s }

  function OwnersWithout(owners: map<string, Owner>, s: string): map<string, Owner> {
    map c | c in owners && owners[c].svc != s :: owners[c]
  }

  /** `st'` is `st` without service `s`: its chains are gone, its entry rules are gone from the
      entry chain, whose other rules keep their order, and nothing else has changed. */
  ghost predicate ServiceRemoved(st: Proxy, s: string, st': Proxy) {
    && st'.tables == st.tables - {s}
    && st'.owners == OwnersWithout(st.owners, s)
    && ChainsGone(st, s, st')
    && EntriesGone(st, s, st')
  }

  ghost predicate ChainsGone(st: Proxy, s: string, st': Proxy) {
    && (forall c :: c in st'.chains <==> c in st.chains && !OwnedBy(st.owners, c, s))
    && (forall c <- st'.chains :: c != KUBE_SERVICES ==> st'.chains[c] == st.chains[c])
  }

  ghost predicate EntriesGone(st: Proxy, s: string, st': Proxy) {
    && KUBE_SERVICES in st.chains && KUBE_SERVICES in st'.chains
    && NotOf(st'.chains[KUBE_SERVICES], s) == NotOf(st.chains[KUBE_SERVICES], s)
    && (forall r <- st'.chains[KUBE_SERVICES] :: r in st.chains[KUBE_SERVICES] && !(IsEntry(st, r) && r.svc == s))
  }

  /** Only the ports in `todo` of service `s` are left. */
  ghost predicate PartlyRemoved(st0: Proxy, s: string, todo: set<Port>, st: Proxy) {
    && TablesShrink(st0.tables, s, todo, st.tables)
    && OwnersShrink(st0.owners, s, todo, st.owners)
    && ChainsShrink(st0, s, todo, st.chains)
    && EntriesShrink(st0, s, todo, st.chains)
  }

  ghost predicate TablesShrink(t0: map<string, ServiceTable>, s: string, todo: set<Port>,
      t: map<string, ServiceTable>) {
    && s in t0 && todo <= t0[s].lbs.Keys
    && t == t0[s := ServiceTable(t0[s].clusterIp, Left(t0[s].lbs, todo))]
  }

  function Left(lbs: map<Port, LBTable>, todo: set<Port>): map<Port, LBTable>
    requires todo <= lbs.Keys
  {
    map p | p in todo :: lbs[p]
  }

  ghost predicate OwnersShrink(o0: map<string, Owner>, s: string, todo: set<Port>, o: map<string, Owner>) {
    o == OwnersLeft(o0, s, todo)
  }

  function OwnersLeft(o0: map<string, Owner>, s: string, todo: set<Port>): map<string, Owner> {
    map c | c in o0 && !(o0[c].svc == s && o0[c].port !in todo) :: o0[c]
  }

  ghost predicate ChainsShrink(st0: Proxy, s: string, todo: set<Port>, t: Table) {
    && (forall c :: c in t <==>
      c in st0.chains && !(c in st0.owners && st0.owners[c].svc == s && st0.owners[c].port !in todo))
    && (forall c <- t :: c != KUBE_SERVICES ==> t[c] == st0.chains[c])
  }

  ghost predicate EntriesShrink(st0: Proxy, s: string, todo: set<Port>, t: Table) {
    && KUBE_SERVICES in st0.chains && KUBE_SERVICES in t
    && NotOf(t[KUBE_SERVICES], s) == NotOf(st0.chains[KUBE_SERVICES], s)
    && (forall r <- t[KUBE_SERVICES] ::
      r in st0.chains[KUBE_SERVICES] && !(IsEntry(st0, r) && r.svc == s && r.dport !in todo))
  }

  /** The chains recorded for a service port are its load-balancing chain and its endpoint chains. */
  lemma ChainsOfPort(st: Proxy, s: string, p: Port, c: string)
    requires TablesOwned(st) && OwnersLive(st) && HasLb(st.tables, s, p)
    ensures c in st.owners && Belongs(st.owners[c], s, p)
       <==> c == Lb(st.tables, s, p).chain || c in Lb(st.tables, s, p).eps.Values
  {
    var lb := Lb(st.tables, s, p);
    assert PortOwned(st.owners, lb, s, p);
    if c in st.owners && Belongs(st.owners[c], s, p) {
      assert Live(st, c, st.owners[c]);
      assert Serves(st.chains[c], lb, c, st.owners[c]);
      if st.owners[c].EpOf? { assert lb.eps[st.owners[c].ip] in lb.eps.Values; }
    }
    if c in lb.eps.Values {
      var ip := KeyOf(lb.eps, c);
    }
  }

  lemma {:induction false} ChainsShrinkStep(st0: Proxy, s: string, todo: set<Port>, st: Proxy, p: Port)
    requires Inv(st) && p in todo && HasLb(st.tables, s, p)
    requires OwnersShrink(st0.owners, s, todo, st.owners)
    requires ChainsShrink(st0, s, todo, st.chains)
    ensures ChainsShrink(st0, s, todo - {p}, PortRemoved(st, s, p).chains)
  {
    var t := PortRemoved(st, s, p).chains;
    forall c ensures c in t <==>
      c in st0.chains && !(c in st0.owners && st0.owners[c].svc == s && st0.owners[c].port !in todo - {p}) {
      ChainsOfPort(st, s, p, c);
      if c in st.owners { assert Live(st, c, st.owners[c]); }
    }
  }

  lemma EntriesShrinkStep(st0: Proxy, s: string, todo: set<Port>, st: Proxy, p: Port)
    requires Inv(st) && p in todo && PartlyRemoved(st0, s, todo, st) && HasLb(st.tables, s, p)
    ensures EntriesShrink(st0, s, todo - {p}, PortRemoved(st, s, p).chains)
  {
    var rule := EntryRule(st.tables, s, p);
    var before := st.chains[KUBE_SERVICES];
    RemoveFirstMembers(before, rule);
    NotOfSkips(before, s, rule);
    ChainsOfPort(st, s, p, KUBE_SERVICES);
    assert KUBE_SERVICES !in st.owners by { KubeServicesUnowned(st); }
    assert rule == EntryRule(st0.tables, s, p);
  }

  lemma KubeServicesUnowned(st: Proxy)
    requires OwnersLive(st)
    ensures KUBE_SERVICES !in st.owners
  {
    assert forall c <- st.owners :: Live(st, c, st.owners[c]);
  }

  lemma TablesShrinkStep(t0: map<string, ServiceTable>, s: string, todo: set<Port>, t: map<string, ServiceTable>,
      p: Port)
    requires TablesShrink(t0, s, todo, t) && p in todo
    ensures TablesShrink(t0, s, todo - {p}, WithoutLb(t, s, p))
  {
    assert Left(t0[s].lbs, todo) - {p} == Left(t0[s].lbs, todo - {p});
  }

  lemma OwnersShrinkStep(o0: map<string, Owner>, s: string, todo: set<Port>, o: map<string, Owner>, p: Port)
    requires OwnersShrink(o0, s, todo, o) && p in todo
    ensures OwnersShrink(o0, s, todo - {p}, Disowned(o, s, p))
  {
    assert Disowned(o, s, p) == OwnersLeft(o0, s, todo - {p});
  }

  lemma {:induction false} PartlyRemovedStep(st0: Proxy, s: string, todo: set<Port>, st: Proxy, p: Port)
    requires Inv(st) && p in todo && PartlyRemoved(st0, s, todo, st) && HasLb(st.tables, s, p)
    ensures PartlyRemoved(st0, s, todo - {p}, PortRemoved(st, s, p))
  {
    TablesShrinkStep(st0.tables, s, todo, st.tables, p);
    OwnersShrinkStep(st0.owners, s, todo, st.owners, p);
    ChainsShrinkStep(st0, s, todo, st, p);
    EntriesShrinkStep(st0, s, todo, st, p);
  }

  lemma PartlyRemovedStart(st0: Proxy, s: string)
    requires Inv(st0) && s in st0.tables
    ensures PartlyRemoved(st0, s, st0.tables[s].lbs.Keys, st0)
  {
    assert forall c <- st0.owners :: Live(st0, c, st0.owners[c]);
    var tb := st0.tables[s];
    assert Left(tb.lbs, tb.lbs.Keys) == tb.lbs;
    assert st0.tables[s := ServiceTable(tb.clusterIp, tb.lbs)] == st0.tables;
  }

  lemma {:induction false} PartlyRemovedEnd(st0: Proxy, s: string, st: Proxy)
    requires Inv(st) && PartlyRemoved(st0, s, {}, st)
    ensures Inv(st.(tables := st0.tables - {s})) && ServiceRemoved(st0, s, st.(tables := st0.tables - {s}))
  {
    var st' := st.(tables := st0.tables - {s});
    EmptyServiceGone(st0.tables, s, st.tables);
    SameTablesKeepInv(st, st');
    assert st.owners == OwnersWithout(st0.owners, s);
    RemovedEntries(st0, s, st.chains);
  }

  function ImageOf(eps: map<Ip, string>, ips: set<Ip>): set<string> {
    set ip | ip in ips && ip in eps :: eps[ip]
  }

  lemma ImageOfAll(eps: map<Ip, string>)
    ensures ImageOf(eps, eps.Keys) == eps.Values
  {
    forall c | c in eps.Values ensures c in ImageOf(eps, eps.Keys) {
      var ip := KeyOf(eps, c);
    }
  }

  /** The state after the endpoint chains outside `todo` of a dropped port have been deleted. */
  function EpsDropped(dropped: Proxy, eps: map<Ip, string>, todo: set<Ip>): Proxy {
    dropped.(chains := dropped.chains - ImageOf(eps, eps.Keys - todo))
  }

  /** The endpoint chains in `todo` are still there, unused. */
  ghost predicate EpsIdle(st: Proxy, eps: map<Ip, string>, todo: set<Ip>) {
    forall ip <- todo :: ip in eps && Idle(st, eps[ip])
  }

  predicate Injective(eps: map<Ip, string>) {
    forall ip, ip' | ip in eps && ip' in eps && ip != ip' :: eps[ip] != eps[ip']
  }

  lemma {:induction false} EpsDroppedStart(st: Proxy, s: string, p: Port)
    requires Inv(st) && HasLb(st.tables, s, p)
    ensures var eps := Lb(st.tables, s, p).eps;
            && Injective(eps)
            && EpsIdle(PortDropped(st, s, p), eps, eps.Keys)
            && EpsDropped(PortDropped(st, s, p), eps, eps.Keys) == PortDropped(st, s, p)
  {
    var eps := Lb(st.tables, s, p).eps;
    assert PortOwned(st.owners, Lb(st.tables, s, p), s, p);
    forall ip | ip in eps ensures Idle(PortDropped(st, s, p), eps[ip]) {
      EpsUnreferenced(st, s, p, ip);
    }
    assert eps.Keys - eps.Keys == {};
    assert ImageOf(eps, {}) == {};
  }

  lemma EpsDroppedStep(dropped: Proxy, eps: map<Ip, string>, todo: set<Ip>, ip: Ip)
    requires ip in todo && todo <= eps.Keys && Injective(eps)
    requires Inv(EpsDropped(dropped, eps, todo)) && EpsIdle(EpsDropped(dropped, eps, todo), eps, todo)
    ensures ChainDropped(EpsDropped(dropped, eps, todo), eps[ip]) == EpsDropped(dropped, eps, todo - {ip})
    ensures Inv(EpsDropped(dropped, eps, todo - {ip}))
    ensures EpsIdle(EpsDropped(dropped, eps, todo - {ip}), eps, todo - {ip})
  {
    hide Inv;
    var left := EpsDropped(dropped, eps, todo);
    ChainDroppedKeepsInv(left, eps[ip]);
    assert ImageOf(eps, eps.Keys - (todo - {ip})) == ImageOf(eps, eps.Keys - todo) + {eps[ip]};
    assert ChainDropped(left, eps[ip]) == EpsDropped(dropped, eps, todo - {ip});
    forall ip' | ip' in todo - {ip} ensures Idle(ChainDropped(left, eps[ip]), eps[ip']) {
      ChainDroppedKeepsIdle(left, eps[ip], eps[ip']);
    }
  }

  lemma EmptyServiceGone(t0: map<string, ServiceTable>, s: string, t: map<string, ServiceTable>)
    requires TablesShrink(t0, s, {}, t)
    ensures forall s', p :: SameAt(t, t0 - {s}, s', p)
  {
    forall s', p ensures SameAt(t, t0 - {s}, s', p) {
      if s' == s { assert p !in t[s].lbs; }
    }
  }

  lemma RemovedEntries(st0: Proxy, s: string, t: Table)
    requires ChainsShrink(st0, s, {}, t) && EntriesShrink(st0, s, {}, t)
    ensures forall c :: c in t <==> c in st0.chains && !(c in st0.owners && st0.owners[c].svc == s)
    ensures forall r <- t[KUBE_SERVICES] :: r in st0.chains[KUBE_SERVICES] && !(IsEntry(st0, r) && r.svc == s)
  {
  }
}
