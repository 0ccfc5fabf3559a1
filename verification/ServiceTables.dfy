/** The service proxy's bookkeeping, and what it means for the nat table to be the one it determines
    (rkube_proxy/src/k8s_iptables.rs). */
module ServiceTables {
  import opened Common
  import opened Nat

  datatype LBTable = LBTable(chain: string, targetPort: Port, eps: map<Ip, string>)

  datatype ServiceTable = ServiceTable(clusterIp: Ip, lbs: map<Port, LBTable>)

  /** What a chain the proxy created is for. */
  datatype Owner = LbOf(svc: string, port: Port) | EpOf(svc: string, port: Port, ip: Ip)

  /** The proxy's service map, the nat table, and a record of which live chain serves what. */
  datatype Proxy = Proxy(tables: map<string, ServiceTable>, chains: Table, owners: map<string, Owner>)

  predicate HasLb(tables: map<string, ServiceTable>, s: string, p: Port) {
    s in tables && p in tables[s].lbs
  }

  function Lb(tables: map<string, ServiceTable>, s: string, p: Port): LBTable
    requires HasLb(tables, s, p)
  {
    tables[s].lbs[p]
  }

  /** The rule that leads from the service's cluster address and port to its load balancer. */
  function EntryRule(tables: map<string, ServiceTable>, s: string, p: Port): Rule
    requires HasLb(tables, s, p)
  {
    SvcRule(tables[s].clusterIp, p, s, tables[s].lbs[p].chain)
  }

  function EpChain(eps: map<Ip, string>, ip: Ip): string {
    if ip in eps then eps[ip] else ""
  }

  /** The load-balancing chain after inserting rule 1, 2, ... at the top, for endpoints in the order `ips`. */
  function LbRules(ips: seq<Ip>, eps: map<Ip, string>): seq<Rule> {
    if ips == [] then []
    else [LbRule(|ips|, EpChain(eps, ips[|ips| - 1]))] + LbRules(ips[..|ips| - 1], eps)
  }

  predicate Enumerates(ips: seq<Ip>, eps: map<Ip, string>) {
    multiset(ips) == multiset(eps.Keys)
  }

  /** `rules` balances over exactly the endpoints of `eps`, each once, in some order. */
  ghost predicate Balances(rules: seq<Rule>, eps: map<Ip, string>) {
    exists ips :: Enumerates(ips, eps) && rules == LbRules(ips, eps)
  }

  lemma {:induction false} LbRulesTargets(ips: seq<Ip>, eps: map<Ip, string>)
    requires forall ip <- ips :: ip in eps
    ensures forall r <- LbRules(ips, eps) :: r.LbRule? && exists ip :: ip in eps && eps[ip] == r.chain
  {
    if ips != [] {
      LbRulesTargets(ips[..|ips| - 1], eps);
      assert ips[|ips| - 1] in ips;
    }
  }

  lemma BalancesTargets(rules: seq<Rule>, eps: map<Ip, string>)
    requires Balances(rules, eps)
    ensures forall r <- rules :: r.LbRule? && exists ip :: ip in eps && eps[ip] == r.chain
  {
    var ips :| Enumerates(ips, eps) && rules == LbRules(ips, eps);
    forall ip | ip in ips ensures ip in eps { assert ip in multiset(ips); }
    LbRulesTargets(ips, eps);
  }

  // ---------- the invariant ----------

  /** Every chain the service map names is recorded under its purpose. */
  ghost predicate TablesOwned(st: Proxy) {
    forall s, p | HasLb(st.tables, s, p) :: PortOwned(st.owners, Lb(st.tables, s, p), s, p)
  }

  ghost predicate PortOwned(owners: map<string, Owner>, lb: LBTable, s: string, p: Port) {
    && Owns(owners, lb.chain, LbOf(s, p))
    && forall ip <- lb.eps :: Owns(owners, lb.eps[ip], EpOf(s, p, ip))
  }

  predicate Owns(owners: map<string, Owner>, c: string, o: Owner) {
    c in owners && owners[c] == o
  }

  /** The chain exists and holds exactly what the service map says. */
  ghost predicate Live(st: Proxy, c: string, o: Owner) {
    && c in st.chains && c != KUBE_SERVICES
    && HasLb(st.tables, o.svc, o.port)
    && Serves(st.chains[c], Lb(st.tables, o.svc, o.port), c, o)
  }

  ghost predicate Serves(rules: seq<Rule>, lb: LBTable, c: string, o: Owner) {
    match o
    case LbOf(_, _) => lb.chain == c && Balances(rules, lb.eps)
    case EpOf(s, _, ip) => ip in lb.eps && lb.eps[ip] == c && rules == [DnatRule(s, ip, lb.targetPort)]
  }

  ghost predicate OwnersLive(st: Proxy) {
    forall c <- st.owners :: Live(st, c, st.owners[c])
  }

  /** Every service port has exactly one entry rule, and nothing else enters a live chain. */
  ghost predicate Entries(st: Proxy) {
    && KUBE_SERVICES in st.chains
    && NoDup(st.chains[KUBE_SERVICES])
    && (forall s, p | HasLb(st.tables, s, p) :: EntryRule(st.tables, s, p) in st.chains[KUBE_SERVICES])
    && (forall r <- st.chains[KUBE_SERVICES] :: EntersLive(st, r) ==> IsEntry(st, r))
  }

  predicate EntersLive(st: Proxy, r: Rule) {
    Target(r).Some? && Target(r).value in st.owners
  }

  predicate IsEntry(st: Proxy, r: Rule) {
    r.SvcRule? && HasLb(st.tables, r.svc, r.dport) && r == EntryRule(st.tables, r.svc, r.dport)
  }

  /** No chain outside the proxy's live ones jumps into them. */
  ghost predicate OthersClear(st: Proxy) {
    forall c <- st.chains :: c !in st.owners && c != KUBE_SERVICES ==> ChainClear(st, c)
  }

  predicate ChainClear(st: Proxy, c: string)
    requires c in st.chains
  {
    forall r <- st.chains[c] :: !EntersLive(st, r)
  }

  ghost predicate NoDangling(t: Table) {
    forall c <- t :: forall r <- t[c] :: TargetExists(t, r)
  }

  ghost predicate Inv(st: Proxy) {
    TablesOwned(st) && OwnersLive(st) && Entries(st) && OthersClear(st) && NoDangling(st.chains)
  }

  /** The nat table is exactly the one the service map determines, on top of the foreign chains `base`. */
  ghost predicate Exact(st: Proxy, base: Table) {
    Inv(st) && Tight(st, base) && OnlyEntries(st)
  }

  ghost predicate Tight(st: Proxy, base: Table) {
    && (forall c :: c in st.chains <==> c in base || c in st.owners || c == KUBE_SERVICES)
    && (forall c <- base :: c != KUBE_SERVICES ==> c !in st.owners && st.chains[c] == base[c])
  }

  ghost predicate OnlyEntries(st: Proxy) {
    KUBE_SERVICES in st.chains && forall r <- st.chains[KUBE_SERVICES] :: IsEntry(st, r)
  }

  // ---------- who can refer to a live chain ----------

  /** An entry into a live chain is the entry rule of that load-balancing chain. */
  lemma EntryTargets(st: Proxy, r: Rule)
    requires Inv(st) && r in st.chains[KUBE_SERVICES] && EntersLive(st, r)
    ensures IsEntry(st, r) && st.owners[Target(r).value] == LbOf(r.svc, r.dport)
  {
    assert IsEntry(st, r);
    assert PortOwned(st.owners, Lb(st.tables, r.svc, r.dport), r.svc, r.dport);
  }

  /** A rule of a live chain jumps nowhere or to an endpoint chain of the same service port. */
  lemma OwnedChainTargets(st: Proxy, c: string, r: Rule)
    requires Inv(st) && c in st.owners && c in st.chains && r in st.chains[c]
    ensures Target(r).Some? ==> exists ip ::
              && st.owners[c] == LbOf(st.owners[c].svc, st.owners[c].port)
              && Owns(st.owners, Target(r).value, EpOf(st.owners[c].svc, st.owners[c].port, ip))
  {
    var o := st.owners[c];
    assert Live(st, c, o);
    if o.LbOf? {
      var lb := Lb(st.tables, o.svc, o.port);
      BalancesTargets(st.chains[c], lb.eps);
      var ip :| ip in lb.eps && lb.eps[ip] == r.chain;
      assert PortOwned(st.owners, lb, o.svc, o.port);
    }
  }

  /** Only the entry rule refers to a live load-balancing chain. */
  lemma LbReferences(st: Proxy, s: string, p: Port, c: string, r: Rule)
    requires Inv(st) && HasLb(st.tables, s, p)
    requires c in st.chains && r in st.chains[c] && Target(r) == Some(Lb(st.tables, s, p).chain)
    ensures c == KUBE_SERVICES && r == EntryRule(st.tables, s, p)
  {
    assert PortOwned(st.owners, Lb(st.tables, s, p), s, p);
    assert EntersLive(st, r);
    if c in st.owners {
      OwnedChainTargets(st, c, r);
    } else if c == KUBE_SERVICES {
      EntryTargets(st, r);
    }
  }

  /** Only the service port's load-balancing chain refers to a live endpoint chain. */
  lemma EpReferences(st: Proxy, s: string, p: Port, ip: Ip, c: string, r: Rule)
    requires Inv(st) && HasLb(st.tables, s, p) && ip in Lb(st.tables, s, p).eps
    requires c in st.chains && r in st.chains[c] && Target(r) == Some(Lb(st.tables, s, p).eps[ip])
    ensures c == Lb(st.tables, s, p).chain
  {
    assert PortOwned(st.owners, Lb(st.tables, s, p), s, p);
    assert EntersLive(st, r);
    if c in st.owners {
      OwnedChainTargets(st, c, r);
      assert Live(st, c, st.owners[c]);
    } else if c == KUBE_SERVICES {
      EntryTargets(st, r);
    }
  }
}
