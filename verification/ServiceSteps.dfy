/** The proxy's steps on values, each kept whole by the invariant: adding a service, a port and an
    endpoint, dropping a port, and deleting a chain nobody uses (rkube_proxy/src/k8s_iptables.rs). */
module ServiceSteps {
  import opened Common
  import opened Nat
  import opened ServiceTables

  function WithLb(tables: map<string, ServiceTable>, s: string, p: Port, lb: LBTable): map<string, ServiceTable>
    requires s in tables
  {
    tables[s := tables[s].(lbs := tables[s].lbs[p := lb])]
  }

  function WithoutLb(tables: map<string, ServiceTable>, s: string, p: Port): map<string, ServiceTable>
    requires s in tables
  {
    tables[s := tables[s].(lbs := tables[s].lbs - {p})]
  }

  /** The record without the chains of one service port. */
  function Disowned(owners: map<string, Owner>, s: string, p: Port): map<string, Owner> {
    map c | c in owners && !(owners[c].svc == s && owners[c].port == p) :: owners[c]
  }

  function ServiceNamed(st: Proxy, s: string, ip: Ip): Proxy {
    if s in st.tables then st else st.(tables := st.tables[s := ServiceTable(ip, map[])])
  }

  function PortAdded(st: Proxy, s: string, p: Port, targetPort: Port, c: string): Proxy
    requires s in st.tables && KUBE_SERVICES in st.chains
  {
    Proxy(WithLb(st.tables, s, p, LBTable(c, targetPort, map[])),
          st.chains[c := []][KUBE_SERVICES := st.chains[KUBE_SERVICES] + [SvcRule(st.tables[s].clusterIp, p, s, c)]],
          Disowned(st.owners, s, p)[c := LbOf(s, p)])
  }

  function EpAdded(st: Proxy, s: string, p: Port, ip: Ip, c: string, ips: seq<Ip>): Proxy
    requires HasLb(st.tables, s, p)
  {
    var lb := Lb(st.tables, s, p);
    var eps := lb.eps[ip := c];
    Proxy(WithLb(st.tables, s, p, lb.(eps := eps)),
          st.chains[c := [DnatRule(s, ip, lb.targetPort)]][lb.chain := LbRules(ips, eps)],
          (if ip in lb.eps then st.owners - {lb.eps[ip]} else st.owners)[c := EpOf(s, p, ip)])
  }

  function PortDropped(st: Proxy, s: string, p: Port): Proxy
    requires HasLb(st.tables, s, p) && KUBE_SERVICES in st.chains
  {
    Proxy(WithoutLb(st.tables, s, p),
          (st.chains - {Lb(st.tables, s, p).chain})[KUBE_SERVICES := RemoveFirst(st.chains[KUBE_SERVICES],
            EntryRule(st.tables, s, p))],
          Disowned(st.owners, s, p))
  }

  function ChainDropped(st: Proxy, c: string): Proxy {
    st.(chains := st.chains - {c})
  }

  /** The two service maps agree on every service port but (s, p). */
  ghost predicate SameBut(t: map<string, ServiceTable>, t': map<string, ServiceTable>, s: string, p: Port) {
    forall s', p' :: !(s' == s && p' == p) ==> SameAt(t, t', s', p')
  }

  ghost predicate SameAt(t: map<string, ServiceTable>, t': map<string, ServiceTable>, s: string, p: Port) {
    && HasLb(t', s, p) == HasLb(t, s, p)
    && (HasLb(t, s, p) ==> Lb(t', s, p) == Lb(t, s, p) && EntryRule(t', s, p) == EntryRule(t, s, p))
  }

  lemma WithLbIsLocal(t: map<string, ServiceTable>, s: string, p: Port, lb: LBTable)
    requires s in t
    ensures SameBut(t, WithLb(t, s, p, lb), s, p)
    ensures HasLb(WithLb(t, s, p, lb), s, p) && Lb(WithLb(t, s, p, lb), s, p) == lb
    ensures EntryRule(WithLb(t, s, p, lb), s, p) == SvcRule(t[s].clusterIp, p, s, lb.chain)
  {
    var t' := WithLb(t, s, p, lb);
    forall s', p' | !(s' == s && p' == p) ensures SameAt(t, t', s', p') {
    }
  }

  lemma WithoutLbIsLocal(t: map<string, ServiceTable>, s: string, p: Port)
    requires s in t
    ensures SameBut(t, WithoutLb(t, s, p), s, p)
    ensures !HasLb(WithoutLb(t, s, p), s, p)
  {
    var t' := WithoutLb(t, s, p);
    forall s', p' | !(s' == s && p' == p) ensures SameAt(t, t', s', p') {
    }
  }

  lemma LiveFrame(st: Proxy, st': Proxy, c: string, o: Owner)
    requires Live(st, c, o) && c in st'.chains && st'.chains[c] == st.chains[c]
    requires SameAt(st.tables, st'.tables, o.svc, o.port)
    ensures Live(st', c, o)
  {
  }

  lemma FreshIsUnowned(st: Proxy, c: string)
    requires Inv(st) && c !in st.chains
    ensures c !in st.owners && c != KUBE_SERVICES
  {
    assert forall d <- st.owners :: Live(st, d, st.owners[d]);
  }

  // ---------- naming a service ----------

  lemma {:induction false} ServiceNamedKeepsInv(st: Proxy, s: string, ip: Ip)
    requires Inv(st)
    ensures Inv(ServiceNamed(st, s, ip))
  {
    var st' := ServiceNamed(st, s, ip);
    forall s', p' ensures SameAt(st.tables, st'.tables, s', p') {
    }
    SameTablesKeepInv(st, st');
  }

  lemma {:induction false} SameTablesKeepInv(st: Proxy, st': Proxy)
    requires Inv(st) && st'.chains == st.chains && st'.owners == st.owners
    requires forall s, p :: SameAt(st.tables, st'.tables, s, p)
    ensures Inv(st')
  {
    forall s, p | HasLb(st'.tables, s, p) ensures PortOwned(st'.owners, Lb(st'.tables, s, p), s, p) {
      assert SameAt(st.tables, st'.tables, s, p);
    }
    forall c | c in st'.owners ensures Live(st', c, st'.owners[c]) {
      LiveFrame(st, st', c, st.owners[c]);
    }
    forall s, p | HasLb(st'.tables, s, p) ensures EntryRule(st'.tables, s, p) in st'.chains[KUBE_SERVICES] {
      assert SameAt(st.tables, st'.tables, s, p);
    }
    forall r | r in st'.chains[KUBE_SERVICES] && EntersLive(st', r) ensures IsEntry(st', r) {
      EntryTargets(st, r);
      assert SameAt(st.tables, st'.tables, r.svc, r.dport);
    }
    forall c | c in st'.chains && c !in st'.owners && c != KUBE_SERVICES ensures ChainClear(st', c) {
      assert ChainClear(st, c);
    }
  }

  // ---------- adding a port ----------

  /** The relation between the states before and after adding a port. */
  ghost predicate AddsPort(st: Proxy, st': Proxy, s: string, p: Port, c: string) {
    && SameBut(st.tables, st'.tables, s, p)
    && HasLb(st'.tables, s, p)
    && Lb(st'.tables, s, p).chain == c && Lb(st'.tables, s, p).eps == map[]
    && st'.owners == Disowned(st.owners, s, p)[c := LbOf(s, p)]
    && KUBE_SERVICES in st.chains
    && st'.chains == st.chains[c := []][KUBE_SERVICES := st.chains[KUBE_SERVICES] + [EntryRule(st'.tables, s, p)]]
  }

  lemma PortAddedOwned(st: Proxy, st': Proxy, s: string, p: Port, c: string)
    requires TablesOwned(st) && AddsPort(st, st', s, p, c) && c !in st.owners
    ensures TablesOwned(st')
  {
    forall s', p' | HasLb(st'.tables, s', p') ensures PortOwned(st'.owners, Lb(st'.tables, s', p'), s', p') {
      if !(s' == s && p' == p) {
        assert SameAt(st.tables, st'.tables, s', p');
        assert PortOwned(st.owners, Lb(st.tables, s', p'), s', p');
      }
    }
  }

  lemma PortAddedLive(st: Proxy, st': Proxy, s: string, p: Port, c: string)
    requires OwnersLive(st) && AddsPort(st, st', s, p, c) && c !in st.owners && c != KUBE_SERVICES
    ensures OwnersLive(st')
  {
    forall d | d in st'.owners ensures Live(st', d, st'.owners[d]) {
      if d == c {
        assert LbRules([], map[]) == [] && Enumerates([], map[]);
      } else {
        assert SameAt(st.tables, st'.tables, st.owners[d].svc, st.owners[d].port);
        LiveFrame(st, st', d, st.owners[d]);
      }
    }
  }

  lemma PortAddedEntries(st: Proxy, st': Proxy, s: string, p: Port, c: string)
    requires Inv(st) && AddsPort(st, st', s, p, c) && c !in st.chains
    ensures Entries(st')
  {
    var before, rule := st.chains[KUBE_SERVICES], EntryRule(st'.tables, s, p);
    assert TargetExists(st.chains, rule) <==> false;
    NoDupAppend(before, rule);
    forall s', p' | HasLb(st'.tables, s', p') ensures EntryRule(st'.tables, s', p') in before + [rule] {
      assert (s' == s && p' == p) || SameAt(st.tables, st'.tables, s', p');
    }
    forall r | r in before + [rule] && EntersLive(st', r) ensures IsEntry(st', r) {
      if r in before {
        assert TargetExists(st.chains, r);
        EntryTargets(st, r);
        assert SameAt(st.tables, st'.tables, r.svc, r.dport);
      }
    }
  }

  lemma {:induction false} PortAddedOthers(st: Proxy, st': Proxy, s: string, p: Port, c: string)
    requires Inv(st) && AddsPort(st, st', s, p, c) && c !in st.chains
    ensures OthersClear(st')
  {
    forall d | d in st'.chains && d !in st'.owners && d != KUBE_SERVICES ensures ChainClear(st', d) {
      forall r | r in st'.chains[d] ensures !EntersLive(st', r) {
        assert TargetExists(st.chains, r);
        if d in st.owners {
          OwnedChainTargets(st, d, r);
        } else {
          assert ChainClear(st, d);
        }
      }
    }
  }

  lemma PortAddedReachable(st: Proxy, st': Proxy, s: string, p: Port, c: string)
    requires NoDangling(st.chains) && AddsPort(st, st', s, p, c)
    ensures NoDangling(st'.chains)
  {
    forall d, r | d in st'.chains && r in st'.chains[d] ensures TargetExists(st'.chains, r) {
      if r != EntryRule(st'.tables, s, p) {
        assert TargetExists(st.chains, r);
      }
    }
  }

  lemma PortAddedKeepsInv(st: Proxy, s: string, p: Port, targetPort: Port, c: string)
    requires Inv(st) && s in st.tables && c !in st.chains
    ensures Inv(PortAdded(st, s, p, targetPort, c))
  {
    var st' := PortAdded(st, s, p, targetPort, c);
    WithLbIsLocal(st.tables, s, p, LBTable(c, targetPort, map[]));
    FreshIsUnowned(st, c);
    PortAddedOwned(st, st', s, p, c);
    PortAddedLive(st, st', s, p, c);
    PortAddedEntries(st, st', s, p, c);
    PortAddedOthers(st, st', s, p, c);
    PortAddedReachable(st, st', s, p, c);
  }

  // ---------- adding an endpoint ----------

  /** The relation between the states before and after adding an endpoint to one load balancer. */
  ghost predicate AddsEp(st: Proxy, st': Proxy, s: string, p: Port, ip: Ip, c: string, ips: seq<Ip>) {
    && SameBut(st.tables, st'.tables, s, p)
    && HasLb(st.tables, s, p) && HasLb(st'.tables, s, p)
    && var lb := Lb(st.tables, s, p);
       var eps := lb.eps[ip := c];
    && Lb(st'.tables, s, p) == lb.(eps := eps)
    && EntryRule(st'.tables, s, p) == EntryRule(st.tables, s, p)
    && Enumerates(ips, eps)
    && st'.chains == st.chains[c := [DnatRule(s, ip, lb.targetPort)]][lb.chain := LbRules(ips, eps)]
    && st'.owners == (if ip in lb.eps then st.owners - {lb.eps[ip]} else st.owners)[c := EpOf(s, p, ip)]
  }

  /** The chains involved in adding an endpoint are different chains. */
  ghost predicate NamesApart(st: Proxy, s: string, p: Port, ip: Ip, c: string)
    requires HasLb(st.tables, s, p)
  {
    var lb := Lb(st.tables, s, p);
    && Owns(st.owners, lb.chain, LbOf(s, p)) && lb.chain in st.chains && lb.chain != c && lb.chain != KUBE_SERVICES
    && c !in st.owners && c != KUBE_SERVICES && c !in st.chains
    && (ip in lb.eps ==> Owns(st.owners, lb.eps[ip], EpOf(s, p, ip)))
  }

  lemma EpAddedNames(st: Proxy, s: string, p: Port, ip: Ip, c: string)
    requires Inv(st) && HasLb(st.tables, s, p) && c !in st.chains
    ensures NamesApart(st, s, p, ip, c)
  {
    FreshIsUnowned(st, c);
    var lb := Lb(st.tables, s, p);
    assert PortOwned(st.owners, lb, s, p);
    assert Live(st, lb.chain, LbOf(s, p));
  }

  lemma EpAddedOwned(st: Proxy, st': Proxy, s: string, p: Port, ip: Ip, c: string, ips: seq<Ip>)
    requires TablesOwned(st) && AddsEp(st, st', s, p, ip, c, ips) && NamesApart(st, s, p, ip, c)
    ensures TablesOwned(st')
  {
    forall s', p' | HasLb(st'.tables, s', p') ensures PortOwned(st'.owners, Lb(st'.tables, s', p'), s', p') {
      if s' == s && p' == p {
        assert PortOwned(st.owners, Lb(st.tables, s, p), s, p);
      } else {
        assert SameAt(st.tables, st'.tables, s', p');
        assert PortOwned(st.owners, Lb(st.tables, s', p'), s', p');
      }
    }
  }

  lemma EpAddedLive(st: Proxy, st': Proxy, s: string, p: Port, ip: Ip, c: string, ips: seq<Ip>)
    requires OwnersLive(st) && AddsEp(st, st', s, p, ip, c, ips) && NamesApart(st, s, p, ip, c)
    ensures OwnersLive(st')
  {
    var lb := Lb(st.tables, s, p);
    forall d | d in st'.owners ensures Live(st', d, st'.owners[d]) {
      if d == c {
      } else if d == lb.chain {
        assert Balances(st'.chains[d], lb.eps[ip := c]);
      } else {
        var o := st.owners[d];
        assert Live(st, d, o);
        if o.svc == s && o.port == p {
          assert Serves(st.chains[d], lb, d, o);
          assert o == EpOf(s, p, o.ip) && o.ip != ip;
        } else {
          assert SameAt(st.tables, st'.tables, o.svc, o.port);
          LiveFrame(st, st', d, o);
        }
      }
    }
  }

  lemma EpAddedEntries(st: Proxy, st': Proxy, s: string, p: Port, ip: Ip, c: string, ips: seq<Ip>)
    requires Inv(st) && AddsEp(st, st', s, p, ip, c, ips) && NamesApart(st, s, p, ip, c)
    ensures Entries(st')
  {
    forall s', p' | HasLb(st'.tables, s', p') ensures EntryRule(st'.tables, s', p') in st'.chains[KUBE_SERVICES] {
      assert (s' == s && p' == p) || SameAt(st.tables, st'.tables, s', p');
      assert HasLb(st.tables, s', p');
    }
    forall r | r in st'.chains[KUBE_SERVICES] && EntersLive(st', r) ensures IsEntry(st', r) {
      assert TargetExists(st.chains, r);
      EntryTargets(st, r);
      assert (r.svc == s && r.dport == p) || SameAt(st.tables, st'.tables, r.svc, r.dport);
    }
  }

  /** A chain that is not live afterwards is as it was, and was not live before unless it is the replaced one. */
  lemma EpAddedElsewhere(st: Proxy, st': Proxy, s: string, p: Port, ip: Ip, c: string, ips: seq<Ip>, d: string)
    requires AddsEp(st, st', s, p, ip, c, ips) && NamesApart(st, s, p, ip, c)
    requires d in st'.chains && d !in st'.owners
    ensures d in st.chains && st'.chains[d] == st.chains[d]
    ensures d in st.owners ==> st.owners[d] == EpOf(s, p, ip)
  {
    hide SameBut, Enumerates, EntryRule, LbRules;
    var eps := Lb(st.tables, s, p).eps;
    assert st'.owners.Keys >= st.owners.Keys - (if ip in eps then {eps[ip]} else {});
  }

  lemma EpAddedOwners(st: Proxy, st': Proxy, s: string, p: Port, ip: Ip, c: string, ips: seq<Ip>)
    requires AddsEp(st, st', s, p, ip, c, ips)
    ensures st'.owners.Keys <= st.owners.Keys + {c}
  {
    hide SameBut, Enumerates, EntryRule, LbRules;
  }

  lemma EpAddedOthers(st: Proxy, st': Proxy, s: string, p: Port, ip: Ip, c: string, ips: seq<Ip>)
    requires Inv(st) && AddsEp(st, st', s, p, ip, c, ips) && NamesApart(st, s, p, ip, c)
    ensures OthersClear(st')
  {
    assert c !in st.chains;
    EpAddedOwners(st, st', s, p, ip, c, ips);
    hide AddsEp, NamesApart;
    forall d | d in st'.chains && d !in st'.owners && d != KUBE_SERVICES ensures ChainClear(st', d) {
      EpAddedElsewhere(st, st', s, p, ip, c, ips, d);
      hide TablesOwned, OwnersLive, Entries;
      forall r | r in st'.chains[d] ensures !EntersLive(st', r) {
        assert TargetExists(st.chains, r);
        if d in st.owners {
          OwnedChainTargets(st, d, r);
        } else {
          assert ChainClear(st, d);
        }
      }
    }
  }

  lemma EpAddedReachable(st: Proxy, st': Proxy, s: string, p: Port, ip: Ip, c: string, ips: seq<Ip>)
    requires Inv(st) && AddsEp(st, st', s, p, ip, c, ips) && NamesApart(st, s, p, ip, c)
    ensures NoDangling(st'.chains)
  {
    var lb := Lb(st.tables, s, p);
    var eps := lb.eps[ip := c];
    forall d, r | d in st'.chains && r in st'.chains[d] ensures TargetExists(st'.chains, r) {
      if d == lb.chain {
        assert Balances(LbRules(ips, eps), eps);
        BalancesTargets(LbRules(ips, eps), eps);
        var ip' :| ip' in eps && eps[ip'] == r.chain;
        if ip' != ip {
          assert PortOwned(st.owners, lb, s, p);
          assert Live(st, lb.eps[ip'], EpOf(s, p, ip'));
        }
      } else if d != c {
        assert TargetExists(st.chains, r);
      }
    }
  }

  lemma {:induction false} EpAddedKeepsInv(st: Proxy, s: string, p: Port, ip: Ip, c: string, ips: seq<Ip>)
    requires Inv(st) && HasLb(st.tables, s, p) && c !in st.chains
    requires Enumerates(ips, Lb(st.tables, s, p).eps[ip := c])
    ensures Inv(EpAdded(st, s, p, ip, c, ips))
  {
    var st' := EpAdded(st, s, p, ip, c, ips);
    var lb := Lb(st.tables, s, p);
    WithLbIsLocal(st.tables, s, p, lb.(eps := lb.eps[ip := c]));
    EpAddedNames(st, s, p, ip, c);
    EpAddedOwned(st, st', s, p, ip, c, ips);
    EpAddedLive(st, st', s, p, ip, c, ips);
    EpAddedEntries(st, st', s, p, ip, c, ips);
    EpAddedOthers(st, st', s, p, ip, c, ips);
    EpAddedReachable(st, st', s, p, ip, c, ips);
  }

  /** Adding an endpoint changes one load balancer of one service. */
  lemma EpAddedAt(st: Proxy, s: string, p: Port, ip: Ip, c: string, ips: seq<Ip>)
    requires HasLb(st.tables, s, p)
    ensures var t, t' := st.tables, EpAdded(st, s, p, ip, c, ips).tables;
            && s in t' && t' == t[s := t'[s]]
            && t'[s].clusterIp == t[s].clusterIp
            && t'[s].lbs.Keys == t[s].lbs.Keys
            && t'[s].lbs[p] == t[s].lbs[p].(eps := t[s].lbs[p].eps[ip := c])
            && forall q <- t[s].lbs :: q != p ==> t'[s].lbs[q] == t[s].lbs[q]
  {
  }

  // ---------- dropping a port ----------

  /** The relation between the states before and after dropping a port; its endpoint chains stay behind. */
  ghost predicate DropsPort(st: Proxy, st': Proxy, s: string, p: Port) {
    && SameBut(st.tables, st'.tables, s, p)
    && HasLb(st.tables, s, p) && !HasLb(st'.tables, s, p)
    && KUBE_SERVICES in st.chains
    && st'.chains ==
      (st.chains - {Lb(st.tables, s, p).chain})[KUBE_SERVICES := RemoveFirst(st.chains[KUBE_SERVICES],
      EntryRule(st.tables, s, p))]
    && st'.owners == Disowned(st.owners, s, p)
  }

  /** Once its entry rule is gone no rule refers to a load-balancing chain. */
  lemma LbUnreferenced(st: Proxy, s: string, p: Port)
    requires Inv(st) && HasLb(st.tables, s, p)
    ensures KUBE_SERVICES in st.chains
    ensures var lb := Lb(st.tables, s, p);
            && EntryRule(st.tables, s, p) in st.chains[KUBE_SERVICES]
            && lb.chain in st.chains && lb.chain != KUBE_SERVICES
            && var t := st.chains[KUBE_SERVICES := RemoveFirst(st.chains[KUBE_SERVICES],
              EntryRule(st.tables, s, p))][lb.chain := []];
               !Referenced(t, lb.chain)
  {
    var lb, rule := Lb(st.tables, s, p), EntryRule(st.tables, s, p);
    assert PortOwned(st.owners, lb, s, p);
    assert Live(st, lb.chain, LbOf(s, p));
    var t := st.chains[KUBE_SERVICES := RemoveFirst(st.chains[KUBE_SERVICES], rule)][lb.chain := []];
    RemoveFirstMembers(st.chains[KUBE_SERVICES], rule);
    forall c, r | c in t && r in t[c] ensures Target(r) != Some(lb.chain) {
      assert r in st.chains[c];
      if Target(r) == Some(lb.chain) {
        LbReferences(st, s, p, c, r);
      }
    }
  }

  lemma PortDroppedOwned(st: Proxy, st': Proxy, s: string, p: Port)
    requires TablesOwned(st) && DropsPort(st, st', s, p)
    ensures TablesOwned(st')
  {
    forall s', p' | HasLb(st'.tables, s', p') ensures PortOwned(st'.owners, Lb(st'.tables, s', p'), s', p') {
      assert SameAt(st.tables, st'.tables, s', p');
      assert PortOwned(st.owners, Lb(st.tables, s', p'), s', p');
    }
  }

  lemma PortDroppedLive(st: Proxy, st': Proxy, s: string, p: Port)
    requires TablesOwned(st) && OwnersLive(st) && DropsPort(st, st', s, p)
    ensures OwnersLive(st')
  {
    assert PortOwned(st.owners, Lb(st.tables, s, p), s, p);
    forall d | d in st'.owners ensures Live(st', d, st'.owners[d]) {
      assert SameAt(st.tables, st'.tables, st.owners[d].svc, st.owners[d].port);
      LiveFrame(st, st', d, st.owners[d]);
    }
  }

  lemma PortDroppedEntries(st: Proxy, st': Proxy, s: string, p: Port)
    requires Inv(st) && DropsPort(st, st', s, p)
    ensures Entries(st')
  {
    RemoveFirstMembers(st.chains[KUBE_SERVICES], EntryRule(st.tables, s, p));
    forall s', p' | HasLb(st'.tables, s', p') ensures EntryRule(st'.tables, s', p') in st'.chains[KUBE_SERVICES] {
      assert SameAt(st.tables, st'.tables, s', p');
      assert EntryRule(st.tables, s', p') in st.chains[KUBE_SERVICES];
    }
    forall r | r in st'.chains[KUBE_SERVICES] && EntersLive(st', r) ensures IsEntry(st', r) {
      EntryTargets(st, r);
      assert SameAt(st.tables, st'.tables, r.svc, r.dport);
    }
  }

  lemma PortDroppedOthers(st: Proxy, st': Proxy, s: string, p: Port)
    requires Inv(st) && DropsPort(st, st', s, p)
    ensures OthersClear(st')
  {
    forall d | d in st'.chains && d !in st'.owners && d != KUBE_SERVICES ensures ChainClear(st', d) {
      forall r | r in st'.chains[d] ensures !EntersLive(st', r) {
        if d in st.owners {
          OwnedChainTargets(st, d, r);
        } else {
          assert ChainClear(st, d);
        }
      }
    }
  }

  lemma PortDroppedReachable(st: Proxy, st': Proxy, s: string, p: Port)
    requires Inv(st) && DropsPort(st, st', s, p)
    ensures NoDangling(st'.chains)
  {
    var lb := Lb(st.tables, s, p);
    RemoveFirstMembers(st.chains[KUBE_SERVICES], EntryRule(st.tables, s, p));
    forall d, r | d in st'.chains && r in st'.chains[d] ensures TargetExists(st'.chains, r) {
      assert r in st.chains[d] && TargetExists(st.chains, r);
      if Target(r) == Some(lb.chain) {
        LbReferences(st, s, p, d, r);
      }
    }
  }

  lemma {:induction false} PortDroppedKeepsInv(st: Proxy, s: string, p: Port)
    requires Inv(st) && HasLb(st.tables, s, p)
    ensures Inv(PortDropped(st, s, p))
  {
    var st' := PortDropped(st, s, p);
    WithoutLbIsLocal(st.tables, s, p);
    PortDroppedOwned(st, st', s, p);
    PortDroppedLive(st, st', s, p);
    PortDroppedEntries(st, st', s, p);
    PortDroppedOthers(st, st', s, p);
    PortDroppedReachable(st, st', s, p);
  }

  /** After dropping a port its endpoint chains remain, recorded nowhere and entered from nowhere. */
  lemma {:induction false} EpsUnreferenced(st: Proxy, s: string, p: Port, ip: Ip)
    requires Inv(st) && HasLb(st.tables, s, p) && ip in Lb(st.tables, s, p).eps
    ensures Idle(PortDropped(st, s, p), Lb(st.tables, s, p).eps[ip])
  {
    var st' := PortDropped(st, s, p);
    var lb := Lb(st.tables, s, p);
    var c := lb.eps[ip];
    assert PortOwned(st.owners, lb, s, p);
    assert Live(st, c, EpOf(s, p, ip)) && Live(st, lb.chain, LbOf(s, p));
    RemoveFirstMembers(st.chains[KUBE_SERVICES], EntryRule(st.tables, s, p));
    forall d, r | d in st'.chains && r in st'.chains[d] ensures Target(r) != Some(c) {
      assert r in st.chains[d];
      if Target(r) == Some(c) {
        EpReferences(st, s, p, ip, d, r);
      }
    }
  }

  // ---------- deleting an idle chain ----------

  /** A chain that exists, is recorded nowhere and is entered from nowhere. */
  ghost predicate Idle(st: Proxy, c: string) {
    c in st.chains && c !in st.owners && c != KUBE_SERVICES && !Referenced(st.chains, c)
  }

  lemma ChainDroppedKeepsInv(st: Proxy, c: string)
    requires Inv(st) && Idle(st, c)
    ensures Inv(ChainDropped(st, c))
  {
    var st' := ChainDropped(st, c);
    forall d | d in st'.owners ensures Live(st', d, st'.owners[d]) {
      assert Live(st, d, st.owners[d]);
    }
    forall r | r in st'.chains[KUBE_SERVICES] && EntersLive(st', r) ensures IsEntry(st', r) {
      assert EntersLive(st, r);
      assert IsEntry(st, r);
    }
    forall d | d in st'.chains && d !in st'.owners && d != KUBE_SERVICES ensures ChainClear(st', d) {
      assert ChainClear(st, d);
    }
    forall d, r | d in st'.chains && r in st'.chains[d] ensures TargetExists(st'.chains, r) {
      assert TargetExists(st.chains, r);
    }
  }

  lemma ChainDroppedKeepsIdle(st: Proxy, c: string, d: string)
    requires Idle(st, d) && c != d
    ensures Idle(ChainDropped(st, c), d)
  {
  }
}
