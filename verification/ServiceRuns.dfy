/** Whole runs of the service proxy: the nat table stays exactly the one its service map determines,
    and deleting a service undoes its addition whatever happened to other services in between. */
module ServiceRuns {
  import opened Nat
  import opened ServiceTables
  import opened ServiceSteps
  import opened ServiceChanges

  datatype Notification = Add(added: Service) | Update(before: Service, after: Service) | Delete(deleted: Service)

  ghost predicate Deleted(st: Proxy, s: string, st': Proxy) {
    && Inv(st')
    && if s in st.tables then ServiceRemoved(st, s, st') else st' == st
  }

  /** The notification adds at most a service that is absent and has distinct ports. */
  predicate Clean(st: Proxy, n: Notification) {
    match n
    case Add(svc) => Addable(st.tables, svc)
    case Update(before, after) => Addable(st.tables - {before.name}, after)
    case Delete(_) => true
  }

  /** What handling a clean notification does. */
  ghost predicate Handled(st: Proxy, n: Notification, st': Proxy) {
    match n
    case Add(svc) => ServiceAdded(st, svc, st')
    case Update(before, after) => exists mid :: Deleted(st, before.name, mid) && ServiceAdded(mid, after, st')
    case Delete(svc) => Deleted(st, svc.name, st')
  }

  /** A run: the states before, between and after handling the notifications. */
  ghost predicate Run(trace: seq<Proxy>, ns: seq<Notification>) {
    |trace| == |ns| + 1 && forall i {:trigger ns[i]} :: 0 <= i < |ns| ==> Handled(trace[i], ns[i], trace[i + 1])
  }

  // ---------- exactness ----------

  lemma {:induction false} EntryRulesMembers(t: map<string, ServiceTable>, s: string, ports: seq<Port>)
    requires forall p <- ports :: HasLb(t, s, p)
    ensures forall r <- EntryRules(t, s, ports) ::
      r.SvcRule? && r.svc == s && HasLb(t, s, r.dport) && r == EntryRule(t, s, r.dport)
  {
    if ports != [] {
      EntryRulesMembers(t, s, ports[..|ports| - 1]);
    }
  }

  lemma AdditionEntries(st0: Proxy, s: string, st: Proxy, ports: seq<Port>)
    requires OnlyEntries(st0) && Built(st0, st, s, ports)
    ensures OnlyEntries(st)
  {
    EntryRulesMembers(st.tables, s, ports);
    forall r | r in st.chains[KUBE_SERVICES] ensures IsEntry(st, r) {
      assert r in st0.chains[KUBE_SERVICES] || r in EntryRules(st.tables, s, ports);
      if r in st0.chains[KUBE_SERVICES] {
        assert IsEntry(st0, r);
        assert r.svc in st0.tables && r.svc != s;
      }
    }
  }

  lemma AdditionTight(st0: Proxy, s: string, st: Proxy, ports: seq<Port>, base: Table)
    requires Tight(st0, base) && Built(st0, st, s, ports) && KUBE_SERVICES !in st.owners
    ensures Tight(st, base)
  {
    forall c | c in base && c != KUBE_SERVICES ensures c !in st.owners && st.chains[c] == base[c] {
      assert c in st0.chains;
    }
  }

  lemma {:induction false} AdditionStaysExact(st0: Proxy, svc: Service, st: Proxy, base: Table)
    requires Exact(st0, base) && ServiceAdded(st0, svc, st)
    ensures Exact(st, base)
  {
    KubeServicesUnowned(st);
    hide Inv, Tight, OnlyEntries, Built;
    var ports := PortsOf(svc.ports[..|svc.ports|]);
    AdditionEntries(st0, svc.name, st, ports);
    AdditionTight(st0, svc.name, st, ports, base);
  }

  lemma DeletionEntries(st: Proxy, s: string, st': Proxy)
    requires OnlyEntries(st) && ServiceRemoved(st, s, st')
    ensures OnlyEntries(st')
  {
    forall r | r in st'.chains[KUBE_SERVICES] ensures IsEntry(st', r) {
      assert IsEntry(st, r) && r.svc != s;
    }
  }

  lemma DeletionTight(st: Proxy, s: string, st': Proxy, base: Table)
    requires Tight(st, base) && ServiceRemoved(st, s, st') && KUBE_SERVICES !in st.owners
    ensures Tight(st', base)
  {
    forall c ensures c in st'.chains <==> c in base || c in st'.owners || c == KUBE_SERVICES {
      assert c in base && c != KUBE_SERVICES ==> c !in st.owners;
    }
  }

  lemma DeletionStaysExact(st: Proxy, s: string, st': Proxy, base: Table)
    requires Exact(st, base) && Deleted(st, s, st')
    ensures Exact(st', base)
  {
    KubeServicesUnowned(st);
    hide Inv, Tight, OnlyEntries, ServiceRemoved;
    if s in st.tables {
      DeletionEntries(st, s, st');
      DeletionTight(st, s, st', base);
    }
  }

  lemma {:induction false} StepStaysExact(st: Proxy, n: Notification, st': Proxy, base: Table)
    requires Exact(st, base) && Handled(st, n, st')
    ensures Exact(st', base)
  {
    hide Exact, Deleted, ServiceAdded;
    match n {
      case Add(svc) =>
        AdditionStaysExact(st, svc, st', base);
      case Update(before, after) =>
        var mid :| Deleted(st, before.name, mid) && ServiceAdded(mid, after, st');
        DeletionStaysExact(st, before.name, mid, base);
        AdditionStaysExact(mid, after, st', base);
      case Delete(svc) =>
        DeletionStaysExact(st, svc.name, st', base);
    }
  }

  /** In every run the nat table is, at every moment, exactly the one the service map determines. */
  lemma {:induction false} RunsStayExact(trace: seq<Proxy>, ns: seq<Notification>, base: Table)
    requires Run(trace, ns) && Exact(trace[0], base)
    ensures forall st <- trace :: Exact(st, base)
  {
    hide Exact, Handled;
    if ns != [] {
      var n := |ns| - 1;
      RunsStayExact(trace[..|ns|], ns[..n], base);
      assert trace[n] == trace[..|ns|][n];
      assert Handled(trace[n], ns[n], trace[n + 1]);
      StepStaysExact(trace[n], ns[n], trace[n + 1], base);
      assert trace == trace[..|ns|] + [trace[n + 1]];
    }
  }

  /** Adding a port keeps the table exact if and only if the service does not have that port yet:
      otherwise the old load-balancing chain is left behind. */
  lemma PortAddedExactIff(st: Proxy, s: string, p: Port, targetPort: Port, c: string, base: Table)
    requires Exact(st, base) && s in st.tables && c !in st.chains
    ensures Exact(PortAdded(st, s, p, targetPort, c), base) <==> !HasLb(st.tables, s, p)
  {
    PortAddedKeepsInv(st, s, p, targetPort, c);
    FreshIsUnowned(st, c);
    KubeServicesUnowned(st);
    if HasLb(st.tables, s, p) {
      PortReaddedLeaks(st, s, p, targetPort, c, base);
    } else {
      NewPortStaysExact(st, s, p, targetPort, c, base);
    }
  }

  lemma PortReaddedLeaks(st: Proxy, s: string, p: Port, targetPort: Port, c: string, base: Table)
    requires Inv(st) && Tight(st, base) && c !in st.chains && c !in st.owners && HasLb(st.tables, s, p)
    ensures !Tight(PortAdded(st, s, p, targetPort, c), base)
  {
    var lbChain := Lb(st.tables, s, p).chain;
    var st' := PortAdded(st, s, p, targetPort, c);
    assert PortOwned(st.owners, Lb(st.tables, s, p), s, p);
    assert Live(st, lbChain, LbOf(s, p));
    assert lbChain in st'.chains && lbChain !in st'.owners && lbChain !in base && lbChain != KUBE_SERVICES;
  }

  lemma NewPortStaysExact(st: Proxy, s: string, p: Port, targetPort: Port, c: string, base: Table)
    requires Tight(st, base) && OnlyEntries(st) && OwnersLive(st) && s in st.tables && c !in st.chains
    requires c !in st.owners && !HasLb(st.tables, s, p)
    requires KUBE_SERVICES !in st.owners
    ensures var st' := PortAdded(st, s, p, targetPort, c); Tight(st', base) && OnlyEntries(st')
  {
    var st' := PortAdded(st, s, p, targetPort, c);
    AbsentServiceOwnsNothing(st, s, p);
    WithLbIsLocal(st.tables, s, p, LBTable(c, targetPort, map[]));
    NewPortEntries(st, st', s, p);
    assert st'.owners == st.owners[c := LbOf(s, p)];
  }

  lemma NewPortEntries(st: Proxy, st': Proxy, s: string, p: Port)
    requires OnlyEntries(st) && SameBut(st.tables, st'.tables, s, p) && HasLb(st'.tables, s, p)
    requires !HasLb(st.tables, s, p)
    requires KUBE_SERVICES in st'.chains
    requires st'.chains[KUBE_SERVICES] == st.chains[KUBE_SERVICES] + [EntryRule(st'.tables, s, p)]
    ensures OnlyEntries(st')
  {
    forall r | r in st'.chains[KUBE_SERVICES] ensures IsEntry(st', r) {
      if r in st.chains[KUBE_SERVICES] {
        assert IsEntry(st, r);
        assert SameAt(st.tables, st'.tables, r.svc, r.dport);
      }
    }
  }

  /** Adding an endpoint to a load balancer keeps the table exact if and only if the balancer does not have
      that endpoint yet: otherwise the old endpoint chain is left behind. */
  lemma EpAddedExactIff(st: Proxy, s: string, p: Port, ip: Ip, c: string, ips: seq<Ip>, base: Table)
    requires Exact(st, base) && HasLb(st.tables, s, p) && c !in st.chains
    requires Enumerates(ips, Lb(st.tables, s, p).eps[ip := c])
    ensures Exact(EpAdded(st, s, p, ip, c, ips), base) <==> ip !in Lb(st.tables, s, p).eps
  {
    EpAddedKeepsInv(st, s, p, ip, c, ips);
    EpAddedNames(st, s, p, ip, c);
    KubeServicesUnowned(st);
    if ip in Lb(st.tables, s, p).eps {
      EpReaddedLeaks(st, s, p, ip, c, ips, base);
    } else {
      NewEpStaysTight(st, s, p, ip, c, ips, base);
      NewEpEntries(st, s, p, ip, c, ips);
    }
    hide Inv, Tight, OnlyEntries, NamesApart;
  }

  lemma EpReaddedLeaks(st: Proxy, s: string, p: Port, ip: Ip, c: string, ips: seq<Ip>, base: Table)
    requires OwnersLive(st) && Tight(st, base) && HasLb(st.tables, s, p) && NamesApart(st, s, p, ip, c)
    requires ip in Lb(st.tables, s, p).eps
    ensures !Tight(EpAdded(st, s, p, ip, c, ips), base)
  {
    var epChain := Lb(st.tables, s, p).eps[ip];
    var st' := EpAdded(st, s, p, ip, c, ips);
    assert Live(st, epChain, EpOf(s, p, ip));
    assert epChain in st'.chains && epChain !in st'.owners && epChain !in base && epChain != KUBE_SERVICES;
  }

  lemma NewEpStaysTight(st: Proxy, s: string, p: Port, ip: Ip, c: string, ips: seq<Ip>, base: Table)
    requires Tight(st, base) && HasLb(st.tables, s, p) && NamesApart(st, s, p, ip, c) && ip !in Lb(st.tables, s, p).eps
    ensures Tight(EpAdded(st, s, p, ip, c, ips), base)
  {
    var st' := EpAdded(st, s, p, ip, c, ips);
    assert st'.owners == st.owners[c := EpOf(s, p, ip)];
    forall d | d in base && d != KUBE_SERVICES ensures d !in st'.owners && st'.chains[d] == base[d] {
      assert d !in st.owners && d in st.chains;
    }
  }

  lemma NewEpEntries(st: Proxy, s: string, p: Port, ip: Ip, c: string, ips: seq<Ip>)
    requires OnlyEntries(st) && HasLb(st.tables, s, p) && NamesApart(st, s, p, ip, c)
    ensures OnlyEntries(EpAdded(st, s, p, ip, c, ips))
  {
    var st' := EpAdded(st, s, p, ip, c, ips);
    EpAddedAt(st, s, p, ip, c, ips);
    forall r | r in st'.chains[KUBE_SERVICES] ensures IsEntry(st', r) {
      assert IsEntry(st, r);
    }
  }
}
