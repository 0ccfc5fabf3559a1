/** The service proxy (rkube_proxy/src/k8s_iptables.rs). Every iptables operation is proved to be accepted. */
module ServiceProxy {
  import opened Common
  import opened Nat
  import opened ServiceTables
  import opened ServiceSteps
  import opened ServiceChanges
  import opened ServiceCleanup
  import opened ServiceRuns
  import opened ServiceMap

  class K8sIpTables {
    const ipt: NatTable
    var svcTb: map<string, ServiceTable>
    ghost var owners: map<string, Owner>

    ghost function State(): Proxy
      reads this, ipt
    {
      Proxy(svcTb, ipt.chains, owners)
    }

    ghost predicate Valid()
      reads this, ipt
    {
      Inv(State()) && Named(owners)
    }

    /** Sweep the nat table; what is left is the base that the proxy builds on. */
    constructor (ipt: NatTable)
      requires Sweepable(ipt.chains) && NoDangling(ipt.chains)
      modifies ipt
      ensures this.ipt == ipt && Valid() && svcTb == map[] && ipt.rejected == old(ipt.rejected)
      ensures Exact(State(), Cleaned(old(ipt.chains)))
      ensures Entered(old(ipt.chains), ipt.chains) && Swept(old(ipt.chains), ipt.chains)
    {
      this.ipt := ipt;
      svcTb, owners := map[], map[];
      new;
      CleanedNoDangling(ipt.chains);
      Cleanup(ipt);
    }

    method NewSvc(name: string, clusterIp: Ip)
      requires Valid()
      modifies this`svcTb
      ensures Valid() && State() == ServiceNamed(old(State()), name, clusterIp)
    {
      ServiceNamedKeepsInv(State(), name, clusterIp);
      if name !in svcTb {
        svcTb := svcTb[name := ServiceTable(clusterIp, map[])];
      }
    }

    method AddSvcPort(name: string, port: Port, targetPort: Port) returns (ghost lbChain: string)
      requires Valid()
      modifies this`svcTb, this`owners, ipt
      ensures Valid() && ipt.rejected == old(ipt.rejected)
      ensures name !in old(svcTb) ==> State() == old(State())
      ensures name in old(svcTb) ==>
                lbChain !in old(ipt.chains) && State() == PortAdded(old(State()), name, port, targetPort, lbChain)
    {
      if name !in svcTb {
        lbChain := "";
        return;
      }
      hide Named;
      var tb := svcTb[name];
      var chain := FreshName(ipt.chains.Keys, "KUBE-LB-");
      PortAddedKeepsInv(State(), name, port, targetPort, chain);
      var ok := ipt.NewChain(chain);
      assert ok;
      ok := ipt.Append(KUBE_SERVICES, SvcRule(tb.clusterIp, port, name, chain));
      assert ok;
      svcTb := WithLb(svcTb, name, port, LBTable(chain, targetPort, map[]));
      LbNamed(owners, name, port, chain);
      owners := Disowned(owners, name, port)[chain := LbOf(name, port)];
      lbChain := chain;
    }

    /** Refill a load-balancing chain: one rule per endpoint, each inserted at the top. */
    method RewriteLbRules(lb: LBTable) returns (ghost order: seq<Ip>)
      requires lb.chain in ipt.chains
      requires forall ip <- lb.eps :: lb.eps[ip] in ipt.chains
      modifies ipt
      ensures Enumerates(order, lb.eps) && ipt.chains == old(ipt.chains)[lb.chain := LbRules(order, lb.eps)]
      ensures ipt.rejected == old(ipt.rejected)
    {
      hide LbRules;
      LbRulesStart(lb.eps);
      var ok := ipt.FlushChain(lb.chain);
      assert ok;
      var i := 1;
      var todo: set<Ip> := lb.eps.Keys;
      order := [];
      while todo != {}
        invariant todo <= lb.eps.Keys && multiset(order) == multiset(lb.eps.Keys - todo)
        invariant i == |order| + 1
        invariant ipt.chains == old(ipt.chains)[lb.chain := LbRules(order, lb.eps)]
        invariant ipt.rejected == old(ipt.rejected)
      {
        var ip := Next(todo);
        ok := ipt.InsertTop(lb.chain, LbRule(i, lb.eps[ip]));
        assert ok;
        LbRulesGrow(order, ip, lb.eps);
        OneFewer(lb.eps.Keys, todo, ip);
        order := order + [ip];
        todo := todo - {ip};
        i := i + 1;
      }
      assert lb.eps.Keys - {} == lb.eps.Keys;
    }

    /** Give one load balancer another endpoint. */
    method AddLbEp(name: string, port: Port, ep: Ip) returns (ghost epChain: string, ghost order: seq<Ip>)
      requires Valid() && HasLb(svcTb, name, port)
      modifies this`svcTb, this`owners, ipt
      ensures Valid() && ipt.rejected == old(ipt.rejected)
      ensures epChain !in old(ipt.chains) && Enumerates(order, Lb(old(svcTb), name, port).eps[ep := epChain])
      ensures State() == EpAdded(old(State()), name, port, ep, epChain, order)
    {
      hide Named, Inv, LbRules, Enumerates;
      var lb := svcTb[name].lbs[port];
      var chain := FreshName(ipt.chains.Keys, "KUBE-EP-");
      ghost var st := State();
      EpAddedNames(st, name, port, ep, chain);
      EpChainsExist(st, name, port);
      var ok := ipt.NewChain(chain);
      assert ok;
      ok := ipt.AppendUnique(chain, DnatRule(name, ep, lb.targetPort));
      assert ok;
      assert [] + [DnatRule(name, ep, lb.targetPort)] == [DnatRule(name, ep, lb.targetPort)];
      assert ipt.chains == st.chains[chain := [DnatRule(name, ep, lb.targetPort)]];
      var lb' := lb.(eps := lb.eps[ep := chain]);
      order := RewriteLbRules(lb');
      svcTb := WithLb(svcTb, name, port, lb');
      EpNamed(owners, lb.eps, name, port, ep, chain);
      owners := (if ep in lb.eps then owners - {lb.eps[ep]} else owners)[chain := EpOf(name, port, ep)];
      assert State() == EpAdded(st, name, port, ep, chain, order);
      EpAddedKeepsInv(st, name, port, ep, chain, order);
      epChain := chain;
    }

    /** One turn of the loop below. */
    method ServeEp(name: string, port: Port, ep: Ip, ghost tb: ServiceTable, ghost todo: set<Port>, ghost st0: Proxy,
        ghost ports: seq<Port>, ghost absent: bool)
      requires Valid() && HasLb(svcTb, name, port) && port in todo && EpServed(tb, svcTb[name], ep, todo)
      requires absent ==> Built(st0, State(), name, ports) && ep !in svcTb[name].lbs[port].eps
      modifies this`svcTb, this`owners, ipt
      ensures Valid() && ipt.rejected == old(ipt.rejected)
      ensures name in svcTb && svcTb == old(svcTb)[name := svcTb[name]] && EpServed(tb, svcTb[name], ep, todo - {port})
      ensures absent ==> Built(st0, State(), name, ports)
    {
      hide Inv, Built, EpAdded, EpServed, Named;
      ghost var st := State();
      ghost var chain, order := AddLbEp(name, port, ep);
      EpAddedAt(st, name, port, ep, chain, order);
      EpServedStep(tb, st, name, port, ep, chain, order, todo);
      if absent {
        BuiltEp(st0, st, name, ports, port, ep, chain, order);
      }
    }

    /** Give every load balancer of a service another endpoint, in any order. */
    method AddSvcEp(name: string, ep: Ip, ghost st0: Proxy, ghost ports: seq<Port>)
      requires Valid()
      modifies this`svcTb, this`owners, ipt
      ensures Valid() && ipt.rejected == old(ipt.rejected)
      ensures name !in old(svcTb) ==> State() == old(State())
      ensures name in old(svcTb) ==>
                && name in svcTb && svcTb == old(svcTb)[name := svcTb[name]]
                && EpEverywhere(old(svcTb)[name], svcTb[name], ep)
      ensures name in old(svcTb) && Built(st0, old(State()), name, ports)
              && (forall p <- old(svcTb)[name].lbs :: ep !in old(svcTb)[name].lbs[p].eps) ==>
                Built(st0, State(), name, ports)
    {
      hide Inv, Built, EpAt, Named;
      if name !in svcTb {
        return;
      }
      ghost var tb := svcTb[name];
      ghost var absent := Built(st0, State(), name, ports) && forall p <- tb.lbs :: ep !in tb.lbs[p].eps;
      var todo: set<Port> := svcTb[name].lbs.Keys;
      while todo != {}
        invariant Valid() && ipt.rejected == old(ipt.rejected)
        invariant name in svcTb && svcTb == old(svcTb)[name := svcTb[name]]
        invariant todo <= tb.lbs.Keys && EpServed(tb, svcTb[name], ep, todo)
        invariant absent ==> Built(st0, State(), name, ports)
      {
        var port := Next(todo);
        ServeEp(name, port, ep, tb, todo, st0, ports, absent);
        todo := todo - {port};
      }
    }

    method AddSvc(svc: Service)
      requires Valid()
      modifies this`svcTb, this`owners, ipt
      ensures Valid() && ipt.rejected == old(ipt.rejected)
      ensures Addable(old(svcTb), svc) ==> ServiceAdded(old(State()), svc, State())
    {
      hide Inv, PartlyAdded, Built, Named;
      ghost var st0, clean := State(), Addable(svcTb, svc);
      NewSvc(svc.name, svc.clusterIp);
      if clean {
        StartsEmpty(st0, svc);
      }
      for i := 0 to |svc.ports|
        invariant Valid() && ipt.rejected == old(ipt.rejected)
        invariant clean ==> PartlyAdded(st0, svc, i, {}, State())
      {
        ghost var st := State();
        if clean {
          PartlyAddedHas(st0, svc, i, {}, st);
        }
        ghost var chain := AddSvcPort(svc.name, svc.ports[i].port, svc.ports[i].targetPort);
        if clean {
          PortStep(st0, svc, i, st, chain);
        }
      }
      var todo := svc.endpoints;
      assert svc.endpoints - todo == {};
      while todo != {}
        invariant Valid() && ipt.rejected == old(ipt.rejected) && todo <= svc.endpoints
        invariant clean ==> PartlyAdded(st0, svc, |svc.ports|, svc.endpoints - todo, State())
      {
        var ep := Next(todo);
        ghost var st := State();
        if clean {
          PartlyAddedHas(st0, svc, |svc.ports|, svc.endpoints - todo, st);
        }
        AddSvcEp(svc.name, ep, st0, PortsOf(svc.ports[..|svc.ports|]));
        if clean {
          EpsStep(st0, svc, svc.endpoints - todo, st, State(), ep);
          assert svc.endpoints - (todo - {ep}) == svc.endpoints - todo + {ep};
        }
        todo := todo - {ep};
      }
      assert svc.endpoints - {} == svc.endpoints;
    }

    /** Delete the entry rule and the chains of one port. */
    method CleanupPort(ghost st: Proxy, name: string, clusterIp: Ip, port: Port, lb: LBTable)
      requires Inv(st) && st.chains == ipt.chains
      requires HasLb(st.tables, name, port) && Lb(st.tables, name, port) == lb && st.tables[name].clusterIp == clusterIp
      modifies ipt
      ensures ipt.chains == PortRemoved(st, name, port).chains && ipt.rejected == old(ipt.rejected)
      ensures Inv(PortRemoved(st, name, port))
    {
      hide Inv;
      LbUnreferenced(st, name, port);
      var ok := ipt.DeleteRule(KUBE_SERVICES, SvcRule(clusterIp, port, name, lb.chain));
      assert ok;
      ok := ipt.FlushChain(lb.chain);
      assert ok;
      ok := ipt.DeleteChain(lb.chain);
      assert ok;
      ghost var dropped := PortDropped(st, name, port);
      assert ipt.chains == dropped.chains;
      PortDroppedKeepsInv(st, name, port);
      CleanupEps(st, name, port, lb);
    }

    /** One turn of the loop below. */
    method CleanupEp(ghost dropped: Proxy, eps: map<Ip, string>, ghost todo: set<Ip>, ip: Ip)
      requires ip in todo && todo <= eps.Keys && Injective(eps)
      requires Inv(EpsDropped(dropped, eps, todo)) && EpsIdle(EpsDropped(dropped, eps, todo), eps, todo)
      requires ipt.chains == EpsDropped(dropped, eps, todo).chains
      modifies ipt
      ensures Inv(EpsDropped(dropped, eps, todo - {ip}))
      ensures EpsIdle(EpsDropped(dropped, eps, todo - {ip}), eps, todo - {ip})
      ensures ipt.chains == EpsDropped(dropped, eps, todo - {ip}).chains && ipt.rejected == old(ipt.rejected)
    {
      hide Inv, EpsDropped, Injective;
      assert Idle(EpsDropped(dropped, eps, todo), eps[ip]);
      EpsDroppedStep(dropped, eps, todo, ip);
      DeleteIdle(eps[ip]);
    }

    /** Delete the endpoint chains of a port whose load-balancing chain is gone. */
    method CleanupEps(ghost st: Proxy, name: string, port: Port, lb: LBTable)
      requires Inv(st) && HasLb(st.tables, name, port) && Lb(st.tables, name, port) == lb
      requires ipt.chains == PortDropped(st, name, port).chains && Inv(PortDropped(st, name, port))
      modifies ipt
      ensures ipt.chains == PortRemoved(st, name, port).chains && ipt.rejected == old(ipt.rejected)
      ensures Inv(PortRemoved(st, name, port))
    {
      ghost var dropped := PortDropped(st, name, port);
      EpsDroppedStart(st, name, port);
      EpsDroppedEnd(st, name, port);
      hide Inv, EpsDropped, EpsIdle, PortDropped, PortRemoved, Injective, Idle;
      var todo: set<Ip> := lb.eps.Keys;
      while todo != {}
        invariant todo <= lb.eps.Keys && Inv(EpsDropped(dropped, lb.eps, todo))
        invariant EpsIdle(EpsDropped(dropped, lb.eps, todo), lb.eps, todo)
        invariant ipt.chains == EpsDropped(dropped, lb.eps, todo).chains && ipt.rejected == old(ipt.rejected)
      {
        var ip := Next(todo);
        CleanupEp(dropped, lb.eps, todo, ip);
        todo := todo - {ip};
      }
    }

    /** Flush and delete a chain no rule jumps to. */
    method DeleteIdle(c: string)
      requires c in ipt.chains && !Referenced(ipt.chains, c)
      modifies ipt
      ensures ipt.chains == old(ipt.chains) - {c} && ipt.rejected == old(ipt.rejected)
    {
      var ok := ipt.FlushChain(c);
      assert ok;
      ok := ipt.DeleteChain(c);
      assert ok;
    }

    method DelSvc(name: string)
      requires Valid()
      modifies this`svcTb, this`owners, ipt
      ensures Valid() && ipt.rejected == old(ipt.rejected)
      ensures name !in old(svcTb) ==> State() == old(State())
      ensures name in old(svcTb) ==> ServiceRemoved(old(State()), name, State())
    {
      if name !in svcTb {
        return;
      }
      hide Inv;
      ghost var st0, st := State(), State();
      var tb := svcTb[name];
      svcTb := svcTb - {name};
      PartlyRemovedStart(st0, name);
      var todo: set<Port> := tb.lbs.Keys;
      while todo != {}
        invariant Inv(st) && PartlyRemoved(st0, name, todo, st)
        invariant ipt.chains == st.chains && ipt.rejected == old(ipt.rejected) && svcTb == st0.tables - {name}
      {
        var port := Next(todo);
        CleanupPort(st, name, tb.clusterIp, port, tb.lbs[port]);
        PartlyRemovedStep(st0, name, todo, st, port);
        st := PortRemoved(st, name, port);
        todo := todo - {port};
      }
      PartlyRemovedEnd(st0, name, st);
      owners := st.owners;
      assert State() == st.(tables := st0.tables - {name});
    }

    /** An update deletes the service and adds it again. */
    method HandleNotification(n: Notification)
      requires Valid()
      modifies this`svcTb, this`owners, ipt
      ensures Valid() && ipt.rejected == old(ipt.rejected)
      ensures Clean(old(State()), n) ==> Handled(old(State()), n, State())
    {
      hide Inv, ServiceAdded, ServiceRemoved, Named;
      match n {
        case Add(svc) =>
          AddSvc(svc);
        case Update(before, after) =>
          ghost var st0 := State();
          DelSvc(before.name);
          ghost var mid := State();
          RemovedTables(st0, before.name, mid);
          AddSvc(after);
          assert Deleted(st0, before.name, mid);
        case Delete(svc) =>
          DelSvc(svc.name);
      }
    }

    /** The main loop: handle notifications as they arrive. If they are clean, the nat table ends up as
        the one the service map determines on the base it was started on. */
    method HandleAll(ns: seq<Notification>, ghost base: Table) returns (ghost trace: seq<Proxy>)
      requires Valid()
      modifies this`svcTb, this`owners, ipt
      ensures Valid() && ipt.rejected == old(ipt.rejected)
      ensures |trace| == |ns| + 1 && trace[0] == old(State()) && trace[|ns|] == State()
      ensures (forall i :: 0 <= i < |ns| ==> Clean(trace[i], ns[i])) ==> Run(trace, ns)
      ensures (forall i :: 0 <= i < |ns| ==> Clean(trace[i], ns[i])) && Exact(trace[0], base) ==> Exact(State(), base)
      ensures (forall i :: 0 <= i < |ns| ==> Clean(trace[i], ns[i])) && old(svcTb) == map[] ==>
                forall name :: HoldsLatest(svcTb, Latest(ns, name), name)
    {
      hide Inv, Clean, Handled, Named, Exact, HoldsLatest, Latest;
      trace := [State()];
      for i := 0 to |ns|
        invariant Valid() && ipt.rejected == old(ipt.rejected)
        invariant |trace| == i + 1 && trace[0] == old(State()) && trace[i] == State()
        invariant forall j {:trigger ns[j]} :: 0 <= j < i ==> Clean(trace[j], ns[j]) ==>
          Handled(trace[j], ns[j], trace[j + 1])
      {
        HandleNotification(ns[i]);
        trace := trace + [State()];
      }
      if (forall i :: 0 <= i < |ns| ==> Clean(trace[i], ns[i])) && Exact(trace[0], base) {
        RunsStayExact(trace, ns, base);
        assert trace[|ns|] in trace;
      }
      if (forall i :: 0 <= i < |ns| ==> Clean(trace[i], ns[i])) && old(svcTb) == map[] {
        assert ns[..|ns|] == ns;
        forall name ensures HoldsLatest(svcTb, Latest(ns, name), name) {
          MapIsLatest(trace, ns, |ns|, name);
        }
      }
    }
  }

  lemma RemovedTables(st: Proxy, s: string, st': Proxy)
    requires if s in st.tables then ServiceRemoved(st, s, st') else st' == st
    ensures st'.tables == st.tables - {s}
  {
    if s !in st.tables {
      assert st.tables - {s} == st.tables;
    }
  }

  lemma {:induction false} EpsDroppedEnd(st: Proxy, s: string, p: Port)
    requires Inv(st) && HasLb(st.tables, s, p)
    ensures EpsDropped(PortDropped(st, s, p), Lb(st.tables, s, p).eps, {}) == PortRemoved(st, s, p)
  {
    var eps := Lb(st.tables, s, p).eps;
    assert eps.Keys - {} == eps.Keys;
    ImageOfAll(eps);
  }

  lemma LbRulesStart(eps: map<Ip, string>)
    ensures LbRules([], eps) == []
  {
  }

  lemma LbRulesGrow(order: seq<Ip>, ip: Ip, eps: map<Ip, string>)
    requires ip in eps
    ensures LbRules(order + [ip], eps) == [LbRule(|order| + 1, eps[ip])] + LbRules(order, eps)
  {
    assert (order + [ip])[..|order|] == order;
  }

  lemma OneFewer(all: set<Ip>, todo: set<Ip>, ip: Ip)
    requires ip in todo && todo <= all
    ensures multiset(all - (todo - {ip})) == multiset(all - todo) + multiset{ip}
  {
    assert all - (todo - {ip}) == (all - todo) + {ip};
  }

  lemma LbNamed(owners: map<string, Owner>, s: string, p: Port, c: string)
    requires Named(owners) && "KUBE-LB-" <= c
    ensures Named(Disowned(owners, s, p)[c := LbOf(s, p)])
  {
    assert c[..7] == LB_PREFIX;
  }

  lemma EpNamed(owners: map<string, Owner>, eps: map<Ip, string>, s: string, p: Port, ip: Ip, c: string)
    requires Named(owners) && "KUBE-EP-" <= c
    ensures Named((if ip in eps then owners - {eps[ip]} else owners)[c := EpOf(s, p, ip)])
  {
    assert c[..7] == EP_PREFIX;
  }

  lemma EpChainsExist(st: Proxy, s: string, p: Port)
    requires Inv(st) && HasLb(st.tables, s, p)
    ensures forall ip <- Lb(st.tables, s, p).eps :: Lb(st.tables, s, p).eps[ip] in st.chains
  {
    var lb := Lb(st.tables, s, p);
    assert PortOwned(st.owners, lb, s, p);
    forall ip | ip in lb.eps ensures lb.eps[ip] in st.chains {
      assert Live(st, lb.eps[ip], EpOf(s, p, ip));
    }
  }
}
