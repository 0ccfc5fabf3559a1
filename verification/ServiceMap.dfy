/** What a run of notifications leaves in the service map, and where the packets for its services end up
    (rkube_proxy/src/k8s_iptables.rs, rkube_proxy/src/main.rs). */
module ServiceMap {
  import opened Common
  import opened Nat
  import opened ServiceTables
  import opened ServiceChanges
  import opened ServiceCleanup
  import opened ServiceRuns
  import opened LoadBalance

  /** The service of that name that was added or updated last and not deleted since. */
  function Latest(ns: seq<Notification>, name: string): Option<Service> {
    if ns == [] then None
    else
      var earlier := Latest(ns[..|ns| - 1], name);
      match ns[|ns| - 1]
      case Add(svc) => if svc.name == name then Some(svc) else earlier
      case Update(before, after) =>
        if after.name == name then Some(after) else if before.name == name then None else earlier
      case Delete(svc) => if svc.name == name then None else earlier
  }

  /** The map holds the service: its address, exactly its ports with their target ports, and under each of
      them exactly its endpoints. */
  ghost predicate Holds(tables: map<string, ServiceTable>, svc: Service) {
    && svc.name in tables && tables[svc.name].clusterIp == svc.clusterIp
    && (forall p <- tables[svc.name].lbs :: exists sp <- svc.ports :: sp.port == p)
    && (forall sp <- svc.ports ::
          && sp.port in tables[svc.name].lbs
          && tables[svc.name].lbs[sp.port].targetPort == sp.targetPort
          && tables[svc.name].lbs[sp.port].eps.Keys == svc.endpoints)
  }

  /** Under this name the map holds what was notified last. */
  ghost predicate HoldsLatest(tables: map<string, ServiceTable>, latest: Option<Service>, name: string) {
    match latest
    case None => name !in tables
    case Some(svc) => svc.name == name && Holds(tables, svc)
  }

  lemma {:induction false} PortsOfMembers(ports: seq<ServicePort>, p: Port)
    ensures p in PortsOf(ports) <==> exists sp <- ports :: sp.port == p
  {
    if ports != [] {
      var n := |ports| - 1;
      assert ports == ports[..n] + [ports[n]];
      PortsOfMembers(ports[..n], p);
      if p == ports[n].port { assert ports[n] in ports; }
    }
  }

  lemma {:induction false} AddedIsHeld(st: Proxy, svc: Service, st': Proxy)
    requires ServiceAdded(st, svc, st')
    ensures Holds(st'.tables, svc) && st'.tables - {svc.name} == st.tables
  {
    hide Inv, OwnersGrow, ChainsGrow, EntryRules;
    assert svc.ports[..|svc.ports|] == svc.ports;
    forall p | p in st'.tables[svc.name].lbs ensures exists sp <- svc.ports :: sp.port == p {
      PortsOfMembers(svc.ports, p);
    }
  }

  lemma DeletedIsGone(st: Proxy, name: string, st': Proxy)
    requires Deleted(st, name, st')
    ensures st'.tables == st.tables - {name}
  {
  }

  lemma OthersAreHeld(tables: map<string, ServiceTable>, tables': map<string, ServiceTable>, latest: Option<Service>,
      name: string, other: string)
    requires tables' - {name} == tables - {name} && other != name
    ensures HoldsLatest(tables', latest, other) <==> HoldsLatest(tables, latest, other)
  {
    assert other in tables' <==> other in tables' - {name};
    assert other in tables <==> other in tables - {name};
    assert other in tables ==> (tables' - {name})[other] == (tables - {name})[other];
  }

  lemma StepIsHeld(st: Proxy, ns: seq<Notification>, st': Proxy, name: string)
    requires ns != [] && Handled(st, ns[|ns| - 1], st')
    requires HoldsLatest(st.tables, Latest(ns[..|ns| - 1], name), name)
    ensures HoldsLatest(st'.tables, Latest(ns, name), name)
  {
    hide Deleted, ServiceAdded, Holds;
    var latest := Latest(ns[..|ns| - 1], name);
    match ns[|ns| - 1] {
      case Add(svc) =>
        AddedIsHeld(st, svc, st');
        if svc.name != name { OthersAreHeld(st.tables, st'.tables, latest, svc.name, name); }
      case Update(before, after) =>
        var mid :| Deleted(st, before.name, mid) && ServiceAdded(mid, after, st');
        DeletedIsGone(st, before.name, mid);
        AddedIsHeld(mid, after, st');
        if after.name != name {
          if before.name != name { OthersAreHeld(st.tables, mid.tables, latest, before.name, name); }
          OthersAreHeld(mid.tables, st'.tables, Latest(ns, name), after.name, name);
        }
      case Delete(svc) =>
        DeletedIsGone(st, svc.name, st');
        if svc.name != name { OthersAreHeld(st.tables, st'.tables, latest, svc.name, name); }
    }
  }

  /** After any clean run from an empty map, the map holds exactly the services that were added or updated
      last and not deleted since, as notified. */
  lemma {:induction false} MapIsLatest(trace: seq<Proxy>, ns: seq<Notification>, i: nat, name: string)
    requires Run(trace, ns) && i < |trace| && trace[0].tables == map[]
    ensures HoldsLatest(trace[i].tables, Latest(ns[..i], name), name)
  {
    hide Handled, HoldsLatest;
    if i > 0 {
      MapIsLatest(trace, ns, i - 1, name);
      assert ns[..i][..i - 1] == ns[..i - 1];
      assert Handled(trace[i - 1], ns[i - 1], trace[i - 1 + 1]);
      StepIsHeld(trace[i - 1], ns[..i], trace[i], name);
    } else {
      assert HoldsLatest(trace[0].tables, None, name) by { NothingHeld(trace[0].tables, name); }
    }
  }

  lemma NothingHeld(tables: map<string, ServiceTable>, name: string)
    requires tables == map[]
    ensures HoldsLatest(tables, None, name)
  {
  }

  /** No other service has the address and port. */
  ghost predicate Unshared(ns: seq<Notification>, svc: Service, port: Port) {
    forall name, other :: name != svc.name && Latest(ns, name) == Some(other) && other.clusterIp == svc.clusterIp ==>
      forall sp <- other.ports :: sp.port != port
  }

  /** From the start of the proxy to the packet: after the sweep and any clean run, a packet that enters the
      kernel for a port of a service, as last notified, is rewritten to each of the service's endpoints, at
      the target port, with the same probability, and to nothing else. */
  lemma {:induction false} PacketsReachEndpoints(
      before: Table, trace: seq<Proxy>, ns: seq<Notification>, i: nat,
      svc: Service, sp: ServicePort, ip: Ip, depth: nat, c: string)
    requires PREROUTING in before && ForeignOnly(before[PREROUTING]) && OUTPUT in before && ForeignOnly(before[OUTPUT])
    requires Run(trace, ns) && i < |trace| && depth > 2
    requires trace[0].tables == map[] && Exact(trace[0], Cleaned(before))
    requires Latest(ns[..i], svc.name) == Some(svc) && sp in svc.ports && ip in svc.endpoints
    requires Unshared(ns[..i], svc, sp.port) && (c == PREROUTING || c == OUTPUT)
    ensures c in trace[i].chains
    ensures Walk(trace[i].chains, depth, trace[i].chains[c], Packet(svc.clusterIp, sp.port), Backend(ip, sp.targetPort))
         == Odds(1.0 / |svc.endpoints| as real, 0.0)
  {
    hide Run, Exact, Walk, Holds, Entered, ForeignOnly, Cleaned;
    var tables := trace[i].tables;
    MapIsLatest(trace, ns, i, svc.name);
    HeldAt(tables, svc, sp);
    HeldAlone(trace, ns, i, svc, sp);
    SweptGate(before, c);
    ServiceIsBalanced(trace, ns, Cleaned(before), i, svc.name, sp.port, ip, depth, c);
    EndpointCount(Lb(tables, svc.name, sp.port).eps, svc.endpoints);
  }

  lemma HeldAt(tables: map<string, ServiceTable>, svc: Service, sp: ServicePort)
    requires Holds(tables, svc) && sp in svc.ports
    ensures HasLb(tables, svc.name, sp.port) && tables[svc.name].clusterIp == svc.clusterIp
    ensures Lb(tables, svc.name, sp.port).targetPort == sp.targetPort
    ensures Lb(tables, svc.name, sp.port).eps.Keys == svc.endpoints
  {
  }

  lemma HeldAlone(trace: seq<Proxy>, ns: seq<Notification>, i: nat, svc: Service, sp: ServicePort)
    requires Run(trace, ns) && i < |trace| && trace[0].tables == map[]
    requires Latest(ns[..i], svc.name) == Some(svc) && sp in svc.ports && Unshared(ns[..i], svc, sp.port)
    ensures AloneAt(trace[i].tables, svc.name, sp.port)
  {
    var tables := trace[i].tables;
    hide Run, Latest;
    MapIsLatest(trace, ns, i, svc.name);
    forall name | name in tables && name != svc.name && sp.port in tables[name].lbs
      ensures tables[name].clusterIp != tables[svc.name].clusterIp
    {
      MapIsLatest(trace, ns, i, name);
      var other := Latest(ns[..i], name).value;
      var op :| op in other.ports && op.port == sp.port;
    }
  }

  lemma SweptGate(before: Table, c: string)
    requires PREROUTING in before && ForeignOnly(before[PREROUTING]) && OUTPUT in before && ForeignOnly(before[OUTPUT])
    requires c == PREROUTING || c == OUTPUT
    ensures c in Cleaned(before) && c != KUBE_SERVICES && Gate(Cleaned(before)[c])
  {
    CleanedIs(before);
    SweptChainsAreGates(before, Cleaned(before));
    NamesAreApart("");
  }

  lemma EndpointCount(eps: map<Ip, string>, endpoints: set<Ip>)
    requires eps.Keys == endpoints
    ensures |eps| == |endpoints|
  {
  }
}
