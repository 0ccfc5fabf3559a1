/** Deleting a service undoes its addition: the nat table ends up as if the service had never been there,
    including the order of every other service's rules (rkube_proxy/src/k8s_iptables.rs). */
module ServiceRoundTrip {
  import opened Nat
  import opened ServiceTables
  import opened ServiceSteps
  import opened ServiceChanges
  import opened ServiceRuns

  /** The state without service `s`. */
  function Stripped(st: Proxy, s: string): Proxy
    requires KUBE_SERVICES in st.chains
  {
    Proxy(st.tables - {s},
          ChainsWithout(st, s)[KUBE_SERVICES := NotOf(st.chains[KUBE_SERVICES], s)],
          OwnersWithout(st.owners, s))
  }

  function ChainsWithout(st: Proxy, s: string): Table {
    map c | c in st.chains && !OwnedBy(st.owners, c, s) :: st.chains[c]
  }

  lemma EntriesAvoid(st: Proxy, s: string)
    requires OnlyEntries(st) && s !in st.tables
    ensures NotOf(st.chains[KUBE_SERVICES], s) == st.chains[KUBE_SERVICES]
  {
    NotOfMembers(st.chains[KUBE_SERVICES], s);
    forall r | r in st.chains[KUBE_SERVICES] ensures !(r.SvcRule? && r.svc == s) {
      assert IsEntry(st, r);
    }
  }

  lemma StrippingUndoesAddition(st0: Proxy, s: string, ports: seq<Port>, st: Proxy)
    requires OnlyEntries(st0) && Built(st0, st, s, ports) && KUBE_SERVICES !in st.owners
    ensures Stripped(st, s) == st0
  {
    var entries := EntryRules(st.tables, s, ports);
    EntryRulesMembers(st.tables, s, ports);
    NotOfMembers(entries, s);
    NotOfConcat(st0.chains[KUBE_SERVICES], entries, s);
    EntriesAvoid(st0, s);
    assert st0.chains[KUBE_SERVICES] + [] == st0.chains[KUBE_SERVICES];
    assert Stripped(st, s).tables == st0.tables;
    assert Stripped(st, s).owners == st0.owners;
    assert Stripped(st, s).chains == st0.chains;
  }

  lemma DeletionStrips(st: Proxy, s: string, st': Proxy)
    requires OnlyEntries(st) && ServiceRemoved(st, s, st') && KUBE_SERVICES !in st.owners
    ensures st' == Stripped(st, s)
  {
    var t := st'.chains[KUBE_SERVICES];
    NotOfMembers(t, s);
    forall r | r in t ensures !(r.SvcRule? && r.svc == s) {
      assert IsEntry(st, r);
    }
    assert t == NotOf(st.chains[KUBE_SERVICES], s);
    assert st'.chains == Stripped(st, s).chains;
  }

  lemma AdditionAppears(svc: Service, st0: Proxy, st: Proxy)
    requires ServiceAdded(st0, svc, st)
    ensures svc.name in st.tables
  {
  }

  lemma StrippingStarts(st0: Proxy, svc: Service, st: Proxy, base: Table)
    requires Exact(st0, base) && ServiceAdded(st0, svc, st)
    ensures KUBE_SERVICES in st.chains && Stripped(st, svc.name) == st0
  {
    KubeServicesUnowned(st);
    hide Inv, Stripped, Tight;
    StrippingUndoesAddition(st0, svc.name, PortsOf(svc.ports[..|svc.ports|]), st);
  }

  lemma StrippingEnds(st: Proxy, s: string, st': Proxy, base: Table)
    requires Exact(st, base) && Deleted(st, s, st') && s in st.tables
    ensures KUBE_SERVICES in st.chains && st' == Stripped(st, s)
  {
    KubeServicesUnowned(st);
    hide Inv, Stripped, Tight;
    DeletionStrips(st, s, st');
  }

  // ---------- the invariant of a stripped state ----------

  lemma StrippedOwned(st: Proxy, s: string)
    requires TablesOwned(st) && KUBE_SERVICES in st.chains
    ensures TablesOwned(Stripped(st, s))
  {
    var st' := Stripped(st, s);
    forall s', p | HasLb(st'.tables, s', p) ensures PortOwned(st'.owners, Lb(st'.tables, s', p), s', p) {
      assert PortOwned(st.owners, Lb(st.tables, s', p), s', p);
    }
  }

  lemma StrippedLive(st: Proxy, s: string)
    requires OwnersLive(st) && KUBE_SERVICES in st.chains
    ensures OwnersLive(Stripped(st, s))
  {
    var st' := Stripped(st, s);
    hide Live;
    forall c | c in st'.owners ensures Live(st', c, st'.owners[c]) {
      assert c in st.owners && st'.owners[c] == st.owners[c] && st.owners[c].svc != s;
      assert Live(st, c, st.owners[c]);
      StrippedLiveAt(st, s, c, st.owners[c]);
    }
  }

  lemma StrippedLiveAt(st: Proxy, s: string, c: string, o: Owner)
    requires Live(st, c, o) && o.svc != s && c in st.owners && st.owners[c] == o && KUBE_SERVICES in st.chains
    ensures Live(Stripped(st, s), c, o)
  {
    var st' := Stripped(st, s);
    assert SameAt(st.tables, st'.tables, o.svc, o.port);
    assert c in st'.chains && st'.chains[c] == st.chains[c];
    hide Stripped, Serves;
    LiveFrame(st, st', c, o);
  }

  lemma StrippedEntries(st: Proxy, s: string)
    requires Inv(st) && OnlyEntries(st)
    ensures Entries(Stripped(st, s)) && OnlyEntries(Stripped(st, s))
  {
    var st' := Stripped(st, s);
    NotOfMembers(st.chains[KUBE_SERVICES], s);
    forall r | r in st'.chains[KUBE_SERVICES] ensures IsEntry(st', r) {
      assert IsEntry(st, r);
    }
    forall s', p | HasLb(st'.tables, s', p) ensures EntryRule(st'.tables, s', p) in st'.chains[KUBE_SERVICES] {
      assert HasLb(st.tables, s', p);
      assert EntryRule(st.tables, s', p) in st.chains[KUBE_SERVICES];
    }
  }

  lemma StrippedOthers(st: Proxy, s: string)
    requires Inv(st)
    ensures OthersClear(Stripped(st, s))
  {
    var st' := Stripped(st, s);
    forall c | c in st'.chains && c !in st'.owners && c != KUBE_SERVICES ensures ChainClear(st', c) {
      assert ChainClear(st, c);
    }
  }

  lemma StrippedReachable(st: Proxy, s: string)
    requires Inv(st) && OnlyEntries(st)
    ensures NoDangling(Stripped(st, s).chains)
  {
    var st' := Stripped(st, s);
    NotOfMembers(st.chains[KUBE_SERVICES], s);
    forall c, r | c in st'.chains && r in st'.chains[c] ensures TargetExists(st'.chains, r) {
      assert r in st.chains[c] && TargetExists(st.chains, r);
      if EntersLive(st, r) {
        if c == KUBE_SERVICES {
          EntryTargets(st, r);
        } else if c in st.owners {
          OwnedChainTargets(st, c, r);
        }
      }
    }
  }

  lemma StrippedTight(st: Proxy, s: string, base: Table)
    requires Tight(st, base) && KUBE_SERVICES in st.chains && KUBE_SERVICES !in st.owners
    ensures Tight(Stripped(st, s), base)
  {
    forall c | c in base && c != KUBE_SERVICES ensures c !in st.owners {
    }
  }

  lemma StrippedExact(st: Proxy, s: string, base: Table)
    requires Exact(st, base)
    ensures KUBE_SERVICES in st.chains && Exact(Stripped(st, s), base)
  {
    KubeServicesUnowned(st);
    StrippedOwned(st, s);
    StrippedLive(st, s);
    StrippedEntries(st, s);
    StrippedOthers(st, s);
    StrippedReachable(st, s);
    StrippedTight(st, s, base);
  }

  // ---------- stripping commutes with what happens to other services ----------

  lemma StrippedPorts(t: map<string, ServiceTable>, s: string, other: string, ports: seq<Port>)
    requires s != other && HasPorts(t, other, ports)
    ensures HasPorts(t - {s}, other, ports) && EntryRules(t - {s}, other, ports) == EntryRules(t, other, ports)
  {
    EntryRulesFrame(t, t - {s}, other, ports);
  }

  lemma StrippedGrowth(st: Proxy, st': Proxy, s: string, other: string)
    requires KUBE_SERVICES in st.chains && KUBE_SERVICES in st'.chains
    requires OwnersGrow(st, st', other) && s != other
    ensures OwnersGrow(Stripped(st, s), Stripped(st', s), other)
  {
  }

  lemma StrippedChainsGrowth(st: Proxy, st': Proxy, s: string, other: string, entries: seq<Rule>)
    requires OwnersGrow(st, st', other) && s != other && ChainsGrow(st, st', entries)
    requires KUBE_SERVICES !in st'.owners
    requires forall r <- entries :: r.SvcRule? && r.svc == other
    ensures ChainsGrow(Stripped(st, s), Stripped(st', s), entries)
  {
    NotOfConcat(st.chains[KUBE_SERVICES], entries, s);
    NotOfMembers(entries, s);
  }

  lemma BuiltPortsExist(t: map<string, ServiceTable>, s: string, ports: seq<Port>)
    requires HasPorts(t, s, ports)
    ensures forall p <- ports :: HasLb(t, s, p)
  {
  }

  lemma StrippedBuilt(st: Proxy, st': Proxy, s: string, other: string, ports: seq<Port>)
    requires Built(st, st', other, ports) && s != other && s in st.tables && KUBE_SERVICES !in st'.owners
    ensures Built(Stripped(st, s), Stripped(st', s), other, ports)
  {
    assert KUBE_SERVICES in st.chains && KUBE_SERVICES in st'.chains;
    hide OwnersGrow, ChainsGrow, HasPorts, EntryRules;
    BuiltPortsExist(st'.tables, other, ports);
    StrippedPorts(st'.tables, s, other, ports);
    EntryRulesMembers(st'.tables, other, ports);
    StrippedGrowth(st, st', s, other);
    StrippedChainsGrowth(st, st', s, other, EntryRules(st'.tables, other, ports));
    assert Stripped(st', s).tables == Stripped(st, s).tables[other := st'.tables[other]];
  }

  lemma StrippedPartly(st: Proxy, svc: Service, st': Proxy, s: string)
    requires PartlyAdded(st, svc, |svc.ports|, svc.endpoints, st') && svc.name != s && s in st.tables
    requires KUBE_SERVICES !in st'.owners
    requires KUBE_SERVICES in st.chains && KUBE_SERVICES in st'.chains
    ensures PartlyAdded(Stripped(st, s), svc, |svc.ports|, svc.endpoints, Stripped(st', s))
  {
    StrippedBuilt(st, st', s, svc.name, PortsOf(svc.ports[..|svc.ports|]));
    hide Built;
    var t, u := st'.tables, Stripped(st', s).tables;
    assert svc.name in u && u[svc.name] == t[svc.name]
      by { assert Built(Stripped(st, s), Stripped(st', s), svc.name, PortsOf(svc.ports[..|svc.ports|])); }
  }

  lemma StrippedAddition(st: Proxy, svc: Service, st': Proxy, s: string, base: Table)
    requires Exact(st, base) && Exact(st', base) && ServiceAdded(st, svc, st') && svc.name != s && s in st.tables
    ensures KUBE_SERVICES in st.chains && KUBE_SERVICES in st'.chains
    ensures ServiceAdded(Stripped(st, s), svc, Stripped(st', s))
  {
    KubeServicesUnowned(st');
    StrippedExact(st, s, base);
    StrippedExact(st', s, base);
    hide Inv, PartlyAdded, Tight, OnlyEntries;
    StrippedPartly(st, svc, st', s);
  }

  lemma StrippedChainsGone(st: Proxy, other: string, st': Proxy, s: string)
    requires ChainsGone(st, other, st') && st'.owners == OwnersWithout(st.owners, other) && other != s
    requires KUBE_SERVICES in st.chains && KUBE_SERVICES in st'.chains && KUBE_SERVICES !in st.owners
    ensures ChainsGone(Stripped(st, s), other, Stripped(st', s))
  {
  }

  lemma StrippedEntriesGone(st: Proxy, other: string, st': Proxy, s: string)
    requires EntriesGone(st, other, st') && other != s
    ensures EntriesGone(Stripped(st, s), other, Stripped(st', s))
  {
    var t, t' := st.chains[KUBE_SERVICES], st'.chains[KUBE_SERVICES];
    var u := Stripped(st, s);
    NotOfCommutes(t, s, other);
    NotOfCommutes(t', s, other);
    NotOfMembers(t, s);
    NotOfMembers(t', s);
    forall r | r in NotOf(t', s) ensures r in NotOf(t, s) && !(IsEntry(u, r) && r.svc == other) {
      assert r in t';
      if IsEntry(u, r) && r.svc == other {
        assert IsEntry(st, r);
      }
    }
  }

  lemma StrippedRemoval(st: Proxy, other: string, st': Proxy, s: string)
    requires ServiceRemoved(st, other, st') && other != s && KUBE_SERVICES !in st.owners
    ensures ServiceRemoved(Stripped(st, s), other, Stripped(st', s))
  {
    StrippedChainsGone(st, other, st', s);
    StrippedEntriesGone(st, other, st', s);
    hide ChainsGone, EntriesGone;
    assert Stripped(st', s).tables == Stripped(st, s).tables - {other};
    assert Stripped(st', s).owners == OwnersWithout(Stripped(st, s).owners, other);
  }

  lemma StrippedDeletion(st: Proxy, other: string, st': Proxy, s: string, base: Table)
    requires Exact(st, base) && Exact(st', base) && Deleted(st, other, st') && other != s
    ensures KUBE_SERVICES in st.chains && KUBE_SERVICES in st'.chains
    ensures Deleted(Stripped(st, s), other, Stripped(st', s))
  {
    KubeServicesUnowned(st);
    StrippedExact(st, s, base);
    StrippedExact(st', s, base);
    hide Inv, Tight, OnlyEntries, ServiceRemoved;
    if other in st.tables {
      StrippedRemoval(st, other, st', s);
    }
  }

  predicate Touches(n: Notification, s: string) {
    match n
    case Add(svc) => svc.name == s
    case Update(before, after) => before.name == s || after.name == s
    case Delete(svc) => svc.name == s
  }

  /** A step that does not touch `s` is also a step between the states without `s`. */
  lemma StrippedStep(st: Proxy, n: Notification, st': Proxy, s: string, base: Table)
    requires Exact(st, base) && Handled(st, n, st') && !Touches(n, s) && s in st.tables
    ensures s in st'.tables && KUBE_SERVICES in st.chains && KUBE_SERVICES in st'.chains
    ensures Handled(Stripped(st, s), n, Stripped(st', s))
  {
    StepStaysExact(st, n, st', base);
    match n {
      case Add(svc) =>
        StrippedAddition(st, svc, st', s, base);
      case Update(before, after) =>
        StrippedUpdate(st, before, after, st', s, base);
      case Delete(svc) =>
        StrippedDeletion(st, svc.name, st', s, base);
    }
  }

  lemma StrippedUpdate(st: Proxy, before: Service, after: Service, st': Proxy, s: string, base: Table)
    requires Exact(st, base) && Exact(st', base) && Handled(st, Update(before, after), st')
    requires before.name != s && after.name != s && s in st.tables
    ensures s in st'.tables && KUBE_SERVICES in st.chains && KUBE_SERVICES in st'.chains
    ensures Handled(Stripped(st, s), Update(before, after), Stripped(st', s))
  {
    var mid :| Deleted(st, before.name, mid) && ServiceAdded(mid, after, st');
    assert s in mid.tables;
    hide Exact, Deleted, ServiceAdded;
    DeletionStaysExact(st, before.name, mid, base);
    StrippedDeletion(st, before.name, mid, s, base);
    StrippedAddition(mid, after, st', s, base);
  }

  /** The same run as seen without service `s`. */
  function StrippedTrace(trace: seq<Proxy>, s: string): seq<Proxy>
    requires forall st <- trace :: KUBE_SERVICES in st.chains
  {
    seq(|trace|, i requires 0 <= i < |trace| => Stripped(trace[i], s))
  }

  lemma {:induction false} RunKeepsService(trace: seq<Proxy>, ns: seq<Notification>, s: string, base: Table, i: nat)
    requires Run(trace, ns) && i <= |ns| && s in trace[0].tables
    requires forall st <- trace :: Exact(st, base)
    requires forall n <- ns :: !Touches(n, s)
    ensures s in trace[i].tables
  {
    if i > 0 {
      hide Exact, Handled;
      var j := i - 1;
      RunKeepsService(trace, ns, s, base, j);
      assert Handled(trace[j], ns[j], trace[j + 1]);
      StrippedStep(trace[j], ns[j], trace[j + 1], s, base);
    }
  }

  lemma ExactHasEntryChain(trace: seq<Proxy>, base: Table)
    requires forall st <- trace :: Exact(st, base)
    ensures forall st <- trace :: KUBE_SERVICES in st.chains
  {
    forall st | st in trace ensures KUBE_SERVICES in st.chains {
      assert Exact(st, base);
    }
  }

  lemma {:induction false} StrippedTraceStep(trace: seq<Proxy>, ns: seq<Notification>, s: string, base: Table, i: nat)
    requires Run(trace, ns) && i < |ns| && s in trace[0].tables
    requires forall st <- trace :: Exact(st, base)
    requires forall st <- trace :: KUBE_SERVICES in st.chains
    requires forall n <- ns :: !Touches(n, s)
    ensures Handled(StrippedTrace(trace, s)[i], ns[i], StrippedTrace(trace, s)[i + 1])
  {
    hide Exact, Handled, Stripped, Touches;
    RunKeepsService(trace, ns, s, base, i);
    assert Handled(trace[i], ns[i], trace[i + 1]);
    StrippedStep(trace[i], ns[i], trace[i + 1], s, base);
  }

  /** A run that does not touch `s` is, without `s`, a run with the same notifications. */
  lemma StrippedRun(trace: seq<Proxy>, ns: seq<Notification>, s: string, base: Table)
    requires Run(trace, ns) && Exact(trace[0], base) && s in trace[0].tables
    requires forall n <- ns :: !Touches(n, s)
    ensures Exact(trace[|ns|], base) && s in trace[|ns|].tables
    ensures (forall st <- trace :: KUBE_SERVICES in st.chains) && Run(StrippedTrace(trace, s), ns)
  {
    hide Exact, Handled, Stripped, Touches;
    RunsStayExact(trace, ns, base);
    ExactHasEntryChain(trace, base);
    RunKeepsService(trace, ns, s, base, |ns|);
    forall i | 0 <= i < |ns| ensures Handled(StrippedTrace(trace, s)[i], ns[i], StrippedTrace(trace, s)[i + 1]) {
      StrippedTraceStep(trace, ns, s, base, i);
    }
  }

  /** Add a service, let any run happen to other services, delete the service again: the result is
      exactly what the same run gives without the service ever having been there. */
  lemma AdditionIsUndone(st0: Proxy, svc: Service, trace: seq<Proxy>, ns: seq<Notification>, st: Proxy, base: Table)
    returns (trace': seq<Proxy>)
    requires Exact(st0, base)
    requires Run(trace, ns) && ServiceAdded(st0, svc, trace[0])
    requires forall n <- ns :: !Touches(n, svc.name)
    requires Deleted(trace[|ns|], svc.name, st)
    ensures Run(trace', ns) && trace'[0] == st0 && trace'[|ns|] == st
  {
    hide Inv, Tight, OnlyEntries, Handled, Stripped, Deleted, Built;
    AdditionStaysExact(st0, svc, trace[0], base);
    AdditionAppears(svc, st0, trace[0]);
    StrippedRun(trace, ns, svc.name, base);
    trace' := StrippedTrace(trace, svc.name);
    StrippingStarts(st0, svc, trace[0], base);
    StrippingEnds(trace[|ns|], svc.name, st, base);
  }

  /** In particular, adding a service and deleting it restores the nat table. */
  lemma AddDeleteRestores(st0: Proxy, svc: Service, st1: Proxy, st2: Proxy, base: Table)
    requires Exact(st0, base) && ServiceAdded(st0, svc, st1) && Deleted(st1, svc.name, st2)
    ensures st2 == st0
  {
    var trace := AdditionIsUndone(st0, svc, [st1], [], st2, base);
  }
}
