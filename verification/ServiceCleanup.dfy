/** The sweep at start-up that removes what an earlier proxy left in the nat table
    (rkube_proxy/src/k8s_iptables.rs). */
module ServiceCleanup {
  import opened Common
  import opened Nat
  import opened ServiceTables
  import opened ServiceChanges

  const PREROUTING := "PREROUTING"
  const OUTPUT := "OUTPUT"
  const LB_PREFIX := "KUBE-LB"
  const EP_PREFIX := "KUBE-EP"

  const PORTAL_TEXT := "kubernetes service portals"

  /** The rule that leads into the service chain. */
  const PORTAL := ForeignRule(PORTAL_TEXT, Some(KUBE_SERVICES))

  predicate IsLbName(c: string) { LB_PREFIX <= c }

  predicate IsEpName(c: string) { EP_PREFIX <= c }

  predicate IsOurs(c: string) { IsLbName(c) || IsEpName(c) }

  lemma NamesAreApart(c: string)
    ensures !(IsLbName(c) && IsEpName(c)) && !IsOurs(KUBE_SERVICES) && !IsOurs(PREROUTING) && !IsOurs(OUTPUT)
    ensures PREROUTING != OUTPUT && PREROUTING != KUBE_SERVICES && OUTPUT != KUBE_SERVICES
  {
    assert LB_PREFIX[5] == 'L' && EP_PREFIX[5] == 'E' && KUBE_SERVICES[5] == 'S' && PREROUTING[0] == 'P'
      && OUTPUT[0] == 'O';
    assert LB_PREFIX[0] == 'K' && EP_PREFIX[0] == 'K' && KUBE_SERVICES[0] == 'K';
    if IsLbName(c) { assert c[5] == 'L'; }
    if IsEpName(c) { assert c[5] == 'E'; }
  }

  function WithPortal(t: Table, c: string): Table
    requires c in t
  {
    if PORTAL in t[c] then t else t[c := [PORTAL] + t[c]]
  }

  function Kept(t: Table): Table {
    map c | c in t && !IsOurs(c) :: t[c]
  }

  /** The table without our chains, with an empty service chain, and with its portals. */
  function Cleaned(t: Table): Table
    requires PREROUTING in t && OUTPUT in t
  {
    NamesAreApart("");
    WithPortal(WithPortal(Kept(t), PREROUTING), OUTPUT)[KUBE_SERVICES := []]
  }

  /** The built-in chains exist, the service chain may jump anywhere, our load-balancing chains only to our
      endpoint chains, and nothing else into our chains. */
  ghost predicate Sweepable(t: Table) {
    && PREROUTING in t && OUTPUT in t
    && forall c <- t :: c != KUBE_SERVICES ==> forall r <- t[c] :: JumpsClear(c, r)
  }

  predicate JumpsClear(c: string, r: Rule) {
    Target(r).Some? && IsOurs(Target(r).value) ==> IsLbName(c) && IsEpName(Target(r).value)
  }

  /** Give a built-in chain its portal at the top, unless it has one. */
  method AddPortal(ipt: NatTable, c: string)
    requires c in ipt.chains && KUBE_SERVICES in ipt.chains
    modifies ipt
    ensures ipt.chains == WithPortal(old(ipt.chains), c) && ipt.rejected == old(ipt.rejected)
  {
    if PORTAL !in ipt.chains[c] {
      var ok := ipt.InsertTop(c, PORTAL);
      assert ok;
    }
  }

  /** Flush and delete every chain of the given ones. */
  method Sweep(ipt: NatTable, gone: set<string>)
    requires gone <= ipt.chains.Keys
    requires forall c <- gone :: OnlyOwnJumps(ipt.chains, c)
    modifies ipt
    ensures ipt.chains == old(ipt.chains) - gone && ipt.rejected == old(ipt.rejected)
  {
    var todo := gone;
    assert ipt.chains == ipt.chains - (gone - todo);
    while todo != {}
      invariant todo <= gone && ipt.chains == old(ipt.chains) - (gone - todo) && ipt.rejected == old(ipt.rejected)
    {
      var c := Next(todo);
      var ok := ipt.FlushChain(c);
      assert ok;
      assert OnlyOwnJumps(old(ipt.chains), c);
      ok := ipt.DeleteChain(c);
      assert ok;
      todo := todo - {c};
    }
    assert gone - {} == gone;
  }

  /** No rule jumps to the chain, but perhaps its own. */
  ghost predicate OnlyOwnJumps(t: Table, c: string) {
    forall d <- t :: d != c ==> forall r <- t[d] :: Target(r) != Some(c)
  }

  /** The two built-in chains lead into the service chain first, unless they did so before. */
  ghost predicate Entered(before: Table, after: Table) {
    forall c | c == PREROUTING || c == OUTPUT ::
      && c in before && c in after
      && after[c] == if PORTAL in before[c] then before[c] else [PORTAL] + before[c]
  }

  /** The chains with our prefixes are gone, and the others are as they were. */
  ghost predicate Swept(before: Table, after: Table) {
    forall c :: c != KUBE_SERVICES && c != PREROUTING && c != OUTPUT ==>
      && (c in after <==> c in before && !("KUBE-LB" <= c) && !("KUBE-EP" <= c))
      && (c in after ==> after[c] == before[c])
  }

  lemma CleanedIs(t: Table)
    requires PREROUTING in t && OUTPUT in t
    ensures Entered(t, Cleaned(t)) && Swept(t, Cleaned(t))
    ensures KUBE_SERVICES in Cleaned(t) && Cleaned(t)[KUBE_SERVICES] == []
  {
    NamesAreApart("");
  }

  method Cleanup(ipt: NatTable)
    requires Sweepable(ipt.chains)
    modifies ipt
    ensures ipt.chains == Cleaned(old(ipt.chains)) && ipt.rejected == old(ipt.rejected)
    ensures Entered(old(ipt.chains), ipt.chains) && Swept(old(ipt.chains), ipt.chains)
    ensures KUBE_SERVICES in ipt.chains && ipt.chains[KUBE_SERVICES] == []
  {
    hide Entered, Swept, Cleaned, AllClear, OnlyOwnJumps;
    NamesAreApart("");
    var before := ipt.chains;
    var chains := ipt.chains.Keys;
    if KUBE_SERVICES !in chains {
      var ok := ipt.NewChain(KUBE_SERVICES);
      assert ok;
    }
    AddPortal(ipt, PREROUTING);
    AddPortal(ipt, OUTPUT);
    if KUBE_SERVICES in chains {
      var ok := ipt.FlushChain(KUBE_SERVICES);
      assert ok;
    }
    var entered := ipt.chains;
    assert entered == WithPortal(WithPortal(before, PREROUTING), OUTPUT)[KUBE_SERVICES := []];
    EnteredClear(before, entered);
    var lbs := set c | c in chains && IsLbName(c);
    LbsUnreferenced(entered, lbs);
    Sweep(ipt, lbs);
    var eps := set c | c in chains && IsEpName(c);
    EpsUnreferenced(entered, lbs, eps);
    Sweep(ipt, eps);
    CleanedInSteps(before, entered, lbs, eps);
    CleanedIs(before);
  }

  /** After the service chain is flushed, every jump is clear. */
  ghost predicate AllClear(t: Table) {
    forall c <- t :: forall r <- t[c] :: JumpsClear(c, r)
  }

  lemma EnteredClear(before: Table, entered: Table)
    requires Sweepable(before) && entered == WithPortal(WithPortal(before, PREROUTING), OUTPUT)[KUBE_SERVICES := []]
    ensures AllClear(entered)
  {
    NamesAreApart("");
    forall c, r | c in entered && r in entered[c] ensures JumpsClear(c, r) {
      assert r == PORTAL || (c in before && r in before[c]);
    }
  }

  lemma LbsUnreferenced(t: Table, lbs: set<string>)
    requires AllClear(t) && forall c <- lbs :: IsLbName(c)
    ensures forall c <- lbs :: OnlyOwnJumps(t, c)
  {
    forall c, d, r | c in lbs && d in t && r in t[d] ensures Target(r) != Some(c) {
      NamesAreApart(c);
      assert JumpsClear(d, r);
    }
  }

  lemma EpsUnreferenced(t: Table, lbs: set<string>, eps: set<string>)
    requires AllClear(t) && (forall c <- eps :: IsEpName(c)) && forall c <- t :: IsLbName(c) ==> c in lbs
    ensures forall c <- eps :: OnlyOwnJumps(t - lbs, c)
  {
    forall c, d, r | c in eps && d in t - lbs && r in t[d] ensures Target(r) != Some(c) {
      assert JumpsClear(d, r);
    }
  }

  lemma CleanedInSteps(before: Table, entered: Table, lbs: set<string>, eps: set<string>)
    requires PREROUTING in before && OUTPUT in before
    requires entered == WithPortal(WithPortal(before, PREROUTING), OUTPUT)[KUBE_SERVICES := []]
    requires (forall c <- before :: IsLbName(c) <==> c in lbs) && (forall c <- before :: IsEpName(c) <==> c in eps)
    requires lbs <= before.Keys && eps <= before.Keys
    ensures entered - lbs - eps == Cleaned(before)
  {
    NamesAreApart("");
  }

  /** The sweep leaves no dangling jump. */
  lemma CleanedNoDangling(t: Table)
    requires Sweepable(t) && NoDangling(t)
    ensures NoDangling(Cleaned(t)) && Cleaned(t)[KUBE_SERVICES] == []
  {
    NamesAreApart("");
    var u := Cleaned(t);
    forall c, r | c in u && r in u[c] ensures TargetExists(u, r) {
      if r != PORTAL {
        assert c in t && r in t[c] && !IsOurs(c);
        assert JumpsClear(c, r) && TargetExists(t, r);
      }
    }
  }

  // ---------- what a running proxy leaves can be swept ----------

  ghost predicate Named(owners: map<string, Owner>) {
    forall c <- owners :: if owners[c].LbOf? then IsLbName(c) else IsEpName(c)
  }

  /** Foreign chains have names of their own. */
  ghost predicate NoneOfOurs(base: Table) {
    forall c <- base :: !IsOurs(c)
  }

  /** Whatever an exact proxy leaves behind, the next one's sweep is accepted and starts from the same
      table as if no proxy had run before. */
  lemma {:induction false} RestartRecovers(st: Proxy, base: Table)
    requires Exact(st, base) && Named(st.owners) && NoneOfOurs(base) && Sweepable(base)
    ensures Sweepable(st.chains) && Cleaned(st.chains) == Cleaned(base)
  {
    KubeServicesUnowned(st);
    LeftoversSweepable(st, base);
    hide Inv, OnlyEntries, Sweepable;
    NamesAreApart("");
    LeftoversKept(st, base);
    CleanedFromKept(st.chains, base);
  }

  lemma {:induction false} LeftoversSweepable(st: Proxy, base: Table)
    requires Exact(st, base) && Named(st.owners) && Sweepable(base)
    ensures Sweepable(st.chains)
  {
    NamesAreApart("");
    forall c, r | c in st.chains && c != KUBE_SERVICES && r in st.chains[c] ensures JumpsClear(c, r) {
      if c in st.owners {
        OwnedJumpsClear(st, c, r);
      } else {
        assert c in base && st.chains[c] == base[c];
        assert JumpsClear(c, r);
      }
    }
  }

  lemma LeftoversKept(st: Proxy, base: Table)
    requires Tight(st, base) && Named(st.owners) && NoneOfOurs(base) && KUBE_SERVICES !in st.owners
    ensures Kept(st.chains)[KUBE_SERVICES := []] == Kept(base)[KUBE_SERVICES := []]
  {
    NamesAreApart("");
    var a, b := Kept(st.chains)[KUBE_SERVICES := []], Kept(base)[KUBE_SERVICES := []];
    forall c ensures c in a <==> c in b {
    }
    forall c | c in a ensures a[c] == b[c] {
    }
  }

  lemma CleanedFromKept(t: Table, u: Table)
    requires PREROUTING in t && OUTPUT in t && PREROUTING in u && OUTPUT in u
    requires Kept(t)[KUBE_SERVICES := []] == Kept(u)[KUBE_SERVICES := []]
    ensures Cleaned(t) == Cleaned(u)
  {
    NamesAreApart("");
    var a, b := Kept(t), Kept(u);
    assert a[KUBE_SERVICES := []][PREROUTING] == a[PREROUTING] && a[KUBE_SERVICES := []][OUTPUT] == a[OUTPUT];
    assert b[KUBE_SERVICES := []][PREROUTING] == b[PREROUTING] && b[KUBE_SERVICES := []][OUTPUT] == b[OUTPUT];
    hide Kept;
    PortalsCommute(a);
    PortalsCommute(b);
  }

  lemma PortalsCommute(t: Table)
    requires PREROUTING in t && OUTPUT in t
    ensures PREROUTING != KUBE_SERVICES && OUTPUT != KUBE_SERVICES
    ensures WithPortal(WithPortal(t, PREROUTING), OUTPUT)[KUBE_SERVICES := []]
         == WithPortal(WithPortal(t[KUBE_SERVICES := []], PREROUTING), OUTPUT)
  {
    NamesAreApart("");
  }

  lemma OwnedJumpsClear(st: Proxy, c: string, r: Rule)
    requires Inv(st) && Named(st.owners) && c in st.owners && c in st.chains && r in st.chains[c]
    ensures JumpsClear(c, r)
  {
    OwnedChainTargets(st, c, r);
  }
}
