/** The kernel's nat table as the service proxy drives it: chains of rules, and the operations of
    iptables with the conditions under which iptables rejects them. */
module Nat {
  import opened Common

  type Ip = int

  type Port = p: int | 0 <= p < 0x1_0000

  datatype Rule =
    | SvcRule(dst: Ip, dport: Port, svc: string, chain: string)   // entry point of one service port
    | LbRule(i: nat, chain: string)                               // taken with probability 1/i
    | DnatRule(svc: string, ep: Ip, port: Port)                   // rewrites the destination
    | ForeignRule(text: string, jump: Option<string>)             // anything else

  type Table = map<string, seq<Rule>>

  const KUBE_SERVICES := "KUBE-SERVICES"

  /** The chain a rule jumps to. */
  function Target(r: Rule): Option<string> {
    match r
    case SvcRule(_, _, _, chain) => Some(chain)
    case LbRule(_, chain) => Some(chain)
    case DnatRule(_, _, _) => None
    case ForeignRule(_, jump) => jump
  }

  predicate Referenced(t: Table, chain: string) {
    exists c <- t :: exists r <- t[c] :: Target(r) == Some(chain)
  }

  predicate TargetExists(t: Table, r: Rule) {
    Target(r).Some? ==> Target(r).value in t
  }

  /** `s` without its first occurrence of `x`. */
  function RemoveFirst<T(==)>(s: seq<T>, x: T): seq<T> {
    if s == [] then [] else if s[0] == x then s[1..] else [s[0]] + RemoveFirst(s[1..], x)
  }

  class NatTable {
    var chains: Table
    /** How many operations iptables has rejected so far. */
    ghost var rejected: nat

    constructor (table: Table)
      ensures chains == table && rejected == 0
    {
      chains, rejected := table, 0;
    }

    method NewChain(c: string) returns (ok: bool)
      modifies this
      ensures ok == (c !in old(chains))
      ensures chains == if ok then old(chains)[c := []] else old(chains)
      ensures rejected == old(rejected) + if ok then 0 else 1
    {
      ok := c !in chains;
      if ok { chains := chains[c := []]; } else { rejected := rejected + 1; }
    }

    method FlushChain(c: string) returns (ok: bool)
      modifies this
      ensures ok == (c in old(chains))
      ensures chains == if ok then old(chains)[c := []] else old(chains)
      ensures rejected == old(rejected) + if ok then 0 else 1
    {
      ok := c in chains;
      if ok { chains := chains[c := []]; } else { rejected := rejected + 1; }
    }

    /** Only an empty chain that no rule jumps to can be deleted. */
    method DeleteChain(c: string) returns (ok: bool)
      modifies this
      ensures ok == (c in old(chains) && old(chains)[c] == [] && !Referenced(old(chains), c))
      ensures chains == if ok then old(chains) - {c} else old(chains)
      ensures rejected == old(rejected) + if ok then 0 else 1
    {
      ok := c in chains && chains[c] == [] && !Referenced(chains, c);
      if ok { chains := chains - {c}; } else { rejected := rejected + 1; }
    }

    /** A rule can only jump to a chain that exists. */
    method Append(c: string, r: Rule) returns (ok: bool)
      modifies this
      ensures ok == (c in old(chains) && TargetExists(old(chains), r))
      ensures chains == if ok then old(chains)[c := old(chains)[c] + [r]] else old(chains)
      ensures rejected == old(rejected) + if ok then 0 else 1
    {
      ok := c in chains && TargetExists(chains, r);
      if ok { chains := chains[c := chains[c] + [r]]; } else { rejected := rejected + 1; }
    }

    method AppendUnique(c: string, r: Rule) returns (ok: bool)
      modifies this
      ensures ok == (c in old(chains) && TargetExists(old(chains), r) && r !in old(chains)[c])
      ensures chains == if ok then old(chains)[c := old(chains)[c] + [r]] else old(chains)
      ensures rejected == old(rejected) + if ok then 0 else 1
    {
      ok := c in chains && TargetExists(chains, r) && r !in chains[c];
      if ok { chains := chains[c := chains[c] + [r]]; } else { rejected := rejected + 1; }
    }

    /** Insertion at position 1, the top of the chain. */
    method InsertTop(c: string, r: Rule) returns (ok: bool)
      modifies this
      ensures ok == (c in old(chains) && TargetExists(old(chains), r))
      ensures chains == if ok then old(chains)[c := [r] + old(chains)[c]] else old(chains)
      ensures rejected == old(rejected) + if ok then 0 else 1
    {
      ok := c in chains && TargetExists(chains, r);
      if ok { chains := chains[c := [r] + chains[c]]; } else { rejected := rejected + 1; }
    }

    method DeleteRule(c: string, r: Rule) returns (ok: bool)
      modifies this
      ensures ok == (c in old(chains) && r in old(chains)[c])
      ensures chains == if ok then old(chains)[c := RemoveFirst(old(chains)[c], r)] else old(chains)
      ensures rejected == old(rejected) + if ok then 0 else 1
    {
      ok := c in chains && r in chains[c];
      if ok { chains := chains[c := RemoveFirst(chains[c], r)]; } else { rejected := rejected + 1; }
    }
  }

  // ---------- removal from a list without duplicates ----------

  predicate NoDup<T(==)>(s: seq<T>) {
    s == [] || (s[0] !in s[1..] && NoDup(s[1..]))
  }

  lemma {:induction false} RemoveFirstMembers<T>(s: seq<T>, x: T)
    requires NoDup(s)
    ensures forall y :: y in RemoveFirst(s, x) <==> y in s && y != x
    ensures NoDup(RemoveFirst(s, x))
  {
    if s != [] {
      assert s == [s[0]] + s[1..];
      RemoveFirstMembers(s[1..], x);
    }
  }

  lemma {:induction false} NoDupAppend<T>(s: seq<T>, x: T)
    requires NoDup(s) && x !in s
    ensures NoDup(s + [x])
  {
    if s != [] {
      NoDupAppend(s[1..], x);
      assert (s + [x])[1..] == s[1..] + [x];
    }
  }

  /** The rules of `s` that do not belong to service `svc`, in order. */
  function NotOf(s: seq<Rule>, svc: string): seq<Rule> {
    if s == [] then []
    else if s[0].SvcRule? && s[0].svc == svc then NotOf(s[1..], svc)
    else [s[0]] + NotOf(s[1..], svc)
  }

  lemma {:induction false} NotOfConcat(a: seq<Rule>, b: seq<Rule>, svc: string)
    ensures NotOf(a + b, svc) == NotOf(a, svc) + NotOf(b, svc)
  {
    if a == [] {
      assert a + b == b;
    } else {
      assert (a + b)[1..] == a[1..] + b;
      NotOfConcat(a[1..], b, svc);
    }
  }

  lemma {:induction false} NotOfMembers(s: seq<Rule>, svc: string)
    ensures forall r :: r in NotOf(s, svc) <==> r in s && !(r.SvcRule? && r.svc == svc)
    ensures NoDup(s) ==> NoDup(NotOf(s, svc))
    ensures (forall r <- s :: !(r.SvcRule? && r.svc == svc)) ==> NotOf(s, svc) == s
    ensures (forall r <- s :: r.SvcRule? && r.svc == svc) ==> NotOf(s, svc) == []
  {
    if s != [] {
      assert s == [s[0]] + s[1..];
      NotOfMembers(s[1..], svc);
    }
  }

  lemma {:induction false} NotOfSkips(s: seq<Rule>, svc: string, r: Rule)
    requires r.SvcRule? && r.svc == svc
    ensures NotOf(RemoveFirst(s, r), svc) == NotOf(s, svc)
  {
    if s != [] && s[0] != r {
      NotOfSkips(s[1..], svc, r);
      assert RemoveFirst(s, r) == [s[0]] + RemoveFirst(s[1..], r);
    }
  }

  lemma {:induction false} NotOfCommutes(s: seq<Rule>, svc: string, other: string)
    ensures NotOf(NotOf(s, svc), other) == NotOf(NotOf(s, other), svc)
  {
    if s != [] {
      NotOfCommutes(s[1..], svc, other);
      var t, u := NotOf(s[1..], svc), NotOf(s[1..], other);
      assert ([s[0]] + t)[1..] == t && ([s[0]] + u)[1..] == u;
    }
  }
}
