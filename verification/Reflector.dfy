/** The list/watch cache: a store fed by listings and by a watch, and the notifications it emits
    (resources/src/informer/reflector.rs). `same` is the `==` of the stored type, which may ignore
    fields, and `uri` is the key of an object. */
module Reflector {
  import opened Common

  type Store<T> = map<string, T>

  datatype Event<T> = Put(key: string, obj: T) | Remove(key: string)

  /** A websocket message: a text, which may not parse, the peer closing, or anything else. */
  datatype Message<T> = Text(event: Option<Event<T>>) | Close | NonText

  datatype Notice<T> = Added(obj: T) | Updated(before: T, after: T) | Deleted(obj: T)

  /** One turn of the outer loop: the successful listing, and what the watch delivers if it opens. */
  datatype Session<T> = Session(objects: seq<T>, watch: Option<seq<Message<T>>>)

  // ---------- what one listing and one event do ----------

  function Listing<T>(uri: T -> string, objects: seq<T>): Store<T> {
    if objects == [] then map[]
    else var last := objects[|objects| - 1]; Listing(uri, objects[..|objects| - 1])[uri(last) := last]
  }

  predicate SameStore<T>(same: (T, T) -> bool, a: Store<T>, b: Store<T>) {
    a.Keys == b.Keys && forall k <- a :: same(a[k], b[k])
  }

  /** The listing replaces the store unless the two are equal, which asks for a resync. */
  function Relisted<T>(same: (T, T) -> bool, store: Store<T>, listing: Store<T>): Store<T> {
    if SameStore(same, store, listing) then store else listing
  }

  function Applied<T>(same: (T, T) -> bool, store: Store<T>, e: Event<T>): Store<T> {
    match e
    case Put(k, x) => if k in store && same(store[k], x) then store else store[k := x]
    case Remove(k) => store - {k}
  }

  function Emitted<T>(same: (T, T) -> bool, store: Store<T>, e: Event<T>): seq<Notice<T>> {
    match e
    case Put(k, x) =>
      if k !in store then [Added(x)] else if same(store[k], x) then [] else [Updated(store[k], x)]
    case Remove(k) => if k in store then [Deleted(store[k])] else []
  }

  function AppliedAll<T>(same: (T, T) -> bool, store: Store<T>, es: seq<Event<T>>): Store<T> {
    if es == [] then store else Applied(same, AppliedAll(same, store, es[..|es| - 1]), es[|es| - 1])
  }

  /** The events a watch delivers before it ends: at a close, an unparsable text or the end of the stream. */
  function Events<T>(msgs: seq<Message<T>>): seq<Event<T>> {
    if msgs == [] || msgs[0].Close? || msgs[0] == Text(None) then []
    else if msgs[0].NonText? then Events(msgs[1..])
    else [msgs[0].event.value] + Events(msgs[1..])
  }

  lemma EventsFrom<T>(msgs: seq<Message<T>>, i: nat)
    requires i <= |msgs|
    ensures i == |msgs| || msgs[i].Close? || msgs[i] == Text(None) ==> Events(msgs[i..]) == []
    ensures i < |msgs| && msgs[i].NonText? ==> Events(msgs[i..]) == Events(msgs[i + 1..])
    ensures i < |msgs| && msgs[i].Text? && msgs[i].event.Some? ==>
      Events(msgs[i..]) == [msgs[i].event.value] + Events(msgs[i + 1..])
  {
    if i < |msgs| {
      assert msgs[i..][0] == msgs[i] && msgs[i..][1..] == msgs[i + 1..];
    }
  }

  predicate EndsWatch<T>(m: Message<T>) { m.Close? || m == Text(None) }

  /** The events are those of the texts before the message that ends the watch, in order. */
  lemma {:induction false} EventsAre<T>(before: seq<Message<T>>, m: Message<T>, after: seq<Message<T>>)
    requires forall x <- before :: !EndsWatch(x)
    ensures Events(before + [m] + after) ==
      Events(before)
        + (if EndsWatch(m) then [] else if m.NonText? then Events(after) else [m.event.value] + Events(after))
    ensures Events<T>([]) == []
  {
    var all := before + [m] + after;
    if before == [] {
      assert all[0] == m && all[1..] == after;
    } else {
      assert all[0] == before[0] && all[1..] == before[1..] + [m] + after;
      EventsAre(before[1..], m, after);
      var x := before[0];
      assert x in before && !EndsWatch(x);
      if x.Text? {
        var rest := if EndsWatch(m) then [] else if m.NonText? then Events(after) else [m.event.value] + Events(after);
        assert [x.event.value] + (Events(before[1..]) + rest) == [x.event.value] + Events(before[1..]) + rest;
      }
    }
  }

  /** A listing holds, for every key of its objects, the last object with that key. */
  lemma {:induction false} ListingHolds<T>(uri: T -> string, objects: seq<T>, k: string)
    ensures k in Listing(uri, objects) <==> exists i :: 0 <= i < |objects| && uri(objects[i]) == k
    ensures forall i :: 0 <= i < |objects| && uri(objects[i]) == k
                        && (forall j :: i < j < |objects| ==> uri(objects[j]) != k) ==>
              k in Listing(uri, objects) && Listing(uri, objects)[k] == objects[i]
  {
    if objects != [] {
      var n := |objects| - 1;
      ListingHolds(uri, objects[..n], k);
      assert forall i :: 0 <= i < n ==> objects[..n][i] == objects[i];
    }
  }

  /** The store after a session. */
  function AfterSession<T>(same: (T, T) -> bool, uri: T -> string, store: Store<T>, s: Session<T>): Store<T> {
    AppliedAll(same, Relisted(same, store, Listing(uri, s.objects)),
      if s.watch.Some? then Events(s.watch.value) else [])
  }

  function AfterSessions<T>(same: (T, T) -> bool, uri: T -> string, store: Store<T>, ss: seq<Session<T>>): Store<T> {
    if ss == [] then store
    else AfterSession(same, uri, AfterSessions(same, uri, store, ss[..|ss| - 1]), ss[|ss| - 1])
  }

  // ---------- replaying notifications ----------

  function Replayed<T>(uri: T -> string, store: Store<T>, ns: seq<Notice<T>>): Store<T> {
    if ns == [] then store
    else
      var before := Replayed(uri, store, ns[..|ns| - 1]);
      match ns[|ns| - 1]
      case Added(x) => before[uri(x) := x]
      case Updated(_, x) => before[uri(x) := x]
      case Deleted(x) => before - {uri(x)}
  }

  /** Additions are of absent keys; updates and deletions carry the stored value, and an update changes it. */
  ghost predicate Truthful<T>(same: (T, T) -> bool, uri: T -> string, store: Store<T>, n: Notice<T>) {
    match n
    case Added(x) => uri(x) !in store
    case Updated(x, y) => uri(x) == uri(y) && uri(x) in store && store[uri(x)] == x && !same(x, y)
    case Deleted(x) => uri(x) in store && store[uri(x)] == x
  }

  /** Every notification is truthful about the store that the ones before it lead to. */
  ghost predicate Faithful<T>(same: (T, T) -> bool, uri: T -> string, store: Store<T>, ns: seq<Notice<T>>) {
    ns == [] || (Faithful(same, uri, store, ns[..|ns| - 1])
                 && Truthful(same, uri, Replayed(uri, store, ns[..|ns| - 1]), ns[|ns| - 1]))
  }

  ghost predicate Keyed<T>(uri: T -> string, store: Store<T>) {
    forall k <- store :: uri(store[k]) == k
  }

  ghost predicate KeyedEvent<T>(uri: T -> string, e: Event<T>) {
    e.Put? ==> uri(e.obj) == e.key
  }

  ghost predicate KeyedMessage<T>(uri: T -> string, m: Message<T>) {
    m.Text? && m.event.Some? ==> KeyedEvent(uri, m.event.value)
  }

  lemma {:induction false} ListingIsKeyed<T>(uri: T -> string, objects: seq<T>)
    ensures Keyed(uri, Listing(uri, objects))
  {
    if objects != [] {
      ListingIsKeyed(uri, objects[..|objects| - 1]);
    }
  }

  /** One more event: its notification keeps the replay in step with the store. */
  lemma EventReplays<T>(same: (T, T) -> bool, uri: T -> string, base: Store<T>, ns: seq<Notice<T>>, store: Store<T>,
      e: Event<T>)
    requires Keyed(uri, store) && KeyedEvent(uri, e)
    requires Replayed(uri, base, ns) == store && Faithful(same, uri, base, ns)
    ensures Keyed(uri, Applied(same, store, e))
    ensures Replayed(uri, base, ns + Emitted(same, store, e)) == Applied(same, store, e)
    ensures Faithful(same, uri, base, ns + Emitted(same, store, e))
  {
    var n := Emitted(same, store, e);
    if n == [] {
      assert ns + n == ns;
      assert Applied(same, store, e) == store;
    } else {
      assert (ns + n)[..|ns + n| - 1] == ns;
    }
  }

  function EmittedAll<T>(same: (T, T) -> bool, store: Store<T>, es: seq<Event<T>>): seq<Notice<T>> {
    if es == [] then []
    else
      var n := |es| - 1;
      EmittedAll(same, store, es[..n]) + Emitted(same, AppliedAll(same, store, es[..n]), es[n])
  }

  /** Folding the notifications of any events over the store from before them gives the store after them. */
  lemma {:induction false} NotificationsReplay<T>(same: (T, T) -> bool, uri: T -> string, store: Store<T>,
      es: seq<Event<T>>)
    requires Keyed(uri, store) && forall i :: 0 <= i < |es| ==> KeyedEvent(uri, es[i])
    ensures Keyed(uri, AppliedAll(same, store, es))
    ensures Replayed(uri, store, EmittedAll(same, store, es)) == AppliedAll(same, store, es)
    ensures Faithful(same, uri, store, EmittedAll(same, store, es))
  {
    if es != [] {
      var n := |es| - 1;
      NotificationsReplay(same, uri, store, es[..n]);
      EventReplays(same, uri, store, EmittedAll(same, store, es[..n]), AppliedAll(same, store, es[..n]), es[n]);
    }
  }

  // ---------- agreement with etcd ----------

  /** What etcd holds after the events `log`. */
  function Etcd<T>(start: Store<T>, log: seq<Event<T>>): Store<T> {
    if log == [] then start
    else
      var before := Etcd(start, log[..|log| - 1]);
      match log[|log| - 1]
      case Put(k, x) => before[k := x]
      case Remove(k) => before - {k}
  }

  predicate Agree<T>(same: (T, T) -> bool, a: Store<T>, b: Store<T>, k: string) {
    (k in a <==> k in b) && (k in a ==> same(a[k], b[k]))
  }

  ghost predicate Touched<T>(log: seq<Event<T>>, k: string) {
    exists i :: 0 <= i < |log| && log[i].key == k
  }

  ghost predicate Equivalence<T(!new)>(same: (T, T) -> bool) {
    && (forall x :: same(x, x))
    && (forall x, y :: same(x, y) ==> same(y, x))
    && (forall x, y, z :: same(x, y) && same(y, z) ==> same(x, z))
  }

  lemma {:induction false} EtcdSplits<T>(start: Store<T>, a: seq<Event<T>>, b: seq<Event<T>>)
    ensures Etcd(start, a + b) == Etcd(Etcd(start, a), b)
  {
    if b == [] {
      assert a + b == a;
    } else {
      var n := |b| - 1;
      EtcdSplits(start, a, b[..n]);
      assert (a + b)[..|a + b| - 1] == a + b[..n];
    }
  }

  lemma {:induction false} UntouchedStays<T>(start: Store<T>, log: seq<Event<T>>, k: string)
    requires !Touched(log, k)
    ensures k in Etcd(start, log) <==> k in start
    ensures k in start ==> Etcd(start, log)[k] == start[k]
  {
    if log != [] {
      var n := |log| - 1;
      assert log[n].key != k;
      assert forall i :: 0 <= i < n ==> log[..n][i] == log[i];
      UntouchedStays(start, log[..n], k);
    }
  }

  /** Consuming events: the store catches up with etcd on the touched keys, and elsewhere the two
      agree exactly if they did before. */
  lemma {:induction false} WatchAgrees<T(!new)>(same: (T, T) -> bool, store: Store<T>, start: Store<T>,
      log: seq<Event<T>>, k: string)
    requires Equivalence(same)
    ensures Agree(same, AppliedAll(same, store, log), Etcd(start, log), k) <==>
      Touched(log, k) || Agree(same, store, start, k)
  {
    if log != [] {
      var n := |log| - 1;
      WatchAgrees(same, store, start, log[..n], k);
      assert forall i :: 0 <= i < n ==> log[..n][i] == log[i];
      assert Touched(log, k) <==> Touched(log[..n], k) || log[n].key == k;
      if log[n].key != k {
        var a, b := AppliedAll(same, store, log[..n]), Etcd(start, log[..n]);
        assert k in AppliedAll(same, store, log) <==> k in a;
        assert k in Etcd(start, log) <==> k in b;
      }
    }
  }

  /** After a listing at revision L, a watch opened at W >= L and its events up to r, the store agrees
      with etcd at r on exactly the keys touched since W and those on which L and W agree. */
  lemma ListWatchAgreement<T(!new)>(
      same: (T, T) -> bool, uri: T -> string, stale: Store<T>, s: Session<T>,
      start: Store<T>, log: seq<Event<T>>, L: nat, W: nat, r: nat, k: string)
    requires Equivalence(same) && L <= W <= r <= |log|
    requires Listing(uri, s.objects) == Etcd(start, log[..L])
    requires s.watch.Some? && Events(s.watch.value) == log[W..r]
    ensures Agree(same, AfterSession(same, uri, stale, s), Etcd(start, log[..r]), k)
       <==> Touched(log[W..r], k) || Agree(same, Etcd(start, log[..L]), Etcd(start, log[..W]), k)
  {
    var listed := Etcd(start, log[..L]);
    var atOpen := Etcd(start, log[..W]);
    assert log[..r] == log[..W] + log[W..r];
    EtcdSplits(start, log[..W], log[W..r]);
    var store := Relisted(same, stale, listed);
    WatchAgrees(same, store, atOpen, log[W..r], k);
    RelistAgrees(same, stale, listed, atOpen, k);
  }

  lemma RelistAgrees<T(!new)>(same: (T, T) -> bool, stale: Store<T>, listed: Store<T>, other: Store<T>, k: string)
    requires Equivalence(same)
    ensures Agree(same, Relisted(same, stale, listed), other, k) <==> Agree(same, listed, other, k)
  {
    if SameStore(same, stale, listed) {
      assert k in stale <==> k in listed;
      if k in stale && k in other {
        var x, y, z := stale[k], listed[k], other[k];
        assert same(x, y) && same(y, x);
        assert same(x, z) ==> same(y, z);
        assert same(y, z) ==> same(x, z);
      }
    }
  }

  /** What a store promises after a session, about every history of etcd that the session saw: it agrees with
      etcd at the last event on exactly those keys; if the watch did not open, it is the listing. */
  ghost predicate Current<T(!new)>(same: (T, T) -> bool, uri: T -> string, store: Store<T>, s: Session<T>) {
    && (s.watch.None? ==> SameStore(same, store, Listing(uri, s.objects)))
    && forall start, log, L, W, r, k :: Saw(uri, s, start, log, L, W, r) ==>
         (Agree(same, store, Etcd(start, log[..r]), k) <==>
           Touched(log[W..r], k) || Agree(same, Etcd(start, log[..L]), Etcd(start, log[..W]), k))
  }

  /** The session listed etcd at L, opened its watch at W and received the events up to r. */
  ghost predicate Saw<T>(uri: T -> string, s: Session<T>, start: Store<T>, log: seq<Event<T>>, L: nat, W: nat, r: nat) {
    && L <= W <= r <= |log|
    && Listing(uri, s.objects) == Etcd(start, log[..L])
    && s.watch.Some? && Events(s.watch.value) == log[W..r]
  }

  /** A session brings any store up to date, so what happened in earlier sessions does not matter. */
  lemma SessionIsCurrent<T(!new)>(same: (T, T) -> bool, uri: T -> string, stale: Store<T>, s: Session<T>)
    requires Equivalence(same)
    ensures Current(same, uri, AfterSession(same, uri, stale, s), s)
  {
    var store := AfterSession(same, uri, stale, s);
    forall start, log, L, W, r, k | Saw(uri, s, start, log, L, W, r)
      ensures Agree(same, store, Etcd(start, log[..r]), k) <==>
        Touched(log[W..r], k) || Agree(same, Etcd(start, log[..L]), Etcd(start, log[..W]), k)
    {
      ListWatchAgreement(same, uri, stale, s, start, log, L, W, r, k);
    }
    if s.watch.None? {
      assert store == Relisted(same, stale, Listing(uri, s.objects));
    }
  }

  /** So only a key changed between the listing and the watch, and not since, can differ. */
  lemma MissedKeysAreInTheGap<T(!new)>(
      same: (T, T) -> bool, uri: T -> string, stale: Store<T>, s: Session<T>,
      start: Store<T>, log: seq<Event<T>>, L: nat, W: nat, r: nat)
    requires Equivalence(same) && L <= W <= r <= |log|
    requires Listing(uri, s.objects) == Etcd(start, log[..L])
    requires s.watch.Some? && Events(s.watch.value) == log[W..r]
    ensures forall k :: !Agree(same, AfterSession(same, uri, stale, s), Etcd(start, log[..r]), k) ==>
              Touched(log[L..W], k) && !Touched(log[W..r], k)
    ensures W == L ==> SameStore(same, AfterSession(same, uri, stale, s), Etcd(start, log[..r]))
  {
    var store, etcd := AfterSession(same, uri, stale, s), Etcd(start, log[..r]);
    assert log[..W] == log[..L] + log[L..W];
    EtcdSplits(start, log[..L], log[L..W]);
    forall k ensures !Agree(same, store, etcd, k) ==> Touched(log[L..W], k) && !Touched(log[W..r], k) {
      ListWatchAgreement(same, uri, stale, s, start, log, L, W, r, k);
      if !Touched(log[L..W], k) {
        UntouchedStays(Etcd(start, log[..L]), log[L..W], k);
      }
    }
    if W == L {
      forall k ensures Agree(same, store, etcd, k) {
        assert log[L..W] == [];
      }
      assert forall k :: k in store.Keys <==> k in etcd.Keys by {
        forall k ensures k in store.Keys <==> k in etcd.Keys { assert Agree(same, store, etcd, k); }
      }
      forall k | k in store ensures same(store[k], etcd[k]) { assert Agree(same, store, etcd, k); }
    }
  }

  /** A deletion between the listing and the watch is lost: the store keeps the object. */
  lemma GapLosesADeletion(uri: string -> string, s: Session<string>, k: string)
    requires uri(k) == k && s == Session([k], Some([]))
    ensures var log := [Put(k, k), Remove(k)];
      && Listing(uri, s.objects) == Etcd(map[], log[..1]) && Events(s.watch.value) == log[2..]
      && k in AfterSession((x, y) => x == y, uri, map[], s) && k !in Etcd(map[], log)
  {
    var log := [Put(k, k), Remove(k)];
    assert log[..1] == [Put(k, k)] && log[..1][..0] == [];
    assert s.objects[..0] == [];
  }

  // ---------- the reflector ----------

  class Reflector<T(!new)> {
    const same: (T, T) -> bool
    const uri: T -> string
    var store: Store<T>
    /** How often a resync was asked for, the store right after the last one, and what was emitted since. */
    ghost var resyncs: nat
    ghost var base: Store<T>
    ghost var since: seq<Notice<T>>

    /** Replaying what was emitted since the last resync gives the store. */
    ghost predicate Valid()
      reads this
    {
      Keyed(uri, store) && Replayed(uri, base, since) == store && Faithful(same, uri, base, since)
    }

    constructor (same: (T, T) -> bool, uri: T -> string)
      ensures this.same == same && this.uri == uri
      ensures Valid() && store == map[] && resyncs == 0 && base == map[] && since == []
    {
      this.same, this.uri := same, uri;
      store, resyncs, base, since := map[], 0, map[], [];
    }

    method NewStore(objects: seq<T>) returns (s: Store<T>)
      ensures s == Listing(uri, objects)
    {
      s := map[];
      for i := 0 to |objects|
        invariant s == Listing(uri, objects[..i])
      {
        assert objects[..i + 1][..i] == objects[..i];
        s := s[uri(objects[i]) := objects[i]];
      }
      assert objects[..|objects|] == objects;
    }

    /** Compare the listing with the store, replace the store if they differ and ask for a resync. */
    method Relist(objects: seq<T>) returns (shouldResync: bool)
      requires Valid()
      modifies this
      ensures Valid() && shouldResync == !SameStore(same, old(store), Listing(uri, objects))
      ensures store == Relisted(same, old(store), Listing(uri, objects))
      ensures if shouldResync then resyncs == old(resyncs) + 1 && base == store && since == []
              else resyncs == old(resyncs) && base == old(base) && since == old(since)
    {
      var newStore := NewStore(objects);
      ListingIsKeyed(uri, objects);
      shouldResync := false;
      if !SameStore(same, store, newStore) {
        shouldResync := true;
        store := newStore;
        resyncs, base, since := resyncs + 1, newStore, [];
      }
    }

    method HandleEvent(event: Event<T>) returns (emitted: seq<Notice<T>>)
      requires Valid() && KeyedEvent(uri, event)
      modifies this`store, this`since
      ensures Valid()
      ensures store == Applied(same, old(store), event)
      ensures emitted == Emitted(same, old(store), event) && since == old(since) + emitted
    {
      EventReplays(same, uri, base, since, store, event);
      emitted := [];
      match event {
        case Put(key, obj) =>
          if key in store {
            var before := store[key];
            if !same(before, obj) {
              store := store[key := obj];
              emitted := [Updated(before, obj)];
            }
          } else {
            store := store[key := obj];
            emitted := [Added(obj)];
          }
        case Remove(key) =>
          if key in store {
            emitted := [Deleted(store[key])];
            store := store - {key};
          } else {
            assert store - {key} == store;
          }
      }
      since := since + emitted;
    }

    /** Consume a watch until it ends. */
    method HandleWatcher(msgs: seq<Message<T>>)
      requires Valid() && forall m <- msgs :: KeyedMessage(uri, m)
      modifies this`store, this`since
      ensures Valid() && store == AppliedAll(same, old(store), Events(msgs))
      ensures old(since) <= since
    {
      hide Keyed, Replayed, Faithful, Applied, Emitted, Events;
      ghost var done: seq<Event<T>> := [];
      var i := 0;
      assert msgs[0..] == msgs;
      while i < |msgs|
        invariant 0 <= i <= |msgs| && Valid()
        invariant done + Events(msgs[i..]) == Events(msgs)
        invariant store == AppliedAll(same, old(store), done)
        invariant old(since) <= since
      {
        var msg := msgs[i];
        assert KeyedMessage(uri, msg);
        EventsFrom(msgs, i);
        if msg.Close? || msg == Text(None) {
          assert done + [] == done;
          return;
        }
        if msg.Text? {
          var emitted := HandleEvent(msg.event.value);
          assert (done + [msg.event.value])[..|done|] == done;
          assert done + ([msg.event.value] + Events(msgs[i + 1..])) == done + [msg.event.value] + Events(msgs[i + 1..]);
          done := done + [msg.event.value];
        }
        i := i + 1;
      }
      EventsFrom(msgs, i);
      assert done + [] == done;
    }

    /** The outer loop, for as many sessions as there are. */
    method Run(sessions: seq<Session<T>>)
      requires Valid()
      requires forall s <- sessions :: s.watch.Some? ==> forall m <- s.watch.value :: KeyedMessage(uri, m)
      modifies this
      ensures Valid() && store == AfterSessions(same, uri, old(store), sessions)
      ensures sessions != [] && Equivalence(same) ==> Current(same, uri, store, sessions[|sessions| - 1])
      ensures resyncs >= old(resyncs)
      ensures resyncs == old(resyncs) ==> base == old(base) && old(since) <= since
    {
      hide Keyed, Replayed, Faithful, Relisted, Applied, Listing, Events;
      for i := 0 to |sessions|
        invariant Valid() && store == AfterSessions(same, uri, old(store), sessions[..i])
        invariant resyncs >= old(resyncs)
        invariant resyncs == old(resyncs) ==> base == old(base) && old(since) <= since
      {
        assert sessions[..i + 1][..i] == sessions[..i];
        var shouldResync := Relist(sessions[i].objects);
        if sessions[i].watch.Some? {
          HandleWatcher(sessions[i].watch.value);
        }
      }
      assert sessions[..|sessions|] == sessions;
      if sessions != [] && Equivalence(same) {
        var n := |sessions| - 1;
        SessionIsCurrent(same, uri, AfterSessions(same, uri, old(store), sessions[..n]), sessions[n]);
      }
    }
  }
}
