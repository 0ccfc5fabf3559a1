/** The workflow walker (serverless/src/router/workflow.rs). Looking up and calling functions is left to an
    environment that may answer anything. */
module Workflow {
  import opened Common

  /** A JSON value as far as rules look at it; `number` is None unless it fits an i64. */
  datatype Value = Text(text: string) | Number(number: Option<int>) | OtherValue

  /** A request or response body; `fields` is None unless it parses as a JSON object. */
  datatype Body = Body(text: string, fields: Option<map<string, Value>>)

  datatype Comparison = FieldEquals(field: string, content: string) | FieldNumEquals(field: string, num: int)

  datatype Rule = Rule(comparison: Comparison, next: string)

  datatype State = Task(resource: string, after: Option<string>) | Choice(rules: seq<Rule>, fallback: string)

  datatype Workflow = Workflow(startAt: string, states: map<string, State>)

  /** What the environment answers when a task is run. */
  datatype Reply = NoFunction | NoStatus | CallFailed | Returned(body: Body)

  /** Why a walk ended: at a task without successor, at a missing state, or at a function that could not
      be found, had no status (a panic), or failed. */
  datatype End = Finished | Missing(name: string) | LookupFailed | Panicked | Failed

  /** `reported` is the name the response text gives the state at `at`. */
  datatype Position = Position(reported: string, at: string)

  datatype Walk = Walk(next: Option<Position>, body: Body, succeed: bool, visited: seq<string>, end: Option<End>)

  predicate MatchWith(rule: Rule, body: Body) {
    && body.fields.Some?
    && rule.comparison.field in body.fields.value
    && var v := body.fields.value[rule.comparison.field];
       match rule.comparison
       case FieldEquals(_, content) => v == Text(content)
       case FieldNumEquals(_, num) => v == Number(Some(num))
  }

  /** The body is a JSON object with that field, and the field is that text or that number. */
  predicate HoldsIn(body: Body, c: Comparison) {
    && body.fields.Some?
    && (c.field, if c.FieldEquals? then Text(c.content) else Number(Some(c.num))) in body.fields.value.Items
  }

  lemma MatchWithIff(rule: Rule, body: Body)
    ensures MatchWith(rule, body) <==> HoldsIn(body, rule.comparison)
  {
  }

  /** The i-th rule is the first one that holds. */
  predicate FirstHolds(rules: seq<Rule>, body: Body, i: nat) {
    && i < |rules| && HoldsIn(body, rules[i].comparison)
    && forall j :: 0 <= j < i ==> !HoldsIn(body, rules[j].comparison)
  }

  /** The target of the first rule that matches, or else the default. */
  function Chosen(rules: seq<Rule>, fallback: string, body: Body): string {
    if rules == [] then fallback
    else if MatchWith(rules[0], body) then rules[0].next
    else Chosen(rules[1..], fallback, body)
  }

  /** Move on to a state, if it exists. */
  function GoTo(wf: Workflow, w: Walk, reported: string, name: string): Walk {
    if name in wf.states then w.(next := Some(Position(reported, name)))
    else w.(next := None, end := Some(Missing(name)))
  }

  function Start(wf: Workflow, init: Body): Walk {
    GoTo(wf, Walk(None, init, true, [], None), wf.startAt, wf.startAt)
  }

  /** One turn of the loop. After a choice the reported name is that of the first state. */
  function Turn(wf: Workflow, w: Walk, reply: Reply): Walk
    requires w.next.Some? && w.next.value.at in wf.states
  {
    var at := w.next.value.at;
    var v := w.(visited := w.visited + [at]);
    match wf.states[at]
    case Task(_, after) =>
      (match reply
       case NoFunction => v.(end := Some(LookupFailed))
       case NoStatus => v.(end := Some(Panicked))
       case CallFailed => v.(succeed := false, end := Some(Failed))
       case Returned(body) =>
         var u := v.(body := body);
         if after.Some? then GoTo(wf, u, after.value, after.value)
         else u.(next := None, end := Some(Finished)))
    case Choice(rules, fallback) =>
      GoTo(wf, v, wf.startAt, Chosen(rules, fallback, w.body))
  }

  ghost predicate OnTrack(wf: Workflow, w: Walk) {
    w.end.None? ==> w.next.Some? && w.next.value.at in wf.states
  }

  /** The walk after `n` turns, or where it ended before. */
  ghost function After(wf: Workflow, init: Body, replies: nat -> Reply, n: nat): (w: Walk)
    ensures OnTrack(wf, w)
  {
    if n == 0 then Start(wf, init)
    else
      var w := After(wf, init, replies, n - 1);
      if w.end.Some? then w else Turn(wf, w, replies(n - 1))
  }

  // ---------- the loop ----------

  method FirstMatch(rules: seq<Rule>, body: Body) returns (next: Option<string>)
    ensures forall fallback :: Chosen(rules, fallback, body) == if next.Some? then next.value else fallback
    ensures next.Some? ==> exists i: nat :: FirstHolds(rules, body, i) && next.value == rules[i].next
    ensures next.None? ==> forall i :: 0 <= i < |rules| ==> !HoldsIn(body, rules[i].comparison)
  {
    assert rules[0..] == rules;
    for i := 0 to |rules|
      invariant forall fallback :: Chosen(rules, fallback, body) == Chosen(rules[i..], fallback, body)
      invariant forall j :: 0 <= j < i ==> !HoldsIn(body, rules[j].comparison)
    {
      MatchWithIff(rules[i], body);
      assert rules[i..][1..] == rules[i + 1..] && rules[i..][0] == rules[i];
      if MatchWith(rules[i], body) {
        assert FirstHolds(rules, body, i);
        return Some(rules[i].next);
      }
    }
    next := None;
  }

  /** Walk for at most `limit` turns; the source's loop has no limit. */
  method HandleWorkflow(wf: Workflow, init: Body, replies: nat -> Reply, limit: nat) returns (w: Walk, turns: nat)
    ensures turns <= limit && w == After(wf, init, replies, turns)
    ensures w.end.None? ==> turns == limit
  {
    var next := if wf.startAt in wf.states then Some(Position(wf.startAt, wf.startAt)) else None;
    var body, succeed, visited: seq<string> := init, true, [];
    turns := 0;
    if next.None? {
      return Walk(None, body, succeed, visited, Some(Missing(wf.startAt))), 0;
    }
    while turns < limit
      invariant turns <= limit
      invariant next.Some? && Walk(next, body, succeed, visited, None) == After(wf, init, replies, turns)
    {
      var reply := replies(turns);
      var position := next.value;
      visited := visited + [position.at];
      turns := turns + 1;
      var target, reported: string;
      match wf.states[position.at] {
        case Task(_, after) =>
          match reply {
            case NoFunction =>
              return Walk(next, body, succeed, visited, Some(LookupFailed)), turns;
            case NoStatus =>
              return Walk(next, body, succeed, visited, Some(Panicked)), turns;
            case CallFailed =>
              return Walk(next, body, false, visited, Some(Failed)), turns;
            case Returned(response) =>
              body := response;
              if after.None? {
                return Walk(None, body, succeed, visited, Some(Finished)), turns;
              }
              target, reported := after.value, after.value;
          }
        case Choice(rules, fallback) =>
          var m := FirstMatch(rules, body);
          target, reported := if m.Some? then m.value else fallback, wf.startAt;
      }
      if target !in wf.states {
        return Walk(None, body, succeed, visited, Some(Missing(target))), turns;
      }
      next := Some(Position(reported, target));
    }
    w := Walk(next, body, succeed, visited, None);
  }

  // ---------- edges ----------

  predicate Edge(wf: Workflow, a: string, b: string) {
    && a in wf.states
    && match wf.states[a]
       case Task(_, after) => after == Some(b)
       case Choice(rules, fallback) => b == fallback || exists r <- rules :: r.next == b
  }

  lemma {:induction false} ChosenIsEdge(rules: seq<Rule>, fallback: string, body: Body)
    ensures Chosen(rules, fallback, body) == fallback || exists r <- rules :: r.next == Chosen(rules, fallback, body)
  {
    if rules != [] && !MatchWith(rules[0], body) {
      ChosenIsEdge(rules[1..], fallback, body);
      assert forall r <- rules[1..] :: r in rules;
    } else if rules != [] {
      assert rules[0] in rules;
    }
  }

  lemma TurnFollowsEdge(wf: Workflow, w: Walk, reply: Reply)
    requires w.end.None? && w.next.Some? && w.next.value.at in wf.states
    ensures var w', at := Turn(wf, w, reply), w.next.value.at;
      && w'.visited == w.visited + [at] && OnTrack(wf, w')
      && (w'.end.None? ==> Edge(wf, at, w'.next.value.at))
      && (w'.end.Some? && w'.end.value.Missing? ==> Edge(wf, at, w'.end.value.name) && w'.end.value.name !in wf.states)
      && (w'.end == Some(Finished) ==>
        wf.states[at].Task? && wf.states[at].after.None? && reply.Returned? && w'.body == reply.body)
  {
    if wf.states[w.next.value.at].Choice? {
      ChosenIsEdge(wf.states[w.next.value.at].rules, wf.states[w.next.value.at].fallback, w.body);
    }
  }

  lemma {:induction false} ChosenIs(rules: seq<Rule>, fallback: string, body: Body)
    ensures forall i: nat :: FirstHolds(rules, body, i) ==> Chosen(rules, fallback, body) == rules[i].next
    ensures (forall i :: 0 <= i < |rules| ==> !HoldsIn(body, rules[i].comparison)) ==>
              Chosen(rules, fallback, body) == fallback
  {
    if rules != [] {
      var rest := rules[1..];
      MatchWithIff(rules[0], body);
      ChosenIs(rest, fallback, body);
      assert forall i :: 0 <= i < |rest| ==> rest[i] == rules[i + 1];
      forall i: nat | FirstHolds(rules, body, i) ensures Chosen(rules, fallback, body) == rules[i].next {
        if i > 0 {
          assert !HoldsIn(body, rules[0].comparison);
          assert FirstHolds(rest, body, i - 1);
        }
      }
      if forall i :: 0 <= i < |rules| ==> !HoldsIn(body, rules[i].comparison) {
        assert !HoldsIn(body, rules[0].comparison);
      }
    }
  }

  /** A choice goes to the target of its first rule that holds in the last response, or else to the default,
      and leaves the response as it is. */
  lemma ChoiceFollowsFields(wf: Workflow, init: Body, replies: nat -> Reply, n: nat, target: string)
    requires var w := After(wf, init, replies, n);
      && w.end.None? && wf.states[w.next.value.at].Choice?
      && var rules := wf.states[w.next.value.at].rules;
         || (exists i: nat :: FirstHolds(rules, w.body, i) && target == rules[i].next)
         || ((forall i :: 0 <= i < |rules| ==> !HoldsIn(w.body, rules[i].comparison))
             && target == wf.states[w.next.value.at].fallback)
    ensures var w, w' := After(wf, init, replies, n), After(wf, init, replies, n + 1);
      && w'.body == w.body && w'.succeed == w.succeed
      && if target in wf.states then w'.end.None? && w'.next.value.at == target else w'.end == Some(Missing(target))
  {
    var w := After(wf, init, replies, n);
    ChosenIs(wf.states[w.next.value.at].rules, wf.states[w.next.value.at].fallback, w.body);
    assert After(wf, init, replies, n + 1) == Turn(wf, w, replies(n));
  }

  /** A task whose function answers hands the answer on to its successor, or ends the walk with it. */
  lemma TaskHandsOn(wf: Workflow, init: Body, replies: nat -> Reply, n: nat)
    requires var w := After(wf, init, replies, n); w.end.None? && wf.states[w.next.value.at].Task?
    requires replies(n).Returned?
    ensures var w, w' := After(wf, init, replies, n), After(wf, init, replies, n + 1);
      var after := wf.states[w.next.value.at].after;
      && w'.body == replies(n).body && w'.succeed == w.succeed
      && if after.None? then w'.end == Some(Finished)
         else if after.value in wf.states then
           w'.end.None? && w'.next == Some(Position(after.value, after.value))
         else w'.end == Some(Missing(after.value))
  {
    var w := After(wf, init, replies, n);
    assert After(wf, init, replies, n + 1) == Turn(wf, w, replies(n));
  }

  // ---------- termination ----------

  /** Some rank drops along every edge between states. */
  ghost predicate Ranked(wf: Workflow, rank: map<string, int>) {
    && rank.Keys == wf.states.Keys
    && forall a, b :: Edge(wf, a, b) && b in wf.states ==> rank[b] < rank[a]
  }

  function NoHigher(rank: map<string, int>, r: int): set<string> {
    set s | s in rank && rank[s] <= r
  }

  lemma LowerIsFewer(rank: map<string, int>, a: string, b: string)
    requires a in rank && b in rank && rank[b] < rank[a]
    ensures |NoHigher(rank, rank[b])| < |NoHigher(rank, rank[a])|
  {
    var lower, higher := NoHigher(rank, rank[b]), NoHigher(rank, rank[a]);
    assert lower <= higher - {a};
    SubsetSize(lower, higher - {a});
    assert |higher - {a}| == |higher| - 1;
  }

  /** A walk that has not ended after n turns still has at most |states| - n turns to go. */
  lemma {:induction false} TurnsAreCounted(wf: Workflow, rank: map<string, int>, init: Body, replies: nat -> Reply,
      n: nat)
    requires Ranked(wf, rank)
    ensures var w := After(wf, init, replies, n);
      w.end.None? ==> w.next.value.at in rank && 0 < |NoHigher(rank, rank[w.next.value.at])| <= |wf.states| - n
  {
    var w := After(wf, init, replies, n);
    if w.end.None? {
      if n == 0 {
        SubsetSize(NoHigher(rank, rank[wf.startAt]), wf.states.Keys);
        assert |wf.states.Keys| == |wf.states|;
      } else {
        TurnsAreCounted(wf, rank, init, replies, n - 1);
        var before := After(wf, init, replies, n - 1);
        TurnFollowsEdge(wf, before, replies(n - 1));
        LowerIsFewer(rank, before.next.value.at, w.next.value.at);
      }
      assert w.next.value.at in NoHigher(rank, rank[w.next.value.at]);
    }
  }

  /** A ranked workflow ends within as many turns as it has states, whatever the functions answer. */
  lemma RankedHalts(wf: Workflow, rank: map<string, int>, init: Body, replies: nat -> Reply, n: nat)
    requires Ranked(wf, rank) && n >= |wf.states|
    ensures After(wf, init, replies, n).end.Some?
  {
    TurnsAreCounted(wf, rank, init, replies, n);
  }

  // ---------- the default path ----------

  /** Where the walk goes when no rule matches. */
  function DefaultNext(state: State): Option<string> {
    match state
    case Task(_, after) => after
    case Choice(_, fallback) => Some(fallback)
  }

  function Existing(wf: Workflow, name: Option<string>): Option<string> {
    if name.Some? && name.value in wf.states then name else None
  }

  /** The n-th state on the path of task successors and defaults, if the path is that long. */
  function Along(wf: Workflow, n: nat): (s: Option<string>)
    ensures s.Some? ==> s.value in wf.states
  {
    if n == 0 then Existing(wf, Some(wf.startAt))
    else match Along(wf, n - 1)
      case None => None
      case Some(s) => Existing(wf, DefaultNext(wf.states[s]))
  }

  ghost predicate Halts(wf: Workflow, init: Body, replies: nat -> Reply) {
    exists n: nat :: After(wf, init, replies, n).end.Some?
  }

  /** The walk ends whatever the request is and whatever the functions answer. */
  ghost predicate AlwaysHalts(wf: Workflow) {
    forall init: Body, replies: nat -> Reply :: Halts(wf, init, replies)
  }

  predicate Plain(reply: Reply) { reply.Returned? && reply.body.fields.None? }

  lemma {:induction false} PlainChoosesDefault(rules: seq<Rule>, fallback: string, body: Body)
    requires body.fields.None?
    ensures Chosen(rules, fallback, body) == fallback
  {
    if rules != [] {
      PlainChoosesDefault(rules[1..], fallback, body);
    }
  }

  /** When nothing that is said is a JSON object, the walk goes on exactly as long as the default path does. */
  lemma {:induction false} PlainWalk(wf: Workflow, init: Body, replies: nat -> Reply, n: nat)
    requires init.fields.None? && forall i: nat :: i < n ==> Plain(replies(i))
    ensures var w := After(wf, init, replies, n);
      && (w.end.None? <==> Along(wf, n).Some?)
      && (w.end.None? ==> w.body.fields.None? && Some(w.next.value.at) == Along(wf, n))
  {
    if n > 0 {
      PlainWalk(wf, init, replies, n - 1);
      var w := After(wf, init, replies, n - 1);
      assert Plain(replies(n - 1));
      if w.end.None? && wf.states[w.next.value.at].Choice? {
        PlainChoosesDefault(wf.states[w.next.value.at].rules, wf.states[w.next.value.at].fallback, w.body);
      }
    }
  }

  /** Without rules every walk stays on the default path until it ends. */
  lemma {:induction false} RulelessWalk(wf: Workflow, init: Body, replies: nat -> Reply, n: nat)
    requires Ruleless(wf)
    ensures var w := After(wf, init, replies, n);
      w.end.None? ==> Some(w.next.value.at) == Along(wf, n)
  {
    if n > 0 {
      RulelessWalk(wf, init, replies, n - 1);
    }
  }

  predicate Ruleless(wf: Workflow) {
    forall s <- wf.states :: wf.states[s].Choice? ==> wf.states[s].rules == []
  }

  lemma {:induction false} AlongIsPrefix(wf: Workflow, i: nat, n: nat)
    requires i <= n && Along(wf, n).Some?
    ensures Along(wf, i).Some?
  {
    if i < n {
      AlongIsPrefix(wf, i, n - 1);
    }
  }

  lemma {:induction false} AlongRepeats(wf: Workflow, i: nat, j: nat, k: nat)
    requires Along(wf, i) == Along(wf, j)
    ensures Along(wf, i + k) == Along(wf, j + k)
  {
    if k > 0 {
      AlongRepeats(wf, i, j, k - 1);
      assert i + k - 1 == i + (k - 1) && j + k - 1 == j + (k - 1);
    }
  }

  /** The states on the first n + 1 places of the path. */
  function Seen(wf: Workflow, n: nat): set<string> {
    (if n == 0 then {} else Seen(wf, n - 1)) + if Along(wf, n).Some? then {Along(wf, n).value} else {}
  }

  lemma {:induction false} SeenPlace(wf: Workflow, n: nat, s: string) returns (i: nat)
    requires s in Seen(wf, n)
    ensures i <= n && Along(wf, i) == Some(s)
  {
    if Along(wf, n) == Some(s) {
      i := n;
    } else {
      i := SeenPlace(wf, n - 1, s);
    }
  }

  /** A path that has not ended after n steps repeats a state, or has seen more than n. */
  lemma {:induction false} RepeatsOrGrows(wf: Workflow, n: nat) returns (i: nat, j: nat)
    requires Along(wf, n).Some?
    ensures (i < j <= n && Along(wf, i) == Along(wf, j)) || |Seen(wf, n)| == n + 1
    ensures Seen(wf, n) <= wf.states.Keys
  {
    i, j := 0, 0;
    if n > 0 {
      i, j := RepeatsOrGrows(wf, n - 1);
      var s := Along(wf, n).value;
      assert Seen(wf, n) == Seen(wf, n - 1) + {s};
      hide Along, Seen;
      if s in Seen(wf, n - 1) {
        i := SeenPlace(wf, n - 1, s);
        j := n;
      }
    }
  }

  lemma {:induction false} LoopsForEver(wf: Workflow, i: nat, j: nat, n: nat)
    requires i < j && Along(wf, i) == Along(wf, j) && Along(wf, j).Some?
    ensures Along(wf, n).Some?
  {
    if n <= j {
      AlongIsPrefix(wf, n, j);
    } else {
      LoopsForEver(wf, i, j, n - (j - i));
      AlongRepeats(wf, i, j, n - j);
      assert i + (n - j) == n - (j - i) && j + (n - j) == n;
    }
  }

  /** The default path ends within as many steps as there are states, or never. */
  lemma DefaultPathEndsEarly(wf: Workflow, n: nat)
    ensures Along(wf, n).None? ==> Along(wf, |wf.states|).None?
  {
    var m := |wf.states|;
    if Along(wf, m).Some? {
      var i, j := RepeatsOrGrows(wf, m);
      SubsetSize(Seen(wf, m), wf.states.Keys);
      assert |wf.states.Keys| == m;
      AlongIsPrefix(wf, j, m);
      LoopsForEver(wf, i, j, n);
    }
  }

  /** A workflow that halts whatever functions answer has a default path that ends, and within as many steps
      as it has states. */
  lemma HaltingNeedsDefaultsToEnd(wf: Workflow)
    requires AlwaysHalts(wf)
    ensures Along(wf, |wf.states|).None?
  {
    var body := Body("", None);
    var replies: nat -> Reply := _ => Returned(body);
    assert Halts(wf, body, replies);
    var n: nat :| After(wf, body, replies, n).end.Some?;
    PlainWalk(wf, body, replies, n);
    DefaultPathEndsEarly(wf, n);
  }

  /** Without rules that is also enough. */
  lemma RulelessHaltsIff(wf: Workflow)
    requires Ruleless(wf)
    ensures AlwaysHalts(wf) <==> Along(wf, |wf.states|).None?
  {
    if Along(wf, |wf.states|).None? {
      forall init: Body, replies: nat -> Reply ensures Halts(wf, init, replies) {
        RulelessWalk(wf, init, replies, |wf.states|);
        assert After(wf, init, replies, |wf.states|).end.Some?;
      }
    } else if AlwaysHalts(wf) {
      HaltingNeedsDefaultsToEnd(wf);
      assert false;
    }
  }

  /** A first choice without rules whose default is itself never ends, whatever functions would answer. */
  lemma {:induction false} SelfLoopNeverHalts(wf: Workflow, init: Body, replies: nat -> Reply, n: nat)
    requires wf.startAt in wf.states && wf.states[wf.startAt] == Choice([], wf.startAt)
    ensures After(wf, init, replies, n).end.None?
    ensures After(wf, init, replies, n).next == Some(Position(wf.startAt, wf.startAt))
  {
    if n > 0 {
      SelfLoopNeverHalts(wf, init, replies, n - 1);
    }
  }

  /** With rules, whatever they are, it may never end. */
  lemma SelfLoopMayNotHalt(wf: Workflow, rules: seq<Rule>)
    requires wf.startAt in wf.states && wf.states[wf.startAt] == Choice(rules, wf.startAt)
    ensures !AlwaysHalts(wf)
  {
    SelfLoopGoesOn(wf, |wf.states|);
    if AlwaysHalts(wf) {
      HaltingNeedsDefaultsToEnd(wf);
      assert false;
    }
  }

  lemma {:induction false} SelfLoopGoesOn(wf: Workflow, n: nat)
    requires wf.startAt in wf.states && wf.states[wf.startAt].Choice? && wf.states[wf.startAt].fallback == wf.startAt
    ensures Along(wf, n) == Some(wf.startAt)
  {
    if n > 0 {
      SelfLoopGoesOn(wf, n - 1);
    }
  }

  // ---------- where it ends ----------

  /** The first state and every target exist. */
  predicate Closed(wf: Workflow) {
    wf.startAt in wf.states && forall a <- wf.states :: TargetsExist(wf, a)
  }

  predicate TargetsExist(wf: Workflow, a: string)
    requires a in wf.states
  {
    match wf.states[a]
    case Task(_, after) => after.Some? ==> after.value in wf.states
    case Choice(rules, fallback) => fallback in wf.states && forall r <- rules :: r.next in wf.states
  }

  /** What is checked when a workflow is stored: only the targets of tasks. */
  predicate Validated(wf: Workflow) {
    forall a <- wf.states :: wf.states[a].Task? ==> TargetsExist(wf, a)
  }

  ghost predicate EndsWell(wf: Workflow, w: Walk) {
    w.end.Some? ==>
      var last := if w.visited == [] then None else Some(w.visited[|w.visited| - 1]);
      match w.end.value
      case Finished => last.Some? && last.value in wf.states && wf.states[last.value].Task?
        && wf.states[last.value].after.None? && w.succeed
      case Missing(name) => name !in wf.states && w.succeed
        && if last.None? then name == wf.startAt else Edge(wf, last.value, name)
      case LookupFailed => last.Some? && last.value in wf.states && wf.states[last.value].Task? && w.succeed
      case Panicked => last.Some? && last.value in wf.states && wf.states[last.value].Task?
      case Failed => last.Some? && last.value in wf.states && wf.states[last.value].Task? && !w.succeed
  }

  /** Every way a walk can end, with the state it ends at; only a failed call counts as a failure, so a
      function that cannot be found, or a missing state, is reported as success. */
  lemma {:induction false} WalksEndWell(wf: Workflow, init: Body, replies: nat -> Reply, n: nat)
    ensures EndsWell(wf, After(wf, init, replies, n))
    ensures After(wf, init, replies, n).end.None? ==> After(wf, init, replies, n).succeed
  {
    if n > 0 {
      WalksEndWell(wf, init, replies, n - 1);
      var w := After(wf, init, replies, n - 1);
      if w.end.None? {
        TurnFollowsEdge(wf, w, replies(n - 1));
      }
    }
  }

  /** When all targets exist, no walk ends at a missing state. */
  lemma ClosedNeverMisses(wf: Workflow, init: Body, replies: nat -> Reply, n: nat)
    requires Closed(wf)
    ensures var w := After(wf, init, replies, n); w.end.Some? ==> !w.end.value.Missing?
  {
    WalksEndWell(wf, init, replies, n);
    ClosedEdges(wf);
  }

  lemma ClosedEdges(wf: Workflow)
    requires Closed(wf)
    ensures forall a, b :: Edge(wf, a, b) ==> b in wf.states
  {
    forall a, b | Edge(wf, a, b) ensures b in wf.states {
      assert TargetsExist(wf, a);
    }
  }

  /** Ranked and closed together: the walk stops at a task without successor whose function answered, or
      at a failed lookup or call. */
  lemma RankedAndClosedFinish(wf: Workflow, rank: map<string, int>, init: Body, replies: nat -> Reply, n: nat)
    requires Ranked(wf, rank) && Closed(wf) && n >= |wf.states|
    requires forall i :: 0 <= i < n ==> replies(i) != NoStatus
    ensures var end := After(wf, init, replies, n).end;
      end == Some(Finished) || end == Some(LookupFailed) || end == Some(Failed)
  {
    hide After, Ranked, Closed;
    RankedHalts(wf, rank, init, replies, n);
    ClosedNeverMisses(wf, init, replies, n);
    NeverPanics(wf, init, replies, n);
  }

  lemma {:induction false} NeverPanics(wf: Workflow, init: Body, replies: nat -> Reply, n: nat)
    requires forall i :: 0 <= i < n ==> replies(i) != NoStatus
    ensures After(wf, init, replies, n).end != Some(Panicked)
  {
    if n > 0 {
      NeverPanics(wf, init, replies, n - 1);
    }
  }

  /** A stored workflow can only miss its first state or the target of a choice. */
  lemma {:induction false} ValidatedMissesOnlyAtChoices(wf: Workflow, init: Body, replies: nat -> Reply, n: nat)
    requires Validated(wf)
    ensures var w := After(wf, init, replies, n);
      w.end.Some? && w.end.value.Missing? && w.visited != [] ==>
        w.visited[|w.visited| - 1] in wf.states && wf.states[w.visited[|w.visited| - 1]].Choice?
  {
    WalksEndWell(wf, init, replies, n);
    TaskEdges(wf);
  }

  lemma TaskEdges(wf: Workflow)
    requires Validated(wf)
    ensures forall a, b :: Edge(wf, a, b) && wf.states[a].Task? ==> b in wf.states
  {
    forall a, b | Edge(wf, a, b) && wf.states[a].Task? ensures b in wf.states {
      assert TargetsExist(wf, a);
    }
  }

  // ---------- what is visited and reported ----------

  ghost predicate IsPath(wf: Workflow, visited: seq<string>) {
    && (visited != [] ==> visited[0] == wf.startAt)
    && forall i, j :: 0 <= i < j < |visited| && j == i + 1 ==> Edge(wf, visited[i], visited[j])
  }

  /** The visited states are a path from the first one, and where the walk stands continues it. */
  lemma {:induction false} VisitedIsPath(wf: Workflow, init: Body, replies: nat -> Reply, n: nat)
    ensures var w := After(wf, init, replies, n);
      IsPath(wf, w.visited) && (w.end.None? ==> IsPath(wf, w.visited + [w.next.value.at]))
  {
    if n > 0 {
      VisitedIsPath(wf, init, replies, n - 1);
      var w := After(wf, init, replies, n - 1);
      if w.end.None? {
        TurnFollowsEdge(wf, w, replies(n - 1));
      }
    }
  }

  /** The reported name is the state's own, except right after a choice, where it is the first state's. */
  lemma ReportedName(wf: Workflow, init: Body, replies: nat -> Reply, n: nat)
    ensures var w := After(wf, init, replies, n);
      w.end.None? ==>
        w.next.value.reported ==
          if n > 0 && wf.states[After(wf, init, replies, n - 1).next.value.at].Choice? then wf.startAt
          else w.next.value.at
  {
  }
}
