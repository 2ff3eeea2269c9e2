/** The engine object: its maps are updated in place, by the loops of the code, as `TaskEngine` says.  The
    loop over one node's groups runs over a map, in any order; the state it leaves is the same, and only
    the order of that node's transitions is open. */
module EngineObject {
  import opened Options
  import opened ConfigValues
  import opened TaskConfig
  import opened EdgeEvaluation
  import opened TaskRuns
  import opened TaskEngine
  import opened Ordering

  // ----- facts about groups -----

  lemma {:induction false} GroupMember(items: seq<Arrival>, token: string)
    ensures Group(items, token) != [] <==> token in Tokens(items)
    ensures forall a :: a in Group(items, token) <==> a in items && a.token == token
  {
    if items != [] {
      var front, last := items[..|items| - 1], items[|items| - 1];
      GroupMember(front, token);
      assert items == front + [last];
      TokensAppend(front, last);
    }
  }

  lemma TokensAppend(items: seq<Arrival>, a: Arrival)
    ensures Tokens(items + [a]) == Tokens(items) + {a.token}
  {
    var all := items + [a];
    assert all[|items|] == a;
    forall t
      ensures t in Tokens(all) <==> t in Tokens(items) || t == a.token
    {
      if t in Tokens(items) {
        var i :| 0 <= i < |items| && items[i].token == t;
        assert all[i].token == t;
      }
    }
  }

  lemma {:induction false} WithoutTwice(items: seq<Arrival>, a: set<string>, b: set<string>)
    ensures Without(Without(items, a), b) == Without(items, a + b)
  {
    if items != [] {
      var front, last := items[..|items| - 1], items[|items| - 1];
      WithoutTwice(front, a, b);
      if last.token !in a {
        assert Without(items, a)[..|Without(items, a)| - 1] == Without(front, a);
      } else {
        assert Without(items, a) == Without(front, a) && Without(items, a + b) == Without(front, a + b);
      }
    }
  }

  lemma {:induction false} WithoutNothing(items: seq<Arrival>)
    ensures Without(items, {}) == items
  {
    if items != [] {
      WithoutNothing(items[..|items| - 1]);
    }
  }

  lemma GroupSnoc(items: seq<Arrival>, a: Arrival, token: string)
    ensures Group(items + [a], token) == if a.token == token then Group(items, token) + [a] else Group(items, token)
  {
    assert (items + [a])[..|items|] == items;
  }

  /** Taking other tokens away leaves a group as it is. */
  lemma {:induction false} GroupOfRest(items: seq<Arrival>, gone: set<string>, token: string)
    ensures Group(Without(items, gone), token) == if token in gone then [] else Group(items, token)
  {
    if items != [] {
      var front, last := items[..|items| - 1], items[|items| - 1];
      GroupOfRest(front, gone, token);
      GroupSnoc(Without(front, gone), last, token);
    }
  }

  lemma ReadyTokensMember(cfg: Config, st: EngineState, node: string, token: string)
    ensures token in st.ReadyTokens(cfg, node) <==> st.Ready(cfg, node, token)
  {
    GroupMember(st.PendingAt(node), token);
    if st.Ready(cfg, node, token) {
      assert token in Tokens(st.PendingAt(node));
    }
  }

  lemma StrLeIsOrder()
    ensures IsOrder(StrLe)
  {
    forall a, b
      ensures StrLe(a, b) || StrLe(b, a)
    {
      StrLeTotal(a, b);
    }
    forall a, b, c | StrLe(a, b) && StrLe(b, c)
      ensures StrLe(a, c)
    {
      StrLeTransitive(a, b, c);
    }
  }

  /** The pending map when `rest` is what still waits at `node`. */
  function WithRest(pending: map<string, seq<Arrival>>, node: string, rest: seq<Arrival>): map<string, seq<Arrival>> {
    if rest == [] then pending - {node} else pending[node := rest]
  }

  lemma RestOfRest(pending: map<string, seq<Arrival>>, node: string, now: map<string, seq<Arrival>>, rest: seq<Arrival>)
    requires exists was :: now == WithRest(pending, node, was)
    ensures (if rest == [] then now[node := rest] - {node} else now[node := rest]) == WithRest(pending, node, rest)
  {
  }

  // ----- loops over arrivals -----

  method GroupByToken(items: seq<Arrival>) returns (groups: map<string, seq<Arrival>>)
    ensures groups.Keys == Tokens(items)
    ensures forall t :: t in groups ==> groups[t] == Group(items, t) && groups[t] != []
  {
    groups := map[];
    for i := 0 to |items|
      invariant groups.Keys == Tokens(items[..i])
      invariant forall t :: t in groups ==> groups[t] == Group(items[..i], t) && groups[t] != []
    {
      var item := items[i];
      assert items[..i + 1] == items[..i] + [item];
      TokensAppend(items[..i], item);
      GroupMember(items[..i], item.token);
      groups := groups[item.token := (if item.token in groups then groups[item.token] else []) + [item]];
    }
    assert items[..|items|] == items;
  }

  method DropToken(items: seq<Arrival>, token: string) returns (remaining: seq<Arrival>)
    ensures remaining == Without(items, {token})
  {
    remaining := [];
    for i := 0 to |items|
      invariant remaining == Without(items[..i], {token})
    {
      assert items[..i + 1][..i] == items[..i];
      if items[i].token != token {
        remaining := remaining + [items[i]];
      }
    }
    assert items[..|items|] == items;
  }

  /** The senders of a group, gathered in a set. */
  method CollectSenders(items: seq<Arrival>) returns (arrived: set<string>)
    ensures arrived == Senders(items)
  {
    arrived := {};
    for i := 0 to |items|
      invariant arrived == set j | 0 <= j < i :: items[j].fromNode
    {
      arrived := arrived + {items[i].fromNode};
    }
  }

  method SortedNodes(pending: map<string, seq<Arrival>>) returns (nodes: seq<string>)
    ensures forall n :: n in nodes <==> n in pending
    ensures forall i, j :: 0 <= i < j < |nodes| ==> StrLe(nodes[i], nodes[j]) && nodes[i] != nodes[j]
  {
    var todo := pending.Keys;
    var unsorted: seq<string> := [];
    while todo != {}
      invariant todo <= pending.Keys
      invariant forall n :: n in unsorted <==> n in pending.Keys - todo
      invariant forall n :: n in unsorted ==> multiset(unsorted)[n] == 1
      decreases todo
    {
      var n :| n in todo;
      todo := todo - {n};
      unsorted := unsorted + [n];
    }
    nodes := Sort(StrLe, unsorted);
    StrLeIsOrder();
    SortKeeps(StrLe, unsorted);
    SortSorts(StrLe, unsorted);
    assert forall n :: n in nodes <==> n in multiset(nodes);
    assert forall n :: n in unsorted <==> n in multiset(unsorted);
    forall i, j | 0 <= i < j < |nodes|
      ensures nodes[i] != nodes[j]
    {
      assert nodes[i] in nodes && nodes[i] in unsorted;
      if nodes[i] == nodes[j] {
        TwiceIn(nodes, i, j);
      }
    }
  }

  lemma TwiceIn(s: seq<string>, i: nat, j: nat)
    requires i < j < |s| && s[i] == s[j]
    ensures multiset(s)[s[i]] >= 2
  {
    assert s == s[..i] + [s[i]] + s[i + 1..j] + [s[j]] + s[j + 1..];
  }

  method SelectOutgoing(cfg: Config, node: string) returns (edges: seq<Edge>)
    ensures edges == cfg.Outgoing(node)
  {
    edges := [];
    for i := 0 to |cfg.edges|
      invariant edges == EdgesFrom(cfg.edges[..i], node)
    {
      assert cfg.edges[..i + 1][..i] == cfg.edges[..i];
      if cfg.edges[i].from == node {
        edges := edges + [cfg.edges[i]];
      }
    }
    assert cfg.edges[..|cfg.edges|] == cfg.edges;
  }

  /** The transitions, parted by the iteration limit. */
  method SplitByLimit(cfg: Config, runs: seq<Run>, ready: seq<Transition>)
    returns (transitions: seq<Transition>, blocked: seq<Transition>)
    ensures transitions == Admitted(cfg, runs, ready)
    ensures blocked == Refused(cfg, runs, ready)
  {
    transitions, blocked := [], [];
    for i := 0 to |ready|
      invariant transitions == Admitted(cfg, runs, ready[..i]) && blocked == Refused(cfg, runs, ready[..i])
    {
      assert ready[..i + 1][..i] == ready[..i];
      var count := CountIterations(runs, ready[i].to);
      var limit := MaxIterationsForNode(cfg, ready[i].to);
      if count >= limit {
        blocked := blocked + [ready[i]];
      } else {
        transitions := transitions + [ready[i]];
      }
    }
    assert ready[..|ready|] == ready;
  }

  lemma SplitIsEmpty(cfg: Config, runs: seq<Run>, ready: seq<Transition>)
    ensures Admitted(cfg, runs, ready) == [] && Refused(cfg, runs, ready) == [] <==> ready == []
  {
  }

  lemma ArriveNext(st: EngineState, hops: seq<Hop>, i: nat, token: string, run: Run)
    requires i < |hops|
    ensures var was, h := st.Arrive(hops[..i], token, run), hops[i];
            st.Arrive(hops[..i + 1], token, run) ==
            was.(pending := was.pending[h.to := was.PendingAt(h.to) + [Arrival(token, run.node, run.id, h.reason)]])
  {
    assert hops[..i + 1][..i] == hops[..i];
  }

  lemma {:induction false} ArriveKeepsValid(st: EngineState, hops: seq<Hop>, token: string, run: Run)
    requires st.Valid()
    ensures st.Arrive(hops, token, run).Valid()
  {
    if hops != [] {
      ArriveKeepsValid(st, hops[..|hops| - 1], token, run);
    }
  }

  lemma ConsumedIsValid(cfg: Config, st: EngineState)
    requires st.Valid()
    ensures st.Consumed(cfg).Valid()
  {
  }

  class Engine {
    var runTokens: map<string, string>
    var startedNodes: map<string, set<string>>
    var pending: map<string, seq<Arrival>>

    constructor ()
      ensures View() == EngineState(map[], map[], map[])
    {
      runTokens, startedNodes, pending := map[], map[], map[];
    }

    ghost function View(): EngineState
      reads this
    {
      EngineState(runTokens, startedNodes, pending)
    }

    method HasRun(runId: string) returns (known: bool)
      ensures known <==> runId in View().runTokens
    {
      known := runId in runTokens;
    }

    method RegisterEntryRun(run: Run)
      modifies this
      ensures View() == old(View()).RegisterEntry(run)
    {
      RegisterRun(run, run.id);
    }

    method RegisterTriggeredRun(run: Run, parentRunId: string)
      modifies this
      ensures View() == old(View()).RegisterTriggered(run, parentRunId)
    {
      var token := if parentRunId in runTokens then runTokens[parentRunId] else "";
      if token == "" {
        token := parentRunId;
      }
      RegisterRun(run, token);
    }

    method RegisterRun(run: Run, parentToken: string)
      modifies this
      ensures View() == old(View()).Register(run.id, run.node, parentToken)
    {
      var token := parentToken;
      if token == "" {
        token := run.id;
      }
      runTokens := runTokens[run.id := token];
      if token !in startedNodes {
        startedNodes := startedNodes[token := {}];
      }
      startedNodes := startedNodes[token := startedNodes[token] + {run.node}];
    }

    /** Whether a group sets its node off, as the code decides it. */
    method GroupReady(cfg: Config, node: string, token: string, items: seq<Arrival>) returns (ready: bool)
      requires items == Group(View().PendingAt(node), token)
      ensures ready <==> View().Ready(cfg, node, token)
    {
      if token in startedNodes && node in startedNodes[token] {
        return |items| > 0;
      }
      if JoinOf(cfg, node) == JoinAny {
        return |items| > 0;
      }
      var required: set<string> := {};
      var started := if token in startedNodes then startedNodes[token] else {};
      for i := 0 to |cfg.edges|
        invariant required == set j | 0 <= j < i && cfg.edges[j].to == node && cfg.edges[j].from in started ::
                                cfg.edges[j].from
      {
        if cfg.edges[i].to == node && cfg.edges[i].from in started {
          required := required + {cfg.edges[i].from};
        }
      }
      assert required == View().Required(cfg, node, token);
      var arrived := CollectSenders(items);
      assert items == [] ==> Senders(items) == {};
      return |required| > 0 && |arrived| == |required|;
    }

    /** Consumes one group if it is ready. */
    method TakeIfReady(cfg: Config, node: string, token: string, group: seq<Arrival>, ghost st: EngineState,
                       ghost gone: set<string>)
      returns (t: Option<Transition>)
      requires group == Group(st.PendingAt(node), token) && group != [] && token !in gone
      requires runTokens == st.runTokens && startedNodes == st.started
      requires pending == WithRest(st.pending, node, Without(st.PendingAt(node), gone))
      modifies this`pending
      ensures t.Some? <==> st.Ready(cfg, node, token)
      ensures t.Some? ==> t.value == st.TransitionOf(node, token)
      ensures pending
              == WithRest(st.pending, node, Without(st.PendingAt(node), if t.Some? then gone + {token} else gone))
    {
      ghost var items := st.PendingAt(node);
      GroupOfRest(items, gone, token);
      assert View().PendingAt(node) == Without(items, gone);
      assert View().Required(cfg, node, token) == st.Required(cfg, node, token);
      var ready := GroupReady(cfg, node, token, group);
      if !ready {
        return None;
      }
      var remaining := DropToken(if node in pending then pending[node] else [], token);
      WithoutTwice(items, gone, {token});
      RestOfRest(st.pending, node, pending, remaining);
      pending := pending[node := remaining];
      if |remaining| == 0 {
        pending := pending - {node};
      }
      return Some(Transition(node, token, Trigger(group[0].fromRunId, group[0].reason)));
    }

    /** One turn of the loop over the groups of a node. */
    method TakeNext(cfg: Config, node: string, token: string, group: seq<Arrival>, ts: seq<Transition>,
                    ghost st: EngineState, ghost seen: set<string>, ghost gone: set<string>)
      returns (all: seq<Transition>, ghost gone': set<string>)
      requires PartlyTaken(cfg, st, View(), node, ts, seen, gone)
      requires group == Group(st.PendingAt(node), token) && group != [] && token !in seen
      modifies this`pending
      ensures PartlyTaken(cfg, st, View(), node, all, seen + {token}, gone')
    {
      assert token !in gone;
      var t := TakeIfReady(cfg, node, token, group, st, gone);
      gone' := if t.Some? then gone + {token} else gone;
      all := if t.Some? then ts + [t.value] else ts;
      DecidedNext(cfg, st, node, seen, gone, token);
      if t.Some? {
        ListsOneMore(st, node, ts, gone, token);
      }
    }

    /** Consumes the ready groups of one node, in any order. */
    method ConsumeNode(cfg: Config, node: string) returns (ts: seq<Transition>)
      requires node in pending && pending[node] != []
      modifies this`pending
      ensures NodeConsumed(cfg, old(View()), View(), node, ts)
    {
      var groups := GroupByToken(pending[node]);
      ts := ConsumeGroups(cfg, node, groups);
    }

    method ConsumeGroups(cfg: Config, node: string, groups: map<string, seq<Arrival>>) returns (ts: seq<Transition>)
      requires node in pending && pending[node] != []
      requires groups.Keys == Tokens(View().PendingAt(node))
      requires forall t :: t in groups ==> groups[t] == Group(View().PendingAt(node), t) && groups[t] != []
      modifies this`pending
      ensures NodeConsumed(cfg, old(View()), View(), node, ts)
    {
      ghost var st := View();
      var todo := groups.Keys;
      ghost var gone := {};
      ts := [];
      NothingTaken(cfg, st, node);
      while todo != {}
        invariant todo <= groups.Keys
        invariant PartlyTaken(cfg, st, View(), node, ts, groups.Keys - todo, gone)
        decreases todo
      {
        var token :| token in todo;
        ghost var seen := groups.Keys - todo;
        ts, gone := TakeNext(cfg, node, token, groups[token], ts, st, seen, gone);
        todo := todo - {token};
        assert groups.Keys - todo == seen + {token};
      }
      assert groups.Keys - todo == groups.Keys;
      AllTaken(cfg, st, View(), node, ts, gone);
    }

    /** One turn of the loop over the nodes. */
    method ConsumeNext(cfg: Config, node: string, ts: seq<Transition>, ghost st: EngineState, ghost done: seq<string>)
      returns (all: seq<Transition>)
      requires PartlyConsumed(cfg, st, View(), done) && PartlyListed(cfg, st, ts, done)
      requires node in st.pending && node !in done && forall n :: n in done ==> StrLe(n, node)
      requires st.pending[node] != []
      modifies this`pending
      ensures PartlyConsumed(cfg, st, View(), done + [node])
      ensures PartlyListed(cfg, st, all, done + [node])
    {
      assert View().PendingAt(node) == st.PendingAt(node);
      var more := ConsumeNode(cfg, node);
      ConsumeOneMore(cfg, st, old(View()), View(), done, node, more);
      ListOneMore(cfg, st, ts, done, node, more);
      all := ts + more;
    }

    /** Consumes every ready group, node by node in the order of the names. */
    method ConsumeReady(cfg: Config) returns (ts: seq<Transition>)
      requires View().Valid()
      modifies this`pending
      ensures View() == old(View()).Consumed(cfg)
      ensures ListsReady(cfg, old(View()), ts)
    {
      ghost var st := View();
      var nodes := SortedNodes(pending);
      ts := [];
      for i := 0 to |nodes|
        invariant PartlyConsumed(cfg, st, View(), nodes[..i]) && PartlyListed(cfg, st, ts, nodes[..i])
      {
        NextNode(nodes, i);
        ts := ConsumeNext(cfg, nodes[i], ts, st, nodes[..i]);
      }
      assert nodes[..|nodes|] == nodes;
      AllConsumed(cfg, st, View(), ts, nodes);
    }

    /** One hop becomes an arrival behind those that already wait. */
    method AddArrivals(hops: seq<Hop>, token: string, run: Run)
      requires View().Valid()
      modifies this`pending
      ensures View() == old(View()).Arrive(hops, token, run)
      ensures View().Valid()
    {
      ghost var st := View();
      for i := 0 to |hops|
        invariant View() == st.Arrive(hops[..i], token, run)
      {
        var next := hops[i];
        ArriveNext(st, hops, i, token, run);
        var waiting := if next.to in pending then pending[next.to] else [];
        pending := pending[next.to := waiting + [Arrival(token, run.node, run.id, next.reason)]];
      }
      assert hops[..|hops|] == hops;
      ArriveKeepsValid(st, hops, token, run);
    }

    method ResolveCompletion(cfg: Config, runs: seq<Run>, run: Run)
      returns (r: Option<Resolution>, ghost ts: seq<Transition>)
      requires View().Valid()
      modifies this
      ensures View().Valid()
      ensures Resolves(cfg, old(View()), runs, run, View(), r, ts)
    {
      ghost var st := View();
      ts := [];
      var outgoing := SelectOutgoing(cfg, run.node);
      var hops := EvaluateEdges(run.result, outgoing);
      if hops == None {
        return None, ts;
      }
      var token := if run.id in runTokens then runTokens[run.id] else "";
      if token == "" {
        token := run.id;
        RegisterRun(run, token);
      }
      AddArrivals(hops.value, token, run);
      ghost var arrived := View();
      assert arrived == Arrived(st, run, hops.value);
      var resolution;
      resolution, ts := Settle(cfg, runs);
      r := Some(resolution);
    }

    /** Consumes what is ready and sorts it into transitions and blocks. */
    method Settle(cfg: Config, runs: seq<Run>) returns (r: Resolution, ghost ts: seq<Transition>)
      requires View().Valid()
      modifies this`pending
      ensures View() == old(View()).Consumed(cfg)
      ensures View().Valid()
      ensures ListsReady(cfg, old(View()), ts)
      ensures r.transitions == Admitted(cfg, runs, ts)
      ensures r.blocked == Refused(cfg, runs, ts)
      ensures r.taskDone <==> ts == [] && View().pending == map[] && TaskFinished(cfg, runs)
    {
      var ready := ConsumeReady(cfg);
      ts := ready;
      ConsumedIsValid(cfg, old(View()));
      var transitions, blocked := SplitByLimit(cfg, runs, ready);
      SplitIsEmpty(cfg, runs, ready);
      var finished := CheckFinished(cfg, runs);
      var waiting := HasPendingArrivals();
      assert !waiting <==> View().pending == map[];
      r := Resolution(transitions, blocked, |transitions| == 0 && |blocked| == 0 && !waiting && finished);
    }

    method HasPendingArrivals() returns (waiting: bool)
      ensures waiting <==> exists n :: n in pending && pending[n] != []
    {
      var todo := pending.Keys;
      while todo != {}
        invariant todo <= pending.Keys && forall n :: n in pending.Keys - todo ==> pending[n] == []
        decreases todo
      {
        var n :| n in todo;
        if |pending[n]| > 0 {
          return true;
        }
        todo := todo - {n};
      }
      return false;
    }
  }

  lemma NextNode(nodes: seq<string>, i: nat)
    requires i < |nodes| && forall j, k :: 0 <= j < k < |nodes| ==> StrLe(nodes[j], nodes[k]) && nodes[j] != nodes[k]
    ensures nodes[i] in nodes
    ensures nodes[i] !in nodes[..i]
    ensures forall n :: n in nodes[..i] ==> StrLe(n, nodes[i])
    ensures nodes[..i + 1] == nodes[..i] + [nodes[i]]
  {
  }

  /** `ts` has the transition of each of the tokens, once. */
  ghost predicate ListsTokens(st: EngineState, node: string, ts: seq<Transition>, tokens: set<string>) {
    if ts == [] then tokens == {}
    else
      var last := ts[|ts| - 1];
      && last.token in tokens
      && Group(st.PendingAt(node), last.token) != []
      && last == st.TransitionOf(node, last.token)
      && ListsTokens(st, node, ts[..|ts| - 1], tokens - {last.token})
  }

  lemma {:induction false} ListedTokens(st: EngineState, node: string, ts: seq<Transition>, tokens: set<string>)
    requires ListsTokens(st, node, ts, tokens)
    ensures forall i :: 0 <= i < |ts| ==>
              && ts[i].token in tokens
              && Group(st.PendingAt(node), ts[i].token) != []
              && ts[i] == st.TransitionOf(node, ts[i].token)
    ensures forall i, j :: 0 <= i < j < |ts| ==> ts[i].token != ts[j].token
    ensures forall t :: t in tokens ==> exists i :: 0 <= i < |ts| && ts[i].token == t
  {
    if ts != [] {
      var front, last := ts[..|ts| - 1], ts[|ts| - 1];
      ListedTokens(st, node, front, tokens - {last.token});
      forall t | t in tokens
        ensures exists i :: 0 <= i < |ts| && ts[i].token == t
      {
        if t != last.token {
          assert t in tokens - {last.token};
          var i :| 0 <= i < |front| && front[i].token == t;
          assert ts[i].token == t;
        } else {
          assert ts[|ts| - 1].token == t;
        }
      }
    }
  }

  /** `gone` are the tokens of `seen` that are ready. */
  ghost predicate Decided(cfg: Config, st: EngineState, node: string, seen: set<string>, gone: set<string>) {
    forall t :: t in gone <==> t in seen && st.Ready(cfg, node, t)
  }

  /** The state when the tokens in `seen` have been dealt with at one node. */
  ghost predicate PartlyTaken(cfg: Config, st: EngineState, now: EngineState, node: string, ts: seq<Transition>,
                              seen: set<string>, gone: set<string>)
  {
    && now == EngineState(st.runTokens, st.started, WithRest(st.pending, node, Without(st.PendingAt(node), gone)))
    && Decided(cfg, st, node, seen, gone)
    && ListsTokens(st, node, ts, gone)
  }

  lemma DecidedNext(cfg: Config, st: EngineState, node: string, seen: set<string>, gone: set<string>, token: string)
    requires Decided(cfg, st, node, seen, gone)
    ensures Decided(cfg, st, node, seen + {token}, if st.Ready(cfg, node, token) then gone + {token} else gone)
  {
  }

  lemma ListsOneMore(st: EngineState, node: string, ts: seq<Transition>, gone: set<string>, token: string)
    requires ListsTokens(st, node, ts, gone) && token !in gone && Group(st.PendingAt(node), token) != []
    ensures ListsTokens(st, node, ts + [st.TransitionOf(node, token)], gone + {token})
  {
    var t := st.TransitionOf(node, token);
    assert (ts + [t])[..|ts|] == ts && gone + {token} - {token} == gone;
  }

  lemma NothingTaken(cfg: Config, st: EngineState, node: string)
    requires node in st.pending && st.pending[node] != []
    ensures PartlyTaken(cfg, st, st, node, [], {}, {})
  {
    WithoutNothing(st.pending[node]);
  }

  lemma AllTaken(cfg: Config, st: EngineState, now: EngineState, node: string, ts: seq<Transition>, gone: set<string>)
    requires PartlyTaken(cfg, st, now, node, ts, Tokens(st.PendingAt(node)), gone)
    ensures NodeConsumed(cfg, st, now, node, ts)
  {
    GoneIsReady(cfg, st, node, gone);
  }

  lemma GoneIsReady(cfg: Config, st: EngineState, node: string, gone: set<string>)
    requires Decided(cfg, st, node, Tokens(st.PendingAt(node)), gone)
    ensures gone == st.ReadyTokens(cfg, node)
  {
    forall t
      ensures t in gone <==> t in st.ReadyTokens(cfg, node)
    {
      ReadyTokensMember(cfg, st, node, t);
      GroupMember(st.PendingAt(node), t);
    }
  }

  /** The effect of consuming one node on the state. */
  ghost predicate NodeConsumed(cfg: Config, st: EngineState, st': EngineState, node: string, ts: seq<Transition>) {
    var rest := Without(st.PendingAt(node), st.ReadyTokens(cfg, node));
    && st'.runTokens == st.runTokens
    && st'.started == st.started
    && st'.pending == WithRest(st.pending, node, rest)
    && ListsTokens(st, node, ts, st.ReadyTokens(cfg, node))
  }

  /** The state when the ready groups of the nodes in `done` are consumed. */
  ghost predicate PartlyConsumed(cfg: Config, st: EngineState, now: EngineState, done: seq<string>) {
    && now.runTokens == st.runTokens
    && now.started == st.started
    && (forall n :: n in now.pending ==> now.pending[n] != [])
    && (forall n :: now.PendingAt(n) ==
                    if n in done then Without(st.PendingAt(n), st.ReadyTokens(cfg, n)) else st.PendingAt(n))
  }

  ghost predicate PartlyListed(cfg: Config, st: EngineState, ts: seq<Transition>, done: seq<string>) {
    && (forall i :: 0 <= i < |ts| ==>
          && ts[i].to in done
          && st.Ready(cfg, ts[i].to, ts[i].token)
          && ts[i] == st.TransitionOf(ts[i].to, ts[i].token))
    && (forall i, j :: 0 <= i < j < |ts| ==> ts[i].to != ts[j].to || ts[i].token != ts[j].token)
    && (forall i, j :: 0 <= i < j < |ts| ==> StrLe(ts[i].to, ts[j].to))
    && (forall node, token :: node in done && st.Ready(cfg, node, token) ==>
          exists i :: 0 <= i < |ts| && ts[i].to == node && ts[i].token == token)
  }

  /** Readiness of a node depends only on what is started and what waits at that node. */
  lemma ReadySame(cfg: Config, st: EngineState, now: EngineState, node: string)
    requires now.started == st.started && now.PendingAt(node) == st.PendingAt(node)
    ensures forall token :: now.Ready(cfg, node, token) <==> st.Ready(cfg, node, token)
    ensures now.ReadyTokens(cfg, node) == st.ReadyTokens(cfg, node)
  {
    forall token
      ensures now.Required(cfg, node, token) == st.Required(cfg, node, token)
    {
    }
  }

  /** A list of transitions of one node depends only on what waits at that node. */
  lemma {:induction false} ListsSame(st: EngineState, now: EngineState, node: string, ts: seq<Transition>,
                                     tokens: set<string>)
    requires now.PendingAt(node) == st.PendingAt(node) && ListsTokens(now, node, ts, tokens)
    ensures ListsTokens(st, node, ts, tokens)
  {
    if ts != [] {
      var last := ts[|ts| - 1];
      ListsSame(st, now, node, ts[..|ts| - 1], tokens - {last.token});
      assert now.TransitionOf(node, last.token) == st.TransitionOf(node, last.token);
    }
  }

  lemma ConsumeOneMore(cfg: Config, st: EngineState, before: EngineState, after: EngineState, done: seq<string>,
                       node: string, more: seq<Transition>)
    requires PartlyConsumed(cfg, st, before, done) && node !in done
    requires NodeConsumed(cfg, before, after, node, more)
    ensures PartlyConsumed(cfg, st, after, done + [node])
    ensures ListsTokens(st, node, more, st.ReadyTokens(cfg, node))
  {
    ReadySame(cfg, st, before, node);
    ListsSame(st, before, node, more, before.ReadyTokens(cfg, node));
    assert forall n :: n != node ==> after.PendingAt(n) == before.PendingAt(n);
    assert after.PendingAt(node) == Without(st.PendingAt(node), st.ReadyTokens(cfg, node));
  }

  lemma ListOneMore(cfg: Config, st: EngineState, ts: seq<Transition>, done: seq<string>, node: string,
                    more: seq<Transition>)
    requires PartlyListed(cfg, st, ts, done) && node !in done
    requires forall n :: n in done ==> StrLe(n, node)
    requires ListsTokens(st, node, more, st.ReadyTokens(cfg, node))
    ensures PartlyListed(cfg, st, ts + more, done + [node])
  {
    forall token
      ensures token in st.ReadyTokens(cfg, node) <==> st.Ready(cfg, node, token)
    {
      ReadyTokensMember(cfg, st, node, token);
    }
    StrLeTotal(node, node);
    ListedTokens(st, node, more, st.ReadyTokens(cfg, node));
    forall n, token | n in done + [node] && st.Ready(cfg, n, token)
      ensures exists i :: 0 <= i < |ts + more| && (ts + more)[i].to == n && (ts + more)[i].token == token
    {
      ListedInEither(cfg, st, ts, done, node, more, n, token);
    }
  }

  lemma ListedInEither(cfg: Config, st: EngineState, ts: seq<Transition>, done: seq<string>, node: string,
                       more: seq<Transition>, n: string, token: string)
    requires PartlyListed(cfg, st, ts, done) && ListsTokens(st, node, more, st.ReadyTokens(cfg, node))
    requires n in done + [node] && st.Ready(cfg, n, token)
    ensures exists i :: 0 <= i < |ts + more| && (ts + more)[i].to == n && (ts + more)[i].token == token
  {
    if n in done {
      var i :| 0 <= i < |ts| && ts[i].to == n && ts[i].token == token;
      assert (ts + more)[i] == ts[i];
    } else {
      ReadyTokensMember(cfg, st, node, token);
      ListedTokens(st, node, more, st.ReadyTokens(cfg, node));
      var i :| 0 <= i < |more| && more[i].token == token;
      assert (ts + more)[|ts| + i] == more[i];
    }
  }

  lemma AllConsumed(cfg: Config, st: EngineState, now: EngineState, ts: seq<Transition>, nodes: seq<string>)
    requires PartlyConsumed(cfg, st, now, nodes) && PartlyListed(cfg, st, ts, nodes)
    requires forall n :: n in nodes <==> n in st.pending
    ensures now == st.Consumed(cfg)
    ensures ListsReady(cfg, st, ts)
  {
    forall node, token | st.Ready(cfg, node, token)
      ensures node in nodes
    {
      GroupMember(st.PendingAt(node), token);
    }
    forall n
      ensures n in now.pending <==> n in st.Consumed(cfg).pending
      ensures n in now.pending ==> now.pending[n] == st.Consumed(cfg).pending[n]
    {
      assert now.PendingAt(n) == if n in nodes then Without(st.PendingAt(n), st.ReadyTokens(cfg, n)) else [];
    }
  }
}
