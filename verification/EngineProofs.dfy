/** What every resolution of the engine keeps. */
module EngineProofs {
  // Arrivals are neither lost nor used twice, and a join fires exactly when all started predecessors have
  // arrived.

  import opened Options
  import opened ConfigValues
  import opened TaskConfig
  import opened EdgeEvaluation
  import opened TaskRuns
  import opened TaskEngine
  import opened EngineObject
  import opened Ordering

  // ----- conservation of arrivals -----

  /** The arrivals that the hops bring to one node. */
  function SentTo(hops: seq<Hop>, token: string, run: Run, node: string): seq<Arrival> {
    if hops == [] then []
    else
      var h := hops[|hops| - 1];
      SentTo(hops[..|hops| - 1], token, run, node) +
      (if h.to == node then [Arrival(token, run.node, run.id, h.reason)] else [])
  }

  /** The arrivals in the groups that the transitions to one node use up. */
  function UsedBy(st: EngineState, ts: seq<Transition>, node: string): multiset<Arrival> {
    if ts == [] then multiset{}
    else
      var t := ts[|ts| - 1];
      UsedBy(st, ts[..|ts| - 1], node) +
      (if t.to == node then multiset(Group(st.PendingAt(node), t.token)) else multiset{})
  }

  function TokensTo(ts: seq<Transition>, node: string): set<string> {
    set i | 0 <= i < |ts| && ts[i].to == node :: ts[i].token
  }

  lemma {:induction false} ArriveAdds(st: EngineState, hops: seq<Hop>, token: string, run: Run, node: string)
    ensures st.Arrive(hops, token, run).PendingAt(node) == st.PendingAt(node) + SentTo(hops, token, run, node)
    ensures st.Arrive(hops, token, run).started == st.started
    ensures st.Arrive(hops, token, run).runTokens == st.runTokens
  {
    if hops != [] {
      ArriveAdds(st, hops[..|hops| - 1], token, run, node);
    }
  }

  lemma {:induction false} GroupLeaves(items: seq<Arrival>, gone: set<string>, token: string)
    requires token !in gone
    ensures multiset(Without(items, gone)) == multiset(Group(items, token)) + multiset(Without(items, gone + {token}))
  {
    if items != [] {
      GroupLeaves(items[..|items| - 1], gone, token);
    }
  }

  lemma TokensToAppend(ts: seq<Transition>, node: string)
    requires ts != []
    ensures var t := ts[|ts| - 1];
            TokensTo(ts, node) == TokensTo(ts[..|ts| - 1], node) + (if t.to == node then {t.token} else {})
  {
    var front := ts[..|ts| - 1];
    assert forall i :: 0 <= i < |front| ==> front[i] == ts[i];
    forall k | k in TokensTo(front, node)
      ensures k in TokensTo(ts, node)
    {
      var i :| 0 <= i < |front| && front[i].to == node && front[i].token == k;
      assert ts[i].to == node;
    }
  }

  predicate DistinctGroups(ts: seq<Transition>) {
    forall i, j :: 0 <= i < j < |ts| ==> ts[i].to != ts[j].to || ts[i].token != ts[j].token
  }

  lemma {:induction false} UsedPlusRest(st: EngineState, ts: seq<Transition>, node: string)
    requires DistinctGroups(ts)
    ensures UsedBy(st, ts, node) + multiset(Without(st.PendingAt(node), TokensTo(ts, node)))
            == multiset(st.PendingAt(node))
  {
    if ts == [] {
      WithoutNothing(st.PendingAt(node));
      assert TokensTo(ts, node) == {};
    } else {
      var front, t := ts[..|ts| - 1], ts[|ts| - 1];
      assert forall i :: 0 <= i < |front| ==> front[i] == ts[i];
      UsedPlusRest(st, front, node);
      TokensToAppend(ts, node);
      if t.to == node {
        GroupLeaves(st.PendingAt(node), TokensTo(front, node), t.token);
      } else {
        assert TokensTo(ts, node) == TokensTo(front, node);
      }
    }
  }

  lemma ListedTokensAreReady(cfg: Config, st: EngineState, ts: seq<Transition>, node: string)
    requires ListsReady(cfg, st, ts)
    ensures TokensTo(ts, node) == st.ReadyTokens(cfg, node)
  {
    forall k
      ensures k in TokensTo(ts, node) <==> k in st.ReadyTokens(cfg, node)
    {
      ReadyTokensMember(cfg, st, node, k);
      if st.Ready(cfg, node, k) {
        var i :| 0 <= i < |ts| && ts[i].to == node && ts[i].token == k;
        assert k in TokensTo(ts, node);
      }
    }
  }

  lemma ConsumedPending(cfg: Config, st: EngineState, node: string)
    ensures st.Consumed(cfg).PendingAt(node) == Without(st.PendingAt(node), st.ReadyTokens(cfg, node))
  {
  }

  lemma RegisteringKeepsPending(st: EngineState, run: Run, hops: seq<Hop>, node: string)
    ensures exists token ::
              Arrived(st, run, hops).PendingAt(node) == st.PendingAt(node) + SentTo(hops, token, run, node)
              && token == if st.TokenOf(run.id) == "" then run.id else st.TokenOf(run.id)
  {
    var token := if st.TokenOf(run.id) == "" then run.id else st.TokenOf(run.id);
    if st.TokenOf(run.id) == "" {
      ArriveAdds(st.Register(run.id, run.node, run.id), hops, token, run, node);
    } else {
      ArriveAdds(st, hops, token, run, node);
    }
    assert Arrived(st, run, hops).PendingAt(node) == st.PendingAt(node) + SentTo(hops, token, run, node);
  }

  /** The state when a completed run's arrivals are in and nothing is consumed yet. */
  function WithArrivals(cfg: Config, st: EngineState, run: Run): EngineState {
    var hops := Evaluate(run.result, cfg.Outgoing(run.node));
    if hops == None then st else Arrived(st, run, hops.value)
  }

  /** The token under which a completed run's arrivals travel. */
  function SendingToken(st: EngineState, run: Run): string {
    if st.TokenOf(run.id) == "" then run.id else st.TokenOf(run.id)
  }

  /** At every node, what waited plus what came in is what the transitions and blocks used up plus what
      still waits. */
  lemma ArrivalsAreConserved(cfg: Config, st: EngineState, runs: seq<Run>, run: Run, st': EngineState,
                             r: Option<Resolution>, ts: seq<Transition>, node: string)
    requires Resolves(cfg, st, runs, run, st', r, ts) && r.Some?
    ensures var hops := Evaluate(run.result, cfg.Outgoing(run.node)).value;
            multiset(st.PendingAt(node)) + multiset(SentTo(hops, SendingToken(st, run), run, node))
            == UsedBy(Arrived(st, run, hops), ts, node) + multiset(st'.PendingAt(node))
  {
    var hops := Evaluate(run.result, cfg.Outgoing(run.node)).value;
    var arrived := Arrived(st, run, hops);
    RegisteringKeepsPending(st, run, hops, node);
    UsedPlusRest(arrived, ts, node);
    ListedTokensAreReady(cfg, arrived, ts, node);
    ConsumedPending(cfg, arrived, node);
  }

  /** No group that is ready stays behind. */
  lemma NothingReadyStays(cfg: Config, st: EngineState, node: string, token: string)
    ensures !st.Consumed(cfg).Ready(cfg, node, token)
  {
    ConsumedPending(cfg, st, node);
    GroupOfRest(st.PendingAt(node), st.ReadyTokens(cfg, node), token);
    ReadyTokensMember(cfg, st, node, token);
    assert st.Consumed(cfg).Required(cfg, node, token) == st.Required(cfg, node, token);
  }

  /** Groups that are not ready wait on unchanged. */
  lemma WaitingGroupsStay(cfg: Config, st: EngineState, node: string, token: string)
    requires !st.Ready(cfg, node, token)
    ensures Group(st.Consumed(cfg).PendingAt(node), token) == Group(st.PendingAt(node), token)
  {
    ConsumedPending(cfg, st, node);
    GroupOfRest(st.PendingAt(node), st.ReadyTokens(cfg, node), token);
    ReadyTokensMember(cfg, st, node, token);
  }

  lemma SplitKeepsAll(cfg: Config, runs: seq<Run>, ts: seq<Transition>)
    ensures multiset(Admitted(cfg, runs, ts)) + multiset(Refused(cfg, runs, ts)) == multiset(ts)
    ensures forall t :: t in Admitted(cfg, runs, ts) <==> t in ts && !ExceedsIterations(cfg, runs, t.to)
    ensures forall t :: t in Refused(cfg, runs, ts) <==> t in ts && ExceedsIterations(cfg, runs, t.to)
  {
    SplitCounts(cfg, runs, ts);
    forall t
      ensures t in Admitted(cfg, runs, ts) <==> t in ts && !ExceedsIterations(cfg, runs, t.to)
      ensures t in Refused(cfg, runs, ts) <==> t in ts && ExceedsIterations(cfg, runs, t.to)
    {
      SplitMembers(cfg, runs, ts, t);
    }
  }

  lemma SplitSnoc(cfg: Config, runs: seq<Run>, front: seq<Transition>, last: Transition)
    ensures var admitted, refused := Admitted(cfg, runs, front), Refused(cfg, runs, front);
            var ts, exceeds := front + [last], ExceedsIterations(cfg, runs, last.to);
            && Admitted(cfg, runs, ts) == (if exceeds then admitted else admitted + [last])
            && Refused(cfg, runs, ts) == (if exceeds then refused + [last] else refused)
  {
    assert (front + [last])[..|front|] == front;
    assert Admitted(cfg, runs, front) + [] == Admitted(cfg, runs, front);
    assert Refused(cfg, runs, front) + [] == Refused(cfg, runs, front);
  }

  lemma SnocCounts(admitted: seq<Transition>, refused: seq<Transition>, front: seq<Transition>, last: Transition)
    requires multiset(admitted) + multiset(refused) == multiset(front)
    ensures multiset(admitted + [last]) + multiset(refused) == multiset(front + [last])
    ensures multiset(admitted) + multiset(refused + [last]) == multiset(front + [last])
  {
  }

  lemma {:induction false} SplitCounts(cfg: Config, runs: seq<Run>, ts: seq<Transition>)
    ensures multiset(Admitted(cfg, runs, ts)) + multiset(Refused(cfg, runs, ts)) == multiset(ts)
  {
    if ts != [] {
      var front, last := ts[..|ts| - 1], ts[|ts| - 1];
      SplitCounts(cfg, runs, front);
      assert ts == front + [last];
      SplitSnoc(cfg, runs, front, last);
      SnocCounts(Admitted(cfg, runs, front), Refused(cfg, runs, front), front, last);
    }
  }

  lemma {:induction false} SplitMembers(cfg: Config, runs: seq<Run>, ts: seq<Transition>, t: Transition)
    ensures t in Admitted(cfg, runs, ts) <==> t in ts && !ExceedsIterations(cfg, runs, t.to)
    ensures t in Refused(cfg, runs, ts) <==> t in ts && ExceedsIterations(cfg, runs, t.to)
  {
    if ts != [] {
      SplitMembers(cfg, runs, ts[..|ts| - 1], t);
      assert ts == ts[..|ts| - 1] + [ts[|ts| - 1]];
    }
  }

  lemma DistinctIsOnce(ts: seq<Transition>, i: nat)
    requires DistinctGroups(ts) && i < |ts|
    ensures multiset(ts)[ts[i]] == 1
  {
    var before, after := ts[..i], ts[i + 1..];
    assert ts == before + [ts[i]] + after;
    assert ts[i] !in before && ts[i] !in after;
  }

  /** Every ready group becomes one transition or one block, by its node's limit, and nothing else does. */
  lemma EachGroupResolvesOnce(cfg: Config, st: EngineState, runs: seq<Run>, run: Run, st': EngineState,
                              r: Option<Resolution>, ts: seq<Transition>, node: string, token: string)
    requires Resolves(cfg, st, runs, run, st', r, ts) && r.Some?
    ensures var arrived := WithArrivals(cfg, st, run);
            if arrived.Ready(cfg, node, token) then
              var t := arrived.TransitionOf(node, token);
              && multiset(r.value.transitions)[t] == (if ExceedsIterations(cfg, runs, node) then 0 else 1)
              && multiset(r.value.blocked)[t] == (if ExceedsIterations(cfg, runs, node) then 1 else 0)
            else
              forall t :: t in r.value.transitions || t in r.value.blocked ==> t.to != node || t.token != token
  {
    var arrived := Arrived(st, run, Evaluate(run.result, cfg.Outgoing(run.node)).value);
    SplitKeepsAll(cfg, runs, ts);
    if arrived.Ready(cfg, node, token) {
      var i :| 0 <= i < |ts| && ts[i].to == node && ts[i].token == token;
      DistinctIsOnce(ts, i);
      var t := arrived.TransitionOf(node, token);
      assert ts[i] == t;
      assert t in r.value.transitions <==> multiset(r.value.transitions)[t] > 0;
      assert t in r.value.blocked <==> multiset(r.value.blocked)[t] > 0;
    }
  }

  // ----- the list of ready groups -----

  predicate TargetLe(a: Transition, b: Transition) {
    StrLe(a.to, b.to)
  }

  lemma TargetLeIsOrder()
    ensures IsOrder(TargetLe)
  {
    StrLeIsOrder();
  }

  /** The transitions of all ready groups. */
  ghost function ReadyTransitions(cfg: Config, st: EngineState): set<Transition> {
    set node, i | node in st.pending && 0 <= i < |st.pending[node]| && st.Ready(cfg, node, st.pending[node][i].token) ::
      st.TransitionOf(node, st.pending[node][i].token)
  }

  lemma ReadyTransitionsMember(cfg: Config, st: EngineState, node: string, token: string)
    requires st.Ready(cfg, node, token)
    ensures st.TransitionOf(node, token) in ReadyTransitions(cfg, st)
  {
    GroupMember(st.PendingAt(node), token);
    var i :| 0 <= i < |st.pending[node]| && st.pending[node][i].token == token;
  }

  /** Some list of the ready groups always exists. */
  lemma ReadyListExists(cfg: Config, st: EngineState) returns (ts: seq<Transition>)
    ensures ListsReady(cfg, st, ts)
  {
    var listed := Listing(ReadyTransitions(cfg, st));
    ts := Sort(TargetLe, listed);
    TargetLeIsOrder();
    SortSorts(TargetLe, listed);
    SortKeeps(TargetLe, listed);
    DistinctPermuted((t: Transition) => t, listed, ts);
    forall t
      ensures t in ts <==> t in ReadyTransitions(cfg, st)
    {
      assert t in ts <==> t in multiset(ts);
      assert t in listed <==> t in multiset(listed);
    }
    ListedIsReady(cfg, st, ts);
  }

  lemma ListedIsReady(cfg: Config, st: EngineState, ts: seq<Transition>)
    requires SortedBy(TargetLe, ts) && DistinctBy((t: Transition) => t, ts)
    requires forall t :: t in ts <==> t in ReadyTransitions(cfg, st)
    ensures ListsReady(cfg, st, ts)
  {
    forall t
      ensures t in ts <==> IsReadyTransition(cfg, st, t)
    {
      if IsReadyTransition(cfg, st, t) {
        ReadyTransitionsMember(cfg, st, t.to, t.token);
      }
    }
    forall i, j | 0 <= i < j < |ts|
      ensures ts[i].to != ts[j].to || ts[i].token != ts[j].token
    {
      var same := (t: Transition) => t;
      assert same(ts[i]) != same(ts[j]);
      assert ts[i] in ts && ts[j] in ts;
    }
    ListsReadyIf(cfg, st, ts);
  }

  function Exchanged(i: nat, a: nat, b: nat): nat {
    if i == a then b else if i == b then a else i
  }

  lemma ExchangedKeepsOrder(ts: seq<Transition>, us: seq<Transition>, a: nat, b: nat)
    requires a < b < |ts| == |us| && ts[a].to == ts[b].to
    requires forall i :: 0 <= i < |us| ==> us[i] == ts[Exchanged(i, a, b)]
    requires DistinctGroups(ts) && SortedBy(TargetLe, ts)
    ensures DistinctGroups(us) && SortedBy(TargetLe, us)
  {
    forall i, j | 0 <= i < j < |us|
      ensures (us[i].to != us[j].to || us[i].token != us[j].token) && TargetLe(us[i], us[j])
    {
      var x, y := Exchanged(i, a, b), Exchanged(j, a, b);
      assert x < y || y < x;
      assert TargetLe(ts[i], ts[j]);
    }
  }

  /** The parts of `ListsReady`: the groups are listed in the order of their nodes, each once, and all. */
  lemma ListsReadyIf(cfg: Config, st: EngineState, ts: seq<Transition>)
    requires forall t :: t in ts <==> IsReadyTransition(cfg, st, t)
    requires DistinctGroups(ts) && SortedBy(TargetLe, ts)
    ensures ListsReady(cfg, st, ts)
  {
    forall i, j | 0 <= i < j < |ts|
      ensures StrLe(ts[i].to, ts[j].to)
    {
      assert TargetLe(ts[i], ts[j]);
    }
    forall i | 0 <= i < |ts|
      ensures IsReadyTransition(cfg, st, ts[i])
    {
      assert ts[i] in ts;
    }
    forall node, token | st.Ready(cfg, node, token)
      ensures exists i :: 0 <= i < |ts| && ts[i].to == node && ts[i].token == token
    {
      var t := st.TransitionOf(node, token);
      assert IsReadyTransition(cfg, st, t);
      var i :| 0 <= i < |ts| && ts[i] == t;
    }
  }

  predicate IsReadyTransition(cfg: Config, st: EngineState, t: Transition) {
    st.Ready(cfg, t.to, t.token) && t == st.TransitionOf(t.to, t.token)
  }

  lemma ListsReadyMembers(cfg: Config, st: EngineState, ts: seq<Transition>, t: Transition)
    requires ListsReady(cfg, st, ts)
    ensures t in ts <==> IsReadyTransition(cfg, st, t)
  {
    if IsReadyTransition(cfg, st, t) {
      var i :| 0 <= i < |ts| && ts[i].to == t.to && ts[i].token == t.token;
      assert ts[i] == t;
    }
  }

  lemma ListsReadyOrdered(cfg: Config, st: EngineState, ts: seq<Transition>)
    requires ListsReady(cfg, st, ts)
    ensures DistinctGroups(ts) && SortedBy(TargetLe, ts)
  {
    assert forall i, j :: 0 <= i < j < |ts| ==> StrLe(ts[i].to, ts[j].to);
  }

  lemma ExchangedMembers(ts: seq<Transition>, us: seq<Transition>, a: nat, b: nat, t: Transition)
    requires a < b < |ts| == |us|
    requires forall i :: 0 <= i < |us| ==> us[i] == ts[Exchanged(i, a, b)]
    ensures t in us <==> t in ts
  {
    if i :| 0 <= i < |ts| && ts[i] == t {
      assert us[Exchanged(i, a, b)] == t;
    }
  }

  /** Two groups of one node may come in the other order. */
  lemma SwapStaysListed(cfg: Config, st: EngineState, ts: seq<Transition>, us: seq<Transition>, a: nat, b: nat)
    requires ListsReady(cfg, st, ts) && a < b < |ts| == |us| && ts[a].to == ts[b].to
    requires forall i :: 0 <= i < |us| ==> us[i] == ts[Exchanged(i, a, b)]
    ensures ListsReady(cfg, st, us)
  {
    ListsReadyOrdered(cfg, st, ts);
    ExchangedKeepsOrder(ts, us, a, b);
    forall t
      ensures t in us <==> IsReadyTransition(cfg, st, t)
    {
      ExchangedMembers(ts, us, a, b, t);
      ListsReadyMembers(cfg, st, ts, t);
    }
    ListsReadyIf(cfg, st, us);
  }

  // ----- joins -----

  /** What the engine can be asked to do. */
  datatype EngineAction =
    | EntryRun(run: Run)
    | TriggeredRun(run: Run, parent: string)
    | Completion(runs: seq<Run>, run: Run, r: Option<Resolution>, ts: seq<Transition>)

  /** One call on the engine, when `nodeOf` tells the node of each run. */
  ghost predicate EngineStep(cfg: Config, nodeOf: map<string, string>, st: EngineState, a: EngineAction,
                             st': EngineState)
  {
    && a.run.id in nodeOf
    && nodeOf[a.run.id] == a.run.node
    && match a
       case EntryRun(run) => st' == st.RegisterEntry(run)
       case TriggeredRun(run, parent) => st' == st.RegisterTriggered(run, parent)
       case Completion(runs, run, r, ts) => Resolves(cfg, st, runs, run, st', r, ts)
  }

  ghost predicate IsEngineRun(cfg: Config, nodeOf: map<string, string>, states: seq<EngineState>,
                              actions: seq<EngineAction>)
  {
    && |states| == |actions| + 1
    && states[0] == EngineState(map[], map[], map[])
    && forall i :: 0 <= i < |actions| ==> EngineStep(cfg, nodeOf, states[i], actions[i], states[i + 1])
  }

  /** A registered run's node has started under the run's token. */
  ghost predicate RunsStarted(nodeOf: map<string, string>, st: EngineState) {
    forall id :: id in st.runTokens ==> id in nodeOf && nodeOf[id] in st.StartedUnder(st.runTokens[id])
  }

  /** An arrival comes along an edge from a node that has started under its token. */
  ghost predicate ComesFromStarted(cfg: Config, st: EngineState, node: string, a: Arrival) {
    a.fromNode in st.StartedUnder(a.token) && exists e :: e in cfg.edges && e.from == a.fromNode && e.to == node
  }

  ghost predicate SendersStarted(cfg: Config, st: EngineState) {
    forall node, a :: a in st.PendingAt(node) ==> ComesFromStarted(cfg, st, node, a)
  }

  ghost predicate EngineInv(cfg: Config, nodeOf: map<string, string>, st: EngineState) {
    RunsStarted(nodeOf, st) && SendersStarted(cfg, st)
  }

  lemma RegisterKeepsInv(cfg: Config, nodeOf: map<string, string>, st: EngineState, id: string, node: string,
                         token: string)
    requires EngineInv(cfg, nodeOf, st) && id in nodeOf && nodeOf[id] == node
    ensures EngineInv(cfg, nodeOf, st.Register(id, node, token))
  {
    var st' := st.Register(id, node, token);
    assert forall t :: st.StartedUnder(t) <= st'.StartedUnder(t);
    forall n, a | a in st'.PendingAt(n)
      ensures ComesFromStarted(cfg, st', n, a)
    {
      assert ComesFromStarted(cfg, st, n, a);
    }
  }

  /** Every arrival sent comes from one of the hops. */
  lemma {:induction false} SentByAHop(hops: seq<Hop>, token: string, run: Run, node: string, a: Arrival)
    requires a in SentTo(hops, token, run, node)
    ensures exists h :: h in hops && h.to == node && a == Arrival(token, run.node, run.id, h.reason)
  {
    var front, last := hops[..|hops| - 1], hops[|hops| - 1];
    assert last in hops;
    if a in SentTo(front, token, run, node) {
      SentByAHop(front, token, run, node, a);
      var h :| h in front && h.to == node && a == Arrival(token, run.node, run.id, h.reason);
      assert h in hops;
    }
  }

  lemma HopsUseEdges(cfg: Config, run: Run)
    requires Evaluate(run.result, cfg.Outgoing(run.node)).Some?
    ensures forall h :: h in Evaluate(run.result, cfg.Outgoing(run.node)).value ==>
              exists e :: e in cfg.edges && e.from == run.node && e.to == h.to
  {
    EdgesFromMember(cfg.edges, run.node);
    forall h | h in Evaluate(run.result, cfg.Outgoing(run.node)).value
      ensures exists e :: e in cfg.edges && e.from == run.node && e.to == h.to
    {
      HopsFollowEdges(run.result, cfg.Outgoing(run.node), h);
    }
  }

  lemma ArriveKeepsInv(cfg: Config, nodeOf: map<string, string>, st: EngineState, hops: seq<Hop>, token: string,
                       run: Run)
    requires EngineInv(cfg, nodeOf, st) && run.node in st.StartedUnder(token)
    requires forall h :: h in hops ==> exists e :: e in cfg.edges && e.from == run.node && e.to == h.to
    ensures EngineInv(cfg, nodeOf, st.Arrive(hops, token, run))
  {
    var st' := st.Arrive(hops, token, run);
    ArriveAdds(st, hops, token, run, run.node);
    forall n, a | a in st'.PendingAt(n)
      ensures ComesFromStarted(cfg, st', n, a)
    {
      ArriveAdds(st, hops, token, run, n);
      if a in st.PendingAt(n) {
        assert ComesFromStarted(cfg, st, n, a);
      } else {
        SentByAHop(hops, token, run, n, a);
      }
    }
  }

  lemma ArrivedKeepsInv(cfg: Config, nodeOf: map<string, string>, st: EngineState, run: Run)
    requires EngineInv(cfg, nodeOf, st) && run.id in nodeOf && nodeOf[run.id] == run.node
    requires Evaluate(run.result, cfg.Outgoing(run.node)).Some?
    ensures EngineInv(cfg, nodeOf, Arrived(st, run, Evaluate(run.result, cfg.Outgoing(run.node)).value))
  {
    var hops := Evaluate(run.result, cfg.Outgoing(run.node)).value;
    HopsUseEdges(cfg, run);
    if st.TokenOf(run.id) == "" {
      RegisterKeepsInv(cfg, nodeOf, st, run.id, run.node, run.id);
      var registered := st.Register(run.id, run.node, run.id);
      assert registered.StartedUnder(run.id) == st.StartedUnder(run.id) + {run.node};
      ArriveKeepsInv(cfg, nodeOf, registered, hops, run.id, run);
    } else {
      assert nodeOf[run.id] in st.StartedUnder(st.runTokens[run.id]);
      ArriveKeepsInv(cfg, nodeOf, st, hops, st.TokenOf(run.id), run);
    }
  }

  lemma {:induction false} RestIsPart(items: seq<Arrival>, gone: set<string>)
    ensures forall a :: a in Without(items, gone) <==> a in items && a.token !in gone
  {
    if items != [] {
      RestIsPart(items[..|items| - 1], gone);
      assert items == items[..|items| - 1] + [items[|items| - 1]];
    }
  }

  lemma ConsumedKeepsInv(cfg: Config, nodeOf: map<string, string>, st: EngineState)
    requires EngineInv(cfg, nodeOf, st)
    ensures EngineInv(cfg, nodeOf, st.Consumed(cfg))
  {
    var st' := st.Consumed(cfg);
    forall n, a | a in st'.PendingAt(n)
      ensures ComesFromStarted(cfg, st', n, a)
    {
      ConsumedPending(cfg, st, n);
      RestIsPart(st.PendingAt(n), st.ReadyTokens(cfg, n));
      assert ComesFromStarted(cfg, st, n, a);
    }
  }

  lemma EngineStepKeepsInv(cfg: Config, nodeOf: map<string, string>, st: EngineState, a: EngineAction, st': EngineState)
    requires EngineInv(cfg, nodeOf, st) && EngineStep(cfg, nodeOf, st, a, st')
    ensures EngineInv(cfg, nodeOf, st')
  {
    match a {
      case EntryRun(run) => RegisterKeepsInv(cfg, nodeOf, st, run.id, run.node, run.id);
      case TriggeredRun(run, parent) =>
        var token := if st.TokenOf(parent) == "" then parent else st.TokenOf(parent);
        RegisterKeepsInv(cfg, nodeOf, st, run.id, run.node, token);
      case Completion(runs, run, r, ts) =>
        if r.Some? {
          ArrivedKeepsInv(cfg, nodeOf, st, run);
          ConsumedKeepsInv(cfg, nodeOf, Arrived(st, run, Evaluate(run.result, cfg.Outgoing(run.node)).value));
        }
    }
  }

  lemma {:induction false} EngineRunKeepsInv(cfg: Config, nodeOf: map<string, string>, states: seq<EngineState>,
                                             actions: seq<EngineAction>)
    requires IsEngineRun(cfg, nodeOf, states, actions)
    ensures EngineInv(cfg, nodeOf, states[|states| - 1])
  {
    if actions != [] {
      var n := |actions| - 1;
      assert IsEngineRun(cfg, nodeOf, states[..n + 1], actions[..n]);
      EngineRunKeepsInv(cfg, nodeOf, states[..n + 1], actions[..n]);
      EngineStepKeepsInv(cfg, nodeOf, states[n], actions[n], states[n + 1]);
    }
  }

  lemma SendersAreRequired(cfg: Config, st: EngineState, node: string, token: string)
    requires SendersStarted(cfg, st)
    ensures Senders(Group(st.PendingAt(node), token)) <= st.Required(cfg, node, token)
  {
    var items := Group(st.PendingAt(node), token);
    GroupMember(st.PendingAt(node), token);
    forall n | n in Senders(items)
      ensures n in st.Required(cfg, node, token)
    {
      var i :| 0 <= i < |items| && items[i].fromNode == n;
      assert items[i] in items;
      assert ComesFromStarted(cfg, st, node, items[i]);
      var e :| e in cfg.edges && e.from == n && e.to == node;
      var k :| 0 <= k < |cfg.edges| && cfg.edges[k] == e;
      assert cfg.edges[k].to == node && cfg.edges[k].from in st.StartedUnder(token);
    }
  }

  lemma SameSizeIsSame<T>(a: set<T>, b: set<T>)
    requires a <= b && |a| == |b|
    ensures a == b
  {
    assert |b - a| == |b| - |a|;
    assert b == a + (b - a);
  }

  /** What the configuration says: the node waits for all, or says nothing, or is not declared. */
  predicate WaitsForAll(cfg: Config, node: string) {
    forall i :: 0 <= i < |cfg.nodes| && cfg.nodes[i].name == node ==> cfg.nodes[i].join in {JoinUnset, JoinAll}
  }

  predicate WaitsForAny(cfg: Config, node: string) {
    exists i :: 0 <= i < |cfg.nodes| && cfg.nodes[i].name == node && cfg.nodes[i].join == JoinAny
  }

  lemma {:induction false} JoinInWaitsForAll(nodes: seq<NodeRef>, node: string)
    requires forall i :: 0 <= i < |nodes| && nodes[i].name == node ==> nodes[i].join in {JoinUnset, JoinAll}
    ensures JoinIn(nodes, node) == JoinAll
  {
    if nodes != [] && nodes[0].name != node {
      JoinInWaitsForAll(nodes[1..], node);
    }
  }

  lemma {:induction false} JoinInDeclared(nodes: seq<NodeRef>, i: nat)
    requires i < |nodes| && nodes[i].join != JoinUnset
    requires forall j, k :: 0 <= j < k < |nodes| ==> nodes[j].name != nodes[k].name
    ensures JoinIn(nodes, nodes[i].name) == nodes[i].join
  {
    if i > 0 {
      JoinInDeclared(nodes[1..], i - 1);
    }
  }

  /** The nodes with an edge to `node` that have started under the token. */
  ghost function StartedBefore(cfg: Config, st: EngineState, node: string, token: string): set<string> {
    set e | e in cfg.edges && e.to == node && token in st.started && e.from in st.started[token] :: e.from
  }

  lemma RequiredAreStarted(cfg: Config, st: EngineState, node: string, token: string)
    ensures st.Required(cfg, node, token) == StartedBefore(cfg, st, node, token)
  {
    forall n | n in StartedBefore(cfg, st, node, token)
      ensures n in st.Required(cfg, node, token)
    {
      var e :| e in cfg.edges && e.to == node && e.from in st.StartedUnder(token) && e.from == n;
      var i :| 0 <= i < |cfg.edges| && cfg.edges[i] == e;
      assert cfg.edges[i].from in st.Required(cfg, node, token);
    }
    forall n | n in st.Required(cfg, node, token)
      ensures n in StartedBefore(cfg, st, node, token)
    {
      var i :| 0 <= i < |cfg.edges| && cfg.edges[i].to == node && cfg.edges[i].from in st.StartedUnder(token)
        && cfg.edges[i].from == n;
      assert cfg.edges[i] in cfg.edges;
    }
  }

  /** The senders of what waits at `node` under the token. */
  function SendersUnder(st: EngineState, node: string, token: string): set<string> {
    set a | a in st.PendingAt(node) && a.token == token :: a.fromNode
  }

  lemma SendersAreUnder(st: EngineState, node: string, token: string)
    ensures Senders(Group(st.PendingAt(node), token)) == SendersUnder(st, node, token)
  {
    var items := Group(st.PendingAt(node), token);
    GroupMember(st.PendingAt(node), token);
    forall n | n in SendersUnder(st, node, token)
      ensures n in Senders(items)
    {
      var a :| a in st.PendingAt(node) && a.token == token && a.fromNode == n;
      assert a in items;
      var i :| 0 <= i < |items| && items[i] == a;
      assert items[i].fromNode in Senders(items);
    }
    forall n | n in Senders(items)
      ensures n in SendersUnder(st, node, token)
    {
      var i :| 0 <= i < |items| && items[i].fromNode == n;
      assert items[i] in items;
    }
  }

  /** The readiness of a node that waits for all and has not started, when senders are known to have
      started: the code compares sizes, and that comes to comparing the sets. */
  lemma JoinAllReadyIff(cfg: Config, st: EngineState, node: string, token: string)
    requires SendersStarted(cfg, st) && node !in st.StartedUnder(token) && WaitsForAll(cfg, node)
    ensures var senders := Senders(Group(st.PendingAt(node), token));
            st.Ready(cfg, node, token) <==> senders != {} && senders == st.Required(cfg, node, token)
  {
    var items := Group(st.PendingAt(node), token);
    JoinInWaitsForAll(cfg.nodes, node);
    SendersAreRequired(cfg, st, node, token);
    if |Senders(items)| == |st.Required(cfg, node, token)| {
      SameSizeIsSame(Senders(items), st.Required(cfg, node, token));
    }
    if items != [] {
      assert items[0].fromNode in Senders(items);
    } else {
      assert Senders(items) == {};
    }
  }

  /** In every run of the engine, a completion sets a waiting join off exactly when every started
      predecessor of the node has arrived under the token. */
  lemma JoinAllFiresWhenAllArrived(cfg: Config, nodeOf: map<string, string>, states: seq<EngineState>,
                                   actions: seq<EngineAction>, k: nat, node: string, token: string)
    requires IsEngineRun(cfg, nodeOf, states, actions)
    requires k < |actions| && actions[k].Completion? && actions[k].r.Some? && WaitsForAll(cfg, node)
    ensures var arrived := WithArrivals(cfg, states[k], actions[k].run);
            var senders := SendersUnder(arrived, node, token);
            node !in arrived.StartedUnder(token) ==>
              ((exists i :: 0 <= i < |actions[k].ts| && actions[k].ts[i].to == node && actions[k].ts[i].token == token)
               <==> senders != {} && senders == StartedBefore(cfg, arrived, node, token))
  {
    var run := actions[k].run;
    assert EngineStep(cfg, nodeOf, states[k], actions[k], states[k + 1]);
    assert IsEngineRun(cfg, nodeOf, states[..k + 1], actions[..k]);
    EngineRunKeepsInv(cfg, nodeOf, states[..k + 1], actions[..k]);
    ArrivedKeepsInv(cfg, nodeOf, states[k], run);
    var arrived := WithArrivals(cfg, states[k], run);
    if node !in arrived.StartedUnder(token) {
      JoinAllReadyIff(cfg, arrived, node, token);
      SendersAreUnder(arrived, node, token);
      RequiredAreStarted(cfg, arrived, node, token);
    }
  }

  /** A node that waits for any, and a node that has started under the token, is set off by any arrival. */
  lemma AnyArrivalFires(cfg: Config, st: EngineState, runs: seq<Run>, run: Run, st': EngineState, r: Option<Resolution>,
                        ts: seq<Transition>, node: string, token: string)
    requires Resolves(cfg, st, runs, run, st', r, ts) && r.Some?
    requires var arrived := WithArrivals(cfg, st, run);
             node in arrived.StartedUnder(token) || (NodesOk(cfg.nodes) && WaitsForAny(cfg, node))
    ensures (exists i :: 0 <= i < |ts| && ts[i].to == node && ts[i].token == token) <==>
              exists a :: a in WithArrivals(cfg, st, run).PendingAt(node) && a.token == token
  {
    var arrived := WithArrivals(cfg, st, run);
    GroupMember(arrived.PendingAt(node), token);
    if node !in arrived.StartedUnder(token) {
      var i :| 0 <= i < |cfg.nodes| && cfg.nodes[i].name == node && cfg.nodes[i].join == JoinAny;
      JoinInDeclared(cfg.nodes, i);
    }
    if a :| a in arrived.PendingAt(node) && a.token == token {
      assert a in Group(arrived.PendingAt(node), token);
      assert arrived.Ready(cfg, node, token);
    }
    if i :| 0 <= i < |ts| && ts[i].to == node && ts[i].token == token {
      var items := Group(arrived.PendingAt(node), token);
      assert items[0] in items;
    }
  }

  // ----- what a transition says -----

  lemma {:induction false} GroupIsFilter(items: seq<Arrival>, token: string)
    ensures Group(items, token) == Filter((a: Arrival) => a.token == token, items)
  {
    if items != [] {
      var front, last := items[..|items| - 1], items[|items| - 1];
      GroupIsFilter(front, token);
      FilterSnoc((a: Arrival) => a.token == token, front, last);
      assert items == front + [last];
    }
  }

  lemma {:induction false} GroupStarts(items: seq<Arrival>, token: string, k: nat)
    requires k < |items| && items[k].token == token && forall i :: 0 <= i < k ==> items[i].token != token
    ensures Group(items, token) != [] && Group(items, token)[0] == items[k]
  {
    var front := items[..|items| - 1];
    if k < |items| - 1 {
      GroupStarts(front, token, k);
    } else {
      GroupMember(front, token);
      assert Group(front, token) == [];
    }
  }

  /** A transition is triggered by the arrival that has waited longest under its token: its sender's run and
      the sender's reason. */
  lemma TriggeredByTheFirst(cfg: Config, st: EngineState, ts: seq<Transition>, i: nat)
    requires ListsReady(cfg, st, ts) && i < |ts|
    ensures exists k :: 0 <= k < |st.PendingAt(ts[i].to)| && IsFirstUnder(st.PendingAt(ts[i].to), k, ts[i].token)
              && ts[i].trigger == Trigger(st.PendingAt(ts[i].to)[k].fromRunId, st.PendingAt(ts[i].to)[k].reason)
  {
    var items, token := st.PendingAt(ts[i].to), ts[i].token;
    GroupMember(items, token);
    assert Group(items, token)[0] in Group(items, token);
    var k := FirstUnder(items, token);
    GroupStarts(items, token, k);
  }

  predicate IsFirstUnder(items: seq<Arrival>, k: nat, token: string) {
    k < |items| && items[k].token == token && forall i :: 0 <= i < k ==> items[i].token != token
  }

  lemma {:induction false} FirstUnder(items: seq<Arrival>, token: string) returns (k: nat)
    requires exists a :: a in items && a.token == token
    ensures IsFirstUnder(items, k, token)
  {
    k := 0;
    if items[0].token != token {
      assert exists a :: a in items[1..] && a.token == token;
      var j := FirstUnder(items[1..], token);
      k := j + 1;
      assert forall i :: 0 < i < k ==> items[i] == items[1..][i - 1];
    }
  }

  /** What a completion's arrivals are: behind those that wait at the target of a hop, one under the run's token, and
      nothing anywhere else. */
  lemma ArrivesAtTargets(st: EngineState, run: Run, hops: seq<Hop>, node: string)
    requires forall i, j :: 0 <= i < j < |hops| ==> hops[i].to != hops[j].to
    ensures var token := if run.id in st.runTokens && st.runTokens[run.id] != "" then st.runTokens[run.id] else run.id;
            && (forall h :: h in hops && h.to == node ==>
                  Arrived(st, run, hops).PendingAt(node)
                  == st.PendingAt(node) + [Arrival(token, run.node, run.id, h.reason)])
            && ((forall h :: h in hops ==> h.to != node) ==>
                  Arrived(st, run, hops).PendingAt(node) == st.PendingAt(node))
  {
    RegisteringKeepsPending(st, run, hops, node);
    var token := if st.TokenOf(run.id) == "" then run.id else st.TokenOf(run.id);
    SentToTarget(hops, token, run, node);
  }

  lemma {:induction false} SentToTarget(hops: seq<Hop>, token: string, run: Run, node: string)
    requires forall i, j :: 0 <= i < j < |hops| ==> hops[i].to != hops[j].to
    ensures forall h :: h in hops && h.to == node ==>
              SentTo(hops, token, run, node) == [Arrival(token, run.node, run.id, h.reason)]
    ensures (forall h :: h in hops ==> h.to != node) ==> SentTo(hops, token, run, node) == []
  {
    if hops != [] {
      var front, last := hops[..|hops| - 1], hops[|hops| - 1];
      assert hops == front + [last];
      assert forall i :: 0 <= i < |front| ==> front[i] == hops[i];
      SentToTarget(front, token, run, node);
      forall h | h in front
        ensures h.to != last.to
      {
        var i :| 0 <= i < |front| && front[i] == h;
      }
    }
  }

  // ----- limits and the end -----

  /** A node's own limit counts if it has one, and otherwise the topology's. */
  lemma {:induction false} LimitInDeclared(nodes: seq<NodeRef>, i: nat, limit: int)
    requires i < |nodes| && forall j, k :: 0 <= j < k < |nodes| ==> nodes[j].name != nodes[k].name
    ensures LimitIn(nodes, nodes[i].name, limit) == if nodes[i].maxIterations > 0 then nodes[i].maxIterations else limit
  {
    if i > 0 {
      LimitInDeclared(nodes[1..], i - 1, limit);
    } else {
      LimitInOthers(nodes[1..], nodes[0].name, limit);
    }
  }

  lemma {:induction false} LimitInOthers(nodes: seq<NodeRef>, node: string, limit: int)
    requires forall i :: 0 <= i < |nodes| ==> nodes[i].name != node
    ensures LimitIn(nodes, node, limit) == limit
  {
    if nodes != [] {
      LimitInOthers(nodes[1..], node, limit);
    }
  }

  lemma {:induction false} IterationsAreRuns(runs: seq<Run>, node: string)
    ensures IterationCount(runs, node) == |set i | 0 <= i < |runs| && runs[i].node == node|
  {
    if runs != [] {
      var n := |runs| - 1;
      var front := runs[..n];
      IterationsAreRuns(front, node);
      var before := set i | 0 <= i < |front| && front[i].node == node;
      var now := set i | 0 <= i < |runs| && runs[i].node == node;
      if runs[n].node == node {
        assert now == before + {n} && n !in before;
      } else {
        assert now == before;
      }
    }
  }

  /** A ready group becomes a block exactly if as many runs of its node are saved as its limit allows. */
  lemma BlockedIffAtLimit(cfg: Config, st: EngineState, runs: seq<Run>, run: Run, st': EngineState,
                          r: Option<Resolution>, ts: seq<Transition>, t: Transition, i: nat)
    requires Resolves(cfg, st, runs, run, st', r, ts) && r.Some? && t in ts
    requires NodesOk(cfg.nodes) && i < |cfg.nodes| && cfg.nodes[i].name == t.to
    ensures var limit := if cfg.nodes[i].maxIterations > 0 then cfg.nodes[i].maxIterations else cfg.maxIterations;
            var started := |set k | 0 <= k < |runs| && runs[k].node == t.to|;
            (t in r.value.blocked <==> started >= limit) && (t in r.value.transitions <==> started < limit)
  {
    LimitInDeclared(cfg.nodes, i, cfg.maxIterations);
    IterationsAreRuns(runs, t.to);
    SplitMembers(cfg, runs, ts, t);
  }

  /** The task is done exactly if nothing was set off and nothing waits, every run is done or failed, every
      failed one has been retried by hand, and some done run's node leads nowhere. */
  lemma TaskDoneIff(cfg: Config, st: EngineState, runs: seq<Run>, run: Run, st': EngineState, r: Option<Resolution>,
                    ts: seq<Transition>)
    requires Resolves(cfg, st, runs, run, st', r, ts) && r.Some?
    ensures r.value.taskDone <==>
              ts == [] && st'.pending == map[] && AllSettled(runs) && FailuresRetried(runs) && SomeEndDone(cfg, runs)
  {
    FinishedIff(cfg, runs);
  }

  predicate AllSettled(runs: seq<Run>) {
    forall x :: x in runs ==> x.status == Done || x.status == Failed
  }

  predicate FailuresRetried(runs: seq<Run>) {
    forall x :: x in runs && x.status == Failed ==> RetriedByHand(runs, x)
  }

  predicate SomeEndDone(cfg: Config, runs: seq<Run>) {
    exists x :: x in runs && x.status == Done && x.node in cfg.NodeNames() && IsEnd(cfg, x.node)
  }

  predicate IsEnd(cfg: Config, node: string) {
    forall e :: e in cfg.edges ==> e.from != node
  }

  lemma FinishedIff(cfg: Config, runs: seq<Run>)
    ensures TaskFinished(cfg, runs) <==> AllSettled(runs) && FailuresRetried(runs) && SomeEndDone(cfg, runs)
  {
    SettledIff(runs);
    RetriedIff(runs);
    EndDoneIff(cfg, runs);
  }

  lemma SettledIff(runs: seq<Run>)
    ensures AllSettled(runs) <==>
              forall i :: 0 <= i < |runs| ==> runs[i].status != Running && runs[i].status != AwaitingUser
  {
    assert forall i :: 0 <= i < |runs| ==> runs[i] in runs;
  }

  lemma RetriedIff(runs: seq<Run>)
    ensures FailuresRetried(runs) <==> forall i :: 0 <= i < |runs| ==> !IsOpenFailedRun(runs, runs[i])
  {
    forall i | 0 <= i < |runs|
      ensures IsOpenFailedRun(runs, runs[i]) <==> runs[i].status == Failed && !RetriedByHand(runs, runs[i])
    {
      OpenFailureIff(runs, runs[i]);
    }
    assert forall i :: 0 <= i < |runs| ==> runs[i] in runs;
  }

  lemma OpenFailureIff(runs: seq<Run>, run: Run)
    ensures IsOpenFailedRun(runs, run) <==> run.status == Failed && !RetriedByHand(runs, run)
  {
  }

  lemma EndDoneIff(cfg: Config, runs: seq<Run>)
    ensures SomeEndDone(cfg, runs) <==>
              exists i :: 0 <= i < |runs| && runs[i].status == Done
                && runs[i].node in cfg.NodeNames() && cfg.Outgoing(runs[i].node) == []
  {
    forall i | 0 <= i < |runs|
      ensures cfg.Outgoing(runs[i].node) == [] <==> IsEnd(cfg, runs[i].node)
    {
      LeadsNowhere(cfg.edges, runs[i].node);
    }
    if x :| x in runs && x.status == Done && x.node in cfg.NodeNames() && IsEnd(cfg, x.node) {
      var i :| 0 <= i < |runs| && runs[i] == x;
    }
  }

  /** A run was triggered by this one as a manual retry, forced or not. */
  predicate RetriedByHand(runs: seq<Run>, failed: Run) {
    exists i :: 0 <= i < |runs| && (runs[i].trigger == Some(Trigger(failed.id, ManualRetry))
                                    || runs[i].trigger == Some(Trigger(failed.id, ManualRetryForce)))
  }

  lemma LeadsNowhere(edges: seq<Edge>, from: string)
    ensures EdgesFrom(edges, from) == [] <==> forall e :: e in edges ==> e.from != from
  {
    EdgesFromMember(edges, from);
    if EdgesFrom(edges, from) != [] {
      assert EdgesFrom(edges, from)[0] in EdgesFrom(edges, from);
    }
  }

  /** The edges that leave a node, in the order in which they are declared. */
  lemma {:induction false} EdgesFromIsFilter(edges: seq<Edge>, from: string)
    ensures EdgesFrom(edges, from) == Filter((e: Edge) => e.from == from, edges)
  {
    if edges != [] {
      var front, last := edges[..|edges| - 1], edges[|edges| - 1];
      EdgesFromIsFilter(front, from);
      FilterSnoc((e: Edge) => e.from == from, front, last);
      assert edges == front + [last];
    }
  }
}
