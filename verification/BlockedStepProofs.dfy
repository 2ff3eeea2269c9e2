/** What the derived blocked steps are: they do not depend on the order of the input, none is listed
    twice, and exactly those are listed that were raised and not cleared later. */
module BlockedStepProofs {
  import opened Options
  import opened ConfigValues
  import opened TaskConfig
  import opened EdgeEvaluation
  import opened TaskRuns
  import opened TaskEngine
  import opened EngineObject
  import opened EngineProofs
  import opened TaskSchedule
  import opened ScheduleProofs
  import opened BlockedSteps
  import opened Ordering

  // ----- independence of the input order -----

  predicate DistinctIds(runs: seq<Run>) {
    forall i, j :: 0 <= i < j < |runs| ==> runs[i].id != runs[j].id
  }

  lemma RunLeIsOrder()
    ensures IsOrder(RunLe)
  {
    forall a, b
      ensures RunLe(a, b) || RunLe(b, a)
    {
      StrLeTotal(a.id, b.id);
    }
    forall a, b, c | RunLe(a, b) && RunLe(b, c)
      ensures RunLe(a, c)
    {
      if StrLe(a.id, b.id) && StrLe(b.id, c.id) {
        StrLeTransitive(a.id, b.id, c.id);
      }
    }
  }

  lemma IdsTellApart(runs: seq<Run>, sorted: seq<Run>)
    requires DistinctIds(runs) && multiset(sorted) == multiset(runs)
    ensures TellsApart(RunLe, sorted)
  {
    forall a, b | a in sorted && b in sorted && RunLe(a, b) && RunLe(b, a)
      ensures a == b
    {
      StrLeAntisymmetric(a.id, b.id);
      assert a in multiset(runs) && b in multiset(runs);
      assert a in runs && b in runs;
    }
  }

  lemma SameSorted(runs: seq<Run>, other: seq<Run>)
    requires multiset(runs) == multiset(other) && DistinctIds(runs)
    ensures Sort(RunLe, runs) == Sort(RunLe, other)
  {
    RunLeIsOrder();
    SortKeeps(RunLe, runs);
    SortKeeps(RunLe, other);
    SortSorts(RunLe, runs);
    SortSorts(RunLe, other);
    IdsTellApart(runs, Sort(RunLe, runs));
    IdsTellApart(runs, Sort(RunLe, other));
    SortedIsUnique(RunLe, Sort(RunLe, runs), Sort(RunLe, other));
  }

  /** The same runs in another order give the same results. */
  lemma InputOrderDoesNotMatter(cfg: Config, runs: seq<Run>, other: seq<Run>, steps: Option<seq<BlockedStep>>)
    requires multiset(runs) == multiset(other) && DistinctIds(runs)
    ensures IsDerivation(cfg, runs, steps) <==> IsDerivation(cfg, other, steps)
  {
    SameSorted(runs, other);
    assert forall run :: run in runs <==> run in multiset(runs);
    assert forall run :: run in other <==> run in multiset(other);
    forall states, events
      ensures Derives(cfg, runs, states, events, steps) <==> Derives(cfg, other, states, events, steps)
    {
    }
  }

  // ----- open exactly if raised and not cleared later -----

  predicate RaisedIn(blocked: seq<Transition>, key: string) {
    exists i :: 0 <= i < |blocked| && BlockedStepKey(blocked[i].trigger.runId, blocked[i].to) == key
  }

  lemma {:induction false} RaiseAllOpens(p: Replay, blocked: seq<Transition>, at: int, key: string)
    ensures key in RaiseAll(p, blocked, at).open <==> key in p.open || RaisedIn(blocked, key)
  {
    if blocked != [] {
      var n := |blocked| - 1;
      RaiseAllOpens(p, blocked[..n], at, key);
      assert RaisedIn(blocked, key) <==>
             RaisedIn(blocked[..n], key) || BlockedStepKey(blocked[n].trigger.runId, blocked[n].to) == key by {
        if i :| 0 <= i < |blocked| && BlockedStepKey(blocked[i].trigger.runId, blocked[i].to) == key {
          assert i < n ==> blocked[..n][i] == blocked[i];
        }
      }
    }
  }

  /** The run at `i` raised the key and no later run cleared it. */
  ghost predicate StandsSince(states: seq<Replay>, events: seq<Event>, key: string, i: nat)
    requires |states| == |events| + 1
  {
    && i < |events|
    && RaisedIn(BlockedBy(events[i]), key)
    && forall j :: i < j < |events| ==> Clears(states[j].history, events[j].run) != Some(key)
  }

  ghost predicate Stands(states: seq<Replay>, events: seq<Event>, key: string)
    requires |states| == |events| + 1
  {
    exists i: nat :: StandsSince(states, events, key, i)
  }

  lemma StandsSinceFront(states: seq<Replay>, events: seq<Event>, key: string, i: nat)
    requires |states| == |events| + 1 && i < |events| - 1
    ensures var n := |events| - 1;
            StandsSince(states, events, key, i) <==>
              StandsSince(states[..n + 1], events[..n], key, i) && Clears(states[n].history, events[n].run) != Some(key)
  {
    var n := |events| - 1;
    assert events[..n][i] == events[i];
    assert forall j :: i < j < n ==> states[..n + 1][j] == states[j] && events[..n][j] == events[j];
  }

  lemma StandsNext(states: seq<Replay>, events: seq<Event>, key: string)
    requires |states| == |events| + 1 && events != []
    ensures var n := |events| - 1;
            Stands(states, events, key) <==>
              RaisedIn(BlockedBy(events[n]), key) ||
              (Stands(states[..n + 1], events[..n], key) && Clears(states[n].history, events[n].run) != Some(key))
  {
    var n := |events| - 1;
    var states', events' := states[..n + 1], events[..n];
    if i: nat :| StandsSince(states, events, key, i) {
      if i < n {
        StandsSinceFront(states, events, key, i);
      }
    }
    if i: nat :| StandsSince(states', events', key, i) {
      StandsSinceFront(states, events, key, i);
    }
    assert StandsSince(states, events, key, n) <==> RaisedIn(BlockedBy(events[n]), key);
  }

  /** A key is open at the end of a replay if and only if a run raised it and no later one cleared it. */
  lemma {:induction false} OpenIffRaisedAndNotCleared(cfg: Config, states: seq<Replay>, events: seq<Event>, key: string)
    requires IsReplay(cfg, states, events)
    ensures key in states[|events|].open <==> Stands(states, events, key)
  {
    if events != [] {
      var n := |events| - 1;
      OpenIffRaisedAndNotCleared(cfg, states[..n + 1], events[..n], key);
      StandsNext(states, events, key);
      var entered := Enter(states[n], events[n].run);
      if events[n].r.Some? {
        RaiseAllOpens(entered.(engine := events[n].st), BlockedBy(events[n]), CompletionTime(events[n].run), key);
      }
    }
  }

  lemma SameRuns(events: seq<Event>, events': seq<Event>)
    requires RunsOf(events) == RunsOf(events') && |events| == |events'| > 0
    ensures var n := |events| - 1;
            RunsOf(events[..n]) == RunsOf(events'[..n]) && events[n].run == events'[n].run
  {
    var n := |events| - 1;
    var a, b := RunsOf(events[..n]), RunsOf(events'[..n]);
    RunsOfLength(events[..n]);
    RunsOfLength(events'[..n]);
    assert a + [events[n].run] == b + [events'[n].run];
    assert (a + [events[n].run])[..n] == a && (b + [events'[n].run])[..n] == b;
    assert (a + [events[n].run])[n] == events[n].run && (b + [events'[n].run])[n] == events'[n].run;
  }

  lemma {:induction false} RunsOfLength(events: seq<Event>)
    ensures |RunsOf(events)| == |events|
  {
    if events != [] {
      RunsOfLength(events[..|events| - 1]);
    }
  }

  // ----- what is listed -----

  /** Open steps are filed under their own keys, and every key was noted when it was raised. */
  ghost predicate Filed(p: Replay) {
    forall key :: key in p.open ==> key in p.order && KeyOf(p.open[key]) == key
  }

  lemma {:induction false} RaiseAllFiles(p: Replay, blocked: seq<Transition>, at: int)
    requires Filed(p)
    ensures Filed(RaiseAll(p, blocked, at))
  {
    if blocked != [] {
      var n := |blocked| - 1;
      RaiseAllFiles(p, blocked[..n], at);
    }
  }

  lemma {:induction false} ReplayFiles(cfg: Config, states: seq<Replay>, events: seq<Event>)
    requires IsReplay(cfg, states, events)
    ensures Filed(states[|events|])
  {
    if events != [] {
      var n := |events| - 1;
      ReplayFiles(cfg, states[..n + 1], events[..n]);
      var entered := Enter(states[n], events[n].run);
      assert Filed(entered);
      if events[n].r.Some? {
        RaiseAllFiles(entered.(engine := events[n].st), BlockedBy(events[n]), CompletionTime(events[n].run));
      }
    }
  }

  lemma {:induction false} OpenStepsMember(open: map<string, BlockedStep>, order: seq<string>, step: BlockedStep)
    ensures step in OpenSteps(open, order) <==> exists key :: key in order && key in open && open[key] == step
  {
    if order != [] {
      var front, last := order[..|order| - 1], order[|order| - 1];
      OpenStepsMember(open, front, step);
      assert order == front + [last];
      assert forall key :: key in order <==> key in front || key == last;
    }
  }

  /** The steps listed are exactly those that were raised and not cleared later. */
  lemma ListedIffRaisedAndNotCleared(cfg: Config, runs: seq<Run>, states: seq<Replay>, events: seq<Event>,
                                     steps: Option<seq<BlockedStep>>, key: string)
    requires Derives(cfg, runs, states, events, steps) && steps.Some?
    ensures (exists step :: step in steps.value && KeyOf(step) == key) <==>
              Stands(states, events, key)
  {
    var p := states[|events|];
    ReplayFiles(cfg, states, events);
    OpenIffRaisedAndNotCleared(cfg, states, events, key);
    SortHasSame(OpenSteps(p.open, p.order));
    if key in p.open {
      OpenStepsMember(p.open, p.order, p.open[key]);
      assert p.open[key] in steps.value;
    }
    if step :| step in steps.value && KeyOf(step) == key {
      OpenStepsMember(p.open, p.order, step);
    }
  }

  lemma SortHasSame(steps: seq<BlockedStep>)
    ensures forall step :: step in Sort(StepLe, steps) <==> step in steps
  {
    SortKeeps(StepLe, steps);
    forall step
      ensures step in Sort(StepLe, steps) <==> step in steps
    {
      assert step in Sort(StepLe, steps) <==> step in multiset(Sort(StepLe, steps));
      assert step in steps <==> step in multiset(steps);
    }
  }

  // ----- each source and target at most once -----

  predicate NoArrow(id: string) {
    '>' !in id
  }

  /** Keys of run ids without an arrow head tell sources and nodes apart. */
  lemma KeyIsInjective(source: string, node: string, source': string, node': string)
    requires NoArrow(source) && NoArrow(source')
    requires BlockedStepKey(source, node) == BlockedStepKey(source', node')
    ensures source == source' && node == node'
  {
    var key, n, m := BlockedStepKey(source, node), |source|, |source'|;
    assert key[n + 1] == '>' && key[m + 1] == '>';
    assert key[m] == '-' && key[n] == '-';
    assert n == m;
    assert key[..n] == source && key[..m] == source';
    assert key[n + 2..] == node && key[m + 2..] == node';
  }

  function Ids(runs: seq<Run>): set<string> {
    set i | 0 <= i < |runs| :: runs[i].id
  }

  predicate SentByDifferentRuns(items: seq<Arrival>) {
    forall i, j :: 0 <= i < j < |items| ==> items[i].fromRunId != items[j].fromRunId
  }

  predicate NoDuplicates(keys: seq<string>) {
    forall i, j :: 0 <= i < j < |keys| ==> keys[i] != keys[j]
  }

  /** An arrival's sender is a known run, and the arrival has not led to a blocked step yet. */
  predicate NotRaised(ids: set<string>, order: seq<string>, node: string, a: Arrival) {
    && a.fromRunId in ids
    && BlockedStepKey(a.fromRunId, node) !in order
  }

  ghost predicate PendingOnce(st: EngineState, ids: set<string>, order: seq<string>) {
    && (forall node :: SentByDifferentRuns(st.PendingAt(node)))
    && (forall node, a :: a in st.PendingAt(node) ==> NotRaised(ids, order, node, a))
  }

  ghost predicate OrderKnown(ids: set<string>, order: seq<string>) {
    NoDuplicates(order) && forall key :: key in order ==> KeyKnown(ids, key)
  }

  ghost predicate KeyKnown(ids: set<string>, key: string) {
    exists id, node :: id in ids && key == BlockedStepKey(id, node)
  }

  ghost predicate RaisedOnce(p: Replay) {
    && PendingOnce(p.engine, Ids(p.history), p.order)
    && OrderKnown(Ids(p.history), p.order)
    && Filed(p)
  }

  /** A run sends at most one arrival to a node. */
  lemma {:induction false} SentAtMostOnce(hops: seq<Hop>, token: string, run: Run, node: string)
    requires forall i, j :: 0 <= i < j < |hops| ==> hops[i].to != hops[j].to
    ensures |SentTo(hops, token, run, node)| <= 1
    ensures forall a :: a in SentTo(hops, token, run, node) ==> a.fromRunId == run.id
    ensures (forall i :: 0 <= i < |hops| ==> hops[i].to != node) ==> SentTo(hops, token, run, node) == []
  {
    if hops != [] {
      var front := hops[..|hops| - 1];
      assert forall i :: 0 <= i < |front| ==> front[i] == hops[i];
      SentAtMostOnce(front, token, run, node);
    }
  }

  lemma {:induction false} NoEdgesFrom(edges: seq<Edge>, node: string)
    requires forall e :: e in edges ==> e.from != node
    ensures EdgesFrom(edges, node) == []
  {
    if edges != [] {
      assert edges[|edges| - 1] in edges;
      NoEdgesFrom(edges[..|edges| - 1], node);
    }
  }

  lemma TargetsDiffer(cfg: Config, run: Run)
    requires ConfigOk(cfg) && Evaluate(run.result, cfg.Outgoing(run.node)).Some?
    ensures var hops := Evaluate(run.result, cfg.Outgoing(run.node)).value;
            forall i, j :: 0 <= i < j < |hops| ==> hops[i].to != hops[j].to
  {
    var hops := Evaluate(run.result, cfg.Outgoing(run.node)).value;
    if run.node in cfg.defs {
      forall i, j | 0 <= i < j < |hops|
        ensures hops[i].to != hops[j].to
      {
        HopsHaveDistinctTargets(cfg, run.node, run.result, i, j);
      }
    } else {
      assert forall e :: e in cfg.edges ==> e.from in cfg.NodeNames();
      NoEdgesFrom(cfg.edges, run.node);
      assert MatchedHops(run.result, []) == [];
      assert hops == [];
    }
  }

  /** No run sends two arrivals to one node. */
  ghost predicate SendsApart(cfg: Config) {
    forall run: Run :: TargetsApart(cfg, run)
  }

  predicate TargetsApart(cfg: Config, run: Run) {
    var hops := Evaluate(run.result, cfg.Outgoing(run.node));
    hops.Some? ==> forall i, j :: 0 <= i < j < |hops.value| ==> hops.value[i].to != hops.value[j].to
  }

  lemma ConfigSendsApart(cfg: Config)
    requires ConfigOk(cfg)
    ensures SendsApart(cfg)
  {
    forall run: Run
      ensures TargetsApart(cfg, run)
    {
      if Evaluate(run.result, cfg.Outgoing(run.node)).Some? {
        TargetsDiffer(cfg, run);
      }
    }
  }

  /** The arrivals of a run not seen before keep the senders at each node apart. */
  lemma ArrivedOnce(st: EngineState, run: Run, hops: seq<Hop>, ids: set<string>, order: seq<string>)
    requires PendingOnce(st, ids, order) && OrderKnown(ids, order) && run.id !in ids
    requires NoArrow(run.id) && forall id :: id in ids ==> NoArrow(id)
    requires forall i, j :: 0 <= i < j < |hops| ==> hops[i].to != hops[j].to
    ensures PendingOnce(Arrived(st, run, hops), ids + {run.id}, order)
  {
    var st', token := Arrived(st, run, hops), SendingToken(st, run);
    forall node
      ensures st'.PendingAt(node) == st.PendingAt(node) + SentTo(hops, token, run, node)
      ensures SentByDifferentRuns(st'.PendingAt(node))
    {
      RegisteringKeepsPending(st, run, hops, node);
      SentAtMostOnce(hops, token, run, node);
      SendersStayDifferent(st.PendingAt(node), SentTo(hops, token, run, node), ids, order, node, run.id);
    }
    forall node, a | a in st'.PendingAt(node)
      ensures NotRaised(ids + {run.id}, order, node, a)
    {
      SentAtMostOnce(hops, token, run, node);
      if a in st.PendingAt(node) {
        assert NotRaised(ids, order, node, a);
      } else {
        NewKey(ids, order, run.id, node);
      }
    }
  }

  lemma SendersStayDifferent(items: seq<Arrival>, sent: seq<Arrival>, ids: set<string>, order: seq<string>,
                             node: string, id: string)
    requires SentByDifferentRuns(items) && forall a :: a in items ==> NotRaised(ids, order, node, a)
    requires |sent| <= 1 && (forall a :: a in sent ==> a.fromRunId == id) && id !in ids
    ensures SentByDifferentRuns(items + sent)
  {
    var all := items + sent;
    forall i, j | 0 <= i < j < |all|
      ensures all[i].fromRunId != all[j].fromRunId
    {
      assert all[i] in items;
      assert NotRaised(ids, order, node, all[i]);
      assert j >= |items| ==> all[j] in sent;
    }
  }

  lemma NewKey(ids: set<string>, order: seq<string>, id: string, node: string)
    requires OrderKnown(ids, order) && id !in ids
    requires NoArrow(id) && forall other :: other in ids ==> NoArrow(other)
    ensures BlockedStepKey(id, node) !in order
  {
    var key := BlockedStepKey(id, node);
    if key in order {
      assert KeyKnown(ids, key);
      var other, node' :| other in ids && key == BlockedStepKey(other, node');
      KeyIsInjective(id, node, other, node');
      assert false;
    }
  }

  function TransitionKey(t: Transition): string {
    BlockedStepKey(t.trigger.runId, t.to)
  }

  predicate DifferentKeys(ts: seq<Transition>) {
    forall i, j :: 0 <= i < j < |ts| ==> TransitionKey(ts[i]) != TransitionKey(ts[j])
  }

  /** `a` waits at the target of `t`, under its token, and is the trigger. */
  predicate IsTriggeredBy(st: EngineState, t: Transition, a: Arrival) {
    && a in st.PendingAt(t.to)
    && a.token == t.token
    && a.fromRunId == t.trigger.runId
  }

  lemma TriggerWaits(cfg: Config, st: EngineState, ts: seq<Transition>, i: nat)
    requires ListsReady(cfg, st, ts) && i < |ts|
    ensures IsTriggeredBy(st, ts[i], Group(st.PendingAt(ts[i].to), ts[i].token)[0])
  {
    var items := st.PendingAt(ts[i].to);
    GroupMember(items, ts[i].token);
    assert Group(items, ts[i].token)[0] in Group(items, ts[i].token);
  }

  /** The groups consumed together have different keys, none of them raised before. */
  lemma ReadyKeysDiffer(cfg: Config, st: EngineState, ts: seq<Transition>, ids: set<string>, order: seq<string>)
    requires ListsReady(cfg, st, ts) && PendingOnce(st, ids, order) && forall id :: id in ids ==> NoArrow(id)
    ensures DifferentKeys(ts)
    ensures forall t :: t in ts ==> t.trigger.runId in ids && TransitionKey(t) !in order
  {
    forall i | 0 <= i < |ts|
      ensures ts[i].trigger.runId in ids
      ensures TransitionKey(ts[i]) !in order
    {
      TriggerWaits(cfg, st, ts, i);
      assert NotRaised(ids, order, ts[i].to, Group(st.PendingAt(ts[i].to), ts[i].token)[0]);
    }
    forall i, j | 0 <= i < j < |ts|
      ensures TransitionKey(ts[i]) != TransitionKey(ts[j])
    {
      TriggerWaits(cfg, st, ts, i);
      TriggerWaits(cfg, st, ts, j);
      var a, b := Group(st.PendingAt(ts[i].to), ts[i].token)[0], Group(st.PendingAt(ts[j].to), ts[j].token)[0];
      if TransitionKey(ts[i]) == TransitionKey(ts[j]) {
        KeyIsInjective(a.fromRunId, ts[i].to, b.fromRunId, ts[j].to);
        assert false;
      }
    }
  }

  /** An arrival that waits on has a different key from every group consumed. */
  lemma WaitingKeyDiffers(cfg: Config, st: EngineState, ts: seq<Transition>, ids: set<string>, order: seq<string>,
                          node: string, a: Arrival, i: nat)
    requires ListsReady(cfg, st, ts) && PendingOnce(st, ids, order) && (forall id :: id in ids ==> NoArrow(id))
    requires a in st.Consumed(cfg).PendingAt(node) && i < |ts|
    ensures TransitionKey(ts[i]) != BlockedStepKey(a.fromRunId, node)
  {
    ConsumedPending(cfg, st, node);
    RestIsPart(st.PendingAt(node), st.ReadyTokens(cfg, node));
    assert NotRaised(ids, order, node, a);
    TriggerWaits(cfg, st, ts, i);
    var first := Group(st.PendingAt(ts[i].to), ts[i].token)[0];
    assert NotRaised(ids, order, ts[i].to, first);
    if TransitionKey(ts[i]) == BlockedStepKey(a.fromRunId, node) {
      KeyIsInjective(first.fromRunId, ts[i].to, a.fromRunId, node);
      ReadyTokensMember(cfg, st, node, a.token);
      assert false;
    }
  }

  lemma {:induction false} RestSentByDifferentRuns(items: seq<Arrival>, gone: set<string>)
    requires SentByDifferentRuns(items)
    ensures SentByDifferentRuns(Without(items, gone))
  {
    if items != [] {
      var front, last := items[..|items| - 1], items[|items| - 1];
      RestSentByDifferentRuns(front, gone);
      RestIsPart(front, gone);
      var rest := Without(front, gone);
      forall i | 0 <= i < |rest|
        ensures rest[i].fromRunId != last.fromRunId
      {
        assert rest[i] in rest;
        var k :| 0 <= k < |front| && front[k] == rest[i];
        assert items[k] == front[k];
      }
    }
  }

  /** The keys noted before and those raised now. */
  predicate OrderGrows(order: seq<string>, ts: seq<Transition>, order': seq<string>) {
    forall key :: key in order' ==> key in order || exists i :: 0 <= i < |ts| && TransitionKey(ts[i]) == key
  }

  lemma ConsumedOnce(cfg: Config, st: EngineState, ts: seq<Transition>, ids: set<string>, order: seq<string>,
                     order': seq<string>)
    requires ListsReady(cfg, st, ts) && PendingOnce(st, ids, order) && (forall id :: id in ids ==> NoArrow(id))
    requires OrderGrows(order, ts, order')
    ensures PendingOnce(st.Consumed(cfg), ids, order')
  {
    var st' := st.Consumed(cfg);
    forall node
      ensures SentByDifferentRuns(st'.PendingAt(node))
    {
      ConsumedPending(cfg, st, node);
      RestSentByDifferentRuns(st.PendingAt(node), st.ReadyTokens(cfg, node));
    }
    forall node, a | a in st'.PendingAt(node)
      ensures NotRaised(ids, order', node, a)
    {
      ConsumedPending(cfg, st, node);
      RestIsPart(st.PendingAt(node), st.ReadyTokens(cfg, node));
      assert NotRaised(ids, order, node, a);
      var key := BlockedStepKey(a.fromRunId, node);
      if key in order' {
        var i :| 0 <= i < |ts| && TransitionKey(ts[i]) == key;
        WaitingKeyDiffers(cfg, st, ts, ids, order, node, a, i);
        assert false;
      }
    }
  }

  lemma {:induction false} RefusedKeysDiffer(cfg: Config, runs: seq<Run>, ts: seq<Transition>)
    requires DifferentKeys(ts)
    ensures DifferentKeys(Refused(cfg, runs, ts))
  {
    if ts != [] {
      var front, last := ts[..|ts| - 1], ts[|ts| - 1];
      assert forall i :: 0 <= i < |front| ==> front[i] == ts[i];
      RefusedKeysDiffer(cfg, runs, front);
      SplitKeepsAll(cfg, runs, front);
      var refused := Refused(cfg, runs, front);
      forall i | 0 <= i < |refused|
        ensures TransitionKey(refused[i]) != TransitionKey(last)
      {
        assert refused[i] in front;
        var k :| 0 <= k < |front| && front[k] == refused[i];
        assert ts[k] == front[k];
      }
    }
  }

  /** Raising steps with new keys notes each of them once. */
  lemma {:induction false} RaiseAllOnce(p: Replay, blocked: seq<Transition>, at: int)
    requires Filed(p) && NoDuplicates(p.order) && DifferentKeys(blocked)
    requires forall t :: t in blocked ==> TransitionKey(t) !in p.order
    ensures NoDuplicates(RaiseAll(p, blocked, at).order)
    ensures OrderGrows(p.order, blocked, RaiseAll(p, blocked, at).order)
    ensures RaiseAll(p, blocked, at).engine == p.engine
    ensures RaiseAll(p, blocked, at).history == p.history
  {
    if blocked != [] {
      var n := |blocked| - 1;
      var front, last := blocked[..n], blocked[n];
      assert forall i :: 0 <= i < n ==> front[i] == blocked[i];
      RaiseAllOnce(p, front, at);
      var before := RaiseAll(p, front, at);
      assert last in blocked;
    }
  }

  lemma EnterOnce(p: Replay, run: Run)
    requires RaisedOnce(p)
    ensures var entered := Enter(p, run);
            entered.engine.pending == p.engine.pending && entered.order == p.order && Filed(entered)
    ensures PendingOnce(Enter(p, run).engine, Ids(p.history), p.order)
  {
    var entered := Enter(p, run);
    assert forall node :: entered.engine.PendingAt(node) == p.engine.PendingAt(node);
  }

  lemma IdsAppend(runs: seq<Run>, run: Run)
    ensures Ids(runs + [run]) == Ids(runs) + {run.id}
  {
    var all := runs + [run];
    assert all[|runs|] == run;
    forall id | id in Ids(runs)
      ensures id in Ids(all)
    {
      var i :| 0 <= i < |runs| && runs[i].id == id;
      assert all[i].id == id;
    }
  }

  lemma ResolveOnce(cfg: Config, p: Replay, run: Run, st': EngineState, r: Option<Resolution>, ts: seq<Transition>,
                    ids: set<string>)
    requires SendsApart(cfg) && PendingOnce(p.engine, ids, p.order) && OrderKnown(ids, p.order) && Filed(p)
    requires Ids(p.history) == ids + {run.id} && run.id !in ids && forall id :: id in ids + {run.id} ==> NoArrow(id)
    requires Resolves(cfg, p.engine, p.history, run, st', r, ts) && r.Some?
    ensures RaisedOnce(RaiseAll(p.(engine := st'), r.value.blocked, CompletionTime(run)))
  {
    var hops := Evaluate(run.result, cfg.Outgoing(run.node)).value;
    var arrived, all := Arrived(p.engine, run, hops), ids + {run.id};
    assert TargetsApart(cfg, run);
    ArrivedOnce(p.engine, run, hops, ids, p.order);
    ReadyKeysDiffer(cfg, arrived, ts, all, p.order);
    RefusedKeysDiffer(cfg, p.history, ts);
    SplitKeepsAll(cfg, p.history, ts);
    var q := p.(engine := st');
    var q' := RaiseAll(q, r.value.blocked, CompletionTime(run));
    RaiseAllOnce(q, r.value.blocked, CompletionTime(run));
    RaiseAllFiles(q, r.value.blocked, CompletionTime(run));
    RefusedGrows(cfg, p.history, ts, p.order, q'.order);
    ConsumedOnce(cfg, arrived, ts, all, p.order, q'.order);
    forall key | key in q'.order
      ensures KeyKnown(all, key)
    {
      if key in p.order {
        assert KeyKnown(ids, key);
      } else {
        var i :| 0 <= i < |ts| && TransitionKey(ts[i]) == key;
        assert ts[i] in ts;
      }
    }
  }

  lemma RefusedGrows(cfg: Config, runs: seq<Run>, ts: seq<Transition>, order: seq<string>, order': seq<string>)
    requires OrderGrows(order, Refused(cfg, runs, ts), order')
    ensures OrderGrows(order, ts, order')
  {
    SplitKeepsAll(cfg, runs, ts);
    var refused := Refused(cfg, runs, ts);
    forall key | key in order' && key !in order
      ensures exists i :: 0 <= i < |ts| && TransitionKey(ts[i]) == key
    {
      var k :| 0 <= k < |refused| && TransitionKey(refused[k]) == key;
      assert refused[k] in ts;
      var i :| 0 <= i < |ts| && ts[i] == refused[k];
    }
  }

  lemma DoneRaisesOnce(cfg: Config, p: Replay, e: Event, p': Replay)
    requires SendsApart(cfg) && RaisedOnce(p) && e.run.status == Done && ReplayStep(cfg, p, e, p')
    requires e.run.id !in Ids(p.history) && NoArrow(e.run.id) && forall id :: id in Ids(p.history) ==> NoArrow(id)
    ensures RaisedOnce(p')
  {
    EnterOnce(p, e.run);
    IdsAppend(p.history, e.run);
    ResolveOnce(cfg, Enter(p, e.run), e.run, e.st, e.r, e.ts, Ids(p.history));
  }

  lemma StepKeepsHistory(cfg: Config, p: Replay, e: Event, p': Replay)
    requires ReplayStep(cfg, p, e, p')
    ensures p'.history == p.history + [e.run]
  {
    if e.run.status == Done {
      RaiseAllHistory(Enter(p, e.run).(engine := e.st), e.r.value.blocked, CompletionTime(e.run));
    }
  }

  lemma StepRaisesOnce(cfg: Config, p: Replay, e: Event, p': Replay)
    requires SendsApart(cfg) && RaisedOnce(p) && ReplayStep(cfg, p, e, p')
    requires e.run.id !in Ids(p.history) && NoArrow(e.run.id) && forall id :: id in Ids(p.history) ==> NoArrow(id)
    ensures RaisedOnce(p')
  {
    if e.run.status == Done {
      DoneRaisesOnce(cfg, p, e, p');
    } else {
      EnterOnce(p, e.run);
      IdsAppend(p.history, e.run);
    }
  }

  lemma {:induction false} RaiseAllHistory(p: Replay, blocked: seq<Transition>, at: int)
    ensures RaiseAll(p, blocked, at).history == p.history
    ensures RaiseAll(p, blocked, at).engine == p.engine
  {
    if blocked != [] {
      RaiseAllHistory(p, blocked[..|blocked| - 1], at);
    }
  }

  predicate WellNamed(runs: seq<Run>) {
    DistinctIds(runs) && forall i :: 0 <= i < |runs| ==> NoArrow(runs[i].id)
  }

  lemma {:induction false} ReplayRaisesOnce(cfg: Config, states: seq<Replay>, events: seq<Event>)
    requires SendsApart(cfg) && IsReplay(cfg, states, events) && WellNamed(RunsOf(events))
    ensures RaisedOnce(states[|events|])
    ensures states[|events|].history == RunsOf(events)
  {
    if events != [] {
      var n := |events| - 1;
      var front, last := RunsOf(events[..n]), events[n].run;
      assert RunsOf(events) == front + [last];
      FrontWellNamed(front, last);
      ReplayRaisesOnce(cfg, states[..n + 1], events[..n]);
      StepRaisesOnce(cfg, states[n], events[n], states[n + 1]);
      StepKeepsHistory(cfg, states[n], events[n], states[n + 1]);
    }
  }

  lemma FrontWellNamed(front: seq<Run>, last: Run)
    requires WellNamed(front + [last])
    ensures WellNamed(front)
    ensures last.id !in Ids(front)
    ensures NoArrow(last.id)
    ensures forall id :: id in Ids(front) ==> NoArrow(id)
  {
    var all := front + [last];
    assert all[|front|] == last;
    assert forall i :: 0 <= i < |front| ==> all[i] == front[i];
  }

  lemma SortedWellNamed(runs: seq<Run>)
    requires WellNamed(runs)
    ensures WellNamed(Sort(RunLe, runs))
  {
    var id := (r: Run) => r.id;
    assert DistinctBy(id, runs);
    SortKeeps(RunLe, runs);
    DistinctPermuted(id, runs, Sort(RunLe, runs));
    SortedHasSame(runs);
    var sorted := Sort(RunLe, runs);
    assert forall i, j :: 0 <= i < j < |sorted| ==> id(sorted[i]) != id(sorted[j]);
    forall i | 0 <= i < |sorted|
      ensures NoArrow(sorted[i].id)
    {
      assert sorted[i] in runs;
    }
  }

  predicate DifferentSteps(steps: seq<BlockedStep>) {
    forall i, j :: 0 <= i < j < |steps| ==> KeyOf(steps[i]) != KeyOf(steps[j])
  }

  lemma {:induction false} OpenStepsDiffer(open: map<string, BlockedStep>, order: seq<string>)
    requires NoDuplicates(order) && forall key :: key in open ==> KeyOf(open[key]) == key
    ensures DifferentSteps(OpenSteps(open, order))
  {
    if order != [] {
      var front, last := order[..|order| - 1], order[|order| - 1];
      assert forall i :: 0 <= i < |front| ==> front[i] == order[i];
      OpenStepsDiffer(open, front);
      var steps := OpenSteps(open, front);
      forall i | 0 <= i < |steps|
        ensures KeyOf(steps[i]) != last
      {
        OpenStepsMember(open, front, steps[i]);
      }
    }
  }

  lemma SortedStepsDiffer(steps: seq<BlockedStep>)
    requires DifferentSteps(steps)
    ensures DifferentSteps(Sort(StepLe, steps))
  {
    assert DistinctBy(KeyOf, steps);
    SortKeeps(StepLe, steps);
    DistinctPermuted(KeyOf, steps, Sort(StepLe, steps));
  }

  /** The order of the list: by the time of the completion, then by source and node. */
  lemma StepLeIff(a: BlockedStep, b: BlockedStep)
    ensures var s, t := a.trigger.runId + "->" + a.node, b.trigger.runId + "->" + b.node;
            StepLe(a, b) <==>
              || a.createdAt < b.createdAt
              || (a.createdAt == b.createdAt && (s <= t || exists k :: DiffersAt(s, t, k)))
  {
    StrLeIff(a.trigger.runId + "->" + a.node, b.trigger.runId + "->" + b.node);
  }

  /** The order of the replay: by the start stamp, then by the id. */
  lemma RunLeIff(a: Run, b: Run)
    ensures RunLe(a, b) <==>
              || a.startedAt < b.startedAt
              || (a.startedAt == b.startedAt && (a.id <= b.id || exists k :: DiffersAt(a.id, b.id, k)))
  {
    StrLeIff(a.id, b.id);
  }

  lemma StepLeIsOrder()
    ensures IsOrder(StepLe)
  {
    forall a, b
      ensures StepLe(a, b) || StepLe(b, a)
    {
      StrLeTotal(KeyOf(a), KeyOf(b));
    }
    forall a, b, c | StepLe(a, b) && StepLe(b, c)
      ensures StepLe(a, c)
    {
      if StrLe(KeyOf(a), KeyOf(b)) && StrLe(KeyOf(b), KeyOf(c)) {
        StrLeTransitive(KeyOf(a), KeyOf(b), KeyOf(c));
      }
    }
  }

  /** The steps come in the order of their times and keys, and no source and target comes twice. */
  lemma ListedOnceInOrder(cfg: Config, runs: seq<Run>, steps: Option<seq<BlockedStep>>)
    requires ConfigOk(cfg) && WellNamed(runs) && IsDerivation(cfg, runs, steps) && steps.Some?
    ensures SortedBy(StepLe, steps.value)
    ensures DifferentSteps(steps.value)
    ensures forall i, j :: 0 <= i < j < |steps.value| ==>
              steps.value[i].trigger.runId != steps.value[j].trigger.runId || steps.value[i].node != steps.value[j].node
  {
    var states: seq<Replay>, events: seq<Event> :| Derives(cfg, runs, states, events, steps);
    var p := states[|events|];
    SortedWellNamed(runs);
    ConfigSendsApart(cfg);
    ReplayRaisesOnce(cfg, states, events);
    OpenStepsDiffer(p.open, p.order);
    SortedStepsDiffer(OpenSteps(p.open, p.order));
    StepLeIsOrder();
    SortSorts(StepLe, OpenSteps(p.open, p.order));
  }
}
