/** No schedule exceeds a node's iteration limit by more than its forced runs, and every schedule ends. */
module ScheduleProofs {
  import opened Options
  import opened ConfigValues
  import opened TaskConfig
  import opened EdgeEvaluation
  import opened TaskRuns
  import opened TaskEngine
  import opened EngineObject
  import opened EngineProofs
  import opened TaskSchedule
  import opened Ordering

  // ----- one token for the whole task -----

  /** All that the engine knows carries the token `token`, and what waits was sent by known runs. */
  ghost predicate OneToken(cfg: Config, st: EngineState, token: string) {
    && (forall id :: id in st.runTokens ==> st.runTokens[id] == token)
    && (forall node, a :: a in st.PendingAt(node) ==> ArrivalKnown(cfg, st, node, a, token))
  }

  predicate ArrivalKnown(cfg: Config, st: EngineState, node: string, a: Arrival, token: string) {
    && a.token == token
    && a.fromRunId in st.runTokens
    && node in cfg.NodeNames()
    && IsEdgeReason(a.reason)
  }

  predicate IsEdgeReason(r: Reason) {
    r.EdgeTaken? || r.EdgeMatched? || r.EdgeElse?
  }

  predicate RunKnown(cfg: Config, st: EngineState, run: Run, token: string) {
    && run.id in st.runTokens
    && run.node in st.StartedUnder(token)
    && run.node in cfg.NodeNames()
    && (if run.trigger == None then run.id == token else run.trigger.value.runId in st.runTokens)
  }

  ghost predicate RunsKnown(cfg: Config, st: EngineState, runs: seq<Run>, token: string) {
    forall run :: run in runs ==> RunKnown(cfg, st, run, token)
  }

  /** Registering a known run again changes nothing. */
  lemma AgainIsNothing(cfg: Config, st: EngineState, run: Run, token: string)
    requires token != "" && OneToken(cfg, st, token) && RunKnown(cfg, st, run, token)
    ensures RegisterAgain(st, run) == st
  {
    assert st.runTokens[run.id := token] == st.runTokens;
    assert st.StartedUnder(token) + {run.node} == st.StartedUnder(token);
    assert st.started[token := st.StartedUnder(token)] == st.started;
  }

  lemma {:induction false} RebuildIsNothing(cfg: Config, st: EngineState, runs: seq<Run>, token: string)
    requires token != "" && OneToken(cfg, st, token) && RunsKnown(cfg, st, runs, token)
    ensures Rebuild(st, runs) == st
  {
    if runs != [] {
      RebuildIsNothing(cfg, st, runs[..|runs| - 1], token);
      AgainIsNothing(cfg, st, runs[|runs| - 1], token);
    }
  }

  lemma SortedRunsKnown(cfg: Config, st: EngineState, runs: seq<Run>, token: string)
    requires RunsKnown(cfg, st, runs, token)
    ensures RunsKnown(cfg, st, Sort(RunLe, runs), token)
  {
    SortKeeps(RunLe, runs);
    forall run | run in Sort(RunLe, runs)
      ensures run in runs
    {
      assert run in multiset(Sort(RunLe, runs));
    }
  }

  /** A new run whose trigger is known joins the same token. */
  lemma NewRunKnown(cfg: Config, st: EngineState, runs: seq<Run>, run: Run, token: string)
    requires token != "" && OneToken(cfg, st, token) && RunsKnown(cfg, st, runs, token)
    requires run.node in cfg.NodeNames() && run.trigger.Some? && run.trigger.value.runId in st.runTokens
    ensures var st' := RegisterAgain(st, run);
            OneToken(cfg, st', token) && RunsKnown(cfg, st', runs + [run], token)
    ensures st.runTokens.Keys <= RegisterAgain(st, run).runTokens.Keys
  {
    var st' := RegisterAgain(st, run);
    assert st' == st.Register(run.id, run.node, token);
    forall node, a | a in st'.PendingAt(node)
      ensures ArrivalKnown(cfg, st', node, a, token)
    {
      assert ArrivalKnown(cfg, st, node, a, token);
    }
    forall r | r in runs + [run]
      ensures RunKnown(cfg, st', r, token)
    {
      if r in runs {
        assert RunKnown(cfg, st, r, token);
      }
    }
  }

  // ----- resolving under one token -----

  /** Hops lead to declared nodes, for an edge's reason. */
  predicate HopsDeclared(cfg: Config, hops: seq<Hop>) {
    forall h :: h in hops ==> h.to in cfg.NodeNames() && IsEdgeReason(h.reason)
  }

  lemma {:induction false} MatchedHaveEdgeReasons(result: Option<map<string, Value>>, edges: seq<Edge>)
    ensures forall h :: h in MatchedHops(result, edges) ==> IsEdgeReason(h.reason)
  {
    if edges != [] {
      MatchedHaveEdgeReasons(result, edges[..|edges| - 1]);
    }
  }

  lemma HopsHaveEdgeReasons(result: Option<map<string, Value>>, edges: seq<Edge>)
    requires Evaluate(result, edges).Some?
    ensures forall h :: h in Evaluate(result, edges).value ==> IsEdgeReason(h.reason)
  {
    MatchedHaveEdgeReasons(result, edges);
  }

  lemma TargetsDeclared(cfg: Config, run: Run)
    requires EdgesOk(cfg.edges, cfg.NodeNames()) && Evaluate(run.result, cfg.Outgoing(run.node)).Some?
    ensures HopsDeclared(cfg, Evaluate(run.result, cfg.Outgoing(run.node)).value)
  {
    HopsUseEdges(cfg, run);
    HopsHaveEdgeReasons(run.result, cfg.Outgoing(run.node));
    forall h | h in Evaluate(run.result, cfg.Outgoing(run.node)).value
      ensures h.to in cfg.NodeNames()
    {
      var e :| e in cfg.edges && e.from == run.node && e.to == h.to;
      var k :| 0 <= k < |cfg.edges| && cfg.edges[k] == e;
      assert cfg.edges[k].to in cfg.NodeNames();
    }
  }

  lemma ArriveKeepsToken(cfg: Config, st: EngineState, hops: seq<Hop>, token: string, run: Run)
    requires OneToken(cfg, st, token) && run.id in st.runTokens
    requires HopsDeclared(cfg, hops)
    ensures OneToken(cfg, st.Arrive(hops, token, run), token)
    ensures st.Arrive(hops, token, run).runTokens == st.runTokens
    ensures st.Arrive(hops, token, run).started == st.started
  {
    var st' := st.Arrive(hops, token, run);
    ArriveAdds(st, hops, token, run, "");
    forall node, a | a in st'.PendingAt(node)
      ensures ArrivalKnown(cfg, st', node, a, token)
    {
      ArriveAdds(st, hops, token, run, node);
      if a in st.PendingAt(node) {
        assert ArrivalKnown(cfg, st, node, a, token);
      } else {
        SentByAHop(hops, token, run, node, a);
      }
    }
  }

  lemma ConsumedKeepsToken(cfg: Config, st: EngineState, token: string)
    requires OneToken(cfg, st, token)
    ensures OneToken(cfg, st.Consumed(cfg), token)
  {
    forall node, a | a in st.Consumed(cfg).PendingAt(node)
      ensures ArrivalKnown(cfg, st.Consumed(cfg), node, a, token)
    {
      ConsumedPending(cfg, st, node);
      RestIsPart(st.PendingAt(node), st.ReadyTokens(cfg, node));
      assert ArrivalKnown(cfg, st, node, a, token);
    }
  }

  /** A transition goes to a declared node under the one token, and a known run triggers it. */
  predicate TransitionKnown(cfg: Config, st: EngineState, t: Transition, token: string) {
    && t.token == token
    && t.to in cfg.NodeNames()
    && t.trigger.runId in st.runTokens
    && IsEdgeReason(t.trigger.reason)
  }

  lemma ReadyKnown(cfg: Config, st: EngineState, node: string, t: string, token: string)
    requires OneToken(cfg, st, token) && st.Ready(cfg, node, t)
    ensures TransitionKnown(cfg, st, st.TransitionOf(node, t), token)
  {
    GroupMember(st.PendingAt(node), t);
    var first := Group(st.PendingAt(node), t)[0];
    assert first in Group(st.PendingAt(node), t);
    assert ArrivalKnown(cfg, st, node, first, token);
  }

  /** Under one token a resolution has at most one transition to each node. */
  lemma ResolvedUnderToken(cfg: Config, st: EngineState, runs: seq<Run>, run: Run, st': EngineState,
                           r: Option<Resolution>, ts: seq<Transition>, token: string)
    requires EdgesOk(cfg.edges, cfg.NodeNames()) && token != "" && OneToken(cfg, st, token) && run.id in st.runTokens
    requires Resolves(cfg, st, runs, run, st', r, ts)
    ensures OneToken(cfg, st', token)
    ensures st'.runTokens == st.runTokens
    ensures st'.started == st.started
    ensures r.Some? ==>
              && (forall t :: t in ts ==> TransitionKnown(cfg, st', t, token))
              && (forall i, j :: 0 <= i < j < |ts| ==> ts[i].to != ts[j].to)
  {
    if r.Some? {
      var hops := Evaluate(run.result, cfg.Outgoing(run.node)).value;
      var arrived := st.Arrive(hops, token, run);
      assert st.TokenOf(run.id) == token;
      TargetsDeclared(cfg, run);
      ArriveKeepsToken(cfg, st, hops, token, run);
      ConsumedKeepsToken(cfg, arrived, token);
      forall i | 0 <= i < |ts|
        ensures TransitionKnown(cfg, arrived, ts[i], token)
      {
        ReadyKnown(cfg, arrived, ts[i].to, ts[i].token, token);
      }
    }
  }

  // ----- counting transitions and runs -----

  lemma {:induction false} CountToDistinct(ts: seq<Transition>, node: string)
    requires forall i, j :: 0 <= i < j < |ts| ==> ts[i].to != ts[j].to
    ensures CountTo(ts, node) <= 1
    ensures CountTo(ts, node) > 0 ==> exists i :: 0 <= i < |ts| && ts[i].to == node
  {
    if ts != [] {
      var front := ts[..|ts| - 1];
      assert forall i :: 0 <= i < |front| ==> front[i] == ts[i];
      CountToDistinct(front, node);
      if CountTo(front, node) > 0 {
        var i :| 0 <= i < |front| && front[i].to == node;
        assert ts[i].to == node;
      }
    }
  }

  lemma {:induction false} AdmittedCount(cfg: Config, runs: seq<Run>, ts: seq<Transition>, node: string)
    ensures CountTo(Admitted(cfg, runs, ts), node)
            == if ExceedsIterations(cfg, runs, node) then 0 else CountTo(ts, node)
  {
    if ts != [] {
      var front, last := ts[..|ts| - 1], ts[|ts| - 1];
      AdmittedCount(cfg, runs, front, node);
      assert CountTo(ts, node) == CountTo(front, node) + (if last.to == node then 1 else 0);
      if !ExceedsIterations(cfg, runs, last.to) {
        assert (Admitted(cfg, runs, front) + [last])[..|Admitted(cfg, runs, front)|] == Admitted(cfg, runs, front);
      } else {
        assert Admitted(cfg, runs, ts) == Admitted(cfg, runs, front);
      }
    }
  }

  lemma {:induction false} AddedCount(order: seq<Transition>, added: seq<Run>, node: string)
    requires |added| == |order| && forall k :: 0 <= k < |order| ==> added[k].node == order[k].to
    ensures IterationCount(added, node) == CountTo(order, node)
  {
    if order != [] {
      var n := |order| - 1;
      assert forall k :: 0 <= k < n ==> added[..n][k].node == order[..n][k].to;
      AddedCount(order[..n], added[..n], node);
      assert added[n].node == order[n].to;
    }
  }

  lemma {:induction false} IterationsAreCount(runs: seq<Run>, node: string, p: Run -> bool)
    requires forall r :: p(r) == (r.node == node)
    ensures IterationCount(runs, node) == Count(p, runs)
  {
    if runs != [] {
      IterationsAreCount(runs[..|runs| - 1], node, p);
    }
  }

  lemma SortedIterations(runs: seq<Run>, node: string)
    ensures IterationCount(Sort(RunLe, runs), node) == IterationCount(runs, node)
  {
    var p := (r: Run) => r.node == node;
    IterationsAreCount(runs, node, p);
    IterationsAreCount(Sort(RunLe, runs), node, p);
    SortKeeps(RunLe, runs);
    CountSame(p, runs, Sort(RunLe, runs));
  }

  lemma {:induction false} IterationsAppend(runs: seq<Run>, more: seq<Run>, node: string)
    ensures IterationCount(runs + more, node) == IterationCount(runs, node) + IterationCount(more, node)
    ensures ForcedCount(runs + more, node) == ForcedCount(runs, node) + ForcedCount(more, node)
  {
    if more == [] {
      assert runs + more == runs;
    } else {
      var front := more[..|more| - 1];
      assert (runs + more)[..|runs + more| - 1] == runs + front;
      IterationsAppend(runs, front, node);
    }
  }

  /** The runs that a resolution starts are at most one for a node, and none for a node at its limit. */
  lemma StartedWithinLimit(cfg: Config, runs: seq<Run>, ts: seq<Transition>, order: seq<Transition>, added: seq<Run>,
                           node: string)
    requires forall i, j :: 0 <= i < j < |ts| ==> ts[i].to != ts[j].to
    requires Starts(cfg, Admitted(cfg, Sort(RunLe, runs), ts), order, added)
    ensures IterationCount(added, node) <= if IterationCount(runs, node) >= MaxIterations(cfg, node) then 0 else 1
  {
    var seen := Sort(RunLe, runs);
    AddedCount(order, added, node);
    assert CountTo(order, node) == CountTo(Admitted(cfg, seen, ts), node) by {
      SameCountTo(order, Admitted(cfg, seen, ts), node);
    }
    AdmittedCount(cfg, seen, ts, node);
    CountToDistinct(ts, node);
    SortedIterations(runs, node);
  }

  lemma SameCountTo(a: seq<Transition>, b: seq<Transition>, node: string)
    requires multiset(a) == multiset(b)
    ensures CountTo(a, node) == CountTo(b, node)
  {
    CountSame((t: Transition) => t.to == node, a, b);
  }

  // ----- the invariant of every schedule -----

  predicate WithinLimit(cfg: Config, runs: seq<Run>, node: string) {
    IterationCount(runs, node) <= MaxIterations(cfg, node) + ForcedCount(runs, node)
  }

  ghost predicate AllWithinLimit(cfg: Config, runs: seq<Run>) {
    forall node :: WithinLimit(cfg, runs, node)
  }

  /** What is unresolved is done. */
  predicate UnresolvedDone(runs: seq<Run>, unresolved: set<nat>) {
    forall i :: i in unresolved ==> i < |runs| && runs[i].status == Done
  }

  ghost predicate TokensOk(cfg: Config, s: System) {
    && s.runs != [] && s.runs[0].id != ""
    && OneToken(cfg, s.engine, s.runs[0].id)
    && RunsKnown(cfg, s.engine, s.runs, s.runs[0].id)
  }

  ghost predicate Inv(cfg: Config, s: System) {
    && TokensOk(cfg, s)
    && AllWithinLimit(cfg, s.runs)
    && UnresolvedDone(s.runs, s.unresolved)
  }

  predicate SameRun(a: Run, b: Run) {
    && a.id == b.id
    && a.node == b.node
    && a.trigger == b.trigger
  }

  lemma {:induction false} UpdateKeepsCounts(runs: seq<Run>, i: nat, run: Run, node: string)
    requires i < |runs| && SameRun(runs[i], run)
    ensures IterationCount(runs[i := run], node) == IterationCount(runs, node)
    ensures ForcedCount(runs[i := run], node) == ForcedCount(runs, node)
  {
    var n := |runs| - 1;
    if i < n {
      assert runs[i := run][..n] == runs[..n][i := run];
      UpdateKeepsCounts(runs[..n], i, run, node);
    } else {
      assert runs[i := run][..n] == runs[..n];
    }
  }

  lemma UpdateKeepsLimits(cfg: Config, runs: seq<Run>, i: nat, run: Run)
    requires AllWithinLimit(cfg, runs) && i < |runs| && SameRun(runs[i], run)
    ensures AllWithinLimit(cfg, runs[i := run])
  {
    var now := runs[i := run];
    forall node
      ensures WithinLimit(cfg, now, node)
    {
      assert WithinLimit(cfg, runs, node);
      UpdateKeepsCounts(runs, i, run, node);
    }
  }

  lemma UpdateKeepsTokens(cfg: Config, s: System, i: nat, run: Run)
    requires TokensOk(cfg, s) && i < |s.runs| && SameRun(s.runs[i], run)
    ensures TokensOk(cfg, s.(runs := s.runs[i := run]))
  {
    assert RunKnown(cfg, s.engine, s.runs[i], s.runs[0].id);
  }

  lemma KnownIsEngine(cfg: Config, s: System, id: string)
    requires TokensOk(cfg, s)
    ensures Known(s, id) == s.engine
  {
    SortedRunsKnown(cfg, s.engine, s.runs, s.runs[0].id);
    RebuildIsNothing(cfg, s.engine, Sort(RunLe, s.runs), s.runs[0].id);
  }

  // ----- adding runs -----

  lemma AddRunKeepsTokens(cfg: Config, s: System, run: Run)
    requires TokensOk(cfg, s) && run.node in cfg.NodeNames()
    requires run.trigger.Some? && run.trigger.value.runId in s.engine.runTokens
    ensures TokensOk(cfg, AddRun(s, run))
    ensures s.engine.runTokens.Keys <= AddRun(s, run).engine.runTokens.Keys
  {
    NewRunKnown(cfg, s.engine, s.runs, run, s.runs[0].id);
    assert (s.runs + [run])[0] == s.runs[0];
  }

  /** The runs may be added to a system that knows their triggers. */
  predicate Addable(cfg: Config, s: System, added: seq<Run>) {
    forall k :: 0 <= k < |added| ==>
      && added[k].node in cfg.NodeNames()
      && IsFresh(cfg, added[k])
      && added[k].trigger.Some?
      && added[k].trigger.value.runId in s.engine.runTokens
      && IsEdgeReason(added[k].trigger.value.reason)
  }

  lemma {:induction false} AddRunsKeepsTokens(cfg: Config, s: System, added: seq<Run>)
    requires TokensOk(cfg, s) && Addable(cfg, s, added)
    ensures TokensOk(cfg, AddRuns(s, added))
    ensures AddRuns(s, added).runs == s.runs + added
    ensures s.engine.runTokens.Keys <= AddRuns(s, added).engine.runTokens.Keys
  {
    if added != [] {
      var front, last := added[..|added| - 1], added[|added| - 1];
      AddRunsKeepsTokens(cfg, s, front);
      AddRunKeepsTokens(cfg, AddRuns(s, front), last);
      assert s.runs + front + [last] == s.runs + added;
    }
  }

  lemma {:induction false} AddRunsKeepsUnresolved(cfg: Config, s: System, added: seq<Run>)
    requires UnresolvedDone(s.runs, s.unresolved) && Addable(cfg, s, added)
    ensures UnresolvedDone(AddRuns(s, added).runs, AddRuns(s, added).unresolved)
  {
    if added != [] {
      AddRunsKeepsUnresolved(cfg, s, added[..|added| - 1]);
    }
  }

  lemma OneRun(run: Run, node: string)
    ensures IterationCount([run], node) == if run.node == node then 1 else 0
    ensures ForcedCount([run], node) == if run.node == node && IsForced(run) then 1 else 0
  {
    assert [run][..0] == [];
  }

  lemma AddRunKeepsLimits(cfg: Config, runs: seq<Run>, run: Run)
    requires AllWithinLimit(cfg, runs)
    requires IsForced(run) || IterationCount(runs, run.node) + 1 <= MaxIterations(cfg, run.node)
    ensures AllWithinLimit(cfg, runs + [run])
  {
    forall node
      ensures WithinLimit(cfg, runs + [run], node)
    {
      assert WithinLimit(cfg, runs, node);
      IterationsAppend(runs, [run], node);
      OneRun(run, node);
    }
  }

  // ----- each step keeps it -----

  lemma InitialInv(cfg: Config, s: System)
    requires GraphOk(cfg) && Initial(cfg, s)
    ensures Inv(cfg, s)
  {
    var entry := s.runs[0];
    assert s.runs == [entry];
    assert s.engine.StartedUnder(entry.id) == {entry.node};
    forall node
      ensures WithinLimit(cfg, s.runs, node)
    {
      LimitIsPositive(cfg.nodes, node, cfg.maxIterations);
      OneRun(entry, node);
    }
  }

  /** A step that changes one run without touching what it is. */
  ghost predicate Progresses(s: System, a: Action, s': System) {
    && a.i < |s.runs| == |s'.runs|
    && var run := s'.runs[a.i];
    && s' == System(s.runs[a.i := run], s.engine, s'.unresolved)
    && SameRun(s.runs[a.i], run)
    && (forall k :: k != a.i ==> (k in s'.unresolved <==> k in s.unresolved))
    && (a.i in s'.unresolved ==> run.status == Done)
    && Weight(run, a.i in s'.unresolved) <= Weight(s.runs[a.i], a.i in s.unresolved) + Gain(a)
  }

  lemma ProgressFacts(cfg: Config, s: System, a: Action, s': System)
    requires UnresolvedDone(s.runs, s.unresolved) && a.i < |s.runs| && ProgressStep(cfg, s, a, s')
    ensures Progresses(s, a, s')
  {
  }

  lemma ProgressKeepsInv(cfg: Config, s: System, a: Action, s': System)
    requires Inv(cfg, s) && Progresses(s, a, s')
    ensures Inv(cfg, s')
  {
    UpdateKeepsLimits(cfg, s.runs, a.i, s'.runs[a.i]);
    UpdateKeepsTokens(cfg, s, a.i, s'.runs[a.i]);
  }

  /** What a resolution comes to: the run fails, or runs are added that respect the limits. */
  ghost predicate Settles(cfg: Config, s: System, a: Action, s': System) {
    && a.Resolve?
    && a.i < |s.runs|
    && a.i in s.unresolved
    && TokensOk(cfg, Settled(s, a))
    && if a.r == None then
         && |s'.runs| == |s.runs|
         && s'.runs[a.i].status == Failed
         && SameRun(s.runs[a.i], s'.runs[a.i])
         && s' == Settled(s, a).(runs := s.runs[a.i := s'.runs[a.i]])
       else
         && Addable(cfg, Settled(s, a), a.added)
         && s' == AddRuns(Settled(s, a), a.added)
         && forall node :: AddsWithinLimit(cfg, s.runs, a.added, node)
  }

  predicate AddsWithinLimit(cfg: Config, runs: seq<Run>, added: seq<Run>, node: string) {
    IterationCount(added, node) <= if IterationCount(runs, node) >= MaxIterations(cfg, node) then 0 else 1
  }

  lemma SettledTokens(cfg: Config, s: System, a: Action)
    requires EdgesOk(cfg.edges, cfg.NodeNames()) && TokensOk(cfg, s) && a.Resolve? && a.i < |s.runs|
    requires var seen := Sort(RunLe, s.runs);
             Resolves(cfg, Rebuild(s.engine, seen), seen, s.runs[a.i], a.st, a.r, a.ts)
    ensures TokensOk(cfg, Settled(s, a))
    ensures a.r.Some? ==>
              && (forall t :: t in a.ts ==> TransitionKnown(cfg, a.st, t, s.runs[0].id))
              && (forall i, j :: 0 <= i < j < |a.ts| ==> a.ts[i].to != a.ts[j].to)
  {
    var token, seen, run := s.runs[0].id, Sort(RunLe, s.runs), s.runs[a.i];
    SortedRunsKnown(cfg, s.engine, s.runs, token);
    RebuildIsNothing(cfg, s.engine, seen, token);
    assert RunKnown(cfg, s.engine, run, token);
    ResolvedUnderToken(cfg, s.engine, seen, run, a.st, a.r, a.ts, token);
    forall r | r in s.runs
      ensures RunKnown(cfg, a.st, r, token)
    {
      assert RunKnown(cfg, s.engine, r, token);
    }
  }

  lemma AdmittedKnown(cfg: Config, s: System, a: Action, token: string)
    requires a.Resolve? && a.r.Some? && Starts(cfg, a.r.value.transitions, a.order, a.added)
    requires a.r.value.transitions == Admitted(cfg, Sort(RunLe, s.runs), a.ts)
    requires forall t :: t in a.ts ==> TransitionKnown(cfg, a.st, t, token)
    ensures Addable(cfg, Settled(s, a), a.added)
  {
    SplitKeepsAll(cfg, Sort(RunLe, s.runs), a.ts);
    forall k | 0 <= k < |a.added|
      ensures TransitionKnown(cfg, a.st, a.order[k], token)
    {
      assert a.order[k] in multiset(a.order);
      assert a.order[k] in a.r.value.transitions;
    }
  }

  lemma ResolveFacts(cfg: Config, s: System, a: Action, s': System)
    requires EdgesOk(cfg.edges, cfg.NodeNames()) && TokensOk(cfg, s)
    requires a.Resolve? && a.i < |s.runs| && ResolveStep(cfg, s, a, s')
    ensures Settles(cfg, s, a, s')
  {
    SettledTokens(cfg, s, a);
    if a.r.Some? {
      AdmittedKnown(cfg, s, a, s.runs[0].id);
      forall node
        ensures AddsWithinLimit(cfg, s.runs, a.added, node)
      {
        StartedWithinLimit(cfg, s.runs, a.ts, a.order, a.added, node);
      }
    }
  }

  lemma ResolveKeepsInv(cfg: Config, s: System, a: Action, s': System)
    requires Inv(cfg, s) && Settles(cfg, s, a, s')
    ensures Inv(cfg, s')
  {
    if a.r == None {
      UpdateKeepsLimits(cfg, s.runs, a.i, s'.runs[a.i]);
      UpdateKeepsTokens(cfg, Settled(s, a), a.i, s'.runs[a.i]);
    } else {
      AddRunsKeepsTokens(cfg, Settled(s, a), a.added);
      AddRunsKeepsUnresolved(cfg, Settled(s, a), a.added);
      forall node
        ensures WithinLimit(cfg, s'.runs, node)
      {
        assert WithinLimit(cfg, s.runs, node) && AddsWithinLimit(cfg, s.runs, a.added, node);
        IterationsAppend(s.runs, a.added, node);
      }
    }
  }

  /** A manual step adds one run, forced or within the limit. */
  predicate AddsOne(cfg: Config, s: System, run: Run, s': System) {
    && s' == AddRun(s, run)
    && run.node in cfg.NodeNames()
    && IsFresh(cfg, run)
    && run.trigger.Some?
    && run.trigger.value.runId in s.engine.runTokens
    && (IsForced(run) || IterationCount(s.runs, run.node) + 1 <= MaxIterations(cfg, run.node))
  }

  lemma ManualFacts(cfg: Config, s: System, a: Action, s': System)
    requires TokensOk(cfg, s) && a.i < |s.runs|
    requires (a.Retry? && RetryStep(cfg, s, a, s')) || (a.Force? && ForceStep(cfg, s, a, s'))
    ensures AddsOne(cfg, s, a.run, s')
    ensures (a.Retry? ==> !IsForced(a.run))
  {
    KnownIsEngine(cfg, s, s.runs[a.i].id);
    assert RunKnown(cfg, s.engine, s.runs[a.i], s.runs[0].id);
    assert s.(engine := s.engine) == s;
  }

  lemma ManualKeepsInv(cfg: Config, s: System, run: Run, s': System)
    requires Inv(cfg, s) && AddsOne(cfg, s, run, s')
    ensures Inv(cfg, s')
  {
    AddRunKeepsTokens(cfg, s, run);
    AddRunKeepsLimits(cfg, s.runs, run);
  }

  lemma StepKeepsInv(cfg: Config, s: System, a: Action, s': System)
    requires GraphOk(cfg) && Inv(cfg, s) && Step(cfg, s, a, s')
    ensures Inv(cfg, s')
  {
    if a.Resolve? {
      ResolveFacts(cfg, s, a, s');
      ResolveKeepsInv(cfg, s, a, s');
    } else if a.Retry? || a.Force? {
      ManualFacts(cfg, s, a, s');
      ManualKeepsInv(cfg, s, a.run, s');
    } else {
      ProgressFacts(cfg, s, a, s');
      ProgressKeepsInv(cfg, s, a, s');
    }
  }

  lemma {:induction false} ScheduleKeepsInv(cfg: Config, states: seq<System>, actions: seq<Action>)
    requires GraphOk(cfg) && IsSchedule(cfg, states, actions)
    ensures Inv(cfg, states[|actions|])
  {
    if actions == [] {
      InitialInv(cfg, states[0]);
    } else {
      var n := |actions| - 1;
      ScheduleKeepsInv(cfg, states[..n + 1], actions[..n]);
      StepKeepsInv(cfg, states[n], actions[n], states[n + 1]);
    }
  }

  /** In no schedule does a node get more runs than its limit, apart from those that were forced. */
  lemma IterationsStayWithinLimit(cfg: Config, states: seq<System>, actions: seq<Action>, node: string)
    requires GraphOk(cfg) && IsSchedule(cfg, states, actions)
    ensures var runs := states[|actions|].runs;
            IterationCount(runs, node) <= MaxIterations(cfg, node) + ForcedCount(runs, node)
  {
    ScheduleKeepsInv(cfg, states, actions);
    assert WithinLimit(cfg, states[|actions|].runs, node);
  }

  // ----- agents always find an edge -----

  predicate ResultOk(cfg: Config, run: Run) {
    IsAgent(cfg, run.node) ==> run.result.Some? && Accepts(cfg.defs[run.node].schema, Obj(run.result.value))
  }

  predicate ResultsOk(cfg: Config, s: System) {
    forall i :: i in s.unresolved && i < |s.runs| ==> ResultOk(cfg, s.runs[i])
  }

  lemma {:induction false} AddRunsKeepsResults(cfg: Config, s: System, added: seq<Run>)
    requires ResultsOk(cfg, s) && UnresolvedDone(s.runs, s.unresolved)
    requires forall k :: 0 <= k < |added| ==> IsFresh(cfg, added[k])
    ensures ResultsOk(cfg, AddRuns(s, added))
    ensures UnresolvedDone(AddRuns(s, added).runs, AddRuns(s, added).unresolved)
  {
    if added != [] {
      AddRunsKeepsResults(cfg, s, added[..|added| - 1]);
    }
  }

  lemma StepKeepsResults(cfg: Config, s: System, a: Action, s': System)
    requires UnresolvedDone(s.runs, s.unresolved) && ResultsOk(cfg, s) && Step(cfg, s, a, s')
    ensures ResultsOk(cfg, s')
  {
    if a.Resolve? {
      if a.r.Some? {
        AddRunsKeepsResults(cfg, Settled(s, a), a.added);
      }
    } else if a.Retry? || a.Force? {
      assert AddRuns(s.(engine := Known(s, s.runs[a.i].id)), []) == s.(engine := Known(s, s.runs[a.i].id));
    }
  }

  lemma UnresolvedAreDone(cfg: Config, states: seq<System>, actions: seq<Action>)
    requires GraphOk(cfg) && IsSchedule(cfg, states, actions)
    ensures UnresolvedDone(states[|actions|].runs, states[|actions|].unresolved)
  {
    ScheduleKeepsInv(cfg, states, actions);
  }

  lemma {:induction false} ScheduleKeepsResults(cfg: Config, states: seq<System>, actions: seq<Action>)
    requires GraphOk(cfg) && IsSchedule(cfg, states, actions)
    ensures ResultsOk(cfg, states[|actions|])
  {
    if actions != [] {
      var n := |actions| - 1;
      ScheduleKeepsResults(cfg, states[..n + 1], actions[..n]);
      UnresolvedAreDone(cfg, states[..n + 1], actions[..n]);
      StepKeepsResults(cfg, states[n], actions[n], states[n + 1]);
    }
  }

  /** Resolving an agent's completion never fails in a schedule of a validated configuration. */
  lemma AgentCompletionsResolve(cfg: Config, states: seq<System>, actions: seq<Action>, s: System, a: Action,
                                s': System)
    requires ConfigOk(cfg) && IsSchedule(cfg, states, actions) && s == states[|actions|]
    requires a.Resolve? && Step(cfg, s, a, s') && IsAgent(cfg, s.runs[a.i].node)
    ensures a.r.Some?
  {
    ScheduleKeepsResults(cfg, states, actions);
    var run := s.runs[a.i];
    assert ResultOk(cfg, run);
    ValidatedAgentEvaluates(cfg, run.node, run.result.value);
  }

  // ----- every schedule ends -----

  /** The steps a run may still take. */
  function Weight(run: Run, unresolved: bool): nat {
    match run.status
    case Running => 3
    case AwaitingUser => 2
    case Done => if unresolved then 1 else 0
    case Failed => 0
  }

  function Load(runs: seq<Run>, unresolved: set<nat>): nat {
    if runs == [] then 0
    else Load(runs[..|runs| - 1], unresolved) + Weight(runs[|runs| - 1], |runs| - 1 in unresolved)
  }

  /** How many more runs the limits allow, over all nodes. */
  function Room(cfg: Config, nodes: seq<NodeRef>, runs: seq<Run>): int {
    if nodes == [] then 0
    else
      var name := nodes[0].name;
      Room(cfg, nodes[1..], runs) + MaxIterations(cfg, name) + ForcedCount(runs, name) - IterationCount(runs, name)
  }

  function Measure(cfg: Config, s: System): int {
    4 * Room(cfg, cfg.nodes, s.runs) + Load(s.runs, s.unresolved)
  }

  lemma {:induction false} RoomIsNat(cfg: Config, nodes: seq<NodeRef>, runs: seq<Run>)
    requires AllWithinLimit(cfg, runs)
    ensures Room(cfg, nodes, runs) >= 0
  {
    if nodes != [] {
      RoomIsNat(cfg, nodes[1..], runs);
      assert WithinLimit(cfg, runs, nodes[0].name);
    }
  }

  lemma {:induction false} RoomUpdate(cfg: Config, nodes: seq<NodeRef>, runs: seq<Run>, i: nat, run: Run)
    requires i < |runs| && SameRun(runs[i], run)
    ensures Room(cfg, nodes, runs[i := run]) == Room(cfg, nodes, runs)
  {
    if nodes != [] {
      RoomUpdate(cfg, nodes[1..], runs, i, run);
      UpdateKeepsCounts(runs, i, run, nodes[0].name);
    }
  }

  lemma {:induction false} RoomAdd(cfg: Config, nodes: seq<NodeRef>, runs: seq<Run>, run: Run)
    ensures Room(cfg, nodes, runs + [run]) <= Room(cfg, nodes, runs)
    ensures !IsForced(run) && (exists k :: 0 <= k < |nodes| && nodes[k].name == run.node) ==>
              Room(cfg, nodes, runs + [run]) < Room(cfg, nodes, runs)
  {
    if nodes != [] {
      RoomAdd(cfg, nodes[1..], runs, run);
      IterationsAppend(runs, [run], nodes[0].name);
      OneRun(run, nodes[0].name);
      if k :| 0 < k < |nodes| && nodes[k].name == run.node {
        assert nodes[1..][k - 1].name == run.node;
      }
    }
  }

  lemma {:induction false} LoadUpdate(runs: seq<Run>, unresolved: set<nat>, i: nat, run: Run, now: set<nat>)
    requires i < |runs| && forall k :: k != i ==> (k in now <==> k in unresolved)
    ensures Load(runs[i := run], now) ==
            Load(runs, unresolved) - Weight(runs[i], i in unresolved) + Weight(run, i in now)
  {
    var n := |runs| - 1;
    if i < n {
      assert runs[i := run][..n] == runs[..n][i := run];
      LoadUpdate(runs[..n], unresolved, i, run, now);
    } else {
      assert runs[i := run][..n] == runs[..n];
      LoadPrefix(runs[..n], unresolved, now);
    }
  }

  lemma {:induction false} LoadPrefix(runs: seq<Run>, unresolved: set<nat>, now: set<nat>)
    requires forall k :: k < |runs| ==> (k in now <==> k in unresolved)
    ensures Load(runs, now) == Load(runs, unresolved)
  {
    if runs != [] {
      LoadPrefix(runs[..|runs| - 1], unresolved, now);
    }
  }

  lemma AddRunMeasure(cfg: Config, s: System, run: Run)
    requires UnresolvedDone(s.runs, s.unresolved) && run.node in cfg.NodeNames()
    ensures Measure(cfg, AddRun(s, run)) <= Measure(cfg, s) + (if IsForced(run) then 3 else -1)
  {
    RoomAdd(cfg, cfg.nodes, s.runs, run);
    LoadPrefix(s.runs, s.unresolved, AddRun(s, run).unresolved);
    assert (s.runs + [run])[..|s.runs|] == s.runs;
  }

  lemma {:induction false} AddRunsMeasure(cfg: Config, s: System, added: seq<Run>)
    requires UnresolvedDone(s.runs, s.unresolved) && Addable(cfg, s, added)
    ensures Measure(cfg, AddRuns(s, added)) <= Measure(cfg, s)
  {
    if added != [] {
      var front, last := added[..|added| - 1], added[|added| - 1];
      AddRunsMeasure(cfg, s, front);
      AddRunsKeepsUnresolved(cfg, s, front);
      assert added[|added| - 1] == last;
      AddRunMeasure(cfg, AddRuns(s, front), last);
    }
  }

  /** What a step adds to the measure at most. */
  function Gain(a: Action): int {
    if a.Force? then 3 else if a.Answer? then 1 else -1
  }

  lemma ResolveMeasure(cfg: Config, s: System, a: Action, s': System)
    requires UnresolvedDone(s.runs, s.unresolved) && Settles(cfg, s, a, s')
    ensures Measure(cfg, s') <= Measure(cfg, s) - 1
  {
    if a.r == None {
      LoadUpdate(s.runs, s.unresolved, a.i, s'.runs[a.i], s'.unresolved);
      RoomUpdate(cfg, cfg.nodes, s.runs, a.i, s'.runs[a.i]);
    } else {
      LoadUpdate(s.runs, s.unresolved, a.i, s.runs[a.i], Settled(s, a).unresolved);
      assert s.runs[a.i := s.runs[a.i]] == s.runs;
      AddRunsMeasure(cfg, Settled(s, a), a.added);
    }
  }

  lemma ProgressMeasure(cfg: Config, s: System, a: Action, s': System)
    requires Progresses(s, a, s')
    ensures Measure(cfg, s') <= Measure(cfg, s) + Gain(a)
  {
    LoadUpdate(s.runs, s.unresolved, a.i, s'.runs[a.i], s'.unresolved);
    RoomUpdate(cfg, cfg.nodes, s.runs, a.i, s'.runs[a.i]);
  }

  lemma StepMeasure(cfg: Config, s: System, a: Action, s': System)
    requires GraphOk(cfg) && Inv(cfg, s) && Step(cfg, s, a, s')
    ensures Measure(cfg, s') <= Measure(cfg, s) + Gain(a)
  {
    if a.Resolve? {
      ResolveFacts(cfg, s, a, s');
      ResolveMeasure(cfg, s, a, s');
    } else if a.Retry? || a.Force? {
      ManualFacts(cfg, s, a, s');
      AddRunMeasure(cfg, s, a.run);
    } else {
      ProgressFacts(cfg, s, a, s');
      ProgressMeasure(cfg, s, a, s');
    }
  }

  lemma {:induction false} InitialRoom(cfg: Config, nodes: seq<NodeRef>, entry: Run)
    requires entry.trigger == None
    ensures Room(cfg, nodes, [entry]) <= TotalLimit(cfg, nodes)
    ensures (exists k :: 0 <= k < |nodes| && nodes[k].name == entry.node) ==>
              Room(cfg, nodes, [entry]) < TotalLimit(cfg, nodes)
  {
    if nodes != [] {
      InitialRoom(cfg, nodes[1..], entry);
      OneRun(entry, nodes[0].name);
      if k :| 0 < k < |nodes| && nodes[k].name == entry.node {
        assert nodes[1..][k - 1].name == entry.node;
      }
    }
  }

  lemma InitialMeasure(cfg: Config, s: System)
    requires GraphOk(cfg) && Initial(cfg, s)
    ensures Measure(cfg, s) <= 4 * TotalLimit(cfg, cfg.nodes)
  {
    var entry := s.runs[0];
    assert s.runs == [entry] && s.runs[..0] == [];
    assert s.runs[0] == entry && |s.runs| - 1 == 0;
    assert Load(s.runs, s.unresolved) == Load(s.runs[..0], s.unresolved) + Weight(entry, 0 in s.unresolved);
    InitialRoom(cfg, cfg.nodes, entry);
    assert exists k :: 0 <= k < |cfg.nodes| && cfg.nodes[k].name == entry.node;
  }

  lemma {:induction false} ScheduleMeasure(cfg: Config, states: seq<System>, actions: seq<Action>)
    requires GraphOk(cfg) && IsSchedule(cfg, states, actions)
    ensures Measure(cfg, states[|actions|]) + |actions|
            <= 4 * TotalLimit(cfg, cfg.nodes) + 2 * Answers(actions) + 4 * Forces(actions)
  {
    if actions == [] {
      InitialMeasure(cfg, states[0]);
    } else {
      var n := |actions| - 1;
      ScheduleMeasure(cfg, states[..n + 1], actions[..n]);
      ScheduleKeepsInv(cfg, states[..n + 1], actions[..n]);
      StepMeasure(cfg, states[n], actions[n], states[n + 1]);
    }
  }

  /** Every schedule ends: its length is bounded by the limits, the answered questions and the forced
      steps.  Plain retries need no allowance of their own. */
  lemma SchedulesEnd(cfg: Config, states: seq<System>, actions: seq<Action>)
    requires GraphOk(cfg) && IsSchedule(cfg, states, actions)
    ensures |actions| <= 4 * TotalLimit(cfg, cfg.nodes) + 2 * Answers(actions) + 4 * Forces(actions)
  {
    ScheduleMeasure(cfg, states, actions);
    ScheduleKeepsInv(cfg, states, actions);
    RoomIsNat(cfg, cfg.nodes, states[|actions|].runs);
  }

  // ----- what a resolution starts, and that nothing is left lying -----

  /** How a run begins: an agent runs, a human is waited for, and an end is done. */
  lemma NewRunStatus(cfg: Config, run: Run)
    requires DefinitionsOk(cfg) && run.node in cfg.NodeNames() && IsFresh(cfg, run)
    ensures match cfg.defs[run.node].typ
            case Agent => run.status == Running
            case Human => run.status == AwaitingUser
            case _ => run.status == Done
    ensures run.completedAt == None && run.failureReason == ""
  {
    assert NodeDefinitionOk(cfg.defs[run.node]);
  }

  /** The transition that the run takes up. */
  function TakesUp(run: Run): (string, Option<Trigger>) {
    (run.node, run.trigger)
  }

  function Asks(t: Transition): (string, Option<Trigger>) {
    (t.to, Some(t.trigger))
  }

  function AllTakenUp(runs: seq<Run>): multiset<(string, Option<Trigger>)> {
    if runs == [] then multiset{} else AllTakenUp(runs[..|runs| - 1]) + multiset{TakesUp(runs[|runs| - 1])}
  }

  function AllAsked(ts: seq<Transition>): multiset<(string, Option<Trigger>)> {
    if ts == [] then multiset{} else AllAsked(ts[..|ts| - 1]) + multiset{Asks(ts[|ts| - 1])}
  }

  lemma {:induction false} AskedAppend(ts: seq<Transition>, us: seq<Transition>)
    ensures AllAsked(ts + us) == AllAsked(ts) + AllAsked(us)
  {
    if us == [] {
      assert ts + us == ts;
    } else {
      assert (ts + us)[..|ts + us| - 1] == ts + us[..|us| - 1];
      AskedAppend(ts, us[..|us| - 1]);
    }
  }

  lemma {:induction false} AskedInAnyOrder(ts: seq<Transition>, us: seq<Transition>)
    requires multiset(ts) == multiset(us)
    ensures AllAsked(ts) == AllAsked(us)
  {
    SameLength(ts, us);
    if ts != [] {
      var front, x := ts[..|ts| - 1], ts[|ts| - 1];
      assert ts == front + [x];
      assert x in multiset(ts);
      var i :| 0 <= i < |us| && us[i] == x;
      var before, after := us[..i], us[i + 1..];
      assert us == before + [x] + after;
      SameWithout(front, x, before, after);
      AskedInAnyOrder(front, before + after);
      AskedAppend(before, [x]);
      AskedAppend(before + [x], after);
      AskedAppend(before, after);
      assert [x][..0] == [];
    }
  }

  lemma {:induction false} AddedTakeUp(added: seq<Run>, order: seq<Transition>)
    requires |added| == |order|
    requires forall k :: 0 <= k < |order| ==> added[k].node == order[k].to && added[k].trigger == Some(order[k].trigger)
    ensures AllTakenUp(added) == AllAsked(order)
  {
    if added != [] {
      var n := |added| - 1;
      AddedTakeUp(added[..n], order[..n]);
    }
  }

  lemma {:induction false} AddedRuns(s: System, added: seq<Run>)
    ensures AddRuns(s, added).runs == s.runs + added
  {
    if added == [] {
      assert s.runs + added == s.runs;
    } else {
      AddedRuns(s, added[..|added| - 1]);
      assert s.runs + added == s.runs + added[..|added| - 1] + [added[|added| - 1]];
    }
  }

  /** Resolving a completion saves one new run for each transition, of its node and with its trigger, and no other. */
  lemma ResolvingStartsOneEach(cfg: Config, s: System, a: Action, s': System)
    requires a.Resolve? && Step(cfg, s, a, s') && a.r.Some?
    ensures s'.runs == s.runs + a.added
    ensures AllTakenUp(a.added) == AllAsked(a.r.value.transitions)
    ensures forall run :: run in a.added ==> IsFresh(cfg, run)
  {
    AddedRuns(Settled(s, a), a.added);
    AddedTakeUp(a.added, a.order);
    AskedInAnyOrder(a.order, a.r.value.transitions);
  }

  // ----- nothing is left lying -----

  predicate IsFinished(s: System) {
    s.unresolved == {} && forall i :: 0 <= i < |s.runs| ==> s.runs[i].status == Done || s.runs[i].status == Failed
  }

  ghost predicate CanGoOn(cfg: Config, s: System) {
    exists a, s' :: Step(cfg, s, a, s') && !a.Retry? && !a.Force?
  }

  function FreshFor(cfg: Config, t: Transition): Run {
    Run("", t.to, StatusFor(cfg, t.to), "", None, Some(t.trigger), 0, None)
  }

  lemma ResolutionExists(cfg: Config, st: EngineState, runs: seq<Run>, run: Run)
    returns (st': EngineState, r: Option<Resolution>, ts: seq<Transition>)
    ensures Resolves(cfg, st, runs, run, st', r, ts)
  {
    var hops := Evaluate(run.result, cfg.Outgoing(run.node));
    if hops == None {
      st', r, ts := st, None, [];
    } else {
      var arrived := Arrived(st, run, hops.value);
      ts := ReadyListExists(cfg, arrived);
      st' := arrived.Consumed(cfg);
      var taskDone := ts == [] && st'.pending == map[] && TaskFinished(cfg, runs);
      r := Some(Resolution(Admitted(cfg, runs, ts), Refused(cfg, runs, ts), taskDone));
    }
  }

  lemma FailedResolutionGoesOn(cfg: Config, s: System, i: nat, st: EngineState, ts: seq<Transition>)
    requires i in s.unresolved && i < |s.runs|
    requires var seen := Sort(RunLe, s.runs); Resolves(cfg, Rebuild(s.engine, seen), seen, s.runs[i], st, None, ts)
    ensures CanGoOn(cfg, s)
  {
    var a := Resolve(i, st, None, ts, [], [], "", 0);
    var failed := s.runs[i].(status := Failed, failureReason := "", completedAt := Some(0));
    assert Step(cfg, s, a, Settled(s, a).(runs := s.runs[i := failed]));
  }

  lemma StartsExist(cfg: Config, transitions: seq<Transition>) returns (added: seq<Run>)
    ensures Starts(cfg, transitions, transitions, added)
  {
    added := seq(|transitions|, k requires 0 <= k < |transitions| => FreshFor(cfg, transitions[k]));
  }

  lemma ResolutionGoesOn(cfg: Config, s: System, i: nat, st: EngineState, r: Resolution, ts: seq<Transition>)
    requires i in s.unresolved && i < |s.runs|
    requires var seen := Sort(RunLe, s.runs); Resolves(cfg, Rebuild(s.engine, seen), seen, s.runs[i], st, Some(r), ts)
    ensures CanGoOn(cfg, s)
  {
    var added := StartsExist(cfg, r.transitions);
    var a := Resolve(i, st, Some(r), ts, r.transitions, added, "", 0);
    assert Step(cfg, s, a, AddRuns(Settled(s, a), added));
  }

  lemma UnresolvedCanBeResolved(cfg: Config, s: System, i: nat)
    requires i in s.unresolved && i < |s.runs|
    ensures CanGoOn(cfg, s)
  {
    var seen := Sort(RunLe, s.runs);
    var st, r, ts := ResolutionExists(cfg, Rebuild(s.engine, seen), seen, s.runs[i]);
    if r == None {
      FailedResolutionGoesOn(cfg, s, i, st, ts);
    } else {
      ResolutionGoesOn(cfg, s, i, st, r.value, ts);
    }
  }

  lemma RunCanGoOn(cfg: Config, s: System, i: nat)
    requires i < |s.runs| && (s.runs[i].status == Running || s.runs[i].status == AwaitingUser)
    ensures CanGoOn(cfg, s)
  {
    var run := s.runs[i];
    if run.status == Running {
      var failed := run.(status := Failed, failureReason := "", completedAt := Some(0));
      assert Step(cfg, s, Fail(i, "", 0), s.(runs := s.runs[i := failed]));
    } else {
      assert Step(cfg, s, Answer(i), s.(runs := s.runs[i := run.(status := Running, failureReason := "")]));
    }
  }

  lemma UnfinishedGoesOn(cfg: Config, s: System)
    requires UnresolvedDone(s.runs, s.unresolved) && !IsFinished(s)
    ensures CanGoOn(cfg, s)
  {
    if s.unresolved != {} {
      var i :| i in s.unresolved;
      UnresolvedCanBeResolved(cfg, s, i);
    } else {
      var i :| 0 <= i < |s.runs| && s.runs[i].status != Done && s.runs[i].status != Failed;
      RunCanGoOn(cfg, s, i);
    }
  }

  lemma FinishedIsOver(cfg: Config, s: System, a: Action, s': System)
    requires IsFinished(s) && Step(cfg, s, a, s')
    ensures a.Retry? || a.Force?
  {
  }

  /** A schedule can go on without the user's retries and forced steps until every run is done or failed and every
      completion resolved, and then not any more. */
  lemma GoesOnUnlessFinished(cfg: Config, states: seq<System>, actions: seq<Action>)
    requires GraphOk(cfg) && IsSchedule(cfg, states, actions)
    ensures CanGoOn(cfg, states[|actions|]) <==> !IsFinished(states[|actions|])
  {
    var s := states[|actions|];
    UnresolvedAreDone(cfg, states, actions);
    if IsFinished(s) {
      forall a, s' | Step(cfg, s, a, s')
        ensures a.Retry? || a.Force?
      {
        FinishedIsOver(cfg, s, a, s');
      }
    } else {
      UnfinishedGoesOn(cfg, s);
    }
  }
}
