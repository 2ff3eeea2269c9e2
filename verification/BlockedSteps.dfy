/** Blocked steps, derived anew from a run history by replaying it through a fresh engine. */
module BlockedSteps {
  import opened Options
  import opened ConfigValues
  import opened TaskConfig
  import opened EdgeEvaluation
  import opened TaskRuns
  import opened TaskEngine
  import opened EngineObject
  import opened TaskSchedule
  import opened Ordering

  datatype BlockedStep = BlockedStep(node: string, iteration: int, trigger: Trigger, createdAt: int)

  function BlockedStepKey(source: string, node: string): string {
    source + "->" + node
  }

  function KeyOf(step: BlockedStep): string {
    BlockedStepKey(step.trigger.runId, step.node)
  }

  predicate StepLe(a: BlockedStep, b: BlockedStep) {
    a.createdAt < b.createdAt || (a.createdAt == b.createdAt && StrLe(KeyOf(a), KeyOf(b)))
  }

  // ----- the replay -----

  /** `open` holds the blocked steps, `order` the keys in the order in which they were raised. */
  datatype Replay = Replay(engine: EngineState, history: seq<Run>, open: map<string, BlockedStep>, order: seq<string>)

  /** One replayed run and, if it is done, what its resolution did. */
  datatype Event = Event(run: Run, st: EngineState, r: Option<Resolution>, ts: seq<Transition>)

  const NOTHING := Replay(EngineState(map[], map[], map[]), [], map[], [])

  /** The last run with this id. */
  function FindRun(runs: seq<Run>, id: string): Option<Run> {
    if runs == [] then None
    else if runs[|runs| - 1].id == id then Some(runs[|runs| - 1])
    else FindRun(runs[..|runs| - 1], id)
  }

  /** The key that a run clears: it continues a blocked step, or retries the failed run by which older
      versions recorded one. */
  function Clears(history: seq<Run>, run: Run): Option<string> {
    if run.trigger == None then None
    else if IsManualContinue(run.trigger.value.reason) then Some(BlockedStepKey(run.trigger.value.runId, run.node))
    else if IsManualRetry(run.trigger.value.reason) then
      var parent := FindRun(history, run.trigger.value.runId);
      if parent.Some? && IsLegacyBlockedSurrogate(parent.value, run.node)
      then Some(BlockedStepKey(parent.value.trigger.value.runId, run.node))
      else None
    else None
  }

  function Cleared(open: map<string, BlockedStep>, key: Option<string>): map<string, BlockedStep> {
    if key.Some? then open - {key.value} else open
  }

  /** The run is registered and remembered, and what it clears is gone. */
  function Enter(p: Replay, run: Run): Replay {
    Replay(RegisterAgain(p.engine, run), p.history + [run], Cleared(p.open, Clears(p.history, run)), p.order)
  }

  /** One blocked transition is raised; `earlier` are those raised before it by the same run. */
  function Raise(p: Replay, earlier: seq<Transition>, b: Transition, at: int): Replay {
    var key := BlockedStepKey(b.trigger.runId, b.to);
    var step := BlockedStep(b.to, IterationCount(p.history, b.to) + 1 + CountTo(earlier, b.to), b.trigger, at);
    p.(open := p.open[key := step], order := if key in p.open then p.order else p.order + [key])
  }

  function RaiseAll(p: Replay, blocked: seq<Transition>, at: int): Replay {
    if blocked == [] then p
    else
      var n := |blocked| - 1;
      Raise(RaiseAll(p, blocked[..n], at), blocked[..n], blocked[n], at)
  }

  function BlockedBy(e: Event): seq<Transition> {
    if e.r.Some? then e.r.value.blocked else []
  }

  ghost predicate ReplayStep(cfg: Config, p: Replay, e: Event, p': Replay) {
    var entered := Enter(p, e.run);
    if e.run.status != Done then e.r == None && p' == entered
    else
      && e.r.Some?
      && Resolves(cfg, entered.engine, entered.history, e.run, e.st, e.r, e.ts)
      && p' == RaiseAll(entered.(engine := e.st), e.r.value.blocked, CompletionTime(e.run))
  }

  /** The states before and after each replayed run. */
  ghost predicate IsReplay(cfg: Config, states: seq<Replay>, events: seq<Event>) {
    && |states| == |events| + 1
    && if events == [] then states[0] == NOTHING
       else
         var n := |events| - 1;
         IsReplay(cfg, states[..n + 1], events[..n]) && ReplayStep(cfg, states[n], events[n], states[n + 1])
  }

  function RunsOf(events: seq<Event>): seq<Run> {
    if events == [] then [] else RunsOf(events[..|events| - 1]) + [events[|events| - 1].run]
  }

  /** The open steps in the order in which they were raised. */
  function OpenSteps(open: map<string, BlockedStep>, order: seq<string>): seq<BlockedStep> {
    if order == [] then []
    else
      var key := order[|order| - 1];
      OpenSteps(open, order[..|order| - 1]) + (if key in open then [open[key]] else [])
  }

  predicate Unresolvable(cfg: Config, run: Run) {
    && run.status == Done
    && Evaluate(run.result, cfg.Outgoing(run.node)) == None
  }

  /** A result of the derivation: a replay of the sorted history gives the steps, unless one of its runs
      cannot be resolved. */
  ghost predicate Derives(cfg: Config, runs: seq<Run>, states: seq<Replay>, events: seq<Event>,
                          steps: Option<seq<BlockedStep>>)
  {
    if exists run :: run in runs && Unresolvable(cfg, run) then steps == None
    else
      && IsReplay(cfg, states, events)
      && RunsOf(events) == Sort(RunLe, runs)
      && steps == Some(Sort(StepLe, OpenSteps(states[|events|].open, states[|events|].order)))
  }

  ghost predicate IsDerivation(cfg: Config, runs: seq<Run>, steps: Option<seq<BlockedStep>>) {
    exists states, events :: Derives(cfg, runs, states, events, steps)
  }

  // ----- the derivation -----

  method FindInHistory(byId: map<string, Run>, history: seq<Run>, run: Run) returns (key: Option<string>)
    requires Indexes(byId, history)
    ensures key == Clears(history, run)
  {
    if run.trigger == None {
      return None;
    }
    var trigger := run.trigger.value;
    if IsManualContinue(trigger.reason) {
      return Some(BlockedStepKey(trigger.runId, run.node));
    }
    if IsManualRetry(trigger.reason) && trigger.runId in byId {
      var parent := byId[trigger.runId];
      if IsLegacyBlockedSurrogate(parent, run.node) {
        return Some(BlockedStepKey(parent.trigger.value.runId, run.node));
      }
    }
    return None;
  }

  ghost predicate Indexes(byId: map<string, Run>, history: seq<Run>) {
    forall id :: FindRun(history, id) == if id in byId then Some(byId[id]) else None
  }

  lemma IndexNext(byId: map<string, Run>, history: seq<Run>, run: Run)
    requires Indexes(byId, history)
    ensures Indexes(byId[run.id := run], history + [run])
  {
    assert (history + [run])[..|history|] == history;
  }

  lemma RaiseNext(p: Replay, blocked: seq<Transition>, i: nat, at: int)
    requires i < |blocked|
    ensures RaiseAll(p, blocked[..i + 1], at) == Raise(RaiseAll(p, blocked[..i], at), blocked[..i], blocked[i], at)
  {
    assert blocked[..i + 1][..i] == blocked[..i];
  }

  method NextIteration(iterations: map<string, int>, history: seq<Run>, node: string, ghost earlier: seq<Transition>)
    returns (next: int)
    requires CountsOn(iterations, history, earlier)
    ensures next == IterationCount(history, node) + 1 + CountTo(earlier, node)
  {
    next := if node in iterations then iterations[node] else 0;
    if next == 0 {
      var count := CountIterations(history, node);
      next := count + 1;
    }
  }

  method RaiseOne(history: seq<Run>, b: Transition, at: int, open: map<string, BlockedStep>, order: seq<string>,
                  iterations: map<string, int>, ghost engine: EngineState, ghost earlier: seq<Transition>)
    returns (open': map<string, BlockedStep>, order': seq<string>, iterations': map<string, int>)
    requires CountsOn(iterations, history, earlier)
    ensures Replay(engine, history, open', order') == Raise(Replay(engine, history, open, order), earlier, b, at)
    ensures CountsOn(iterations', history, earlier + [b])
  {
    var next := NextIteration(iterations, history, b.to, earlier);
    var key := BlockedStepKey(b.trigger.runId, b.to);
    order' := order;
    if key !in open {
      order' := order + [key];
    }
    open' := open[key := BlockedStep(b.to, next, b.trigger, at)];
    iterations' := iterations[b.to := next + 1];
  }

  /** The loop over the blocked transitions of one resolution. */
  method RaiseBlocked(history: seq<Run>, blocked: seq<Transition>, at: int, open: map<string, BlockedStep>,
                      order: seq<string>, ghost engine: EngineState)
    returns (open': map<string, BlockedStep>, order': seq<string>)
    ensures Replay(engine, history, open', order') == RaiseAll(Replay(engine, history, open, order), blocked, at)
  {
    open', order' := open, order;
    ghost var p := Replay(engine, history, open, order);
    var iterations: map<string, int> := map[];
    for i := 0 to |blocked|
      invariant Replay(engine, history, open', order') == RaiseAll(p, blocked[..i], at)
      invariant CountsOn(iterations, history, blocked[..i])
    {
      RaiseNext(p, blocked, i, at);
      assert blocked[..i + 1] == blocked[..i] + [blocked[i]];
      open', order', iterations :=
        RaiseOne(history, blocked[i], at, open', order', iterations, engine, blocked[..i]);
    }
    assert blocked[..|blocked|] == blocked;
  }

  /** The next iteration number of each node blocked so far. */
  ghost predicate CountsOn(iterations: map<string, int>, history: seq<Run>, blocked: seq<Transition>) {
    forall node ::
      if node in iterations then
        iterations[node] == IterationCount(history, node) + 1 + CountTo(blocked, node)
      else CountTo(blocked, node) == 0
  }

  method ListOpen(open: map<string, BlockedStep>, order: seq<string>) returns (steps: seq<BlockedStep>)
    ensures steps == OpenSteps(open, order)
  {
    steps := [];
    for i := 0 to |order|
      invariant steps == OpenSteps(open, order[..i])
    {
      assert order[..i + 1][..i] == order[..i];
      if order[i] in open {
        steps := steps + [open[order[i]]];
      }
    }
    assert order[..|order|] == order;
  }

  /** The replay of one run. */
  method ReplayRun(cfg: Config, engine: Engine, run: Run, history: seq<Run>, byId: map<string, Run>,
                   open: map<string, BlockedStep>, order: seq<string>)
    returns (ok: bool, open': map<string, BlockedStep>, order': seq<string>, ghost e: Event)
    requires Indexes(byId, history) && engine.View().Valid()
    modifies engine
    ensures ok <==> !Unresolvable(cfg, run)
    ensures ok ==> engine.View().Valid() && e.run == run
                   && ReplayStep(cfg, Replay(old(engine.View()), history, open, order), e,
                                 Replay(engine.View(), history + [run], open', order'))
  {
    ghost var p := Replay(engine.View(), history, open, order);
    open', order' := open, order;
    e := Event(run, engine.View(), None, []);
    if run.trigger == None {
      engine.RegisterEntryRun(run);
    } else {
      var key := FindInHistory(byId, history, run);
      if key.Some? {
        open' := open' - {key.value};
      }
      engine.RegisterTriggeredRun(run, run.trigger.value.runId);
    }
    ghost var entered := Enter(p, run);
    assert entered == Replay(engine.View(), history + [run], open', order');
    if run.status != Done {
      ok := true;
      return;
    }
    var r;
    ghost var ts;
    r, ts := engine.ResolveCompletion(cfg, history + [run], run);
    e := Event(run, engine.View(), r, ts);
    if r == None {
      ok := false;
      return;
    }
    open', order' := RaiseBlocked(history + [run], r.value.blocked, CompletionTime(run), open', order', engine.View());
    ok := true;
  }

  /** The replay has dealt with the first `i` runs without an error and stands at `p`. */
  ghost predicate ReplayedTo(cfg: Config, sorted: seq<Run>, i: nat, states: seq<Replay>, events: seq<Event>,
                             p: Replay)
  {
    && |events| == i <= |sorted|
    && IsReplay(cfg, states, events)
    && RunsOf(events) == sorted[..i]
    && states[i] == p
    && AllResolvable(cfg, sorted[..i])
  }

  ghost predicate AllResolvable(cfg: Config, runs: seq<Run>) {
    forall run :: run in runs ==> !Unresolvable(cfg, run)
  }

  /** One more run is dealt with. */
  lemma ReplayedNext(cfg: Config, sorted: seq<Run>, i: nat, states: seq<Replay>, events: seq<Event>, p: Replay,
                     e: Event, p': Replay)
    requires ReplayedTo(cfg, sorted, i, states, events, p) && i < |sorted| && e.run == sorted[i]
    requires ReplayStep(cfg, p, e, p') && !Unresolvable(cfg, sorted[i])
    ensures ReplayedTo(cfg, sorted, i + 1, states + [p'], events + [e], p')
  {
    assert (states + [p'])[..i + 1] == states && (events + [e])[..i] == events;
    assert sorted[..i + 1] == sorted[..i] + [sorted[i]];
    ResolvableSnoc(cfg, sorted[..i], sorted[i]);
  }

  lemma ResolvableSnoc(cfg: Config, front: seq<Run>, run: Run)
    ensures AllResolvable(cfg, front + [run]) <==> AllResolvable(cfg, front) && !Unresolvable(cfg, run)
  {
    var runs := front + [run];
    assert runs[|front|] in runs && forall r :: r in front ==> r in runs;
  }

  /** The loop over the sorted history. */
  method ReplayHistory(cfg: Config, sorted: seq<Run>)
    returns (ok: bool, open: map<string, BlockedStep>, order: seq<string>, ghost states: seq<Replay>,
             ghost events: seq<Event>)
    ensures ok <==> AllResolvable(cfg, sorted)
    ensures ok ==> exists engine ::
              ReplayedTo(cfg, sorted, |sorted|, states, events, Replay(engine, sorted, open, order))
  {
    var engine := new Engine();
    var byId: map<string, Run> := map[];
    open, order := map[], [];
    states, events := [NOTHING], [];
    for i := 0 to |sorted|
      invariant engine.View().Valid() && fresh(engine) && Indexes(byId, sorted[..i])
      invariant ReplayedTo(cfg, sorted, i, states, events, Replay(engine.View(), sorted[..i], open, order))
    {
      var run, history := sorted[i], sorted[..i];
      assert sorted[..i + 1] == history + [run];
      ghost var p := Replay(engine.View(), history, open, order);
      ghost var e;
      ok, open, order, e := ReplayRun(cfg, engine, run, history, byId, open, order);
      if !ok {
        return;
      }
      ghost var p' := Replay(engine.View(), sorted[..i + 1], open, order);
      IndexNext(byId, history, run);
      byId := byId[run.id := run];
      ReplayedNext(cfg, sorted, i, states, events, p, e, p');
      states, events := states + [p'], events + [e];
    }
    assert sorted[..|sorted|] == sorted;
    ok := true;
  }

  lemma SortedHasSame(runs: seq<Run>)
    ensures forall run :: run in Sort(RunLe, runs) <==> run in runs
  {
    SortKeeps(RunLe, runs);
    forall run
      ensures run in Sort(RunLe, runs) <==> run in runs
    {
      assert run in Sort(RunLe, runs) <==> run in multiset(Sort(RunLe, runs));
      assert run in runs <==> run in multiset(runs);
    }
  }

  method DeriveBlockedSteps(cfg: Config, runs: seq<Run>) returns (steps: Option<seq<BlockedStep>>)
    ensures IsDerivation(cfg, runs, steps)
  {
    var sorted := Sort(RunLe, runs);
    SortedHasSame(runs);
    var ok, open, order;
    ghost var states, events;
    ok, open, order, states, events := ReplayHistory(cfg, sorted);
    if !ok {
      assert Derives(cfg, runs, states, events, None);
      return None;
    }
    var listed := ListOpen(open, order);
    steps := Some(Sort(StepLe, listed));
    assert sorted[..|sorted|] == sorted;
    assert Derives(cfg, runs, states, events, steps);
  }
}
