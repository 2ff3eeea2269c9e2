/** Whole schedules of one task: runs complete, fail, ask and are answered, completions are resolved
    into new runs, failed runs are retried and steps are forced, in any order. */
module TaskSchedule {
  import opened Options
  import opened ConfigValues
  import opened TaskConfig
  import opened EdgeEvaluation
  import opened TaskRuns
  import opened TaskEngine
  import opened Ordering

  /** The saved runs, the engine, and the indices of done runs whose completion is not resolved yet. */
  datatype System = System(runs: seq<Run>, engine: EngineState, unresolved: set<nat>)

  datatype Action =
    | Complete(i: nat, result: map<string, Value>, at: int)
    | Fail(i: nat, text: string, at: int)
    | Ask(i: nat)
    | Answer(i: nat)
    | Resolve(i: nat, st: EngineState, r: Option<Resolution>, ts: seq<Transition>, order: seq<Transition>,
              added: seq<Run>, text: string, at: int)
    | Retry(i: nat, run: Run)
    | Force(i: nat, run: Run)

  // ----- what the runtime does around the engine -----

  predicate RunLe(a: Run, b: Run) {
    a.startedAt < b.startedAt || (a.startedAt == b.startedAt && StrLe(a.id, b.id))
  }

  function RegisterAgain(st: EngineState, run: Run): EngineState {
    if run.trigger == None then st.RegisterEntry(run) else st.RegisterTriggered(run, run.trigger.value.runId)
  }

  /** Registers every saved run again, in the given order. */
  function Rebuild(st: EngineState, runs: seq<Run>): EngineState {
    if runs == [] then st else RegisterAgain(Rebuild(st, runs[..|runs| - 1]), runs[|runs| - 1])
  }

  function StatusFor(cfg: Config, node: string): Status {
    if node in cfg.defs then InitialStatus(cfg.defs[node]) else Running
  }

  /** A run as it is first saved. */
  predicate IsFresh(cfg: Config, run: Run) {
    && run.status == StatusFor(cfg, run.node)
    && run.completedAt == None
    && run.failureReason == ""
  }

  /** `added` are the new runs that the transitions start, saved in the order `order`. */
  predicate Starts(cfg: Config, transitions: seq<Transition>, order: seq<Transition>, added: seq<Run>) {
    && multiset(order) == multiset(transitions)
    && |added| == |order|
    && forall k :: 0 <= k < |order| ==>
         IsFresh(cfg, added[k]) && added[k].node == order[k].to && added[k].trigger == Some(order[k].trigger)
  }

  /** The saved runs and the engine with one more run; a terminal run is done from the start. */
  function AddRun(s: System, run: Run): System {
    System(s.runs + [run], RegisterAgain(s.engine, run),
           if run.status == Done then s.unresolved + {|s.runs|} else s.unresolved)
  }

  function AddRuns(s: System, added: seq<Run>): System {
    if added == [] then s else AddRun(AddRuns(s, added[..|added| - 1]), added[|added| - 1])
  }

  predicate IsForced(run: Run) {
    && run.trigger.Some?
    && run.trigger.value.reason in {ManualRetryForce, ManualContinueForce}
  }

  predicate IsAgent(cfg: Config, node: string) {
    node in cfg.defs && cfg.defs[node].typ == Agent
  }

  // ----- steps -----

  predicate Initial(cfg: Config, s: System) {
    && |s.runs| == 1
    && var entry := s.runs[0];
    && entry.id != ""
    && entry.node == cfg.entry
    && entry.trigger == None
    && IsFresh(cfg, entry)
    && s == AddRun(System([], EngineState(map[], map[], map[]), {}), entry)
  }

  /** A run's own progress: it completes, fails, asks the user or is answered. */
  predicate ProgressStep(cfg: Config, s: System, a: Action, s': System)
    requires a.i < |s.runs|
  {
    var run := s.runs[a.i];
    match a
    case Complete(i, result, at) =>
      // an agent's result has passed `ValidateValue`
      && (run.status == Running || (run.status == AwaitingUser && !IsAgent(cfg, run.node)))
      && (IsAgent(cfg, run.node) ==> Accepts(cfg.defs[run.node].schema, Obj(result)))
      && var done := run.(status := Done, result := Some(result), failureReason := "", completedAt := Some(at));
         s' == s.(runs := s.runs[i := done], unresolved := s.unresolved + {i})
    case Fail(i, text, at) =>
      && run.status == Running
      && s' == s.(runs := s.runs[i := run.(status := Failed, failureReason := text, completedAt := Some(at))])
    case Ask(i) =>
      && run.status == Running
      && s' == s.(runs := s.runs[i := run.(status := AwaitingUser, failureReason := "")])
    case Answer(i) =>
      && run.status == AwaitingUser
      && s' == s.(runs := s.runs[i := run.(status := Running, failureReason := "")])
    case _ => false
  }

  /** A completion is resolved: its run fails if no edge matches, and otherwise new runs start. */
  ghost predicate ResolveStep(cfg: Config, s: System, a: Action, s': System)
    requires a.Resolve? && a.i < |s.runs|
  {
    var run, seen := s.runs[a.i], Sort(RunLe, s.runs);
    && a.i in s.unresolved
    && Resolves(cfg, Rebuild(s.engine, seen), seen, run, a.st, a.r, a.ts)
    && var settled := Settled(s, a);
    if a.r == None then
      s' == settled.(runs := s.runs[a.i := run.(status := Failed, failureReason := a.text, completedAt := Some(a.at))])
    else
      Starts(cfg, a.r.value.transitions, a.order, a.added) && s' == AddRuns(settled, a.added)
  }

  /** The system with the completion resolved, before anything is saved. */
  function Settled(s: System, a: Action): System
    requires a.Resolve?
  {
    s.(engine := a.st, unresolved := s.unresolved - {a.i})
  }

  /** A plain retry of an open failed agent run, within the limit. */
  predicate RetryStep(cfg: Config, s: System, a: Action, s': System)
    requires a.Retry? && a.i < |s.runs|
  {
    var run := s.runs[a.i];
    && IsOpenFailedRun(s.runs, run)
    && IsAgent(cfg, run.node)
    && IterationCount(s.runs, run.node) + 1 <= MaxIterations(cfg, run.node)
    && IsFresh(cfg, a.run)
    && a.run.node == run.node
    && a.run.trigger == Some(Trigger(run.id, ManualRetry))
    && s' == AddRun(s.(engine := Known(s, run.id)), a.run)
  }

  /** A forced retry of a run, or a forced continuation of a step blocked after it. */
  predicate ForceStep(cfg: Config, s: System, a: Action, s': System)
    requires a.Force? && a.i < |s.runs|
  {
    var id := s.runs[a.i].id;
    && IsFresh(cfg, a.run)
    && a.run.node in cfg.NodeNames()
    && (a.run.trigger == Some(Trigger(id, ManualRetryForce)) || a.run.trigger == Some(Trigger(id, ManualContinueForce)))
    && s' == AddRun(s.(engine := Known(s, id)), a.run)
  }

  /** One step.  Starting runs together with resolving a completion is one step, as is a retry with its
      check. */
  ghost predicate Step(cfg: Config, s: System, a: Action, s': System) {
    a.i < |s.runs| &&
    if a.Resolve? then ResolveStep(cfg, s, a, s')
    else if a.Retry? then RetryStep(cfg, s, a, s')
    else if a.Force? then ForceStep(cfg, s, a, s')
    else ProgressStep(cfg, s, a, s')
  }

  /** The engine, rebuilt if it does not know the run. */
  function Known(s: System, runId: string): EngineState {
    if runId in s.engine.runTokens then s.engine else Rebuild(s.engine, Sort(RunLe, s.runs))
  }

  /** A schedule: the states before and after each action. */
  ghost predicate IsSchedule(cfg: Config, states: seq<System>, actions: seq<Action>) {
    && |states| == |actions| + 1
    && if actions == [] then Initial(cfg, states[0])
       else
         var n := |actions| - 1;
         IsSchedule(cfg, states[..n + 1], actions[..n]) && Step(cfg, states[n], actions[n], states[n + 1])
  }

  /** How many of a node's runs were forced. */
  function ForcedCount(runs: seq<Run>, node: string): nat {
    if runs == [] then 0
    else
      ForcedCount(runs[..|runs| - 1], node) +
      (if runs[|runs| - 1].node == node && IsForced(runs[|runs| - 1]) then 1 else 0)
  }

  /** The sum of the iteration limits of all nodes. */
  function TotalLimit(cfg: Config, nodes: seq<NodeRef>): int {
    if nodes == [] then 0 else TotalLimit(cfg, nodes[1..]) + MaxIterations(cfg, nodes[0].name)
  }

  function Answers(actions: seq<Action>): nat {
    if actions == [] then 0 else Answers(actions[..|actions| - 1]) + (if actions[|actions| - 1].Answer? then 1 else 0)
  }

  function Forces(actions: seq<Action>): nat {
    if actions == [] then 0 else Forces(actions[..|actions| - 1]) + (if actions[|actions| - 1].Force? then 1 else 0)
  }
}
