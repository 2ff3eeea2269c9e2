/** Node runs and the bookkeeping the workflow reads off a run history. */
module TaskRuns {
  import opened Options
  import opened ConfigValues
  import opened TaskConfig
  import opened EdgeEvaluation

  datatype Status = Running | Done | Failed | AwaitingUser

  datatype Trigger = Trigger(runId: string, reason: Reason)

  /** Times are opaque and ordered. */
  datatype Run = Run(id: string, node: string, status: Status, failureReason: string,
                     result: Option<map<string, Value>>, trigger: Option<Trigger>,
                     startedAt: int, completedAt: Option<int>)

  predicate IsManualRetry(r: Reason) {
    r == ManualRetry || r == ManualRetryForce
  }

  predicate IsManualContinue(r: Reason) {
    r == ManualContinue || r == ManualContinueForce
  }

  function IterationCount(runs: seq<Run>, node: string): nat {
    if runs == [] then 0
    else IterationCount(runs[..|runs| - 1], node) + (if runs[|runs| - 1].node == node then 1 else 0)
  }

  method CountIterations(runs: seq<Run>, node: string) returns (count: nat)
    ensures count == IterationCount(runs, node)
  {
    count := 0;
    for i := 0 to |runs|
      invariant count == IterationCount(runs[..i], node)
    {
      assert runs[..i + 1][..i] == runs[..i];
      if runs[i].node == node {
        count := count + 1;
      }
    }
    assert runs[..|runs|] == runs;
  }

  /** The node's own limit if it has one, and the topology's otherwise. */
  function MaxIterations(cfg: Config, node: string): int {
    LimitIn(cfg.nodes, node, cfg.maxIterations)
  }

  function LimitIn(nodes: seq<NodeRef>, node: string, limit: int): int {
    if nodes == [] then limit
    else if nodes[0].name == node && nodes[0].maxIterations > 0 then nodes[0].maxIterations
    else LimitIn(nodes[1..], node, limit)
  }

  method MaxIterationsForNode(cfg: Config, node: string) returns (limit: int)
    ensures limit == MaxIterations(cfg, node)
  {
    limit := cfg.maxIterations;
    for i := 0 to |cfg.nodes|
      invariant MaxIterations(cfg, node) == LimitIn(cfg.nodes[i..], node, limit)
    {
      if cfg.nodes[i].name == node && cfg.nodes[i].maxIterations > 0 {
        return cfg.nodes[i].maxIterations;
      }
    }
  }

  lemma {:induction false} LimitIsPositive(nodes: seq<NodeRef>, node: string, limit: int)
    requires limit > 0
    ensures LimitIn(nodes, node, limit) > 0
  {
    if nodes != [] {
      LimitIsPositive(nodes[1..], node, limit);
    }
  }

  predicate ExceedsIterations(cfg: Config, runs: seq<Run>, node: string) {
    IterationCount(runs, node) >= MaxIterations(cfg, node)
  }

  /** A failed run that no manual retry has answered. */
  predicate IsOpenFailedRun(runs: seq<Run>, run: Run) {
    run.status == Failed &&
    forall i :: 0 <= i < |runs| && runs[i].trigger.Some? && runs[i].trigger.value.runId == run.id ==>
      !IsManualRetry(runs[i].trigger.value.reason)
  }

  /** Nothing is running or waiting, no failure is open, and a node without outgoing edges is done. */
  predicate TaskFinished(cfg: Config, runs: seq<Run>) {
    && (forall i :: 0 <= i < |runs| ==> runs[i].status != Running && runs[i].status != AwaitingUser)
    && (forall i :: 0 <= i < |runs| ==> !IsOpenFailedRun(runs, runs[i]))
    && (exists i :: 0 <= i < |runs| && runs[i].status == Done
          && runs[i].node in cfg.NodeNames() && cfg.Outgoing(runs[i].node) == [])
  }

  method CheckFinished(cfg: Config, runs: seq<Run>) returns (finished: bool)
    ensures finished <==> TaskFinished(cfg, runs)
  {
    var doneTerminal := false;
    for i := 0 to |runs|
      invariant forall j :: 0 <= j < i ==> runs[j].status != Running && runs[j].status != AwaitingUser
      invariant doneTerminal <==> exists j :: 0 <= j < i && runs[j].status == Done
                                    && runs[j].node in cfg.NodeNames()
                                    && cfg.Outgoing(runs[j].node) == []
    {
      match runs[i].status {
        case Running =>
          return false;
        case AwaitingUser =>
          return false;
        case Done =>
          if runs[i].node in cfg.NodeNames() && cfg.Outgoing(runs[i].node) == [] {
            doneTerminal := true;
          }
        case Failed =>
      }
    }
    var open := HasOpenFailedRuns(runs);
    return !open && doneTerminal;
  }

  method HasOpenFailedRuns(runs: seq<Run>) returns (found: bool)
    ensures found <==> exists i :: 0 <= i < |runs| && IsOpenFailedRun(runs, runs[i])
  {
    for i := 0 to |runs|
      invariant forall j :: 0 <= j < i ==> !IsOpenFailedRun(runs, runs[j])
    {
      if IsOpenFailedRun(runs, runs[i]) {
        return true;
      }
    }
    return false;
  }

  predicate Contains(s: string, sub: string) {
    exists i :: 0 <= i <= |s| && sub <= s[i..]
  }

  /** How older versions recorded a blocked step: a failed run of the blocked node. */
  predicate IsLegacyBlockedSurrogate(run: Run, node: string) {
    && run.node == node
    && run.status == Failed
    && run.trigger.Some?
    && Contains(run.failureReason, "exceeded max_iterations")
  }

  function CompletionTime(run: Run): int {
    if run.completedAt.Some? then run.completedAt.value else run.startedAt
  }

  function InitialStatus(def: NodeDefinition): Status {
    match def.typ
    case Human => AwaitingUser
    case Terminal => Done
    case _ => Running
  }
}
