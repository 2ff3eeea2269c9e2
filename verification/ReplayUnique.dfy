/** On a history in which every run's parent comes first, the replay has only one outcome: all its runs
    carry the entry run's token, so that no node has two ready groups, and the order in which a map gives
    the groups of a node cannot be seen.  What is listed is numbered beyond its node's limit. */
module ReplayUnique {
  import opened Options
  import opened ConfigValues
  import opened TaskConfig
  import opened EdgeEvaluation
  import opened TaskRuns
  import opened TaskEngine
  import opened EngineObject
  import opened EngineProofs
  import opened TaskSchedule
  import opened ScheduleProofs
  import opened BlockedSteps
  import opened BlockedStepProofs
  import opened Ordering

  /** One entry run, and every other run is triggered by an earlier one; all at declared nodes. */
  predicate ParentsFirst(cfg: Config, runs: seq<Run>) {
    forall i :: 0 <= i < |runs| ==>
      && runs[i].node in cfg.NodeNames()
      && if i == 0 then runs[i].trigger == None && runs[i].id != ""
         else runs[i].trigger.Some? && runs[i].trigger.value.runId in Ids(runs[..i])
  }

  // ----- one resolution -----

  predicate DifferentTargets(ts: seq<Transition>) {
    forall i, j :: 0 <= i < j < |ts| ==> ts[i].to != ts[j].to
  }

  lemma {:induction false} OnceEach(ts: seq<Transition>, t: Transition)
    requires DifferentTargets(ts)
    ensures multiset(ts)[t] == if t in ts then 1 else 0
  {
    if ts != [] {
      var front, last := ts[..|ts| - 1], ts[|ts| - 1];
      assert forall i :: 0 <= i < |front| ==> front[i] == ts[i];
      OnceEach(front, t);
      assert ts == front + [last];
      assert last !in front;
    }
  }

  lemma DifferentTargetsTellApart(ts: seq<Transition>)
    requires DifferentTargets(ts)
    ensures TellsApart(TargetLe, ts)
  {
    forall a, b | a in ts && b in ts && TargetLe(a, b) && TargetLe(b, a)
      ensures a == b
    {
      StrLeAntisymmetric(a.to, b.to);
      var i :| 0 <= i < |ts| && ts[i] == a;
      var j :| 0 <= j < |ts| && ts[j] == b;
      assert i == j;
    }
  }

  lemma ReadyListIsUnique(cfg: Config, st: EngineState, ts: seq<Transition>, us: seq<Transition>)
    requires ListsReady(cfg, st, ts) && ListsReady(cfg, st, us) && DifferentTargets(ts) && DifferentTargets(us)
    ensures ts == us
  {
    forall t
      ensures multiset(ts)[t] == multiset(us)[t]
    {
      OnceEach(ts, t);
      OnceEach(us, t);
      if t in ts {
      }
      if t in us {
      }
    }
    assert multiset(ts) == multiset(us);
    TargetLeIsOrder();
    DifferentTargetsTellApart(ts);
    DifferentTargetsTellApart(us);
    SortedIsUnique(TargetLe, ts, us);
  }

  lemma ResolutionIsUnique(cfg: Config, st: EngineState, runs: seq<Run>, run: Run, token: string,
                           st1: EngineState, r1: Option<Resolution>, ts1: seq<Transition>,
                           st2: EngineState, r2: Option<Resolution>, ts2: seq<Transition>)
    requires EdgesOk(cfg.edges, cfg.NodeNames())
    requires token != "" && OneToken(cfg, st, token) && run.id in st.runTokens
    requires Resolves(cfg, st, runs, run, st1, r1, ts1) && Resolves(cfg, st, runs, run, st2, r2, ts2)
    ensures st1 == st2 && r1 == r2
  {
    ResolvedUnderToken(cfg, st, runs, run, st1, r1, ts1, token);
    ResolvedUnderToken(cfg, st, runs, run, st2, r2, ts2, token);
    if r1.Some? {
      ReadyListIsUnique(cfg, Arrived(st, run, Evaluate(run.result, cfg.Outgoing(run.node)).value), ts1, ts2);
    }
  }

  // ----- the whole replay -----

  /** The replay knows all its runs under the entry run's token. */
  ghost predicate ReplayKnown(cfg: Config, p: Replay, runs: seq<Run>) {
    p.history == runs &&
    if runs == [] then p == NOTHING
    else OneToken(cfg, p.engine, runs[0].id) && RunsKnown(cfg, p.engine, runs, runs[0].id)
  }

  lemma IdsKnown(cfg: Config, st: EngineState, runs: seq<Run>, token: string, id: string)
    requires RunsKnown(cfg, st, runs, token) && id in Ids(runs)
    ensures id in st.runTokens
  {
    var i :| 0 <= i < |runs| && runs[i].id == id;
    assert RunKnown(cfg, st, runs[i], token);
  }

  lemma EnterKnown(cfg: Config, p: Replay, runs: seq<Run>, run: Run)
    requires ReplayKnown(cfg, p, runs) && run.node in cfg.NodeNames()
    requires if runs == [] then run.trigger == None && run.id != "" else
               runs[0].id != "" && run.trigger.Some? && run.trigger.value.runId in Ids(runs)
    ensures ReplayKnown(cfg, Enter(p, run), runs + [run])
  {
    var entered := Enter(p, run);
    if runs == [] {
      assert entered.engine.StartedUnder(run.id) == {run.node};
      assert runs + [run] == [run];
    } else {
      IdsKnown(cfg, p.engine, runs, runs[0].id, run.trigger.value.runId);
      NewRunKnown(cfg, p.engine, runs, run, runs[0].id);
      assert (runs + [run])[0] == runs[0];
    }
  }

  lemma ResolvedKnown(cfg: Config, p: Replay, runs: seq<Run>, run: Run, st: EngineState, r: Option<Resolution>,
                      ts: seq<Transition>)
    requires EdgesOk(cfg.edges, cfg.NodeNames())
    requires runs != [] && runs[0].id != "" && run in runs && ReplayKnown(cfg, p, runs)
    requires Resolves(cfg, p.engine, p.history, run, st, r, ts)
    ensures ReplayKnown(cfg, p.(engine := st), runs)
  {
    var token := runs[0].id;
    assert RunKnown(cfg, p.engine, run, token);
    ResolvedUnderToken(cfg, p.engine, p.history, run, st, r, ts, token);
    forall x | x in runs
      ensures RunKnown(cfg, st, x, token)
    {
      assert RunKnown(cfg, p.engine, x, token);
    }
  }

  lemma StepKnown(cfg: Config, p: Replay, e: Event, p': Replay, runs: seq<Run>)
    requires EdgesOk(cfg.edges, cfg.NodeNames()) && ReplayStep(cfg, p, e, p')
    requires ReplayKnown(cfg, Enter(p, e.run), runs + [e.run]) && (runs + [e.run])[0].id != ""
    ensures ReplayKnown(cfg, p', runs + [e.run])
  {
    if e.run.status == Done {
      var entered := Enter(p, e.run);
      assert e.run in runs + [e.run];
      ResolvedKnown(cfg, entered, runs + [e.run], e.run, e.st, e.r, e.ts);
      RaiseAllHistory(entered.(engine := e.st), e.r.value.blocked, CompletionTime(e.run));
    }
  }

  lemma ParentsFirstFront(cfg: Config, runs: seq<Run>, run: Run)
    requires ParentsFirst(cfg, runs + [run])
    ensures ParentsFirst(cfg, runs)
    ensures run.node in cfg.NodeNames()
    ensures (runs + [run])[0].id != ""
    ensures if runs == [] then run.trigger == None && run.id != "" else
              runs[0].id != "" && run.trigger.Some? && run.trigger.value.runId in Ids(runs)
  {
    var all := runs + [run];
    assert all[|runs|] == run && all[..|runs|] == runs;
    forall i | 0 <= i < |runs|
      ensures all[i] == runs[i]
      ensures all[..i] == runs[..i]
    {
    }
  }

  lemma {:induction false} ReplayIsKnown(cfg: Config, states: seq<Replay>, events: seq<Event>)
    requires EdgesOk(cfg.edges, cfg.NodeNames()) && IsReplay(cfg, states, events) && ParentsFirst(cfg, RunsOf(events))
    ensures ReplayKnown(cfg, states[|events|], RunsOf(events))
  {
    if events != [] {
      var n := |events| - 1;
      var front, run := RunsOf(events[..n]), events[n].run;
      ParentsFirstFront(cfg, front, run);
      ReplayIsKnown(cfg, states[..n + 1], events[..n]);
      EnterKnown(cfg, states[n], front, run);
      StepKnown(cfg, states[n], events[n], states[n + 1], front);
    }
  }

  lemma StepIsUnique(cfg: Config, p: Replay, e: Event, p': Replay, f: Event, q': Replay, runs: seq<Run>)
    requires EdgesOk(cfg.edges, cfg.NodeNames()) && e.run == f.run
    requires ReplayStep(cfg, p, e, p') && ReplayStep(cfg, p, f, q')
    requires ReplayKnown(cfg, Enter(p, e.run), runs + [e.run]) && (runs + [e.run])[0].id != ""
    ensures p' == q'
  {
    if e.run.status == Done {
      var entered := Enter(p, e.run);
      assert e.run in runs + [e.run];
      assert RunKnown(cfg, entered.engine, e.run, (runs + [e.run])[0].id);
      ResolutionIsUnique(cfg, entered.engine, entered.history, e.run, (runs + [e.run])[0].id, e.st, e.r, e.ts,
                         f.st, f.r, f.ts);
    }
  }

  lemma {:induction false} ReplayIsUnique(cfg: Config, states: seq<Replay>, events: seq<Event>, states': seq<Replay>,
                                          events': seq<Event>)
    requires EdgesOk(cfg.edges, cfg.NodeNames()) && IsReplay(cfg, states, events) && IsReplay(cfg, states', events')
    requires RunsOf(events) == RunsOf(events') && |events| == |events'| && ParentsFirst(cfg, RunsOf(events))
    ensures states[|events|] == states'[|events'|]
  {
    if events != [] {
      var n := |events| - 1;
      var front, run := RunsOf(events[..n]), events[n].run;
      SameRuns(events, events');
      ParentsFirstFront(cfg, front, run);
      ReplayIsUnique(cfg, states[..n + 1], events[..n], states'[..n + 1], events'[..n]);
      ReplayIsKnown(cfg, states[..n + 1], events[..n]);
      EnterKnown(cfg, states[n], front, run);
      StepIsUnique(cfg, states[n], events[n], states[n + 1], events'[n], states'[n + 1], front);
    }
  }

  /** Whatever the order of the input and of the groups within a node, the steps are the same. */
  lemma StepsAreUnique(cfg: Config, runs: seq<Run>, other: seq<Run>, steps: Option<seq<BlockedStep>>,
                       steps': Option<seq<BlockedStep>>)
    requires EdgesOk(cfg.edges, cfg.NodeNames()) && multiset(runs) == multiset(other) && DistinctIds(runs)
    requires ParentsFirst(cfg, Sort(RunLe, runs))
    requires IsDerivation(cfg, runs, steps) && IsDerivation(cfg, other, steps')
    ensures steps == steps'
  {
    InputOrderDoesNotMatter(cfg, runs, other, steps');
    var states: seq<Replay>, events: seq<Event> :| Derives(cfg, runs, states, events, steps);
    var states': seq<Replay>, events': seq<Event> :| Derives(cfg, runs, states', events', steps');
    if steps.Some? {
      RunsOfLength(events);
      RunsOfLength(events');
      ReplayIsUnique(cfg, states, events, states', events');
    }
  }

  // ----- numbering -----

  /** Every open step is numbered beyond its node's limit. */
  ghost predicate BeyondLimit(cfg: Config, p: Replay) {
    forall key :: key in p.open ==> p.open[key].iteration > MaxIterations(cfg, p.open[key].node)
  }

  lemma {:induction false} RaiseAllBeyond(cfg: Config, p: Replay, blocked: seq<Transition>, at: int)
    requires BeyondLimit(cfg, p) && forall t :: t in blocked ==> ExceedsIterations(cfg, p.history, t.to)
    ensures BeyondLimit(cfg, RaiseAll(p, blocked, at))
    ensures RaiseAll(p, blocked, at).history == p.history
  {
    if blocked != [] {
      RaiseAllBeyond(cfg, p, blocked[..|blocked| - 1], at);
      assert blocked[|blocked| - 1] in blocked;
    }
  }

  lemma {:induction false} ReplayBeyondLimit(cfg: Config, states: seq<Replay>, events: seq<Event>)
    requires IsReplay(cfg, states, events)
    ensures BeyondLimit(cfg, states[|events|])
  {
    if events != [] {
      var n := |events| - 1;
      ReplayBeyondLimit(cfg, states[..n + 1], events[..n]);
      var entered, e := Enter(states[n], events[n].run), events[n];
      assert BeyondLimit(cfg, entered);
      if e.run.status == Done {
        SplitKeepsAll(cfg, entered.history, e.ts);
        RaiseAllBeyond(cfg, entered.(engine := e.st), e.r.value.blocked, CompletionTime(e.run));
      }
    }
  }

  /** The iteration that a listed step would start exceeds the limit of its node. */
  lemma ListedBeyondLimit(cfg: Config, runs: seq<Run>, steps: Option<seq<BlockedStep>>)
    requires IsDerivation(cfg, runs, steps) && steps.Some?
    ensures forall step :: step in steps.value ==> step.iteration > MaxIterations(cfg, step.node)
  {
    var states: seq<Replay>, events: seq<Event> :| Derives(cfg, runs, states, events, steps);
    var p := states[|events|];
    ReplayBeyondLimit(cfg, states, events);
    SortHasSame(OpenSteps(p.open, p.order));
    forall step | step in steps.value
      ensures step.iteration > MaxIterations(cfg, step.node)
    {
      OpenStepsMember(p.open, p.order, step);
    }
  }
}
