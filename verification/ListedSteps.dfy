/** Which blocked steps are listed, and what each says, in terms of the history: the group that a completion
    refused, and the runs that clear a step by continuing it or by retrying the failed run of an older record. */
module ListedSteps {
  import opened Options
  import opened ConfigValues
  import opened TaskConfig
  import opened EdgeEvaluation
  import opened TaskRuns
  import opened TaskEngine
  import opened EngineObject
  import opened EngineProofs
  import opened TaskSchedule
  import opened BlockedSteps
  import opened BlockedStepProofs
  import opened ReplayOutcomes
  import opened Ordering

  // ----- what clears a step -----

  /** The failed run by which older versions recorded that `node` was blocked after `source`. */
  ghost predicate RecordsBlock(run: Run, source: string, node: string) {
    && run.node == node
    && run.status == Failed
    && run.trigger.Some?
    && run.trigger.value.runId == source
    && exists a, b :: run.failureReason == a + "exceeded max_iterations" + b
  }

  ghost predicate IsLatestWith(runs: seq<Run>, i: nat, j: nat, id: string) {
    i < j <= |runs| && runs[i].id == id && forall k :: i < k < j ==> runs[k].id != id
  }

  /** The j-th run clears the step of `node` after `source`: it continues it, forced or not, or it retries,
      forced or not, the run that records it. */
  ghost predicate ClearsStep(runs: seq<Run>, j: nat, source: string, node: string)
    requires j < |runs|
  {
    && runs[j].node == node
    && runs[j].trigger.Some?
    && var t := runs[j].trigger.value;
       || t == Trigger(source, ManualContinue)
       || t == Trigger(source, ManualContinueForce)
       || ((t.reason == ManualRetry || t.reason == ManualRetryForce)
           && exists i: nat :: IsLatestWith(runs, i, j, t.runId) && RecordsBlock(runs[i], source, node))
  }

  lemma ContainsIff(s: string, sub: string)
    ensures Contains(s, sub) <==> exists a, b :: s == a + sub + b
  {
    if i :| 0 <= i <= |s| && sub <= s[i..] {
      assert s == s[..i] + sub + s[i + |sub|..];
    }
    if a, b :| s == a + sub + b {
      assert s[|a|..] == sub + b;
    }
  }

  lemma {:induction false} FindRunIs(runs: seq<Run>, id: string)
    ensures FindRun(runs, id) == None ==> forall i :: 0 <= i < |runs| ==> runs[i].id != id
    ensures FindRun(runs, id).Some? ==>
              exists i: nat :: IsLatestWith(runs, i, |runs|, id) && FindRun(runs, id) == Some(runs[i])
  {
    if runs != [] {
      var n := |runs| - 1;
      if runs[n].id == id {
        assert IsLatestWith(runs, n, |runs|, id);
      } else {
        FindRunIs(runs[..n], id);
        if FindRun(runs[..n], id).Some? {
          var i: nat :| IsLatestWith(runs[..n], i, n, id) && FindRun(runs[..n], id) == Some(runs[..n][i]);
          assert IsLatestWith(runs, i, |runs|, id);
        }
      }
    }
  }

  lemma LatestIsOne(runs: seq<Run>, i: nat, k: nat, j: nat, id: string)
    requires IsLatestWith(runs, i, j, id) && IsLatestWith(runs, k, j, id)
    ensures i == k
  {
  }

  /** Triggers name runs as runs are named. */
  predicate TriggersNamed(runs: seq<Run>) {
    forall i :: 0 <= i < |runs| && runs[i].trigger.Some? ==> NoArrow(runs[i].trigger.value.runId)
  }

  lemma SurrogateIff(run: Run, source: string, node: string)
    requires run.trigger.Some? ==> NoArrow(run.trigger.value.runId)
    requires NoArrow(source)
    ensures RecordsBlock(run, source, node) <==>
              IsLegacyBlockedSurrogate(run, node)
              && BlockedStepKey(run.trigger.value.runId, node) == BlockedStepKey(source, node)
  {
    ContainsIff(run.failureReason, "exceeded max_iterations");
    if IsLegacyBlockedSurrogate(run, node)
      && BlockedStepKey(run.trigger.value.runId, node) == BlockedStepKey(source, node) {
      KeyIsInjective(run.trigger.value.runId, node, source, node);
    }
  }

  /** What the derivation clears is what the history says. */
  lemma ClearsIff(runs: seq<Run>, j: nat, source: string, node: string)
    requires j < |runs| && TriggersNamed(runs) && NoArrow(source)
    ensures Clears(runs[..j], runs[j]) == Some(BlockedStepKey(source, node)) <==> ClearsStep(runs, j, source, node)
  {
    var run := runs[j];
    if run.trigger.Some? {
      var t := run.trigger.value;
      if t.reason == ManualContinue || t.reason == ManualContinueForce {
        ContinuedIff(run, source, node);
      } else if t.reason == ManualRetry || t.reason == ManualRetryForce {
        RetriedIff(runs, j, source, node);
      }
    }
  }

  lemma ContinuedIff(run: Run, source: string, node: string)
    requires run.trigger.Some? && NoArrow(run.trigger.value.runId) && NoArrow(source)
    ensures BlockedStepKey(run.trigger.value.runId, run.node) == BlockedStepKey(source, node) <==>
              run.trigger.value.runId == source && run.node == node
  {
    if BlockedStepKey(run.trigger.value.runId, run.node) == BlockedStepKey(source, node) {
      KeyIsInjective(run.trigger.value.runId, run.node, source, node);
    }
  }

  lemma RetriedIff(runs: seq<Run>, j: nat, source: string, node: string)
    requires j < |runs| && TriggersNamed(runs) && NoArrow(source)
    requires runs[j].trigger.Some? && IsManualRetry(runs[j].trigger.value.reason)
    requires !IsManualContinue(runs[j].trigger.value.reason)
    ensures Clears(runs[..j], runs[j]) == Some(BlockedStepKey(source, node)) <==>
              runs[j].node == node
              && exists i: nat :: IsLatestWith(runs, i, j, runs[j].trigger.value.runId)
                   && RecordsBlock(runs[i], source, node)
  {
    var id := runs[j].trigger.value.runId;
    FindRunIs(runs[..j], id);
    var parent := FindRun(runs[..j], id);
    if parent.Some? {
      var i: nat :| IsLatestWith(runs[..j], i, j, id) && parent == Some(runs[..j][i]);
      assert IsLatestWith(runs, i, j, id) && parent == Some(runs[i]);
      RetryOfIff(runs[i], runs[j].node, source, node);
      forall k: nat | IsLatestWith(runs, k, j, id)
        ensures k == i
      {
        LatestIsOne(runs, i, k, j, id);
      }
    } else {
      forall k: nat
        ensures !IsLatestWith(runs, k, j, id)
      {
        assert k < j ==> runs[..j][k].id == runs[k].id;
      }
    }
  }

  lemma RetryOfIff(parent: Run, retried: string, source: string, node: string)
    requires (parent.trigger.Some? ==> NoArrow(parent.trigger.value.runId)) && NoArrow(source)
    ensures IsLegacyBlockedSurrogate(parent, retried)
            && BlockedStepKey(parent.trigger.value.runId, retried) == BlockedStepKey(source, node) <==>
              retried == node && RecordsBlock(parent, source, node)
  {
    SurrogateIff(parent, source, node);
    if IsLegacyBlockedSurrogate(parent, retried)
      && BlockedStepKey(parent.trigger.value.runId, retried) == BlockedStepKey(source, node) {
      KeyIsInjective(parent.trigger.value.runId, retried, source, node);
    }
  }

  ghost predicate ClearedLater(runs: seq<Run>, i: nat, source: string, node: string) {
    exists j :: i < j < |runs| && ClearsStep(runs, j, source, node)
  }

  lemma ClearedAfterIff(runs: seq<Run>, i: nat, source: string, node: string)
    requires TriggersNamed(runs) && NoArrow(source)
    ensures ClearedAfter(runs, i, BlockedStepKey(source, node)) <==> ClearedLater(runs, i, source, node)
  {
    forall j | i < j < |runs|
      ensures Clears(runs[..j], runs[j]) == Some(BlockedStepKey(source, node)) <==> ClearsStep(runs, j, source, node)
    {
      ClearsIff(runs, j, source, node);
    }
  }

  // ----- what an open step says -----

  /** When the run completed, and when it started if that is not recorded. */
  predicate IsCompletionOf(run: Run, at: int) {
    run.completedAt == Some(at) || (run.completedAt == None && run.startedAt == at)
  }

  /** The i-th run's completion refused the step's node under `token`; the step has the refused group's trigger and
      the time of the completion, and is numbered behind the runs of the node so far, among the refused groups. */
  ghost predicate RaisedFrom(cfg: Config, runs: seq<Run>, i: nat, token: string, step: BlockedStep) {
    && Refuses(cfg, runs, i, step.node, token)
    && step.trigger == EngineAt(cfg, runs, i).TransitionOf(step.node, token).trigger
    && IsCompletionOf(runs[i], step.createdAt)
    && 0 < step.iteration - IterationCount(runs[..i + 1], step.node)
         <= |EngineAt(cfg, runs, i).ReadyTokens(cfg, step.node)|
  }

  ghost predicate StandsFrom(cfg: Config, runs: seq<Run>, i: nat, token: string, step: BlockedStep) {
    RaisedFrom(cfg, runs, i, token, step) && !ClearedAfter(runs, i, KeyOf(step))
  }

  ghost predicate HasOrigin(cfg: Config, runs: seq<Run>, step: BlockedStep) {
    exists i: nat, token :: StandsFrom(cfg, runs, i, token, step)
  }

  lemma {:induction false} CountedTokens(ts: seq<Transition>, node: string)
    requires DistinctGroups(ts)
    ensures CountTo(ts, node) == |TokensTo(ts, node)|
  {
    if ts == [] {
      assert TokensTo(ts, node) == {};
    } else {
      var front, last := ts[..|ts| - 1], ts[|ts| - 1];
      assert forall i :: 0 <= i < |front| ==> front[i] == ts[i];
      CountedTokens(front, node);
      assert ts == front + [last];
      CountToSnoc(front, last, node);
      TokensToAppend(ts, node);
      if last.to == node {
        assert last.token !in TokensTo(front, node);
      }
    }
  }

  /** How many transitions to the same node come before the m-th. */
  lemma FewerThanReady(cfg: Config, st: EngineState, ts: seq<Transition>, m: nat)
    requires ListsReady(cfg, st, ts) && m < |ts|
    ensures CountTo(ts[..m], ts[m].to) < |st.ReadyTokens(cfg, ts[m].to)|
  {
    var node := ts[m].to;
    CountedLater(ts, ts, m, |ts|, node);
    assert ts[..|ts|] == ts;
    ListsReadyOrdered(cfg, st, ts);
    CountedTokens(ts, node);
    ListedTokensAreReady(cfg, st, ts, node);
  }

  lemma {:induction false} RaisedAtPlace(cfg: Config, p: Replay, e: Event, p': Replay, runs: seq<Run>, m: nat)
    requires e.run.status == Done && ReplayStep(cfg, p, e, p') && runs == p.history + [e.run]
    requires BlockedBy(e) == Refused(cfg, runs, e.ts) && DifferentKeys(BlockedBy(e))
    requires m < |e.ts| && ExceedsIterations(cfg, runs, e.ts[m].to)
    ensures var t := e.ts[m];
            && TransitionKey(t) in p'.open
            && p'.open[TransitionKey(t)]
               == BlockedStep(t.to, IterationCount(runs, t.to) + 1 + CountTo(e.ts[..m], t.to), t.trigger,
                              CompletionTime(e.run))
  {
    RefusedPlace(cfg, runs, e.ts, m);
    var k := |Refused(cfg, runs, e.ts[..m])|;
    RaisedStep(Enter(p, e.run).(engine := e.st), BlockedBy(e), CompletionTime(e.run), k);
    CountRefused(cfg, runs, e.ts[..m], e.ts[m].to);
  }

  lemma {:induction false} RefusedSays(cfg: Config, front: seq<Run>, run: Run, ts: seq<Transition>, m: nat,
                                       step: BlockedStep)
    requires run.status == Done && ListsReady(cfg, EngineAt(cfg, front + [run], |front|), ts)
    requires m < |ts| && ExceedsIterations(cfg, front + [run], ts[m].to)
    requires step == BlockedStep(ts[m].to, IterationCount(front + [run], ts[m].to) + 1 + CountTo(ts[..m], ts[m].to),
                                 ts[m].trigger, CompletionTime(run))
    ensures RaisedFrom(cfg, front + [run], |front|, ts[m].token, step)
  {
    var runs := front + [run];
    SplitMembers(cfg, runs, ts, ts[m]);
    RefusalOf(cfg, runs, ts, ts[m]);
    FewerThanReady(cfg, EngineAt(cfg, runs, |front|), ts, m);
    assert runs[..|front| + 1] == runs;
  }

  lemma {:induction false} RaisedAs(cfg: Config, p: Replay, e: Event, p': Replay, front: seq<Run>, m: nat)
    requires SendsApart(cfg) && RaisedOnce(p) && WellNamed(front + [e.run]) && e.run.status == Done
    requires p.engine == EngineAfter(cfg, front) && p.history == front && ReplayStep(cfg, p, e, p')
    requires m < |e.ts| && ExceedsIterations(cfg, front + [e.run], e.ts[m].to)
    ensures var t, runs := e.ts[m], front + [e.run];
            && TransitionKey(t) in p'.open
            && p'.open[TransitionKey(t)]
               == BlockedStep(t.to, IterationCount(runs, t.to) + 1 + CountTo(e.ts[..m], t.to), t.trigger,
                              CompletionTime(e.run))
  {
    FrontWellNamed(front, e.run);
    StepIsKnown(cfg, p, e, p', front);
    NewKeys(cfg, p, e, p');
    RaisedAtPlace(cfg, p, e, p', front + [e.run], m);
  }

  lemma {:induction false} RaisedNow(cfg: Config, p: Replay, e: Event, p': Replay, front: seq<Run>, m: nat)
    requires SendsApart(cfg) && RaisedOnce(p) && WellNamed(front + [e.run]) && e.run.status == Done
    requires p.engine == EngineAfter(cfg, front) && p.history == front && ReplayStep(cfg, p, e, p')
    requires m < |e.ts| && ExceedsIterations(cfg, front + [e.run], e.ts[m].to)
    ensures var key := TransitionKey(e.ts[m]);
            && key in p'.open
            && KeyOf(p'.open[key]) == key
            && RaisedFrom(cfg, front + [e.run], |front|, e.ts[m].token, p'.open[key])
  {
    StepIsKnown(cfg, p, e, p', front);
    RaisedAs(cfg, p, e, p', front, m);
    RefusedSays(cfg, front, e.run, e.ts, m, p'.open[TransitionKey(e.ts[m])]);
  }

  lemma OriginStays(cfg: Config, front: seq<Run>, run: Run, step: BlockedStep)
    requires HasOrigin(cfg, front, step) && Clears(front, run) != Some(KeyOf(step))
    ensures HasOrigin(cfg, front + [run], step)
  {
    var i: nat, token :| StandsFrom(cfg, front, i, token, step);
    var runs := front + [run];
    assert runs[..i] == front[..i] && runs[i] == front[i] && runs[..i + 1] == front[..i + 1];
    ClearedNext(front, run, i, KeyOf(step));
    assert StandsFrom(cfg, runs, i, token, step);
  }

  lemma OpenStepStays(cfg: Config, front: seq<Run>, p: Replay, run: Run, key: string)
    requires p.history == front && Filed(p) && key in Enter(p, run).open && HasOrigin(cfg, front, p.open[key])
    ensures HasOrigin(cfg, front + [run], Enter(p, run).open[key])
  {
    OriginStays(cfg, front, run, p.open[key]);
  }

  lemma {:induction false} StepHasOrigins(cfg: Config, p: Replay, e: Event, p': Replay, front: seq<Run>, key: string)
    requires SendsApart(cfg) && RaisedOnce(p) && WellNamed(front + [e.run])
    requires p.engine == EngineAfter(cfg, front) && p.history == front && ReplayStep(cfg, p, e, p')
    requires (forall k :: k in p.open ==> HasOrigin(cfg, front, p.open[k])) && key in p'.open
    ensures HasOrigin(cfg, front + [e.run], p'.open[key])
  {
    if e.run.status == Done && exists m :: 0 <= m < |e.ts| && ExceedsIterations(cfg, front + [e.run], e.ts[m].to)
                                           && TransitionKey(e.ts[m]) == key {
      var m :| 0 <= m < |e.ts| && ExceedsIterations(cfg, front + [e.run], e.ts[m].to) && TransitionKey(e.ts[m]) == key;
      RaisedNow(cfg, p, e, p', front, m);
      assert StandsFrom(cfg, front + [e.run], |front|, e.ts[m].token, p'.open[key]);
    } else {
      if e.run.status == Done {
        StepIsKnown(cfg, p, e, p', front);
        SplitKeepsAll(cfg, front + [e.run], e.ts);
        assert forall t :: t in BlockedBy(e) ==> TransitionKey(t) != key;
        OthersStay(Enter(p, e.run).(engine := e.st), BlockedBy(e), CompletionTime(e.run), key);
      }
      OpenStepStays(cfg, front, p, e.run, key);
    }
  }

  lemma LastStep(cfg: Config, runs: seq<Run>, p: Replay) returns (q: Replay, e: Event)
    requires Reached(cfg, runs, p) && runs != []
    ensures Reached(cfg, runs[..|runs| - 1], q) && e.run == runs[|runs| - 1] && ReplayStep(cfg, q, e, p)
  {
    var states, events :| ReachedBy(cfg, runs, p, states, events);
    var n := |events| - 1;
    q, e := states[n], events[n];
    assert runs == RunsOf(events[..n]) + [e.run];
    assert ReachedBy(cfg, runs[..|runs| - 1], q, states[..n + 1], events[..n]);
  }

  /** Every open step says which refusal raised it, and no later run cleared it. */
  lemma {:induction false} OpenHaveOrigins(cfg: Config, runs: seq<Run>, p: Replay)
    requires SendsApart(cfg) && WellNamed(runs) && Reached(cfg, runs, p)
    ensures forall key :: key in p.open ==> HasOrigin(cfg, runs, p.open[key])
  {
    if runs == [] {
      NothingOpen(cfg, p);
    } else {
      var n := |runs| - 1;
      var q, e := LastStep(cfg, runs, p);
      assert runs == runs[..n] + [e.run];
      FrontWellNamed(runs[..n], e.run);
      OpenHaveOrigins(cfg, runs[..n], q);
      ReachedIsKnown(cfg, runs[..n], q);
      forall key | key in p.open
        ensures HasOrigin(cfg, runs, p.open[key])
      {
        StepHasOrigins(cfg, q, e, p, runs[..n], key);
      }
    }
  }

  lemma NothingOpen(cfg: Config, p: Replay)
    requires Reached(cfg, [], p)
    ensures p.open == map[]
  {
    var states, events :| ReachedBy(cfg, [], p, states, events);
  }

  // ----- every uncleared refusal is open -----

  lemma {:induction false} RefusedIsOpen(cfg: Config, p: Replay, e: Event, p': Replay, front: seq<Run>, node: string,
                                         token: string)
    requires SendsApart(cfg) && RaisedOnce(p) && WellNamed(front + [e.run])
    requires p.engine == EngineAfter(cfg, front) && p.history == front && ReplayStep(cfg, p, e, p')
    requires Refuses(cfg, front + [e.run], |front|, node, token)
    ensures RefusedKey(cfg, front + [e.run], |front|, node, token) in p'.open
  {
    var runs, i := front + [e.run], |front|;
    StepIsKnown(cfg, p, e, p', front);
    assert runs[..i + 1] == runs && runs[i] == e.run;
    var m := PlaceOf(cfg, EngineAt(cfg, runs, i), e.ts, node, token);
    RaisedAs(cfg, p, e, p', front, m);
  }

  lemma OpenStaysOpen(cfg: Config, p: Replay, e: Event, p': Replay, front: seq<Run>, key: string)
    requires SendsApart(cfg) && RaisedOnce(p) && WellNamed(front + [e.run])
    requires p.history == front && ReplayStep(cfg, p, e, p')
    requires key in p.open && Clears(front, e.run) != Some(key)
    ensures key in p'.open
  {
    FrontWellNamed(front, e.run);
    StepKeepsOpen(cfg, p, e, p', key);
  }

  lemma EarlierStands(cfg: Config, front: seq<Run>, run: Run, i: nat, node: string, token: string)
    requires i < |front| && Refuses(cfg, front + [run], i, node, token)
    requires !ClearedAfter(front + [run], i, RefusedKey(cfg, front + [run], i, node, token))
    ensures Refuses(cfg, front, i, node, token)
    ensures var key := RefusedKey(cfg, front, i, node, token);
            && !ClearedAfter(front, i, key) && Clears(front, run) != Some(key)
            && key == RefusedKey(cfg, front + [run], i, node, token)
  {
    RefusesStays(cfg, front, run, i, node, token);
    ClearedNext(front, run, i, RefusedKey(cfg, front, i, node, token));
  }

  lemma {:induction false} UnclearedIsOpen(cfg: Config, runs: seq<Run>, p: Replay, i: nat, node: string, token: string)
    requires SendsApart(cfg) && WellNamed(runs) && Reached(cfg, runs, p)
    requires Refuses(cfg, runs, i, node, token) && !ClearedAfter(runs, i, RefusedKey(cfg, runs, i, node, token))
    ensures RefusedKey(cfg, runs, i, node, token) in p.open
  {
    var q, e := LastStep(cfg, runs, p);
    var front := runs[..|runs| - 1];
    assert runs == front + [e.run];
    FrontWellNamed(front, e.run);
    ReachedIsKnown(cfg, front, q);
    if i < |front| {
      EarlierStands(cfg, front, e.run, i, node, token);
      UnclearedIsOpen(cfg, front, q, i, node, token);
      OpenStaysOpen(cfg, q, e, p, front, RefusedKey(cfg, front, i, node, token));
    } else {
      RefusedIsOpen(cfg, q, e, p, front, node, token);
    }
  }

  // ----- the sources of refused groups -----

  lemma SourceIsRun(cfg: Config, runs: seq<Run>, i: nat, node: string, token: string)
    requires SendsApart(cfg) && WellNamed(runs) && AllResolvable(cfg, runs) && Refuses(cfg, runs, i, node, token)
    ensures NoArrow(EngineAt(cfg, runs, i).TransitionOf(node, token).trigger.runId)
  {
    var p := BeforeRun(cfg, runs, i);
    var entered, run := Enter(p, runs[i]), runs[i];
    EnterOnce(p, run);
    assert run in runs && TargetsApart(cfg, run);
    var hops := Evaluate(run.result, cfg.Outgoing(run.node)).value;
    ArrivedOnce(entered.engine, run, hops, Ids(p.history), p.order);
    var arrived := EngineAt(cfg, runs, i);
    var items := arrived.PendingAt(node);
    GroupMember(items, token);
    var first := Group(items, token)[0];
    assert first in Group(items, token);
    assert NotRaised(Ids(p.history) + {run.id}, p.order, node, first);
  }

  // ----- what is listed -----

  /** The i-th run's completion refused a group of `node` that `source` had set off. */
  ghost predicate RefusedAfter(cfg: Config, runs: seq<Run>, i: nat, source: string, node: string) {
    exists token :: Refuses(cfg, runs, i, node, token)
      && EngineAt(cfg, runs, i).TransitionOf(node, token).trigger.runId == source
  }

  ghost predicate StandsFor(cfg: Config, runs: seq<Run>, i: nat, source: string, node: string) {
    RefusedAfter(cfg, runs, i, source, node) && !ClearedLater(runs, i, source, node)
  }

  /** A step of a node after a run is listed exactly if a completion refused a group of the node that the run had
      set off first, and no later run continued the step, forced or not, or retried the run that records it. */
  lemma ListedIff(cfg: Config, runs: seq<Run>, steps: seq<BlockedStep>, source: string, node: string)
    requires ConfigOk(cfg) && WellNamed(runs) && TriggersNamed(runs) && NoArrow(source)
    requires AllResolvable(cfg, runs) && IsDerivation(cfg, runs, Some(steps))
    ensures (exists step :: step in steps && step.trigger.runId == source && step.node == node) <==>
              exists i: nat :: StandsFor(cfg, Sort(RunLe, runs), i, source, node)
  {
    ConfigSendsApart(cfg);
    if step :| step in steps && step.trigger.runId == source && step.node == node {
      ListedStands(cfg, runs, steps, step);
    }
    if i: nat :| StandsFor(cfg, Sort(RunLe, runs), i, source, node) {
      StandingIsListed(cfg, runs, steps, i, source, node);
    }
  }

  lemma SortedIsWell(cfg: Config, runs: seq<Run>)
    requires WellNamed(runs) && TriggersNamed(runs) && AllResolvable(cfg, runs)
    ensures var sorted := Sort(RunLe, runs); WellNamed(sorted) && TriggersNamed(sorted) && AllResolvable(cfg, sorted)
  {
    SortedWellNamed(runs);
    SortedHasSame(runs);
    var sorted := Sort(RunLe, runs);
    forall i | 0 <= i < |sorted| && sorted[i].trigger.Some?
      ensures NoArrow(sorted[i].trigger.value.runId)
    {
      assert sorted[i] in runs;
      var k :| 0 <= k < |runs| && runs[k] == sorted[i];
    }
  }

  lemma ListedHasOrigin(cfg: Config, runs: seq<Run>, steps: seq<BlockedStep>, step: BlockedStep)
    requires SendsApart(cfg) && WellNamed(runs) && AllResolvable(cfg, runs)
    requires IsDerivation(cfg, runs, Some(steps)) && step in steps
    ensures HasOrigin(cfg, Sort(RunLe, runs), step)
  {
    var sorted := Sort(RunLe, runs);
    SortedWellNamed(runs);
    var p := DerivedIsReached(cfg, runs, Some(steps));
    OpenHaveOrigins(cfg, sorted, p);
    SortHasSame(OpenSteps(p.open, p.order));
    OpenStepsMember(p.open, p.order, step);
  }

  lemma ListedStands(cfg: Config, runs: seq<Run>, steps: seq<BlockedStep>, step: BlockedStep)
    requires SendsApart(cfg) && WellNamed(runs) && TriggersNamed(runs) && AllResolvable(cfg, runs)
    requires IsDerivation(cfg, runs, Some(steps)) && step in steps && NoArrow(step.trigger.runId)
    ensures exists i: nat :: StandsFor(cfg, Sort(RunLe, runs), i, step.trigger.runId, step.node)
  {
    var sorted := Sort(RunLe, runs);
    SortedIsWell(cfg, runs);
    ListedHasOrigin(cfg, runs, steps, step);
    var i: nat, token :| StandsFrom(cfg, sorted, i, token, step);
    ClearedAfterIff(sorted, i, step.trigger.runId, step.node);
    assert RefusedAfter(cfg, sorted, i, step.trigger.runId, step.node);
    assert StandsFor(cfg, sorted, i, step.trigger.runId, step.node);
  }

  lemma StandingIsListed(cfg: Config, runs: seq<Run>, steps: seq<BlockedStep>, i: nat, source: string, node: string)
    requires SendsApart(cfg) && WellNamed(runs) && TriggersNamed(runs) && NoArrow(source) && AllResolvable(cfg, runs)
    requires IsDerivation(cfg, runs, Some(steps)) && StandsFor(cfg, Sort(RunLe, runs), i, source, node)
    ensures exists step :: step in steps && step.trigger.runId == source && step.node == node
  {
    var sorted := Sort(RunLe, runs);
    SortedIsWell(cfg, runs);
    var token :| Refuses(cfg, sorted, i, node, token)
      && EngineAt(cfg, sorted, i).TransitionOf(node, token).trigger.runId == source;
    ClearedAfterIff(sorted, i, source, node);
    var p := DerivedIsReached(cfg, runs, Some(steps));
    UnclearedIsOpen(cfg, sorted, p, i, node, token);
    var key := BlockedStepKey(source, node);
    ReachedIsKnown(cfg, sorted, p);
    SortHasSame(OpenSteps(p.open, p.order));
    OpenStepsMember(p.open, p.order, p.open[key]);
    OpenHaveOrigins(cfg, sorted, p);
    OriginHasNoArrow(cfg, sorted, p.open[key]);
    KeyIsInjective(p.open[key].trigger.runId, p.open[key].node, source, node);
  }

  lemma OriginHasNoArrow(cfg: Config, runs: seq<Run>, step: BlockedStep)
    requires SendsApart(cfg) && WellNamed(runs) && AllResolvable(cfg, runs) && HasOrigin(cfg, runs, step)
    ensures NoArrow(step.trigger.runId)
  {
    var i: nat, token :| StandsFrom(cfg, runs, i, token, step);
    SourceIsRun(cfg, runs, i, step.node, token);
  }

  /** What a listed step says: the trigger of the refused group, the time of the completion that refused it, and a
      number behind the runs of the node so far, among the groups that were refused together. */
  lemma ListedStepSays(cfg: Config, runs: seq<Run>, steps: seq<BlockedStep>, step: BlockedStep)
    requires ConfigOk(cfg) && WellNamed(runs) && AllResolvable(cfg, runs)
    requires IsDerivation(cfg, runs, Some(steps)) && step in steps
    ensures exists i: nat, token :: RaisedFrom(cfg, Sort(RunLe, runs), i, token, step)
  {
    ConfigSendsApart(cfg);
    ListedHasOrigin(cfg, runs, steps, step);
    var i: nat, token :| StandsFrom(cfg, Sort(RunLe, runs), i, token, step);
  }
}
