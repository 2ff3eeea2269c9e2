/** Exactly when the derived blocked steps are determined by the history.  The groups of one node are consumed
    in the order of a map.  The engine's state does not depend on that order, but the iteration numbers of the
    blocked steps do, where one completion refuses two groups at one node. */
module ReplayOutcomes {
  import opened Options
  import opened ConfigValues
  import opened TaskConfig
  import opened EdgeEvaluation
  import opened TaskRuns
  import opened TaskEngine
  import opened EngineObject
  import opened EngineProofs
  import opened TaskSchedule
  import opened BlockedSteps
  import opened BlockedStepProofs
  import opened Ordering

  // ----- the condition -----

  /** The engine after a replay of the runs. */
  function EngineAfter(cfg: Config, runs: seq<Run>): EngineState {
    if runs == [] then BlockedSteps.NOTHING.engine
    else
      var last := runs[|runs| - 1];
      var st := RegisterAgain(EngineAfter(cfg, runs[..|runs| - 1]), last);
      if last.status == Done then WithArrivals(cfg, st, last).Consumed(cfg) else st
  }

  /** The engine of which the i-th run's completion consumes the ready groups. */
  function EngineAt(cfg: Config, runs: seq<Run>, i: nat): EngineState
    requires i < |runs|
  {
    WithArrivals(cfg, RegisterAgain(EngineAfter(cfg, runs[..i]), runs[i]), runs[i])
  }

  /** The i-th run's completion refuses this group. */
  predicate Refuses(cfg: Config, runs: seq<Run>, i: nat, node: string, token: string) {
    && i < |runs|
    && runs[i].status == Done
    && EngineAt(cfg, runs, i).Ready(cfg, node, token)
    && ExceedsIterations(cfg, runs[..i + 1], node)
  }

  /** The key of the step that the group's refusal raises. */
  function RefusedKey(cfg: Config, runs: seq<Run>, i: nat, node: string, token: string): string
    requires Refuses(cfg, runs, i, node, token)
  {
    TransitionKey(EngineAt(cfg, runs, i).TransitionOf(node, token))
  }

  predicate ClearedAfter(runs: seq<Run>, i: nat, key: string) {
    exists j :: i < j < |runs| && Clears(runs[..j], runs[j]) == Some(key)
  }

  /** One completion refuses two groups at one node, and the first one's step is never cleared. */
  predicate ContestedAt(cfg: Config, runs: seq<Run>, i: nat, node: string, token: string, other: string) {
    && token != other
    && Refuses(cfg, runs, i, node, token)
    && Refuses(cfg, runs, i, node, other)
    && !ClearedAfter(runs, i, RefusedKey(cfg, runs, i, node, token))
  }

  /** The replay gets through, and a step is open at the end that competed for its number. */
  ghost predicate Contested(cfg: Config, runs: seq<Run>) {
    AllResolvable(cfg, runs) && exists i, node, token, other :: ContestedAt(cfg, runs, i, node, token, other)
  }

  /** Whatever the order of the groups, the same steps are derived. */
  ghost predicate IsDetermined(cfg: Config, runs: seq<Run>) {
    forall steps, other :: IsDerivation(cfg, runs, steps) && IsDerivation(cfg, runs, other) ==> steps == other
  }

  // ----- the engine and the history of a replay -----

  lemma StepIsKnown(cfg: Config, p: Replay, e: Event, p': Replay, front: seq<Run>)
    requires p.engine == EngineAfter(cfg, front) && p.history == front && ReplayStep(cfg, p, e, p')
    ensures var runs := front + [e.run];
            && p'.engine == EngineAfter(cfg, runs)
            && p'.history == runs
            && (e.run.status == Done ==>
                  ListsReady(cfg, EngineAt(cfg, runs, |front|), e.ts) && BlockedBy(e) == Refused(cfg, runs, e.ts))
  {
    var runs := front + [e.run];
    assert runs[..|front|] == front && runs[|front|] == e.run;
    if e.run.status == Done {
      RaiseAllHistory(Enter(p, e.run).(engine := e.st), e.r.value.blocked, CompletionTime(e.run));
    }
  }

  lemma {:induction false} ReplayIsKnown(cfg: Config, states: seq<Replay>, events: seq<Event>)
    requires IsReplay(cfg, states, events)
    ensures states[|events|].engine == EngineAfter(cfg, RunsOf(events))
    ensures states[|events|].history == RunsOf(events)
  {
    if events != [] {
      var n := |events| - 1;
      ReplayIsKnown(cfg, states[..n + 1], events[..n]);
      StepIsKnown(cfg, states[n], events[n], states[n + 1], RunsOf(events[..n]));
    }
  }

  // ----- the steps that one completion raises -----

  /** The step for the m-th refusal. */
  function RaisedAs(history: seq<Run>, blocked: seq<Transition>, m: nat, at: int): BlockedStep
    requires m < |blocked|
  {
    var t := blocked[m];
    BlockedStep(t.to, IterationCount(history, t.to) + 1 + CountTo(blocked[..m], t.to), t.trigger, at)
  }

  lemma {:induction false} RaisedStep(p: Replay, blocked: seq<Transition>, at: int, m: nat)
    requires DifferentKeys(blocked) && m < |blocked|
    ensures var open, key := RaiseAll(p, blocked, at).open, TransitionKey(blocked[m]);
            key in open && open[key] == RaisedAs(p.history, blocked, m, at)
  {
    var n := |blocked| - 1;
    var front := blocked[..n];
    if m == n {
      RaiseAllHistory(p, front, at);
    } else {
      assert forall i :: 0 <= i < n ==> front[i] == blocked[i];
      RaisedStep(p, front, at, m);
      assert front[..m] == blocked[..m];
    }
  }

  lemma {:induction false} OthersStay(p: Replay, blocked: seq<Transition>, at: int, key: string)
    requires forall t :: t in blocked ==> TransitionKey(t) != key
    ensures var open := RaiseAll(p, blocked, at).open;
            (key in open <==> key in p.open) && (key in open ==> open[key] == p.open[key])
  {
    if blocked != [] {
      var n := |blocked| - 1;
      assert blocked[n] in blocked;
      assert forall t :: t in blocked[..n] ==> t in blocked;
      OthersStay(p, blocked[..n], at, key);
    }
  }

  ghost predicate SameMembers(bs: seq<Transition>, cs: seq<Transition>) {
    forall t :: t in bs <==> t in cs
  }

  /** Another of the transitions goes to the same node as the one with this key. */
  predicate Competes(bs: seq<Transition>, key: string) {
    exists t, u :: t in bs && u in bs && t != u && t.to == u.to && TransitionKey(t) == key
  }

  lemma {:induction false} CountedIsThere(ts: seq<Transition>, node: string)
    requires CountTo(ts, node) > 0
    ensures exists i :: 0 <= i < |ts| && ts[i].to == node
  {
    var n := |ts| - 1;
    if ts[n].to != node {
      CountedIsThere(ts[..n], node);
      var i :| 0 <= i < |ts[..n]| && ts[..n][i].to == node;
      assert ts[i].to == node;
    }
  }

  lemma AloneIsFirst(bs: seq<Transition>, m: nat)
    requires DifferentKeys(bs) && m < |bs|
    ensures CountTo(bs[..m], bs[m].to) == 0 || Competes(bs, TransitionKey(bs[m]))
  {
    if CountTo(bs[..m], bs[m].to) > 0 {
      CountedIsThere(bs[..m], bs[m].to);
      var i :| 0 <= i < |bs[..m]| && bs[..m][i].to == bs[m].to;
      assert bs[i] in bs && bs[m] in bs && TransitionKey(bs[i]) != TransitionKey(bs[m]);
    }
  }

  lemma RaisedAlike(p: Replay, q: Replay, bs: seq<Transition>, cs: seq<Transition>, at: int, key: string)
    requires p.history == q.history && (key in p.open <==> key in q.open)
    requires DifferentKeys(bs) && DifferentKeys(cs) && SameMembers(bs, cs)
    ensures var open, other := RaiseAll(p, bs, at).open, RaiseAll(q, cs, at).open;
            && (key in open <==> key in other)
            && (key in open && open[key] != other[key] ==>
                  Competes(bs, key) || (key in p.open && p.open[key] != q.open[key] && !RaisedIn(bs, key)))
  {
    if RaisedIn(bs, key) {
      var m :| 0 <= m < |bs| && BlockedStepKey(bs[m].trigger.runId, bs[m].to) == key;
      assert bs[m] in cs;
      var k :| 0 <= k < |cs| && cs[k] == bs[m];
      RaisedStep(p, bs, at, m);
      RaisedStep(q, cs, at, k);
      CompetesAlike(bs, cs, key);
      AloneIsFirst(bs, m);
      AloneIsFirst(cs, k);
    } else {
      NoneRaises(bs, key);
      assert forall t :: t in cs ==> TransitionKey(t) != key;
      OthersStay(p, bs, at, key);
      OthersStay(q, cs, at, key);
    }
  }

  lemma NoneRaises(bs: seq<Transition>, key: string)
    requires !RaisedIn(bs, key)
    ensures forall t :: t in bs ==> TransitionKey(t) != key
  {
  }

  lemma CompetesAlike(bs: seq<Transition>, cs: seq<Transition>, key: string)
    requires SameMembers(bs, cs)
    ensures Competes(bs, key) <==> Competes(cs, key)
  {
  }

  lemma ListsAlike(cfg: Config, st: EngineState, runs: seq<Run>, ts: seq<Transition>, us: seq<Transition>)
    requires ListsReady(cfg, st, ts) && ListsReady(cfg, st, us)
    ensures SameMembers(ts, us)
    ensures SameMembers(Refused(cfg, runs, ts), Refused(cfg, runs, us))
  {
    forall t
      ensures t in ts <==> t in us
    {
      ListsReadyMembers(cfg, st, ts, t);
      ListsReadyMembers(cfg, st, us, t);
    }
    SplitKeepsAll(cfg, runs, ts);
    SplitKeepsAll(cfg, runs, us);
  }

  // ----- the refusals of a completion have keys of their own -----

  lemma NewKeys(cfg: Config, p: Replay, e: Event, p': Replay)
    requires SendsApart(cfg) && RaisedOnce(p) && e.run.status == Done && ReplayStep(cfg, p, e, p')
    requires e.run.id !in Ids(p.history) && NoArrow(e.run.id) && forall id :: id in Ids(p.history) ==> NoArrow(id)
    ensures DifferentKeys(e.ts) && DifferentKeys(BlockedBy(e))
    ensures forall t :: t in BlockedBy(e) ==> TransitionKey(t) !in p.order
  {
    var entered := Enter(p, e.run);
    EnterOnce(p, e.run);
    var hops := Evaluate(e.run.result, cfg.Outgoing(e.run.node)).value;
    assert TargetsApart(cfg, e.run);
    ArrivedOnce(entered.engine, e.run, hops, Ids(p.history), p.order);
    ReadyKeysDiffer(cfg, Arrived(entered.engine, e.run, hops), e.ts, Ids(p.history) + {e.run.id}, p.order);
    RefusedKeysDiffer(cfg, entered.history, e.ts);
    SplitKeepsAll(cfg, entered.history, e.ts);
  }

  // ----- replays exist -----

  lemma CompletionExists(cfg: Config, p: Replay, run: Run, ts: seq<Transition>) returns (e: Event, p': Replay)
    requires run.status == Done && !Unresolvable(cfg, run)
    requires ListsReady(cfg, WithArrivals(cfg, Enter(p, run).engine, run), ts)
    ensures e.run == run && BlockedBy(e) == Refused(cfg, p.history + [run], ts) && ReplayStep(cfg, p, e, p')
    ensures p' == RaiseAll(Enter(p, run).(engine := e.st), BlockedBy(e), CompletionTime(run))
  {
    var entered := Enter(p, run);
    var st := WithArrivals(cfg, entered.engine, run).Consumed(cfg);
    var taskDone := ts == [] && st.pending == map[] && TaskFinished(cfg, entered.history);
    var r := Resolution(Admitted(cfg, entered.history, ts), Refused(cfg, entered.history, ts), taskDone);
    e := Event(run, st, Some(r), ts);
    p' := RaiseAll(entered.(engine := st), BlockedBy(e), CompletionTime(run));
  }

  lemma StepExists(cfg: Config, p: Replay, run: Run) returns (e: Event, p': Replay)
    requires !Unresolvable(cfg, run)
    ensures e.run == run && ReplayStep(cfg, p, e, p')
  {
    if run.status == Done {
      var ts := ReadyListExists(cfg, WithArrivals(cfg, Enter(p, run).engine, run));
      e, p' := CompletionExists(cfg, p, run, ts);
    } else {
      e, p' := Event(run, p.engine, None, []), Enter(p, run);
    }
  }

  /** Some replay of the runs ends at `p`. */
  ghost predicate Reached(cfg: Config, runs: seq<Run>, p: Replay) {
    exists states, events :: ReachedBy(cfg, runs, p, states, events)
  }

  ghost predicate ReachedBy(cfg: Config, runs: seq<Run>, p: Replay, states: seq<Replay>, events: seq<Event>) {
    IsReplay(cfg, states, events) && RunsOf(events) == runs && states[|events|] == p
  }

  lemma StartReached(cfg: Config)
    ensures Reached(cfg, [], BlockedSteps.NOTHING)
  {
    assert ReachedBy(cfg, [], BlockedSteps.NOTHING, [BlockedSteps.NOTHING], []);
  }

  lemma NextReached(cfg: Config, runs: seq<Run>, p: Replay, e: Event, p': Replay)
    requires Reached(cfg, runs, p) && ReplayStep(cfg, p, e, p')
    ensures Reached(cfg, runs + [e.run], p')
  {
    var states, events :| ReachedBy(cfg, runs, p, states, events);
    NextReachedBy(cfg, runs, p, states, events, e, p');
  }

  lemma NextReachedBy(cfg: Config, runs: seq<Run>, p: Replay, states: seq<Replay>, events: seq<Event>, e: Event,
                      p': Replay)
    requires ReachedBy(cfg, runs, p, states, events) && ReplayStep(cfg, p, e, p')
    ensures ReachedBy(cfg, runs + [e.run], p', states + [p'], events + [e])
  {
    ReplaySnoc(cfg, states, events, e, p');
  }

  lemma ReplaySnoc(cfg: Config, states: seq<Replay>, events: seq<Event>, e: Event, p: Replay)
    requires IsReplay(cfg, states, events) && ReplayStep(cfg, states[|events|], e, p)
    ensures IsReplay(cfg, states + [p], events + [e])
    ensures RunsOf(events + [e]) == RunsOf(events) + [e.run]
  {
    assert (states + [p])[..|events| + 1] == states;
    assert (events + [e])[..|events|] == events;
  }

  lemma ReachedIsKnown(cfg: Config, runs: seq<Run>, p: Replay)
    requires Reached(cfg, runs, p)
    ensures p.engine == EngineAfter(cfg, runs) && p.history == runs && Filed(p)
    ensures SendsApart(cfg) && WellNamed(runs) ==> RaisedOnce(p)
  {
    var states, events :| ReachedBy(cfg, runs, p, states, events);
    ReplayIsKnown(cfg, states, events);
    ReplayFiles(cfg, states, events);
    if SendsApart(cfg) && WellNamed(runs) {
      ReplayRaisesOnce(cfg, states, events);
    }
  }

  lemma {:induction false} ReachableBy(cfg: Config, runs: seq<Run>) returns (p: Replay)
    requires AllResolvable(cfg, runs)
    ensures Reached(cfg, runs, p)
  {
    if runs == [] {
      StartReached(cfg);
      p := BlockedSteps.NOTHING;
    } else {
      var front, run := runs[..|runs| - 1], runs[|runs| - 1];
      assert runs == front + [run];
      ResolvableSnoc(cfg, front, run);
      var before := ReachableBy(cfg, front);
      p := OneMoreReached(cfg, front, run, before);
    }
  }

  lemma OneMoreReached(cfg: Config, front: seq<Run>, run: Run, p: Replay) returns (q: Replay)
    requires Reached(cfg, front, p) && !Unresolvable(cfg, run)
    ensures Reached(cfg, front + [run], q)
  {
    var e;
    e, q := StepExists(cfg, p, run);
    NextReached(cfg, front, p, e, q);
  }

  // ----- without a contest there is one outcome -----

  ghost predicate KeyContested(cfg: Config, runs: seq<Run>, key: string) {
    exists i, node, token, other ::
      ContestedAt(cfg, runs, i, node, token, other) && RefusedKey(cfg, runs, i, node, token) == key
  }

  /** Two replays of the same runs: the open steps differ at contested keys only. */
  ghost predicate Alike(cfg: Config, runs: seq<Run>, p: Replay, q: Replay) {
    && p.engine == q.engine == EngineAfter(cfg, runs)
    && p.history == q.history == runs
    && forall key :: AgreeAt(cfg, runs, p, q, key)
  }

  ghost predicate AgreeAt(cfg: Config, runs: seq<Run>, p: Replay, q: Replay, key: string) {
    && (key in p.open <==> key in q.open)
    && (key in p.open && p.open[key] != q.open[key] ==> KeyContested(cfg, runs, key))
  }

  lemma RefusesStays(cfg: Config, front: seq<Run>, run: Run, i: nat, node: string, token: string)
    requires i < |front|
    ensures Refuses(cfg, front + [run], i, node, token) <==> Refuses(cfg, front, i, node, token)
    ensures Refuses(cfg, front, i, node, token) ==>
              RefusedKey(cfg, front + [run], i, node, token) == RefusedKey(cfg, front, i, node, token)
  {
    var runs := front + [run];
    assert runs[..i] == front[..i] && runs[i] == front[i] && runs[..i + 1] == front[..i + 1];
  }

  lemma ClearedNext(front: seq<Run>, run: Run, i: nat, key: string)
    requires i < |front|
    ensures ClearedAfter(front + [run], i, key) <==> ClearedAfter(front, i, key) || Clears(front, run) == Some(key)
  {
    var runs := front + [run];
    assert runs[..|front|] == front && runs[|front|] == run;
    forall j | i < j < |front|
      ensures Clears(runs[..j], runs[j]) == Clears(front[..j], front[j])
    {
      assert runs[..j] == front[..j];
    }
    if ClearedAfter(front, i, key) {
      var j :| i < j < |front| && Clears(front[..j], front[j]) == Some(key);
      assert Clears(runs[..j], runs[j]) == Some(key);
    }
  }

  lemma ContestStays(cfg: Config, front: seq<Run>, run: Run, key: string)
    requires KeyContested(cfg, front, key) && Clears(front, run) != Some(key)
    ensures KeyContested(cfg, front + [run], key)
  {
    var i, node, token, other :|
      ContestedAt(cfg, front, i, node, token, other) && RefusedKey(cfg, front, i, node, token) == key;
    RefusesStays(cfg, front, run, i, node, token);
    RefusesStays(cfg, front, run, i, node, other);
    ClearedNext(front, run, i, key);
    assert ContestedAt(cfg, front + [run], i, node, token, other);
  }

  /** Two refusals of the last completion at one node. */
  lemma ContestedNow(cfg: Config, runs: seq<Run>, t: Transition, u: Transition)
    requires runs != [] && IsRefusal(cfg, runs, t) && IsRefusal(cfg, runs, u) && t != u && t.to == u.to
    ensures KeyContested(cfg, runs, TransitionKey(t))
  {
    assert t.token != u.token;
    assert ContestedAt(cfg, runs, |runs| - 1, t.to, t.token, u.token);
  }

  predicate IsRefusal(cfg: Config, runs: seq<Run>, t: Transition)
    requires runs != []
  {
    && Refuses(cfg, runs, |runs| - 1, t.to, t.token)
    && t == EngineAt(cfg, runs, |runs| - 1).TransitionOf(t.to, t.token)
  }

  /** A step that competes with another of the last completion is contested. */
  lemma CompetesIsContested(cfg: Config, front: seq<Run>, run: Run, ts: seq<Transition>, key: string)
    requires run.status == Done && ListsReady(cfg, EngineAt(cfg, front + [run], |front|), ts)
    requires Competes(Refused(cfg, front + [run], ts), key)
    ensures KeyContested(cfg, front + [run], key)
  {
    var runs := front + [run];
    var bs := Refused(cfg, runs, ts);
    var t, u :| t in bs && u in bs && t != u && t.to == u.to && TransitionKey(t) == key;
    RefusalOf(cfg, runs, ts, t);
    RefusalOf(cfg, runs, ts, u);
    ContestedNow(cfg, runs, t, u);
  }

  lemma RefusalOf(cfg: Config, runs: seq<Run>, ts: seq<Transition>, t: Transition)
    requires runs != [] && runs[|runs| - 1].status == Done && ListsReady(cfg, EngineAt(cfg, runs, |runs| - 1), ts)
    requires t in Refused(cfg, runs, ts)
    ensures IsRefusal(cfg, runs, t)
  {
    SplitMembers(cfg, runs, ts, t);
    ListsReadyMembers(cfg, EngineAt(cfg, runs, |runs| - 1), ts, t);
    assert runs[..|runs|] == runs;
  }

  lemma EnterAlike(cfg: Config, front: seq<Run>, p: Replay, q: Replay, run: Run, key: string)
    requires Alike(cfg, front, p, q)
    ensures var open, other := Enter(p, run).open, Enter(q, run).open;
            && (key in open <==> key in other)
            && (key in open && open[key] != other[key] ==> KeyContested(cfg, front + [run], key))
  {
    assert AgreeAt(cfg, front, p, q, key);
    if key in Enter(p, run).open && Enter(p, run).open[key] != Enter(q, run).open[key] {
      ContestStays(cfg, front, run, key);
    }
  }

  lemma CompletionAlike(cfg: Config, front: seq<Run>, p: Replay, q: Replay, e: Event, f: Event, p': Replay, q': Replay,
                        key: string)
    requires Alike(cfg, front, p, q) && e.run == f.run && e.run.status == Done
    requires ReplayStep(cfg, p, e, p') && ReplayStep(cfg, q, f, q')
    requires DifferentKeys(BlockedBy(e)) && DifferentKeys(BlockedBy(f))
    ensures key in p'.open <==> key in q'.open
    ensures key in p'.open && p'.open[key] != q'.open[key] ==> KeyContested(cfg, front + [e.run], key)
  {
    var runs := front + [e.run];
    StepIsKnown(cfg, p, e, p', front);
    StepIsKnown(cfg, q, f, q', front);
    ListsAlike(cfg, EngineAt(cfg, runs, |front|), runs, e.ts, f.ts);
    EnterAlike(cfg, front, p, q, e.run, key);
    var entered, other := Enter(p, e.run).(engine := e.st), Enter(q, e.run).(engine := f.st);
    RaisedAlike(entered, other, BlockedBy(e), BlockedBy(f), CompletionTime(e.run), key);
    if Competes(BlockedBy(e), key) {
      CompetesIsContested(cfg, front, e.run, e.ts, key);
    }
  }

  lemma StepAlikeAt(cfg: Config, front: seq<Run>, p: Replay, q: Replay, e: Event, f: Event, p': Replay, q': Replay,
                    key: string)
    requires Alike(cfg, front, p, q) && e.run == f.run && ReplayStep(cfg, p, e, p') && ReplayStep(cfg, q, f, q')
    requires SendsApart(cfg) && RaisedOnce(p) && RaisedOnce(q) && WellNamed(front + [e.run])
    ensures AgreeAt(cfg, front + [e.run], p', q', key)
  {
    if e.run.status == Done {
      FrontWellNamed(front, e.run);
      NewKeys(cfg, p, e, p');
      NewKeys(cfg, q, f, q');
      CompletionAlike(cfg, front, p, q, e, f, p', q', key);
    } else {
      EnterAlike(cfg, front, p, q, e.run, key);
    }
  }

  lemma StepAlike(cfg: Config, front: seq<Run>, p: Replay, q: Replay, e: Event, f: Event, p': Replay, q': Replay)
    requires Alike(cfg, front, p, q) && e.run == f.run && ReplayStep(cfg, p, e, p') && ReplayStep(cfg, q, f, q')
    requires SendsApart(cfg) && RaisedOnce(p) && RaisedOnce(q) && WellNamed(front + [e.run])
    ensures Alike(cfg, front + [e.run], p', q')
  {
    StepIsKnown(cfg, p, e, p', front);
    StepIsKnown(cfg, q, f, q', front);
    forall key
      ensures AgreeAt(cfg, front + [e.run], p', q', key)
    {
      StepAlikeAt(cfg, front, p, q, e, f, p', q', key);
    }
  }

  lemma {:induction false} ReplaysAlike(cfg: Config, states: seq<Replay>, events: seq<Event>, states': seq<Replay>,
                                        events': seq<Event>)
    requires SendsApart(cfg) && IsReplay(cfg, states, events) && IsReplay(cfg, states', events')
    requires RunsOf(events) == RunsOf(events') && |events| == |events'| && WellNamed(RunsOf(events))
    ensures Alike(cfg, RunsOf(events), states[|events|], states'[|events'|])
  {
    if events != [] {
      var n := |events| - 1;
      var front, run := RunsOf(events[..n]), events[n].run;
      SameRuns(events, events');
      FrontWellNamed(front, run);
      ReplaysAlike(cfg, states[..n + 1], events[..n], states'[..n + 1], events'[..n]);
      ReplayRaisesOnce(cfg, states[..n + 1], events[..n]);
      ReplayRaisesOnce(cfg, states'[..n + 1], events'[..n]);
      StepAlike(cfg, front, states[n], states'[n], events[n], events'[n], states[n + 1], states'[n + 1]);
    }
  }

  lemma {:induction false} EachOnce(steps: seq<BlockedStep>, step: BlockedStep)
    requires DifferentSteps(steps)
    ensures multiset(steps)[step] == if step in steps then 1 else 0
  {
    if steps != [] {
      var front, last := steps[..|steps| - 1], steps[|steps| - 1];
      assert forall i :: 0 <= i < |front| ==> front[i] == steps[i];
      EachOnce(front, step);
      assert steps == front + [last];
      assert last !in front;
    }
  }

  lemma StepsTellApart(steps: seq<BlockedStep>)
    requires DifferentSteps(steps)
    ensures TellsApart(StepLe, steps)
  {
    forall a, b | a in steps && b in steps && StepLe(a, b) && StepLe(b, a)
      ensures a == b
    {
      StrLeAntisymmetric(KeyOf(a), KeyOf(b));
      var i :| 0 <= i < |steps| && steps[i] == a;
      var j :| 0 <= j < |steps| && steps[j] == b;
      assert i == j;
    }
  }

  lemma SameOnceSorted(steps: seq<BlockedStep>, other: seq<BlockedStep>)
    requires DifferentSteps(steps) && DifferentSteps(other) && forall step :: step in steps <==> step in other
    ensures Sort(StepLe, steps) == Sort(StepLe, other)
  {
    forall step
      ensures multiset(steps)[step] == multiset(other)[step]
    {
      EachOnce(steps, step);
      EachOnce(other, step);
    }
    assert multiset(steps) == multiset(other);
    StepLeIsOrder();
    SortKeeps(StepLe, steps);
    SortKeeps(StepLe, other);
    SortSorts(StepLe, steps);
    SortSorts(StepLe, other);
    SortedStepsDiffer(steps);
    SortedStepsDiffer(other);
    StepsTellApart(Sort(StepLe, steps));
    StepsTellApart(Sort(StepLe, other));
    SortedIsUnique(StepLe, Sort(StepLe, steps), Sort(StepLe, other));
  }

  lemma SameOpenSorted(p: Replay, q: Replay)
    requires RaisedOnce(p) && RaisedOnce(q) && p.open == q.open
    ensures Sort(StepLe, OpenSteps(p.open, p.order)) == Sort(StepLe, OpenSteps(q.open, q.order))
  {
    OpenStepsDiffer(p.open, p.order);
    OpenStepsDiffer(q.open, q.order);
    forall step
      ensures step in OpenSteps(p.open, p.order) <==> step in OpenSteps(q.open, q.order)
    {
      OpenStepsMember(p.open, p.order, step);
      OpenStepsMember(q.open, q.order, step);
    }
    SameOnceSorted(OpenSteps(p.open, p.order), OpenSteps(q.open, q.order));
  }

  // ----- an open step stays as it was raised -----

  lemma StepKeepsOpen(cfg: Config, p: Replay, e: Event, p': Replay, key: string)
    requires SendsApart(cfg) && RaisedOnce(p) && ReplayStep(cfg, p, e, p')
    requires e.run.id !in Ids(p.history) && NoArrow(e.run.id) && forall id :: id in Ids(p.history) ==> NoArrow(id)
    requires key in p.open && Clears(p.history, e.run) != Some(key)
    ensures key in p'.open && p'.open[key] == p.open[key]
  {
    if e.run.status == Done {
      NewKeys(cfg, p, e, p');
      assert forall t :: t in BlockedBy(e) ==> TransitionKey(t) != key;
      OthersStay(Enter(p, e.run).(engine := e.st), BlockedBy(e), CompletionTime(e.run), key);
    }
  }

  /** A replay of the first `i` runs can be completed, and a step that is never cleared stays as it is. */
  lemma {:induction false} OpenPersists(cfg: Config, runs: seq<Run>, i: nat, p: Replay, key: string) returns (q: Replay)
    requires SendsApart(cfg) && WellNamed(runs) && AllResolvable(cfg, runs) && 0 < i <= |runs|
    requires Reached(cfg, runs[..i], p) && key in p.open && !ClearedAfter(runs, i - 1, key)
    ensures Reached(cfg, runs, q) && key in q.open && q.open[key] == p.open[key]
    decreases |runs|
  {
    if i == |runs| {
      assert runs[..i] == runs;
      q := p;
    } else {
      var n := |runs| - 1;
      var front, run := runs[..n], runs[n];
      SplitLast(runs, i);
      ResolvableSnoc(cfg, front, run);
      FrontWellNamed(front, run);
      ClearedNext(front, run, i - 1, key);
      var before := OpenPersists(cfg, front, i, p, key);
      q := OneMoreKeepsOpen(cfg, front, run, before, key);
    }
  }

  lemma SplitLast(runs: seq<Run>, i: nat)
    requires i < |runs|
    ensures var n := |runs| - 1; runs == runs[..n] + [runs[n]] && runs[..n][..i] == runs[..i]
  {
  }

  lemma OneMoreKeepsOpen(cfg: Config, front: seq<Run>, run: Run, p: Replay, key: string) returns (q: Replay)
    requires SendsApart(cfg) && WellNamed(front + [run]) && !Unresolvable(cfg, run)
    requires Reached(cfg, front, p) && key in p.open && Clears(front, run) != Some(key)
    ensures Reached(cfg, front + [run], q) && key in q.open && q.open[key] == p.open[key]
  {
    FrontWellNamed(front, run);
    ReachedIsKnown(cfg, front, p);
    var e;
    e, q := StepExists(cfg, p, run);
    NextReached(cfg, front, p, e, q);
    StepKeepsOpen(cfg, p, e, q, key);
  }

  // ----- a contest gives two outcomes -----

  lemma CountToAppend(ts: seq<Transition>, us: seq<Transition>, node: string)
    ensures CountTo(ts + us, node) == CountTo(ts, node) + CountTo(us, node)
  {
    CountAppend((t: Transition) => t.to == node, ts, us);
  }

  lemma CountToSnoc(ts: seq<Transition>, t: Transition, node: string)
    ensures CountTo(ts + [t], node) == CountTo(ts, node) + (if t.to == node then 1 else 0)
  {
    assert (ts + [t])[..|ts|] == ts;
  }

  /** All transitions to a node without iterations left are refused. */
  lemma {:induction false} CountRefused(cfg: Config, runs: seq<Run>, ts: seq<Transition>, node: string)
    requires ExceedsIterations(cfg, runs, node)
    ensures CountTo(Refused(cfg, runs, ts), node) == CountTo(ts, node)
  {
    if ts != [] {
      var front, last := ts[..|ts| - 1], ts[|ts| - 1];
      CountRefused(cfg, runs, front, node);
      CountToSnoc(front, last, node);
      CountToSnoc(Refused(cfg, runs, front), last, node);
      assert ts == front + [last];
      assert Refused(cfg, runs, front) + [] == Refused(cfg, runs, front);
    }
  }

  /** Where a refused transition stands among the refused ones. */
  lemma {:induction false} RefusedPlace(cfg: Config, runs: seq<Run>, ts: seq<Transition>, m: nat)
    requires m < |ts| && ExceedsIterations(cfg, runs, ts[m].to)
    ensures var k := |Refused(cfg, runs, ts[..m])|;
            && k < |Refused(cfg, runs, ts)|
            && Refused(cfg, runs, ts)[k] == ts[m]
            && Refused(cfg, runs, ts)[..k] == Refused(cfg, runs, ts[..m])
  {
    var n := |ts| - 1;
    if m < n {
      RefusedPlace(cfg, runs, ts[..n], m);
      assert ts[..n][..m] == ts[..m];
    }
  }

  lemma CountedLater(ts: seq<Transition>, us: seq<Transition>, a: nat, b: nat, node: string)
    requires a < b <= |us| && a <= |ts| && us[..a] == ts[..a] && us[a].to == node
    ensures CountTo(us[..b], node) > CountTo(ts[..a], node)
  {
    assert us[..b] == us[..a] + [us[a]] + us[a + 1..b];
    CountToAppend(us[..a] + [us[a]], us[a + 1..b], node);
    CountToSnoc(us[..a], us[a], node);
  }

  lemma PlaceOf(cfg: Config, st: EngineState, ts: seq<Transition>, node: string, token: string) returns (i: nat)
    requires ListsReady(cfg, st, ts) && st.Ready(cfg, node, token)
    ensures i < |ts| && ts[i] == st.TransitionOf(node, token)
  {
    i :| 0 <= i < |ts| && ts[i].to == node && ts[i].token == token;
  }

  /** The ready groups listed with the group of `token` before that of `other`, and the two exchanged. */
  lemma BothOrders(cfg: Config, st: EngineState, node: string, token: string, other: string)
    returns (ts: seq<Transition>, us: seq<Transition>, a: nat, b: nat)
    requires st.Ready(cfg, node, token) && st.Ready(cfg, node, other) && token != other
    ensures ListsReady(cfg, st, ts) && ListsReady(cfg, st, us)
    ensures a < b < |ts| == |us| && us[..a] == ts[..a] && us[a].to == node
    ensures ts[a] == us[b] == st.TransitionOf(node, token)
  {
    ts := ReadyListExists(cfg, st);
    var i := PlaceOf(cfg, st, ts, node, token);
    var j := PlaceOf(cfg, st, ts, node, other);
    if i < j {
      a, b := i, j;
      us := ts[i := ts[j]][j := ts[i]];
      SwapStaysListed(cfg, st, ts, us, i, j);
    } else {
      a, b := j, i;
      us := ts;
      ts := us[j := us[i]][i := us[j]];
      SwapStaysListed(cfg, st, us, ts, j, i);
    }
  }

  /** The m-th group's step is open with the number that the list gives it. */
  predicate IsNumbered(p: Replay, history: seq<Run>, ts: seq<Transition>, m: nat)
    requires m < |ts|
  {
    var key := TransitionKey(ts[m]);
    && key in p.open
    && p.open[key].iteration == IterationCount(history, ts[m].to) + 1 + CountTo(ts[..m], ts[m].to)
  }

  /** The replay in which the i-th run's completion lists its groups as `ts`. */
  lemma OutcomeOf(cfg: Config, runs: seq<Run>, i: nat, ts: seq<Transition>, m: nat) returns (q: Replay)
    requires SendsApart(cfg) && WellNamed(runs) && AllResolvable(cfg, runs)
    requires i < |runs| && runs[i].status == Done && ListsReady(cfg, EngineAt(cfg, runs, i), ts) && m < |ts|
    requires ExceedsIterations(cfg, runs[..i + 1], ts[m].to) && !ClearedAfter(runs, i, TransitionKey(ts[m]))
    ensures Reached(cfg, runs, q) && IsNumbered(q, runs[..i + 1], ts, m)
  {
    var p := CompletedAs(cfg, runs, i, ts, m);
    q := OpenPersists(cfg, runs, i + 1, p, TransitionKey(ts[m]));
  }

  /** A replay that is about to enter the i-th run. */
  lemma BeforeRun(cfg: Config, runs: seq<Run>, i: nat) returns (p: Replay)
    requires SendsApart(cfg) && WellNamed(runs) && AllResolvable(cfg, runs) && i < |runs|
    ensures Reached(cfg, runs[..i], p) && RaisedOnce(p)
    ensures p.engine == EngineAfter(cfg, runs[..i]) && p.history == runs[..i]
    ensures runs[i].id !in Ids(p.history) && NoArrow(runs[i].id) && forall id :: id in Ids(p.history) ==> NoArrow(id)
  {
    var front, run := runs[..i], runs[i];
    assert runs[..i + 1] == front + [run];
    PrefixWellNamed(runs, i + 1);
    FrontWellNamed(front, run);
    assert forall r :: r in front ==> r in runs;
    p := ReachableBy(cfg, front);
    ReachedIsKnown(cfg, front, p);
  }

  lemma CompletedAs(cfg: Config, runs: seq<Run>, i: nat, ts: seq<Transition>, m: nat) returns (p: Replay)
    requires SendsApart(cfg) && WellNamed(runs) && AllResolvable(cfg, runs)
    requires i < |runs| && runs[i].status == Done && ListsReady(cfg, EngineAt(cfg, runs, i), ts) && m < |ts|
    requires ExceedsIterations(cfg, runs[..i + 1], ts[m].to)
    ensures Reached(cfg, runs[..i + 1], p) && IsNumbered(p, runs[..i + 1], ts, m)
  {
    var run := runs[i];
    assert runs[..i + 1] == runs[..i] + [run];
    var before := BeforeRun(cfg, runs, i);
    assert run in runs;
    var e;
    e, p := CompletionExists(cfg, before, run, ts);
    NextReached(cfg, runs[..i], before, e, p);
    NewKeys(cfg, before, e, p);
    RaisedByCompletion(cfg, before, e, p, runs[..i + 1], ts, m);
  }

  lemma RaisedByCompletion(cfg: Config, p: Replay, e: Event, p': Replay, history: seq<Run>, ts: seq<Transition>, m: nat)
    requires history == p.history + [e.run] && m < |ts| && ExceedsIterations(cfg, history, ts[m].to)
    requires BlockedBy(e) == Refused(cfg, history, ts) && DifferentKeys(BlockedBy(e))
    requires p' == RaiseAll(Enter(p, e.run).(engine := e.st), BlockedBy(e), CompletionTime(e.run))
    ensures IsNumbered(p', history, ts, m)
  {
    RefusedPlace(cfg, history, ts, m);
    var k := |Refused(cfg, history, ts[..m])|;
    RaisedStep(Enter(p, e.run).(engine := e.st), BlockedBy(e), CompletionTime(e.run), k);
    CountRefused(cfg, history, ts[..m], ts[m].to);
  }

  lemma PrefixWellNamed(runs: seq<Run>, n: nat)
    requires WellNamed(runs) && n <= |runs|
    ensures WellNamed(runs[..n])
  {
  }

  lemma DifferentOpenDifferentLists(p: Replay, q: Replay, key: string)
    requires Filed(p) && Filed(q) && key in p.open && key in q.open && p.open[key] != q.open[key]
    ensures Sort(StepLe, OpenSteps(p.open, p.order)) != Sort(StepLe, OpenSteps(q.open, q.order))
  {
    var step := p.open[key];
    SortHasSame(OpenSteps(p.open, p.order));
    SortHasSame(OpenSteps(q.open, q.order));
    OpenStepsMember(p.open, p.order, step);
    OpenStepsMember(q.open, q.order, step);
  }

  lemma ReachedIsDerived(cfg: Config, runs: seq<Run>, p: Replay)
    requires AllResolvable(cfg, runs) && Reached(cfg, Sort(RunLe, runs), p)
    ensures IsDerivation(cfg, runs, Some(Sort(StepLe, OpenSteps(p.open, p.order))))
  {
    var states, events :| ReachedBy(cfg, Sort(RunLe, runs), p, states, events);
    assert Derives(cfg, runs, states, events, Some(Sort(StepLe, OpenSteps(p.open, p.order))));
  }

  /** Two replays that number one step differently. */
  lemma TwoNumbers(cfg: Config, runs: seq<Run>, i: nat, node: string, token: string, other: string)
    returns (p: Replay, q: Replay, key: string)
    requires SendsApart(cfg) && WellNamed(runs) && AllResolvable(cfg, runs)
    requires ContestedAt(cfg, runs, i, node, token, other)
    ensures Reached(cfg, runs, p) && Reached(cfg, runs, q)
    ensures key in p.open && key in q.open && p.open[key] != q.open[key]
  {
    var ts, us, a, b := BothOrders(cfg, EngineAt(cfg, runs, i), node, token, other);
    key := TransitionKey(ts[a]);
    p := OutcomeOf(cfg, runs, i, ts, a);
    q := OutcomeOf(cfg, runs, i, us, b);
    CountedLater(ts, us, a, b, node);
  }

  lemma ContestDecides(cfg: Config, runs: seq<Run>, i: nat, node: string, token: string, other: string)
    requires SendsApart(cfg) && WellNamed(runs) && AllResolvable(cfg, runs)
    requires ContestedAt(cfg, Sort(RunLe, runs), i, node, token, other)
    ensures !IsDetermined(cfg, runs)
  {
    var sorted := Sort(RunLe, runs);
    SortedWellNamed(runs);
    SortedHasSame(runs);
    var p, q, key := TwoNumbers(cfg, sorted, i, node, token, other);
    ReachedIsKnown(cfg, sorted, p);
    ReachedIsKnown(cfg, sorted, q);
    DifferentOpenDifferentLists(p, q, key);
    TwoDerived(cfg, runs, p, q);
  }

  lemma TwoDerived(cfg: Config, runs: seq<Run>, p: Replay, q: Replay)
    requires AllResolvable(cfg, runs) && Reached(cfg, Sort(RunLe, runs), p) && Reached(cfg, Sort(RunLe, runs), q)
    requires Sort(StepLe, OpenSteps(p.open, p.order)) != Sort(StepLe, OpenSteps(q.open, q.order))
    ensures !IsDetermined(cfg, runs)
  {
    ReachedIsDerived(cfg, runs, p);
    ReachedIsDerived(cfg, runs, q);
    var steps, other := Sort(StepLe, OpenSteps(p.open, p.order)), Sort(StepLe, OpenSteps(q.open, q.order));
    assert Some(steps) != Some(other);
  }

  // ----- the main result -----

  lemma ReachedAlike(cfg: Config, runs: seq<Run>, p: Replay, q: Replay)
    requires SendsApart(cfg) && WellNamed(runs) && Reached(cfg, runs, p) && Reached(cfg, runs, q)
    ensures Alike(cfg, runs, p, q)
  {
    var states, events :| ReachedBy(cfg, runs, p, states, events);
    var states', events' :| ReachedBy(cfg, runs, q, states', events');
    RunsOfLength(events);
    RunsOfLength(events');
    ReplaysAlike(cfg, states, events, states', events');
  }

  lemma SameOutcome(cfg: Config, runs: seq<Run>, p: Replay, q: Replay)
    requires SendsApart(cfg) && WellNamed(runs) && Reached(cfg, runs, p) && Reached(cfg, runs, q)
    requires forall key :: !KeyContested(cfg, runs, key)
    ensures Sort(StepLe, OpenSteps(p.open, p.order)) == Sort(StepLe, OpenSteps(q.open, q.order))
  {
    ReachedAlike(cfg, runs, p, q);
    ReachedIsKnown(cfg, runs, p);
    ReachedIsKnown(cfg, runs, q);
    forall key
      ensures (key in p.open <==> key in q.open) && (key in p.open ==> p.open[key] == q.open[key])
    {
      assert AgreeAt(cfg, runs, p, q, key);
    }
    SameMaps(p.open, q.open);
    SameOpenSorted(p, q);
  }

  lemma SameMaps<K(!new), V>(a: map<K, V>, b: map<K, V>)
    requires forall k :: (k in a <==> k in b) && (k in a ==> a[k] == b[k])
    ensures a == b
  {
  }

  /** A derivation without an error is a replay. */
  lemma DerivedIsReached(cfg: Config, runs: seq<Run>, steps: Option<seq<BlockedStep>>) returns (p: Replay)
    requires IsDerivation(cfg, runs, steps) && AllResolvable(cfg, runs)
    ensures Reached(cfg, Sort(RunLe, runs), p) && steps == Some(Sort(StepLe, OpenSteps(p.open, p.order)))
  {
    var states: seq<Replay>, events: seq<Event> :| Derives(cfg, runs, states, events, steps);
    p := states[|events|];
    assert ReachedBy(cfg, Sort(RunLe, runs), p, states, events);
  }

  lemma NoContestDecides(cfg: Config, runs: seq<Run>, steps: Option<seq<BlockedStep>>, other: Option<seq<BlockedStep>>)
    requires SendsApart(cfg) && WellNamed(runs) && AllResolvable(cfg, runs) && !Contested(cfg, Sort(RunLe, runs))
    requires IsDerivation(cfg, runs, steps) && IsDerivation(cfg, runs, other)
    ensures steps == other
  {
    var p := DerivedIsReached(cfg, runs, steps);
    var q := DerivedIsReached(cfg, runs, other);
    SortedWellNamed(runs);
    SortedHasSame(runs);
    SameOutcome(cfg, Sort(RunLe, runs), p, q);
  }

  lemma ContestedIsOpen(cfg: Config, runs: seq<Run>)
    requires SendsApart(cfg) && WellNamed(runs) && Contested(cfg, Sort(RunLe, runs))
    ensures !IsDetermined(cfg, runs)
  {
    var i, node, token, other :| ContestedAt(cfg, Sort(RunLe, runs), i, node, token, other);
    SortedHasSame(runs);
    ContestDecides(cfg, runs, i, node, token, other);
  }

  lemma UncontestedIsDetermined(cfg: Config, runs: seq<Run>)
    requires SendsApart(cfg) && WellNamed(runs) && !Contested(cfg, Sort(RunLe, runs))
    ensures IsDetermined(cfg, runs)
  {
    forall steps, other | IsDerivation(cfg, runs, steps) && IsDerivation(cfg, runs, other)
      ensures steps == other
    {
      if AllResolvable(cfg, runs) {
        NoContestDecides(cfg, runs, steps, other);
      }
    }
  }

  /** The order in which groups are consumed can be seen in the derived steps if and only if some completion
      of the sorted history refuses two groups at one node, and a step of theirs is open at the end. */
  lemma DeterminedIff(cfg: Config, runs: seq<Run>)
    requires ConfigOk(cfg) && WellNamed(runs)
    ensures IsDetermined(cfg, runs) <==> !Contested(cfg, Sort(RunLe, runs))
  {
    ConfigSendsApart(cfg);
    if Contested(cfg, Sort(RunLe, runs)) {
      ContestedIsOpen(cfg, runs);
    } else {
      UncontestedIsDetermined(cfg, runs);
    }
  }
}
