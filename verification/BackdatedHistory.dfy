/** A whole history of a validated configuration from which two lists of blocked steps can be derived.  P and Q
    lead to N, which waits for both and may run once; N leads back to P and Q, and to the end.  Run x of P starts
    the task and sets off a, of N; that sets off p and q, of P and Q; p finds N at its limit, and n is the step
    that the user forces.  Between a and its children the clock was set back: replayed by their start stamps, the
    children register under the token "a" before x and a bring their own. */
module BackdatedHistory {
  import opened Options
  import opened ConfigValues
  import opened TaskConfig
  import opened EdgeEvaluation
  import opened TaskRuns
  import opened TaskEngine
  import opened EngineObject
  import opened EngineProofs
  import opened TaskSchedule
  import opened BlockedSteps
  import opened BlockedStepProofs
  import opened ReplayOutcomes
  import opened Ordering

  // ----- the configuration -----

  const FORM := Schema("object", Some(false), [], map[], None, [], [], None, None)
  const STEP := NodeDefinition(Human, false, 0, FORM)
  const PN := Edge("P", "N", Always)
  const QN := Edge("Q", "N", Always)
  const NP := Edge("N", "P", Always)
  const NQ := Edge("N", "Q", Always)
  const NT := Edge("N", "T", Always)

  function Loop(edges: seq<Edge>): Config {
    Config(1, 1, 1, 1, 5, "P",
           [NodeRef("P", 0, JoinUnset), NodeRef("Q", 0, JoinUnset), NodeRef("N", 1, JoinAll),
            NodeRef("T", 0, JoinUnset)],
           edges, map["P" := STEP, "Q" := STEP, "N" := STEP, "T" := END])
  }

  /** What the edges are, and what leaves and enters each node. */
  predicate LoopEdges(edges: seq<Edge>) {
    && edges == [PN, QN, NP, NQ, NT]
    && EdgesFrom(edges, "P") == [PN]
    && EdgesFrom(edges, "Q") == [QN]
    && EdgesFrom(edges, "N") == [NP, NQ, NT]
    && EdgesFrom(edges, "T") == []
    && IncomingCount(edges, "N") == 2
  }

  lemma OneEdgeMore(edges: seq<Edge>, e: Edge, name: string)
    ensures EdgesFrom(edges + [e], name)
            == if e.from == name then EdgesFrom(edges, name) + [e] else EdgesFrom(edges, name)
    ensures IncomingCount(edges + [e], name) == IncomingCount(edges, name) + (if e.to == name then 1 else 0)
  {
    assert (edges + [e])[..|edges|] == edges;
    assert EdgesFrom(edges, name) + [] == EdgesFrom(edges, name);
  }

  const IN_EDGES := [PN] + [QN]
  const ALL_EDGES := IN_EDGES + [NP] + [NQ] + [NT]

  lemma InEdges(name: string)
    ensures EdgesFrom(IN_EDGES, name) == if name == "P" then [PN] else if name == "Q" then [QN] else []
    ensures IncomingCount(IN_EDGES, "N") == 2
  {
    OneEdgeMore([], PN, name);
    OneEdgeMore([PN], QN, name);
    OneEdgeMore([], PN, "N");
    OneEdgeMore([PN], QN, "N");
    assert [] + [PN] == [PN];
  }

  lemma EdgesFromP(edges: seq<Edge>)
    requires edges == ALL_EDGES
    ensures EdgesFrom(edges, "P") == [PN] && EdgesFrom(edges, "Q") == [QN] && EdgesFrom(edges, "T") == []
  {
    forall name | name == "P" || name == "Q" || name == "T"
      ensures EdgesFrom(edges, name) == EdgesFrom(IN_EDGES, name)
    {
      OneEdgeMore(IN_EDGES, NP, name);
      OneEdgeMore(IN_EDGES + [NP], NQ, name);
      OneEdgeMore(IN_EDGES + [NP] + [NQ], NT, name);
    }
    InEdges("P");
    InEdges("Q");
    InEdges("T");
  }

  lemma EdgesFromN(edges: seq<Edge>)
    requires edges == ALL_EDGES
    ensures EdgesFrom(edges, "N") == [NP, NQ, NT] && IncomingCount(edges, "N") == 2
  {
    InEdges("N");
    OneEdgeMore(IN_EDGES, NP, "N");
    OneEdgeMore(IN_EDGES + [NP], NQ, "N");
    OneEdgeMore(IN_EDGES + [NP] + [NQ], NT, "N");
    assert [] + [NP] + [NQ] + [NT] == [NP, NQ, NT];
  }

  lemma LoopEdgesKnown()
    ensures LoopEdges(ALL_EDGES)
  {
    EdgesFromP(ALL_EDGES);
    EdgesFromN(ALL_EDGES);
  }

  lemma NodesAreOk(edges: seq<Edge>)
    ensures var cfg := Loop(edges);
            HeaderOk(cfg) && NodesOk(cfg.nodes) && cfg.NodeNames() == {"P", "Q", "N", "T"}
  {
    var nodes := Loop(edges).nodes;
    assert nodes[0].name == "P" && nodes[1].name == "Q" && nodes[2].name == "N" && nodes[3].name == "T";
  }

  lemma FormIsOk()
    ensures NodeDefinitionOk(STEP) && NodeDefinitionOk(END)
  {
    assert |"object"| == 6 && |"array"| == 5;
  }

  lemma DefinitionsAreOk(edges: seq<Edge>)
    ensures DefinitionsOk(Loop(edges))
  {
    NodesAreOk(edges);
    FormIsOk();
  }

  lemma LimitAndJoin(edges: seq<Edge>)
    ensures MaxIterations(Loop(edges), "N") == 1 && JoinOf(Loop(edges), "N") == JoinAll
  {
    var nodes := Loop(edges).nodes;
    assert nodes[1..][0] == nodes[1] && nodes[1..][1..][0] == nodes[2];
  }

  lemma GraphIsOk(edges: seq<Edge>)
    requires LoopEdges(edges)
    ensures var cfg := Loop(edges); TerminalsOk(cfg) && JoinsOk(cfg)
  {
    assert "T" in Loop(edges).defs;
  }

  lemma UnconditionalOk(edges: seq<Edge>, root: Schema)
    requires forall i :: 0 <= i < |edges| ==> edges[i].cond.Always?
    ensures EdgeGroupOk(edges, root)
  {
  }

  lemma GroupsAreOk(edges: seq<Edge>)
    requires LoopEdges(edges)
    ensures GroupsOk(Loop(edges))
  {
    var cfg := Loop(edges);
    forall name | name in cfg.defs
      ensures EdgeGroupOk(cfg.Outgoing(name), cfg.defs[name].schema)
    {
      UnconditionalOk(cfg.Outgoing(name), cfg.defs[name].schema);
    }
  }

  lemma EdgesAreOk(edges: seq<Edge>)
    requires LoopEdges(edges)
    ensures EdgesOk(edges, {"P", "Q", "N", "T"})
  {
    assert SemanticEdgeKey(PN).value.prefix[..3] == "P|N" && SemanticEdgeKey(QN).value.prefix[..3] == "Q|N";
    assert SemanticEdgeKey(NP).value.prefix[..3] == "N|P" && SemanticEdgeKey(NQ).value.prefix[..3] == "N|Q";
    assert SemanticEdgeKey(NT).value.prefix[..3] == "N|T";
  }

  lemma LoopIsOk(edges: seq<Edge>)
    requires LoopEdges(edges)
    ensures ConfigOk(Loop(edges))
  {
    NodesAreOk(edges);
    DefinitionsAreOk(edges);
    EdgesAreOk(edges);
    GraphIsOk(edges);
    GroupsAreOk(edges);
  }

  // ----- the history -----

  function DoneRun(id: string, node: string, trigger: Option<Trigger>, at: int): Run {
    Run(id, node, Done, "", Some(map[]), trigger, at, Some(at))
  }

  const RUN_Q := Run("q", "Q", Running, "", None, Some(Trigger("a", EdgeTaken("N", "Q"))), 1, None)
  const RUN_P := DoneRun("p", "P", Some(Trigger("a", EdgeTaken("N", "P"))), 2)
  const RUN_N := Run("n", "N", Running, "", None, Some(Trigger("p", ManualContinueForce)), 3, None)
  const RUN_X := DoneRun("x", "P", None, 4)
  const RUN_A := DoneRun("a", "N", Some(Trigger("x", EdgeTaken("P", "N"))), 5)
  const HISTORY := [RUN_Q, RUN_P, RUN_N, RUN_X, RUN_A]

  /** The trigger is a run of the history, and an edge leads from it. */
  predicate TriggerIsThere(cfg: Config, runs: seq<Run>, run: Run) {
    run.trigger.Some? ==>
      exists i :: 0 <= i < |runs| && runs[i].id == run.trigger.value.runId
        && exists e :: e in cfg.edges && e.from == runs[i].node && e.to == run.node
  }

  lemma TriggersAreThere(cfg: Config, runs: seq<Run>)
    requires cfg.edges == [PN, QN, NP, NQ, NT] && runs == HISTORY
    ensures forall run :: run in runs ==> TriggerIsThere(cfg, runs, run)
  {
    var edges := cfg.edges;
    assert edges[0] == PN && edges[2] == NP && edges[3] == NQ;
    TriggeredAlong(cfg, runs, RUN_Q, 4, NQ);
    TriggeredAlong(cfg, runs, RUN_P, 4, NP);
    TriggeredAlong(cfg, runs, RUN_N, 1, PN);
    TriggeredAlong(cfg, runs, RUN_A, 3, PN);
    forall run | run in runs
      ensures TriggerIsThere(cfg, runs, run)
    {
      HistoryMembers(runs, run);
    }
  }

  lemma HistoryMembers(runs: seq<Run>, run: Run)
    requires runs == HISTORY && run in runs
    ensures run == RUN_Q || run == RUN_P || run == RUN_N || run == RUN_X || run == RUN_A
  {
  }

  lemma TriggeredAlong(cfg: Config, runs: seq<Run>, run: Run, i: nat, e: Edge)
    requires run.trigger.Some? && i < |runs| && runs[i].id == run.trigger.value.runId
    requires e in cfg.edges && e.from == runs[i].node && e.to == run.node
    ensures TriggerIsThere(cfg, runs, run)
  {
  }

  lemma OneEntry(runs: seq<Run>)
    requires runs == HISTORY
    ensures forall run :: run in runs && run.trigger == None ==> run == RUN_X
  {
  }

  lemma HistoryIsSorted()
    ensures SortedBy(RunLe, HISTORY) && WellNamed(HISTORY)
  {
    var runs := HISTORY;
    assert runs[0] == RUN_Q && runs[1] == RUN_P && runs[2] == RUN_N && runs[3] == RUN_X && runs[4] == RUN_A;
  }

  lemma {:induction false} SortOfSorted(runs: seq<Run>)
    requires SortedBy(RunLe, runs)
    ensures Sort(RunLe, runs) == runs
  {
    if runs != [] {
      assert forall i :: 0 <= i < |runs[1..]| ==> runs[1..][i] == runs[i + 1];
      SortOfSorted(runs[1..]);
    }
  }

  lemma AllResolve(cfg: Config)
    requires LoopEdges(cfg.edges)
    ensures AllResolvable(cfg, HISTORY)
  {
    assert cfg.Outgoing("P")[0].cond.Always? && cfg.Outgoing("N")[0].cond.Always?;
  }

  // ----- the engine -----

  const ALONG := EdgeTaken("P", "N")
  const FROM_P := Arrival("a", "P", "p", ALONG)
  const FROM_X := Arrival("x", "P", "x", ALONG)

  const AFTER_Q := EngineState(map["q" := "a"], map["a" := {"Q"}], map[])

  /** N waits for Q under "a". */
  const AFTER_P := EngineState(map["q" := "a", "p" := "a"], map["a" := {"Q", "P"}], map["N" := [FROM_P]])

  /** N has started under "a", but nothing has completed since. */
  const AFTER_N := EngineState(map["q" := "a", "p" := "a", "n" := "a"], map["a" := {"Q", "P", "N"}],
                               map["N" := [FROM_P]])

  /** The arrival of x has come in: two groups are ready. */
  const BOTH := EngineState(map["q" := "a", "p" := "a", "n" := "a", "x" := "x"],
                            map["a" := {"Q", "P", "N"}, "x" := {"P"}], map["N" := [FROM_P, FROM_X]])

  lemma GroupsOfBoth(items: seq<Arrival>, token: string)
    requires items == [FROM_P, FROM_X]
    ensures Group(items, token) == if token == "a" then [FROM_P] else if token == "x" then [FROM_X] else []
  {
    GroupOfOne(FROM_P, token);
    assert items[..1] == [FROM_P];
  }

  lemma GroupOfOne(a: Arrival, token: string)
    ensures Group([a], token) == if token == a.token then [a] else []
  {
    assert [a][..0] == [];
    assert Group([], token) == [];
  }

  lemma StartedSenders(cfg: Config, st: EngineState, token: string)
    requires cfg.edges == [PN, QN, NP, NQ, NT]
    ensures st.Required(cfg, "N", token) == {"P", "Q"} * st.StartedUnder(token)
  {
    assert cfg.edges[0] == PN && cfg.edges[1] == QN;
  }

  lemma SendersOfOne(a: Arrival)
    ensures Senders([a]) == {a.fromNode}
  {
    assert [a][0] == a;
  }

  lemma OneArrives(st: EngineState, h: Hop, token: string, run: Run)
    ensures st.Arrive([h], token, run)
            == st.(pending := st.pending[h.to := st.PendingAt(h.to) + [Arrival(token, run.node, run.id, h.reason)]])
  {
    assert [h][..0] == [];
    assert st.Arrive([], token, run) == st;
  }

  lemma HopsOfP(cfg: Config, result: Option<map<string, Value>>)
    requires cfg.Outgoing("P") == [PN]
    ensures Evaluate(result, cfg.Outgoing("P")) == Some([Hop("N", ALONG)])
  {
    var edges := cfg.Outgoing("P");
    assert edges[0].cond.Always?;
    assert Evaluate(result, edges).value == [Hop("N", ALONG)];
  }

  /** A completed run of P that is registered sends one arrival to N. */
  lemma ArrivalOfP(cfg: Config, st: EngineState, run: Run, token: string)
    requires cfg.Outgoing("P") == [PN] && run.node == "P" && st.TokenOf(run.id) == token != ""
    ensures WithArrivals(cfg, st, run)
            == st.(pending := st.pending["N" := st.PendingAt("N") + [Arrival(token, "P", run.id, ALONG)]])
  {
    HopsOfP(cfg, run.result);
    OneArrives(st, Hop("N", ALONG), token, run);
  }

  lemma NothingReadyAfterP(cfg: Config, node: string, token: string)
    requires cfg.edges == [PN, QN, NP, NQ, NT] && JoinOf(cfg, "N") == JoinAll
    ensures !AFTER_P.Ready(cfg, node, token)
  {
    GroupOfOne(FROM_P, token);
    if node == "N" && token == "a" {
      QIsMissing(cfg);
      SendersOfOne(FROM_P);
    }
  }

  lemma QIsMissing(cfg: Config)
    requires cfg.edges == [PN, QN, NP, NQ, NT]
    ensures |AFTER_P.Required(cfg, "N", "a")| == 2
  {
    StartedSenders(cfg, AFTER_P, "a");
    assert AFTER_P.Required(cfg, "N", "a") == {"P", "Q"};
  }

  /** Where no group is ready, nothing is consumed. */
  lemma NoneConsumed(cfg: Config, st: EngineState)
    requires st.Valid() && forall node, token :: !st.Ready(cfg, node, token)
    ensures st.Consumed(cfg) == st
  {
    forall node | node in st.pending
      ensures Without(st.pending[node], st.ReadyTokens(cfg, node)) == st.pending[node]
    {
      assert st.ReadyTokens(cfg, node) == {};
      WithoutNothing(st.pending[node]);
    }
    assert st.Consumed(cfg).pending == st.pending;
  }

  lemma NothingConsumed(cfg: Config)
    requires cfg.edges == [PN, QN, NP, NQ, NT] && JoinOf(cfg, "N") == JoinAll
    ensures AFTER_P.Consumed(cfg) == AFTER_P
  {
    forall node, token
      ensures !AFTER_P.Ready(cfg, node, token)
    {
      NothingReadyAfterP(cfg, node, token);
    }
    NoneConsumed(cfg, AFTER_P);
  }

  lemma EngineNext(cfg: Config, runs: seq<Run>, run: Run)
    ensures var st := RegisterAgain(EngineAfter(cfg, runs), run);
            EngineAfter(cfg, runs + [run])
            == if run.status == Done then WithArrivals(cfg, st, run).Consumed(cfg) else st
  {
    assert (runs + [run])[..|runs|] == runs;
  }

  lemma RegisteredUnder(st: EngineState, run: Run, parent: string, token: string)
    requires run.trigger.Some? && run.trigger.value.runId == parent != ""
    requires token == if st.TokenOf(parent) == "" then parent else st.TokenOf(parent)
    ensures RegisterAgain(st, run)
            == EngineState(st.runTokens[run.id := token], st.started[token := st.StartedUnder(token) + {run.node}],
                           st.pending)
  {
  }

  lemma AfterQ(cfg: Config)
    ensures EngineAfter(cfg, [RUN_Q]) == AFTER_Q
  {
    EngineNext(cfg, [], RUN_Q);
    assert [] + [RUN_Q] == [RUN_Q];
    RegisteredUnder(BlockedSteps.NOTHING.engine, RUN_Q, "a", "a");
    assert {} + {"Q"} == {"Q"};
  }

  lemma EnteredP()
    ensures RegisterAgain(AFTER_Q, RUN_P) == AFTER_P.(pending := map[])
  {
    RegisteredUnder(AFTER_Q, RUN_P, "a", "a");
    assert {"Q"} + {"P"} == {"Q", "P"};
  }

  lemma ArrivedP(cfg: Config, st: EngineState)
    requires cfg.Outgoing("P") == [PN] && st == AFTER_P.(pending := map[])
    ensures WithArrivals(cfg, st, RUN_P) == AFTER_P
  {
    ArrivalOfP(cfg, st, RUN_P, "a");
    assert st.PendingAt("N") + [FROM_P] == [FROM_P];
  }

  lemma AfterP(cfg: Config)
    requires cfg.edges == [PN, QN, NP, NQ, NT] && cfg.Outgoing("P") == [PN] && JoinOf(cfg, "N") == JoinAll
    ensures EngineAfter(cfg, [RUN_Q, RUN_P]) == AFTER_P
  {
    AfterQ(cfg);
    EngineNext(cfg, [RUN_Q], RUN_P);
    assert [RUN_Q] + [RUN_P] == [RUN_Q, RUN_P];
    EnteredP();
    ArrivedP(cfg, AFTER_P.(pending := map[]));
    NothingConsumed(cfg);
  }

  lemma AfterN(cfg: Config)
    requires cfg.edges == [PN, QN, NP, NQ, NT] && cfg.Outgoing("P") == [PN] && JoinOf(cfg, "N") == JoinAll
    ensures EngineAfter(cfg, [RUN_Q, RUN_P, RUN_N]) == AFTER_N
  {
    AfterP(cfg);
    EngineNext(cfg, [RUN_Q, RUN_P], RUN_N);
    assert [RUN_Q, RUN_P] + [RUN_N] == [RUN_Q, RUN_P, RUN_N];
    EnteredN();
  }

  lemma EnteredN()
    ensures RegisterAgain(AFTER_P, RUN_N) == AFTER_N
  {
    RegisteredUnder(AFTER_P, RUN_N, "p", "a");
    assert {"Q", "P"} + {"N"} == {"Q", "P", "N"};
  }

  lemma EnteredX()
    ensures RegisterAgain(AFTER_N, RUN_X) == BOTH.(pending := AFTER_N.pending)
  {
    assert {} + {"P"} == {"P"};
  }

  lemma ArrivedX(cfg: Config, st: EngineState)
    requires cfg.Outgoing("P") == [PN] && st == BOTH.(pending := AFTER_N.pending)
    ensures WithArrivals(cfg, st, RUN_X) == BOTH
  {
    ArrivalOfP(cfg, st, RUN_X, "x");
    assert st.PendingAt("N") + [FROM_X] == [FROM_P, FROM_X];
  }

  lemma AtX(cfg: Config)
    requires cfg.edges == [PN, QN, NP, NQ, NT] && cfg.Outgoing("P") == [PN] && JoinOf(cfg, "N") == JoinAll
    ensures EngineAt(cfg, HISTORY, 3) == BOTH
  {
    AfterN(cfg);
    assert HISTORY[..3] == [RUN_Q, RUN_P, RUN_N] && HISTORY[3] == RUN_X;
    EnteredX();
    ArrivedX(cfg, BOTH.(pending := AFTER_N.pending));
  }

  lemma BothReady(cfg: Config)
    requires cfg.edges == [PN, QN, NP, NQ, NT]
    ensures BOTH.Ready(cfg, "N", "a") && BOTH.TransitionOf("N", "a").trigger.runId == "p"
    ensures BOTH.Ready(cfg, "N", "x")
  {
    GroupsOfBoth(BOTH.pending["N"], "a");
    GroupsOfBoth(BOTH.pending["N"], "x");
    StartedSenders(cfg, BOTH, "x");
    SendersOfOne(FROM_X);
    assert {"P", "Q"} * {"P"} == {"P"};
  }

  lemma CountSnoc(runs: seq<Run>, run: Run, node: string)
    ensures IterationCount(runs + [run], node) == IterationCount(runs, node) + (if run.node == node then 1 else 0)
  {
    assert (runs + [run])[..|runs|] == runs;
  }

  lemma NStartedOnce()
    ensures IterationCount(HISTORY[..4], "N") == 1
  {
    CountSnoc([], RUN_Q, "N");
    CountSnoc([RUN_Q], RUN_P, "N");
    CountSnoc([RUN_Q, RUN_P], RUN_N, "N");
    CountSnoc([RUN_Q, RUN_P, RUN_N], RUN_X, "N");
    assert [] + [RUN_Q] == [RUN_Q] && [RUN_Q] + [RUN_P] == [RUN_Q, RUN_P];
    assert [RUN_Q, RUN_P] + [RUN_N] == [RUN_Q, RUN_P, RUN_N];
    assert HISTORY[..4] == [RUN_Q, RUN_P, RUN_N] + [RUN_X];
  }

  /** Nothing after x clears a step. */
  lemma NothingCleared(key: string)
    ensures !ClearedAfter(HISTORY, 3, key)
  {
    forall j | 3 < j < |HISTORY|
      ensures Clears(HISTORY[..j], HISTORY[j]) != Some(key)
    {
      assert HISTORY[j] == RUN_A;
    }
  }

  lemma HistoryIsContested(cfg: Config)
    requires LoopEdges(cfg.edges) && JoinOf(cfg, "N") == JoinAll && MaxIterations(cfg, "N") == 1
    ensures ContestedAt(cfg, HISTORY, 3, "N", "a", "x")
  {
    AtX(cfg);
    BothReady(cfg);
    NStartedOnce();
    assert HISTORY[3] == RUN_X;
    NothingCleared(RefusedKey(cfg, HISTORY, 3, "N", "a"));
  }

  /** The configuration is validated, ids are distinct, there is one entry run, and every other run was set off by a
      run of the history along an edge: still two lists of steps can be derived. */
  lemma StampsCanDecide()
    ensures var cfg := Loop(ALL_EDGES);
            && ConfigOk(cfg)
            && WellNamed(HISTORY)
            && (forall run :: run in HISTORY ==> TriggerIsThere(cfg, HISTORY, run))
            && (forall run :: run in HISTORY && run.trigger == None ==> run == RUN_X)
            && exists steps, other ::
                 IsDerivation(cfg, HISTORY, steps) && IsDerivation(cfg, HISTORY, other) && steps != other
  {
    var cfg := Loop(ALL_EDGES);
    LoopEdgesKnown();
    LoopIsOk(cfg.edges);
    LimitAndJoin(cfg.edges);
    TriggersAreThere(cfg, HISTORY);
    OneEntry(HISTORY);
    HistoryIsSorted();
    SortOfSorted(HISTORY);
    AllResolve(cfg);
    HistoryIsContested(cfg);
    DeterminedIff(cfg, HISTORY);
  }
}
