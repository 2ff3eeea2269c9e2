/** The workflow engine of one task: tokens, started nodes and pending arrivals, and what a completed
    run sets off. */
module TaskEngine {
  import opened Options
  import opened ConfigValues
  import opened TaskConfig
  import opened EdgeEvaluation
  import opened TaskRuns
  import opened Ordering

  datatype Arrival = Arrival(token: string, fromNode: string, fromRunId: string, reason: Reason)

  datatype Transition = Transition(to: string, token: string, trigger: Trigger)

  datatype Resolution = Resolution(transitions: seq<Transition>, blocked: seq<Transition>, taskDone: bool)

  // ----- groups of arrivals -----

  /** The arrivals under one token, in order. */
  function Group(items: seq<Arrival>, token: string): seq<Arrival> {
    if items == [] then []
    else
      var front, last := items[..|items| - 1], items[|items| - 1];
      if last.token == token then Group(front, token) + [last] else Group(front, token)
  }

  /** The arrivals under other tokens. */
  function Without(items: seq<Arrival>, tokens: set<string>): seq<Arrival> {
    if items == [] then []
    else
      var front, last := items[..|items| - 1], items[|items| - 1];
      if last.token in tokens then Without(front, tokens) else Without(front, tokens) + [last]
  }

  function Senders(items: seq<Arrival>): set<string> {
    set i | 0 <= i < |items| :: items[i].fromNode
  }

  function Tokens(items: seq<Arrival>): set<string> {
    set i | 0 <= i < |items| :: items[i].token
  }

  function JoinOf(cfg: Config, node: string): TaskConfig.Join {
    JoinIn(cfg.nodes, node)
  }

  /** A node that is not declared, or declares no join, waits for all. */
  function JoinIn(nodes: seq<NodeRef>, node: string): TaskConfig.Join {
    if nodes == [] then JoinAll
    else if nodes[0].name == node then (if nodes[0].join == JoinUnset then JoinAll else nodes[0].join)
    else JoinIn(nodes[1..], node)
  }

  // ----- the state -----

  datatype EngineState = EngineState(runTokens: map<string, string>, started: map<string, set<string>>,
                                     pending: map<string, seq<Arrival>>) {

    /** The token of a run, and the empty string for an unknown run. */
    function TokenOf(runId: string): string {
      if runId in runTokens then runTokens[runId] else ""
    }

    function StartedUnder(token: string): set<string> {
      if token in started then started[token] else {}
    }

    function PendingAt(node: string): seq<Arrival> {
      if node in pending then pending[node] else []
    }

    function Register(runId: string, node: string, token: string): EngineState {
      var t := if token == "" then runId else token;
      this.(runTokens := runTokens[runId := t], started := started[t := StartedUnder(t) + {node}])
    }

    function RegisterEntry(run: Run): EngineState {
      Register(run.id, run.node, run.id)
    }

    /** A triggered run takes the token of the run that triggered it. */
    function RegisterTriggered(run: Run, parent: string): EngineState {
      Register(run.id, run.node, if TokenOf(parent) == "" then parent else TokenOf(parent))
    }

    /** The arrivals that a completed run sends, added behind those already waiting. */
    function Arrive(hops: seq<Hop>, token: string, run: Run): EngineState {
      if hops == [] then this
      else
        var before := Arrive(hops[..|hops| - 1], token, run);
        var h := hops[|hops| - 1];
        var a := Arrival(token, run.node, run.id, h.reason);
        before.(pending := before.pending[h.to := before.PendingAt(h.to) + [a]])
    }

    /** The started nodes with an edge to `node`. */
    function Required(cfg: Config, node: string, token: string): set<string> {
      set i | 0 <= i < |cfg.edges| && cfg.edges[i].to == node && cfg.edges[i].from in StartedUnder(token) ::
        cfg.edges[i].from
    }

    /** Whether the arrivals waiting at `node` under `token` set it off. */
    predicate Ready(cfg: Config, node: string, token: string) {
      var items := Group(PendingAt(node), token);
      && items != []
      && (|| node in StartedUnder(token)
          || JoinOf(cfg, node) == JoinAny
          || (|Required(cfg, node, token)| > 0 && |Senders(items)| == |Required(cfg, node, token)|))
    }

    function ReadyTokens(cfg: Config, node: string): set<string> {
      set i | 0 <= i < |PendingAt(node)| && Ready(cfg, node, PendingAt(node)[i].token) :: PendingAt(node)[i].token
    }

    /** The transition a ready group makes: its first arrival is the trigger. */
    function TransitionOf(node: string, token: string): Transition
      requires Group(PendingAt(node), token) != []
    {
      var first := Group(PendingAt(node), token)[0];
      Transition(node, token, Trigger(first.fromRunId, first.reason))
    }

    /** The state once every ready group is consumed. */
    function Consumed(cfg: Config): EngineState {
      this.(pending := map node | node in pending && Without(pending[node], ReadyTokens(cfg, node)) != [] ::
                         Without(pending[node], ReadyTokens(cfg, node)))
    }

    predicate Valid() {
      forall node :: node in pending ==> pending[node] != []
    }
  }

  /** `ts` lists each ready group's transition once, by node; the groups of one node come in any order. */
  ghost predicate ListsReady(cfg: Config, st: EngineState, ts: seq<Transition>) {
    && (forall i :: 0 <= i < |ts| ==>
          st.Ready(cfg, ts[i].to, ts[i].token) && ts[i] == st.TransitionOf(ts[i].to, ts[i].token))
    && (forall i, j :: 0 <= i < j < |ts| ==> ts[i].to != ts[j].to || ts[i].token != ts[j].token)
    && (forall i, j :: 0 <= i < j < |ts| ==> StrLe(ts[i].to, ts[j].to))
    && (forall node, token :: st.Ready(cfg, node, token) ==>
          exists i :: 0 <= i < |ts| && ts[i].to == node && ts[i].token == token)
  }

  /** The transitions whose target has iterations left, and those it has not. */
  function Admitted(cfg: Config, runs: seq<Run>, ts: seq<Transition>): seq<Transition> {
    if ts == [] then []
    else
      Admitted(cfg, runs, ts[..|ts| - 1]) +
      (if ExceedsIterations(cfg, runs, ts[|ts| - 1].to) then [] else [ts[|ts| - 1]])
  }

  function Refused(cfg: Config, runs: seq<Run>, ts: seq<Transition>): seq<Transition> {
    if ts == [] then []
    else
      Refused(cfg, runs, ts[..|ts| - 1]) +
      (if ExceedsIterations(cfg, runs, ts[|ts| - 1].to) then [ts[|ts| - 1]] else [])
  }

  /** How many of the transitions go to one node. */
  function CountTo(ts: seq<Transition>, node: string): nat {
    Count((t: Transition) => t.to == node, ts)
  }

  /** The state in which the completed run's arrivals have come in, with the run registered if it was
      not. */
  function Arrived(st: EngineState, run: Run, hops: seq<Hop>): EngineState {
    if st.TokenOf(run.id) == "" then st.Register(run.id, run.node, run.id).Arrive(hops, run.id, run)
    else st.Arrive(hops, st.TokenOf(run.id), run)
  }

  /** What `ResolveCompletion` may do: nothing if no edge matches, and otherwise consume every ready
      group into a transition or a block. */
  ghost predicate Resolves(cfg: Config, st: EngineState, runs: seq<Run>, run: Run, st': EngineState,
                           r: Option<Resolution>, ts: seq<Transition>)
  {
    var hops := Evaluate(run.result, cfg.Outgoing(run.node));
    if hops == None then st' == st && r == None
    else
      var arrived := Arrived(st, run, hops.value);
      && st' == arrived.Consumed(cfg)
      && ListsReady(cfg, arrived, ts)
      && r.Some?
      && r.value.transitions == Admitted(cfg, runs, ts)
      && r.value.blocked == Refused(cfg, runs, ts)
      && (r.value.taskDone <==> ts == [] && st'.pending == map[] && TaskFinished(cfg, runs))
  }
}
