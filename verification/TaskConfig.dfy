/** Workflow configuration: the graph, and the checks that `Validate` makes on it. */
module TaskConfig {
  import opened Options
  import opened ConfigValues

  datatype Condition = Always | Else | When(field: string, equals: Value)

  datatype Edge = Edge(from: string, to: string, cond: Condition)

  datatype Join = JoinUnset | JoinAll | JoinAny | JoinInvalid

  datatype NodeRef = NodeRef(name: string, maxIterations: int, join: Join)

  datatype NodeType = Agent | Human | Terminal | UnknownType

  /** `hasPrompt` says that the system prompt is not blank. */
  datatype NodeDefinition = NodeDefinition(typ: NodeType, hasPrompt: bool, maxClarificationRounds: int, schema: Schema)

  datatype Config = Config(version: int, maxQuestions: int, maxOptions: int, minOptions: int, maxIterations: int,
                           entry: string, nodes: seq<NodeRef>, edges: seq<Edge>, defs: map<string, NodeDefinition>) {

    function NodeNames(): set<string> {
      set i | 0 <= i < |nodes| :: nodes[i].name
    }

    function Outgoing(from: string): seq<Edge> {
      EdgesFrom(edges, from)
    }
  }

  /** The edges that leave a node, in order. */
  function EdgesFrom(edges: seq<Edge>, from: string): seq<Edge> {
    if edges == [] then []
    else EdgesFrom(edges[..|edges| - 1], from) + (if edges[|edges| - 1].from == from then [edges[|edges| - 1]] else [])
  }

  function IncomingCount(edges: seq<Edge>, to: string): nat {
    if edges == [] then 0
    else IncomingCount(edges[..|edges| - 1], to) + (if edges[|edges| - 1].to == to then 1 else 0)
  }

  // ----- conditional edges -----

  /** The schema of the field a conditional group branches on, if it is a scalar property. */
  function ConditionalFieldSchema(root: Schema, field: string): Option<Schema> {
    if root.typ != "object" || |root.oneOf| > 0 then None
    else if field !in root.properties || root.properties[field] == None then None
    else
      var child := root.properties[field].value;
      if |child.oneOf| > 0 then None
      else if child.typ in {"boolean", "string", "integer", "number"} then Some(child)
      else None
  }

  predicate ConditionValueTypeOk(v: Value, schema: Schema) {
    match schema.typ
    case "boolean" => v.Bool?
    case "string" => v.Str?
    case "integer" => IsIntegerValue(v)
    case "number" => IsNumberValue(v)
    case _ => false
  }

  /** The branches cover every value the field may take, or there is an else edge. */
  predicate Exhaustive(schema: Schema, seen: set<Key>, hasElse: bool) {
    hasElse ||
    if schema.typ == "boolean" then KBool(true) in seen && KBool(false) in seen
    else if schema.typ in {"string", "integer", "number"} then
      |schema.enums| > 0 &&
      forall i :: 0 <= i < |schema.enums| ==>
        ComparableValueKey(schema.enums[i]).Some? && ComparableValueKey(schema.enums[i]).value in seen
    else true
  }

  predicate HasElse(edges: seq<Edge>) {
    exists i :: 0 <= i < |edges| && edges[i].cond.Else?
  }

  predicate IsConditional(edges: seq<Edge>) {
    exists i :: 0 <= i < |edges| && !edges[i].cond.Always?
  }

  /** The keys that the when edges of a group compare with. */
  function BranchKeys(edges: seq<Edge>): set<Key> {
    set i | 0 <= i < |edges| && edges[i].cond.When? && ComparableValueKey(edges[i].cond.equals).Some? ::
      ComparableValueKey(edges[i].cond.equals).value
  }

  /** One when edge fits the schema of its source node. */
  predicate WhenEdgeOk(edge: Edge, root: Schema)
    requires edge.cond.When?
  {
    && edge.cond.field != ""
    && ConditionalFieldSchema(root, edge.cond.field).Some?
    && ConditionValueTypeOk(edge.cond.equals, ConditionalFieldSchema(root, edge.cond.field).value)
    && ComparableValueKey(edge.cond.equals).Some?
  }

  /** What `validateEdgeGroup` demands of all edges before it looks at coverage. */
  predicate EdgesConsistent(edges: seq<Edge>, root: Schema) {
    && (forall i :: 0 <= i < |edges| && edges[i].cond.When? ==> WhenEdgeOk(edges[i], root))
    && (forall i, j :: 0 <= i < j < |edges| ==>
          && edges[i].cond.Always? == edges[j].cond.Always?
          && !(edges[i].cond.Else? && edges[j].cond.Else?)
          && (edges[i].cond.When? && edges[j].cond.When? ==>
                && edges[i].cond.field == edges[j].cond.field
                && ComparableValueKey(edges[i].cond.equals) != ComparableValueKey(edges[j].cond.equals)))
  }

  /** The edges leaving one node are acceptable together. */
  predicate EdgeGroupOk(edges: seq<Edge>, root: Schema) {
    && EdgesConsistent(edges, root)
    && (IsConditional(edges) ==>
          exists i :: 0 <= i < |edges| && edges[i].cond.When?
            && ConditionalFieldSchema(root, edges[i].cond.field).Some?
            && Exhaustive(ConditionalFieldSchema(root, edges[i].cond.field).value, BranchKeys(edges), HasElse(edges)))
  }

  /** What the loop over a group's edges accumulates. */
  datatype GroupState = GroupState(unconditional: bool, conditional: bool, elseCount: nat, field: string,
                                   seen: set<Key>)

  /** The turn of the loop for one edge; None stands for the error return. */
  function AddEdge(st: GroupState, edge: Edge, root: Schema): Option<GroupState> {
    var next :=
      match edge.cond
      case Always => Some(st.(unconditional := true))
      case Else =>
        if st.elseCount > 0 then None else Some(st.(conditional := true, elseCount := st.elseCount + 1))
      case When(field, equals) =>
        if !WhenEdgeOk(edge, root) || (st.field != "" && st.field != field) then None
        else
          var key := ComparableValueKey(equals).value;
          if key in st.seen then None
          else Some(st.(conditional := true, field := field, seen := st.seen + {key}));
    if next.Some? && next.value.unconditional && next.value.conditional then None else next
  }

  /** `st` is what the edges seen so far amount to. */
  predicate Describes(edges: seq<Edge>, root: Schema, st: GroupState) {
    && EdgesConsistent(edges, root)
    && st.unconditional == (exists i :: 0 <= i < |edges| && edges[i].cond.Always?)
    && st.conditional == IsConditional(edges)
    && st.elseCount == (if HasElse(edges) then 1 else 0)
    && st.seen == BranchKeys(edges)
    && (forall i :: 0 <= i < |edges| && edges[i].cond.When? ==> edges[i].cond.field == st.field)
    && (st.field != "" ==> exists i :: 0 <= i < |edges| && edges[i].cond.When?)
  }

  lemma BranchKeysAppend(edges: seq<Edge>, e: Edge)
    ensures var key := if e.cond.When? then ComparableValueKey(e.cond.equals) else None;
            BranchKeys(edges + [e]) == BranchKeys(edges) + (if key.Some? then {key.value} else {})
  {
    var all := edges + [e];
    assert all[|edges|] == e;
    forall i | 0 <= i < |edges|
      ensures all[i] == edges[i]
    {
    }
    forall k
      ensures k in BranchKeys(all) <==>
              k in BranchKeys(edges) || (e.cond.When? && ComparableValueKey(e.cond.equals) == Some(k))
    {
      if k in BranchKeys(edges) {
        var i :| 0 <= i < |edges| && edges[i].cond.When? && ComparableValueKey(edges[i].cond.equals) == Some(k);
        assert all[i].cond.When?;
      }
    }
  }

  /** A key is taken exactly when an edge of the group compares with it. */
  lemma BranchKeysMember(edges: seq<Edge>, key: Key)
    ensures key in BranchKeys(edges) <==>
            exists i :: 0 <= i < |edges| && edges[i].cond.When? && ComparableValueKey(edges[i].cond.equals) == Some(key)
  {
  }

  lemma AddEdgeAccepts(edges: seq<Edge>, root: Schema, st: GroupState, e: Edge)
    requires Describes(edges, root, st) && AddEdge(st, e, root).Some?
    ensures Describes(edges + [e], root, AddEdge(st, e, root).value)
  {
    BranchKeysAppend(edges, e);
    forall i | 0 <= i < |edges|
      ensures FitTogether(edges[i], e)
    {
      AddedFits(edges, root, st, e, i);
    }
    ConsistentAppend(edges, root, e);
    KindsAppend(edges, e);
    assert (edges + [e])[|edges|] == e;
    assert forall i :: 0 <= i < |edges| ==> (edges + [e])[i] == edges[i];
  }

  /** What two edges of a consistent group have in common. */
  predicate FitTogether(a: Edge, b: Edge) {
    && a.cond.Always? == b.cond.Always?
    && !(a.cond.Else? && b.cond.Else?)
    && (a.cond.When? && b.cond.When? ==>
          a.cond.field == b.cond.field && ComparableValueKey(a.cond.equals) != ComparableValueKey(b.cond.equals))
  }

  lemma AddedFits(edges: seq<Edge>, root: Schema, st: GroupState, e: Edge, i: nat)
    requires Describes(edges, root, st) && AddEdge(st, e, root).Some? && i < |edges|
    ensures FitTogether(edges[i], e)
  {
    if edges[i].cond.When? && e.cond.When? {
      BranchKeysMember(edges, ComparableValueKey(e.cond.equals).value);
    }
  }

  lemma ConsistentAppend(edges: seq<Edge>, root: Schema, e: Edge)
    requires EdgesConsistent(edges, root) && (e.cond.When? ==> WhenEdgeOk(e, root))
    requires forall i :: 0 <= i < |edges| ==> FitTogether(edges[i], e)
    ensures EdgesConsistent(edges + [e], root)
  {
    assert (edges + [e])[|edges|] == e;
    assert forall i :: 0 <= i < |edges| ==> (edges + [e])[i] == edges[i];
  }

  lemma KindsAppend(edges: seq<Edge>, e: Edge)
    ensures HasElse(edges + [e]) <==> HasElse(edges) || e.cond.Else?
    ensures IsConditional(edges + [e]) <==> IsConditional(edges) || !e.cond.Always?
    ensures (exists i :: 0 <= i < |edges + [e]| && (edges + [e])[i].cond.Always?) <==>
              (exists i :: 0 <= i < |edges| && edges[i].cond.Always?) || e.cond.Always?
  {
    assert (edges + [e])[|edges|] == e;
    assert forall i :: 0 <= i < |edges| ==> (edges + [e])[i] == edges[i];
  }

  lemma AddEdgeRejects(edges: seq<Edge>, root: Schema, st: GroupState, e: Edge)
    requires Describes(edges, root, st) && AddEdge(st, e, root) == None
    ensures !EdgesConsistent(edges + [e], root)
  {
    var all := edges + [e];
    assert all[|edges|] == e;
    assert forall i :: 0 <= i < |edges| ==> all[i] == edges[i];
    if EdgesConsistent(all, root) {
      assert e.cond.When? ==> WhenEdgeOk(e, root);
      if e.cond.When? {
        BranchKeysMember(edges, ComparableValueKey(e.cond.equals).value);
      }
      assert false;
    }
  }

  lemma ConsistentPrefix(edges: seq<Edge>, root: Schema, i: nat)
    requires EdgesConsistent(edges, root) && i <= |edges|
    ensures EdgesConsistent(edges[..i], root)
  {
  }

  lemma NoBranches(edges: seq<Edge>, root: Schema)
    requires EdgesConsistent(edges, root) && BranchKeys(edges) == {}
    ensures forall i :: 0 <= i < |edges| ==> !edges[i].cond.When?
  {
    forall i | 0 <= i < |edges|
      ensures !edges[i].cond.When?
    {
      if edges[i].cond.When? {
        BranchKeysMember(edges, ComparableValueKey(edges[i].cond.equals).value);
      }
    }
  }

  method ValidateEdgeGroup(edges: seq<Edge>, root: Schema) returns (ok: bool)
    ensures ok <==> EdgeGroupOk(edges, root)
  {
    var st := GroupState(false, false, 0, "", {});
    for i := 0 to |edges|
      invariant Describes(edges[..i], root, st)
    {
      var next := AddEdge(st, edges[i], root);
      assert edges[..i + 1] == edges[..i] + [edges[i]];
      if next == None {
        AddEdgeRejects(edges[..i], root, st, edges[i]);
        if EdgesConsistent(edges, root) {
          ConsistentPrefix(edges, root, i + 1);
        }
        return false;
      }
      AddEdgeAccepts(edges[..i], root, st, edges[i]);
      st := next.value;
    }
    assert edges[..|edges|] == edges;
    if st.conditional && |st.seen| == 0 {
      NoBranches(edges, root);
      return false;
    }
    if st.conditional {
      var fieldSchema := ConditionalFieldSchema(root, st.field);
      if fieldSchema == None {
        return false;
      }
      return Exhaustive(fieldSchema.value, st.seen, st.elseCount > 0);
    }
    return true;
  }

  // ----- the whole configuration -----

  predicate NodeDefinitionOk(def: NodeDefinition) {
    && def.typ != UnknownType
    && (def.typ == Terminal ==> !def.hasPrompt && def.maxClarificationRounds <= 0)
    && (def.typ == Agent ==> def.hasPrompt)
    && (def.typ == Human ==> !def.hasPrompt && def.maxClarificationRounds <= 0)
    && (def.typ != Terminal ==>
          && def.schema.typ == "object"
          && def.schema.oneOf == []
          && def.schema.additionalProperties == Some(false)
          && "type" !in def.schema.properties
          && SchemaOk(Some(def.schema)))
    && (def.typ == Agent ==> AgentSchemaOk(Some(def.schema)))
  }

  /** The text by which duplicate edges are found, split before the comparison key. */
  datatype SemanticKey = SemanticKey(prefix: string, valueKey: Option<Key>)

  function SemanticEdgeKey(e: Edge): Option<SemanticKey> {
    var ends := e.from + "|" + e.to + "|";
    match e.cond
    case Always => Some(SemanticKey(ends + "||", None))
    case Else => Some(SemanticKey(ends + "else||", None))
    case When(field, equals) =>
      var key := ComparableValueKey(equals);
      if key == None then None else Some(SemanticKey(ends + "when|" + field + "|", key))
  }

  predicate HeaderOk(cfg: Config) {
    && cfg.version == 1
    && cfg.entry != ""
    && cfg.maxIterations > 0
    && cfg.minOptions > 0
    && cfg.maxOptions >= cfg.minOptions
    && cfg.maxQuestions > 0
    && cfg.nodes != []
  }

  predicate NodesOk(nodes: seq<NodeRef>) {
    && (forall i :: 0 <= i < |nodes| ==>
          nodes[i].name != "" && nodes[i].join != JoinInvalid && nodes[i].maxIterations >= 0)
    && (forall i, j :: 0 <= i < j < |nodes| ==> nodes[i].name != nodes[j].name)
  }

  predicate EdgesOk(edges: seq<Edge>, names: set<string>) {
    && (forall i :: 0 <= i < |edges| ==>
          edges[i].from in names && edges[i].to in names && SemanticEdgeKey(edges[i]).Some?)
    && (forall i, j :: 0 <= i < j < |edges| ==> SemanticEdgeKey(edges[i]) != SemanticEdgeKey(edges[j]))
  }

  predicate DefinitionsOk(cfg: Config) {
    && cfg.defs.Keys == cfg.NodeNames()
    && (forall name :: name in cfg.defs ==> NodeDefinitionOk(cfg.defs[name]))
  }

  predicate JoinsOk(cfg: Config) {
    forall i :: 0 <= i < |cfg.nodes| ==>
      (cfg.nodes[i].join != JoinUnset ==> IncomingCount(cfg.edges, cfg.nodes[i].name) >= 2)
  }

  predicate GroupsOk(cfg: Config) {
    forall name :: name in cfg.defs ==> EdgeGroupOk(cfg.Outgoing(name), cfg.defs[name].schema)
  }

  predicate TerminalsOk(cfg: Config) {
    && (exists name :: name in cfg.defs && cfg.defs[name].typ == Terminal)
    && (forall name :: name in cfg.defs ==>
          && (cfg.defs[name].typ == Terminal ==> cfg.Outgoing(name) == [])
          && (cfg.defs[name].typ == Agent ==> cfg.Outgoing(name) != []))
  }

  /** Everything `Validate` demands, apart from the runtime names. */
  predicate ConfigOk(cfg: Config) {
    && HeaderOk(cfg)
    && NodesOk(cfg.nodes)
    && cfg.entry in cfg.NodeNames()
    && DefinitionsOk(cfg)
    && EdgesOk(cfg.edges, cfg.NodeNames())
    && JoinsOk(cfg)
    && GroupsOk(cfg)
    && TerminalsOk(cfg)
  }

  /** What a validated configuration promises about its graph. */
  predicate GraphOk(cfg: Config) {
    cfg.maxIterations > 0 && cfg.entry in cfg.NodeNames() && EdgesOk(cfg.edges, cfg.NodeNames())
  }

  /** The edges grouped by source, as the loop over the edges builds them. */
  ghost predicate GroupsEdges(byFrom: map<string, seq<Edge>>, edges: seq<Edge>) {
    && (forall f :: f in byFrom ==> byFrom[f] == EdgesFrom(edges, f) && byFrom[f] != [])
    && (forall f :: f !in byFrom ==> EdgesFrom(edges, f) == [])
  }

  ghost predicate CountsIncoming(counts: map<string, nat>, edges: seq<Edge>) {
    forall t :: IncomingCount(edges, t) == if t in counts then counts[t] else 0
  }

  method Validate(cfg: Config) returns (ok: bool)
    ensures ok <==> ConfigOk(cfg)
  {
    if !HeaderOk(cfg) {
      return false;
    }
    var nodesOk, names := ValidateNodes(cfg.nodes);
    if !nodesOk || cfg.entry !in names {
      return false;
    }
    assert names == cfg.NodeNames();
    var defsOk := ValidateDefinitions(cfg, names);
    if !defsOk {
      return false;
    }
    var edgesOk, byFrom, counts := ValidateEdges(cfg.edges, names);
    if !edgesOk {
      return false;
    }
    var joinsOk := ValidateJoins(cfg, counts);
    if !joinsOk {
      return false;
    }
    var groupsOk := ValidateGroups(cfg, byFrom);
    if !groupsOk {
      return false;
    }
    ok := ValidateTerminals(cfg, byFrom);
  }

  method ValidateNodes(nodes: seq<NodeRef>) returns (ok: bool, names: set<string>)
    ensures ok <==> NodesOk(nodes)
    ensures ok ==> names == set i | 0 <= i < |nodes| :: nodes[i].name
  {
    names := {};
    for i := 0 to |nodes|
      invariant NodesOk(nodes[..i])
      invariant names == set j | 0 <= j < i :: nodes[j].name
    {
      var node := nodes[i];
      if node.name == "" || node.name in names || node.join == JoinInvalid || node.maxIterations < 0 {
        return false, names;
      }
      names := names + {node.name};
    }
    assert nodes[..|nodes|] == nodes;
    ok := true;
  }

  method ValidateDefinitions(cfg: Config, names: set<string>) returns (ok: bool)
    requires names == cfg.NodeNames() && cfg.nodes != []
    ensures ok <==> DefinitionsOk(cfg)
  {
    assert cfg.nodes[0].name in names;
    if |cfg.defs| == 0 {
      return false;
    }
    var todo := names;
    while todo != {}
      invariant todo <= names
      invariant forall name :: name in names - todo ==> name in cfg.defs && NodeDefinitionOk(cfg.defs[name])
      decreases todo
    {
      var name :| name in todo;
      todo := todo - {name};
      if name !in cfg.defs || !NodeDefinitionOk(cfg.defs[name]) {
        return false;
      }
    }
    return cfg.defs.Keys <= names;
  }

  method ValidateEdges(edges: seq<Edge>, names: set<string>)
    returns (ok: bool, byFrom: map<string, seq<Edge>>, counts: map<string, nat>)
    ensures ok <==> EdgesOk(edges, names)
    ensures ok ==> GroupsEdges(byFrom, edges) && CountsIncoming(counts, edges)
  {
    byFrom, counts := map[], map[];
    var seen: set<SemanticKey> := {};
    for i := 0 to |edges|
      invariant EdgesOk(edges[..i], names)
      invariant GroupsEdges(byFrom, edges[..i]) && CountsIncoming(counts, edges[..i])
      invariant seen == SemanticKeys(edges[..i])
    {
      var edge := edges[i];
      GroupEdge(byFrom, counts, edges, i);
      NextEdgeOk(edges, names, i);
      if edge.from !in names || edge.to !in names {
        return false, byFrom, counts;
      }
      counts := counts[edge.to := (if edge.to in counts then counts[edge.to] else 0) + 1];
      var key := SemanticEdgeKey(edge);
      if key == None || key.value in seen {
        return false, byFrom, counts;
      }
      seen := seen + {key.value};
      byFrom := byFrom[edge.from := (if edge.from in byFrom then byFrom[edge.from] else []) + [edge]];
    }
    assert edges[..|edges|] == edges;
    ok := true;
  }

  function SemanticKeys(edges: seq<Edge>): set<SemanticKey> {
    set i | 0 <= i < |edges| && SemanticEdgeKey(edges[i]).Some? :: SemanticEdgeKey(edges[i]).value
  }

  lemma NextEdgeOk(edges: seq<Edge>, names: set<string>, i: nat)
    requires i < |edges| && EdgesOk(edges[..i], names)
    ensures var key := SemanticEdgeKey(edges[i]);
            && (EdgesOk(edges[..i + 1], names) <==>
                  edges[i].from in names && edges[i].to in names && key.Some? && key.value !in SemanticKeys(edges[..i]))
            && SemanticKeys(edges[..i + 1]) == SemanticKeys(edges[..i]) + (if key.Some? then {key.value} else {})
    ensures EdgesOk(edges, names) ==> EdgesOk(edges[..i + 1], names)
  {
    var now, was, key := edges[..i + 1], edges[..i], SemanticEdgeKey(edges[i]);
    assert now[i] == edges[i];
    assert forall j :: 0 <= j < i ==> now[j] == was[j] == edges[j];
    forall k
      ensures k in SemanticKeys(now) <==> k in SemanticKeys(was) || key == Some(k)
    {
      if k in SemanticKeys(was) {
        var j :| 0 <= j < i && SemanticEdgeKey(was[j]) == Some(k);
        assert SemanticEdgeKey(now[j]) == Some(k);
      }
    }
  }

  lemma GroupEdge(byFrom: map<string, seq<Edge>>, counts: map<string, nat>, edges: seq<Edge>, i: nat)
    requires i < |edges| && GroupsEdges(byFrom, edges[..i]) && CountsIncoming(counts, edges[..i])
    ensures var e := edges[i];
            && GroupsEdges(byFrom[e.from := (if e.from in byFrom then byFrom[e.from] else []) + [e]], edges[..i + 1])
            && CountsIncoming(counts[e.to := (if e.to in counts then counts[e.to] else 0) + 1], edges[..i + 1])
  {
    assert edges[..i + 1][..i] == edges[..i];
  }

  method ValidateJoins(cfg: Config, counts: map<string, nat>) returns (ok: bool)
    requires CountsIncoming(counts, cfg.edges)
    ensures ok <==> JoinsOk(cfg)
  {
    for i := 0 to |cfg.nodes|
      invariant forall j :: 0 <= j < i ==>
                  (cfg.nodes[j].join != JoinUnset ==> IncomingCount(cfg.edges, cfg.nodes[j].name) >= 2)
    {
      var name := cfg.nodes[i].name;
      if cfg.nodes[i].join != JoinUnset && (if name in counts then counts[name] else 0) < 2 {
        return false;
      }
    }
    return true;
  }

  method ValidateGroups(cfg: Config, byFrom: map<string, seq<Edge>>) returns (ok: bool)
    requires GroupsEdges(byFrom, cfg.edges) && DefinitionsOk(cfg) && EdgesOk(cfg.edges, cfg.NodeNames())
    ensures ok <==> GroupsOk(cfg)
  {
    var todo := byFrom.Keys;
    while todo != {}
      invariant todo <= byFrom.Keys
      invariant forall from :: from in byFrom.Keys - todo && from in cfg.defs ==>
                  EdgeGroupOk(byFrom[from], cfg.defs[from].schema)
      decreases todo
    {
      var from :| from in todo;
      todo := todo - {from};
      EdgesFromMember(cfg.edges, from);
      assert byFrom[from][0] in cfg.edges && byFrom[from][0].from == from;
      var groupOk := ValidateEdgeGroup(byFrom[from], cfg.defs[from].schema);
      if !groupOk {
        return false;
      }
    }
    forall name | name in cfg.defs && name !in byFrom
      ensures EdgeGroupOk(cfg.Outgoing(name), cfg.defs[name].schema)
    {
      assert cfg.Outgoing(name) == [];
    }
    return true;
  }

  method ValidateTerminals(cfg: Config, byFrom: map<string, seq<Edge>>) returns (ok: bool)
    requires GroupsEdges(byFrom, cfg.edges) && DefinitionsOk(cfg)
    ensures ok <==> TerminalsOk(cfg)
  {
    var hasTerminal := false;
    for i := 0 to |cfg.nodes|
      invariant hasTerminal ==
                exists j :: 0 <= j < i && cfg.nodes[j].name in cfg.defs && cfg.defs[cfg.nodes[j].name].typ == Terminal
      invariant forall j :: 0 <= j < i && cfg.nodes[j].name in cfg.defs ==>
                  && (cfg.defs[cfg.nodes[j].name].typ == Terminal ==> cfg.Outgoing(cfg.nodes[j].name) == [])
                  && (cfg.defs[cfg.nodes[j].name].typ == Agent ==> cfg.Outgoing(cfg.nodes[j].name) != [])
    {
      var name := cfg.nodes[i].name;
      assert name in cfg.NodeNames();
      var hasOutgoing := name in byFrom;
      assert hasOutgoing <==> cfg.Outgoing(name) != [];
      if cfg.defs[name].typ == Terminal {
        hasTerminal := true;
        if hasOutgoing {
          return false;
        }
      } else if cfg.defs[name].typ == Agent && !hasOutgoing {
        return false;
      }
    }
    forall name | name in cfg.defs
      ensures exists j :: 0 <= j < |cfg.nodes| && cfg.nodes[j].name == name
    {
      assert name in cfg.NodeNames();
    }
    return hasTerminal;
  }

  lemma {:induction false} EdgesFromMember(edges: seq<Edge>, from: string)
    ensures forall e :: e in EdgesFrom(edges, from) <==> e in edges && e.from == from
  {
    if edges != [] {
      EdgesFromMember(edges[..|edges| - 1], from);
      assert edges == edges[..|edges| - 1] + [edges[|edges| - 1]];
    }
  }
}
