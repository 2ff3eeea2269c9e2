/** Which edges a completed run's result sends arrivals along, and why a validated configuration makes
    that total and deterministic. */
module EdgeEvaluation {
  import opened Options
  import opened ConfigValues
  import opened TaskConfig

  /** Why a run was triggered: an edge, or one of the manual steps. */
  datatype Reason =
    | EdgeTaken(from: string, to: string)
    | EdgeMatched(field: string, equals: Value)
    | EdgeElse
    | ManualRetry
    | ManualRetryForce
    | ManualContinue
    | ManualContinueForce

  datatype Hop = Hop(to: string, reason: Reason)

  predicate MatchesCondition(result: Option<map<string, Value>>, cond: Condition) {
    && cond.When?
    && result.Some?
    && cond.field in result.value
    && ValuesEqual(result.value[cond.field], cond.equals)
  }

  function MatchedHops(result: Option<map<string, Value>>, edges: seq<Edge>): seq<Hop> {
    if edges == [] then []
    else
      var front, e := edges[..|edges| - 1], edges[|edges| - 1];
      MatchedHops(result, front) +
      if MatchesCondition(result, e.cond) then [Hop(e.to, EdgeMatched(e.cond.field, e.cond.equals))] else []
  }

  function LastElse(edges: seq<Edge>): Edge
    requires HasElse(edges)
  {
    if edges[|edges| - 1].cond.Else? then edges[|edges| - 1] else LastElse(edges[..|edges| - 1])
  }

  /** The hops along the edges; None stands for the error that no edge matches. */
  function Evaluate(result: Option<map<string, Value>>, edges: seq<Edge>): Option<seq<Hop>> {
    if exists i :: 0 <= i < |edges| && edges[i].cond.Always? then
      Some(seq(|edges|, i requires 0 <= i < |edges| => Hop(edges[i].to, EdgeTaken(edges[i].from, edges[i].to))))
    else if edges == [] || MatchedHops(result, edges) != [] then Some(MatchedHops(result, edges))
    else if HasElse(edges) then Some([Hop(LastElse(edges).to, EdgeElse)])
    else None
  }

  method EvaluateEdges(result: Option<map<string, Value>>, edges: seq<Edge>) returns (r: Option<seq<Hop>>)
    ensures r == Evaluate(result, edges)
  {
    if |edges| == 0 {
      return Some([]);
    }
    var unconditional := false;
    for i := 0 to |edges|
      invariant unconditional == exists j :: 0 <= j < i && edges[j].cond.Always?
    {
      if edges[i].cond.Always? {
        unconditional := true;
        break;
      }
    }
    if unconditional {
      var hops: seq<Hop> := [];
      for i := 0 to |edges|
        invariant hops == seq(i, j requires 0 <= j < |edges| => Hop(edges[j].to, EdgeTaken(edges[j].from, edges[j].to)))
      {
        hops := hops + [Hop(edges[i].to, EdgeTaken(edges[i].from, edges[i].to))];
      }
      return Some(hops);
    }
    var matched: seq<Hop> := [];
    var elseEdge: Option<Edge> := None;
    for i := 0 to |edges|
      invariant matched == MatchedHops(result, edges[..i])
      invariant elseEdge == if HasElse(edges[..i]) then Some(LastElse(edges[..i])) else None
    {
      assert edges[..i + 1][..i] == edges[..i] && edges[..i + 1][i] == edges[i];
      assert HasElse(edges[..i + 1]) <==> HasElse(edges[..i]) || edges[i].cond.Else?;
      match edges[i].cond {
        case Else =>
          elseEdge := Some(edges[i]);
        case When(field, equals) =>
          if MatchesCondition(result, edges[i].cond) {
            matched := matched + [Hop(edges[i].to, EdgeMatched(field, equals))];
          }
        case Always =>
      }
    }
    assert edges[..|edges|] == edges;
    if |matched| > 0 {
      return Some(matched);
    }
    if elseEdge.Some? {
      return Some([Hop(elseEdge.value.to, EdgeElse)]);
    }
    return None;
  }

  // ----- at most one branch matches -----

  lemma {:induction false} MatchedIff(result: Option<map<string, Value>>, edges: seq<Edge>)
    ensures MatchedHops(result, edges) != [] <==>
              exists i :: 0 <= i < |edges| && MatchesCondition(result, edges[i].cond)
    ensures forall h :: h in MatchedHops(result, edges) ==>
              exists i :: 0 <= i < |edges| && MatchesCondition(result, edges[i].cond) && h.to == edges[i].to
  {
    if edges != [] {
      MatchedIff(result, edges[..|edges| - 1]);
      assert forall i :: 0 <= i < |edges| - 1 ==> edges[..|edges| - 1][i] == edges[i];
    }
  }

  lemma {:induction false} MatchedIsOne(result: Option<map<string, Value>>, edges: seq<Edge>, root: Schema)
    requires EdgesConsistent(edges, root)
    ensures |MatchedHops(result, edges)| <= 1
  {
    if edges != [] {
      var front := edges[..|edges| - 1];
      ConsistentPrefix(edges, root, |edges| - 1);
      MatchedIsOne(result, front, root);
      MatchedIff(result, front);
    }
  }

  /** On an accepted conditional group no result makes two edges fire, whether or not it fits the schema. */
  lemma ConditionalFiresAtMostOne(result: Option<map<string, Value>>, edges: seq<Edge>, root: Schema)
    requires EdgeGroupOk(edges, root) && IsConditional(edges)
    ensures Evaluate(result, edges).Some? ==> |Evaluate(result, edges).value| == 1
  {
    MatchedIsOne(result, edges, root);
  }

  // ----- which edge fires -----

  /** The result has the field that the edge asks for, with a value equal to the edge's. */
  predicate Holds(result: Option<map<string, Value>>, e: Edge) {
    && e.cond.When?
    && result.Some?
    && e.cond.field in result.value
    && ValuesEqual(result.value[e.cond.field], e.cond.equals)
  }

  lemma {:induction false} MatchedHopIs(result: Option<map<string, Value>>, edges: seq<Edge>, h: Hop)
    requires h in MatchedHops(result, edges)
    ensures exists i :: 0 <= i < |edges| && Holds(result, edges[i])
              && h == Hop(edges[i].to, EdgeMatched(edges[i].cond.field, edges[i].cond.equals))
  {
    var front, last := edges[..|edges| - 1], edges[|edges| - 1];
    if h in MatchedHops(result, front) {
      MatchedHopIs(result, front, h);
      var i :| 0 <= i < |front| && Holds(result, front[i])
        && h == Hop(front[i].to, EdgeMatched(front[i].cond.field, front[i].cond.equals));
      assert edges[i] == front[i];
    } else {
      assert last == edges[|edges| - 1] && Holds(result, last);
    }
  }

  lemma HoldsByKey(result: Option<map<string, Value>>, e: Edge)
    requires Holds(result, e)
    ensures ComparableValueKey(e.cond.equals).Some?
    ensures ComparableValueKey(e.cond.equals) == ComparableValueKey(result.value[e.cond.field])
  {
    ValuesEqualIsKeyEquality(result.value[e.cond.field], e.cond.equals);
  }

  lemma OnlyOneHolds(result: Option<map<string, Value>>, edges: seq<Edge>, root: Schema, i: nat, j: nat)
    requires EdgesConsistent(edges, root) && i < |edges| && j < |edges|
    requires Holds(result, edges[i]) && Holds(result, edges[j])
    ensures i == j
  {
    HoldsByKey(result, edges[i]);
    HoldsByKey(result, edges[j]);
    if i < j || j < i {
      assert false;
    }
  }

  /** The edge whose condition the result meets fires, and no other, else edge or not. */
  lemma MatchFires(result: Option<map<string, Value>>, edges: seq<Edge>, root: Schema, i: nat)
    requires EdgeGroupOk(edges, root) && i < |edges| && Holds(result, edges[i])
    ensures Evaluate(result, edges)
            == Some([Hop(edges[i].to, EdgeMatched(edges[i].cond.field, edges[i].cond.equals))])
  {
    MatchedIff(result, edges);
    MatchedIsOne(result, edges, root);
    assert MatchesCondition(result, edges[i].cond);
    var hops := MatchedHops(result, edges);
    assert hops == [hops[0]];
    MatchedHopIs(result, edges, hops[0]);
    var k :| 0 <= k < |edges| && Holds(result, edges[k])
      && hops[0] == Hop(edges[k].to, EdgeMatched(edges[k].cond.field, edges[k].cond.equals));
    OnlyOneHolds(result, edges, root, i, k);
    assert !edges[i].cond.Always?;
    assert forall j :: 0 <= j < |edges| ==> !edges[j].cond.Always?;
  }

  /** Where no condition is met, the else edge fires. */
  lemma ElseFires(result: Option<map<string, Value>>, edges: seq<Edge>, root: Schema, i: nat)
    requires EdgeGroupOk(edges, root) && i < |edges| && edges[i].cond.Else?
    requires forall j :: 0 <= j < |edges| ==> !Holds(result, edges[j])
    ensures Evaluate(result, edges) == Some([Hop(edges[i].to, EdgeElse)])
  {
    MatchedIff(result, edges);
    assert forall j :: 0 <= j < |edges| ==> !MatchesCondition(result, edges[j].cond);
    LastElseIs(edges, i);
    assert forall j :: 0 <= j < |edges| ==> !edges[j].cond.Always?;
  }

  /** Where no condition is met and there is no else edge, evaluation fails. */
  lemma NoneFires(result: Option<map<string, Value>>, edges: seq<Edge>)
    requires edges != [] && forall j :: 0 <= j < |edges| ==> edges[j].cond.When? && !Holds(result, edges[j])
    ensures Evaluate(result, edges) == None
  {
    MatchedIff(result, edges);
    assert forall j :: 0 <= j < |edges| ==> !MatchesCondition(result, edges[j].cond);
  }

  lemma {:induction false} LastElseIs(edges: seq<Edge>, i: nat)
    requires i < |edges| && edges[i].cond.Else? && forall j :: 0 <= j < |edges| && j != i ==> !edges[j].cond.Else?
    ensures HasElse(edges) && LastElse(edges) == edges[i]
  {
    if i < |edges| - 1 {
      LastElseIs(edges[..|edges| - 1], i);
    }
  }

  /** Every edge of an unconditional group fires, in order. */
  lemma AllEdgesFire(result: Option<map<string, Value>>, edges: seq<Edge>, i: nat)
    requires (forall j :: 0 <= j < |edges| ==> edges[j].cond.Always?) && i < |edges|
    ensures var hops := Evaluate(result, edges);
            && hops.Some?
            && |hops.value| == |edges|
            && hops.value[i] == Hop(edges[i].to, EdgeTaken(edges[i].from, edges[i].to))
  {
    assert edges[i].cond.Always?;
  }

  // ----- coverage -----

  /** A value that its field schema accepts equals one of the covered branches. */
  lemma CoveredValueMatches(schema: Schema, v: Value, edges: seq<Edge>)
    requires Accepts(schema, v) && schema.oneOf == [] && schema.typ in {"boolean", "string", "integer", "number"}
    requires Exhaustive(schema, BranchKeys(edges), false)
    ensures exists i :: 0 <= i < |edges| && edges[i].cond.When? && ValuesEqual(v, edges[i].cond.equals)
  {
    var key: Key;
    if schema.typ == "boolean" {
      assert v.Bool? by {
        assert |schema.typ| == 7;
      }
      key := KBool(v.b);
    } else {
      assert schema.typ != "object" && schema.typ != "array" by {
        assert schema.typ == "string" || schema.typ == "integer" || schema.typ == "number";
        assert schema.typ[0] == 's' || schema.typ[0] == 'i' || schema.typ[0] == 'n';
      }
      var c :| 0 <= c < |schema.enums| && ValuesEqual(schema.enums[c], v);
      ValuesEqualIsKeyEquality(schema.enums[c], v);
      key := ComparableValueKey(schema.enums[c]).value;
    }
    BranchKeysMember(edges, key);
    var i :| 0 <= i < |edges| && edges[i].cond.When? && ComparableValueKey(edges[i].cond.equals) == Some(key);
    ValuesEqualIsKeyEquality(v, edges[i].cond.equals);
  }

  /** If the field that the group branches on is there, one of the covered branches matches. */
  lemma CoveredBranchMatches(result: map<string, Value>, edges: seq<Edge>, root: Schema, field: string)
    requires Accepts(root, Obj(result)) && field in result && ConditionalFieldSchema(root, field).Some?
    requires Exhaustive(ConditionalFieldSchema(root, field).value, BranchKeys(edges), false)
    requires forall j :: 0 <= j < |edges| && edges[j].cond.When? ==> edges[j].cond.field == field
    ensures exists j :: 0 <= j < |edges| && MatchesCondition(Some(result), edges[j].cond)
  {
    var child := ConditionalFieldSchema(root, field).value;
    assert Accepts(child, result[field]);
    CoveredValueMatches(child, result[field], edges);
    var j :| 0 <= j < |edges| && edges[j].cond.When? && ValuesEqual(result[field], edges[j].cond.equals);
    assert MatchesCondition(Some(result), edges[j].cond);
  }

  lemma SameField(edges: seq<Edge>, root: Schema, i: nat, j: nat)
    requires EdgesConsistent(edges, root) && !HasElse(edges) && i < |edges| && j < |edges| && edges[i].cond.When?
    ensures edges[j].cond.When? && edges[j].cond.field == edges[i].cond.field
  {
    assert i < j || j < i || i == j;
  }

  /** A covered group without an else edge branches on one field, whose schema its branches exhaust. */
  lemma BranchField(edges: seq<Edge>, root: Schema) returns (field: string)
    requires EdgeGroupOk(edges, root) && IsConditional(edges) && !HasElse(edges)
    ensures ConditionalFieldSchema(root, field).Some?
    ensures Exhaustive(ConditionalFieldSchema(root, field).value, BranchKeys(edges), false)
    ensures forall j :: 0 <= j < |edges| ==> edges[j].cond.When? && edges[j].cond.field == field
  {
    var i :| 0 <= i < |edges| && edges[i].cond.When?
      && ConditionalFieldSchema(root, edges[i].cond.field).Some?
      && Exhaustive(ConditionalFieldSchema(root, edges[i].cond.field).value, BranchKeys(edges), HasElse(edges));
    field := edges[i].cond.field;
    forall j | 0 <= j < |edges|
      ensures edges[j].cond.When? && edges[j].cond.field == field
    {
      SameField(edges, root, i, j);
    }
  }

  lemma UnconditionalEvaluates(result: Option<map<string, Value>>, edges: seq<Edge>)
    requires !IsConditional(edges)
    ensures Evaluate(result, edges).Some?
  {
    if edges != [] {
      assert edges[0].cond.Always?;
    }
  }

  /** Exactly when evaluation fails on an accepted result: every branch names a field that the result
      leaves out, and there is no else edge. */
  lemma FailsIff(result: map<string, Value>, edges: seq<Edge>, root: Schema)
    requires EdgeGroupOk(edges, root) && Accepts(root, Obj(result))
    ensures Evaluate(Some(result), edges) == None <==>
            !HasElse(edges) && exists i :: 0 <= i < |edges| && edges[i].cond.When? && edges[i].cond.field !in result
  {
    if !IsConditional(edges) {
      UnconditionalEvaluates(Some(result), edges);
    } else if !HasElse(edges) {
      MatchedIff(Some(result), edges);
      var field := BranchField(edges, root);
      assert edges[0].cond.When? && edges[0].cond.field == field;
      if field in result {
        CoveredBranchMatches(result, edges, root, field);
      }
    }
  }

  /** If `Validate` accepts the configuration and `ValidateValue` accepts an agent's result, then
      evaluating the agent's edges never fails, and on a conditional group exactly one edge fires. */
  lemma ValidatedAgentEvaluates(cfg: Config, name: string, result: map<string, Value>)
    requires ConfigOk(cfg) && name in cfg.defs && cfg.defs[name].typ == Agent
    requires Accepts(cfg.defs[name].schema, Obj(result))
    ensures Evaluate(Some(result), cfg.Outgoing(name)).Some?
    ensures IsConditional(cfg.Outgoing(name)) ==> |Evaluate(Some(result), cfg.Outgoing(name)).value| == 1
    ensures !IsConditional(cfg.Outgoing(name)) ==>
              |Evaluate(Some(result), cfg.Outgoing(name)).value| == |cfg.Outgoing(name)| > 0
  {
    AgentGroupEvaluates(result, cfg.Outgoing(name), cfg.defs[name].schema);
  }

  /** An object of an agent's schema has every property. */
  lemma AgentObjectIsFull(result: map<string, Value>, root: Schema, field: string)
    requires AgentSchemaOk(Some(root)) && Accepts(root, Obj(result)) && ConditionalFieldSchema(root, field).Some?
    ensures field in result
  {
  }

  lemma AgentGroupEvaluates(result: map<string, Value>, edges: seq<Edge>, root: Schema)
    requires edges != [] && EdgeGroupOk(edges, root) && AgentSchemaOk(Some(root)) && Accepts(root, Obj(result))
    ensures Evaluate(Some(result), edges).Some?
    ensures IsConditional(edges) ==> |Evaluate(Some(result), edges).value| == 1
    ensures !IsConditional(edges) ==> |Evaluate(Some(result), edges).value| == |edges|
  {
    FailsIff(result, edges, root);
    forall i | 0 <= i < |edges| && edges[i].cond.When?
      ensures edges[i].cond.field in result
    {
      AgentObjectIsFull(result, root, edges[i].cond.field);
    }
    if IsConditional(edges) {
      ConditionalFiresAtMostOne(Some(result), edges, root);
    } else {
      assert edges[0].cond.Always?;
    }
  }

  // ----- an accepted result that no edge takes -----

  const FLAG := Schema("boolean", None, [], map[], None, [], [], None, None)

  /** A closed object whose only property may be left out. */
  const OPTIONAL_FLAG := Schema("object", Some(false), [], map["ok" := Some(FLAG)], None, [], [], None, None)

  const YES := Edge("h", "t", When("ok", Bool(true)))
  const NO := Edge("h", "u", When("ok", Bool(false)))
  const END := NodeDefinition(Terminal, false, 0, FLAG)

  /** A human at `h` decides between two ends. */
  function Choice(edges: seq<Edge>, root: Schema): Config {
    Config(1, 1, 1, 1, 1, "h", [NodeRef("h", 0, JoinUnset), NodeRef("t", 0, JoinUnset), NodeRef("u", 0, JoinUnset)],
           edges, map["h" := NodeDefinition(Human, false, 0, root), "t" := END, "u" := END])
  }

  lemma ChoiceOutgoing(name: string)
    ensures EdgesFrom([YES, NO], name) == if name == "h" then [YES, NO] else []
  {
    assert [YES, NO][..1] == [YES] && [YES][..0] == [];
    assert EdgesFrom([], name) == [];
    assert EdgesFrom([YES], name) == if name == "h" then [YES] else [];
  }

  lemma ChoiceNames(edges: seq<Edge>, root: Schema)
    ensures Choice(edges, root).NodeNames() == {"h", "t", "u"}
  {
    var nodes := Choice(edges, root).nodes;
    assert nodes[0].name == "h" && nodes[1].name == "t" && nodes[2].name == "u";
  }

  lemma ChoiceSchema()
    ensures SchemaOk(Some(OPTIONAL_FLAG)) && ConditionalFieldSchema(OPTIONAL_FLAG, "ok") == Some(FLAG)
  {
    assert |"boolean"| == 7 && |"object"| == 6 && |"array"| == 5;
    assert SchemaOk(Some(FLAG));
  }

  lemma ChoiceGroupOk()
    ensures EdgeGroupOk([YES, NO], OPTIONAL_FLAG)
  {
    var edges := [YES, NO];
    ChoiceSchema();
    assert edges[0] == YES && edges[1] == NO;
    BranchKeysMember(edges, KBool(true));
    BranchKeysMember(edges, KBool(false));
    assert edges[0].cond.When? && Exhaustive(FLAG, BranchKeys(edges), HasElse(edges));
  }

  /** One node decides, and the others are ends. */
  lemma OneDeciderOk(cfg: Config, h: string, edges: seq<Edge>)
    requires h in cfg.defs && cfg.defs[h].typ == Human
    requires cfg.Outgoing(h) == edges && EdgeGroupOk(edges, cfg.defs[h].schema)
    requires forall name :: name in cfg.defs && name != h ==> cfg.defs[name].typ == Terminal && cfg.Outgoing(name) == []
    requires exists name :: name in cfg.defs && name != h
    ensures GroupsOk(cfg) && TerminalsOk(cfg)
  {
  }

  lemma NoJoinsOk(cfg: Config)
    requires forall i :: 0 <= i < |cfg.nodes| ==> cfg.nodes[i].join == JoinUnset
    ensures JoinsOk(cfg)
  {
  }

  lemma ChoiceEdgesOk()
    ensures EdgesOk([YES, NO], {"h", "t", "u"})
  {
    assert SemanticEdgeKey(YES).value.valueKey != SemanticEdgeKey(NO).value.valueKey;
  }

  lemma ChoiceNodesOk(edges: seq<Edge>, root: Schema)
    requires NodeDefinitionOk(NodeDefinition(Human, false, 0, root))
    ensures var cfg := Choice(edges, root);
            HeaderOk(cfg) && NodesOk(cfg.nodes) && cfg.entry in cfg.NodeNames() && DefinitionsOk(cfg) && JoinsOk(cfg)
  {
    ChoiceNames(edges, root);
    ChoiceNodesDiffer(edges, root);
    NoJoinsOk(Choice(edges, root));
  }

  lemma ChoiceNodesDiffer(edges: seq<Edge>, root: Schema)
    ensures NodesOk(Choice(edges, root).nodes)
  {
    var nodes := Choice(edges, root).nodes;
    assert nodes[0].name == "h" && nodes[1].name == "t" && nodes[2].name == "u";
  }

  /** `edges` all leave h. */
  predicate LeaveH(edges: seq<Edge>) {
    EdgesFrom(edges, "h") == edges && EdgesFrom(edges, "t") == [] && EdgesFrom(edges, "u") == []
  }

  lemma ChoiceGraphOk(edges: seq<Edge>, root: Schema)
    requires EdgeGroupOk(edges, root) && LeaveH(edges)
    ensures GroupsOk(Choice(edges, root)) && TerminalsOk(Choice(edges, root))
  {
    var cfg := Choice(edges, root);
    assert "t" in cfg.defs;
    OneDeciderOk(cfg, "h", edges);
  }

  lemma ChoiceOk()
    ensures ConfigOk(Choice([YES, NO], OPTIONAL_FLAG)) && LeaveH([YES, NO])
  {
    ChoiceOutgoing("h");
    ChoiceOutgoing("t");
    ChoiceOutgoing("u");
    ChoiceEdgesOk();
    ChoiceGroupOk();
    ChoiceFormOk();
    ChoiceNames([YES, NO], OPTIONAL_FLAG);
    ChoiceNodesOk([YES, NO], OPTIONAL_FLAG);
    ChoiceGraphOk([YES, NO], OPTIONAL_FLAG);
  }

  lemma NothingFails(edges: seq<Edge>, root: Schema, result: map<string, Value>)
    requires EdgeGroupOk(edges, root) && Accepts(root, Obj(result)) && !HasElse(edges)
    requires edges != [] && edges[0].cond.When? && edges[0].cond.field !in result
    ensures Evaluate(Some(result), edges) == None
  {
    FailsIff(result, edges, root);
  }

  /** The form's field is optional: the configuration is validated, a result without the field is accepted,
      and evaluating the edges fails. */
  lemma HumanChoiceFails()
    ensures var cfg := Choice([YES, NO], OPTIONAL_FLAG);
            && ConfigOk(cfg)
            && Accepts(cfg.defs["h"].schema, Obj(map[]))
            && Evaluate(Some(map[]), cfg.Outgoing("h")) == None
  {
    ChoiceOk();
    EmptyFormAccepted(OPTIONAL_FLAG);
    ChoiceFails(map[]);
  }

  lemma ChoiceFails(result: map<string, Value>)
    requires Accepts(OPTIONAL_FLAG, Obj(result)) && "ok" !in result
    ensures Evaluate(Some(result), [YES, NO]) == None
  {
    ChoiceGroupOk();
    assert [YES, NO][0] == YES && [YES, NO][1] == NO;
    NothingFails([YES, NO], OPTIONAL_FLAG, result);
  }

  lemma EmptyFormAccepted(root: Schema)
    requires root.typ == "object" && root.oneOf == [] && root.required == []
    ensures Accepts(root, Obj(map[]))
  {
  }

  lemma ChoiceFormOk()
    ensures NodeDefinitionOk(NodeDefinition(Human, false, 0, OPTIONAL_FLAG))
  {
    ChoiceSchema();
    assert OPTIONAL_FLAG.properties.Keys == {"ok"} && |"type"| != |"ok"|;
  }

  // ----- where arrivals go -----

  lemma {:induction false} LastElseIsAnEdge(edges: seq<Edge>)
    requires HasElse(edges)
    ensures LastElse(edges) in edges
    ensures LastElse(edges).cond.Else?
  {
    var k :| 0 <= k < |edges| && edges[k].cond.Else?;
    if !edges[|edges| - 1].cond.Else? {
      var front := edges[..|edges| - 1];
      assert front[k].cond.Else?;
      LastElseIsAnEdge(front);
      assert forall e :: e in front ==> e in edges;
    }
  }

  lemma HopsFollowEdges(result: Option<map<string, Value>>, edges: seq<Edge>, h: Hop)
    requires Evaluate(result, edges).Some? && h in Evaluate(result, edges).value
    ensures exists e :: e in edges && e.to == h.to
  {
    MatchedIff(result, edges);
    if exists i :: 0 <= i < |edges| && edges[i].cond.Always? {
      var hops := Evaluate(result, edges).value;
      var i :| 0 <= i < |hops| && hops[i] == h;
      assert edges[i] in edges;
    } else if h in MatchedHops(result, edges) {
      var i :| 0 <= i < |edges| && MatchesCondition(result, edges[i].cond) && h.to == edges[i].to;
      assert edges[i] in edges;
    } else {
      LastElseIsAnEdge(edges);
    }
  }

  /** No run sends two arrivals to the same node. */
  lemma HopsHaveDistinctTargets(cfg: Config, name: string, result: Option<map<string, Value>>, i: nat, j: nat)
    requires ConfigOk(cfg) && name in cfg.defs
    requires Evaluate(result, cfg.Outgoing(name)).Some? && i < j < |Evaluate(result, cfg.Outgoing(name)).value|
    ensures Evaluate(result, cfg.Outgoing(name)).value[i].to != Evaluate(result, cfg.Outgoing(name)).value[j].to
  {
    var edges := cfg.Outgoing(name);
    if IsConditional(edges) {
      ConditionalFiresAtMostOne(result, edges, cfg.defs[name].schema);
    } else {
      assert edges != [] by {
        assert edges == [] ==> MatchedHops(result, edges) == [];
      }
      assert edges[0].cond.Always? && edges[i].cond.Always? && edges[j].cond.Always?;
      var hops := Evaluate(result, edges).value;
      assert hops[i].to == edges[i].to && hops[j].to == edges[j].to;
      SemanticKeysStayDistinct(cfg.edges, cfg.NodeNames(), name, i, j);
      OutgoingFrom(cfg.edges, name, i);
      OutgoingFrom(cfg.edges, name, j);
    }
  }

  lemma {:induction false} OutgoingFrom(edges: seq<Edge>, from: string, i: nat)
    requires i < |EdgesFrom(edges, from)|
    ensures EdgesFrom(edges, from)[i].from == from
    ensures EdgesFrom(edges, from)[i] in edges
  {
    EdgesFromMember(edges, from);
    assert EdgesFrom(edges, from)[i] in EdgesFrom(edges, from);
  }

  lemma {:induction false} SemanticKeysStayDistinct(edges: seq<Edge>, names: set<string>, from: string, i: nat, j: nat)
    requires EdgesOk(edges, names) && i < j < |EdgesFrom(edges, from)|
    ensures SemanticEdgeKey(EdgesFrom(edges, from)[i]) != SemanticEdgeKey(EdgesFrom(edges, from)[j])
  {
    var front, last := edges[..|edges| - 1], edges[|edges| - 1];
    assert forall k :: 0 <= k < |front| ==> front[k] == edges[k];
    if j < |EdgesFrom(front, from)| {
      SemanticKeysStayDistinct(front, names, from, i, j);
    } else {
      OutgoingFrom(front, from, i);
      var k :| 0 <= k < |front| && front[k] == EdgesFrom(front, from)[i];
      assert SemanticEdgeKey(edges[k]) != SemanticEdgeKey(edges[|edges| - 1]);
    }
  }
}
