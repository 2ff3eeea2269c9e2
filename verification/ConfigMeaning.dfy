/** What a configuration must be to pass, said of its nodes, definitions and edges alone. */
module ConfigMeaning {
  import opened Options
  import opened ConfigValues
  import opened TaskConfig
  import opened Words

  // ----- nodes -----

  function Names(nodes: seq<NodeRef>): set<string> {
    set n | n in nodes :: n.name
  }

  predicate NamesDiffer(nodes: seq<NodeRef>) {
    forall i, j :: 0 <= i < j < |nodes| ==> nodes[i].name != nodes[j].name
  }

  lemma NamesSnoc(front: seq<NodeRef>, last: NodeRef)
    ensures Names(front + [last]) == Names(front) + {last.name}
  {
  }

  lemma NamesDifferSnoc(front: seq<NodeRef>, last: NodeRef)
    ensures NamesDiffer(front + [last]) <==> NamesDiffer(front) && last.name !in Names(front)
  {
    var nodes := front + [last];
    assert forall i :: 0 <= i < |front| ==> nodes[i] == front[i] && front[i] in front;
    if last.name in Names(front) {
      var i :| 0 <= i < |front| && front[i].name == last.name;
      assert nodes[i].name == nodes[|front|].name;
    }
  }

  lemma {:induction false} DistinctIffAsMany(nodes: seq<NodeRef>)
    ensures |Names(nodes)| <= |nodes|
    ensures NamesDiffer(nodes) <==> |Names(nodes)| == |nodes|
  {
    if nodes == [] {
      assert Names(nodes) == {};
    } else {
      var front, last := nodes[..|nodes| - 1], nodes[|nodes| - 1];
      assert nodes == front + [last];
      NamesSnoc(front, last);
      NamesDifferSnoc(front, last);
      DistinctIffAsMany(front);
    }
  }

  /** Nodes have names of their own, a join that is known, and no negative limit. */
  lemma NodesOkIff(nodes: seq<NodeRef>)
    ensures NodesOk(nodes) <==>
              && |Names(nodes)| == |nodes|
              && forall n :: n in nodes ==>
                   n.name != "" && n.join in {JoinUnset, JoinAll, JoinAny} && n.maxIterations >= 0
  {
    DistinctIffAsMany(nodes);
    assert forall i :: 0 <= i < |nodes| ==> nodes[i] in nodes;
  }

  // ----- definitions -----

  /** What a definition of each type must have, and must not have. */
  lemma DefinitionOkIff(def: NodeDefinition)
    ensures NodeDefinitionOk(def) <==>
              match def.typ
              case Agent => def.hasPrompt && FormOk(def.schema) && AgentSchemaOk(Some(def.schema))
              case Human => !def.hasPrompt && def.maxClarificationRounds <= 0 && FormOk(def.schema)
              case Terminal => !def.hasPrompt && def.maxClarificationRounds <= 0
              case UnknownType => false
  {
  }

  /** A closed object without alternatives and without a property `type`, whose parts are schemas. */
  predicate FormOk(s: Schema) {
    && s.typ == "object"
    && |s.oneOf| == 0
    && s.additionalProperties.Some? && !s.additionalProperties.value
    && "type" !in s.properties.Keys
    && forall k :: k in s.properties ==> SchemaOk(s.properties[k])
  }

  /** The keys of an agent's result, at every level. */
  ghost predicate HasExactlyItsKeys(s: Schema, v: Value) {
    if s.typ == "object" then
      && v.Obj?
      && v.fields.Keys == s.properties.Keys
      && forall k :: k in v.fields ==> s.properties[k].Some? && HasExactlyItsKeys(s.properties[k].value, v.fields[k])
    else if s.typ == "array" then
      v.Arr? && forall i :: 0 <= i < |v.items| ==> s.items.Some? && HasExactlyItsKeys(s.items.value, v.items[i])
    else !v.Obj? && !v.Arr?
  }

  /** A result that an agent's schema accepts has every key of the schema and no other, at every level. */
  lemma {:induction false} AgentResultIsExact(s: Schema, v: Value)
    requires AgentSchemaOk(Some(s)) && Accepts(s, v)
    ensures HasExactlyItsKeys(s, v)
    decreases s
  {
    if s.typ == "object" {
      assert forall k :: k in s.required ==> exists i :: 0 <= i < |s.required| && s.required[i] == k;
      forall k | k in v.fields
        ensures s.properties[k].Some? && HasExactlyItsKeys(s.properties[k].value, v.fields[k])
      {
        AgentResultIsExact(s.properties[k].value, v.fields[k]);
      }
      assert v.fields.Keys == s.properties.Keys;
    } else if s.typ == "array" {
      forall i | 0 <= i < |v.items|
        ensures s.items.Some? && HasExactlyItsKeys(s.items.value, v.items[i])
      {
        AgentResultIsExact(s.items.value, v.items[i]);
      }
    }
  }

  // ----- edges -----

  predicate NoBar(s: string) {
    '|' !in s
  }

  predicate PlainEdge(e: Edge) {
    NoBar(e.from) && NoBar(e.to) && (e.cond.When? ==> NoBar(e.cond.field))
  }

  /** The first bar splits a text. */
  lemma BarSplits(a: string, b: string, c: string, d: string)
    requires NoBar(a) && NoBar(c) && a + "|" + b == c + "|" + d
    ensures a == c && b == d
  {
    SplitsAtFirst('|', a, b, c, d);
  }

  function Rest(e: Edge): string {
    match e.cond
    case Always => "||"
    case Else => "else||"
    case When(field, _) => "when|" + field + "|"
  }

  lemma PrefixIs(e: Edge)
    requires SemanticEdgeKey(e).Some?
    ensures SemanticEdgeKey(e).value.prefix == e.from + "|" + (e.to + "|" + Rest(e))
  {
    assert e.from + "|" + e.to + "|" + Rest(e) == e.from + "|" + (e.to + "|" + Rest(e));
    match e.cond
    case When(field, _) =>
      assert e.from + "|" + e.to + "|" + "when|" + field + "|" == e.from + "|" + e.to + "|" + ("when|" + field + "|");
    case _ =>
  }

  lemma SameRestIff(e: Edge, f: Edge)
    requires PlainEdge(e) && PlainEdge(f)
    ensures Rest(e) == Rest(f) <==>
              || (e.cond.Always? && f.cond.Always?)
              || (e.cond.Else? && f.cond.Else?)
              || (e.cond.When? && f.cond.When? && e.cond.field == f.cond.field)
  {
    assert "||"[0] != "else||"[0];
    if e.cond.When? && f.cond.When? && Rest(e) == Rest(f) {
      assert "when|" + e.cond.field + "|" == "when" + "|" + (e.cond.field + "|" + "");
      assert "when|" + f.cond.field + "|" == "when" + "|" + (f.cond.field + "|" + "");
      BarSplits("when", e.cond.field + "|" + "", "when", f.cond.field + "|" + "");
      BarSplits(e.cond.field, "", f.cond.field, "");
    } else if e.cond.When? {
      assert Rest(e)[0] == 'w';
    } else if f.cond.When? {
      assert Rest(f)[0] == 'w';
    }
  }

  /** Two edges between the same nodes that say the same. */
  ghost predicate SaysTheSame(e: Edge, f: Edge) {
    && e.from == f.from
    && e.to == f.to
    && match e.cond
       case Always => f.cond.Always?
       case Else => f.cond.Else?
       case When(field, equals) =>
         f.cond.When? && field == f.cond.field && SameValue(Clipped(equals), Clipped(f.cond.equals))
  }

  lemma KeyIffFinite(v: Value)
    ensures ComparableValueKey(v).Some? <==> IsFinite(v)
  {
    MarshalIffFinite(v);
  }

  lemma SameKeyIff(e: Edge, f: Edge)
    requires PlainEdge(e) && PlainEdge(f) && SemanticEdgeKey(e).Some? && SemanticEdgeKey(f).Some?
    ensures SemanticEdgeKey(e) == SemanticEdgeKey(f) <==> SaysTheSame(e, f)
  {
    PrefixIs(e);
    PrefixIs(f);
    SameRestIff(e, f);
    if SemanticEdgeKey(e).value.prefix == SemanticEdgeKey(f).value.prefix {
      BarSplits(e.from, e.to + "|" + Rest(e), f.from, f.to + "|" + Rest(f));
      BarSplits(e.to, Rest(e), f.to, Rest(f));
    }
    if e.cond.When? && f.cond.When? {
      ValuesEqualIff(e.cond.equals, f.cond.equals);
      ValuesEqualIsKeyEquality(e.cond.equals, f.cond.equals);
      KeyIffFinite(e.cond.equals);
      KeyIffFinite(f.cond.equals);
    }
  }

  /** Edges run between declared nodes, compare with finite values, and no two say the same. */
  lemma EdgesOkIff(edges: seq<Edge>, names: set<string>)
    requires forall e :: e in edges ==> PlainEdge(e)
    ensures EdgesOk(edges, names) <==>
              && (forall e :: e in edges ==> e.from in names && e.to in names)
              && (forall e :: e in edges && e.cond.When? ==> IsFinite(e.cond.equals))
              && forall i, j :: 0 <= i < j < |edges| ==> !SaysTheSame(edges[i], edges[j])
  {
    assert forall i :: 0 <= i < |edges| ==> edges[i] in edges;
    forall i | 0 <= i < |edges|
      ensures SemanticEdgeKey(edges[i]).Some? <==> (edges[i].cond.When? ==> IsFinite(edges[i].cond.equals))
    {
      if edges[i].cond.When? {
        KeyIffFinite(edges[i].cond.equals);
      }
    }
    if forall i :: 0 <= i < |edges| ==> SemanticEdgeKey(edges[i]).Some? {
      forall i, j | 0 <= i < j < |edges|
        ensures SemanticEdgeKey(edges[i]) == SemanticEdgeKey(edges[j]) <==> SaysTheSame(edges[i], edges[j])
      {
        SameKeyIff(edges[i], edges[j]);
      }
    }
  }

  /** A when edge names a scalar property of its source's form, and a finite value of the property's type. */
  lemma WhenEdgeOkIff(e: Edge, root: Schema)
    requires e.cond.When?
    ensures WhenEdgeOk(e, root) <==>
              && |e.cond.field| > 0
              && root.typ == "object" && root.oneOf == []
              && e.cond.field in root.properties && root.properties[e.cond.field].Some?
              && var s := root.properties[e.cond.field].value;
                 && s.oneOf == []
                 && IsFinite(e.cond.equals)
                 && (|| (s.typ == "boolean" && e.cond.equals.Bool?)
                     || (s.typ == "string" && e.cond.equals.Str?)
                     || (s.typ == "integer" && (e.cond.equals.Int? || e.cond.equals.Flt?) && IsWhole(e.cond.equals))
                     || (s.typ == "number" && (e.cond.equals.Int? || e.cond.equals.Flt?)))
  {
    KeyIffFinite(e.cond.equals);
    WholeIff(e.cond.equals);
  }

  // ----- the graph -----

  lemma {:induction false} CountIsSize(edges: seq<Edge>, to: string)
    ensures IncomingCount(edges, to) == |set i | 0 <= i < |edges| && edges[i].to == to|
  {
    if edges != [] {
      var n := |edges| - 1;
      var front := edges[..n];
      CountIsSize(front, to);
      var before := set i | 0 <= i < |front| && front[i].to == to;
      var now := set i | 0 <= i < |edges| && edges[i].to == to;
      if edges[n].to == to {
        assert now == before + {n} && n !in before;
      } else {
        assert now == before;
      }
    }
  }

  /** A node that declares a join has at least two edges into it. */
  lemma JoinsOkIff(cfg: Config)
    ensures JoinsOk(cfg) <==>
              forall n :: n in cfg.nodes && n.join != JoinUnset ==>
                |set i | 0 <= i < |cfg.edges| && cfg.edges[i].to == n.name| >= 2
  {
    forall i | 0 <= i < |cfg.nodes|
      ensures cfg.nodes[i] in cfg.nodes
      ensures IncomingCount(cfg.edges, cfg.nodes[i].name)
              == |set k | 0 <= k < |cfg.edges| && cfg.edges[k].to == cfg.nodes[i].name|
    {
      CountIsSize(cfg.edges, cfg.nodes[i].name);
    }
  }

  lemma OutgoingIff(edges: seq<Edge>, name: string)
    ensures EdgesFrom(edges, name) != [] <==> exists e :: e in edges && e.from == name
  {
    EdgesFromMember(edges, name);
    if EdgesFrom(edges, name) != [] {
      assert EdgesFrom(edges, name)[0] in EdgesFrom(edges, name);
    }
  }

  /** Some node ends the task, no edge leaves such a node, and one leaves every agent. */
  lemma TerminalsOkIff(cfg: Config)
    ensures TerminalsOk(cfg) <==>
              && (exists name :: name in cfg.defs && cfg.defs[name].typ == Terminal)
              && (forall e :: e in cfg.edges && e.from in cfg.defs ==> cfg.defs[e.from].typ != Terminal)
              && forall name :: name in cfg.defs && cfg.defs[name].typ == Agent ==>
                   exists e :: e in cfg.edges && e.from == name
  {
    forall name | name in cfg.defs
      ensures cfg.Outgoing(name) != [] <==> exists e :: e in cfg.edges && e.from == name
    {
      OutgoingIff(cfg.edges, name);
    }
  }

  lemma HeaderOkIff(cfg: Config)
    ensures !HeaderOk(cfg) <==>
              || cfg.version < 1 || cfg.version > 1
              || |cfg.entry| == 0
              || cfg.maxIterations < 1
              || cfg.minOptions < 1
              || cfg.minOptions > cfg.maxOptions
              || cfg.maxQuestions < 1
              || |cfg.nodes| == 0
  {
  }
}
