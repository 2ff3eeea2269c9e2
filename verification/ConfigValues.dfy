/** Configuration and result values, the keys by which they are compared, and result schemas. */
module ConfigValues {
  import opened Options

  datatype Float = Finite(r: real) | Infinite(positive: bool) | NaN

  /** What YAML and JSON decoding produce.  `Int` stands for every Go integer type. */
  datatype Value =
    | Null
    | Bool(b: bool)
    | Str(s: string)
    | Int(i: int)
    | Flt(f: Float)
    | Arr(items: seq<Value>)
    | Obj(fields: map<string, Value>)

  datatype Json =
    | JNull
    | JBool(b: bool)
    | JStr(s: string)
    | JNum(r: real)
    | JArr(items: seq<Json>)
    | JObj(fields: map<string, Json>)

  /** JSON encoding up to the text it produces; a number that is not finite cannot be encoded. */
  function MarshalJson(v: Value): Option<Json> {
    match v
    case Null => Some(JNull)
    case Bool(b) => Some(JBool(b))
    case Str(s) => Some(JStr(s))
    case Int(i) => Some(JNum(i as real))
    case Flt(Finite(r)) => Some(JNum(r))
    case Flt(_) => None
    case Arr(items) =>
      if forall i :: 0 <= i < |items| ==> MarshalJson(items[i]).Some?
      then Some(JArr(seq(|items|, i requires 0 <= i < |items| => MarshalJson(items[i]).value)))
      else None
    case Obj(fields) =>
      if forall k :: k in fields ==> MarshalJson(fields[k]).Some?
      then Some(JObj(map k | k in fields :: MarshalJson(fields[k]).value))
      else None
  }

  /** The comparison key, with the tag that its text begins with. */
  datatype Key = KBool(b: bool) | KStr(s: string) | KNum(r: real) | KJson(json: Json)

  const MIN_INT64 := -0x8000_0000_0000_0000
  const MAX_INT64 := 0x7fff_ffff_ffff_ffff

  /** Conversion of an integral float to int64; out of range, amd64 yields the smallest int64. */
  function ToInt64(r: real): int {
    if MIN_INT64 <= r.Floor <= MAX_INT64 then r.Floor else MIN_INT64
  }

  function NormalizeFloatKey(f: Float): Option<Key> {
    match f
    case Finite(r) => Some(KNum(if r.Floor as real == r then ToInt64(r) as real else r))
    case _ => None
  }

  /** None stands for the error on a value that has no key. */
  function ComparableValueKey(v: Value): Option<Key> {
    match v
    case Bool(b) => Some(KBool(b))
    case Str(s) => Some(KStr(s))
    case Int(i) => Some(KNum(i as real))
    case Flt(f) => NormalizeFloatKey(f)
    case _ =>
      var json := MarshalJson(v);
      if json.Some? then Some(KJson(json.value)) else None
  }

  /** Equality by key, and by JSON text where a key is missing. */
  predicate ValuesEqual(left: Value, right: Value) {
    var leftKey, rightKey := ComparableValueKey(left), ComparableValueKey(right);
    if leftKey.Some? && rightKey.Some? then leftKey == rightKey
    else
      var leftJson, rightJson := MarshalJson(left), MarshalJson(right);
      leftJson.Some? && rightJson.Some? && leftJson == rightJson
  }

  /** The fallback never decides: a value without a key has no JSON text either. */
  lemma ValuesEqualIsKeyEquality(left: Value, right: Value)
    ensures ValuesEqual(left, right) <==>
            ComparableValueKey(left).Some? && ComparableValueKey(left) == ComparableValueKey(right)
  {
  }

  // ----- when values are equal -----

  function NumberOf(v: Value): Option<real> {
    match v
    case Int(i) => Some(i as real)
    case Flt(Finite(r)) => Some(r)
    case _ => None
  }

  /** Equality of decoded values; integers and floats are compared as numbers. */
  ghost predicate SameValue(v: Value, w: Value) {
    match v
    case Null => w == Null
    case Bool(_) => v == w
    case Str(_) => v == w
    case Arr(items) =>
      w.Arr? && |items| == |w.items| && forall i :: 0 <= i < |items| ==> SameValue(items[i], w.items[i])
    case Obj(fields) =>
      w.Obj? && fields.Keys == w.fields.Keys && forall k :: k in fields ==> SameValue(fields[k], w.fields[k])
    case _ => NumberOf(v).Some? && NumberOf(v) == NumberOf(w)
  }

  /** Infinities and NaN occur nowhere in the value. */
  ghost predicate IsFinite(v: Value) {
    match v
    case Flt(f) => f.Finite?
    case Arr(items) => forall i :: 0 <= i < |items| ==> IsFinite(items[i])
    case Obj(fields) => forall k :: k in fields ==> IsFinite(fields[k])
    case _ => true
  }

  lemma {:induction false} MarshalIffFinite(v: Value)
    ensures MarshalJson(v).Some? <==> IsFinite(v)
  {
    match v
    case Arr(items) =>
      forall i | 0 <= i < |items|
        ensures MarshalJson(items[i]).Some? <==> IsFinite(items[i])
      {
        MarshalIffFinite(items[i]);
      }
    case Obj(fields) =>
      forall k | k in fields
        ensures MarshalJson(fields[k]).Some? <==> IsFinite(fields[k])
      {
        MarshalIffFinite(fields[k]);
      }
    case _ =>
  }

  lemma {:induction false} MarshalSameIff(v: Value, w: Value)
    requires MarshalJson(v).Some? && MarshalJson(w).Some?
    ensures MarshalJson(v) == MarshalJson(w) <==> SameValue(v, w)
  {
    match v
    case Arr(items) =>
      if w.Arr? {
        forall i | 0 <= i < |items| && i < |w.items|
          ensures MarshalJson(items[i]) == MarshalJson(w.items[i]) <==> SameValue(items[i], w.items[i])
        {
          MarshalSameIff(items[i], w.items[i]);
        }
        ArraysSameIff(items, w.items);
      }
    case Obj(fields) =>
      if w.Obj? {
        forall k | k in fields && k in w.fields
          ensures MarshalJson(fields[k]) == MarshalJson(w.fields[k]) <==> SameValue(fields[k], w.fields[k])
        {
          MarshalSameIff(fields[k], w.fields[k]);
        }
        ObjectsSameIff(fields, w.fields);
      }
    case _ =>
  }

  lemma ArraysSameIff(items: seq<Value>, other: seq<Value>)
    requires MarshalJson(Arr(items)).Some? && MarshalJson(Arr(other)).Some?
    ensures MarshalJson(Arr(items)) == MarshalJson(Arr(other)) <==>
              |items| == |other| && forall i :: 0 <= i < |items| ==> MarshalJson(items[i]) == MarshalJson(other[i])
  {
    var a, b := MarshalJson(Arr(items)).value.items, MarshalJson(Arr(other)).value.items;
    assert |a| == |items| && |b| == |other|;
    assert forall i :: 0 <= i < |items| ==> MarshalJson(items[i]) == Some(a[i]);
    assert forall i :: 0 <= i < |other| ==> MarshalJson(other[i]) == Some(b[i]);
    if |items| == |other| && forall i :: 0 <= i < |items| ==> MarshalJson(items[i]) == MarshalJson(other[i]) {
      assert a == b;
    }
  }

  lemma ObjectsSameIff(fields: map<string, Value>, other: map<string, Value>)
    requires MarshalJson(Obj(fields)).Some? && MarshalJson(Obj(other)).Some?
    ensures MarshalJson(Obj(fields)) == MarshalJson(Obj(other)) <==>
              fields.Keys == other.Keys && forall k :: k in fields ==> MarshalJson(fields[k]) == MarshalJson(other[k])
  {
    var a, b := MarshalJson(Obj(fields)).value.fields, MarshalJson(Obj(other)).value.fields;
    assert a.Keys == fields.Keys && b.Keys == other.Keys;
    assert forall k :: k in fields ==> MarshalJson(fields[k]) == Some(a[k]);
    assert forall k :: k in other ==> MarshalJson(other[k]) == Some(b[k]);
    if fields.Keys == other.Keys && forall k :: k in fields ==> MarshalJson(fields[k]) == MarshalJson(other[k]) {
      assert a == b;
    }
  }

  /** What a value is compared as: a whole float beyond 64 bits is taken for the smallest integer. */
  function Clipped(v: Value): Value {
    match v
    case Flt(Finite(r)) =>
      if r.Floor as real == r && !(MIN_INT64 <= r.Floor <= MAX_INT64) then Int(MIN_INT64) else v
    case _ => v
  }

  /** Values are equal for a condition or an enumeration exactly when they are the same finite value, whole
      floats beyond 64 bits apart. */
  lemma ValuesEqualIff(v: Value, w: Value)
    ensures ValuesEqual(v, w) <==> IsFinite(v) && IsFinite(w) && SameValue(Clipped(v), Clipped(w))
  {
    ValuesEqualIsKeyEquality(v, w);
    MarshalIffFinite(v);
    MarshalIffFinite(w);
    if MarshalJson(v).Some? && MarshalJson(w).Some? {
      MarshalSameIff(v, w);
    }
  }

  predicate IsIntegerValue(v: Value) {
    match v
    case Int(_) => true
    case Flt(Finite(r)) => r.Floor as real == r
    case Flt(Infinite(_)) => true
    case _ => false
  }

  predicate IsNumberValue(v: Value) {
    v.Int? || v.Flt?
  }

  // ----- schemas -----

  /** A JSON schema; a property, item or alternative schema may be missing where YAML says null. */
  datatype Schema = Schema(typ: string, additionalProperties: Option<bool>, required: seq<string>,
                           properties: map<string, Option<Schema>>, items: Option<Schema>, enums: seq<Value>,
                           oneOf: seq<Option<Schema>>, minItems: Option<int>, maxItems: Option<int>)

  /** Whether a value passes `ValidateValue`. */
  predicate Accepts(schema: Schema, v: Value) {
    if |schema.oneOf| > 0 then
      exists i :: 0 <= i < |schema.oneOf| && schema.oneOf[i].Some? && Accepts(schema.oneOf[i].value, v)
    else if schema.typ == "object" then
      && v.Obj?
      && (forall i :: 0 <= i < |schema.required| ==> schema.required[i] in v.fields)
      && forall k :: k in v.fields ==>
           if k in schema.properties then
             schema.properties[k].Some? && Accepts(schema.properties[k].value, v.fields[k])
           else schema.additionalProperties != Some(false)
    else if schema.typ == "array" then
      && v.Arr?
      && (schema.minItems.Some? ==> |v.items| >= schema.minItems.value)
      && (schema.maxItems.Some? ==> |v.items| <= schema.maxItems.value)
      && (|v.items| > 0 ==> schema.items.Some?)
      && forall i :: 0 <= i < |v.items| ==> Accepts(schema.items.value, v.items[i])
    else
      && AcceptsScalar(schema.typ, v)
      && (|schema.enums| > 0 ==> exists i :: 0 <= i < |schema.enums| && ValuesEqual(schema.enums[i], v))
  }

  /** A whole number; the code takes an infinite float for one. */
  ghost predicate IsWhole(v: Value) {
    v == Flt(Infinite(true)) || v == Flt(Infinite(false)) || exists n: int :: IsNumber(v, n)
  }

  predicate IsNumber(v: Value, n: int) {
    NumberOf(v) == Some(n as real)
  }

  /** The values of a scalar type, and of its enumeration if there is one. */
  lemma ScalarAcceptedIff(schema: Schema, v: Value)
    requires schema.oneOf == [] && schema.typ != "object" && schema.typ != "array"
    ensures Accepts(schema, v) <==>
              && (|| (schema.typ == "string" && v.Str?)
                  || (schema.typ == "boolean" && v.Bool?)
                  || (schema.typ == "integer" && (v.Int? || v.Flt?) && IsWhole(v))
                  || (schema.typ == "number" && (v.Int? || v.Flt?)))
              && (schema.enums == [] || exists e :: e in schema.enums && IsFinite(e) && IsFinite(v)
                                                   && SameValue(Clipped(e), Clipped(v)))
  {
    WholeIff(v);
    forall i | 0 <= i < |schema.enums|
      ensures ValuesEqual(schema.enums[i], v) <==>
                IsFinite(schema.enums[i]) && IsFinite(v) && SameValue(Clipped(schema.enums[i]), Clipped(v))
    {
      ValuesEqualIff(schema.enums[i], v);
    }
    assert forall e :: e in schema.enums <==> exists i :: 0 <= i < |schema.enums| && schema.enums[i] == e;
  }

  lemma WholeIff(v: Value)
    ensures IsIntegerValue(v) <==> (v.Int? || v.Flt?) && IsWhole(v)
  {
    match v
    case Int(i) => assert IsNumber(v, i);
    case Flt(Finite(r)) =>
      if r.Floor as real == r {
        assert IsNumber(v, r.Floor);
      } else {
        assert forall n: int :: IsNumber(v, n) ==> r.Floor == n;
      }
    case _ =>
  }

  /** An array within the bounds whose items all fit. */
  lemma ArrayAcceptedIff(schema: Schema, v: Value)
    requires schema.oneOf == [] && schema.typ == "array"
    ensures Accepts(schema, v) <==>
              && v.Arr?
              && !(schema.minItems.Some? && |v.items| < schema.minItems.value)
              && !(schema.maxItems.Some? && |v.items| > schema.maxItems.value)
              && forall item :: item in v.items ==> schema.items.Some? && Accepts(schema.items.value, item)
  {
    assert |schema.typ| == 5 && schema.typ != "object";
    if v.Arr? && schema.items.Some? {
      assert (forall item :: item in v.items ==> Accepts(schema.items.value, item)) <==>
             (forall i :: 0 <= i < |v.items| ==> Accepts(schema.items.value, v.items[i]));
    } else if v.Arr? && |v.items| > 0 {
      assert v.items[0] in v.items;
    }
  }

  /** An object with all required keys, whose known properties fit, and with unknown keys only if it is open. */
  lemma ObjectAcceptedIff(schema: Schema, v: Value)
    requires schema.oneOf == [] && schema.typ == "object"
    ensures Accepts(schema, v) <==>
              && v.Obj?
              && (set k | k in schema.required) <= v.fields.Keys
              && (schema.additionalProperties == Some(false) ==> v.fields.Keys <= schema.properties.Keys)
              && forall k :: k in v.fields.Keys * schema.properties.Keys ==>
                   schema.properties[k].Some? && Accepts(schema.properties[k].value, v.fields[k])
  {
    if v.Obj? {
      assert forall k :: k in schema.required <==> exists i :: 0 <= i < |schema.required| && schema.required[i] == k;
    }
  }

  /** A value that fits one of the alternatives. */
  lemma AlternativeAcceptedIff(schema: Schema, v: Value)
    requires schema.oneOf != []
    ensures Accepts(schema, v) <==> exists s: Schema :: Some(s) in schema.oneOf && Accepts(s, v)
  {
    if Accepts(schema, v) {
      var i :| 0 <= i < |schema.oneOf| && schema.oneOf[i].Some? && Accepts(schema.oneOf[i].value, v);
      assert Some(schema.oneOf[i].value) in schema.oneOf;
    }
    if s: Schema :| Some(s) in schema.oneOf && Accepts(s, v) {
      var i :| 0 <= i < |schema.oneOf| && schema.oneOf[i] == Some(s);
    }
  }

  predicate AcceptsScalar(typ: string, v: Value) {
    match typ
    case "string" => v.Str?
    case "boolean" => v.Bool?
    case "integer" => IsIntegerValue(v)
    case "number" => IsNumberValue(v)
    case _ => false
  }

  /** `ValidateValue` itself: recursion on the schema, with a loop that stops at the first failure. */
  method ValidateValue(schema: Option<Schema>, v: Value) returns (ok: bool)
    ensures ok <==> schema.Some? && Accepts(schema.value, v)
    decreases schema
  {
    if schema == None {
      return false;
    }
    var s := schema.value;
    if |s.oneOf| > 0 {
      for i := 0 to |s.oneOf|
        invariant forall j :: 0 <= j < i ==> !(s.oneOf[j].Some? && Accepts(s.oneOf[j].value, v))
      {
        var matches := ValidateValue(s.oneOf[i], v);
        if matches {
          return true;
        }
      }
      return false;
    }
    match s.typ {
      case "object" => ok := ValidateObject(s, v);
      case "array" => ok := ValidateArray(s, v);
      case _ =>
        if !AcceptsScalar(s.typ, v) {
          return false;
        }
        if |s.enums| > 0 {
          for i := 0 to |s.enums|
            invariant forall j :: 0 <= j < i ==> !ValuesEqual(s.enums[j], v)
          {
            if ValuesEqual(s.enums[i], v) {
              return true;
            }
          }
          return false;
        }
        return true;
    }
  }

  method ValidateObject(s: Schema, v: Value) returns (ok: bool)
    requires s.oneOf == [] && s.typ == "object"
    ensures ok <==> Accepts(s, v)
    decreases s
  {
    if !v.Obj? {
      return false;
    }
    for i := 0 to |s.required|
      invariant forall j :: 0 <= j < i ==> s.required[j] in v.fields
    {
      if s.required[i] !in v.fields {
        return false;
      }
    }
    var todo := v.fields.Keys;
    while todo != {}
      invariant todo <= v.fields.Keys
      invariant forall k :: k in v.fields.Keys - todo ==>
                  if k in s.properties then
                    s.properties[k].Some? && Accepts(s.properties[k].value, v.fields[k])
                  else s.additionalProperties != Some(false)
      decreases todo
    {
      var key :| key in todo;
      todo := todo - {key};
      if key !in s.properties {
        if s.additionalProperties == Some(false) {
          return false;
        }
      } else {
        var valid := ValidateValue(s.properties[key], v.fields[key]);
        if !valid {
          return false;
        }
      }
    }
    return true;
  }

  method ValidateArray(s: Schema, v: Value) returns (ok: bool)
    requires s.oneOf == [] && s.typ == "array"
    ensures ok <==> Accepts(s, v)
    decreases s
  {
    assert |s.typ| == 5 && s.typ != "object";
    if !v.Arr? {
      return false;
    }
    if s.minItems.Some? && |v.items| < s.minItems.value {
      return false;
    }
    if s.maxItems.Some? && |v.items| > s.maxItems.value {
      return false;
    }
    for i := 0 to |v.items|
      invariant i > 0 ==> s.items.Some? && forall j :: 0 <= j < i ==> Accepts(s.items.value, v.items[j])
    {
      var valid := ValidateValue(s.items, v.items[i]);
      if !valid {
        return false;
      }
    }
    return true;
  }

  /** The check every human and agent result schema passes. */
  predicate SchemaOk(schema: Option<Schema>) {
    schema.Some? &&
    var s := schema.value;
    if |s.oneOf| > 0 then forall i :: 0 <= i < |s.oneOf| ==> SchemaOk(s.oneOf[i])
    else if s.typ == "object" then forall k :: k in s.properties ==> SchemaOk(s.properties[k])
    else if s.typ == "array" then SchemaOk(s.items)
    else s.typ in {"string", "boolean", "number", "integer"}
  }

  /** The stricter check for agents: closed objects in which every property is required. */
  predicate AgentSchemaOk(schema: Option<Schema>) {
    schema.Some? &&
    var s := schema.value;
    && s.oneOf == []
    && if s.typ == "object" then
         && s.additionalProperties == Some(false)
         && (forall k :: k in s.properties ==> k in s.required)
         && (forall k :: k in s.required ==> k in s.properties)
         && forall k :: k in s.properties ==> AgentSchemaOk(s.properties[k])
       else if s.typ == "array" then AgentSchemaOk(s.items)
       else s.typ in {"string", "boolean", "number", "integer"}
  }
}
