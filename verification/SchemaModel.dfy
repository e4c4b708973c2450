/**
 * JSON schemas as the argument validator reads them: every keyword either absent, of the wrong form, or usable.
 */
module SchemaModel {
  import opened Wrappers
  import opened Json

  const MAX_ISSUES := 8
  const MAX_DEPTH := 32
  const MAX_NODES := 2048
  const MAX_PROPERTIES := 512
  const MAX_ITEMS := 512
  const MAX_SAFE_INTEGER := 0x1F_FFFF_FFFF_FFFF

  type Value = Json<int>
  type Field = Member<int>

  datatype Schema =
    | NotAnObject
    | Schema(
        unsupported: seq<string>,
        types: Option<seq<string>>,
        properties: SchemaMap,
        patternProperties: SchemaMap,
        required: Names,
        additionalProperties: Extra,
        items: Items,
        additionalItems: Extra,
        allowed: Option<seq<Value>>,
        constant: Option<Value>,
        minimum: Bound,
        maximum: Bound,
        exclusiveMinimum: Exclusive,
        exclusiveMaximum: Exclusive,
        multipleOf: Bound,
        minLength: Count,
        maxLength: Count,
        pattern: Pattern,
        minItems: Count,
        maxItems: Count,
        minProperties: Count,
        maxProperties: Count,
        allOf: SchemaList,
        anyOf: SchemaList,
        oneOf: SchemaList,
        negated: Option<Schema>)

  datatype Named = Named(name: string, schema: Schema)
  datatype SchemaMap = NoMap | BadMap | Entries(entries: seq<Named>)
  datatype SchemaList = NoList | BadList | Branches(branches: seq<Schema>)
  datatype Extra = NoExtra | Allow(allowed: bool) | Matching(schema: Schema)
  datatype Items = NoItems | Each(schema: Schema) | Positional(schemas: seq<Schema>)
  datatype Names = NoNames | BadNames | NameList(names: seq<string>)
  /** A numeric keyword: absent, no number, a number that is not finite, or an integer. */
  datatype Bound = NoBound | WrongType | NotFiniteBound(negative: bool) | Limit(n: int)
  datatype Exclusive = NoExclusive | BadExclusive | NotFinite | Flag(on: bool) | ExclusiveLimit(n: int)
  /** A counting keyword: absent, not a finite number, finite but no safe non-negative integer, or a count. */
  datatype Count = NoCount | NotNumber | NotCount | CountOf(n: nat)
  datatype Pattern = NoPattern | BadPattern | Regex(text: string)

  /** The regular-expression engine: which patterns compile, and what a compiled one matches. */
  datatype Engine = Engine(compiles: string -> bool, finds: (string, string) -> bool)

  const SUPPORTED_TYPES: set<string> := {"null", "boolean", "object", "array", "string", "number", "integer"}

  function EntriesOf(m: SchemaMap): seq<Named> {
    if m.Entries? then m.entries else []
  }

  function BranchesOf(l: SchemaList): seq<Schema> {
    if l.Branches? then l.branches else []
  }

  function NamesOf(n: Names): seq<string> {
    if n.NameList? then n.names else []
  }

  predicate SafeInteger(n: int) {
    -MAX_SAFE_INTEGER <= n <= MAX_SAFE_INTEGER
  }

  // ----- Findings -----

  datatype Step = Property(name: string) | Index(i: nat)
  type Path = seq<Step>

  datatype Finding =
    // validation
    | NestingExceeded | NodesExceeded | TooManyProperties | TooManyItems
    | TypeMismatch | NotAllowedValue | NotConstant
    | TooShort | TooLong | NoMatch | PatternDoesNotCompile
    | BelowMinimum | AboveMaximum | NotAboveMinimum | NotBelowMaximum | NotMultiple
    | TooFewProperties | TooManyPropertiesDeclared | PropertyNotAllowed | PropertyRequired
      | PropertyPatternDoesNotCompile
    | TooFewItems | TooManyItemsDeclared | ItemNotAllowed
    | NoBranchMatches | NotExactlyOneBranch | ForbiddenMatch
    // inspection
    | NotASchema | SchemaNestingExceeded | SchemaNodesExceeded | UnsupportedKeyword | BadType | BadRequired
    | BoundNotFinite | CountNotInteger | MultipleNotPositive | BadExclusiveKeyword | ExclusiveNotFinite
      | ExclusiveWithoutBound
    | PatternInvalid | PatternNotString | PropertyPatternInvalid | BadSchemaMap | BadSchemaList

  datatype Issue = Issue(path: Path, finding: Finding)

  /** What one traversal adds: its findings in order, and the node counter it leaves. */
  datatype Trace = Trace(issues: seq<Issue>, nodes: nat)

  // ----- Value tests -----

  function TypeName(t: string, v: Value): bool {
    match t
    case "null" => v.JNull?
    case "boolean" => v.JBool?
    case "object" => v.JObject?
    case "array" => v.JArray?
    case "string" => v.JString?
    case "number" => v.JNumber?
    case "integer" => v.JNumber? && SafeInteger(v.n)
    case _ => false
  }

  predicate Scalar(v: Value) {
    !v.JArray? && !v.JObject?
  }

  /** Equality as the validator computes it: composite values deeper than the limit never compare equal. */
  predicate JsonEqual(left: Value, right: Value, depth: nat)
    decreases left, 1
  {
    if Scalar(left) && left == right then true
    else if depth >= MAX_DEPTH then false
    else
      match (left, right)
      case (JArray(xs), JArray(ys)) =>
        |xs| == |ys| && forall i :: 0 <= i < |xs| ==> JsonEqual(xs[i], ys[i], depth + 1)
      case (JObject(ms), JObject(ns)) =>
        |ms| == |ns| && forall i :: 0 <= i < |ms| ==> EqualField(left, i, ns, depth)
      case _ => false
  }

  /** Member i of an object has an equal under the same key in ns. */
  predicate EqualField(left: Value, i: nat, ns: seq<Field>, depth: nat)
    requires left.JObject? && i < |left.members|
    decreases left, 0
  {
    var j := Lookup(ns, left.members[i].key);
    j >= 0 && JsonEqual(left.members[i].value, ns[j].value, depth + 1)
  }

  /** Levels of arrays and objects inside a value. */
  function Levels(v: Value): nat
    decreases v
  {
    match v
    case JArray(items) => 1 + ItemLevels(v, items)
    case JObject(members) => 1 + FieldLevels(v, members)
    case _ => 0
  }

  function ItemLevels(parent: Value, items: seq<Value>): (n: nat)
    requires forall i :: 0 <= i < |items| ==> items[i] < parent
    ensures forall i :: 0 <= i < |items| ==> Levels(items[i]) <= n
    decreases parent, |items|
  {
    if items == [] then 0 else Max(Levels(items[0]), ItemLevels(parent, items[1..]))
  }

  function FieldLevels(parent: Value, members: seq<Field>): (n: nat)
    requires forall i :: 0 <= i < |members| ==> members[i].value < parent
    ensures forall i :: 0 <= i < |members| ==> Levels(members[i].value) <= n
    decreases parent, |members|
  {
    if members == [] then 0 else Max(Levels(members[0].value), FieldLevels(parent, members[1..]))
  }

  function Max(a: nat, b: nat): nat {
    if a < b then b else a
  }

  /** The validator's equality never holds of different values. */
  lemma {:induction false} JsonEqualSound(left: Value, right: Value, depth: nat)
    requires JsonEqual(left, right, depth)
    ensures Equivalent(left, right)
  {
    match (left, right)
    case (JArray(xs), JArray(ys)) =>
      forall i | 0 <= i < |xs| ensures Equivalent(xs[i], ys[i]) {
        JsonEqualSound(xs[i], ys[i], depth + 1);
      }
    case (JObject(ms), JObject(ns)) =>
      forall m | m in ms ensures exists n :: n in ns && n.key == m.key && Equivalent(m.value, n.value) {
        var i :| 0 <= i < |ms| && ms[i] == m;
        assert EqualField(left, i, ns, depth);
        var j := Lookup(ns, ms[i].key);
        JsonEqualSound(ms[i].value, ns[j].value, depth + 1);
        assert ns[j] in ns;
      }
    case _ =>
  }

  /** It finds every equality between values no deeper than the limit. */
  lemma {:induction false} JsonEqualComplete(left: Value, right: Value, depth: nat)
    requires Equivalent(left, right) && WellFormed(right) && depth + Levels(left) <= MAX_DEPTH
    ensures JsonEqual(left, right, depth)
    decreases left, 1
  {
    match (left, right)
    case (JArray(xs), JArray(ys)) =>
      forall i | 0 <= i < |xs| ensures JsonEqual(xs[i], ys[i], depth + 1) {
        JsonEqualComplete(xs[i], ys[i], depth + 1);
      }
    case (JObject(ms), JObject(ns)) =>
      forall i | 0 <= i < |ms| ensures EqualField(left, i, ns, depth) {
        FieldComplete(ms, ns, i, depth);
      }
    case _ =>
  }

  lemma {:induction false} FieldComplete(ms: seq<Field>, ns: seq<Field>, i: nat, depth: nat)
    requires i < |ms| && Equivalent(JObject(ms), JObject(ns)) && WellFormed(JObject(ns))
    requires depth + Levels(JObject(ms)) <= MAX_DEPTH
    ensures EqualField(JObject(ms), i, ns, depth)
    decreases JObject(ms), 0
  {
    var j := Twin(ms, ns, i);
    JsonEqualComplete(ms[i].value, ns[j].value, depth + 1);
  }

  /** The partner of a member, found by key. */
  lemma Twin(ms: seq<Field>, ns: seq<Field>, i: nat) returns (j: nat)
    requires i < |ms| && DistinctKeys(ns) && Equivalent(JObject(ms), JObject(ns))
    ensures j < |ns| && Lookup(ns, ms[i].key) == j && Equivalent(ms[i].value, ns[j].value)
  {
    assert ms[i] in ms;
    var n :| n in ns && n.key == ms[i].key && Equivalent(ms[i].value, n.value);
    j :| 0 <= j < |ns| && ns[j] == n;
  }

  /** It never holds of values nested deeper than the limit. */
  lemma {:induction false} JsonEqualShallow(left: Value, right: Value, depth: nat)
    requires JsonEqual(left, right, depth) && depth <= MAX_DEPTH
    ensures depth + Levels(left) <= MAX_DEPTH
    decreases left
  {
    match (left, right)
    case (JArray(xs), JArray(ys)) =>
      forall i | 0 <= i < |xs| ensures depth + 1 + Levels(xs[i]) <= MAX_DEPTH {
        JsonEqualShallow(xs[i], ys[i], depth + 1);
      }
      ItemsAtMost(left, xs, MAX_DEPTH - depth - 1);
    case (JObject(ms), JObject(ns)) =>
      forall i | 0 <= i < |ms| ensures depth + 1 + Levels(ms[i].value) <= MAX_DEPTH {
        assert EqualField(left, i, ns, depth);
        JsonEqualShallow(ms[i].value, ns[Lookup(ns, ms[i].key)].value, depth + 1);
      }
      FieldsAtMost(left, ms, MAX_DEPTH - depth - 1);
    case _ =>
  }

  lemma {:induction false} ItemsAtMost(parent: Value, items: seq<Value>, n: nat)
    requires forall i :: 0 <= i < |items| ==> items[i] < parent && Levels(items[i]) <= n
    ensures ItemLevels(parent, items) <= n
  {
    if items != [] {
      ItemsAtMost(parent, items[1..], n);
    }
  }

  lemma {:induction false} FieldsAtMost(parent: Value, members: seq<Field>, n: nat)
    requires forall i :: 0 <= i < |members| ==> members[i].value < parent && Levels(members[i].value) <= n
    ensures FieldLevels(parent, members) <= n
  {
    if members != [] {
      FieldsAtMost(parent, members[1..], n);
    }
  }

  /** Exactly when two values compare equal: they are equal and no deeper than the limit. */
  lemma JsonEqualIff(left: Value, right: Value)
    requires WellFormed(right)
    ensures JsonEqual(left, right, 0) <==> Equivalent(left, right) && Levels(left) <= MAX_DEPTH
  {
    if JsonEqual(left, right, 0) {
      JsonEqualSound(left, right, 0);
      JsonEqualShallow(left, right, 0);
    }
    if Equivalent(left, right) && Levels(left) <= MAX_DEPTH {
      JsonEqualComplete(left, right, 0);
    }
  }

  /** A value has no more levels than one equal to it. */
  lemma {:induction false} LevelsAtMost(left: Value, right: Value)
    requires Equivalent(left, right)
    ensures Levels(left) <= Levels(right)
    decreases left
  {
    match (left, right)
    case (JArray(xs), JArray(ys)) =>
      forall i | 0 <= i < |xs| ensures Levels(xs[i]) <= ItemLevels(right, ys) {
        LevelsAtMost(xs[i], ys[i]);
      }
      ItemsAtMost(left, xs, ItemLevels(right, ys));
    case (JObject(ms), JObject(ns)) =>
      forall i | 0 <= i < |ms| ensures Levels(ms[i].value) <= FieldLevels(right, ns) {
        assert ms[i] in ms;
        var n :| n in ns && n.key == ms[i].key && Equivalent(ms[i].value, n.value);
        var j :| 0 <= j < |ns| && ns[j] == n;
        LevelsAtMost(ms[i].value, ns[j].value);
      }
      FieldsAtMost(left, ms, FieldLevels(right, ns));
    case _ =>
  }

  lemma EqualLevels(left: Value, right: Value)
    requires Equivalent(left, right) && WellFormed(left) && WellFormed(right)
    ensures Levels(left) == Levels(right)
  {
    LevelsAtMost(left, right);
    EquivalentSymmetric(left, right);
    LevelsAtMost(right, left);
  }

  // ----- A value one level deeper than any limit -----

  /** n arrays inside each other. */
  function Nested(n: nat): Value {
    if n == 0 then JNull else JArray([Nested(n - 1)])
  }

  lemma OneLevelMore(v: Value)
    ensures Levels(JArray([v])) == Levels(v) + 1
  {
    var items := [v];
    assert items[1..] == [] && ItemLevels(JArray(items), items[1..]) == 0;
  }

  lemma {:induction false} NestedLevels(n: nat)
    ensures Levels(Nested(n)) == n
  {
    if n > 0 {
      NestedLevels(n - 1);
      OneLevelMore(Nested(n - 1));
    }
  }

  lemma {:induction false} NestedIsItself(n: nat)
    ensures WellFormed(Nested(n)) && Equivalent(Nested(n), Nested(n))
  {
    if n > 0 {
      NestedIsItself(n - 1);
    }
  }

  /** Equal values that compare unequal: one array more than the limit, against itself. */
  lemma DeepEqualRefused()
    ensures Equivalent(Nested(MAX_DEPTH + 1), Nested(MAX_DEPTH + 1))
    ensures !JsonEqual(Nested(MAX_DEPTH + 1), Nested(MAX_DEPTH + 1), 0)
  {
    var n := MAX_DEPTH + 1;
    NestedLevels(n);
    NestedIsItself(n);
    JsonEqualIff(Nested(n), Nested(n));
  }
}
