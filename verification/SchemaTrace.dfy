/**
 * What one validation traversal finds when nothing caps the list of issues: the specification the collector-based
 * validator is proved against.
 */
module SchemaTrace {
  import opened Wrappers
  import opened Json
  import opened SchemaModel
  import opened SchemaDivision

  function Found(found: bool, path: Path, finding: Finding): (r: seq<Issue>)
    ensures r == [] <==> !found
  {
    if found then [Issue(path, finding)] else []
  }

  /** One finding for each flag that is set. */
  function FlagIssues(flags: seq<bool>, path: Path, finding: Finding): (r: seq<Issue>)
    ensures r == [] <==> forall i :: 0 <= i < |flags| ==> !flags[i]
  {
    if flags == [] then [] else Found(flags[0], path, finding) + FlagIssues(flags[1..], path, finding)
  }

  /** One traversal after another. */
  function Then(first: Trace, second: Trace): (r: Trace)
  {
    Trace(first.issues + second.issues, second.nodes)
  }

  lemma ThenAssociates(a: Trace, b: Trace, c: Trace)
    ensures Then(a, Then(b, c)) == Then(Then(a, b), c)
  {
    assert a.issues + (b.issues + c.issues) == (a.issues + b.issues) + c.issues;
  }

  predicate TypeFits(s: Schema, v: Value)
    requires s.Schema?
  {
    s.types.None? || s.types.value == [] || exists i :: 0 <= i < |s.types.value| && TypeName(s.types.value[i], v)
  }

  // ----- Scalars -----

  function StringIssues(rx: Engine, s: Schema, text: string, path: Path): seq<Issue>
    requires s.Schema?
  {
    Found(s.minLength.CountOf? && |text| < s.minLength.n, path, TooShort)
    + Found(s.maxLength.CountOf? && |text| > s.maxLength.n, path, TooLong)
    + (if !s.pattern.Regex? then []
       else if !rx.compiles(s.pattern.text) then [Issue(path, PatternDoesNotCompile)]
       else Found(!rx.finds(s.pattern.text, text), path, NoMatch))
  }

  predicate MinimumMissed(s: Schema, n: int) requires s.Schema? { s.minimum.Limit? && n < s.minimum.n }

  predicate MaximumMissed(s: Schema, n: int) requires s.Schema? { s.maximum.Limit? && n > s.maximum.n }

  predicate ExclusiveMinimumMissed(s: Schema, n: int)
    requires s.Schema?
  {
    match s.exclusiveMinimum
    case ExclusiveLimit(m) => n <= m
    case Flag(on) => on && s.minimum.Limit? && n <= s.minimum.n
    case _ => false
  }

  predicate ExclusiveMaximumMissed(s: Schema, n: int)
    requires s.Schema?
  {
    match s.exclusiveMaximum
    case ExclusiveLimit(m) => n >= m
    case Flag(on) => on && s.maximum.Limit? && n >= s.maximum.n
    case _ => false
  }

  predicate MultipleMissed(s: Schema, n: int)
    requires s.Schema?
  {
    s.multipleOf.Limit? && s.multipleOf.n > 0 && !QuotientIsInteger(n, s.multipleOf.n)
  }

  function NumberIssues(s: Schema, n: int, path: Path): seq<Issue>
    requires s.Schema?
  {
    Found(MinimumMissed(s, n), path, BelowMinimum)
    + Found(MaximumMissed(s, n), path, AboveMaximum)
    + Found(ExclusiveMinimumMissed(s, n), path, NotAboveMinimum)
    + Found(ExclusiveMaximumMissed(s, n), path, NotBelowMaximum)
    + Found(MultipleMissed(s, n), path, NotMultiple)
  }

  predicate EnumMissed(s: Schema, v: Value)
    requires s.Schema?
  {
    s.allowed.Some? && forall i :: 0 <= i < |s.allowed.value| ==> !JsonEqual(s.allowed.value[i], v, 0)
  }

  predicate ConstantMissed(s: Schema, v: Value)
    requires s.Schema?
  {
    s.constant.Some? && !JsonEqual(s.constant.value, v, 0)
  }

  function ScalarIssues(rx: Engine, s: Schema, v: Value, path: Path): seq<Issue>
    requires s.Schema?
  {
    Found(EnumMissed(s, v), path, NotAllowedValue)
    + Found(ConstantMissed(s, v), path, NotConstant)
    + (match v
       case JString(text) => StringIssues(rx, s, text, path)
       case JNumber(n) => NumberIssues(s, n, path)
       case _ => [])
  }

  // ----- Which subschemas apply -----

  function FindEntry(entries: seq<Named>, name: string): (i: int)
    ensures -1 <= i < |entries|
    ensures i >= 0 ==> entries[i].name == name
    ensures i < 0 ==> forall j :: 0 <= j < |entries| ==> entries[j].name != name
  {
    if entries == [] then -1
    else if entries[0].name == name then 0
    else
      var i := FindEntry(entries[1..], name);
      if i < 0 then -1 else i + 1
  }

  predicate Applies(rx: Engine, e: Named, key: string) {
    rx.compiles(e.name) && rx.finds(e.name, key)
  }

  function MatchingEntries(rx: Engine, entries: seq<Named>, key: string): (r: seq<Named>)
    ensures forall e :: e in r <==> e in entries && Applies(rx, e, key)
    ensures |r| <= |entries|
  {
    if entries == [] then []
    else (if Applies(rx, entries[0], key) then [entries[0]] else []) + MatchingEntries(rx, entries[1..], key)
  }

  function UncompiledIssues(rx: Engine, entries: seq<Named>, path: Path): (r: seq<Issue>)
    ensures r == [] <==> forall e :: e in entries ==> rx.compiles(e.name)
    ensures forall issue :: issue in r ==> issue.finding == PropertyPatternDoesNotCompile
  {
    if entries == [] then []
    else
      Found(!rx.compiles(entries[0].name), path, PropertyPatternDoesNotCompile)
      + UncompiledIssues(rx, entries[1..], path)
  }

  function MissingIssues(names: seq<string>, members: seq<Field>, path: Path): (r: seq<Issue>)
    ensures r == [] <==> forall i :: 0 <= i < |names| ==> Lookup(members, names[i]) >= 0
    ensures forall issue :: issue in r ==> issue.finding == PropertyRequired
  {
    if names == [] then []
    else
      Found(Lookup(members, names[0]) < 0, path + [Property(names[0])], PropertyRequired)
      + MissingIssues(names[1..], members, path)
  }

  /** What happens to the item or property no keyword names. */
  datatype Rule = Check(schema: Schema) | Refuse | Ignore

  function ExtraRule(x: Extra): Rule {
    match x
    case Allow(allowed) => if allowed then Ignore else Refuse
    case Matching(schema) => if schema.Schema? then Check(schema) else Ignore
    case NoExtra => Ignore
  }

  function ItemRule(s: Schema, i: nat): (r: Rule)
    requires s.Schema?
    ensures r.Check? ==> r.schema < s
  {
    match s.items
    case NoItems => Ignore
    case Each(schema) => if schema.Schema? then Check(schema) else Ignore
    case Positional(schemas) => if i < |schemas| then Check(schemas[i]) else ExtraRule(s.additionalItems)
  }

  // ----- The traversal -----

  function Node(rx: Engine, s: Schema, v: Value, path: Path, depth: nat, nodes: nat): Trace
    decreases s, 4, 0
  {
    if depth > MAX_DEPTH then Trace([Issue(path, NestingExceeded)], nodes)
    else if nodes + 1 > MAX_NODES then Trace([Issue(path, NodesExceeded)], nodes + 1)
    else if s.NotAnObject? then Trace([], nodes + 1)
    else
      var combined := Combinators(rx, s, v, path, depth);
      if !TypeFits(s, v) then Trace(combined + [Issue(path, TypeMismatch)], nodes + 1)
      else
        var head := combined + ScalarIssues(rx, s, v, path);
        match v
        case JObject(members) =>
          var t := Object(rx, s, members, path, depth, nodes + 1);
          Trace(head + t.issues, t.nodes)
        case JArray(items) =>
          var t := Array(rx, s, items, path, depth, nodes + 1);
          Trace(head + t.issues, t.nodes)
        case _ => Trace(head, nodes + 1)
  }

  function Combinators(rx: Engine, s: Schema, v: Value, path: Path, depth: nat): seq<Issue>
    requires s.Schema?
    decreases s, 3, 0
  {
    AllOf(rx, s, BranchesOf(s.allOf), v, path, depth)
    + Found(s.anyOf.Branches? && Valid(rx, s, BranchesOf(s.anyOf), v, path, depth) == 0, path, NoBranchMatches)
    + Found(s.oneOf.Branches? && Valid(rx, s, BranchesOf(s.oneOf), v, path, depth) != 1, path, NotExactlyOneBranch)
    + Found(s.negated.Some? && Node(rx, s.negated.value, v, path, depth + 1, 0).issues == [], path, ForbiddenMatch)
  }

  function AllOf(rx: Engine, parent: Schema, branches: seq<Schema>, v: Value, path: Path, depth: nat): seq<Issue>
    requires forall i :: 0 <= i < |branches| ==> branches[i] < parent
    decreases parent, 0, |branches|
  {
    if branches == [] then []
    else Node(rx, branches[0], v, path, depth + 1, 0).issues + AllOf(rx, parent, branches[1..], v, path, depth)
  }

  /** How many branches find nothing to complain about. */
  function Valid(rx: Engine, parent: Schema, branches: seq<Schema>, v: Value, path: Path, depth: nat): nat
    requires forall i :: 0 <= i < |branches| ==> branches[i] < parent
    decreases parent, 0, |branches|
  {
    if branches == [] then 0
    else (if Node(rx, branches[0], v, path, depth + 1, 0).issues == [] then 1 else 0)
         + Valid(rx, parent, branches[1..], v, path, depth)
  }

  function ObjectHead(s: Schema, count: nat, path: Path): seq<Issue>
    requires s.Schema?
  {
    Found(s.minProperties.CountOf? && count < s.minProperties.n, path, TooFewProperties)
    + Found(s.maxProperties.CountOf? && count > s.maxProperties.n, path, TooManyPropertiesDeclared)
    + Found(count > MAX_PROPERTIES, path, TooManyProperties)
  }

  function Visited<T>(s: seq<T>, limit: nat): seq<T> {
    if |s| <= limit then s else s[..limit]
  }

  function Object(rx: Engine, s: Schema, members: seq<Field>, path: Path, depth: nat, nodes: nat): Trace
    requires s.Schema?
    decreases s, 3, 0
  {
    var t := Members(rx, s, Visited(members, MAX_PROPERTIES), path, depth, nodes);
    Trace(ObjectHead(s, |members|, path) + t.issues + MissingIssues(NamesOf(s.required), members, path), t.nodes)
  }

  function Members(rx: Engine, s: Schema, members: seq<Field>, path: Path, depth: nat, nodes: nat): Trace
    requires s.Schema?
    decreases s, 2, |members|
  {
    if members == [] then Trace([], nodes)
    else
      var first := MemberTrace(rx, s, members[0], path, depth, nodes);
      var rest := Members(rx, s, members[1..], path, depth, first.nodes);
      Trace(first.issues + rest.issues, rest.nodes)
  }

  function MemberTrace(rx: Engine, s: Schema, m: Field, path: Path, depth: nat, nodes: nat): Trace
    requires s.Schema?
    decreases s, 1, 0
  {
    var child := path + [Property(m.key)];
    var named := NamedTrace(rx, s, m, child, depth, nodes);
    var patterns := EntriesOf(s.patternProperties);
    var matching := MatchingEntries(rx, patterns, m.key);
    var matched := Patterns(rx, s, matching, m.value, child, depth, named.nodes);
    var extra := ExtraTrace(rx, s, m, child, depth, matched.nodes);
    Trace(named.issues + UncompiledIssues(rx, patterns, child) + matched.issues + extra.issues, extra.nodes)
  }

  /** Whether a name or a pattern claims the member, so that the additional rule does not. */
  predicate Claimed(rx: Engine, s: Schema, key: string)
    requires s.Schema?
  {
    FindEntry(EntriesOf(s.properties), key) >= 0 || MatchingEntries(rx, EntriesOf(s.patternProperties), key) != []
  }

  function ExtraTrace(rx: Engine, s: Schema, m: Field, child: Path, depth: nat, nodes: nat): Trace
    requires s.Schema?
    decreases s, 0, 0
  {
    if Claimed(rx, s, m.key) then Trace([], nodes)
    else
      match ExtraRule(s.additionalProperties)
      case Ignore => Trace([], nodes)
      case Refuse => Trace([Issue(child, PropertyNotAllowed)], nodes)
      case Check(schema) => Node(rx, schema, m.value, child, depth + 1, nodes)
  }

  /** The subschema declared under the member's own name, if any. */
  function NamedTrace(rx: Engine, s: Schema, m: Field, child: Path, depth: nat, nodes: nat): Trace
    requires s.Schema?
    decreases s, 0, 0
  {
    var entries := EntriesOf(s.properties);
    var i := FindEntry(entries, m.key);
    if i >= 0 then Node(rx, entries[i].schema, m.value, child, depth + 1, nodes) else Trace([], nodes)
  }

  function Patterns(rx: Engine, parent: Schema, entries: seq<Named>, v: Value, child: Path, depth: nat,
                    nodes: nat): Trace
    requires forall e :: e in entries ==> e.schema < parent
    decreases parent, 0, |entries|
  {
    if entries == [] then Trace([], nodes)
    else
      var first := Node(rx, entries[0].schema, v, child, depth + 1, nodes);
      var rest := Patterns(rx, parent, entries[1..], v, child, depth, first.nodes);
      Trace(first.issues + rest.issues, rest.nodes)
  }

  function ArrayHead(s: Schema, count: nat, path: Path): seq<Issue>
    requires s.Schema?
  {
    Found(s.minItems.CountOf? && count < s.minItems.n, path, TooFewItems)
    + Found(s.maxItems.CountOf? && count > s.maxItems.n, path, TooManyItemsDeclared)
    + Found(count > MAX_ITEMS, path, TooManyItems)
  }

  function Array(rx: Engine, s: Schema, items: seq<Value>, path: Path, depth: nat, nodes: nat): Trace
    requires s.Schema?
    decreases s, 3, 0
  {
    var t := ItemsFrom(rx, s, Visited(items, MAX_ITEMS), 0, path, depth, nodes);
    Trace(ArrayHead(s, |items|, path) + t.issues, t.nodes)
  }

  function ItemsFrom(rx: Engine, s: Schema, items: seq<Value>, index: nat, path: Path, depth: nat, nodes: nat): Trace
    requires s.Schema?
    decreases s, 2, |items|
  {
    if items == [] then Trace([], nodes)
    else
      var first := ItemTrace(rx, s, items[0], index, path, depth, nodes);
      var rest := ItemsFrom(rx, s, items[1..], index + 1, path, depth, first.nodes);
      Trace(first.issues + rest.issues, rest.nodes)
  }

  function ItemTrace(rx: Engine, s: Schema, v: Value, index: nat, path: Path, depth: nat, nodes: nat): Trace
    requires s.Schema?
    decreases s, 1, 0
  {
    var child := path + [Index(index)];
    match ItemRule(s, index)
    case Ignore => Trace([], nodes)
    case Refuse => Trace([Issue(child, ItemNotAllowed)], nodes)
    case Check(schema) => Node(rx, schema, v, child, depth + 1, nodes)
  }
}
