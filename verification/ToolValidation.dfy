/**
 * The entry point: the advertised schema is inspected, then the arguments are validated against it. The capped run
 * reports the first eight findings of the uncapped one, and accepting means conforming.
 */
module ToolValidation {
  import opened Wrappers
  import opened Json
  import opened SchemaModel
  import opened SchemaDivision
  import opened SchemaTrace
  import opened SchemaSemantics
  import opened SchemaSoundness
  import opened SchemaExactness
  import opened SchemaInspection
  import opened SchemaGuards
  import opened SchemaUnguarded
  import opened SchemaFaults
  import opened IssueCollection
  import opened SchemaValidator

  // ----- Inspection as it runs -----

  lemma RecordsRun(rx: Engine, parent: Schema, before: Tally, a: seq<Act>, middle: Tally, now: nat, b: seq<Act>,
                   after: Tally,
                   depth: nat, start: nat, nodes: nat)
    requires Capped(before) && Inside(a, parent) && Inside(b, parent)
    requires Records(before, Run(rx, parent, a, depth, start), middle, now)
    requires Records(middle, Run(rx, parent, b, depth, now), after, nodes)
    ensures Inside(a + b, parent) && Records(before, Run(rx, parent, a + b, depth, start), after, nodes)
  {
    RunConcat(rx, parent, a, b, depth, start);
    var first := Run(rx, parent, a, depth, start);
    RecordsThen(before, first, middle, Run(rx, parent, b, depth, now), Run(rx, parent, b, depth, first.nodes), after,
                nodes);
  }

  lemma {:induction false} RunReports(rx: Engine, parent: Schema, issues: seq<Issue>, depth: nat, nodes: nat)
    ensures Inside(Reports(issues), parent) && Run(rx, parent, Reports(issues), depth, nodes) == Trace(issues, nodes)
  {
    if issues != [] {
      RunReports(rx, parent, issues[1..], depth, nodes);
      assert Reports(issues) == [Report(issues[0])] + Reports(issues[1..]);
      RunStep(rx, parent, Report(issues[0]), Reports(issues[1..]), depth, nodes);
      assert issues == [issues[0]] + issues[1..];
    }
  }

  lemma RunSingle(rx: Engine, parent: Schema, path: Path, s: Schema, depth: nat, nodes: nat)
    requires s < parent
    ensures Inside([Descend(path, s)], parent)
    ensures Run(rx, parent, [Descend(path, s)], depth, nodes) == InspectNode(rx, s, path, depth, nodes)
  {
    assert [Descend(path, s)] + [] == [Descend(path, s)];
    RunStep(rx, parent, Descend(path, s), [], depth, nodes);
    var t := InspectNode(rx, s, path, depth, nodes);
    assert t.issues + [] == t.issues;
  }

  method InspectBounds(s: Schema, path: Path, issues: IssueCollector)
    requires s.Schema? && issues.Valid()
    modifies issues
    ensures issues.Valid()
    ensures Appends(old(issues.View()),
                    FlagIssues(NotFiniteFlags(s), path, BoundNotFinite)
                      + FlagIssues(NotCountFlags(s), path, CountNotInteger)
                    + Found(MultipleWrong(s.multipleOf), path, MultipleNotPositive), issues.View())
  {
    ghost var before := issues.View();
    issues.AddFlagged(NotFiniteFlags(s), path, BoundNotFinite);
    ghost var finite, first := FlagIssues(NotFiniteFlags(s), path, BoundNotFinite), issues.View();
    issues.AddFlagged(NotCountFlags(s), path, CountNotInteger);
    ghost var counts, second := FlagIssues(NotCountFlags(s), path, CountNotInteger), issues.View();
    AppendsThen(before, finite, first, counts, second);
    issues.AddWhen(MultipleWrong(s.multipleOf), path, MultipleNotPositive);
    AppendsThen(before, finite + counts, second, Found(MultipleWrong(s.multipleOf), path, MultipleNotPositive),
                issues.View());
  }

  method InspectExclusive(x: Exclusive, bound: Bound, path: Path, issues: IssueCollector)
    requires issues.Valid()
    modifies issues
    ensures issues.Valid() && Appends(old(issues.View()), ExclusiveIssues(x, bound, path), issues.View())
  {
    AppendsNothing(issues.View());
    match x
    case BadExclusive => issues.Add(path, BadExclusiveKeyword);
    case NotFinite => issues.Add(path, ExclusiveNotFinite);
    case Flag(on) => issues.AddWhen(on && (bound.NoBound? || bound.WrongType?), path, ExclusiveWithoutBound);
    case _ =>
  }

  method InspectPattern(rx: Engine, p: Pattern, path: Path, issues: IssueCollector)
    requires issues.Valid()
    modifies issues
    ensures issues.Valid() && Appends(old(issues.View()), PatternIssues(rx, p, path), issues.View())
  {
    AppendsNothing(issues.View());
    match p
    case NoPattern =>
    case BadPattern => issues.Add(path, PatternNotString);
    case Regex(text) => issues.AddWhen(!rx.compiles(text), path, PatternInvalid);
  }

  method InspectShape(s: Schema, path: Path, issues: IssueCollector)
    requires s.Schema? && issues.Valid()
    modifies issues
    ensures issues.Valid()
    ensures Appends(old(issues.View()),
                    UnsupportedIssues(s.unsupported, path) + Found(TypesWrong(s), path, BadType)
                      + Found(s.required.BadNames?, path, BadRequired),
                    issues.View())
  {
    ghost var before := issues.View();
    AppendsNothing(before);
    for i := 0 to |s.unsupported|
      invariant issues.Valid() && Appends(before, UnsupportedIssues(s.unsupported[..i], path), issues.View())
    {
      ghost var middle := issues.View();
      issues.Add(path, UnsupportedKeyword);
      AppendsThen(before, UnsupportedIssues(s.unsupported[..i], path), middle, [Issue(path, UnsupportedKeyword)],
                  issues.View());
      assert UnsupportedIssues(s.unsupported[..i + 1], path) == UnsupportedIssues(s.unsupported[..i], path)
          + [Issue(path, UnsupportedKeyword)];
    }
    assert s.unsupported[..|s.unsupported|] == s.unsupported;
    ghost var unknown, first := UnsupportedIssues(s.unsupported, path), issues.View();
    issues.AddWhen(TypesWrong(s), path, BadType);
    ghost var types, second := Found(TypesWrong(s), path, BadType), issues.View();
    AppendsThen(before, unknown, first, types, second);
    issues.AddWhen(s.required.BadNames?, path, BadRequired);
    AppendsThen(before, unknown + types, second, Found(s.required.BadNames?, path, BadRequired), issues.View());
  }

  method InspectKeywords(rx: Engine, s: Schema, path: Path, issues: IssueCollector)
    requires s.Schema? && issues.Valid()
    modifies issues
    ensures issues.Valid() && Appends(old(issues.View()), KeywordIssues(rx, s, path), issues.View())
  {
    ghost var before := issues.View();
    InspectShape(s, path, issues);
    ghost var shape := UnsupportedIssues(s.unsupported, path) + Found(TypesWrong(s), path, BadType)
        + Found(s.required.BadNames?, path, BadRequired);
    ghost var first := issues.View();
    InspectBounds(s, path, issues);
    ghost var finite, counts := FlagIssues(NotFiniteFlags(s), path, BoundNotFinite),
        FlagIssues(NotCountFlags(s), path, CountNotInteger);
    ghost var multiple := Found(MultipleWrong(s.multipleOf), path, MultipleNotPositive);
    ghost var second := issues.View();
    AppendsThen(before, shape, first, finite + counts + multiple, second);
    InspectExclusive(s.exclusiveMinimum, s.minimum, path, issues);
    ghost var low, third := ExclusiveIssues(s.exclusiveMinimum, s.minimum, path), issues.View();
    AppendsThen(before, shape + (finite + counts + multiple), second, low, third);
    InspectExclusive(s.exclusiveMaximum, s.maximum, path, issues);
    ghost var high, fourth := ExclusiveIssues(s.exclusiveMaximum, s.maximum, path), issues.View();
    AppendsThen(before, shape + (finite + counts + multiple) + low, third, high, fourth);
    InspectPattern(rx, s.pattern, path, issues);
    AppendsThen(before, shape + (finite + counts + multiple) + low + high, fourth, PatternIssues(rx, s.pattern, path),
                issues.View());
    Flatten(shape, finite, counts, multiple);
  }

  lemma Flatten(shape: seq<Issue>, finite: seq<Issue>, counts: seq<Issue>, multiple: seq<Issue>)
    ensures shape + (finite + counts + multiple) == shape + finite + counts + multiple
  {
  }

  method InspectSchemaMap(rx: Engine, ghost parent: Schema, m: SchemaMap, path: Path, depth: nat,
                          state: ValidationState, issues: IssueCollector)
    requires issues.Valid() && forall e :: e in EntriesOf(m) ==> e.schema < parent
    modifies issues, state
    ensures issues.Valid() && Inside(MapActs(m, path), parent)
    ensures Records(old(issues.View()), Run(rx, parent, MapActs(m, path), depth, old(state.nodes)), issues.View(),
                    state.nodes)
    decreases parent, 0
  {
    MapInside(m, parent, path);
    ghost var before, start := issues.View(), state.nodes;
    AppendsNothing(before);
    if m.BadMap? {
      issues.Add(path, BadSchemaMap);
      RunReports(rx, parent, [Issue(path, BadSchemaMap)], depth, start);
      assert MapActs(m, path) == Reports([Issue(path, BadSchemaMap)]);
    } else if m.Entries? {
      ghost var acts, done := MapActs(m, path), Trace([], start);
      assert acts[0..] == acts;
      for i := 0 to |m.entries|
        invariant issues.Valid() && Records(before, done, issues.View(), state.nodes)
        invariant Inside(acts[i..], parent)
        invariant Run(rx, parent, acts, depth, start) == Then(done, Run(rx, parent, acts[i..], depth, done.nodes))
      {
        ghost var middle, now := issues.View(), state.nodes;
        var child := path + [Property(m.entries[i].name)];
        assert m.entries[i] in EntriesOf(m);
        InspectSchemaNode(rx, m.entries[i].schema, child, depth, state, issues);
        done := AfterDescent(rx, parent, acts, i, before, start, done, middle, now, issues.View(), state.nodes, depth);
      }
    }
  }

  /** One descent of a loop over subschemas. */
  lemma AfterDescent(rx: Engine, parent: Schema, acts: seq<Act>, i: nat, before: Tally, start: nat, done: Trace,
                     middle: Tally, now: nat,
                     after: Tally, nodes: nat, depth: nat) returns (next: Trace)
    requires i < |acts| && acts[i].Descend? && Inside(acts, parent) && Inside(acts[i..], parent)
    requires Capped(before) && Records(before, done, middle, now)
    requires Records(middle, InspectNode(rx, acts[i].schema, acts[i].path, depth, now), after, nodes)
    requires Run(rx, parent, acts, depth, start) == Then(done, Run(rx, parent, acts[i..], depth, done.nodes))
    ensures Records(before, next, after, nodes) && Inside(acts[i + 1..], parent)
    ensures Run(rx, parent, acts, depth, start) == Then(next, Run(rx, parent, acts[i + 1..], depth, next.nodes))
  {
    var exact := InspectNode(rx, acts[i].schema, acts[i].path, depth, done.nodes);
    RecordsThen(before, done, middle, InspectNode(rx, acts[i].schema, acts[i].path, depth, now), exact, after, nodes);
    assert acts[i..] == [acts[i]] + acts[i + 1..];
    RunStep(rx, parent, acts[i], acts[i + 1..], depth, done.nodes);
    ThenAssociates(done, exact, Run(rx, parent, acts[i + 1..], depth, exact.nodes));
    next := Then(done, exact);
  }

  lemma BranchesInside(parent: Schema, branches: seq<Schema>, path: Path)
    requires forall c :: c in branches ==> c < parent
    ensures Inside(BranchActs(branches, path), parent)
  {
    var acts := BranchActs(branches, path);
    forall i | 0 <= i < |acts| ensures acts[i].Descend? ==> acts[i].schema < parent {
      assert branches[i] in branches;
    }
  }

  method InspectSchemaList(rx: Engine, ghost parent: Schema, l: SchemaList, path: Path, depth: nat,
                           state: ValidationState, issues: IssueCollector)
    requires issues.Valid() && forall c :: c in BranchesOf(l) ==> c < parent
    modifies issues, state
    ensures issues.Valid() && Inside(ListActs(l, path), parent)
    ensures Records(old(issues.View()), Run(rx, parent, ListActs(l, path), depth, old(state.nodes)), issues.View(),
                    state.nodes)
    decreases parent, 0
  {
    ghost var before, start := issues.View(), state.nodes;
    AppendsNothing(before);
    if l.BadList? {
      issues.Add(path, BadSchemaList);
      RunReports(rx, parent, [Issue(path, BadSchemaList)], depth, start);
      assert ListActs(l, path) == Reports([Issue(path, BadSchemaList)]);
    } else if l.Branches? {
      ghost var acts, done := ListActs(l, path), Trace([], start);
      BranchesInside(parent, BranchesOf(l), path);
      assert acts[0..] == acts;
      for i := 0 to |l.branches|
        invariant issues.Valid() && Records(before, done, issues.View(), state.nodes)
        invariant Inside(acts[i..], parent)
        invariant Run(rx, parent, acts, depth, start) == Then(done, Run(rx, parent, acts[i..], depth, done.nodes))
      {
        ghost var middle, now := issues.View(), state.nodes;
        InspectSchemaNode(rx, l.branches[i], path + [Index(i)], depth, state, issues);
        done := AfterDescent(rx, parent, acts, i, before, start, done, middle, now, issues.View(), state.nodes, depth);
      }
    }
  }

  method InspectExtra(rx: Engine, ghost parent: Schema, x: Extra, path: Path, depth: nat, state: ValidationState,
                      issues: IssueCollector)
    requires issues.Valid() && (x.Matching? ==> x.schema < parent)
    modifies issues, state
    ensures issues.Valid() && Inside(ExtraActs(x, path), parent)
    ensures Records(old(issues.View()), Run(rx, parent, ExtraActs(x, path), depth, old(state.nodes)), issues.View(),
                    state.nodes)
    decreases parent, 0
  {
    AppendsNothing(issues.View());
    if x.Matching? {
      RunSingle(rx, parent, path, x.schema, depth, state.nodes);
      InspectSchemaNode(rx, x.schema, path, depth, state, issues);
    }
  }

  method InspectPropertyPatterns(rx: Engine, entries: seq<Named>, path: Path, issues: IssueCollector)
    requires issues.Valid()
    modifies issues
    ensures issues.Valid() && Appends(old(issues.View()), PropertyPatternIssues(rx, entries, path), issues.View())
  {
    ghost var before, done := issues.View(), [];
    AppendsNothing(before);
    for i := 0 to |entries|
      invariant issues.Valid() && Appends(before, done, issues.View())
      invariant PropertyPatternIssues(rx, entries, path) == done + PropertyPatternIssues(rx, entries[i..], path)
    {
      ghost var middle, added := issues.View(), Found(!rx.compiles(entries[i].name), path, PropertyPatternInvalid);
      assert entries[i..][0] == entries[i] && entries[i..][1..] == entries[i + 1..];
      assert PropertyPatternIssues(rx, entries[i..], path) == added + PropertyPatternIssues(rx, entries[i + 1..], path);
      issues.AddWhen(!rx.compiles(entries[i].name), path, PropertyPatternInvalid);
      AppendsStep(before, PropertyPatternIssues(rx, entries, path), done, middle, added,
                  PropertyPatternIssues(rx, entries[i + 1..], path), issues.View());
      done := done + added;
    }
    assert entries[|entries|..] == [];
  }

  method InspectMembers(rx: Engine, s: Schema, path: Path, depth: nat, state: ValidationState, issues: IssueCollector)
    requires s.Schema? && issues.Valid()
    modifies issues, state
    ensures issues.Valid() && Inside(MemberActs(rx, s, path), s)
    ensures Records(old(issues.View()), Run(rx, s, MemberActs(rx, s, path), depth, old(state.nodes)), issues.View(),
                    state.nodes)
    decreases s, 1
  {
    ghost var before, start := issues.View(), state.nodes;
    InspectSchemaMap(rx, s, s.properties, path + [Property("properties")], depth, state, issues);
    ghost var named, first, firstNodes := MapActs(s.properties, path + [Property("properties")]), issues.View(),
        state.nodes;
    InspectSchemaMap(rx, s, s.patternProperties, path + [Property("patternProperties")], depth, state, issues);
    ghost var patterned, second, secondNodes := MapActs(s.patternProperties, path + [Property("patternProperties")]),
        issues.View(), state.nodes;
    RecordsRun(rx, s, before, named, first, firstNodes, patterned, second, depth, start, secondNodes);
    InspectPropertyPatterns(rx, EntriesOf(s.patternProperties), path, issues);
    ghost var reported, third := PropertyPatternIssues(rx, EntriesOf(s.patternProperties), path), issues.View();
    RunReports(rx, s, reported, depth, secondNodes);
    assert state.nodes == secondNodes;
    RecordsRun(rx, s, before, named + patterned, second, secondNodes, Reports(reported), third, depth, start,
               secondNodes);
    InspectExtra(rx, s, s.additionalProperties, path + [Property("additionalProperties")], depth, state, issues);
    ghost var extra := ExtraActs(s.additionalProperties, path + [Property("additionalProperties")]);
    RecordsRun(rx, s, before, named + patterned + Reports(reported), third, secondNodes, extra, issues.View(), depth,
               start, state.nodes);
  }

  method InspectItems(rx: Engine, s: Schema, path: Path, depth: nat, state: ValidationState, issues: IssueCollector)
    requires s.Schema? && issues.Valid()
    modifies issues, state
    ensures issues.Valid() && Inside(ItemActs(s, path), s)
    ensures Records(old(issues.View()), Run(rx, s, ItemActs(s, path), depth, old(state.nodes)), issues.View(),
                    state.nodes)
    decreases s, 1
  {
    ghost var before, start := issues.View(), state.nodes;
    AppendsNothing(before);
    var items := path + [Property("items")];
    match s.items {
      case NoItems =>
      case Each(schema) =>
        RunSingle(rx, s, items, schema, depth, state.nodes);
        InspectSchemaNode(rx, schema, items, depth, state, issues);
      case Positional(schemas) =>
        InspectSchemaList(rx, s, Branches(schemas), items, depth, state, issues);
    }
    ghost var acts, middle, now := ItemsActs(s.items, items), issues.View(), state.nodes;
    InspectExtra(rx, s, s.additionalItems, path + [Property("additionalItems")], depth, state, issues);
    RecordsRun(rx, s, before, acts, middle, now, ExtraActs(s.additionalItems, path + [Property("additionalItems")]),
               issues.View(), depth, start, state.nodes);
  }

  method InspectAlternatives(rx: Engine, s: Schema, path: Path, depth: nat, state: ValidationState,
                             issues: IssueCollector)
    requires s.Schema? && issues.Valid()
    modifies issues, state
    ensures issues.Valid() && Inside(AlternativeActs(s, path), s)
    ensures Records(old(issues.View()), Run(rx, s, AlternativeActs(s, path), depth, old(state.nodes)), issues.View(),
                    state.nodes)
    decreases s, 1
  {
    ghost var before, start := issues.View(), state.nodes;
    InspectSchemaList(rx, s, s.anyOf, path + [Property("anyOf")], depth, state, issues);
    ghost var any, first, firstNodes := ListActs(s.anyOf, path + [Property("anyOf")]), issues.View(), state.nodes;
    InspectSchemaList(rx, s, s.oneOf, path + [Property("oneOf")], depth, state, issues);
    ghost var one, second, secondNodes := ListActs(s.oneOf, path + [Property("oneOf")]), issues.View(), state.nodes;
    RecordsRun(rx, s, before, any, first, firstNodes, one, second, depth, start, secondNodes);
    InspectSchemaList(rx, s, s.allOf, path + [Property("allOf")], depth, state, issues);
    ghost var all, third, thirdNodes := ListActs(s.allOf, path + [Property("allOf")]), issues.View(), state.nodes;
    RecordsRun(rx, s, before, any + one, second, secondNodes, all, third, depth, start, thirdNodes);
    ghost var last := [];
    AppendsNothing(third);
    if s.negated.Some? {
      RunSingle(rx, s, path + [Property("not")], s.negated.value, depth, state.nodes);
      InspectSchemaNode(rx, s.negated.value, path + [Property("not")], depth, state, issues);
      last := [Descend(path + [Property("not")], s.negated.value)];
    }
    RecordsRun(rx, s, before, any + one + all, third, thirdNodes, last, issues.View(), depth, start, state.nodes);
  }

  method InspectSchemaNode(rx: Engine, s: Schema, path: Path, depth: nat, state: ValidationState,
                           issues: IssueCollector)
    requires issues.Valid()
    modifies issues, state
    ensures issues.Valid()
    ensures Records(old(issues.View()), InspectNode(rx, s, path, depth, old(state.nodes)), issues.View(), state.nodes)
    decreases s, 4
  {
    AppendsNothing(issues.View());
    if |issues.issues| >= MAX_ISSUES {
      issues.truncated := true;
      AppendsAny(issues.View(), [], InspectNode(rx, s, path, depth, state.nodes).issues, issues.View());
      return;
    }
    if s.NotAnObject? {
      issues.Add(path, NotASchema);
      return;
    }
    if depth > MAX_DEPTH {
      issues.Add(path, SchemaNestingExceeded);
      return;
    }
    InspectCounted(rx, s, path, depth, state, issues);
  }

  /** A schema node within the nesting limit, unless too many have been counted. */
  method InspectCounted(rx: Engine, s: Schema, path: Path, depth: nat, state: ValidationState, issues: IssueCollector)
    requires s.Schema? && depth <= MAX_DEPTH && issues.Valid()
    modifies issues, state
    ensures issues.Valid()
    ensures Records(old(issues.View()), InspectNode(rx, s, path, depth, old(state.nodes)), issues.View(), state.nodes)
    decreases s, 3
  {
    state.nodes := state.nodes + 1;
    if state.nodes > MAX_NODES {
      issues.Add(path, SchemaNodesExceeded);
      return;
    }
    ActsInside(rx, s, path);
    InspectInside(rx, s, path, depth + 1, state, issues);
  }

  /** Everything inspection does below a node it accepts to look at. */
  method InspectInside(rx: Engine, s: Schema, path: Path, depth: nat, state: ValidationState, issues: IssueCollector)
    requires s.Schema? && issues.Valid()
    modifies issues, state
    ensures issues.Valid() && Inside(Acts(rx, s, path), s)
    ensures Records(old(issues.View()), Run(rx, s, Acts(rx, s, path), depth, old(state.nodes)), issues.View(),
                    state.nodes)
    decreases s, 2
  {
    ghost var before, start := issues.View(), state.nodes;
    InspectKeywords(rx, s, path, issues);
    ghost var keywords, first := Reports(KeywordIssues(rx, s, path)), issues.View();
    RunReports(rx, s, KeywordIssues(rx, s, path), depth, start);
    InspectMembers(rx, s, path, depth, state, issues);
    ghost var members, second, secondNodes := MemberActs(rx, s, path), issues.View(), state.nodes;
    RecordsRun(rx, s, before, keywords, first, start, members, second, depth, start, secondNodes);
    InspectItems(rx, s, path, depth, state, issues);
    ghost var items, third, thirdNodes := ItemActs(s, path), issues.View(), state.nodes;
    RecordsRun(rx, s, before, keywords + members, second, secondNodes, items, third, depth, start, thirdNodes);
    InspectAlternatives(rx, s, path, depth, state, issues);
    RecordsRun(rx, s, before, keywords + members + items, third, thirdNodes, AlternativeActs(s, path), issues.View(),
               depth, start, state.nodes);
  }

  // ----- The entry point -----

  const SCHEMA_ROOT: Path := [Property("schema")]
  const ARGUMENTS_ROOT: Path := [Property("arguments")]

  /** A call without arguments to a tool that takes an object gets the empty object. */
  function Normalized(s: Schema, arguments_: Value): Value {
    if arguments_.JUndefined? && s.Schema? && s.types.Some? && "object" in s.types.value then JObject([])
    else arguments_
  }

  /** All findings of one call, with no cap: the schema's if it has any, else those of the arguments. */
  function Findings(rx: Engine, s: Schema, arguments_: Value): seq<Issue> {
    var inspected := InspectNode(rx, s, SCHEMA_ROOT, 0, 0).issues;
    if inspected != [] then inspected else Node(rx, s, Normalized(s, arguments_), ARGUMENTS_ROOT, 0, 0).issues
  }

  method ValidateToolArguments(rx: Engine, s: Schema, arguments_: Value)
      returns (ok: bool, issues: seq<Issue>, truncated: bool)
    ensures ok <==> Findings(rx, s, arguments_) == []
    ensures var all := Findings(rx, s, arguments_); issues == if |all| <= 8 then all else all[..8]
    ensures !truncated ==> issues == Findings(rx, s, arguments_)
    ensures truncated ==> |issues| == MAX_ISSUES
  {
    var collector := new IssueCollector();
    var usable := InspectSchema(rx, s, collector);
    if usable {
      var state := new ValidationState();
      ghost var before := collector.View();
      assert before == Tally([], false);
      ValidateNode(rx, s, Normalized(s, arguments_), ARGUMENTS_ROOT, 0, state, collector);
      FromNothing(before, Node(rx, s, Normalized(s, arguments_), ARGUMENTS_ROOT, 0, 0).issues, collector.View());
    }
    return collector.issues == [], collector.issues, collector.truncated;
  }

  method InspectSchema(rx: Engine, s: Schema, issues: IssueCollector) returns (usable: bool)
    requires issues.Valid() && issues.View() == Tally([], false)
    modifies issues
    ensures issues.Valid() && (usable <==> InspectNode(rx, s, SCHEMA_ROOT, 0, 0).issues == [])
    ensures Reported(InspectNode(rx, s, SCHEMA_ROOT, 0, 0).issues, issues.View())
  {
    var state := new ValidationState();
    ghost var before := issues.View();
    InspectSchemaNode(rx, s, SCHEMA_ROOT, 0, state, issues);
    FromNothing(before, InspectNode(rx, s, SCHEMA_ROOT, 0, 0).issues, issues.View());
    usable := issues.issues == [];
  }

  /** A run that started with nothing reports the first eight findings. */
  ghost predicate Reported(findings: seq<Issue>, t: Tally) {
    t.issues == Cap(findings) && (!t.truncated ==> t.issues == findings) && (t.truncated ==> |t.issues| == MAX_ISSUES)
  }

  lemma FromNothing(before: Tally, findings: seq<Issue>, after: Tally)
    requires before == Tally([], false) && Appends(before, findings, after)
    ensures Reported(findings, after)
  {
    assert [] + findings == findings;
  }

  /** Acceptance in terms of the value that is judged. */
  lemma AcceptedIs(rx: Engine, s: Schema, arguments_: Value)
    ensures Findings(rx, s, arguments_) == [] <==>
              && InspectNode(rx, s, SCHEMA_ROOT, 0, 0).issues == []
              && Node(rx, s, Normalized(s, arguments_), ARGUMENTS_ROOT, 0, 0).issues == []
  {
  }

  /**
   * Whatever guards fire, an accepted call conforms to a schema without `oneOf` and `not`, where divisions are exact
   * (which they are when all numbers of the arguments are safe integers).
   */
  lemma AcceptedConforms(rx: Engine, s: Schema, arguments_: Value)
    requires !arguments_.JUndefined?
    requires Plain(s) && DivisionsReach(s, arguments_) && Findings(rx, s, arguments_) == []
    ensures Usable(rx, s, 0) && Satisfies(rx, s, arguments_)
  {
    CleanIffUsable(rx, s, SCHEMA_ROOT, 0, 0);
    CleanImpliesSatisfies(rx, s, arguments_, ARGUMENTS_ROOT, 0, 0);
  }

  /** An accepted call without arguments: the empty object conforms if the types list `object`, else their absence. */
  lemma AcceptedWithoutArguments(rx: Engine, s: Schema)
    requires Plain(s) && Findings(rx, s, JUndefined) == []
    ensures Usable(rx, s, 0)
    ensures s.types.Some? && "object" in s.types.value ==> Satisfies(rx, s, JObject([]))
    ensures !(s.types.Some? && "object" in s.types.value) ==> Satisfies(rx, s, JUndefined)
  {
    CleanIffUsable(rx, s, SCHEMA_ROOT, 0, 0);
    SafeNumbersReach(s, JObject([]));
    SafeNumbersReach(s, JUndefined);
    AcceptedIs(rx, s, JUndefined);
    CleanImpliesSatisfies(rx, s, Normalized(s, JUndefined), ARGUMENTS_ROOT, 0, 0);
  }

  /**
   * When no size guard fires on the value that is judged, it is accepted exactly when schema and value are in order.
   */
  lemma JudgedIffConforms(rx: Engine, s: Schema, v: Value)
    requires DistinctNames(s) && NodeCount(rx, s, SCHEMA_ROOT) <= MAX_NODES
    requires WellFormed(v) && Fits(rx, s, v) && Visits(rx, s, v) <= MAX_NODES
    ensures InspectNode(rx, s, SCHEMA_ROOT, 0, 0).issues == [] && Node(rx, s, v, ARGUMENTS_ROOT, 0, 0).issues == []
            <==> Usable(rx, s, 0) && Satisfies(rx, s, v)
  {
    CleanIffUsable(rx, s, SCHEMA_ROOT, 0, 0);
    if Usable(rx, s, 0) {
      CleanIffSatisfies(rx, s, v, ARGUMENTS_ROOT, 0, 0);
    }
  }

  /** When no size guard fires, acceptance is conformance of the arguments, for every schema. */
  lemma AcceptedIffConforms(rx: Engine, s: Schema, arguments_: Value)
    requires !arguments_.JUndefined?
    requires DistinctNames(s) && NodeCount(rx, s, SCHEMA_ROOT) <= MAX_NODES
    requires WellFormed(arguments_) && Fits(rx, s, arguments_) && Visits(rx, s, arguments_) <= MAX_NODES
    ensures Findings(rx, s, arguments_) == [] <==> Usable(rx, s, 0) && Satisfies(rx, s, arguments_)
  {
    AcceptedIs(rx, s, arguments_);
    JudgedIffConforms(rx, s, arguments_);
  }

  /** A call without arguments to a tool that takes an object is accepted exactly when the empty object conforms. */
  lemma EmptyCallIffConforms(rx: Engine, s: Schema)
    requires s.Schema? && s.types.Some? && "object" in s.types.value
    requires DistinctNames(s) && NodeCount(rx, s, SCHEMA_ROOT) <= MAX_NODES
    requires Fits(rx, s, JObject([])) && Visits(rx, s, JObject([])) <= MAX_NODES
    ensures Findings(rx, s, JUndefined) == [] <==> Usable(rx, s, 0) && Satisfies(rx, s, JObject([]))
  {
    AcceptedIs(rx, s, JUndefined);
    JudgedIffConforms(rx, s, JObject([]));
  }

  /** To any other tool, exactly when their absence conforms. */
  lemma AbsentCallIffConforms(rx: Engine, s: Schema)
    requires s.Schema? ==> !(s.types.Some? && "object" in s.types.value)
    requires DistinctNames(s) && NodeCount(rx, s, SCHEMA_ROOT) <= MAX_NODES
    requires Fits(rx, s, JUndefined) && Visits(rx, s, JUndefined) <= MAX_NODES
    ensures Findings(rx, s, JUndefined) == [] <==> Usable(rx, s, 0) && Satisfies(rx, s, JUndefined)
  {
    AcceptedIs(rx, s, JUndefined);
    JudgedIffConforms(rx, s, JUndefined);
  }

  /**
   * For a schema that passes inspection, a call is the traversal written without the nesting guard and the pattern
   * checks, at every node and inside every private branch; so it never reports either of them.
   */
  lemma InspectedIsSafe(rx: Engine, s: Schema, arguments_: Value)
    requires InspectNode(rx, s, SCHEMA_ROOT, 0, 0).issues == []
    ensures !arguments_.JUndefined? ==>
              Findings(rx, s, arguments_) == BareNode(rx, s, arguments_, [Property("arguments")], 0).issues
    ensures arguments_.JUndefined? && s.Schema? && s.types.Some? && "object" in s.types.value ==>
              Findings(rx, s, arguments_) == BareNode(rx, s, JObject([]), [Property("arguments")], 0).issues
    ensures arguments_.JUndefined? && !(s.Schema? && s.types.Some? && "object" in s.types.value) ==>
              Findings(rx, s, arguments_) == BareNode(rx, s, JUndefined, [Property("arguments")], 0).issues
    ensures NoneDead(Findings(rx, s, arguments_))
  {
    CleanIffUsable(rx, s, SCHEMA_ROOT, 0, 0);
    GuardsAreDead(rx, s, Normalized(s, arguments_), ARGUMENTS_ROOT, 0, 0);
    DeadBranches(rx, s, Normalized(s, arguments_), ARGUMENTS_ROOT, 0, 0);
  }

  /**
   * What is reported about arguments is so: but for the node guard, every finding names a place in the arguments where
   * a subschema asked of that place is failed as the finding says.
   */
  lemma ReportedAreFaults(rx: Engine, s: Schema, arguments_: Value, issue: Issue)
    requires InspectNode(rx, s, SCHEMA_ROOT, 0, 0).issues == [] && !arguments_.JUndefined?
    requires issue in Findings(rx, s, arguments_) && !issue.finding.NodesExceeded?
    ensures |issue.path| >= 1 && issue.path[0] == Property("arguments")
    ensures Blames(rx, s, arguments_, [Property("arguments")], 0, issue.path[1..], issue.finding)
  {
    FindingIsJustified(rx, s, arguments_, issue);
    assert issue.path[..1] == ARGUMENTS_ROOT == [Property("arguments")];
  }

  lemma FindingIsJustified(rx: Engine, s: Schema, arguments_: Value, issue: Issue)
    requires InspectNode(rx, s, SCHEMA_ROOT, 0, 0).issues == [] && !arguments_.JUndefined?
    requires issue in Findings(rx, s, arguments_) && !issue.finding.NodesExceeded?
    ensures ARGUMENTS_ROOT <= issue.path
    ensures Blames(rx, s, arguments_, ARGUMENTS_ROOT, 0, issue.path[|ARGUMENTS_ROOT|..], issue.finding)
  {
    CleanIffUsable(rx, s, SCHEMA_ROOT, 0, 0);
    DeadBranches(rx, s, arguments_, ARGUMENTS_ROOT, 0, 0);
    FindingsAreFaults(rx, s, arguments_, ARGUMENTS_ROOT, 0, 0);
  }

  // ----- Where acceptance is not conformance -----

  /** The schema without a keyword. */
  const ANYTHING: Schema := Schema([], None, NoMap, NoMap, NoNames, NoExtra, NoItems, NoExtra, None, None,
                                   NoBound, NoBound, NoExclusive, NoExclusive, NoBound, NoCount, NoCount, NoPattern,
                                   NoCount, NoCount, NoCount, NoCount, NoList, NoList, NoList, None)

  function OnlyMultiple(m: int): Schema {
    ANYTHING.(multipleOf := Limit(m))
  }

  lemma OnlyMultipleIsUsable(rx: Engine, m: int)
    requires m > 0
    ensures InspectNode(rx, OnlyMultiple(m), SCHEMA_ROOT, 0, 0).issues == []
  {
    var s := OnlyMultiple(m);
    ActsInside(rx, s, SCHEMA_ROOT);
    KeywordsClean(rx, s, SCHEMA_ROOT);
    NoSubschemas(rx, s, SCHEMA_ROOT);
    NothingToDo(rx, s, SCHEMA_ROOT);
  }

  ghost predicate Flat(s: Schema) {
    && s.Schema? && s.properties.NoMap? && s.patternProperties.NoMap? && s.additionalProperties.NoExtra?
    && s.items.NoItems? && s.additionalItems.NoExtra?
    && s.allOf.NoList? && s.anyOf.NoList? && s.oneOf.NoList? && s.negated.None?
  }

  lemma NoSubschemas(rx: Engine, s: Schema, path: Path)
    requires Flat(s)
    ensures MemberActs(rx, s, path) == [] && ItemActs(s, path) == [] && AlternativeActs(s, path) == []
  {
  }

  lemma NothingToDo(rx: Engine, s: Schema, path: Path)
    requires s.Schema? && KeywordIssues(rx, s, path) == []
    requires MemberActs(rx, s, path) == [] && ItemActs(s, path) == [] && AlternativeActs(s, path) == []
    ensures Acts(rx, s, path) == []
  {
  }

  lemma OnlyMultipleFinds(rx: Engine, n: int, m: int)
    requires m > 0
    ensures Node(rx, OnlyMultiple(m), JNumber(n), ARGUMENTS_ROOT, 0, 0).issues == [] <==> QuotientIsInteger(n, m)
  {
    var s := OnlyMultiple(m);
    assert Combinators(rx, s, JNumber(n), ARGUMENTS_ROOT, 0) == [];
    assert TypeFits(s, JNumber(n));
    assert ScalarIssues(rx, s, JNumber(n), ARGUMENTS_ROOT) == [] <==> !MultipleMissed(s, n);
  }

  lemma OnlyMultipleMeans(rx: Engine, n: int, m: int)
    requires m > 0
    ensures Satisfies(rx, OnlyMultiple(m), JNumber(n)) <==> exists q :: n == q * m
  {
    var s := OnlyMultiple(m);
    assert CombinedHolds(rx, s, JNumber(n));
    assert ScalarHolds(rx, s, JNumber(n)) <==> exists q :: n == q * m;
  }

  /** A schema that asks for multiples accepts a number that is none exactly where the division is not exact. */
  lemma NonMultipleAccepted(rx: Engine, n: int, m: int)
    requires m > 0
    ensures Findings(rx, OnlyMultiple(m), JNumber(n)) == [] && !Satisfies(rx, OnlyMultiple(m), JNumber(n)) <==>
              !DivisionExact(n, m)
  {
    OnlyMultipleIsUsable(rx, m);
    OnlyMultipleFinds(rx, n, m);
    OnlyMultipleMeans(rx, n, m);
    MultipleIff(n, m);
    DivisionExactIff(n, m);
  }

  lemma PowerOfTwoInexact(n: int, m: int)
    requires n == 0x1000_0000_0000_0000 && m == 3
    ensures !DivisionExact(n, m)
  {
    HugeQuotientPasses(n, m);
  }

  /** For one: 2 to the 60 passes for a multiple of 3. */
  lemma PowerOfTwoAccepted(rx: Engine, n: int, m: int)
    requires n == 0x1000_0000_0000_0000 && m == 3
    ensures Findings(rx, OnlyMultiple(m), JNumber(n)) == [] && !Satisfies(rx, OnlyMultiple(m), JNumber(n))
  {
    PowerOfTwoInexact(n, m);
    NonMultipleAccepted(rx, n, m);
  }
}
