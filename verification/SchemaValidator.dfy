/**
 * The validator as it runs: one shared collector that keeps eight issues, one shared node counter. Every method is
 * proved to record exactly what the uncapped traversal of SchemaTrace finds.
 */
module SchemaValidator {
  import opened Wrappers
  import opened Sequences
  import opened Json
  import opened SchemaModel
  import opened SchemaTrace
  import opened IssueCollection

  method AddTypeIssue(s: Schema, v: Value, path: Path, issues: IssueCollector) returns (fits: bool)
    requires s.Schema? && issues.Valid()
    modifies issues
    ensures issues.Valid() && fits == TypeFits(s, v)
    ensures Appends(old(issues.View()), Found(!fits, path, TypeMismatch), issues.View())
  {
    fits := TypeFits(s, v);
    issues.AddWhen(!fits, path, TypeMismatch);
  }

  method AddStringConstraints(rx: Engine, s: Schema, text: string, path: Path, issues: IssueCollector)
    requires s.Schema? && issues.Valid()
    modifies issues
    ensures issues.Valid() && Appends(old(issues.View()), StringIssues(rx, s, text, path), issues.View())
  {
    ghost var before := issues.View();
    issues.AddWhen(s.minLength.CountOf? && |text| < s.minLength.n, path, TooShort);
    ghost var short := Found(s.minLength.CountOf? && |text| < s.minLength.n, path, TooShort);
    ghost var first := issues.View();
    issues.AddWhen(s.maxLength.CountOf? && |text| > s.maxLength.n, path, TooLong);
    ghost var long := Found(s.maxLength.CountOf? && |text| > s.maxLength.n, path, TooLong);
    ghost var second := issues.View();
    AppendsThen(before, short, first, long, second);
    ghost var last := [];
    AppendsNothing(second);
    if s.pattern.Regex? {
      if !rx.compiles(s.pattern.text) {
        issues.Add(path, PatternDoesNotCompile);
        last := [Issue(path, PatternDoesNotCompile)];
      } else {
        issues.AddWhen(!rx.finds(s.pattern.text, text), path, NoMatch);
        last := Found(!rx.finds(s.pattern.text, text), path, NoMatch);
      }
    }
    AppendsThen(before, short + long, second, last, issues.View());
  }

  method AddNumberConstraints(s: Schema, n: int, path: Path, issues: IssueCollector)
    requires s.Schema? && issues.Valid()
    modifies issues
    ensures issues.Valid() && Appends(old(issues.View()), NumberIssues(s, n, path), issues.View())
  {
    ghost var before := issues.View();
    issues.AddWhen(MinimumMissed(s, n), path, BelowMinimum);
    ghost var low, first := Found(MinimumMissed(s, n), path, BelowMinimum), issues.View();
    issues.AddWhen(MaximumMissed(s, n), path, AboveMaximum);
    ghost var high, second := Found(MaximumMissed(s, n), path, AboveMaximum), issues.View();
    AppendsThen(before, low, first, high, second);
    issues.AddWhen(ExclusiveMinimumMissed(s, n), path, NotAboveMinimum);
    ghost var above, third := Found(ExclusiveMinimumMissed(s, n), path, NotAboveMinimum), issues.View();
    AppendsThen(before, low + high, second, above, third);
    issues.AddWhen(ExclusiveMaximumMissed(s, n), path, NotBelowMaximum);
    ghost var below, fourth := Found(ExclusiveMaximumMissed(s, n), path, NotBelowMaximum), issues.View();
    AppendsThen(before, low + high + above, third, below, fourth);
    issues.AddWhen(MultipleMissed(s, n), path, NotMultiple);
    AppendsThen(before, low + high + above + below, fourth, Found(MultipleMissed(s, n), path, NotMultiple),
                issues.View());
  }

  method AddScalarConstraints(rx: Engine, s: Schema, v: Value, path: Path, issues: IssueCollector)
    requires s.Schema? && issues.Valid()
    modifies issues
    ensures issues.Valid() && Appends(old(issues.View()), ScalarIssues(rx, s, v, path), issues.View())
  {
    ghost var before := issues.View();
    issues.AddWhen(EnumMissed(s, v), path, NotAllowedValue);
    ghost var choice, first := Found(EnumMissed(s, v), path, NotAllowedValue), issues.View();
    issues.AddWhen(ConstantMissed(s, v), path, NotConstant);
    ghost var constant, second := Found(ConstantMissed(s, v), path, NotConstant), issues.View();
    AppendsThen(before, choice, first, constant, second);
    ghost var last := [];
    AppendsNothing(second);
    if v.JString? {
      AddStringConstraints(rx, s, v.s, path, issues);
      last := StringIssues(rx, s, v.s, path);
    } else if v.JNumber? {
      AddNumberConstraints(s, v.n, path, issues);
      last := NumberIssues(s, v.n, path);
    }
    AppendsThen(before, choice + constant, second, last, issues.View());
  }

  // ----- Objects -----

  /** The patterns that apply to a key; one that does not compile is an issue and applies to nothing. */
  method SelectPatterns(rx: Engine, entries: seq<Named>, key: string, child: Path, issues: IssueCollector)
      returns (matching: seq<Named>)
    requires issues.Valid()
    modifies issues
    ensures issues.Valid() && matching == MatchingEntries(rx, entries, key)
    ensures Appends(old(issues.View()), UncompiledIssues(rx, entries, child), issues.View())
  {
    ghost var before, done := issues.View(), [];
    matching := [];
    AppendsNothing(before);
    for i := 0 to |entries|
      invariant issues.Valid() && Appends(before, done, issues.View())
      invariant UncompiledIssues(rx, entries, child) == done + UncompiledIssues(rx, entries[i..], child)
      invariant MatchingEntries(rx, entries, key) == matching + MatchingEntries(rx, entries[i..], key)
    {
      ghost var middle := issues.View();
      ghost var added := Found(!rx.compiles(entries[i].name), child, PropertyPatternDoesNotCompile);
      PatternStep(rx, entries, i, key, child);
      issues.AddWhen(!rx.compiles(entries[i].name), child, PropertyPatternDoesNotCompile);
      AppendsStep(before, UncompiledIssues(rx, entries, child), done, middle, added,
                  UncompiledIssues(rx, entries[i + 1..], child), issues.View());
      done := done + added;
      var chosen := if Applies(rx, entries[i], key) then [entries[i]] else [];
      Regroup(MatchingEntries(rx, entries, key), matching, chosen, MatchingEntries(rx, entries[i + 1..], key));
      matching := matching + chosen;
    }
    assert entries[|entries|..] == [];
  }

  lemma PatternStep(rx: Engine, entries: seq<Named>, i: nat, key: string, child: Path)
    requires i < |entries|
    ensures UncompiledIssues(rx, entries[i..], child) ==
              Found(!rx.compiles(entries[i].name), child, PropertyPatternDoesNotCompile)
                + UncompiledIssues(rx, entries[i + 1..], child)
    ensures MatchingEntries(rx, entries[i..], key) ==
              (if Applies(rx, entries[i], key) then [entries[i]] else []) + MatchingEntries(rx, entries[i + 1..], key)
  {
    assert entries[i..][0] == entries[i] && entries[i..][1..] == entries[i + 1..];
  }

  method ValidateMatching(rx: Engine, parent: Schema, entries: seq<Named>, v: Value, child: Path, depth: nat,
                          state: ValidationState, issues: IssueCollector)
    requires issues.Valid() && forall e :: e in entries ==> e.schema < parent
    modifies issues, state
    ensures issues.Valid()
    ensures Records(old(issues.View()), Patterns(rx, parent, entries, v, child, depth, old(state.nodes)), issues.View(),
                    state.nodes)
    decreases parent, 0
  {
    ghost var before, start, done := issues.View(), state.nodes, Trace([], state.nodes);
    AppendsNothing(before);
    for i := 0 to |entries|
      invariant issues.Valid() && Records(before, done, issues.View(), state.nodes)
      invariant Patterns(rx, parent, entries, v, child, depth, start)
          == Then(done, Patterns(rx, parent, entries[i..], v, child, depth, done.nodes))
    {
      ghost var middle, now := issues.View(), state.nodes;
      assert entries[i..][0] == entries[i] && entries[i..][1..] == entries[i + 1..];
      ValidateNode(rx, entries[i].schema, v, child, depth + 1, state, issues);
      ghost var exact := Node(rx, entries[i].schema, v, child, depth + 1, done.nodes);
      RecordsThen(before, done, middle, Node(rx, entries[i].schema, v, child, depth + 1, now), exact, issues.View(),
                  state.nodes);
      ThenAssociates(done, exact, Patterns(rx, parent, entries[i + 1..], v, child, depth, exact.nodes));
      done := Then(done, exact);
    }
    assert entries[|entries|..] == [];
  }

  method ValidateNamed(rx: Engine, s: Schema, m: Field, child: Path, depth: nat, state: ValidationState,
                       issues: IssueCollector)
    returns (found: bool)
    requires s.Schema? && issues.Valid()
    modifies issues, state
    ensures issues.Valid() && found == (FindEntry(EntriesOf(s.properties), m.key) >= 0)
    ensures Records(old(issues.View()), NamedTrace(rx, s, m, child, depth, old(state.nodes)), issues.View(),
                    state.nodes)
    decreases s, 0
  {
    var entries := EntriesOf(s.properties);
    var i := FindEntry(entries, m.key);
    found := i >= 0;
    AppendsNothing(issues.View());
    if found {
      ValidateNode(rx, entries[i].schema, m.value, child, depth + 1, state, issues);
    }
  }

  method ValidateExtra(rx: Engine, s: Schema, m: Field, child: Path, depth: nat, state: ValidationState,
                       issues: IssueCollector)
    requires s.Schema? && issues.Valid() && !Claimed(rx, s, m.key)
    modifies issues, state
    ensures issues.Valid()
    ensures Records(old(issues.View()), ExtraTrace(rx, s, m, child, depth, old(state.nodes)), issues.View(),
                    state.nodes)
    decreases s, 0
  {
    AppendsNothing(issues.View());
    if s.additionalProperties == Allow(false) {
      issues.Add(child, PropertyNotAllowed);
    } else if s.additionalProperties.Matching? && s.additionalProperties.schema.Schema? {
      ValidateNode(rx, s.additionalProperties.schema, m.value, child, depth + 1, state, issues);
    }
  }

  method ValidateMember(rx: Engine, s: Schema, m: Field, path: Path, depth: nat, state: ValidationState,
                        issues: IssueCollector)
    requires s.Schema? && issues.Valid()
    modifies issues, state
    ensures issues.Valid()
    ensures Records(old(issues.View()), MemberTrace(rx, s, m, path, depth, old(state.nodes)), issues.View(),
                    state.nodes)
    decreases s, 1
  {
    ghost var before, start := issues.View(), state.nodes;
    var child := path + [Property(m.key)];
    var found := ValidateNamed(rx, s, m, child, depth, state, issues);
    ghost var named, first, firstNodes := NamedTrace(rx, s, m, child, depth, start), issues.View(), state.nodes;
    var patterns := EntriesOf(s.patternProperties);
    var matching := SelectPatterns(rx, patterns, m.key, child, issues);
    ghost var head := Trace(named.issues + UncompiledIssues(rx, patterns, child), named.nodes);
    ghost var second := issues.View();
    AppendsThen(before, named.issues, first, UncompiledIssues(rx, patterns, child), second);
    ValidateMatching(rx, s, matching, m.value, child, depth, state, issues);
    ghost var matched := Patterns(rx, s, matching, m.value, child, depth, named.nodes);
    ghost var third, thirdNodes := issues.View(), state.nodes;
    RecordsThen(before, head, second, Patterns(rx, s, matching, m.value, child, depth, firstNodes), matched, third,
                thirdNodes);
    ghost var extra := ExtraTrace(rx, s, m, child, depth, matched.nodes);
    AppendsNothing(third);
    if !found && matching == [] {
      ValidateExtra(rx, s, m, child, depth, state, issues);
    }
    RecordsThen(before, Then(head, matched), third, ExtraTrace(rx, s, m, child, depth, thirdNodes), extra,
                issues.View(), state.nodes);
  }

  method RequireNames(names: seq<string>, members: seq<Field>, path: Path, issues: IssueCollector)
    requires issues.Valid()
    modifies issues
    ensures issues.Valid() && Appends(old(issues.View()), MissingIssues(names, members, path), issues.View())
  {
    ghost var before, done := issues.View(), [];
    AppendsNothing(before);
    for i := 0 to |names|
      invariant issues.Valid() && Appends(before, done, issues.View())
      invariant MissingIssues(names, members, path) == done + MissingIssues(names[i..], members, path)
    {
      ghost var middle := issues.View();
      ghost var added := Found(Lookup(members, names[i]) < 0, path + [Property(names[i])], PropertyRequired);
      assert names[i..][0] == names[i] && names[i..][1..] == names[i + 1..];
      assert MissingIssues(names[i..], members, path) == added + MissingIssues(names[i + 1..], members, path);
      issues.AddWhen(Lookup(members, names[i]) < 0, path + [Property(names[i])], PropertyRequired);
      AppendsStep(before, MissingIssues(names, members, path), done, middle, added,
                  MissingIssues(names[i + 1..], members, path), issues.View());
      done := done + added;
    }
    assert names[|names|..] == [];
  }

  method CheckPropertyCount(s: Schema, count: nat, path: Path, issues: IssueCollector)
    requires s.Schema? && issues.Valid()
    modifies issues
    ensures issues.Valid() && Appends(old(issues.View()), ObjectHead(s, count, path), issues.View())
  {
    ghost var before := issues.View();
    var few := s.minProperties.CountOf? && count < s.minProperties.n;
    var many := s.maxProperties.CountOf? && count > s.maxProperties.n;
    issues.AddWhen(few, path, TooFewProperties);
    ghost var first := issues.View();
    issues.AddWhen(many, path, TooManyPropertiesDeclared);
    ghost var second := issues.View();
    AppendsThen(before, Found(few, path, TooFewProperties), first, Found(many, path, TooManyPropertiesDeclared),
                second);
    issues.AddWhen(count > MAX_PROPERTIES, path, TooManyProperties);
    AppendsThen(before, Found(few, path, TooFewProperties) + Found(many, path, TooManyPropertiesDeclared), second,
                Found(count > MAX_PROPERTIES, path, TooManyProperties), issues.View());
  }

  method VisitMembers(rx: Engine, s: Schema, visited: seq<Field>, path: Path, depth: nat, state: ValidationState,
                      issues: IssueCollector)
    requires s.Schema? && issues.Valid()
    modifies issues, state
    ensures issues.Valid()
    ensures Records(old(issues.View()), Members(rx, s, visited, path, depth, old(state.nodes)), issues.View(),
                    state.nodes)
    decreases s, 2
  {
    ghost var before, done := issues.View(), Trace([], state.nodes);
    ghost var whole := Members(rx, s, visited, path, depth, state.nodes);
    AppendsNothing(before);
    for i := 0 to |visited|
      invariant issues.Valid() && Records(before, done, issues.View(), state.nodes)
      invariant whole == Then(done, Members(rx, s, visited[i..], path, depth, done.nodes))
    {
      ghost var middle, now := issues.View(), state.nodes;
      assert visited[i..][0] == visited[i] && visited[i..][1..] == visited[i + 1..];
      ValidateMember(rx, s, visited[i], path, depth, state, issues);
      ghost var exact := MemberTrace(rx, s, visited[i], path, depth, done.nodes);
      RecordsThen(before, done, middle, MemberTrace(rx, s, visited[i], path, depth, now), exact, issues.View(),
                  state.nodes);
      ThenAssociates(done, exact, Members(rx, s, visited[i + 1..], path, depth, exact.nodes));
      done := Then(done, exact);
    }
    assert visited[|visited|..] == [];
  }

  method ValidateObject(rx: Engine, s: Schema, members: seq<Field>, path: Path, depth: nat, state: ValidationState,
                        issues: IssueCollector)
    requires s.Schema? && issues.Valid()
    modifies issues, state
    ensures issues.Valid()
    ensures Records(old(issues.View()), Object(rx, s, members, path, depth, old(state.nodes)), issues.View(),
                    state.nodes)
    decreases s, 3
  {
    ghost var before, start := issues.View(), state.nodes;
    CheckPropertyCount(s, |members|, path, issues);
    ghost var head, first := ObjectHead(s, |members|, path), issues.View();
    var visited := Visited(members, MAX_PROPERTIES);
    VisitMembers(rx, s, visited, path, depth, state, issues);
    ghost var inside, second := Members(rx, s, visited, path, depth, start).issues, issues.View();
    AppendsThen(before, head, first, inside, second);
    RequireNames(NamesOf(s.required), members, path, issues);
    AppendsThen(before, head + inside, second, MissingIssues(NamesOf(s.required), members, path), issues.View());
  }

  // ----- Arrays -----

  method CheckItemCount(s: Schema, count: nat, path: Path, issues: IssueCollector)
    requires s.Schema? && issues.Valid()
    modifies issues
    ensures issues.Valid() && Appends(old(issues.View()), ArrayHead(s, count, path), issues.View())
  {
    ghost var before := issues.View();
    var few, many := s.minItems.CountOf? && count < s.minItems.n, s.maxItems.CountOf? && count > s.maxItems.n;
    issues.AddWhen(few, path, TooFewItems);
    ghost var first := issues.View();
    issues.AddWhen(many, path, TooManyItemsDeclared);
    ghost var second := issues.View();
    AppendsThen(before, Found(few, path, TooFewItems), first, Found(many, path, TooManyItemsDeclared), second);
    issues.AddWhen(count > MAX_ITEMS, path, TooManyItems);
    AppendsThen(before, Found(few, path, TooFewItems) + Found(many, path, TooManyItemsDeclared), second,
                Found(count > MAX_ITEMS, path, TooManyItems), issues.View());
  }

  method ValidateItem(rx: Engine, s: Schema, v: Value, index: nat, path: Path, depth: nat, state: ValidationState,
                      issues: IssueCollector)
    requires s.Schema? && issues.Valid()
    modifies issues, state
    ensures issues.Valid()
    ensures Records(old(issues.View()), ItemTrace(rx, s, v, index, path, depth, old(state.nodes)), issues.View(),
                    state.nodes)
    decreases s, 0
  {
    AppendsNothing(issues.View());
    var child := path + [Index(index)];
    match s.items
    case NoItems =>
    case Each(schema) =>
      if schema.Schema? {
        ValidateNode(rx, schema, v, child, depth + 1, state, issues);
      }
    case Positional(schemas) =>
      if index < |schemas| {
        ValidateNode(rx, schemas[index], v, child, depth + 1, state, issues);
      } else if s.additionalItems == Allow(false) {
        issues.Add(child, ItemNotAllowed);
      } else if s.additionalItems.Matching? && s.additionalItems.schema.Schema? {
        ValidateNode(rx, s.additionalItems.schema, v, child, depth + 1, state, issues);
      }
  }

  method ValidateArray(rx: Engine, s: Schema, items: seq<Value>, path: Path, depth: nat, state: ValidationState,
                       issues: IssueCollector)
    requires s.Schema? && issues.Valid()
    modifies issues, state
    ensures issues.Valid()
    ensures Records(old(issues.View()), Array(rx, s, items, path, depth, old(state.nodes)), issues.View(), state.nodes)
    decreases s, 2
  {
    ghost var before, start := issues.View(), state.nodes;
    CheckItemCount(s, |items|, path, issues);
    ghost var done := Trace(ArrayHead(s, |items|, path), start);
    var visited := Visited(items, MAX_ITEMS);
    ghost var whole := Then(done, ItemsFrom(rx, s, visited, 0, path, depth, start));
    for i := 0 to |visited|
      invariant issues.Valid() && Records(before, done, issues.View(), state.nodes)
      invariant whole == Then(done, ItemsFrom(rx, s, visited[i..], i, path, depth, done.nodes))
    {
      ghost var middle, now := issues.View(), state.nodes;
      assert visited[i..][0] == visited[i] && visited[i..][1..] == visited[i + 1..];
      ValidateItem(rx, s, visited[i], i, path, depth, state, issues);
      ghost var exact := ItemTrace(rx, s, visited[i], i, path, depth, done.nodes);
      RecordsThen(before, done, middle, ItemTrace(rx, s, visited[i], i, path, depth, now), exact, issues.View(),
                  state.nodes);
      ThenAssociates(done, exact, ItemsFrom(rx, s, visited[i + 1..], i + 1, path, depth, exact.nodes));
      done := Then(done, exact);
    }
    assert visited[|visited|..] == [];
  }

  // ----- Alternatives -----

  /** Whether a branch finds nothing, on a collector and a counter of its own. */
  method BranchIsClean(rx: Engine, s: Schema, v: Value, path: Path, depth: nat) returns (clean: bool)
    ensures clean <==> Node(rx, s, v, path, depth, 0).issues == []
    decreases s, 5
  {
    var collector := new IssueCollector();
    var state := new ValidationState();
    ValidateNode(rx, s, v, path, depth, state, collector);
    clean := collector.issues == [];
  }

  method CountValid(rx: Engine, parent: Schema, branches: seq<Schema>, v: Value, path: Path, depth: nat)
      returns (count: nat)
    requires forall i :: 0 <= i < |branches| ==> branches[i] < parent
    ensures count == Valid(rx, parent, branches, v, path, depth)
    decreases parent, 0
  {
    count := 0;
    for i := 0 to |branches|
      invariant Valid(rx, parent, branches, v, path, depth) == count + Valid(rx, parent, branches[i..], v, path, depth)
    {
      assert branches[i..][0] == branches[i] && branches[i..][1..] == branches[i + 1..];
      var clean := BranchIsClean(rx, branches[i], v, path, depth + 1);
      count := count + if clean then 1 else 0;
    }
    assert branches[|branches|..] == [];
  }

  /** One branch of `allOf`: its own counter, the shared collector. */
  method ValidateBranch(rx: Engine, s: Schema, v: Value, path: Path, depth: nat, issues: IssueCollector)
    requires issues.Valid()
    modifies issues
    ensures issues.Valid() && Appends(old(issues.View()), Node(rx, s, v, path, depth, 0).issues, issues.View())
    decreases s, 5
  {
    var state := new ValidationState();
    ValidateNode(rx, s, v, path, depth, state, issues);
  }

  method ValidateAll(rx: Engine, parent: Schema, branches: seq<Schema>, v: Value, path: Path, depth: nat,
                     issues: IssueCollector)
    requires issues.Valid() && forall i :: 0 <= i < |branches| ==> branches[i] < parent
    modifies issues
    ensures issues.Valid() && Appends(old(issues.View()), AllOf(rx, parent, branches, v, path, depth), issues.View())
    decreases parent, 0
  {
    ghost var before, done := issues.View(), [];
    AppendsNothing(before);
    for i := 0 to |branches|
      invariant issues.Valid() && Appends(before, done, issues.View())
      invariant AllOf(rx, parent, branches, v, path, depth) == done + AllOf(rx, parent, branches[i..], v, path, depth)
    {
      done := ValidateNext(rx, parent, branches, i, v, path, depth, before, done, issues);
    }
    assert branches[|branches|..] == [];
  }

  method ValidateNext(rx: Engine, ghost parent: Schema, branches: seq<Schema>, i: nat, v: Value, path: Path, depth: nat,
                      ghost before: Tally, ghost done: seq<Issue>, issues: IssueCollector)
                        returns (ghost next: seq<Issue>)
    requires i < |branches| && forall i :: 0 <= i < |branches| ==> branches[i] < parent
    requires issues.Valid() && Capped(before) && Appends(before, done, issues.View())
    requires AllOf(rx, parent, branches, v, path, depth) == done + AllOf(rx, parent, branches[i..], v, path, depth)
    modifies issues
    ensures issues.Valid() && Appends(before, next, issues.View())
    ensures AllOf(rx, parent, branches, v, path, depth) == next + AllOf(rx, parent, branches[i + 1..], v, path, depth)
    decreases parent, 0, 0
  {
    ghost var middle := issues.View();
    ValidateBranch(rx, branches[i], v, path, depth + 1, issues);
    next := AllOfRecords(rx, parent, branches, i, v, path, depth, before, done, middle, issues.View());
  }

  lemma AllOfRecords(rx: Engine, parent: Schema, branches: seq<Schema>, i: nat, v: Value, path: Path, depth: nat,
                     before: Tally, done: seq<Issue>, middle: Tally, after: Tally) returns (next: seq<Issue>)
    requires i < |branches| && forall i :: 0 <= i < |branches| ==> branches[i] < parent
    requires Capped(before) && Appends(before, done, middle)
    requires Appends(middle, Node(rx, branches[i], v, path, depth + 1, 0).issues, after)
    requires AllOf(rx, parent, branches, v, path, depth) == done + AllOf(rx, parent, branches[i..], v, path, depth)
    ensures Appends(before, next, after)
    ensures AllOf(rx, parent, branches, v, path, depth) == next + AllOf(rx, parent, branches[i + 1..], v, path, depth)
  {
    var added := Node(rx, branches[i], v, path, depth + 1, 0).issues;
    next := done + added;
    AllOfStep(rx, parent, branches, i, v, path, depth);
    AppendsStep(before, AllOf(rx, parent, branches, v, path, depth), done, middle, added,
                AllOf(rx, parent, branches[i + 1..], v, path, depth), after);
  }

  lemma AllOfStep(rx: Engine, parent: Schema, branches: seq<Schema>, i: nat, v: Value, path: Path, depth: nat)
    requires i < |branches| && forall i :: 0 <= i < |branches| ==> branches[i] < parent
    ensures AllOf(rx, parent, branches[i..], v, path, depth) ==
              Node(rx, branches[i], v, path, depth + 1, 0).issues + AllOf(rx, parent, branches[i + 1..], v, path, depth)
  {
    assert branches[i..][0] == branches[i] && branches[i..][1..] == branches[i + 1..];
  }

  /** Both counting combinators and the negation, on the value itself. */
  method JudgeAlternatives(rx: Engine, s: Schema, v: Value, path: Path, depth: nat)
      returns (noneOfAny: bool, notOne: bool, forbidden: bool)
    requires s.Schema?
    ensures noneOfAny <==> s.anyOf.Branches? && Valid(rx, s, BranchesOf(s.anyOf), v, path, depth) == 0
    ensures notOne <==> s.oneOf.Branches? && Valid(rx, s, BranchesOf(s.oneOf), v, path, depth) != 1
    ensures forbidden <==> s.negated.Some? && Node(rx, s.negated.value, v, path, depth + 1, 0).issues == []
    decreases s, 1
  {
    noneOfAny, notOne, forbidden := false, false, false;
    if s.anyOf.Branches? {
      var count := CountValid(rx, s, s.anyOf.branches, v, path, depth);
      noneOfAny := count == 0;
    }
    if s.oneOf.Branches? {
      var count := CountValid(rx, s, s.oneOf.branches, v, path, depth);
      notOne := count != 1;
    }
    if s.negated.Some? {
      forbidden := BranchIsClean(rx, s.negated.value, v, path, depth + 1);
    }
  }

  method ValidateCombinators(rx: Engine, s: Schema, v: Value, path: Path, depth: nat, issues: IssueCollector)
    requires s.Schema? && issues.Valid()
    modifies issues
    ensures issues.Valid() && Appends(old(issues.View()), Combinators(rx, s, v, path, depth), issues.View())
    decreases s, 2
  {
    ghost var before := issues.View();
    ValidateAll(rx, s, BranchesOf(s.allOf), v, path, depth, issues);
    ghost var all, first := AllOf(rx, s, BranchesOf(s.allOf), v, path, depth), issues.View();
    var noneOfAny, notOne, forbidden := JudgeAlternatives(rx, s, v, path, depth);
    issues.AddWhen(noneOfAny, path, NoBranchMatches);
    ghost var any, second := Found(noneOfAny, path, NoBranchMatches), issues.View();
    AppendsThen(before, all, first, any, second);
    issues.AddWhen(notOne, path, NotExactlyOneBranch);
    ghost var one, third := Found(notOne, path, NotExactlyOneBranch), issues.View();
    AppendsThen(before, all + any, second, one, third);
    issues.AddWhen(forbidden, path, ForbiddenMatch);
    AppendsThen(before, all + any + one, third, Found(forbidden, path, ForbiddenMatch), issues.View());
  }

  // ----- One node -----

  method ValidateNode(rx: Engine, s: Schema, v: Value, path: Path, depth: nat, state: ValidationState,
                      issues: IssueCollector)
    requires issues.Valid()
    modifies issues, state
    ensures issues.Valid()
    ensures Records(old(issues.View()), Node(rx, s, v, path, depth, old(state.nodes)), issues.View(), state.nodes)
    decreases s, 4
  {
    ghost var before := issues.View();
    AppendsNothing(before);
    if |issues.issues| >= MAX_ISSUES {
      issues.truncated := true;
      AppendsAny(issues.View(), [], Node(rx, s, v, path, depth, state.nodes).issues, issues.View());
      return;
    }
    if depth > MAX_DEPTH {
      issues.Add(path, NestingExceeded);
      return;
    }
    state.nodes := state.nodes + 1;
    if state.nodes > MAX_NODES {
      issues.Add(path, NodesExceeded);
      return;
    }
    if s.NotAnObject? {
      return;
    }
    ValidateCounted(rx, s, v, path, depth, state, issues);
  }

  /** What follows the guards of a node. */
  method ValidateCounted(rx: Engine, s: Schema, v: Value, path: Path, depth: nat, state: ValidationState,
                         issues: IssueCollector)
    requires issues.Valid() && s.Schema? && depth <= MAX_DEPTH && 1 <= state.nodes <= MAX_NODES
    modifies issues, state
    ensures issues.Valid()
    ensures Records(old(issues.View()), Node(rx, s, v, path, depth, old(state.nodes) - 1), issues.View(), state.nodes)
    decreases s, 4, 0
  {
    ghost var before := issues.View();
    AppendsNothing(before);
    ValidateCombinators(rx, s, v, path, depth, issues);
    ghost var combined, first := Combinators(rx, s, v, path, depth), issues.View();
    var fits := AddTypeIssue(s, v, path, issues);
    AppendsThen(before, combined, first, Found(!fits, path, TypeMismatch), issues.View());
    if !fits {
      return;
    }
    assert combined + [] == combined;
    ghost var second := issues.View();
    AddScalarConstraints(rx, s, v, path, issues);
    ghost var head, third, now := combined + ScalarIssues(rx, s, v, path), issues.View(), state.nodes;
    AppendsThen(before, combined, second, ScalarIssues(rx, s, v, path), third);
    match v
    case JObject(members) =>
      ValidateObject(rx, s, members, path, depth, state, issues);
      AppendsThen(before, head, third, Object(rx, s, members, path, depth, now).issues, issues.View());
    case JArray(items) =>
      ValidateArray(rx, s, items, path, depth, state, issues);
      AppendsThen(before, head, third, Array(rx, s, items, path, depth, now).issues, issues.View());
    case _ =>
  }
}
