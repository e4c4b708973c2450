/**
 * What a call reports after a successful inspection: never the validator's own nesting guard, and never a pattern that
 * does not compile. Findings inside `anyOf`, `oneOf` and `not` are not reported; that those branches do not run there
 * either is `SchemaUnguarded.GuardsAreDead`.
 */
module SchemaGuards {
  import opened Json
  import opened SchemaModel
  import opened SchemaTrace
  import opened SchemaSemantics

  predicate Dead(finding: Finding) {
    finding.NestingExceeded? || finding.PatternDoesNotCompile? || finding.PropertyPatternDoesNotCompile?
  }

  predicate NoneDead(issues: seq<Issue>) {
    forall issue :: issue in issues ==> !Dead(issue.finding)
  }

  lemma NoneDeadConcat(a: seq<Issue>, b: seq<Issue>)
    ensures NoneDead(a + b) <==> NoneDead(a) && NoneDead(b)
  {
  }

  lemma NumbersAlive(s: Schema, n: int, path: Path)
    requires s.Schema?
    ensures NoneDead(NumberIssues(s, n, path))
  {
    var low, high := Found(MinimumMissed(s, n), path, BelowMinimum), Found(MaximumMissed(s, n), path, AboveMaximum);
    var above, below := Found(ExclusiveMinimumMissed(s, n), path, NotAboveMinimum),
        Found(ExclusiveMaximumMissed(s, n), path, NotBelowMaximum);
    NoneDeadConcat(low, high);
    NoneDeadConcat(low + high, above);
    NoneDeadConcat(low + high + above, below);
    NoneDeadConcat(low + high + above + below, Found(MultipleMissed(s, n), path, NotMultiple));
  }

  lemma StringsAlive(rx: Engine, s: Schema, text: string, path: Path)
    requires s.Schema? && Compiles(rx, s)
    ensures NoneDead(StringIssues(rx, s, text, path))
  {
  }

  lemma ScalarsAlive(rx: Engine, s: Schema, v: Value, path: Path)
    requires s.Schema? && Compiles(rx, s)
    ensures NoneDead(ScalarIssues(rx, s, v, path))
  {
    if v.JNumber? {
      NumbersAlive(s, v.n, path);
    }
    if v.JString? {
      StringsAlive(rx, s, v.s, path);
    }
  }

  /** No reported finding of a usable schema is a dead one. */
  lemma {:induction false} DeadBranches(rx: Engine, s: Schema, v: Value, path: Path, depth: nat, nodes: nat)
    requires Usable(rx, s, depth)
    ensures NoneDead(Node(rx, s, v, path, depth, nodes).issues)
    decreases s, 4, 0
  {
    if nodes + 1 <= MAX_NODES {
      CombinatorsAlive(rx, s, v, path, depth);
      ScalarsAlive(rx, s, v, path);
      if v.JObject? {
        ObjectAlive(rx, s, v.members, path, depth, nodes + 1);
      }
      if v.JArray? {
        ArrayAlive(rx, s, v.items, path, depth, nodes + 1);
      }
    }
    NodeAlive(rx, s, v, path, depth, nodes);
  }

  /** A node adds nothing but what its parts add, and findings of its own that are not dead. */
  lemma NodeAlive(rx: Engine, s: Schema, v: Value, path: Path, depth: nat, nodes: nat)
    requires s.Schema? && depth <= MAX_DEPTH
    requires nodes + 1 <= MAX_NODES ==>
        NoneDead(Combinators(rx, s, v, path, depth))
        && NoneDead(ScalarIssues(rx, s, v, path))
    requires nodes + 1 <= MAX_NODES && v.JObject? ==> NoneDead(Object(rx, s, v.members, path, depth, nodes + 1).issues)
    requires nodes + 1 <= MAX_NODES && v.JArray? ==> NoneDead(Array(rx, s, v.items, path, depth, nodes + 1).issues)
    ensures NoneDead(Node(rx, s, v, path, depth, nodes).issues)
  {
  }

  lemma {:induction false} CombinatorsAlive(rx: Engine, s: Schema, v: Value, path: Path, depth: nat)
    requires Usable(rx, s, depth)
    ensures NoneDead(Combinators(rx, s, v, path, depth))
    decreases s, 3, 0
  {
    BranchesUsable(rx, s, depth);
    AllOfAlive(rx, s, BranchesOf(s.allOf), v, path, depth);
    CombinatorsShape(rx, s, v, path, depth);
  }

  lemma BranchesUsable(rx: Engine, s: Schema, depth: nat)
    requires Usable(rx, s, depth)
    ensures forall i :: 0 <= i < |BranchesOf(s.allOf)| ==>
        BranchesOf(s.allOf)[i] < s && Usable(rx, BranchesOf(s.allOf)[i], depth + 1)
  {
    ChildrenOf(s);
    assert forall i :: 0 <= i < |BranchesOf(s.allOf)| ==> BranchesOf(s.allOf)[i] in Children(s);
  }

  lemma CombinatorsShape(rx: Engine, s: Schema, v: Value, path: Path, depth: nat)
    requires s.Schema?
    requires NoneDead(AllOf(rx, s, BranchesOf(s.allOf), v, path, depth))
    ensures NoneDead(Combinators(rx, s, v, path, depth))
  {
  }

  lemma {:induction false} AllOfAlive(rx: Engine, parent: Schema, branches: seq<Schema>, v: Value, path: Path,
                                      depth: nat)
    requires forall i :: 0 <= i < |branches| ==> branches[i] < parent && Usable(rx, branches[i], depth + 1)
    ensures NoneDead(AllOf(rx, parent, branches, v, path, depth))
    decreases parent, 0, |branches|
  {
    if branches != [] {
      DeadBranches(rx, branches[0], v, path, depth + 1, 0);
      AllOfAlive(rx, parent, branches[1..], v, path, depth);
    }
  }

  lemma {:induction false} ObjectAlive(rx: Engine, s: Schema, members: seq<Field>, path: Path, depth: nat, nodes: nat)
    requires Usable(rx, s, depth)
    ensures NoneDead(Object(rx, s, members, path, depth, nodes).issues)
    decreases s, 3, 0
  {
    MembersAlive(rx, s, Visited(members, MAX_PROPERTIES), path, depth, nodes);
  }

  lemma {:induction false} MembersAlive(rx: Engine, s: Schema, members: seq<Field>, path: Path, depth: nat, nodes: nat)
    requires Usable(rx, s, depth)
    ensures NoneDead(Members(rx, s, members, path, depth, nodes).issues)
    decreases s, 2, |members|
  {
    if members != [] {
      MemberAlive(rx, s, members[0], path, depth, nodes);
      MembersAlive(rx, s, members[1..], path, depth, MemberTrace(rx, s, members[0], path, depth, nodes).nodes);
    }
  }

  lemma {:induction false} MemberAlive(rx: Engine, s: Schema, m: Field, path: Path, depth: nat, nodes: nat)
    requires Usable(rx, s, depth)
    ensures NoneDead(MemberTrace(rx, s, m, path, depth, nodes).issues)
    decreases s, 1, 0
  {
    ChildrenOf(s);
    var child := path + [Property(m.key)];
    var entries := EntriesOf(s.properties);
    var i := FindEntry(entries, m.key);
    if i >= 0 {
      assert entries[i] in entries;
      DeadBranches(rx, entries[i].schema, m.value, child, depth + 1, nodes);
    }
    var named := NamedTrace(rx, s, m, child, depth, nodes);
    var matching := MatchingEntries(rx, EntriesOf(s.patternProperties), m.key);
    PatternsAlive(rx, s, matching, m.value, child, depth, named.nodes);
    var matched := Patterns(rx, s, matching, m.value, child, depth, named.nodes);
    ExtraAlive(rx, s, m, child, depth, matched.nodes);
  }

  lemma {:induction false} ExtraAlive(rx: Engine, s: Schema, m: Field, child: Path, depth: nat, nodes: nat)
    requires Usable(rx, s, depth)
    ensures NoneDead(ExtraTrace(rx, s, m, child, depth, nodes).issues)
    decreases s, 0, 0
  {
    ChildrenOf(s);
    var rule := ExtraRule(s.additionalProperties);
    if rule.Check? {
      DeadBranches(rx, rule.schema, m.value, child, depth + 1, nodes);
    }
  }

  lemma {:induction false} PatternsAlive(rx: Engine, parent: Schema, entries: seq<Named>, v: Value, child: Path,
                                         depth: nat, nodes: nat)
    requires forall e :: e in entries ==> e.schema < parent && Usable(rx, e.schema, depth + 1)
    ensures NoneDead(Patterns(rx, parent, entries, v, child, depth, nodes).issues)
    decreases parent, 0, |entries|
  {
    if entries != [] {
      DeadBranches(rx, entries[0].schema, v, child, depth + 1, nodes);
      PatternsAlive(rx, parent, entries[1..], v, child, depth,
                    Node(rx, entries[0].schema, v, child, depth + 1, nodes).nodes);
    }
  }

  lemma {:induction false} ArrayAlive(rx: Engine, s: Schema, items: seq<Value>, path: Path, depth: nat, nodes: nat)
    requires Usable(rx, s, depth)
    ensures NoneDead(Array(rx, s, items, path, depth, nodes).issues)
    decreases s, 3, 0
  {
    ItemsAlive(rx, s, Visited(items, MAX_ITEMS), 0, path, depth, nodes);
  }

  lemma {:induction false} ItemsAlive(rx: Engine, s: Schema, items: seq<Value>, index: nat, path: Path, depth: nat,
                                      nodes: nat)
    requires Usable(rx, s, depth)
    ensures NoneDead(ItemsFrom(rx, s, items, index, path, depth, nodes).issues)
    decreases s, 2, |items|
  {
    if items != [] {
      ItemAlive(rx, s, items[0], index, path, depth, nodes);
      ItemsAlive(rx, s, items[1..], index + 1, path, depth,
                 ItemTrace(rx, s, items[0], index, path, depth, nodes).nodes);
    }
  }

  lemma {:induction false} ItemAlive(rx: Engine, s: Schema, v: Value, index: nat, path: Path, depth: nat, nodes: nat)
    requires Usable(rx, s, depth)
    ensures NoneDead(ItemTrace(rx, s, v, index, path, depth, nodes).issues)
    decreases s, 1, 0
  {
    var rule := ItemRule(s, index);
    if rule.Check? {
      RuleIsChild(s, index);
      DeadBranches(rx, rule.schema, v, path + [Index(index)], depth + 1, nodes);
    }
  }
}
