/**
 * The traversal written without the nesting guard and without any check that a pattern compiles. For a schema that
 * passes inspection it is the validator's traversal, at every node and inside every private branch: those two branches
 * of the code are dead.
 */
module SchemaUnguarded {
  import opened Wrappers
  import opened Json
  import opened SchemaModel
  import opened SchemaTrace
  import opened SchemaSemantics

  // ----- The traversal without the two checks -----

  function BareStringIssues(rx: Engine, s: Schema, text: string, path: Path): seq<Issue>
    requires s.Schema?
  {
    Found(s.minLength.CountOf? && |text| < s.minLength.n, path, TooShort)
    + Found(s.maxLength.CountOf? && |text| > s.maxLength.n, path, TooLong)
    + Found(s.pattern.Regex? && !rx.finds(s.pattern.text, text), path, NoMatch)
  }

  function BareScalarIssues(rx: Engine, s: Schema, v: Value, path: Path): seq<Issue>
    requires s.Schema?
  {
    Found(EnumMissed(s, v), path, NotAllowedValue)
    + Found(ConstantMissed(s, v), path, NotConstant)
    + (match v
       case JString(text) => BareStringIssues(rx, s, text, path)
       case JNumber(n) => NumberIssues(s, n, path)
       case _ => [])
  }

  function BareMatching(rx: Engine, entries: seq<Named>, key: string): (r: seq<Named>)
    ensures forall e :: e in r ==> e in entries
    ensures |r| <= |entries|
  {
    if entries == [] then []
    else (if rx.finds(entries[0].name, key) then [entries[0]] else []) + BareMatching(rx, entries[1..], key)
  }

  function BareNode(rx: Engine, s: Schema, v: Value, path: Path, nodes: nat): Trace
    decreases s, 4, 0
  {
    if nodes + 1 > MAX_NODES then Trace([Issue(path, NodesExceeded)], nodes + 1)
    else if s.NotAnObject? then Trace([], nodes + 1)
    else
      var combined := BareCombinators(rx, s, v, path);
      if !TypeFits(s, v) then Trace(combined + [Issue(path, TypeMismatch)], nodes + 1)
      else
        var head := combined + BareScalarIssues(rx, s, v, path);
        match v
        case JObject(members) =>
          var t := BareObject(rx, s, members, path, nodes + 1);
          Trace(head + t.issues, t.nodes)
        case JArray(items) =>
          var t := BareArray(rx, s, items, path, nodes + 1);
          Trace(head + t.issues, t.nodes)
        case _ => Trace(head, nodes + 1)
  }

  function BareCombinators(rx: Engine, s: Schema, v: Value, path: Path): seq<Issue>
    requires s.Schema?
    decreases s, 3, 0
  {
    BareAllOf(rx, s, BranchesOf(s.allOf), v, path)
    + Found(s.anyOf.Branches? && BareValid(rx, s, BranchesOf(s.anyOf), v, path) == 0, path, NoBranchMatches)
    + Found(s.oneOf.Branches? && BareValid(rx, s, BranchesOf(s.oneOf), v, path) != 1, path, NotExactlyOneBranch)
    + Found(s.negated.Some? && BareNode(rx, s.negated.value, v, path, 0).issues == [], path, ForbiddenMatch)
  }

  function BareAllOf(rx: Engine, parent: Schema, branches: seq<Schema>, v: Value, path: Path): seq<Issue>
    requires forall i :: 0 <= i < |branches| ==> branches[i] < parent
    decreases parent, 0, |branches|
  {
    if branches == [] then []
    else BareNode(rx, branches[0], v, path, 0).issues + BareAllOf(rx, parent, branches[1..], v, path)
  }

  function BareValid(rx: Engine, parent: Schema, branches: seq<Schema>, v: Value, path: Path): nat
    requires forall i :: 0 <= i < |branches| ==> branches[i] < parent
    decreases parent, 0, |branches|
  {
    if branches == [] then 0
    else
      (if BareNode(rx, branches[0], v, path, 0).issues == [] then 1 else 0)
      + BareValid(rx, parent, branches[1..], v, path)
  }

  function BareObject(rx: Engine, s: Schema, members: seq<Field>, path: Path, nodes: nat): Trace
    requires s.Schema?
    decreases s, 3, 0
  {
    var t := BareMembers(rx, s, Visited(members, MAX_PROPERTIES), path, nodes);
    Trace(ObjectHead(s, |members|, path) + t.issues + MissingIssues(NamesOf(s.required), members, path), t.nodes)
  }

  function BareMembers(rx: Engine, s: Schema, members: seq<Field>, path: Path, nodes: nat): Trace
    requires s.Schema?
    decreases s, 2, |members|
  {
    if members == [] then Trace([], nodes)
    else
      var first := BareMember(rx, s, members[0], path, nodes);
      Then(first, BareMembers(rx, s, members[1..], path, first.nodes))
  }

  function BareMember(rx: Engine, s: Schema, m: Field, path: Path, nodes: nat): Trace
    requires s.Schema?
    decreases s, 1, 0
  {
    var child := path + [Property(m.key)];
    var named := BareNamed(rx, s, m, child, nodes);
    var matching := BareMatching(rx, EntriesOf(s.patternProperties), m.key);
    var matched := BarePatterns(rx, s, matching, m.value, child, named.nodes);
    var extra := BareExtra(rx, s, m, child, matched.nodes);
    Trace(named.issues + matched.issues + extra.issues, extra.nodes)
  }

  function BareNamed(rx: Engine, s: Schema, m: Field, child: Path, nodes: nat): Trace
    requires s.Schema?
    decreases s, 0, 0
  {
    var entries := EntriesOf(s.properties);
    var i := FindEntry(entries, m.key);
    if i >= 0 then BareNode(rx, entries[i].schema, m.value, child, nodes) else Trace([], nodes)
  }

  function BareExtra(rx: Engine, s: Schema, m: Field, child: Path, nodes: nat): Trace
    requires s.Schema?
    decreases s, 0, 0
  {
    if FindEntry(EntriesOf(s.properties), m.key) >= 0 || BareMatching(rx, EntriesOf(s.patternProperties), m.key) != []
    then Trace([], nodes)
    else
      match ExtraRule(s.additionalProperties)
      case Ignore => Trace([], nodes)
      case Refuse => Trace([Issue(child, PropertyNotAllowed)], nodes)
      case Check(schema) => BareNode(rx, schema, m.value, child, nodes)
  }

  function BarePatterns(rx: Engine, parent: Schema, entries: seq<Named>, v: Value, child: Path, nodes: nat): Trace
    requires forall e :: e in entries ==> e.schema < parent
    decreases parent, 0, |entries|
  {
    if entries == [] then Trace([], nodes)
    else
      var first := BareNode(rx, entries[0].schema, v, child, nodes);
      Then(first, BarePatterns(rx, parent, entries[1..], v, child, first.nodes))
  }

  function BareArray(rx: Engine, s: Schema, items: seq<Value>, path: Path, nodes: nat): Trace
    requires s.Schema?
    decreases s, 3, 0
  {
    var t := BareItems(rx, s, Visited(items, MAX_ITEMS), 0, path, nodes);
    Trace(ArrayHead(s, |items|, path) + t.issues, t.nodes)
  }

  function BareItems(rx: Engine, s: Schema, items: seq<Value>, index: nat, path: Path, nodes: nat): Trace
    requires s.Schema?
    decreases s, 2, |items|
  {
    if items == [] then Trace([], nodes)
    else
      var first := BareItem(rx, s, items[0], index, path, nodes);
      Then(first, BareItems(rx, s, items[1..], index + 1, path, first.nodes))
  }

  function BareItem(rx: Engine, s: Schema, v: Value, index: nat, path: Path, nodes: nat): Trace
    requires s.Schema?
    decreases s, 1, 0
  {
    var child := path + [Index(index)];
    match ItemRule(s, index)
    case Ignore => Trace([], nodes)
    case Refuse => Trace([Issue(child, ItemNotAllowed)], nodes)
    case Check(schema) => BareNode(rx, schema, v, child, nodes)
  }

  // ----- Both traversals agree -----

  lemma BareScalars(rx: Engine, s: Schema, v: Value, path: Path)
    requires s.Schema? && Compiles(rx, s)
    ensures ScalarIssues(rx, s, v, path) == BareScalarIssues(rx, s, v, path)
  {
    if v.JString? {
      assert StringIssues(rx, s, v.s, path) == BareStringIssues(rx, s, v.s, path);
    }
  }

  lemma {:induction false} BareMatches(rx: Engine, entries: seq<Named>, key: string, path: Path)
    requires forall e :: e in entries ==> rx.compiles(e.name)
    ensures MatchingEntries(rx, entries, key) == BareMatching(rx, entries, key)
        && UncompiledIssues(rx, entries, path) == []
  {
    if entries != [] {
      BareMatches(rx, entries[1..], key, path);
    }
  }

  lemma UsableParts(rx: Engine, s: Schema, depth: nat)
    requires Usable(rx, s, depth)
    ensures s.Schema? && depth <= MAX_DEPTH && Compiles(rx, s)
    ensures forall i :: 0 <= i < |BranchesOf(s.allOf)| ==> Usable(rx, BranchesOf(s.allOf)[i], depth + 1)
    ensures forall i :: 0 <= i < |BranchesOf(s.anyOf)| ==> Usable(rx, BranchesOf(s.anyOf)[i], depth + 1)
    ensures forall i :: 0 <= i < |BranchesOf(s.oneOf)| ==> Usable(rx, BranchesOf(s.oneOf)[i], depth + 1)
    ensures s.negated.Some? ==> Usable(rx, s.negated.value, depth + 1)
  {
    ChildrenOf(s);
    forall i | 0 <= i < |BranchesOf(s.allOf)| ensures Usable(rx, BranchesOf(s.allOf)[i], depth + 1) {
      assert BranchesOf(s.allOf)[i] in Children(s);
    }
    forall i | 0 <= i < |BranchesOf(s.anyOf)| ensures Usable(rx, BranchesOf(s.anyOf)[i], depth + 1) {
      assert BranchesOf(s.anyOf)[i] in Children(s);
    }
    forall i | 0 <= i < |BranchesOf(s.oneOf)| ensures Usable(rx, BranchesOf(s.oneOf)[i], depth + 1) {
      assert BranchesOf(s.oneOf)[i] in Children(s);
    }
  }

  /**
   * At every node of a usable schema, and so inside every branch of `anyOf`, `oneOf` and `not` too, the validator's
   * traversal is the one without the nesting guard and the pattern checks.
   */
  lemma {:induction false} GuardsAreDead(rx: Engine, s: Schema, v: Value, path: Path, depth: nat, nodes: nat)
    requires Usable(rx, s, depth)
    ensures Node(rx, s, v, path, depth, nodes) == BareNode(rx, s, v, path, nodes)
    decreases s, 4, 0
  {
    if nodes + 1 <= MAX_NODES {
      BareScalars(rx, s, v, path);
      BareCombined(rx, s, v, path, depth);
      if v.JObject? {
        BareObjects(rx, s, v.members, path, depth, nodes + 1);
      }
      if v.JArray? {
        BareArrays(rx, s, v.items, path, depth, nodes + 1);
      }
    }
    BareAssembled(rx, s, v, path, depth, nodes);
  }

  lemma BareAssembled(rx: Engine, s: Schema, v: Value, path: Path, depth: nat, nodes: nat)
    requires s.Schema? && depth <= MAX_DEPTH
    requires nodes + 1 <= MAX_NODES ==>
               && Combinators(rx, s, v, path, depth) == BareCombinators(rx, s, v, path)
               && ScalarIssues(rx, s, v, path) == BareScalarIssues(rx, s, v, path)
               && (v.JObject? ==>
                   Object(rx, s, v.members, path, depth, nodes + 1)
                   == BareObject(rx, s, v.members, path, nodes + 1))
               && (v.JArray? ==>
                   Array(rx, s, v.items, path, depth, nodes + 1)
                   == BareArray(rx, s, v.items, path, nodes + 1))
    ensures Node(rx, s, v, path, depth, nodes) == BareNode(rx, s, v, path, nodes)
  {
  }

  lemma {:induction false} BareCombined(rx: Engine, s: Schema, v: Value, path: Path, depth: nat)
    requires Usable(rx, s, depth)
    ensures Combinators(rx, s, v, path, depth) == BareCombinators(rx, s, v, path)
    decreases s, 3, 0
  {
    UsableParts(rx, s, depth);
    BareAll(rx, s, BranchesOf(s.allOf), v, path, depth);
    BareCount(rx, s, BranchesOf(s.anyOf), v, path, depth);
    BareCount(rx, s, BranchesOf(s.oneOf), v, path, depth);
    if s.negated.Some? {
      GuardsAreDead(rx, s.negated.value, v, path, depth + 1, 0);
    }
    BareJoined(rx, s, v, path, depth);
  }

  lemma BareJoined(rx: Engine, s: Schema, v: Value, path: Path, depth: nat)
    requires s.Schema? && AllOf(rx, s, BranchesOf(s.allOf), v, path, depth)
        == BareAllOf(rx, s, BranchesOf(s.allOf), v, path)
    requires Valid(rx, s, BranchesOf(s.anyOf), v, path, depth) == BareValid(rx, s, BranchesOf(s.anyOf), v, path)
    requires Valid(rx, s, BranchesOf(s.oneOf), v, path, depth) == BareValid(rx, s, BranchesOf(s.oneOf), v, path)
    requires s.negated.Some? ==>
        Node(rx, s.negated.value, v, path, depth + 1, 0)
        == BareNode(rx, s.negated.value, v, path, 0)
    ensures Combinators(rx, s, v, path, depth) == BareCombinators(rx, s, v, path)
  {
  }

  lemma {:induction false} BareAll(rx: Engine, parent: Schema, branches: seq<Schema>, v: Value, path: Path, depth: nat)
    requires forall i :: 0 <= i < |branches| ==> branches[i] < parent && Usable(rx, branches[i], depth + 1)
    ensures AllOf(rx, parent, branches, v, path, depth) == BareAllOf(rx, parent, branches, v, path)
    decreases parent, 0, |branches|
  {
    if branches != [] {
      GuardsAreDead(rx, branches[0], v, path, depth + 1, 0);
      BareAll(rx, parent, branches[1..], v, path, depth);
    }
  }

  lemma {:induction false} BareCount(rx: Engine, parent: Schema, branches: seq<Schema>, v: Value, path: Path,
                                     depth: nat)
    requires forall i :: 0 <= i < |branches| ==> branches[i] < parent && Usable(rx, branches[i], depth + 1)
    ensures Valid(rx, parent, branches, v, path, depth) == BareValid(rx, parent, branches, v, path)
    decreases parent, 0, |branches|
  {
    if branches != [] {
      GuardsAreDead(rx, branches[0], v, path, depth + 1, 0);
      BareCount(rx, parent, branches[1..], v, path, depth);
    }
  }

  lemma {:induction false} BareObjects(rx: Engine, s: Schema, members: seq<Field>, path: Path, depth: nat, nodes: nat)
    requires Usable(rx, s, depth)
    ensures Object(rx, s, members, path, depth, nodes) == BareObject(rx, s, members, path, nodes)
    decreases s, 3, 0
  {
    BareEach(rx, s, Visited(members, MAX_PROPERTIES), path, depth, nodes);
  }

  lemma {:induction false} BareEach(rx: Engine, s: Schema, members: seq<Field>, path: Path, depth: nat, nodes: nat)
    requires Usable(rx, s, depth)
    ensures Members(rx, s, members, path, depth, nodes) == BareMembers(rx, s, members, path, nodes)
    decreases s, 2, |members|
  {
    if members != [] {
      BareOne(rx, s, members[0], path, depth, nodes);
      BareEach(rx, s, members[1..], path, depth, MemberTrace(rx, s, members[0], path, depth, nodes).nodes);
    }
  }

  lemma {:induction false} BareOne(rx: Engine, s: Schema, m: Field, path: Path, depth: nat, nodes: nat)
    requires Usable(rx, s, depth)
    ensures MemberTrace(rx, s, m, path, depth, nodes) == BareMember(rx, s, m, path, nodes)
    decreases s, 1, 0
  {
    var child := path + [Property(m.key)];
    var entries := EntriesOf(s.patternProperties);
    var matching := MatchingEntries(rx, entries, m.key);
    BareMatches(rx, entries, m.key, child);
    BareByName(rx, s, m, child, depth, nodes);
    var named := NamedTrace(rx, s, m, child, depth, nodes);
    UsableEntries(rx, s, matching, depth);
    BareByPattern(rx, s, matching, m.value, child, depth, named.nodes);
    var matched := Patterns(rx, s, matching, m.value, child, depth, named.nodes);
    BareOther(rx, s, m, child, depth, matched.nodes);
    assert named.issues + [] == named.issues;
  }

  lemma UsableEntries(rx: Engine, s: Schema, entries: seq<Named>, depth: nat)
    requires Usable(rx, s, depth) && forall e :: e in entries ==> e in EntriesOf(s.patternProperties)
    ensures forall e :: e in entries ==> e.schema < s && Usable(rx, e.schema, depth + 1)
  {
    ChildrenOf(s);
  }

  lemma {:induction false} BareByName(rx: Engine, s: Schema, m: Field, child: Path, depth: nat, nodes: nat)
    requires Usable(rx, s, depth)
    ensures NamedTrace(rx, s, m, child, depth, nodes) == BareNamed(rx, s, m, child, nodes)
    decreases s, 0, 0
  {
    var entries := EntriesOf(s.properties);
    var i := FindEntry(entries, m.key);
    if i >= 0 {
      ChildrenOf(s);
      assert entries[i] in entries;
      GuardsAreDead(rx, entries[i].schema, m.value, child, depth + 1, nodes);
    }
  }

  lemma {:induction false} BareByPattern(rx: Engine, parent: Schema, entries: seq<Named>, v: Value, child: Path,
                                         depth: nat, nodes: nat)
    requires forall e :: e in entries ==> e.schema < parent && Usable(rx, e.schema, depth + 1)
    ensures Patterns(rx, parent, entries, v, child, depth, nodes) == BarePatterns(rx, parent, entries, v, child, nodes)
    decreases parent, 0, |entries|
  {
    if entries != [] {
      GuardsAreDead(rx, entries[0].schema, v, child, depth + 1, nodes);
      BareByPattern(rx, parent, entries[1..], v, child, depth,
                    Node(rx, entries[0].schema, v, child, depth + 1, nodes).nodes);
    }
  }

  lemma {:induction false} BareOther(rx: Engine, s: Schema, m: Field, child: Path, depth: nat, nodes: nat)
    requires Usable(rx, s, depth)
    ensures ExtraTrace(rx, s, m, child, depth, nodes) == BareExtra(rx, s, m, child, nodes)
    decreases s, 0, 0
  {
    BareMatches(rx, EntriesOf(s.patternProperties), m.key, child);
    ChildrenOf(s);
    var rule := ExtraRule(s.additionalProperties);
    if rule.Check? {
      GuardsAreDead(rx, rule.schema, m.value, child, depth + 1, nodes);
    }
  }

  lemma {:induction false} BareArrays(rx: Engine, s: Schema, items: seq<Value>, path: Path, depth: nat, nodes: nat)
    requires Usable(rx, s, depth)
    ensures Array(rx, s, items, path, depth, nodes) == BareArray(rx, s, items, path, nodes)
    decreases s, 3, 0
  {
    BareEachItem(rx, s, Visited(items, MAX_ITEMS), 0, path, depth, nodes);
  }

  lemma {:induction false} BareEachItem(rx: Engine, s: Schema, items: seq<Value>, index: nat, path: Path, depth: nat,
                                        nodes: nat)
    requires Usable(rx, s, depth)
    ensures ItemsFrom(rx, s, items, index, path, depth, nodes) == BareItems(rx, s, items, index, path, nodes)
    decreases s, 2, |items|
  {
    if items != [] {
      BareOneItem(rx, s, items[0], index, path, depth, nodes);
      BareEachItem(rx, s, items[1..], index + 1, path, depth,
                   ItemTrace(rx, s, items[0], index, path, depth, nodes).nodes);
    }
  }

  lemma {:induction false} BareOneItem(rx: Engine, s: Schema, v: Value, index: nat, path: Path, depth: nat, nodes: nat)
    requires Usable(rx, s, depth)
    ensures ItemTrace(rx, s, v, index, path, depth, nodes) == BareItem(rx, s, v, index, path, nodes)
    decreases s, 1, 0
  {
    var rule := ItemRule(s, index);
    if rule.Check? {
      UsableRule(rx, s, index, depth);
      GuardsAreDead(rx, rule.schema, v, path + [Index(index)], depth + 1, nodes);
    }
  }

  lemma UsableRule(rx: Engine, s: Schema, index: nat, depth: nat)
    requires Usable(rx, s, depth) && ItemRule(s, index).Check?
    ensures Usable(rx, ItemRule(s, index).schema, depth + 1)
  {
    RuleIsChild(s, index);
  }
}
