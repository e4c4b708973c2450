/**
 * Inspection of an advertised schema before any argument is validated: the traversal without a cap, and what a clean
 * inspection guarantees.
 */
module SchemaInspection {
  import opened Wrappers
  import opened SchemaModel
  import opened SchemaTrace
  import opened SchemaSemantics

  /** One thing inspection does at a node: report, or go into a subschema. */
  datatype Act = Report(issue: Issue) | Descend(path: Path, schema: Schema)

  function Reports(issues: seq<Issue>): (r: seq<Act>)
    ensures |r| == |issues| && forall i :: 0 <= i < |r| ==> r[i] == Report(issues[i])
  {
    seq(|issues|, i requires 0 <= i < |issues| => Report(issues[i]))
  }

  // ----- Keywords of one node -----

  function UnsupportedIssues(keys: seq<string>, path: Path): (r: seq<Issue>)
    ensures r == [] <==> keys == []
  {
    seq(|keys|, _ => Issue(path, UnsupportedKeyword))
  }

  predicate TypesWrong(s: Schema)
    requires s.Schema?
  {
    && s.types.Some?
    && (s.types.value == [] || exists i :: 0 <= i < |s.types.value| && s.types.value[i] !in SUPPORTED_TYPES)
  }

  predicate BoundWrong(b: Bound) {
    b.WrongType? || b.NotFiniteBound?
  }

  predicate MultipleWrong(b: Bound) {
    match b
    case NoBound => false
    case WrongType => true
    case NotFiniteBound(negative) => negative
    case Limit(n) => n <= 0
  }

  /** Which numeric keywords hold something other than a finite number. */
  function NotFiniteFlags(s: Schema): seq<bool>
    requires s.Schema?
  {
    [BoundWrong(s.minimum), BoundWrong(s.maximum), BoundWrong(s.multipleOf), s.minLength.NotNumber?,
     s.maxLength.NotNumber?,
     s.minItems.NotNumber?, s.maxItems.NotNumber?, s.minProperties.NotNumber?, s.maxProperties.NotNumber?]
  }

  predicate CountWrong(c: Count) {
    c.NotNumber? || c.NotCount?
  }

  function NotCountFlags(s: Schema): seq<bool>
    requires s.Schema?
  {
    [CountWrong(s.minLength), CountWrong(s.maxLength), CountWrong(s.minItems), CountWrong(s.maxItems),
     CountWrong(s.minProperties), CountWrong(s.maxProperties)]
  }

  /** `exclusiveMinimum: true` needs a numeric bound beside it. */
  function ExclusiveIssues(x: Exclusive, bound: Bound, path: Path): seq<Issue> {
    match x
    case BadExclusive => [Issue(path, BadExclusiveKeyword)]
    case NotFinite => [Issue(path, ExclusiveNotFinite)]
    case Flag(on) => Found(on && (bound.NoBound? || bound.WrongType?), path, ExclusiveWithoutBound)
    case _ => []
  }

  function PatternIssues(rx: Engine, p: Pattern, path: Path): seq<Issue> {
    match p
    case NoPattern => []
    case BadPattern => [Issue(path, PatternNotString)]
    case Regex(text) => Found(!rx.compiles(text), path, PatternInvalid)
  }

  function KeywordIssues(rx: Engine, s: Schema, path: Path): seq<Issue>
    requires s.Schema?
  {
    UnsupportedIssues(s.unsupported, path)
    + Found(TypesWrong(s), path, BadType)
    + Found(s.required.BadNames?, path, BadRequired)
    + FlagIssues(NotFiniteFlags(s), path, BoundNotFinite)
    + FlagIssues(NotCountFlags(s), path, CountNotInteger)
    + Found(MultipleWrong(s.multipleOf), path, MultipleNotPositive)
    + ExclusiveIssues(s.exclusiveMinimum, s.minimum, path)
    + ExclusiveIssues(s.exclusiveMaximum, s.maximum, path)
    + PatternIssues(rx, s.pattern, path)
  }

  // ----- The traversal -----

  function MapActs(m: SchemaMap, path: Path): seq<Act> {
    match m
    case NoMap => []
    case BadMap => [Report(Issue(path, BadSchemaMap))]
    case Entries(entries) =>
      seq(|entries|, i requires 0 <= i < |entries| => Descend(path + [Property(entries[i].name)], entries[i].schema))
  }

  function ListActs(l: SchemaList, path: Path): seq<Act> {
    match l
    case NoList => []
    case BadList => [Report(Issue(path, BadSchemaList))]
    case Branches(branches) => BranchActs(branches, path)
  }

  function BranchActs(branches: seq<Schema>, path: Path): (r: seq<Act>)
    ensures |r| == |branches| && forall i :: 0 <= i < |r| ==> r[i] == Descend(path + [Index(i)], branches[i])
  {
    seq(|branches|, i requires 0 <= i < |branches| => Descend(path + [Index(i)], branches[i]))
  }

  function ExtraActs(x: Extra, path: Path): seq<Act> {
    if x.Matching? then [Descend(path, x.schema)] else []
  }

  function ItemsActs(x: Items, path: Path): seq<Act> {
    match x
    case NoItems => []
    case Each(schema) => [Descend(path, schema)]
    case Positional(schemas) => BranchActs(schemas, path)
  }

  function PropertyPatternIssues(rx: Engine, entries: seq<Named>, path: Path): (r: seq<Issue>)
    ensures r == [] <==> forall e :: e in entries ==> rx.compiles(e.name)
  {
    if entries == [] then []
    else
      Found(!rx.compiles(entries[0].name), path, PropertyPatternInvalid)
      + PropertyPatternIssues(rx, entries[1..], path)
  }

  /** First the keywords that hold schemas for members, then those for items, then the alternatives. */
  function MemberActs(rx: Engine, s: Schema, path: Path): seq<Act>
    requires s.Schema?
  {
    MapActs(s.properties, path + [Property("properties")])
    + MapActs(s.patternProperties, path + [Property("patternProperties")])
    + Reports(PropertyPatternIssues(rx, EntriesOf(s.patternProperties), path))
    + ExtraActs(s.additionalProperties, path + [Property("additionalProperties")])
  }

  function ItemActs(s: Schema, path: Path): seq<Act>
    requires s.Schema?
  {
    ItemsActs(s.items, path + [Property("items")]) + ExtraActs(s.additionalItems, path + [Property("additionalItems")])
  }

  function AlternativeActs(s: Schema, path: Path): seq<Act>
    requires s.Schema?
  {
    ListActs(s.anyOf, path + [Property("anyOf")])
    + ListActs(s.oneOf, path + [Property("oneOf")])
    + ListActs(s.allOf, path + [Property("allOf")])
    + (if s.negated.Some? then [Descend(path + [Property("not")], s.negated.value)] else [])
  }

  function Acts(rx: Engine, s: Schema, path: Path): seq<Act>
    requires s.Schema?
  {
    Reports(KeywordIssues(rx, s, path)) + MemberActs(rx, s, path) + ItemActs(s, path) + AlternativeActs(s, path)
  }

  ghost predicate Inside(acts: seq<Act>, parent: Schema) {
    forall i :: 0 <= i < |acts| ==> acts[i].Descend? ==> acts[i].schema < parent
  }

  lemma InsideConcat(parent: Schema, a: seq<Act>, b: seq<Act>)
    requires Inside(a, parent) && Inside(b, parent)
    ensures Inside(a + b, parent)
  {
  }

  lemma MapInside(m: SchemaMap, parent: Schema, path: Path)
    requires forall e :: e in EntriesOf(m) ==> e.schema < parent
    ensures Inside(MapActs(m, path), parent)
  {
    if m.Entries? {
      assert forall i :: 0 <= i < |m.entries| ==> m.entries[i] in EntriesOf(m);
    }
  }

  lemma MemberActsInside(rx: Engine, s: Schema, path: Path)
    requires s.Schema?
    ensures Inside(MemberActs(rx, s, path), s)
  {
    var named, patterned := MapActs(s.properties, path + [Property("properties")]),
        MapActs(s.patternProperties, path + [Property("patternProperties")]);
    var reports := Reports(PropertyPatternIssues(rx, EntriesOf(s.patternProperties), path));
    MapInside(s.properties, s, path + [Property("properties")]);
    MapInside(s.patternProperties, s, path + [Property("patternProperties")]);
    InsideConcat(s, named, patterned);
    InsideConcat(s, named + patterned, reports);
    InsideConcat(s, named + patterned + reports,
                 ExtraActs(s.additionalProperties, path + [Property("additionalProperties")]));
  }

  lemma ItemActsInside(s: Schema, path: Path)
    requires s.Schema?
    ensures Inside(ItemActs(s, path), s)
  {
    InsideConcat(s, ItemsActs(s.items, path + [Property("items")]),
                 ExtraActs(s.additionalItems, path + [Property("additionalItems")]));
  }

  lemma AlternativeActsInside(s: Schema, path: Path)
    requires s.Schema?
    ensures Inside(AlternativeActs(s, path), s)
  {
    var any, one := ListActs(s.anyOf, path + [Property("anyOf")]), ListActs(s.oneOf, path + [Property("oneOf")]);
    var all := ListActs(s.allOf, path + [Property("allOf")]);
    InsideConcat(s, any, one);
    InsideConcat(s, any + one, all);
    InsideConcat(s, any + one + all,
                 if s.negated.Some? then [Descend(path + [Property("not")], s.negated.value)] else []);
  }

  lemma ActsInside(rx: Engine, s: Schema, path: Path)
    requires s.Schema?
    ensures Inside(MemberActs(rx, s, path), s) && Inside(ItemActs(s, path), s) && Inside(AlternativeActs(s, path), s)
    ensures Inside(Acts(rx, s, path), s)
  {
    MemberActsInside(rx, s, path);
    ItemActsInside(s, path);
    AlternativeActsInside(s, path);
    var keywords := Reports(KeywordIssues(rx, s, path));
    InsideConcat(s, keywords, MemberActs(rx, s, path));
    InsideConcat(s, keywords + MemberActs(rx, s, path), ItemActs(s, path));
    InsideConcat(s, keywords + MemberActs(rx, s, path) + ItemActs(s, path), AlternativeActs(s, path));
  }

  function InspectNode(rx: Engine, s: Schema, path: Path, depth: nat, nodes: nat): Trace
    decreases s, 1, 0
  {
    if s.NotAnObject? then Trace([Issue(path, NotASchema)], nodes)
    else if depth > MAX_DEPTH then Trace([Issue(path, SchemaNestingExceeded)], nodes)
    else if nodes + 1 > MAX_NODES then Trace([Issue(path, SchemaNodesExceeded)], nodes + 1)
    else
      ActsInside(rx, s, path);
      Run(rx, s, Acts(rx, s, path), depth + 1, nodes + 1)
  }

  function Perform(rx: Engine, parent: Schema, act: Act, depth: nat, nodes: nat): Trace
    requires act.Descend? ==> act.schema < parent
    decreases parent, 0, 0
  {
    match act
    case Report(issue) => Trace([issue], nodes)
    case Descend(path, schema) => InspectNode(rx, schema, path, depth, nodes)
  }

  function Run(rx: Engine, parent: Schema, acts: seq<Act>, depth: nat, nodes: nat): Trace
    requires Inside(acts, parent)
    decreases parent, 0, 1 + |acts|
  {
    if acts == [] then Trace([], nodes)
    else
      var first := Perform(rx, parent, acts[0], depth, nodes);
      var rest := Run(rx, parent, acts[1..], depth, first.nodes);
      Trace(first.issues + rest.issues, rest.nodes)
  }

  lemma RunStep(rx: Engine, parent: Schema, act: Act, acts: seq<Act>, depth: nat, nodes: nat)
    requires Inside([act] + acts, parent)
    ensures Inside(acts, parent) && (act.Descend? ==> act.schema < parent)
    ensures var first := Perform(rx, parent, act, depth, nodes);
            Run(rx, parent, [act] + acts, depth, nodes) == Then(first, Run(rx, parent, acts, depth, first.nodes))
  {
    assert ([act] + acts)[0] == act && ([act] + acts)[1..] == acts;
    assert forall i :: 0 <= i < |acts| ==> acts[i] == ([act] + acts)[i + 1];
  }

  /** Running one list of acts after another. */
  lemma {:induction false} RunConcat(rx: Engine, parent: Schema, a: seq<Act>, b: seq<Act>, depth: nat, nodes: nat)
    requires Inside(a, parent) && Inside(b, parent)
    ensures Inside(a + b, parent)
    ensures var first := Run(rx, parent, a, depth, nodes);
            Run(rx, parent, a + b, depth, nodes) == Then(first, Run(rx, parent, b, depth, first.nodes))
    decreases |a|
  {
    InsideConcat(parent, a, b);
    if a == [] {
      assert a + b == b;
    } else {
      var head, rest := a[0], a[1..];
      assert a == [head] + rest && a + b == [head] + (rest + b);
      RunStep(rx, parent, head, rest, depth, nodes);
      RunStep(rx, parent, head, rest + b, depth, nodes);
      var next := Perform(rx, parent, head, depth, nodes);
      RunConcat(rx, parent, rest, b, depth, next.nodes);
      var middle := Run(rx, parent, rest, depth, next.nodes);
      ThenAssociates(next, middle, Run(rx, parent, b, depth, middle.nodes));
    }
  }

  // ----- What a clean inspection means -----

  /** Schema nodes, counted as inspection counts them. */
  function NodeCount(rx: Engine, s: Schema, path: Path): nat
    decreases s, 1, 0
  {
    if s.NotAnObject? then 1 else ActsInside(rx, s, path); 1 + ActsCount(rx, s, Acts(rx, s, path))
  }

  function ActCount(rx: Engine, parent: Schema, act: Act): nat
    requires act.Descend? ==> act.schema < parent
    decreases parent, 0, 0
  {
    if act.Descend? then NodeCount(rx, act.schema, act.path) else 0
  }

  function ActsCount(rx: Engine, parent: Schema, acts: seq<Act>): nat
    requires Inside(acts, parent)
    decreases parent, 0, 1 + |acts|
  {
    if acts == [] then 0 else ActCount(rx, parent, acts[0]) + ActsCount(rx, parent, acts[1..])
  }

  ghost predicate ActsUsable(rx: Engine, acts: seq<Act>, depth: nat) {
    forall a :: a in acts ==> a.Descend? && Usable(rx, a.schema, depth)
  }

  ghost predicate AllUsable(rx: Engine, schemas: seq<Schema>, depth: nat) {
    forall c :: c in schemas ==> Usable(rx, c, depth)
  }

  /** Inspection is clean exactly when the schema is usable and has at most as many nodes as are left. */
  lemma {:induction false} CleanIffUsable(rx: Engine, s: Schema, path: Path, depth: nat, nodes: nat)
    requires nodes <= MAX_NODES
    ensures InspectNode(rx, s, path, depth, nodes).issues == [] <==>
        Usable(rx, s, depth) && nodes + NodeCount(rx, s, path) <= MAX_NODES
    ensures InspectNode(rx, s, path, depth, nodes).issues == [] ==>
              InspectNode(rx, s, path, depth, nodes).nodes == nodes + NodeCount(rx, s, path)
    decreases s, 2, 0
  {
    if s.Schema? && depth <= MAX_DEPTH && nodes + 1 <= MAX_NODES {
      ActsInside(rx, s, path);
      UsableIffActs(rx, s, path, depth);
      NodeCleanIffUsable(rx, s, path, Acts(rx, s, path), depth, nodes);
    }
  }

  lemma {:induction false} NodeCleanIffUsable(rx: Engine, s: Schema, path: Path, acts: seq<Act>, depth: nat, nodes: nat)
    requires s.Schema? && depth <= MAX_DEPTH && nodes + 1 <= MAX_NODES && Inside(acts, s)
    requires Usable(rx, s, depth) <==> ActsUsable(rx, acts, depth + 1)
    ensures Run(rx, s, acts, depth + 1, nodes + 1).issues == [] <==>
        Usable(rx, s, depth) && nodes + 1 + ActsCount(rx, s, acts) <= MAX_NODES
    ensures Run(rx, s, acts, depth + 1, nodes + 1).issues == [] ==>
        Run(rx, s, acts, depth + 1, nodes + 1).nodes == nodes + 1 + ActsCount(rx, s, acts)
    decreases s, 1, 0
  {
    RunCleanIffUsable(rx, s, acts, depth + 1, nodes + 1);
  }

  lemma {:induction false} PerformCleanIffUsable(rx: Engine, parent: Schema, act: Act, depth: nat, nodes: nat)
    requires (act.Descend? ==> act.schema < parent) && nodes <= MAX_NODES
    ensures Perform(rx, parent, act, depth, nodes).issues == [] <==>
              act.Descend? && Usable(rx, act.schema, depth) && nodes + ActCount(rx, parent, act) <= MAX_NODES
    ensures Perform(rx, parent, act, depth, nodes).issues == [] ==>
              Perform(rx, parent, act, depth, nodes).nodes == nodes + ActCount(rx, parent, act)
    decreases parent, 0, 0
  {
    if act.Descend? {
      CleanIffUsable(rx, act.schema, act.path, depth, nodes);
    }
  }

  lemma {:induction false} RunCleanIffUsable(rx: Engine, parent: Schema, acts: seq<Act>, depth: nat, nodes: nat)
    requires Inside(acts, parent) && nodes <= MAX_NODES
    ensures Run(rx, parent, acts, depth, nodes).issues == [] <==>
              ActsUsable(rx, acts, depth) && nodes + ActsCount(rx, parent, acts) <= MAX_NODES
    ensures Run(rx, parent, acts, depth, nodes).issues == [] ==>
              Run(rx, parent, acts, depth, nodes).nodes == nodes + ActsCount(rx, parent, acts)
    decreases parent, 0, 1 + |acts|
  {
    if acts != [] {
      var head, rest := acts[0], acts[1..];
      assert acts == [head] + rest;
      RunStep(rx, parent, head, rest, depth, nodes);
      PerformCleanIffUsable(rx, parent, head, depth, nodes);
      var first := Perform(rx, parent, head, depth, nodes);
      if first.issues == [] {
        RunCleanIffUsable(rx, parent, rest, depth, first.nodes);
      }
    }
  }

  ghost predicate KeywordsWellTyped(s: Schema)
    requires s.Schema?
  {
    && s.unsupported == [] && !TypesWrong(s) && !s.required.BadNames? && !s.pattern.BadPattern?
    && (s.minimum.NoBound? || s.minimum.Limit?) && (s.maximum.NoBound? || s.maximum.Limit?)
    && (s.multipleOf.NoBound? || (s.multipleOf.Limit? && s.multipleOf.n > 0))
    && (s.exclusiveMinimum.NoExclusive? || s.exclusiveMinimum.ExclusiveLimit? || s.exclusiveMinimum == Flag(false)
        || (s.exclusiveMinimum == Flag(true) && s.minimum.Limit?))
    && (s.exclusiveMaximum.NoExclusive? || s.exclusiveMaximum.ExclusiveLimit? || s.exclusiveMaximum == Flag(false)
        || (s.exclusiveMaximum == Flag(true) && s.maximum.Limit?))
    && CountsWellTyped(s)
  }

  ghost predicate CountsWellTyped(s: Schema)
    requires s.Schema?
  {
    && (s.minLength.NoCount? || s.minLength.CountOf?) && (s.maxLength.NoCount? || s.maxLength.CountOf?)
    && (s.minItems.NoCount? || s.minItems.CountOf?) && (s.maxItems.NoCount? || s.maxItems.CountOf?)
    && (s.minProperties.NoCount? || s.minProperties.CountOf?) && (s.maxProperties.NoCount? || s.maxProperties.CountOf?)
  }

  lemma CountsClean(s: Schema)
    requires s.Schema?
    ensures (forall i :: 0 <= i < |NotCountFlags(s)| ==> !NotCountFlags(s)[i]) <==> CountsWellTyped(s)
  {
    var flags := NotCountFlags(s);
    assert (forall i :: 0 <= i < |flags| ==> !flags[i]) <==>
        !flags[0] && !flags[1] && !flags[2] && !flags[3]
        && !flags[4] && !flags[5];
  }

  lemma FiniteClean(s: Schema)
    requires s.Schema? && CountsWellTyped(s)
    ensures (forall i :: 0 <= i < |NotFiniteFlags(s)| ==> !NotFiniteFlags(s)[i]) <==>
              !BoundWrong(s.minimum) && !BoundWrong(s.maximum) && !BoundWrong(s.multipleOf)
  {
    var flags := NotFiniteFlags(s);
    assert (forall i :: 0 <= i < |flags| ==> !flags[i]) <==>
             !flags[0] && !flags[1] && !flags[2] && !flags[3] && !flags[4] && !flags[5] && !flags[6] && !flags[7]
               && !flags[8];
  }

  lemma KeywordsClean(rx: Engine, s: Schema, path: Path)
    requires s.Schema?
    ensures KeywordIssues(rx, s, path) == [] <==>
        KeywordsWellTyped(s) && (s.pattern.Regex? ==> rx.compiles(s.pattern.text))
  {
    CountsClean(s);
    if CountsWellTyped(s) {
      FiniteClean(s);
    }
  }

  lemma MapUsable(rx: Engine, m: SchemaMap, path: Path, depth: nat)
    ensures ActsUsable(rx, MapActs(m, path), depth) <==> !m.BadMap? && AllUsable(rx, SchemasOf(EntriesOf(m)), depth)
  {
    var acts, schemas := MapActs(m, path), SchemasOf(EntriesOf(m));
    if m.BadMap? {
      assert acts[0] in acts;
    } else {
      assert |acts| == |schemas| && forall i :: 0 <= i < |schemas| ==> acts[i].Descend? && acts[i].schema == schemas[i];
      SameUsable(rx, acts, schemas, depth);
    }
  }

  lemma SameUsable(rx: Engine, acts: seq<Act>, schemas: seq<Schema>, depth: nat)
    requires |acts| == |schemas| && forall i :: 0 <= i < |schemas| ==> acts[i].Descend? && acts[i].schema == schemas[i]
    ensures ActsUsable(rx, acts, depth) <==> AllUsable(rx, schemas, depth)
  {
    forall c | c in schemas ensures exists a :: a in acts && a.Descend? && a.schema == c {
      var i :| 0 <= i < |schemas| && schemas[i] == c;
      assert acts[i] in acts;
    }
    forall a | a in acts ensures a.Descend? && a.schema in schemas {
    }
  }

  lemma ListUsable(rx: Engine, l: SchemaList, path: Path, depth: nat)
    ensures ActsUsable(rx, ListActs(l, path), depth) <==> !l.BadList? && AllUsable(rx, BranchesOf(l), depth)
  {
    var acts := ListActs(l, path);
    if l.BadList? {
      assert acts[0] in acts;
    } else {
      SameUsable(rx, acts, BranchesOf(l), depth);
    }
  }

  lemma ReportsUsable(rx: Engine, issues: seq<Issue>, depth: nat)
    ensures ActsUsable(rx, Reports(issues), depth) <==> issues == []
  {
    if issues != [] {
      assert Reports(issues)[0] in Reports(issues);
    }
  }

  lemma MemberActsUsable(rx: Engine, s: Schema, path: Path, depth: nat)
    requires s.Schema?
    ensures ActsUsable(rx, MemberActs(rx, s, path), depth) <==>
              && !s.properties.BadMap? && !s.patternProperties.BadMap?
              && (forall e :: e in EntriesOf(s.patternProperties) ==> rx.compiles(e.name))
              && AllUsable(rx, SchemasOf(EntriesOf(s.properties)), depth)
              && AllUsable(rx, SchemasOf(EntriesOf(s.patternProperties)), depth)
              && AllUsable(rx, OfExtra(s.additionalProperties), depth)
  {
    MapUsable(rx, s.properties, path + [Property("properties")], depth);
    MapUsable(rx, s.patternProperties, path + [Property("patternProperties")], depth);
    ReportsUsable(rx, PropertyPatternIssues(rx, EntriesOf(s.patternProperties), path), depth);
    SameUsable(rx, ExtraActs(s.additionalProperties, path + [Property("additionalProperties")]),
               OfExtra(s.additionalProperties), depth);
    ConcatUsable(rx, [MapActs(s.properties, path + [Property("properties")]),
                      MapActs(s.patternProperties, path + [Property("patternProperties")]),
                      Reports(PropertyPatternIssues(rx, EntriesOf(s.patternProperties), path)),
                      ExtraActs(s.additionalProperties, path + [Property("additionalProperties")])], depth);
  }

  /** Four lists of acts in a row are usable when each is. */
  lemma ConcatUsable(rx: Engine, parts: seq<seq<Act>>, depth: nat)
    requires |parts| == 4
    ensures ActsUsable(rx, parts[0] + parts[1] + parts[2] + parts[3], depth) <==>
              && ActsUsable(rx, parts[0], depth) && ActsUsable(rx, parts[1], depth)
              && ActsUsable(rx, parts[2], depth) && ActsUsable(rx, parts[3], depth)
  {
  }

  lemma ItemActsUsable(rx: Engine, s: Schema, path: Path, depth: nat)
    requires s.Schema?
    ensures ActsUsable(rx, ItemActs(s, path), depth) <==>
              AllUsable(rx, OfItems(s.items), depth) && AllUsable(rx, OfExtra(s.additionalItems), depth)
  {
    var items := ItemsActs(s.items, path + [Property("items")]);
    var extra := ExtraActs(s.additionalItems, path + [Property("additionalItems")]);
    SameUsable(rx, items, OfItems(s.items), depth);
    SameUsable(rx, extra, OfExtra(s.additionalItems), depth);
    ConcatUsable(rx, [items, extra, [], []], depth);
    assert ItemActs(s, path) == items + extra + [] + [];
  }

  lemma AlternativeActsUsable(rx: Engine, s: Schema, path: Path, depth: nat)
    requires s.Schema?
    ensures ActsUsable(rx, AlternativeActs(s, path), depth) <==>
              && !s.anyOf.BadList? && !s.oneOf.BadList? && !s.allOf.BadList?
              && AllUsable(rx, BranchesOf(s.anyOf), depth) && AllUsable(rx, BranchesOf(s.oneOf), depth)
              && AllUsable(rx, BranchesOf(s.allOf), depth) && (s.negated.Some? ==> Usable(rx, s.negated.value, depth))
  {
    ListUsable(rx, s.anyOf, path + [Property("anyOf")], depth);
    ListUsable(rx, s.oneOf, path + [Property("oneOf")], depth);
    ListUsable(rx, s.allOf, path + [Property("allOf")], depth);
    ConcatUsable(rx, [ListActs(s.anyOf, path + [Property("anyOf")]), ListActs(s.oneOf, path + [Property("oneOf")]),
                      ListActs(s.allOf, path + [Property("allOf")]),
                      if s.negated.Some? then [Descend(path + [Property("not")], s.negated.value)] else []], depth);
  }

  lemma ChildrenUsable(rx: Engine, s: Schema, depth: nat)
    requires s.Schema?
    ensures AllUsable(rx, Children(s), depth) <==>
              && AllUsable(rx, SchemasOf(EntriesOf(s.properties)), depth)
              && AllUsable(rx, SchemasOf(EntriesOf(s.patternProperties)), depth)
              && AllUsable(rx, OfExtra(s.additionalProperties), depth)
              && AllUsable(rx, OfItems(s.items), depth) && AllUsable(rx, OfExtra(s.additionalItems), depth)
              && AllUsable(rx, BranchesOf(s.anyOf), depth) && AllUsable(rx, BranchesOf(s.oneOf), depth)
              && AllUsable(rx, BranchesOf(s.allOf), depth) && (s.negated.Some? ==> Usable(rx, s.negated.value, depth))
  {
    assert AllUsable(rx, Children(s), depth) <==>
        AllUsable(rx, Inner(s), depth) && AllUsable(rx, Alternatives(s), depth);
  }

  lemma WellTypedParts(s: Schema)
    requires s.Schema?
    ensures WellTyped(s) <==>
              && KeywordsWellTyped(s) && !s.properties.BadMap? && !s.patternProperties.BadMap?
              && !s.anyOf.BadList? && !s.oneOf.BadList? && !s.allOf.BadList?
  {
  }

  /** Nothing to report and only usable subschemas: that is what usable means. */
  lemma UsableIffActs(rx: Engine, s: Schema, path: Path, depth: nat)
    requires s.Schema? && depth <= MAX_DEPTH
    ensures Usable(rx, s, depth) <==> ActsUsable(rx, Acts(rx, s, path), depth + 1)
  {
    KeywordsClean(rx, s, path);
    ReportsUsable(rx, KeywordIssues(rx, s, path), depth + 1);
    MemberActsUsable(rx, s, path, depth + 1);
    ItemActsUsable(rx, s, path, depth + 1);
    AlternativeActsUsable(rx, s, path, depth + 1);
    ConcatUsable(rx, [Reports(KeywordIssues(rx, s, path)), MemberActs(rx, s, path), ItemActs(s, path),
                      AlternativeActs(s, path)], depth + 1);
    ChildrenUsable(rx, s, depth + 1);
    WellTypedParts(s);
  }
}
