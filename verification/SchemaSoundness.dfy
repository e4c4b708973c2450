/**
 * Soundness whatever guards fire: without `oneOf` and `not`, a traversal that finds nothing has seen a conforming
 * value, provided no number of it is one whose rounded quotient passes for a multiple.
 */
module SchemaSoundness {
  import opened Json
  import opened SchemaModel
  import opened SchemaDivision
  import opened SchemaTrace
  import opened SchemaSemantics

  ghost predicate Plain(s: Schema) {
    Positive(s) && DistinctNames(s)
  }

  lemma PlainChildren(s: Schema)
    requires s.Schema? && Plain(s)
    ensures forall c :: c in Children(s) ==> Plain(c)
  {
  }

  // ----- Where the divisibility test is exact -----

  /** Somewhere the schema asks for multiples of m. */
  ghost predicate HasMultiple(s: Schema, m: int) {
    s.Schema? && (s.multipleOf == Limit(m) || exists c :: c in Children(s) && HasMultiple(c, m))
  }

  /** Somewhere in the value stands the number n. */
  ghost predicate HasNumber(v: Value, n: int) {
    match v
    case JNumber(k) => k == n
    case JArray(items) => exists i :: 0 <= i < |items| && HasNumber(items[i], n)
    case JObject(members) => exists i :: 0 <= i < |members| && HasNumber(members[i].value, n)
    case _ => false
  }

  /** Dividing any number of the value by any divisor of the schema is exact. */
  ghost predicate DivisionsReach(s: Schema, v: Value) {
    forall m, n :: HasMultiple(s, m) && HasNumber(v, n) && m > 0 ==> DivisionExact(n, m)
  }

  lemma ReachHere(s: Schema, v: Value)
    requires s.Schema? && DivisionsReach(s, v)
    ensures DivisionReaches(s, v)
  {
    if v.JNumber? && s.multipleOf.Limit? {
      assert HasMultiple(s, s.multipleOf.n) && HasNumber(v, v.n);
    }
  }

  lemma ReachBelow(s: Schema, c: Schema, v: Value)
    requires s.Schema? && c in Children(s) && DivisionsReach(s, v)
    ensures DivisionsReach(c, v)
  {
    forall m, n | HasMultiple(c, m) && HasNumber(v, n) && m > 0 ensures DivisionExact(n, m) {
      assert HasMultiple(s, m);
    }
  }

  lemma ReachMember(s: Schema, members: seq<Field>, i: nat)
    requires i < |members| && DivisionsReach(s, JObject(members))
    ensures DivisionsReach(s, members[i].value)
  {
    forall m, n | HasMultiple(s, m) && HasNumber(members[i].value, n) && m > 0 ensures DivisionExact(n, m) {
      assert HasNumber(JObject(members), n);
    }
  }

  lemma ReachItem(s: Schema, items: seq<Value>, i: nat)
    requires i < |items| && DivisionsReach(s, JArray(items))
    ensures DivisionsReach(s, items[i])
  {
    forall m, n | HasMultiple(s, m) && HasNumber(items[i], n) && m > 0 ensures DivisionExact(n, m) {
      assert HasNumber(JArray(items), n);
    }
  }

  /** A value of safe integers is divided exactly by every schema. */
  lemma SafeNumbersReach(s: Schema, v: Value)
    requires forall n :: HasNumber(v, n) ==> SafeInteger(n)
    ensures DivisionsReach(s, v)
  {
    forall m, n | HasMultiple(s, m) && HasNumber(v, n) && m > 0 ensures DivisionExact(n, m) {
      SafeDivisionExact(n, m);
    }
  }

  // ----- Clean means conforming -----

  /** A clean traversal means the value conforms. */
  lemma {:induction false} CleanImpliesSatisfies(rx: Engine, s: Schema, v: Value, path: Path, depth: nat, nodes: nat)
    requires Plain(s) && DivisionsReach(s, v) && Node(rx, s, v, path, depth, nodes).issues == []
    ensures Satisfies(rx, s, v)
    decreases s, 4, 0
  {
    if s.Schema? {
      CleanParts(rx, s, v, path, depth, nodes);
      CleanCombined(rx, s, v, path, depth);
      ReachHere(s, v);
      ScalarsSound(rx, s, v, path);
      match v
      case JObject(members) => CleanObject(rx, s, members, path, depth, nodes + 1);
      case JArray(items) => CleanArray(rx, s, items, path, depth, nodes + 1);
      case _ =>
    }
  }

  lemma CleanParts(rx: Engine, s: Schema, v: Value, path: Path, depth: nat, nodes: nat)
    requires s.Schema? && Node(rx, s, v, path, depth, nodes).issues == []
    ensures Combinators(rx, s, v, path, depth) == [] && TypeFits(s, v) && ScalarIssues(rx, s, v, path) == []
    ensures v.JObject? ==> Object(rx, s, v.members, path, depth, nodes + 1).issues == []
    ensures v.JArray? ==> Array(rx, s, v.items, path, depth, nodes + 1).issues == []
  {
  }

  lemma {:induction false} CleanCombined(rx: Engine, s: Schema, v: Value, path: Path, depth: nat)
    requires s.Schema? && Plain(s) && DivisionsReach(s, v) && Combinators(rx, s, v, path, depth) == []
    ensures CombinedHolds(rx, s, v)
    decreases s, 3, 0
  {
    PlainChildren(s);
    ChildrenOf(s);
    forall c | c in Children(s) ensures DivisionsReach(c, v) {
      ReachBelow(s, c, v);
    }
    CleanAllOf(rx, s, BranchesOf(s.allOf), v, path, depth);
    if s.anyOf.Branches? {
      CleanAnyOf(rx, s, BranchesOf(s.anyOf), v, path, depth);
    }
  }

  lemma {:induction false} CleanAllOf(rx: Engine, parent: Schema, branches: seq<Schema>, v: Value, path: Path,
                                      depth: nat)
    requires forall i :: 0 <= i < |branches| ==>
                 branches[i] < parent && Plain(branches[i]) && DivisionsReach(branches[i], v)
    requires AllOf(rx, parent, branches, v, path, depth) == []
    ensures AllHold(rx, parent, branches, v)
    decreases parent, 0, |branches|
  {
    if branches != [] {
      CleanImpliesSatisfies(rx, branches[0], v, path, depth + 1, 0);
      CleanAllOf(rx, parent, branches[1..], v, path, depth);
    }
  }

  lemma {:induction false} CleanAnyOf(rx: Engine, parent: Schema, branches: seq<Schema>, v: Value, path: Path,
                                      depth: nat)
    requires forall i :: 0 <= i < |branches| ==>
                 branches[i] < parent && Plain(branches[i]) && DivisionsReach(branches[i], v)
    requires Valid(rx, parent, branches, v, path, depth) > 0
    ensures SomeHolds(rx, parent, branches, v)
    decreases parent, 0, |branches|
  {
    if Node(rx, branches[0], v, path, depth + 1, 0).issues == [] {
      CleanImpliesSatisfies(rx, branches[0], v, path, depth + 1, 0);
    } else {
      CleanAnyOf(rx, parent, branches[1..], v, path, depth);
      var i :| 0 <= i < |branches[1..]| && Satisfies(rx, branches[1..][i], v);
      assert Satisfies(rx, branches[i + 1], v);
    }
  }

  lemma {:induction false} CleanObject(rx: Engine, s: Schema, members: seq<Field>, path: Path, depth: nat, nodes: nat)
    requires s.Schema? && Plain(s) && DivisionsReach(s, JObject(members))
    requires Object(rx, s, members, path, depth, nodes).issues == []
    ensures ObjectHolds(rx, s, members)
    decreases s, 3, 0
  {
    assert ObjectHead(s, |members|, path) == [];
    forall i | 0 <= i < |members| ensures DivisionsReach(s, members[i].value) {
      ReachMember(s, members, i);
    }
    CleanMembers(rx, s, members, path, depth, nodes);
    var names := NamesOf(s.required);
    forall i | 0 <= i < |names| ensures HasKey(members, names[i]) {
      HasKeyIffFound(members, names[i]);
    }
  }

  lemma {:induction false} CleanMembers(rx: Engine, s: Schema, members: seq<Field>, path: Path, depth: nat, nodes: nat)
    requires s.Schema? && Plain(s) && Members(rx, s, members, path, depth, nodes).issues == []
    requires forall i :: 0 <= i < |members| ==> DivisionsReach(s, members[i].value)
    ensures forall i :: 0 <= i < |members| ==> MemberHolds(rx, s, members[i])
    decreases s, 2, |members|
  {
    if members != [] {
      CleanMember(rx, s, members[0], path, depth, nodes);
      CleanMembers(rx, s, members[1..], path, depth, MemberTrace(rx, s, members[0], path, depth, nodes).nodes);
      var holds := (m: Field, i: nat) => MemberHolds(rx, s, m);
      FirstAndRest(members, 0, holds);
      assert forall i :: 0 <= i < |members| ==> holds(members[i], 0 + i);
    }
  }

  lemma {:induction false} CleanMember(rx: Engine, s: Schema, m: Field, path: Path, depth: nat, nodes: nat)
    requires s.Schema? && Plain(s) && DivisionsReach(s, m.value)
    requires MemberTrace(rx, s, m, path, depth, nodes).issues == []
    ensures MemberHolds(rx, s, m)
    decreases s, 1, 0
  {
    PlainChildren(s);
    ChildrenOf(s);
    forall c | c in Children(s) ensures DivisionsReach(c, m.value) {
      ReachBelow(s, c, m.value);
    }
    var child := path + [Property(m.key)];
    var entries, patterns := EntriesOf(s.properties), EntriesOf(s.patternProperties);
    var i := FindEntry(entries, m.key);
    var named := NamedTrace(rx, s, m, child, depth, nodes);
    var matching := MatchingEntries(rx, patterns, m.key);
    var matched := Patterns(rx, s, matching, m.value, child, depth, named.nodes);
    if i >= 0 {
      CleanImpliesSatisfies(rx, entries[i].schema, m.value, child, depth + 1, nodes);
    }
    CleanPatterns(rx, s, matching, m.value, child, depth, named.nodes);
    NothingAdditional(rx, s, m.key);
    if !Claimed(rx, s, m.key) && ExtraRule(s.additionalProperties).Check? {
      CleanImpliesSatisfies(rx, s.additionalProperties.schema, m.value, child, depth + 1, matched.nodes);
    }
    forall sub | sub < s && Governs(rx, s, m.key, sub) ensures Satisfies(rx, sub, m.value) {
      GovernedBy(rx, s, m.key, sub);
    }
  }

  /** The additional rule applies exactly when no name and no pattern does. */
  lemma NothingAdditional(rx: Engine, s: Schema, key: string)
    requires s.Schema?
    ensures Additional(rx, s, key) <==> !Claimed(rx, s, key)
  {
    var matching := MatchingEntries(rx, EntriesOf(s.patternProperties), key);
    var entries := EntriesOf(s.properties);
    var i := FindEntry(entries, key);
    if i >= 0 {
      assert entries[i] in entries;
    }
    if matching != [] {
      assert matching[0] in matching;
    }
  }

  /** Where a governing subschema comes from. */
  lemma GovernedBy(rx: Engine, s: Schema, key: string, sub: Schema)
    requires s.Schema? && DistinctNames(s) && Governs(rx, s, key, sub)
    ensures var entries := EntriesOf(s.properties); var i := FindEntry(entries, key);
            || (i >= 0 && entries[i].schema == sub)
            || (exists e :: e in MatchingEntries(rx, EntriesOf(s.patternProperties), key) && e.schema == sub)
            || (Additional(rx, s, key) && s.additionalProperties == Matching(sub) && sub.Schema?)
  {
    var entries := EntriesOf(s.properties);
    if exists e :: e in entries && e.name == key && e.schema == sub {
      var e :| e in entries && e.name == key && e.schema == sub;
      var j :| 0 <= j < |entries| && entries[j] == e;
      var i := FindEntry(entries, key);
      assert i == j;
    }
  }

  lemma {:induction false} CleanPatterns(rx: Engine, parent: Schema, entries: seq<Named>, v: Value, child: Path,
                                         depth: nat, nodes: nat)
    requires forall e :: e in entries ==> e.schema < parent && Plain(e.schema) && DivisionsReach(e.schema, v)
    requires Patterns(rx, parent, entries, v, child, depth, nodes).issues == []
    ensures forall e :: e in entries ==> Satisfies(rx, e.schema, v)
    decreases parent, 0, |entries|
  {
    if entries != [] {
      CleanImpliesSatisfies(rx, entries[0].schema, v, child, depth + 1, nodes);
      CleanPatterns(rx, parent, entries[1..], v, child, depth,
                    Node(rx, entries[0].schema, v, child, depth + 1, nodes).nodes);
    }
  }

  lemma {:induction false} CleanArray(rx: Engine, s: Schema, items: seq<Value>, path: Path, depth: nat, nodes: nat)
    requires s.Schema? && Plain(s) && DivisionsReach(s, JArray(items))
    requires Array(rx, s, items, path, depth, nodes).issues == []
    ensures ArrayHolds(rx, s, items)
    decreases s, 3, 0
  {
    assert ArrayHead(s, |items|, path) == [];
    forall i | 0 <= i < |items| ensures DivisionsReach(s, items[i]) {
      ReachItem(s, items, i);
    }
    CleanItems(rx, s, items, 0, path, depth, nodes);
  }

  lemma {:induction false} CleanItems(rx: Engine, s: Schema, items: seq<Value>, index: nat, path: Path, depth: nat,
                                      nodes: nat)
    requires s.Schema? && Plain(s) && ItemsFrom(rx, s, items, index, path, depth, nodes).issues == []
    requires forall i :: 0 <= i < |items| ==> DivisionsReach(s, items[i])
    ensures forall i :: 0 <= i < |items| ==> ItemHolds(rx, s, items[i], index + i)
    decreases s, 2, |items|
  {
    if items != [] {
      CleanItem(rx, s, items[0], index, path, depth, nodes);
      CleanItems(rx, s, items[1..], index + 1, path, depth,
                 ItemTrace(rx, s, items[0], index, path, depth, nodes).nodes);
      var holds := (v: Value, i: nat) => ItemHolds(rx, s, v, i);
      FirstAndRest(items, index, holds);
      assert forall i :: 0 <= i < |items| ==> holds(items[i], index + i);
    }
  }

  lemma FirstAndRest<T>(items: seq<T>, index: nat, holds: (T, nat) -> bool)
    requires items != [] && holds(items[0], index)
    requires forall i :: 0 <= i < |items[1..]| ==> holds(items[1..][i], index + 1 + i)
    ensures forall i :: 0 <= i < |items| ==> holds(items[i], index + i)
  {
    forall i | 1 <= i < |items| ensures holds(items[i], index + i) {
      assert holds(items[1..][i - 1], index + 1 + (i - 1));
    }
  }

  lemma {:induction false} CleanItem(rx: Engine, s: Schema, v: Value, index: nat, path: Path, depth: nat, nodes: nat)
    requires s.Schema? && Plain(s) && DivisionsReach(s, v)
    requires ItemTrace(rx, s, v, index, path, depth, nodes).issues == []
    ensures ItemHolds(rx, s, v, index)
    decreases s, 1, 0
  {
    PlainChildren(s);
    ChildrenOf(s);
    var rule := ItemRule(s, index);
    if rule.Check? {
      RuleIsChild(s, index);
      ReachBelow(s, rule.schema, v);
      CleanImpliesSatisfies(rx, rule.schema, v, path + [Index(index)], depth + 1, nodes);
    }
  }
}
