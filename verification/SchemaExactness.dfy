/**
 * Exactness when no size guard fires: for every schema, `oneOf` and `not` included, the traversal finds nothing
 * exactly when the value conforms, and it visits exactly the nodes counted here.
 */
module SchemaExactness {
  import opened Wrappers
  import opened Json
  import opened SchemaModel
  import opened SchemaTrace
  import opened SchemaSemantics
  import opened SchemaSoundness

  // ----- Nodes one traversal visits on its own counter -----

  function Visits(rx: Engine, s: Schema, v: Value): nat
    decreases s, 3, 0
  {
    if s.NotAnObject? || !TypeFits(s, v) then 1
    else
      match v
      case JObject(members) => 1 + MembersVisits(rx, s, members)
      case JArray(items) => 1 + ItemsVisits(rx, s, items, 0)
      case _ => 1
  }

  function MembersVisits(rx: Engine, s: Schema, members: seq<Field>): nat
    requires s.Schema?
    decreases s, 2, |members|
  {
    if members == [] then 0 else MemberVisits(rx, s, members[0]) + MembersVisits(rx, s, members[1..])
  }

  function MemberVisits(rx: Engine, s: Schema, m: Field): nat
    requires s.Schema?
    decreases s, 1, 0
  {
    NamedVisits(rx, s, m)
    + PatternsVisits(rx, s, MatchingEntries(rx, EntriesOf(s.patternProperties), m.key), m.value)
    + ExtraVisits(rx, s, m)
  }

  function NamedVisits(rx: Engine, s: Schema, m: Field): nat
    requires s.Schema?
    decreases s, 0, 0
  {
    var entries := EntriesOf(s.properties);
    var i := FindEntry(entries, m.key);
    if i >= 0 then Visits(rx, entries[i].schema, m.value) else 0
  }

  function ExtraVisits(rx: Engine, s: Schema, m: Field): nat
    requires s.Schema?
    decreases s, 0, 0
  {
    var rule := ExtraRule(s.additionalProperties);
    if !Claimed(rx, s, m.key) && rule.Check? then Visits(rx, rule.schema, m.value) else 0
  }

  function PatternsVisits(rx: Engine, parent: Schema, entries: seq<Named>, v: Value): nat
    requires forall e :: e in entries ==> e.schema < parent
    decreases parent, 0, |entries|
  {
    if entries == [] then 0 else Visits(rx, entries[0].schema, v) + PatternsVisits(rx, parent, entries[1..], v)
  }

  function ItemsVisits(rx: Engine, s: Schema, items: seq<Value>, index: nat): nat
    requires s.Schema?
    decreases s, 2, |items|
  {
    if items == [] then 0 else ItemVisits(rx, s, items[0], index) + ItemsVisits(rx, s, items[1..], index + 1)
  }

  function ItemVisits(rx: Engine, s: Schema, v: Value, index: nat): nat
    requires s.Schema?
    decreases s, 1, 0
  {
    var rule := ItemRule(s, index);
    if rule.Check? then Visits(rx, rule.schema, v) else 0
  }

  // ----- No size guard fires -----

  /**
   * The validator can see what the schema asks of the value itself: its equality gives up below the nesting limit, and
   * it knows integers in the safe range only.
   */
  predicate ValueReaches(s: Schema, v: Value)
    requires s.Schema?
  {
    (s.allowed.Some? || s.constant.Some? ==> Levels(v) <= MAX_DEPTH) && TypeReaches(s, v)
  }

  predicate ScalarReaches(s: Schema, v: Value)
    requires s.Schema?
  {
    ValueReaches(s, v) && DivisionReaches(s, v)
  }

  ghost predicate MemberFits(rx: Engine, s: Schema, m: Field)
    requires s.Schema?
    decreases s, 0
  {
    forall sub | sub < s :: Governs(rx, s, m.key, sub) ==> Fits(rx, sub, m.value)
  }

  ghost predicate ItemFits(rx: Engine, s: Schema, v: Value, index: nat)
    requires s.Schema?
    decreases s, 0
  {
    var rule := ItemRule(s, index);
    rule.Check? ==> Fits(rx, rule.schema, v)
  }

  /** Every nesting, size and counter the validator limits stays within its limit on this schema and value. */
  ghost predicate Fits(rx: Engine, s: Schema, v: Value)
    decreases s, 1
  {
    (s.Schema? ==>
      && (forall c :: c in Alternatives(s) ==> Visits(rx, c, v) <= MAX_NODES && Fits(rx, c, v))
      && ScalarReaches(s, v)
      && (v.JObject? ==> |v.members| <= MAX_PROPERTIES && forall i :: 0 <= i < |v.members| ==>
          MemberFits(rx, s, v.members[i]))
      && (v.JArray? ==> |v.items| <= MAX_ITEMS && forall i :: 0 <= i < |v.items| ==> ItemFits(rx, s, v.items[i], i)))
  }

  ghost predicate Sane(rx: Engine, s: Schema, depth: nat) {
    DistinctNames(s) && Usable(rx, s, depth)
  }

  lemma SaneChildren(rx: Engine, s: Schema, depth: nat)
    requires Sane(rx, s, depth)
    ensures forall c :: c in Children(s) ==> Sane(rx, c, depth + 1)
  {
  }

  // ----- Agreement -----

  /**
   * The checks of the value itself pass whenever it conforms and they can see it. When they pass they could see it, and
   * it conforms exactly where the division is exact.
   */
  lemma ScalarsAgree(rx: Engine, s: Schema, v: Value, path: Path)
    requires s.Schema? && WellFormed(v) && DistinctNames(s)
    ensures ScalarHolds(rx, s, v) && ValueReaches(s, v) ==> TypeFits(s, v) && ScalarIssues(rx, s, v, path) == []
    ensures TypeFits(s, v) && ScalarIssues(rx, s, v, path) == [] ==>
              ValueReaches(s, v) && (ScalarHolds(rx, s, v) <==> DivisionReaches(s, v))
  {
    TypeFitsIff(s, v);
    AllowedAgrees(s, v);
    ConstantAgrees(s, v);
    if v.JString? {
      StringAgrees(rx, s, v.s, path);
    }
    if v.JNumber? {
      NumberAgrees(s, v.n, path);
      if s.multipleOf.Limit? && s.multipleOf.n > 0 {
        MultipleAgrees(s, v.n);
      }
    }
    ScalarParts(rx, s, v, path);
  }

  lemma AllowedAgrees(s: Schema, v: Value)
    requires s.Schema? && (s.allowed.Some? ==> WellFormed(v) && forall i :: 0 <= i < |s.allowed.value| ==>
                           WellFormed(s.allowed.value[i]))
    ensures s.allowed.Some? ==>
              (!EnumMissed(s, v) <==>
                Levels(v) <= MAX_DEPTH && exists i :: 0 <= i < |s.allowed.value| && Equivalent(s.allowed.value[i], v))
  {
    if s.allowed.Some? {
      forall i | 0 <= i < |s.allowed.value|
        ensures JsonEqual(s.allowed.value[i], v, 0) <==> Equivalent(s.allowed.value[i], v) && Levels(v) <= MAX_DEPTH
      {
        JsonEqualIff(s.allowed.value[i], v);
        if Equivalent(s.allowed.value[i], v) {
          EqualLevels(s.allowed.value[i], v);
        }
      }
    }
  }

  lemma ConstantAgrees(s: Schema, v: Value)
    requires s.Schema? && (s.constant.Some? ==> WellFormed(v) && WellFormed(s.constant.value))
    ensures s.constant.Some? ==> (!ConstantMissed(s, v) <==> Levels(v) <= MAX_DEPTH && Equivalent(s.constant.value, v))
  {
    if s.constant.Some? {
      JsonEqualIff(s.constant.value, v);
      if Equivalent(s.constant.value, v) {
        EqualLevels(s.constant.value, v);
      }
    }
  }

  lemma ScalarParts(rx: Engine, s: Schema, v: Value, path: Path)
    requires s.Schema?
    ensures ScalarIssues(rx, s, v, path) == [] <==>
              && !EnumMissed(s, v) && !ConstantMissed(s, v)
              && (v.JString? ==> StringIssues(rx, s, v.s, path) == [])
              && (v.JNumber? ==> NumberIssues(s, v.n, path) == [])
  {
  }

  /** When no guard fires, a traversal is clean exactly when the value conforms. */
  lemma {:induction false} CleanIffSatisfies(rx: Engine, s: Schema, v: Value, path: Path, depth: nat, nodes: nat)
    requires Sane(rx, s, depth) && WellFormed(v) && Fits(rx, s, v) && nodes + Visits(rx, s, v) <= MAX_NODES
    ensures Node(rx, s, v, path, depth, nodes).nodes == nodes + Visits(rx, s, v)
    ensures Node(rx, s, v, path, depth, nodes).issues == [] <==> Satisfies(rx, s, v)
    decreases s, 5, 0
  {
    if s.Schema? {
      CombinedAgrees(rx, s, v, path, depth);
      ScalarsAgree(rx, s, v, path);
      if TypeFits(s, v) {
        InsideAgrees(rx, s, v, path, depth, nodes);
      }
      NodeAssembled(rx, s, v, path, depth, nodes);
      SatisfiesAssembled(rx, s, v);
    }
  }

  ghost predicate InsideClean(rx: Engine, s: Schema, v: Value, path: Path, depth: nat, nodes: nat)
    requires s.Schema?
  {
    match v
    case JObject(members) => Object(rx, s, members, path, depth, nodes).issues == []
    case JArray(items) => Array(rx, s, items, path, depth, nodes).issues == []
    case _ => true
  }

  ghost predicate InsideHolds(rx: Engine, s: Schema, v: Value)
    requires s.Schema?
  {
    match v
    case JObject(members) => ObjectHolds(rx, s, members)
    case JArray(items) => ArrayHolds(rx, s, items)
    case _ => true
  }

  lemma {:induction false} InsideAgrees(rx: Engine, s: Schema, v: Value, path: Path, depth: nat, nodes: nat)
    requires s.Schema? && Sane(rx, s, depth) && WellFormed(v) && Fits(rx, s, v) && TypeFits(s, v)
        && nodes + Visits(rx, s, v) <= MAX_NODES
    ensures InsideClean(rx, s, v, path, depth, nodes + 1) <==> InsideHolds(rx, s, v)
    ensures v.JObject? ==> Object(rx, s, v.members, path, depth, nodes + 1).nodes == nodes + Visits(rx, s, v)
    ensures v.JArray? ==> Array(rx, s, v.items, path, depth, nodes + 1).nodes == nodes + Visits(rx, s, v)
    ensures !v.JObject? && !v.JArray? ==> Visits(rx, s, v) == 1
    decreases s, 4, 0
  {
    match v
    case JObject(members) => ObjectAgrees(rx, s, members, path, depth, nodes + 1);
    case JArray(items) => ArrayAgrees(rx, s, items, path, depth, nodes + 1);
    case _ =>
  }

  lemma NodeAssembled(rx: Engine, s: Schema, v: Value, path: Path, depth: nat, nodes: nat)
    requires s.Schema? && depth <= MAX_DEPTH && nodes + 1 <= MAX_NODES
    ensures Node(rx, s, v, path, depth, nodes).issues == [] <==>
              && Combinators(rx, s, v, path, depth) == [] && TypeFits(s, v) && ScalarIssues(rx, s, v, path) == []
              && InsideClean(rx, s, v, path, depth, nodes + 1)
    ensures Node(rx, s, v, path, depth, nodes).nodes ==
              if TypeFits(s, v) && v.JObject? then Object(rx, s, v.members, path, depth, nodes + 1).nodes
              else if TypeFits(s, v) && v.JArray? then Array(rx, s, v.items, path, depth, nodes + 1).nodes
              else nodes + 1
  {
  }

  lemma SatisfiesAssembled(rx: Engine, s: Schema, v: Value)
    requires s.Schema?
    ensures Satisfies(rx, s, v) <==> ScalarHolds(rx, s, v) && InsideHolds(rx, s, v) && CombinedHolds(rx, s, v)
  {
  }

  ghost function Conforming(rx: Engine, branches: seq<Schema>, v: Value): nat {
    if branches == [] then 0 else (if Satisfies(rx, branches[0], v) then 1 else 0) + Conforming(rx, branches[1..], v)
  }

  lemma AllStep(rx: Engine, parent: Schema, branches: seq<Schema>, v: Value)
    requires branches != [] && forall k :: 0 <= k < |branches| ==> branches[k] < parent
    ensures AllHold(rx, parent, branches, v) <==> Satisfies(rx, branches[0], v) && AllHold(rx, parent, branches[1..], v)
  {
    var rest := branches[1..];
    assert forall j :: 1 <= j < |branches| ==> branches[j] == rest[j - 1];
    assert forall j :: 0 <= j < |rest| ==> rest[j] == branches[j + 1];
  }

  lemma SomeStep(rx: Engine, parent: Schema, branches: seq<Schema>, v: Value)
    requires branches != [] && forall k :: 0 <= k < |branches| ==> branches[k] < parent
    ensures SomeHolds(rx, parent, branches, v) <==>
        Satisfies(rx, branches[0], v) || SomeHolds(rx, parent, branches[1..], v)
  {
    var rest := branches[1..];
    assert forall j :: 1 <= j < |branches| ==> branches[j] == rest[j - 1];
    assert forall j :: 0 <= j < |rest| ==> rest[j] == branches[j + 1];
  }

  lemma TheOne(rx: Engine, parent: Schema, branches: seq<Schema>, v: Value) returns (i: int)
    requires forall k :: 0 <= k < |branches| ==> branches[k] < parent
    requires ExactlyOneHolds(rx, parent, branches, v)
    ensures OnlyOne(rx, parent, branches, v, i)
  {
    i :| OnlyOne(rx, parent, branches, v, i);
  }

  lemma OneStep(rx: Engine, parent: Schema, branches: seq<Schema>, v: Value)
    requires branches != [] && forall k :: 0 <= k < |branches| ==> branches[k] < parent
    ensures ExactlyOneHolds(rx, parent, branches, v) <==>
              if Satisfies(rx, branches[0], v) then !SomeHolds(rx, parent, branches[1..], v)
              else ExactlyOneHolds(rx, parent, branches[1..], v)
  {
    var rest := branches[1..];
    assert forall j :: 1 <= j < |branches| ==> branches[j] == rest[j - 1];
    if Satisfies(rx, branches[0], v) {
      if SomeHolds(rx, parent, rest, v) {
        var k :| 0 <= k < |rest| && Satisfies(rx, rest[k], v);
        assert Satisfies(rx, branches[k + 1], v);
      } else {
        assert OnlyOne(rx, parent, branches, v, 0);
      }
    } else {
      if ExactlyOneHolds(rx, parent, rest, v) {
        var i := TheOne(rx, parent, rest, v);
        OnlyOneLater(rx, parent, branches, v, i);
      }
      if ExactlyOneHolds(rx, parent, branches, v) {
        var i := TheOne(rx, parent, branches, v);
        OnlyOneLater(rx, parent, branches, v, i - 1);
      }
    }
  }

  /** With a first branch that fails, the only conforming branch is the only one of the rest. */
  lemma OnlyOneLater(rx: Engine, parent: Schema, branches: seq<Schema>, v: Value, i: int)
    requires forall k :: 0 <= k < |branches| ==> branches[k] < parent
    requires branches != [] && !Satisfies(rx, branches[0], v)
    ensures OnlyOne(rx, parent, branches, v, i + 1) <==> OnlyOne(rx, parent, branches[1..], v, i)
  {
    var rest := branches[1..];
    assert forall j :: 0 <= j < |rest| ==> rest[j] == branches[j + 1];
    assert forall j :: 1 <= j < |branches| ==> branches[j] == rest[j - 1];
  }

  lemma {:induction false} ConformingCount(rx: Engine, parent: Schema, branches: seq<Schema>, v: Value)
    requires forall k :: 0 <= k < |branches| ==> branches[k] < parent
    ensures Conforming(rx, branches, v) > 0 <==> SomeHolds(rx, parent, branches, v)
    ensures Conforming(rx, branches, v) == 1 <==> ExactlyOneHolds(rx, parent, branches, v)
  {
    if branches != [] {
      ConformingCount(rx, parent, branches[1..], v);
      SomeStep(rx, parent, branches, v);
      OneStep(rx, parent, branches, v);
    }
  }

  ghost predicate BranchFits(rx: Engine, parent: Schema, c: Schema, v: Value, depth: nat) {
    c < parent && Sane(rx, c, depth + 1) && Visits(rx, c, v) <= MAX_NODES && Fits(rx, c, v)
  }

  ghost predicate BranchesFit(rx: Engine, parent: Schema, branches: seq<Schema>, v: Value, depth: nat) {
    forall i :: 0 <= i < |branches| ==> BranchFits(rx, parent, branches[i], v, depth)
  }

  lemma {:induction false} CombinedAgrees(rx: Engine, s: Schema, v: Value, path: Path, depth: nat)
    requires s.Schema? && Sane(rx, s, depth) && WellFormed(v) && Fits(rx, s, v)
    ensures Combinators(rx, s, v, path, depth) == [] <==> CombinedHolds(rx, s, v)
    decreases s, 3, 0
  {
    AlternativesAgree(rx, s, v, path, depth);
    CombinedParts(rx, s, v, path, depth);
  }

  lemma {:induction false} AlternativesAgree(rx: Engine, s: Schema, v: Value, path: Path, depth: nat)
    requires s.Schema? && Sane(rx, s, depth) && WellFormed(v) && Fits(rx, s, v)
    ensures AllOf(rx, s, BranchesOf(s.allOf), v, path, depth) == [] <==> AllHold(rx, s, BranchesOf(s.allOf), v)
    ensures Valid(rx, s, BranchesOf(s.anyOf), v, path, depth) > 0 <==> SomeHolds(rx, s, BranchesOf(s.anyOf), v)
    ensures Valid(rx, s, BranchesOf(s.oneOf), v, path, depth) == 1 <==> ExactlyOneHolds(rx, s, BranchesOf(s.oneOf), v)
    ensures s.negated.Some? ==> (Node(rx, s.negated.value, v, path, depth + 1, 0).issues == [] <==>
                                 Satisfies(rx, s.negated.value, v))
    decreases s, 2, 0
  {
    AlternativesFit(rx, s, v, depth);
    AllOfAgrees(rx, s, BranchesOf(s.allOf), v, path, depth);
    ValidAgrees(rx, s, BranchesOf(s.anyOf), v, path, depth);
    ConformingCount(rx, s, BranchesOf(s.anyOf), v);
    ValidAgrees(rx, s, BranchesOf(s.oneOf), v, path, depth);
    ConformingCount(rx, s, BranchesOf(s.oneOf), v);
    if s.negated.Some? {
      CleanIffSatisfies(rx, s.negated.value, v, path, depth + 1, 0);
    }
  }

  lemma CombinedParts(rx: Engine, s: Schema, v: Value, path: Path, depth: nat)
    requires s.Schema?
    ensures Combinators(rx, s, v, path, depth) == [] <==>
              && AllOf(rx, s, BranchesOf(s.allOf), v, path, depth) == []
              && (s.anyOf.Branches? ==> Valid(rx, s, BranchesOf(s.anyOf), v, path, depth) > 0)
              && (s.oneOf.Branches? ==> Valid(rx, s, BranchesOf(s.oneOf), v, path, depth) == 1)
              && (s.negated.Some? ==> Node(rx, s.negated.value, v, path, depth + 1, 0).issues != [])
  {
  }

  lemma AlternativesFit(rx: Engine, s: Schema, v: Value, depth: nat)
    requires s.Schema? && Sane(rx, s, depth) && Fits(rx, s, v)
    ensures BranchesFit(rx, s, BranchesOf(s.allOf), v, depth)
    ensures BranchesFit(rx, s, BranchesOf(s.anyOf), v, depth)
    ensures BranchesFit(rx, s, BranchesOf(s.oneOf), v, depth)
    ensures s.negated.Some? ==> BranchFits(rx, s, s.negated.value, v, depth)
  {
    forall c | c in Alternatives(s) ensures BranchFits(rx, s, c, v, depth) {
      AlternativeFits(rx, s, c, v, depth);
    }
    AlternativesOf(s);
  }

  lemma AlternativeFits(rx: Engine, s: Schema, c: Schema, v: Value, depth: nat)
    requires s.Schema? && Sane(rx, s, depth) && Fits(rx, s, v) && c in Alternatives(s)
    ensures BranchFits(rx, s, c, v, depth)
  {
    assert c in Children(s);
    SaneChildren(rx, s, depth);
  }

  lemma AlternativesOf(s: Schema)
    requires s.Schema?
    ensures forall c :: c in BranchesOf(s.allOf) || c in BranchesOf(s.anyOf) || c in BranchesOf(s.oneOf) ==>
        c in Alternatives(s)
    ensures s.negated.Some? ==> s.negated.value in Alternatives(s)
  {
  }

  lemma {:induction false} AllOfAgrees(rx: Engine, parent: Schema, branches: seq<Schema>, v: Value, path: Path,
                                       depth: nat)
    requires WellFormed(v) && BranchesFit(rx, parent, branches, v, depth)
    ensures AllOf(rx, parent, branches, v, path, depth) == [] <==> AllHold(rx, parent, branches, v)
    decreases parent, 0, |branches|
  {
    if branches != [] {
      AllStep(rx, parent, branches, v);
      FirstBranchAgrees(rx, parent, branches, v, path, depth);
      AllOfAgrees(rx, parent, branches[1..], v, path, depth);
    }
  }

  lemma {:induction false} FirstBranchAgrees(rx: Engine, parent: Schema, branches: seq<Schema>, v: Value, path: Path,
                                             depth: nat)
    requires WellFormed(v) && BranchesFit(rx, parent, branches, v, depth) && branches != []
    ensures Node(rx, branches[0], v, path, depth + 1, 0).issues == [] <==> Satisfies(rx, branches[0], v)
    ensures BranchesFit(rx, parent, branches[1..], v, depth)
    decreases parent, 0, 0
  {
    assert BranchFits(rx, parent, branches[0], v, depth);
    CleanIffSatisfies(rx, branches[0], v, path, depth + 1, 0);
    assert forall i :: 0 <= i < |branches[1..]| ==> branches[1..][i] == branches[i + 1];
  }

  lemma {:induction false} ValidAgrees(rx: Engine, parent: Schema, branches: seq<Schema>, v: Value, path: Path,
                                       depth: nat)
    requires WellFormed(v) && BranchesFit(rx, parent, branches, v, depth)
    ensures Valid(rx, parent, branches, v, path, depth) == Conforming(rx, branches, v)
    decreases parent, 0, |branches|
  {
    if branches != [] {
      CleanIffSatisfies(rx, branches[0], v, path, depth + 1, 0);
      ValidAgrees(rx, parent, branches[1..], v, path, depth);
    }
  }

  lemma {:induction false} ObjectAgrees(rx: Engine, s: Schema, members: seq<Field>, path: Path, depth: nat, nodes: nat)
    requires s.Schema? && Sane(rx, s, depth) && WellFormed(JObject(members)) && |members| <= MAX_PROPERTIES
    requires forall i :: 0 <= i < |members| ==> MemberFits(rx, s, members[i])
    requires nodes + MembersVisits(rx, s, members) <= MAX_NODES
    ensures Object(rx, s, members, path, depth, nodes).nodes == nodes + MembersVisits(rx, s, members)
    ensures Object(rx, s, members, path, depth, nodes).issues == [] <==> ObjectHolds(rx, s, members)
    decreases s, 3, 0
  {
    forall i | 0 <= i < |members| ensures MemberExact(rx, s, members[i], path, depth) {
      forall n: nat | n + MemberVisits(rx, s, members[i]) <= MAX_NODES
        ensures MemberTrace(rx, s, members[i], path, depth, n).nodes == n + MemberVisits(rx, s, members[i])
        ensures MemberTrace(rx, s, members[i], path, depth, n).issues == [] <==> MemberHolds(rx, s, members[i])
      {
        MemberAgrees(rx, s, members[i], path, depth, n);
      }
    }
    MembersAgree(rx, s, members, path, depth, nodes);
    MembersHoldAll(rx, s, members);
    RequiredAgrees(NamesOf(s.required), members);
  }

  ghost predicate MembersHold(rx: Engine, s: Schema, members: seq<Field>)
    requires s.Schema?
  {
    members == [] || (MemberHolds(rx, s, members[0]) && MembersHold(rx, s, members[1..]))
  }

  lemma {:induction false} MembersHoldAll(rx: Engine, s: Schema, members: seq<Field>)
    requires s.Schema?
    ensures MembersHold(rx, s, members) <==> forall i :: 0 <= i < |members| ==> MemberHolds(rx, s, members[i])
  {
    if members != [] {
      MembersHoldAll(rx, s, members[1..]);
      assert forall i :: 1 <= i < |members| ==> members[i] == members[1..][i - 1];
    }
  }

  lemma RequiredAgrees(names: seq<string>, members: seq<Field>)
    ensures (forall i :: 0 <= i < |names| ==> Lookup(members, names[i]) >= 0) <==> forall i :: 0 <= i < |names| ==>
        HasKey(members, names[i])
  {
    forall i | 0 <= i < |names| ensures Lookup(members, names[i]) >= 0 <==> HasKey(members, names[i]) {
      HasKeyIffFound(members, names[i]);
    }
  }

  /** Wherever the counter stands, one member's traversal counts its visits and is clean when the member conforms. */
  ghost predicate MemberExact(rx: Engine, s: Schema, m: Field, path: Path, depth: nat)
    requires s.Schema?
  {
    forall nodes: nat :: nodes + MemberVisits(rx, s, m) <= MAX_NODES ==>
      && MemberTrace(rx, s, m, path, depth, nodes).nodes == nodes + MemberVisits(rx, s, m)
      && (MemberTrace(rx, s, m, path, depth, nodes).issues == [] <==> MemberHolds(rx, s, m))
  }

  lemma {:induction false} MembersAgree(rx: Engine, s: Schema, members: seq<Field>, path: Path, depth: nat, nodes: nat)
    requires s.Schema? && forall i :: 0 <= i < |members| ==> MemberExact(rx, s, members[i], path, depth)
    requires nodes + MembersVisits(rx, s, members) <= MAX_NODES
    ensures Members(rx, s, members, path, depth, nodes).nodes == nodes + MembersVisits(rx, s, members)
    ensures Members(rx, s, members, path, depth, nodes).issues == [] <==> MembersHold(rx, s, members)
    decreases |members|
  {
    if members != [] {
      MembersStep(rx, s, members, path, depth, nodes);
      assert MemberExact(rx, s, members[0], path, depth);
      MembersAgree(rx, s, members[1..], path, depth, nodes + MemberVisits(rx, s, members[0]));
    }
  }

  lemma MembersStep(rx: Engine, s: Schema, members: seq<Field>, path: Path, depth: nat, nodes: nat)
    requires s.Schema? && members != []
    ensures var first := MemberTrace(rx, s, members[0], path, depth, nodes);
            Members(rx, s, members, path, depth, nodes)
              == Then(first, Members(rx, s, members[1..], path, depth, first.nodes))
    ensures MembersVisits(rx, s, members) == MemberVisits(rx, s, members[0]) + MembersVisits(rx, s, members[1..])
    ensures MembersHold(rx, s, members) <==> MemberHolds(rx, s, members[0]) && MembersHold(rx, s, members[1..])
  {
  }

  lemma {:induction false} MemberAgrees(rx: Engine, s: Schema, m: Field, path: Path, depth: nat, nodes: nat)
    requires s.Schema? && Sane(rx, s, depth) && WellFormed(m.value) && MemberFits(rx, s, m)
    requires nodes + MemberVisits(rx, s, m) <= MAX_NODES
    ensures MemberTrace(rx, s, m, path, depth, nodes).nodes == nodes + MemberVisits(rx, s, m)
    ensures MemberTrace(rx, s, m, path, depth, nodes).issues == [] <==> MemberHolds(rx, s, m)
    decreases s, 1, 1
  {
    GoverningFits(rx, s, m, depth);
    assert MemberVisits(rx, s, m) == NamedVisits(rx, s, m) + LaterVisits(rx, s, m);
    PiecesAgree(rx, s, m, path + [Property(m.key)], depth, nodes);
    MemberMeaning(rx, s, m);
    MemberParts(rx, s, m, path, depth, nodes);
  }

  lemma {:induction false} PiecesAgree(rx: Engine, s: Schema, m: Field, child: Path, depth: nat, nodes: nat)
    requires s.Schema? && WellFormed(m.value) && NamedFits(rx, s, m, depth) && ExtraFits(rx, s, m, depth)
    requires EntriesFit(rx, s, MatchingEntries(rx, EntriesOf(s.patternProperties), m.key), m.value, depth)
    requires MemberVisits(rx, s, m) == NamedVisits(rx, s, m) + LaterVisits(rx, s, m)
        && nodes + MemberVisits(rx, s, m) <= MAX_NODES
    ensures var matching := MatchingEntries(rx, EntriesOf(s.patternProperties), m.key);
            var named := NamedTrace(rx, s, m, child, depth, nodes);
            var matched := Patterns(rx, s, matching, m.value, child, depth, named.nodes);
            var extra := ExtraTrace(rx, s, m, child, depth, matched.nodes);
            && extra.nodes == nodes + MemberVisits(rx, s, m)
            && (named.issues == [] <==> NamedHolds(rx, s, m))
            && (matched.issues == [] <==> EntriesHold(rx, matching, m.value))
            && (extra.issues == [] <==> ExtraHolds(rx, s, m))
    decreases s, 1, 0
  {
    var named := NamedTrace(rx, s, m, child, depth, nodes);
    assert nodes + NamedVisits(rx, s, m) + LaterVisits(rx, s, m) <= MAX_NODES;
    NamedAgrees(rx, s, m, child, depth, nodes);
    assert named.nodes == nodes + NamedVisits(rx, s, m);
    LaterPiecesAgree(rx, s, m, child, depth, named.nodes);
  }

  function LaterVisits(rx: Engine, s: Schema, m: Field): nat
    requires s.Schema?
  {
    PatternsVisits(rx, s, MatchingEntries(rx, EntriesOf(s.patternProperties), m.key), m.value) + ExtraVisits(rx, s, m)
  }

  lemma {:induction false} LaterPiecesAgree(rx: Engine, s: Schema, m: Field, child: Path, depth: nat, nodes: nat)
    requires s.Schema? && WellFormed(m.value) && ExtraFits(rx, s, m, depth)
    requires EntriesFit(rx, s, MatchingEntries(rx, EntriesOf(s.patternProperties), m.key), m.value, depth)
    requires nodes + LaterVisits(rx, s, m) <= MAX_NODES
    ensures var matching := MatchingEntries(rx, EntriesOf(s.patternProperties), m.key);
            var matched := Patterns(rx, s, matching, m.value, child, depth, nodes);
            var extra := ExtraTrace(rx, s, m, child, depth, matched.nodes);
            && extra.nodes == nodes + LaterVisits(rx, s, m)
            && (matched.issues == [] <==> EntriesHold(rx, matching, m.value))
            && (extra.issues == [] <==> ExtraHolds(rx, s, m))
    decreases s, 0, |EntriesOf(s.patternProperties)| + 1
  {
    var matching := MatchingEntries(rx, EntriesOf(s.patternProperties), m.key);
    PatternsAgree(rx, s, matching, m.value, child, depth, nodes);
    ExtraAgrees(rx, s, m, child, depth, nodes + PatternsVisits(rx, s, matching, m.value));
  }

  lemma MemberParts(rx: Engine, s: Schema, m: Field, path: Path, depth: nat, nodes: nat)
    requires s.Schema? && Sane(rx, s, depth)
    ensures var child := path + [Property(m.key)];
            var matching := MatchingEntries(rx, EntriesOf(s.patternProperties), m.key);
            var named := NamedTrace(rx, s, m, child, depth, nodes);
            var matched := Patterns(rx, s, matching, m.value, child, depth, named.nodes);
            var extra := ExtraTrace(rx, s, m, child, depth, matched.nodes);
            var t := MemberTrace(rx, s, m, path, depth, nodes);
            t.nodes == extra.nodes && (t.issues == [] <==>
                                       named.issues == [] && matched.issues == []
                                       && extra.issues == [])
  {
    assert UncompiledIssues(rx, EntriesOf(s.patternProperties), path + [Property(m.key)]) == [];
  }

  ghost predicate NamedHolds(rx: Engine, s: Schema, m: Field)
    requires s.Schema?
  {
    var entries := EntriesOf(s.properties);
    var i := FindEntry(entries, m.key);
    i >= 0 ==> Satisfies(rx, entries[i].schema, m.value)
  }

  ghost predicate ExtraHolds(rx: Engine, s: Schema, m: Field)
    requires s.Schema?
  {
    !Claimed(rx, s, m.key) ==>
      match ExtraRule(s.additionalProperties)
      case Ignore => true
      case Refuse => false
      case Check(sub) => Satisfies(rx, sub, m.value)
  }

  ghost predicate NamedFits(rx: Engine, s: Schema, m: Field, depth: nat)
    requires s.Schema?
  {
    var entries := EntriesOf(s.properties);
    var i := FindEntry(entries, m.key);
    i >= 0 ==> var c := entries[i].schema; c < s && Sane(rx, c, depth + 1) && Fits(rx, c, m.value)
  }

  ghost predicate ExtraFits(rx: Engine, s: Schema, m: Field, depth: nat)
    requires s.Schema?
  {
    var rule := ExtraRule(s.additionalProperties);
    !Claimed(rx, s, m.key) && rule.Check? ==>
      rule.schema < s && Sane(rx, rule.schema, depth + 1)
      && Fits(rx, rule.schema, m.value)
  }

  lemma {:induction false} NamedAgrees(rx: Engine, s: Schema, m: Field, child: Path, depth: nat, nodes: nat)
    requires s.Schema? && WellFormed(m.value) && NamedFits(rx, s, m, depth)
        && nodes + NamedVisits(rx, s, m) <= MAX_NODES
    ensures NamedTrace(rx, s, m, child, depth, nodes).nodes == nodes + NamedVisits(rx, s, m)
    ensures NamedTrace(rx, s, m, child, depth, nodes).issues == [] <==> NamedHolds(rx, s, m)
    decreases s, 0, 0
  {
    var entries := EntriesOf(s.properties);
    var i := FindEntry(entries, m.key);
    if i >= 0 {
      CleanIffSatisfies(rx, entries[i].schema, m.value, child, depth + 1, nodes);
    }
  }

  lemma {:induction false} ExtraAgrees(rx: Engine, s: Schema, m: Field, child: Path, depth: nat, nodes: nat)
    requires s.Schema? && WellFormed(m.value) && ExtraFits(rx, s, m, depth)
        && nodes + ExtraVisits(rx, s, m) <= MAX_NODES
    ensures ExtraTrace(rx, s, m, child, depth, nodes).nodes == nodes + ExtraVisits(rx, s, m)
    ensures ExtraTrace(rx, s, m, child, depth, nodes).issues == [] <==> ExtraHolds(rx, s, m)
    decreases s, 0, 0
  {
    var rule := ExtraRule(s.additionalProperties);
    if !Claimed(rx, s, m.key) && rule.Check? {
      CleanIffSatisfies(rx, rule.schema, m.value, child, depth + 1, nodes);
    }
  }

  /** Every entry of the list can be checked within the limits. */
  ghost predicate EntriesFit(rx: Engine, parent: Schema, entries: seq<Named>, v: Value, depth: nat) {
    entries == [] ||
    (var c := entries[0].schema;
     c < parent && Sane(rx, c, depth + 1) && Fits(rx, c, v) && EntriesFit(rx, parent, entries[1..], v, depth))
  }

  ghost predicate EntriesHold(rx: Engine, entries: seq<Named>, v: Value) {
    entries == [] || (Satisfies(rx, entries[0].schema, v) && EntriesHold(rx, entries[1..], v))
  }

  lemma {:induction false} EntriesHoldAll(rx: Engine, entries: seq<Named>, v: Value)
    ensures EntriesHold(rx, entries, v) <==> forall e :: e in entries ==> Satisfies(rx, e.schema, v)
  {
    if entries != [] {
      EntriesHoldAll(rx, entries[1..], v);
      assert forall e :: e in entries <==> e == entries[0] || e in entries[1..];
    }
  }

  lemma {:induction false} EntriesFitAll(rx: Engine, parent: Schema, entries: seq<Named>, v: Value, depth: nat)
    requires forall e :: e in entries ==> e.schema < parent && Sane(rx, e.schema, depth + 1) && Fits(rx, e.schema, v)
    ensures EntriesFit(rx, parent, entries, v, depth)
  {
    if entries != [] {
      assert entries[0] in entries;
      EntriesFitAll(rx, parent, entries[1..], v, depth);
    }
  }

  /** Every subschema the traversal applies to a member is one that governs it. */
  lemma GoverningFits(rx: Engine, s: Schema, m: Field, depth: nat)
    requires s.Schema? && Sane(rx, s, depth) && MemberFits(rx, s, m)
    ensures NamedFits(rx, s, m, depth) && ExtraFits(rx, s, m, depth)
    ensures EntriesFit(rx, s, MatchingEntries(rx, EntriesOf(s.patternProperties), m.key), m.value, depth)
  {
    ChildrenOf(s);
    SaneChildren(rx, s, depth);
    NothingAdditional(rx, s, m.key);
    var entries := EntriesOf(s.properties);
    var matching := MatchingEntries(rx, EntriesOf(s.patternProperties), m.key);
    var i := FindEntry(entries, m.key);
    if i >= 0 {
      assert entries[i] in entries;
      assert Governs(rx, s, m.key, entries[i].schema);
    }
    forall e | e in matching
      ensures e.schema < s && Sane(rx, e.schema, depth + 1) && Fits(rx, e.schema, m.value)
    {
      assert Governs(rx, s, m.key, e.schema);
    }
    EntriesFitAll(rx, s, matching, m.value, depth);
    if Additional(rx, s, m.key) && ExtraRule(s.additionalProperties).Check? {
      assert Governs(rx, s, m.key, s.additionalProperties.schema);
    }
  }

  /** What a member must meet, split by where the subschema comes from. */
  lemma MemberMeaning(rx: Engine, s: Schema, m: Field)
    requires s.Schema? && DistinctNames(s)
    ensures var matching := MatchingEntries(rx, EntriesOf(s.patternProperties), m.key);
            MemberHolds(rx, s, m) <==>
              NamedHolds(rx, s, m) && EntriesHold(rx, matching, m.value)
              && ExtraHolds(rx, s, m)
  {
    var matching := MatchingEntries(rx, EntriesOf(s.patternProperties), m.key);
    EntriesHoldAll(rx, matching, m.value);
    if MemberHolds(rx, s, m) {
      MemberToParts(rx, s, m);
    }
    if NamedHolds(rx, s, m) && EntriesHold(rx, matching, m.value) && ExtraHolds(rx, s, m) {
      PartsToMember(rx, s, m);
    }
  }

  lemma MemberToParts(rx: Engine, s: Schema, m: Field)
    requires s.Schema? && MemberHolds(rx, s, m)
    ensures NamedHolds(rx, s, m) && ExtraHolds(rx, s, m)
    ensures forall e :: e in MatchingEntries(rx, EntriesOf(s.patternProperties), m.key) ==>
        Satisfies(rx, e.schema, m.value)
  {
    NothingAdditional(rx, s, m.key);
    var entries := EntriesOf(s.properties);
    var i := FindEntry(entries, m.key);
    if i >= 0 {
      assert entries[i] in entries;
      assert Governs(rx, s, m.key, entries[i].schema);
    }
    forall e | e in MatchingEntries(rx, EntriesOf(s.patternProperties), m.key)
      ensures Satisfies(rx, e.schema, m.value)
    {
      assert Governs(rx, s, m.key, e.schema);
    }
    if !Claimed(rx, s, m.key) && ExtraRule(s.additionalProperties).Check? {
      assert Governs(rx, s, m.key, s.additionalProperties.schema);
    }
  }

  lemma PartsToMember(rx: Engine, s: Schema, m: Field)
    requires s.Schema? && DistinctNames(s) && NamedHolds(rx, s, m) && ExtraHolds(rx, s, m)
    requires forall e :: e in MatchingEntries(rx, EntriesOf(s.patternProperties), m.key) ==>
        Satisfies(rx, e.schema, m.value)
    ensures MemberHolds(rx, s, m)
  {
    NothingAdditional(rx, s, m.key);
    forall sub | sub < s && Governs(rx, s, m.key, sub)
      ensures Satisfies(rx, sub, m.value)
    {
      GovernedBy(rx, s, m.key, sub);
    }
  }

  lemma {:induction false} PatternsAgree(rx: Engine, parent: Schema, entries: seq<Named>, v: Value, child: Path,
                                         depth: nat, nodes: nat)
    requires WellFormed(v) && EntriesFit(rx, parent, entries, v, depth) && forall e :: e in entries ==>
        e.schema < parent
    requires nodes + PatternsVisits(rx, parent, entries, v) <= MAX_NODES
    ensures Patterns(rx, parent, entries, v, child, depth, nodes).nodes
        == nodes + PatternsVisits(rx, parent, entries, v)
    ensures Patterns(rx, parent, entries, v, child, depth, nodes).issues == [] <==> EntriesHold(rx, entries, v)
    decreases parent, 0, |entries|
  {
    if entries != [] {
      PatternsStep(rx, parent, entries, v, child, depth, nodes);
      EntryAgrees(rx, parent, entries, v, child, depth, nodes);
      PatternsAgree(rx, parent, entries[1..], v, child, depth, nodes + Visits(rx, entries[0].schema, v));
    }
  }

  lemma PatternsStep(rx: Engine, parent: Schema, entries: seq<Named>, v: Value, child: Path, depth: nat, nodes: nat)
    requires entries != [] && forall e :: e in entries ==> e.schema < parent
    ensures var first := Node(rx, entries[0].schema, v, child, depth + 1, nodes);
            Patterns(rx, parent, entries, v, child, depth, nodes)
              == Then(first, Patterns(rx, parent, entries[1..], v, child, depth, first.nodes))
    ensures PatternsVisits(rx, parent, entries, v)
        == Visits(rx, entries[0].schema, v) + PatternsVisits(rx, parent, entries[1..], v)
  {
  }

  lemma {:induction false} EntryAgrees(rx: Engine, parent: Schema, entries: seq<Named>, v: Value, child: Path,
                                       depth: nat, nodes: nat)
    requires entries != [] && WellFormed(v) && EntriesFit(rx, parent, entries, v, depth)
    requires nodes + Visits(rx, entries[0].schema, v) <= MAX_NODES
    ensures Node(rx, entries[0].schema, v, child, depth + 1, nodes).nodes == nodes + Visits(rx, entries[0].schema, v)
    ensures Node(rx, entries[0].schema, v, child, depth + 1, nodes).issues == [] <==>
        Satisfies(rx, entries[0].schema, v)
    ensures EntriesFit(rx, parent, entries[1..], v, depth)
    ensures EntriesHold(rx, entries, v) <==> Satisfies(rx, entries[0].schema, v) && EntriesHold(rx, entries[1..], v)
    decreases parent, 0, 0
  {
    CleanIffSatisfies(rx, entries[0].schema, v, child, depth + 1, nodes);
  }

  lemma {:induction false} ArrayAgrees(rx: Engine, s: Schema, items: seq<Value>, path: Path, depth: nat, nodes: nat)
    requires s.Schema? && Sane(rx, s, depth) && WellFormed(JArray(items)) && |items| <= MAX_ITEMS
    requires forall i :: 0 <= i < |items| ==> ItemFits(rx, s, items[i], i)
    requires nodes + ItemsVisits(rx, s, items, 0) <= MAX_NODES
    ensures Array(rx, s, items, path, depth, nodes).nodes == nodes + ItemsVisits(rx, s, items, 0)
    ensures Array(rx, s, items, path, depth, nodes).issues == [] <==> ArrayHolds(rx, s, items)
    decreases s, 3, 0
  {
    assert items[0..] == items;
    ItemsFitAll(rx, s, items, 0);
    ItemsAgree(rx, s, items, 0, path, depth, nodes);
    ItemsHoldAll(rx, s, items, 0);
  }

  ghost predicate ItemsFit(rx: Engine, s: Schema, items: seq<Value>, index: nat)
    requires s.Schema?
  {
    items == [] || (WellFormed(items[0]) && ItemFits(rx, s, items[0], index) && ItemsFit(rx, s, items[1..], index + 1))
  }

  ghost predicate ItemsHold(rx: Engine, s: Schema, items: seq<Value>, index: nat)
    requires s.Schema?
  {
    items == [] || (ItemHolds(rx, s, items[0], index) && ItemsHold(rx, s, items[1..], index + 1))
  }

  lemma {:induction false} ItemsFitAll(rx: Engine, s: Schema, items: seq<Value>, index: nat)
    requires s.Schema? && index <= |items|
    requires forall i :: 0 <= i < |items| ==> WellFormed(items[i]) && ItemFits(rx, s, items[i], i)
    ensures ItemsFit(rx, s, items[index..], index)
    decreases |items| - index
  {
    if index < |items| {
      ItemsFitAll(rx, s, items, index + 1);
      assert items[index..][1..] == items[index + 1..];
    }
  }

  lemma {:induction false} ItemsHoldAll(rx: Engine, s: Schema, items: seq<Value>, index: nat)
    requires s.Schema? && index <= |items|
    ensures ItemsHold(rx, s, items[index..], index) <==> forall i :: index <= i < |items| ==>
        ItemHolds(rx, s, items[i], i)
    decreases |items| - index
  {
    if index < |items| {
      ItemsHoldAll(rx, s, items, index + 1);
      assert items[index..][1..] == items[index + 1..];
    }
  }

  lemma {:induction false} ItemsAgree(rx: Engine, s: Schema, items: seq<Value>, index: nat, path: Path, depth: nat,
                                      nodes: nat)
    requires s.Schema? && Sane(rx, s, depth) && ItemsFit(rx, s, items, index)
    requires nodes + ItemsVisits(rx, s, items, index) <= MAX_NODES
    ensures ItemsFrom(rx, s, items, index, path, depth, nodes).nodes == nodes + ItemsVisits(rx, s, items, index)
    ensures ItemsFrom(rx, s, items, index, path, depth, nodes).issues == [] <==> ItemsHold(rx, s, items, index)
    decreases s, 2, |items|
  {
    if items != [] {
      ItemAgrees(rx, s, items[0], index, path, depth, nodes);
      ItemsAgree(rx, s, items[1..], index + 1, path, depth, nodes + ItemVisits(rx, s, items[0], index));
    }
  }

  lemma ItemRuleSane(rx: Engine, s: Schema, index: nat, depth: nat)
    requires s.Schema? && Sane(rx, s, depth) && ItemRule(s, index).Check?
    ensures Sane(rx, ItemRule(s, index).schema, depth + 1)
  {
    var rule := ItemRule(s, index);
    assert rule.schema in Children(s) by {
      ChildrenOf(s);
      if s.items.Each? {
        assert OfItems(s.items)[0] == rule.schema;
      } else if index < |s.items.schemas| {
        assert OfItems(s.items)[index] == rule.schema;
      }
    }
    SaneChildren(rx, s, depth);
  }

  lemma {:induction false} ItemAgrees(rx: Engine, s: Schema, v: Value, index: nat, path: Path, depth: nat, nodes: nat)
    requires s.Schema? && Sane(rx, s, depth) && WellFormed(v) && ItemFits(rx, s, v, index)
    requires nodes + ItemVisits(rx, s, v, index) <= MAX_NODES
    ensures ItemTrace(rx, s, v, index, path, depth, nodes).nodes == nodes + ItemVisits(rx, s, v, index)
    ensures ItemTrace(rx, s, v, index, path, depth, nodes).issues == [] <==> ItemHolds(rx, s, v, index)
    decreases s, 1, 0
  {
    var rule := ItemRule(s, index);
    if rule.Check? {
      ItemRuleSane(rx, s, index, depth);
      CleanIffSatisfies(rx, rule.schema, v, path + [Index(index)], depth + 1, nodes);
    }
  }

  /**
   * A number outside the safe range is refused for its type, although it conforms, exactly when the types name integers
   * and not numbers.
   */
  lemma UnsafeIntegerRefused(rx: Engine, s: Schema, n: int, path: Path, depth: nat, nodes: nat)
    requires s.Schema? && !SafeInteger(n)
    ensures TypesHold(s, JNumber(n)) && !TypeFits(s, JNumber(n)) <==> "integer" in Types(s) && "number" !in Types(s)
    ensures "integer" in Types(s) && "number" !in Types(s) ==> Node(rx, s, JNumber(n), path, depth, nodes).issues != []
  {
    TypeFitsIff(s, JNumber(n));
    if "integer" in Types(s) {
      var i :| 0 <= i < |Types(s)| && Types(s)[i] == "integer";
      assert TypeHolds(Types(s)[i], JNumber(n));
    }
  }

  /** A value equal to the constant is refused exactly when it nests deeper than the limit. */
  lemma DeepConstantRefused(s: Schema, v: Value)
    requires s.Schema? && s.constant.Some? && WellFormed(v) && WellFormed(s.constant.value)
        && Equivalent(s.constant.value, v)
    ensures ConstantMissed(s, v) <==> Levels(v) > MAX_DEPTH
  {
    ConstantAgrees(s, v);
  }
}
