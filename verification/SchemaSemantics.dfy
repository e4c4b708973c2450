/**
 * What a schema means, independently of any traversal (the supported keywords of JSON Schema Validation draft-07,
 * with the boolean exclusive bounds of draft-04), and the agreement of the validator with it.
 */
module SchemaSemantics {
  import opened Wrappers
  import opened Json
  import opened SchemaModel
  import opened SchemaDivision
  import opened SchemaTrace

  // ----- Meaning -----

  ghost predicate TypeHolds(t: string, v: Value) {
    if t == "integer" then v.JNumber? else TypeName(t, v)
  }

  ghost predicate ScalarHolds(rx: Engine, s: Schema, v: Value)
    requires s.Schema?
  {
    && TypesHold(s, v)
    && (s.allowed.Some? ==> exists i :: 0 <= i < |s.allowed.value| && Equivalent(s.allowed.value[i], v))
    && (s.constant.Some? ==> Equivalent(s.constant.value, v))
    && (v.JString? ==>
         && (s.minLength.CountOf? ==> s.minLength.n <= |v.s|)
         && (s.maxLength.CountOf? ==> |v.s| <= s.maxLength.n)
         && (s.pattern.Regex? ==> rx.compiles(s.pattern.text) && rx.finds(s.pattern.text, v.s)))
    && (v.JNumber? ==>
         && (s.minimum.Limit? ==> s.minimum.n <= v.n)
         && (s.maximum.Limit? ==> v.n <= s.maximum.n)
         && (s.exclusiveMinimum.ExclusiveLimit? ==> s.exclusiveMinimum.n < v.n)
         && (s.exclusiveMinimum == Flag(true) && s.minimum.Limit? ==> s.minimum.n < v.n)
         && (s.exclusiveMaximum.ExclusiveLimit? ==> v.n < s.exclusiveMaximum.n)
         && (s.exclusiveMaximum == Flag(true) && s.maximum.Limit? ==> v.n < s.maximum.n)
         && (s.multipleOf.Limit? && s.multipleOf.n > 0 ==> exists q :: v.n == q * s.multipleOf.n))
  }

  /** The schemas that must hold of one member: those of its name, those of its patterns, else the additional one. */
  ghost predicate Governs(rx: Engine, s: Schema, key: string, sub: Schema)
    requires s.Schema?
  {
    || (exists e :: e in EntriesOf(s.properties) && e.name == key && e.schema == sub)
    || (exists e :: e in EntriesOf(s.patternProperties) && Applies(rx, e, key) && e.schema == sub)
    || (Additional(rx, s, key) && s.additionalProperties == Matching(sub) && sub.Schema?)
  }

  ghost predicate Additional(rx: Engine, s: Schema, key: string)
    requires s.Schema?
  {
    && (forall e :: e in EntriesOf(s.properties) ==> e.name != key)
    && (forall e :: e in EntriesOf(s.patternProperties) ==> !Applies(rx, e, key))
  }

  ghost predicate MemberHolds(rx: Engine, s: Schema, m: Field)
    requires s.Schema?
    decreases s, 0
  {
    && (s.additionalProperties == Allow(false) ==> !Additional(rx, s, m.key))
    && (forall sub | sub < s :: Governs(rx, s, m.key, sub) ==> Satisfies(rx, sub, m.value))
  }

  ghost predicate HasKey(members: seq<Field>, key: string) {
    exists m :: m in members && m.key == key
  }

  lemma HasKeyIffFound(members: seq<Field>, key: string)
    ensures HasKey(members, key) <==> Lookup(members, key) >= 0
  {
    var i := Lookup(members, key);
    if i >= 0 {
      assert members[i] in members;
    }
  }

  ghost predicate ObjectHolds(rx: Engine, s: Schema, members: seq<Field>)
    requires s.Schema?
    decreases s, 1
  {
    && (s.minProperties.CountOf? ==> s.minProperties.n <= |members|)
    && (s.maxProperties.CountOf? ==> |members| <= s.maxProperties.n)
    && (forall i :: 0 <= i < |NamesOf(s.required)| ==> HasKey(members, NamesOf(s.required)[i]))
    && (forall i :: 0 <= i < |members| ==> MemberHolds(rx, s, members[i]))
  }

  ghost predicate ItemHolds(rx: Engine, s: Schema, v: Value, i: nat)
    requires s.Schema?
    decreases s, 0
  {
    && (s.items.Each? && s.items.schema.Schema? ==> Satisfies(rx, s.items.schema, v))
    && (s.items.Positional? ==>
         if i < |s.items.schemas| then Satisfies(rx, s.items.schemas[i], v)
         else
           && s.additionalItems != Allow(false)
           && (s.additionalItems.Matching? && s.additionalItems.schema.Schema? ==>
               Satisfies(rx, s.additionalItems.schema, v)))
  }

  ghost predicate ArrayHolds(rx: Engine, s: Schema, items: seq<Value>)
    requires s.Schema?
    decreases s, 1
  {
    && (s.minItems.CountOf? ==> s.minItems.n <= |items|)
    && (s.maxItems.CountOf? ==> |items| <= s.maxItems.n)
    && forall i :: 0 <= i < |items| ==> ItemHolds(rx, s, items[i], i)
  }

  /** Branch i conforms and no other does. */
  ghost predicate OnlyOne(rx: Engine, parent: Schema, branches: seq<Schema>, v: Value, i: int)
    requires forall k :: 0 <= k < |branches| ==> branches[k] < parent
    decreases parent, 0
  {
    0 <= i < |branches| && Satisfies(rx, branches[i], v)
    && forall j :: 0 <= j < |branches| && j != i ==> !Satisfies(rx, branches[j], v)
  }

  ghost predicate AllHold(rx: Engine, parent: Schema, branches: seq<Schema>, v: Value)
    requires forall k :: 0 <= k < |branches| ==> branches[k] < parent
    decreases parent, 0
  {
    forall i :: 0 <= i < |branches| ==> Satisfies(rx, branches[i], v)
  }

  ghost predicate SomeHolds(rx: Engine, parent: Schema, branches: seq<Schema>, v: Value)
    requires forall k :: 0 <= k < |branches| ==> branches[k] < parent
    decreases parent, 0
  {
    exists i :: 0 <= i < |branches| && Satisfies(rx, branches[i], v)
  }

  ghost predicate ExactlyOneHolds(rx: Engine, parent: Schema, branches: seq<Schema>, v: Value)
    requires forall k :: 0 <= k < |branches| ==> branches[k] < parent
    decreases parent, 1
  {
    exists i :: OnlyOne(rx, parent, branches, v, i)
  }

  ghost predicate CombinedHolds(rx: Engine, s: Schema, v: Value)
    requires s.Schema?
    decreases s, 2
  {
    && AllHold(rx, s, BranchesOf(s.allOf), v)
    && (s.anyOf.Branches? ==> SomeHolds(rx, s, BranchesOf(s.anyOf), v))
    && (s.oneOf.Branches? ==> ExactlyOneHolds(rx, s, BranchesOf(s.oneOf), v))
    && (s.negated.Some? ==> !Satisfies(rx, s.negated.value, v))
  }

  /** The value conforms to the schema. */
  ghost predicate Satisfies(rx: Engine, s: Schema, v: Value)
    decreases s, 3
  {
    s.Schema? ==>
      && ScalarHolds(rx, s, v)
      && (v.JObject? ==> ObjectHolds(rx, s, v.members))
      && (v.JArray? ==> ArrayHolds(rx, s, v.items))
      && CombinedHolds(rx, s, v)
  }

  // ----- Subschemas -----

  function SchemasOf(entries: seq<Named>): (r: seq<Schema>)
    ensures |r| == |entries| && forall i :: 0 <= i < |entries| ==> r[i] == entries[i].schema
  {
    seq(|entries|, i requires 0 <= i < |entries| => entries[i].schema)
  }

  function OfExtra(x: Extra): seq<Schema> {
    if x.Matching? then [x.schema] else []
  }

  function OfItems(x: Items): seq<Schema> {
    match x
    case NoItems => []
    case Each(schema) => [schema]
    case Positional(schemas) => schemas
  }

  /** Subschemas that apply to the members or items of a value. */
  function Inner(s: Schema): (r: seq<Schema>)
    requires s.Schema?
    ensures forall c :: c in r ==> c < s
  {
    SchemasOf(EntriesOf(s.properties)) + SchemasOf(EntriesOf(s.patternProperties)) + OfExtra(s.additionalProperties)
    + OfItems(s.items) + OfExtra(s.additionalItems)
  }

  /** Subschemas that apply to the value itself. */
  function Alternatives(s: Schema): (r: seq<Schema>)
    requires s.Schema?
    ensures forall c :: c in r ==> c < s
  {
    BranchesOf(s.allOf) + BranchesOf(s.anyOf) + BranchesOf(s.oneOf)
      + (if s.negated.Some? then [s.negated.value] else [])
  }

  /** Immediate subschemas, under any keyword. */
  function Children(s: Schema): (r: seq<Schema>)
    ensures forall c :: c in r ==> c < s
  {
    if s.NotAnObject? then [] else Inner(s) + Alternatives(s)
  }

  lemma ChildrenOf(s: Schema)
    requires s.Schema?
    ensures forall e :: e in EntriesOf(s.properties) || e in EntriesOf(s.patternProperties) ==> e.schema in Children(s)
    ensures s.additionalProperties.Matching? ==> s.additionalProperties.schema in Children(s)
    ensures s.additionalItems.Matching? ==> s.additionalItems.schema in Children(s)
    ensures forall c :: c in OfItems(s.items) ==> c in Children(s)
    ensures forall c :: c in BranchesOf(s.allOf) || c in BranchesOf(s.anyOf) || c in BranchesOf(s.oneOf) ==>
        c in Children(s)
    ensures s.negated.Some? ==> s.negated.value in Children(s)
  {
    forall e | e in EntriesOf(s.properties) ensures e.schema in Children(s) {
      var i :| 0 <= i < |EntriesOf(s.properties)| && EntriesOf(s.properties)[i] == e;
      assert SchemasOf(EntriesOf(s.properties))[i] == e.schema;
    }
    forall e | e in EntriesOf(s.patternProperties) ensures e.schema in Children(s) {
      var i :| 0 <= i < |EntriesOf(s.patternProperties)| && EntriesOf(s.patternProperties)[i] == e;
      assert SchemasOf(EntriesOf(s.patternProperties))[i] == e.schema;
    }
  }

  lemma RuleIsChild(s: Schema, index: nat)
    requires s.Schema? && ItemRule(s, index).Check?
    ensures ItemRule(s, index).schema in Children(s)
  {
    ChildrenOf(s);
    if s.items.Positional? && index < |s.items.schemas| {
      assert s.items.schemas[index] in OfItems(s.items);
    }
  }

  /** No `oneOf` and no `not` anywhere. */
  ghost predicate Positive(s: Schema) {
    s.Schema? ==> !s.oneOf.Branches? && s.negated.None? && forall c :: c in Children(s) ==> Positive(c)
  }

  /** Objects of the runtime never repeat a name: neither schema maps nor the values a schema holds. */
  ghost predicate DistinctNames(s: Schema) {
    s.Schema? ==>
      && (s.allowed.Some? ==> forall i :: 0 <= i < |s.allowed.value| ==> WellFormed(s.allowed.value[i]))
      && (s.constant.Some? ==> WellFormed(s.constant.value))
      && (forall i, j :: 0 <= i < j < |EntriesOf(s.properties)| ==>
          EntriesOf(s.properties)[i].name != EntriesOf(s.properties)[j].name)
      && forall c :: c in Children(s) ==> DistinctNames(c)
  }

  /** The keywords of one schema node hold what they should. */
  ghost predicate WellTyped(s: Schema)
    requires s.Schema?
  {
    && s.unsupported == []
    && (s.types.Some? ==> s.types.value != [] && forall i :: 0 <= i < |s.types.value| ==>
        s.types.value[i] in SUPPORTED_TYPES)
    && !s.required.BadNames? && !s.properties.BadMap? && !s.patternProperties.BadMap?
    && !s.allOf.BadList? && !s.anyOf.BadList? && !s.oneOf.BadList?
    && (s.minimum.NoBound? || s.minimum.Limit?) && (s.maximum.NoBound? || s.maximum.Limit?)
    && (s.multipleOf.NoBound? || (s.multipleOf.Limit? && s.multipleOf.n > 0))
    && (s.exclusiveMinimum.NoExclusive? || s.exclusiveMinimum.ExclusiveLimit? || s.exclusiveMinimum == Flag(false)
        || (s.exclusiveMinimum == Flag(true) && s.minimum.Limit?))
    && (s.exclusiveMaximum.NoExclusive? || s.exclusiveMaximum.ExclusiveLimit? || s.exclusiveMaximum == Flag(false)
        || (s.exclusiveMaximum == Flag(true) && s.maximum.Limit?))
    && (s.minLength.NoCount? || s.minLength.CountOf?) && (s.maxLength.NoCount? || s.maxLength.CountOf?)
    && (s.minItems.NoCount? || s.minItems.CountOf?) && (s.maxItems.NoCount? || s.maxItems.CountOf?)
    && (s.minProperties.NoCount? || s.minProperties.CountOf?) && (s.maxProperties.NoCount? || s.maxProperties.CountOf?)
    && !s.pattern.BadPattern?
  }

  ghost predicate Compiles(rx: Engine, s: Schema)
    requires s.Schema?
  {
    && (s.pattern.Regex? ==> rx.compiles(s.pattern.text))
    && (forall e :: e in EntriesOf(s.patternProperties) ==> rx.compiles(e.name))
  }

  /**
   * The schema is an object of known keywords all the way down, its patterns compile, and it nests within the limit.
   */
  ghost predicate Usable(rx: Engine, s: Schema, depth: nat) {
    s.Schema? && depth <= MAX_DEPTH && WellTyped(s) && Compiles(rx, s) && forall c :: c in Children(s) ==>
      Usable(rx, c, depth + 1)
  }

  // ----- Scalars agree -----

  function Types(s: Schema): seq<string>
    requires s.Schema?
  {
    if s.types.Some? then s.types.value else []
  }

  /** Some listed type holds of the value; an empty list lists them all. */
  ghost predicate TypesHold(s: Schema, v: Value)
    requires s.Schema?
  {
    Types(s) != [] ==> exists i :: 0 <= i < |Types(s)| && TypeHolds(Types(s)[i], v)
  }

  /** The one type of numbers outside the safe range is `number`. */
  predicate TypeReaches(s: Schema, v: Value)
    requires s.Schema?
  {
    v.JNumber? && !SafeInteger(v.n) && "integer" in Types(s) ==> "number" in Types(s)
  }

  lemma TypeNames(t: string, v: Value)
    ensures TypeName(t, v) ==> TypeHolds(t, v)
    ensures TypeHolds(t, v) && !TypeName(t, v) <==> t == "integer" && v.JNumber? && !SafeInteger(v.n)
    ensures v.JNumber? ==> (TypeHolds(t, v) <==> t == "integer" || t == "number")
  {
  }

  /** Exactly when the type check passes. */
  lemma TypeFitsIff(s: Schema, v: Value)
    requires s.Schema?
    ensures TypeFits(s, v) <==> TypesHold(s, v) && TypeReaches(s, v)
  {
    forall t ensures TypeName(t, v) ==> TypeHolds(t, v) {
      TypeNames(t, v);
    }
    if Types(s) != [] {
      if TypeFits(s, v) {
        var i :| 0 <= i < |Types(s)| && TypeName(Types(s)[i], v);
        TypeNames(Types(s)[i], v);
        assert Types(s)[i] in Types(s);
      }
      if TypesHold(s, v) && TypeReaches(s, v) {
        var i :| 0 <= i < |Types(s)| && TypeHolds(Types(s)[i], v);
        TypeNames(Types(s)[i], v);
        assert Types(s)[i] in Types(s);
        if !TypeName(Types(s)[i], v) {
          var j :| 0 <= j < |Types(s)| && Types(s)[j] == "number";
          assert TypeName(Types(s)[j], v);
        }
      }
    }
  }

  /** The number is not one of those whose rounded quotient passes for an integer. */
  predicate DivisionReaches(s: Schema, v: Value)
    requires s.Schema?
  {
    v.JNumber? && s.multipleOf.Limit? && s.multipleOf.n > 0 ==> DivisionExact(v.n, s.multipleOf.n)
  }

  /** A multiple is never refused; what is accepted is a multiple exactly where the division is exact. */
  lemma MultipleAgrees(s: Schema, n: int)
    requires s.Schema? && s.multipleOf.Limit? && s.multipleOf.n > 0
    ensures (exists q :: n == q * s.multipleOf.n) ==> !MultipleMissed(s, n)
    ensures !MultipleMissed(s, n) ==> ((exists q :: n == q * s.multipleOf.n) <==> DivisionReaches(s, JNumber(n)))
  {
    MultipleIff(n, s.multipleOf.n);
    DivisionExactIff(n, s.multipleOf.n);
  }

  lemma NumberAgrees(s: Schema, n: int, path: Path)
    requires s.Schema?
    ensures NumberIssues(s, n, path) == [] <==>
            && (s.minimum.Limit? ==> s.minimum.n <= n)
            && (s.maximum.Limit? ==> n <= s.maximum.n)
            && (s.exclusiveMinimum.ExclusiveLimit? ==> s.exclusiveMinimum.n < n)
            && (s.exclusiveMinimum == Flag(true) && s.minimum.Limit? ==> s.minimum.n < n)
            && (s.exclusiveMaximum.ExclusiveLimit? ==> n < s.exclusiveMaximum.n)
            && (s.exclusiveMaximum == Flag(true) && s.maximum.Limit? ==> n < s.maximum.n)
            && !MultipleMissed(s, n)
  {
  }

  lemma StringAgrees(rx: Engine, s: Schema, text: string, path: Path)
    requires s.Schema?
    ensures StringIssues(rx, s, text, path) == [] <==>
            && (s.minLength.CountOf? ==> s.minLength.n <= |text|)
            && (s.maxLength.CountOf? ==> |text| <= s.maxLength.n)
            && (s.pattern.Regex? ==> rx.compiles(s.pattern.text) && rx.finds(s.pattern.text, text))
  {
  }

  lemma ScalarsSound(rx: Engine, s: Schema, v: Value, path: Path)
    requires s.Schema? && TypeFits(s, v) && ScalarIssues(rx, s, v, path) == [] && DivisionReaches(s, v)
    ensures ScalarHolds(rx, s, v)
  {
    TypeFitsIff(s, v);
    if s.allowed.Some? {
      var i :| 0 <= i < |s.allowed.value| && JsonEqual(s.allowed.value[i], v, 0);
      JsonEqualSound(s.allowed.value[i], v, 0);
    }
    if s.constant.Some? {
      JsonEqualSound(s.constant.value, v, 0);
    }
    match v
    case JString(text) => StringAgrees(rx, s, text, path);
    case JNumber(n) =>
      NumberAgrees(s, n, path);
      if s.multipleOf.Limit? && s.multipleOf.n > 0 {
        MultipleAgrees(s, n);
      }
    case _ =>
  }
}
