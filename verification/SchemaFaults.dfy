/**
 * What a finding means: the place it names is in the value, a subschema that is asked of that place has the keyword it
 * speaks of, and the value there fails it.
 */
module SchemaFaults {
  import opened Wrappers
  import opened Json
  import opened SchemaModel
  import opened SchemaDivision
  import opened SchemaTrace
  import opened SchemaSemantics
  import opened SchemaSoundness
  import opened SchemaInspection

  // ----- Faults -----

  /** Findings of the guards say nothing about the value. */
  predicate GuardFinding(f: Finding) {
    f.NestingExceeded? || f.NodesExceeded?
  }

  /** What a finding about a number says. */
  ghost predicate NumberFault(s: Schema, n: int, f: Finding)
    requires s.Schema?
  {
    match f
    case BelowMinimum => s.minimum.Limit? && n < s.minimum.n
    case AboveMaximum => s.maximum.Limit? && n > s.maximum.n
    case NotAboveMinimum =>
      || (s.exclusiveMinimum.ExclusiveLimit? && n <= s.exclusiveMinimum.n)
      || (s.exclusiveMinimum == Flag(true) && s.minimum.Limit? && n <= s.minimum.n)
    case NotBelowMaximum =>
      || (s.exclusiveMaximum.ExclusiveLimit? && n >= s.exclusiveMaximum.n)
      || (s.exclusiveMaximum == Flag(true) && s.maximum.Limit? && n >= s.maximum.n)
    case NotMultiple => s.multipleOf.Limit? && s.multipleOf.n > 0 && !QuotientIsInteger(n, s.multipleOf.n)
    case _ => false
  }

  ghost predicate StringFault(rx: Engine, s: Schema, text: string, f: Finding)
    requires s.Schema?
  {
    match f
    case TooShort => s.minLength.CountOf? && |text| < s.minLength.n
    case TooLong => s.maxLength.CountOf? && |text| > s.maxLength.n
    case NoMatch => s.pattern.Regex? && rx.compiles(s.pattern.text) && !rx.finds(s.pattern.text, text)
    case PatternDoesNotCompile => s.pattern.Regex? && !rx.compiles(s.pattern.text)
    case _ => false
  }

  ghost predicate SizeFault(s: Schema, v: Value, f: Finding)
    requires s.Schema?
  {
    match f
    case TooFewProperties => v.JObject? && s.minProperties.CountOf? && |v.members| < s.minProperties.n
    case TooManyPropertiesDeclared => v.JObject? && s.maxProperties.CountOf? && |v.members| > s.maxProperties.n
    case TooManyProperties => v.JObject? && |v.members| > 512
    case TooFewItems => v.JArray? && s.minItems.CountOf? && |v.items| < s.minItems.n
    case TooManyItemsDeclared => v.JArray? && s.maxItems.CountOf? && |v.items| > s.maxItems.n
    case TooManyItems => v.JArray? && |v.items| > 512
    case _ => false
  }

  /** A branch on its own collector finds nothing. */
  ghost predicate Clean(rx: Engine, s: Schema, v: Value, path: Path, depth: nat) {
    Node(rx, s, v, path, depth, 0).issues == []
  }

  ghost predicate BranchFault(rx: Engine, s: Schema, v: Value, path: Path, depth: nat, f: Finding)
    requires s.Schema?
  {
    match f
    case NoBranchMatches =>
      s.anyOf.Branches? && forall b :: b in s.anyOf.branches ==> !Clean(rx, b, v, path, depth + 1)
    case NotExactlyOneBranch =>
      s.oneOf.Branches? && !OneClean(rx, s.oneOf.branches, v, path, depth + 1)
    case ForbiddenMatch => s.negated.Some? && Clean(rx, s.negated.value, v, path, depth + 1)
    case _ => false
  }

  /** Branch i finds nothing and every other one finds something. */
  ghost predicate OnlyClean(rx: Engine, branches: seq<Schema>, v: Value, path: Path, depth: nat, i: int) {
    && 0 <= i < |branches| && Clean(rx, branches[i], v, path, depth)
    && forall j :: 0 <= j < |branches| && j != i ==> !Clean(rx, branches[j], v, path, depth)
  }

  ghost predicate OneClean(rx: Engine, branches: seq<Schema>, v: Value, path: Path, depth: nat) {
    exists i :: OnlyClean(rx, branches, v, path, depth, i)
  }

  ghost predicate ValueFault(s: Schema, v: Value, f: Finding)
    requires s.Schema?
  {
    match f
    case TypeMismatch => s.types.Some? && s.types.value != [] && forall t :: t in s.types.value ==> !TypeName(t, v)
    case NotAllowedValue => s.allowed.Some? && forall c :: c in s.allowed.value ==> !JsonEqual(c, v, 0)
    case NotConstant => s.constant.Some? && !JsonEqual(s.constant.value, v, 0)
    case _ => false
  }

  /** The value fails the schema at its root as the finding says. */
  ghost predicate FaultHere(rx: Engine, s: Schema, v: Value, path: Path, depth: nat, f: Finding)
    requires s.Schema?
  {
    || ValueFault(s, v, f) || SizeFault(s, v, f) || BranchFault(rx, s, v, path, depth, f)
    || (v.JNumber? && NumberFault(s, v.n, f)) || (v.JString? && StringFault(rx, s, v.s, f))
  }

  /** The value fails the schema at one of its places: a member missing or not allowed, an item not allowed. */
  ghost predicate FaultAt(rx: Engine, s: Schema, v: Value, step: SchemaModel.Step, f: Finding)
    requires s.Schema?
  {
    match f
    case PropertyRequired =>
      v.JObject? && step.Property? && step.name in NamesOf(s.required) && step.name !in Keys(v.members)
    case PropertyNotAllowed =>
      v.JObject? && step.Property? && step.name in Keys(v.members)
      && s.additionalProperties == Allow(false) && Additional(rx, s, step.name)
    case PropertyPatternDoesNotCompile =>
      v.JObject? && step.Property? && step.name in Keys(v.members)
      && exists e :: e in EntriesOf(s.patternProperties) && !rx.compiles(e.name)
    case ItemNotAllowed =>
      v.JArray? && step.Index? && step.i < |v.items| && s.items.Positional? && step.i >= |s.items.schemas|
      && s.additionalItems == Allow(false)
    case _ => false
  }

  /** The finding at this place below the value is a fault of the value against the schema, or one of its parts. */
  ghost predicate Blames(rx: Engine, s: Schema, v: Value, path: Path, depth: nat, rel: Path, f: Finding)
    decreases s, 1
  {
    s.Schema? &&
    (|| (rel == [] && FaultHere(rx, s, v, path, depth, f))
     || (|rel| == 1 && FaultAt(rx, s, v, rel[0], f))
     || (exists b | b < s :: b in BranchesOf(s.allOf) && Blames(rx, b, v, path, depth + 1, rel, f))
     || (rel != [] && v.JObject? && rel[0].Property? && BlamesMember(rx, s, v, path, depth, rel, f))
     || (rel != [] && v.JArray? && rel[0].Index? && rel[0].i < |v.items| && ItemRule(s, rel[0].i).Check?
         && Blames(rx, ItemRule(s, rel[0].i).schema, v.items[rel[0].i], path + [rel[0]], depth + 1, rel[1..], f)))
  }

  ghost predicate BlamesMember(rx: Engine, s: Schema, v: Value, path: Path, depth: nat, rel: Path, f: Finding)
    requires s.Schema? && v.JObject? && rel != [] && rel[0].Property?
    decreases s, 0
  {
    exists m, c | c < s ::
      && m in v.members && m.key == rel[0].name && Governs(rx, s, m.key, c)
      && Blames(rx, c, m.value, path + [rel[0]], depth + 1, rel[1..], f)
  }

  // ----- Issues a blame justifies -----

  ghost predicate Justified(issues: seq<Issue>, path: Path, blame: (Path, Finding) -> bool) {
    forall issue :: issue in issues ==> IssueJustified(issue, path, blame)
  }

  ghost predicate IssueJustified(issue: Issue, path: Path, blame: (Path, Finding) -> bool) {
    GuardFinding(issue.finding) || (path <= issue.path && blame(issue.path[|path|..], issue.finding))
  }

  ghost function BlameOf(rx: Engine, s: Schema, v: Value, path: Path, depth: nat): (Path, Finding) -> bool {
    (rel: Path, f: Finding) => Blames(rx, s, v, path, depth, rel, f)
  }

  lemma JustifiedConcat(a: seq<Issue>, b: seq<Issue>, path: Path, blame: (Path, Finding) -> bool)
    requires Justified(a, path, blame) && Justified(b, path, blame)
    ensures Justified(a + b, path, blame)
  {
  }

  /** One finding at the place itself. */
  lemma FoundJustified(found: bool, path: Path, f: Finding, blame: (Path, Finding) -> bool)
    requires found ==> blame([], f)
    ensures Justified(Found(found, path, f), path, blame)
  {
    assert path[|path|..] == [];
  }

  /** Findings below a step, when their blame is blame here. */
  lemma Lifted(issues: seq<Issue>, path: Path, step: SchemaModel.Step, inner: (Path, Finding) -> bool,
               blame: (Path, Finding) -> bool)
    requires Justified(issues, path + [step], inner)
    requires forall rel: Path, f: Finding :: inner(rel, f) ==> blame([step] + rel, f)
    ensures Justified(issues, path, blame)
  {
    forall issue | issue in issues ensures IssueJustified(issue, path, blame) {
      assert IssueJustified(issue, path + [step], inner);
      if !GuardFinding(issue.finding) {
        PathSplit(issue.path, path, step);
      }
    }
  }

  lemma PathSplit(whole: Path, path: Path, step: SchemaModel.Step)
    requires path + [step] <= whole
    ensures path <= whole && whole[|path|..] == [step] + whole[|path| + 1..]
  {
  }

  lemma SameBlame(issues: seq<Issue>, path: Path, inner: (Path, Finding) -> bool, blame: (Path, Finding) -> bool)
    requires Justified(issues, path, inner)
    requires forall rel: Path, f: Finding :: inner(rel, f) ==> blame(rel, f)
    ensures Justified(issues, path, blame)
  {
    forall issue | issue in issues ensures IssueJustified(issue, path, blame) {
      assert IssueJustified(issue, path, inner);
    }
  }

  // ----- The findings of one node -----

  lemma NumberJustified(s: Schema, n: int, path: Path, blame: (Path, Finding) -> bool)
    requires s.Schema? && forall f :: NumberFault(s, n, f) ==> blame([], f)
    ensures Justified(NumberIssues(s, n, path), path, blame)
  {
    FoundJustified(MinimumMissed(s, n), path, BelowMinimum, blame);
    FoundJustified(MaximumMissed(s, n), path, AboveMaximum, blame);
    FoundJustified(ExclusiveMinimumMissed(s, n), path, NotAboveMinimum, blame);
    FoundJustified(ExclusiveMaximumMissed(s, n), path, NotBelowMaximum, blame);
    FoundJustified(MultipleMissed(s, n), path, NotMultiple, blame);
  }

  lemma StringJustified(rx: Engine, s: Schema, text: string, path: Path, blame: (Path, Finding) -> bool)
    requires s.Schema? && forall f :: StringFault(rx, s, text, f) ==> blame([], f)
    ensures Justified(StringIssues(rx, s, text, path), path, blame)
  {
    var short := Found(s.minLength.CountOf? && |text| < s.minLength.n, path, TooShort);
    var long := Found(s.maxLength.CountOf? && |text| > s.maxLength.n, path, TooLong);
    FoundJustified(s.minLength.CountOf? && |text| < s.minLength.n, path, TooShort, blame);
    FoundJustified(s.maxLength.CountOf? && |text| > s.maxLength.n, path, TooLong, blame);
    JustifiedConcat(short, long, path, blame);
    if s.pattern.Regex? {
      FoundJustified(!rx.compiles(s.pattern.text), path, PatternDoesNotCompile, blame);
      if rx.compiles(s.pattern.text) {
        FoundJustified(!rx.finds(s.pattern.text, text), path, NoMatch, blame);
        JustifiedConcat(short + long, Found(!rx.finds(s.pattern.text, text), path, NoMatch), path, blame);
      }
    }
  }

  lemma ScalarsJustified(rx: Engine, s: Schema, v: Value, path: Path, blame: (Path, Finding) -> bool)
    requires s.Schema? && forall f :: ValueFault(s, v, f) ==> blame([], f)
    requires v.JNumber? ==> forall f :: NumberFault(s, v.n, f) ==> blame([], f)
    requires v.JString? ==> forall f :: StringFault(rx, s, v.s, f) ==> blame([], f)
    ensures Justified(ScalarIssues(rx, s, v, path), path, blame)
  {
    EnumFault(s, v);
    var head := Found(EnumMissed(s, v), path, NotAllowedValue) + Found(ConstantMissed(s, v), path, NotConstant);
    FoundJustified(EnumMissed(s, v), path, NotAllowedValue, blame);
    FoundJustified(ConstantMissed(s, v), path, NotConstant, blame);
    match v
    case JString(text) =>
      StringJustified(rx, s, text, path, blame);
      JustifiedConcat(head, StringIssues(rx, s, text, path), path, blame);
    case JNumber(n) =>
      NumberJustified(s, n, path, blame);
      JustifiedConcat(head, NumberIssues(s, n, path), path, blame);
    case _ =>
  }

  lemma EnumFault(s: Schema, v: Value)
    requires s.Schema?
    ensures EnumMissed(s, v) ==> ValueFault(s, v, NotAllowedValue)
    ensures ConstantMissed(s, v) ==> ValueFault(s, v, NotConstant)
  {
  }

  lemma TypeFault(s: Schema, v: Value)
    requires s.Schema?
    ensures !TypeFits(s, v) ==> ValueFault(s, v, TypeMismatch)
  {
    if !TypeFits(s, v) {
      forall t | t in s.types.value ensures !TypeName(t, v) {
        var i :| 0 <= i < |s.types.value| && s.types.value[i] == t;
      }
    }
  }

  lemma HeadsJustified(s: Schema, v: Value, path: Path, blame: (Path, Finding) -> bool)
    requires s.Schema? && forall f :: SizeFault(s, v, f) ==> blame([], f)
    ensures v.JObject? ==> Justified(ObjectHead(s, |v.members|, path), path, blame)
    ensures v.JArray? ==> Justified(ArrayHead(s, |v.items|, path), path, blame)
  {
    if v.JObject? {
      var count := |v.members|;
      FoundJustified(s.minProperties.CountOf? && count < s.minProperties.n, path, TooFewProperties, blame);
      FoundJustified(s.maxProperties.CountOf? && count > s.maxProperties.n, path, TooManyPropertiesDeclared, blame);
      FoundJustified(count > MAX_PROPERTIES, path, TooManyProperties, blame);
    }
    if v.JArray? {
      var count := |v.items|;
      FoundJustified(s.minItems.CountOf? && count < s.minItems.n, path, TooFewItems, blame);
      FoundJustified(s.maxItems.CountOf? && count > s.maxItems.n, path, TooManyItemsDeclared, blame);
      FoundJustified(count > MAX_ITEMS, path, TooManyItems, blame);
    }
  }

  lemma {:induction false} MissingJustified(names: seq<string>, members: seq<Field>, path: Path,
                                            blame: (Path, Finding) -> bool)
    requires forall name :: name in names && name !in Keys(members) ==> blame([Property(name)], PropertyRequired)
    ensures Justified(MissingIssues(names, members, path), path, blame)
  {
    if names != [] {
      MissingJustified(names[1..], members, path, blame);
      var first := Found(Lookup(members, names[0]) < 0, path + [Property(names[0])], PropertyRequired);
      if Lookup(members, names[0]) < 0 {
        NotAKey(members, names[0]);
        assert (path + [Property(names[0])])[|path|..] == [Property(names[0])];
      }
      JustifiedConcat(first, MissingIssues(names[1..], members, path), path, blame);
    }
  }

  lemma NotAKey(members: seq<Field>, key: string)
    requires Lookup(members, key) < 0
    ensures key !in Keys(members)
  {
  }

  lemma {:induction false} UncompiledJustified(rx: Engine, entries: seq<Named>, path: Path, step: SchemaModel.Step,
                                               blame: (Path, Finding) -> bool)
    requires (exists e :: e in entries && !rx.compiles(e.name)) ==> blame([step], PropertyPatternDoesNotCompile)
    ensures Justified(UncompiledIssues(rx, entries, path + [step]), path, blame)
  {
    if entries != [] {
      UncompiledJustified(rx, entries[1..], path, step, blame);
      assert entries[0] in entries && (path + [step])[|path|..] == [step];
      JustifiedConcat(Found(!rx.compiles(entries[0].name), path + [step], PropertyPatternDoesNotCompile),
                      UncompiledIssues(rx, entries[1..], path + [step]), path, blame);
    }
  }

  // ----- The traversal -----

  /** Faults of the value itself are blamed at its own place. */
  lemma HereIsBlamed(rx: Engine, s: Schema, v: Value, path: Path, depth: nat)
    requires s.Schema?
    ensures forall f :: FaultHere(rx, s, v, path, depth, f) ==> BlameOf(rx, s, v, path, depth)([], f)
    ensures forall step, f :: FaultAt(rx, s, v, step, f) ==> BlameOf(rx, s, v, path, depth)([step], f)
  {
    forall f | FaultHere(rx, s, v, path, depth, f) ensures BlameOf(rx, s, v, path, depth)([], f) {
      assert Blames(rx, s, v, path, depth, [], f);
    }
    forall step, f | FaultAt(rx, s, v, step, f) ensures BlameOf(rx, s, v, path, depth)([step], f) {
      assert [step][0] == step;
      assert Blames(rx, s, v, path, depth, [step], f);
    }
  }

  /** Every finding is justified: outside the guards it names a place below the value and a fault there. */
  lemma {:induction false} FindingsAreFaults(rx: Engine, s: Schema, v: Value, path: Path, depth: nat, nodes: nat)
    ensures Justified(Node(rx, s, v, path, depth, nodes).issues, path, BlameOf(rx, s, v, path, depth))
    decreases s, 4, 0
  {
    if s.Schema? && depth <= MAX_DEPTH && nodes + 1 <= MAX_NODES {
      var blame := BlameOf(rx, s, v, path, depth);
      CombinatorsJustified(rx, s, v, path, depth);
      HereIsBlamed(rx, s, v, path, depth);
      TypeFault(s, v);
      FoundJustified(!TypeFits(s, v), path, TypeMismatch, blame);
      ScalarsJustified(rx, s, v, path, blame);
      if v.JObject? {
        ObjectJustified(rx, s, v, path, depth, nodes + 1);
      }
      if v.JArray? {
        ArrayJustified(rx, s, v, path, depth, nodes + 1);
      }
      NodeJustified(rx, s, v, path, depth, nodes, blame);
    } else {
      OutsideJustified(rx, s, v, path, depth, nodes);
    }
  }

  /** Where a guard or a constant schema ends the visit. */
  lemma OutsideJustified(rx: Engine, s: Schema, v: Value, path: Path, depth: nat, nodes: nat)
    requires !s.Schema? || depth > MAX_DEPTH || nodes + 1 > MAX_NODES
    ensures Justified(Node(rx, s, v, path, depth, nodes).issues, path, BlameOf(rx, s, v, path, depth))
  {
  }

  /** A node's findings are those of its parts and a type mismatch. */
  lemma NodeJustified(rx: Engine, s: Schema, v: Value, path: Path, depth: nat, nodes: nat,
                      blame: (Path, Finding) -> bool)
    requires s.Schema? && depth <= MAX_DEPTH && nodes + 1 <= MAX_NODES
    requires Justified(Combinators(rx, s, v, path, depth), path, blame)
    requires Justified(Found(!TypeFits(s, v), path, TypeMismatch), path, blame)
    requires Justified(ScalarIssues(rx, s, v, path), path, blame)
    requires v.JObject? ==> Justified(Object(rx, s, v.members, path, depth, nodes + 1).issues, path, blame)
    requires v.JArray? ==> Justified(Array(rx, s, v.items, path, depth, nodes + 1).issues, path, blame)
    ensures Justified(Node(rx, s, v, path, depth, nodes).issues, path, blame)
  {
    var combined, scalars := Combinators(rx, s, v, path, depth), ScalarIssues(rx, s, v, path);
    JustifiedConcat(combined, Found(!TypeFits(s, v), path, TypeMismatch), path, blame);
    JustifiedConcat(combined, scalars, path, blame);
    if v.JObject? {
      JustifiedConcat(combined + scalars, Object(rx, s, v.members, path, depth, nodes + 1).issues, path, blame);
    }
    if v.JArray? {
      JustifiedConcat(combined + scalars, Array(rx, s, v.items, path, depth, nodes + 1).issues, path, blame);
    }
  }

  // ----- Combinators -----

  lemma {:induction false} CountMeans(rx: Engine, parent: Schema, branches: seq<Schema>, v: Value, path: Path,
                                      depth: nat)
    requires forall i :: 0 <= i < |branches| ==> branches[i] < parent
    ensures Valid(rx, parent, branches, v, path, depth) == 0 <==>
              forall i :: 0 <= i < |branches| ==> !Clean(rx, branches[i], v, path, depth + 1)
    decreases |branches|
  {
    if branches != [] {
      CountMeans(rx, parent, branches[1..], v, path, depth);
      assert forall i :: 1 <= i < |branches| ==> branches[i] == branches[1..][i - 1];
    }
  }

  lemma {:induction false} OneMeans(rx: Engine, parent: Schema, branches: seq<Schema>, v: Value, path: Path, depth: nat,
                                    i: int)
    requires forall i :: 0 <= i < |branches| ==> branches[i] < parent
    requires OnlyClean(rx, branches, v, path, depth + 1, i)
    ensures Valid(rx, parent, branches, v, path, depth) == 1
    decreases |branches|
  {
    var rest := branches[1..];
    assert forall j :: 1 <= j < |branches| ==> branches[j] == rest[j - 1];
    if i == 0 {
      CountMeans(rx, parent, rest, v, path, depth);
    } else {
      assert OnlyClean(rx, rest, v, path, depth + 1, i - 1);
      OneMeans(rx, parent, rest, v, path, depth, i - 1);
    }
  }

  lemma BranchFaults(rx: Engine, s: Schema, v: Value, path: Path, depth: nat)
    requires s.Schema?
    ensures s.anyOf.Branches? && Valid(rx, s, BranchesOf(s.anyOf), v, path, depth) == 0 ==>
              BranchFault(rx, s, v, path, depth, NoBranchMatches)
    ensures s.oneOf.Branches? && Valid(rx, s, BranchesOf(s.oneOf), v, path, depth) != 1 ==>
              BranchFault(rx, s, v, path, depth, NotExactlyOneBranch)
    ensures s.negated.Some? && Node(rx, s.negated.value, v, path, depth + 1, 0).issues == [] ==>
              BranchFault(rx, s, v, path, depth, ForbiddenMatch)
  {
    CountMeans(rx, s, BranchesOf(s.anyOf), v, path, depth);
    if OneClean(rx, BranchesOf(s.oneOf), v, path, depth + 1) {
      var i :| OnlyClean(rx, BranchesOf(s.oneOf), v, path, depth + 1, i);
      OneMeans(rx, s, BranchesOf(s.oneOf), v, path, depth, i);
    }
  }

  lemma {:induction false} CombinatorsJustified(rx: Engine, s: Schema, v: Value, path: Path, depth: nat)
    requires s.Schema?
    ensures Justified(Combinators(rx, s, v, path, depth), path, BlameOf(rx, s, v, path, depth))
    decreases s, 3, 0
  {
    var blame := BlameOf(rx, s, v, path, depth);
    AllOfJustified(rx, s, BranchesOf(s.allOf), v, path, depth);
    HereIsBlamed(rx, s, v, path, depth);
    BranchFaults(rx, s, v, path, depth);
    FoundJustified(s.anyOf.Branches? && Valid(rx, s, BranchesOf(s.anyOf), v, path, depth) == 0, path, NoBranchMatches,
                   blame);
    FoundJustified(s.oneOf.Branches? && Valid(rx, s, BranchesOf(s.oneOf), v, path, depth) != 1, path,
                   NotExactlyOneBranch, blame);
    FoundJustified(s.negated.Some? && Node(rx, s.negated.value, v, path, depth + 1, 0).issues == [], path,
                   ForbiddenMatch, blame);
    CombinedJustified(rx, s, v, path, depth, blame);
  }

  lemma CombinedJustified(rx: Engine, s: Schema, v: Value, path: Path, depth: nat, blame: (Path, Finding) -> bool)
    requires s.Schema? && Justified(AllOf(rx, s, BranchesOf(s.allOf), v, path, depth), path, blame)
    requires Justified(Found(s.anyOf.Branches? && Valid(rx, s, BranchesOf(s.anyOf), v, path, depth) == 0, path,
                             NoBranchMatches), path, blame)
    requires Justified(Found(s.oneOf.Branches? && Valid(rx, s, BranchesOf(s.oneOf), v, path, depth) != 1, path,
                             NotExactlyOneBranch), path, blame)
    requires Justified(Found(s.negated.Some? && Node(rx, s.negated.value, v, path, depth + 1, 0).issues == [], path,
                             ForbiddenMatch), path, blame)
    ensures Justified(Combinators(rx, s, v, path, depth), path, blame)
  {
  }

  lemma {:induction false} AllOfJustified(rx: Engine, s: Schema, branches: seq<Schema>, v: Value, path: Path,
                                          depth: nat)
    requires s.Schema? && forall b :: b in branches ==> b in BranchesOf(s.allOf)
    ensures forall i :: 0 <= i < |branches| ==> branches[i] < s
    ensures Justified(AllOf(rx, s, branches, v, path, depth), path, BlameOf(rx, s, v, path, depth))
    decreases s, 2, |branches|
  {
    if branches != [] {
      var b, inner := branches[0], BlameOf(rx, branches[0], v, path, depth + 1);
      assert b in branches && b < s;
      FindingsAreFaults(rx, b, v, path, depth + 1, 0);
      forall rel: Path, f: Finding | inner(rel, f) ensures BlameOf(rx, s, v, path, depth)(rel, f) {
        assert Blames(rx, b, v, path, depth + 1, rel, f);
        assert Blames(rx, s, v, path, depth, rel, f);
      }
      SameBlame(Node(rx, b, v, path, depth + 1, 0).issues, path, inner, BlameOf(rx, s, v, path, depth));
      assert branches == [b] + branches[1..];
      AllOfJustified(rx, s, branches[1..], v, path, depth);
      JustifiedConcat(Node(rx, b, v, path, depth + 1, 0).issues, AllOf(rx, s, branches[1..], v, path, depth), path,
                      BlameOf(rx, s, v, path, depth));
    }
  }

  // ----- Objects -----

  /** Blame on what governs a member is blame here, one step down. */
  lemma MemberLifts(rx: Engine, s: Schema, v: Value, m: Field, c: Schema, path: Path, depth: nat)
    requires s.Schema? && v.JObject? && m in v.members && c < s && Governs(rx, s, m.key, c)
    ensures forall rel: Path, f: Finding :: BlameOf(rx, c, m.value, path + [Property(m.key)], depth + 1)(rel, f) ==>
              BlameOf(rx, s, v, path, depth)([Property(m.key)] + rel, f)
  {
    var step := Property(m.key);
    forall rel: Path, f: Finding | BlameOf(rx, c, m.value, path + [step], depth + 1)(rel, f)
      ensures BlameOf(rx, s, v, path, depth)([step] + rel, f)
    {
      assert ([step] + rel)[0] == step && ([step] + rel)[1..] == rel;
      assert BlamesMember(rx, s, v, path, depth, [step] + rel, f);
      assert Blames(rx, s, v, path, depth, [step] + rel, f);
    }
  }

  /** The findings of one subschema that governs a member. */
  lemma {:induction false} GovernedJustified(rx: Engine, s: Schema, v: Value, m: Field, c: Schema, path: Path,
                                             depth: nat,
                                             nodes: nat)
    requires s.Schema? && v.JObject? && m in v.members && c < s && Governs(rx, s, m.key, c)
    ensures Justified(Node(rx, c, m.value, path + [Property(m.key)], depth + 1, nodes).issues, path,
                      BlameOf(rx, s, v, path, depth))
    decreases s, 0, 0
  {
    var child := path + [Property(m.key)];
    FindingsAreFaults(rx, c, m.value, child, depth + 1, nodes);
    MemberLifts(rx, s, v, m, c, path, depth);
    Lifted(Node(rx, c, m.value, child, depth + 1, nodes).issues, path, Property(m.key),
           BlameOf(rx, c, m.value, child, depth + 1), BlameOf(rx, s, v, path, depth));
  }

  lemma {:induction false} ObjectJustified(rx: Engine, s: Schema, v: Value, path: Path, depth: nat, nodes: nat)
    requires s.Schema? && v.JObject?
    ensures Justified(Object(rx, s, v.members, path, depth, nodes).issues, path, BlameOf(rx, s, v, path, depth))
    decreases s, 3, 0
  {
    var blame := BlameOf(rx, s, v, path, depth);
    HereIsBlamed(rx, s, v, path, depth);
    HeadsJustified(s, v, path, blame);
    MembersJustified(rx, s, v, Visited(v.members, MAX_PROPERTIES), path, depth, nodes);
    MissingJustified(NamesOf(s.required), v.members, path, blame);
    var t := Members(rx, s, Visited(v.members, MAX_PROPERTIES), path, depth, nodes);
    JustifiedConcat(ObjectHead(s, |v.members|, path), t.issues, path, blame);
    JustifiedConcat(ObjectHead(s, |v.members|, path) + t.issues,
                    MissingIssues(NamesOf(s.required), v.members, path), path, blame);
  }

  lemma {:induction false} MembersJustified(rx: Engine, s: Schema, v: Value, members: seq<Field>, path: Path,
                                            depth: nat,
                                            nodes: nat)
    requires s.Schema? && v.JObject? && forall m :: m in members ==> m in v.members
    ensures Justified(Members(rx, s, members, path, depth, nodes).issues, path, BlameOf(rx, s, v, path, depth))
    decreases s, 2, |members|
  {
    if members != [] {
      MemberJustified(rx, s, v, members[0], path, depth, nodes);
      var first := MemberTrace(rx, s, members[0], path, depth, nodes);
      MembersJustified(rx, s, v, members[1..], path, depth, first.nodes);
      JustifiedConcat(first.issues, Members(rx, s, members[1..], path, depth, first.nodes).issues, path,
                      BlameOf(rx, s, v, path, depth));
    }
  }

  lemma {:induction false} MemberJustified(rx: Engine, s: Schema, v: Value, m: Field, path: Path, depth: nat,
                                           nodes: nat)
    requires s.Schema? && v.JObject? && m in v.members
    ensures Justified(MemberTrace(rx, s, m, path, depth, nodes).issues, path, BlameOf(rx, s, v, path, depth))
    decreases s, 1, 0
  {
    var child, blame := path + [Property(m.key)], BlameOf(rx, s, v, path, depth);
    var patterns := EntriesOf(s.patternProperties);
    var named := NamedTrace(rx, s, m, child, depth, nodes);
    var matching := MatchingEntries(rx, patterns, m.key);
    var matched := Patterns(rx, s, matching, m.value, child, depth, named.nodes);
    var extra := ExtraTrace(rx, s, m, child, depth, matched.nodes);
    NamedJustified(rx, s, v, m, path, depth, nodes);
    UnreadableJustified(rx, s, v, m, path, depth);
    PatternsJustified(rx, s, v, m, matching, path, depth, named.nodes);
    ExtraJustified(rx, s, v, m, path, depth, matched.nodes);
    var uncompiled := UncompiledIssues(rx, patterns, child);
    JustifiedConcat(named.issues, uncompiled, path, blame);
    JustifiedConcat(named.issues + uncompiled, matched.issues, path, blame);
    JustifiedConcat(named.issues + uncompiled + matched.issues, extra.issues, path, blame);
  }

  lemma KeyOfMember(v: Value, m: Field)
    requires v.JObject? && m in v.members
    ensures m.key in Keys(v.members)
  {
    KeyOwner(v.members, m.key);
  }

  lemma UnreadableJustified(rx: Engine, s: Schema, v: Value, m: Field, path: Path, depth: nat)
    requires s.Schema? && v.JObject? && m in v.members
    ensures Justified(UncompiledIssues(rx, EntriesOf(s.patternProperties), path + [Property(m.key)]), path,
                      BlameOf(rx, s, v, path, depth))
  {
    KeyOfMember(v, m);
    HereIsBlamed(rx, s, v, path, depth);
    UncompiledJustified(rx, EntriesOf(s.patternProperties), path, Property(m.key), BlameOf(rx, s, v, path, depth));
  }

  lemma {:induction false} NamedJustified(rx: Engine, s: Schema, v: Value, m: Field, path: Path, depth: nat, nodes: nat)
    requires s.Schema? && v.JObject? && m in v.members
    ensures Justified(NamedTrace(rx, s, m, path + [Property(m.key)], depth, nodes).issues, path,
                      BlameOf(rx, s, v, path, depth))
    decreases s, 0, 1
  {
    var entries := EntriesOf(s.properties);
    var i := FindEntry(entries, m.key);
    if i >= 0 {
      assert entries[i] in entries && entries[i].schema < s;
      GovernedJustified(rx, s, v, m, entries[i].schema, path, depth, nodes);
    }
  }

  lemma {:induction false} PatternsJustified(rx: Engine, s: Schema, v: Value, m: Field, entries: seq<Named>, path: Path,
                                             depth: nat, nodes: nat)
    requires s.Schema? && v.JObject? && m in v.members
    requires forall e :: e in entries ==> e in EntriesOf(s.patternProperties) && Applies(rx, e, m.key)
    ensures forall e :: e in entries ==> e.schema < s
    ensures Justified(Patterns(rx, s, entries, m.value, path + [Property(m.key)], depth, nodes).issues, path,
                      BlameOf(rx, s, v, path, depth))
    decreases s, 0, 1 + |entries|
  {
    if entries != [] {
      var child := path + [Property(m.key)];
      assert entries[0] in entries && entries[0].schema < s;
      GovernedJustified(rx, s, v, m, entries[0].schema, path, depth, nodes);
      var first := Node(rx, entries[0].schema, m.value, child, depth + 1, nodes);
      PatternsJustified(rx, s, v, m, entries[1..], path, depth, first.nodes);
      JustifiedConcat(first.issues, Patterns(rx, s, entries[1..], m.value, child, depth, first.nodes).issues, path,
                      BlameOf(rx, s, v, path, depth));
    }
  }

  lemma {:induction false} ExtraJustified(rx: Engine, s: Schema, v: Value, m: Field, path: Path, depth: nat, nodes: nat)
    requires s.Schema? && v.JObject? && m in v.members
    ensures Justified(ExtraTrace(rx, s, m, path + [Property(m.key)], depth, nodes).issues, path,
                      BlameOf(rx, s, v, path, depth))
    decreases s, 0, 1
  {
    var child, blame := path + [Property(m.key)], BlameOf(rx, s, v, path, depth);
    NothingAdditional(rx, s, m.key);
    if !Claimed(rx, s, m.key) {
      match ExtraRule(s.additionalProperties) {
        case Ignore =>
        case Refuse =>
          KeyOfMember(v, m);
          HereIsBlamed(rx, s, v, path, depth);
          assert child[|path|..] == [Property(m.key)];
        case Check(schema) =>
          GovernedJustified(rx, s, v, m, schema, path, depth, nodes);
      }
    }
  }

  // ----- Arrays -----

  lemma {:induction false} ArrayJustified(rx: Engine, s: Schema, v: Value, path: Path, depth: nat, nodes: nat)
    requires s.Schema? && v.JArray?
    ensures Justified(Array(rx, s, v.items, path, depth, nodes).issues, path, BlameOf(rx, s, v, path, depth))
    decreases s, 3, 0
  {
    var blame := BlameOf(rx, s, v, path, depth);
    HereIsBlamed(rx, s, v, path, depth);
    HeadsJustified(s, v, path, blame);
    ItemsJustified(rx, s, v, Visited(v.items, MAX_ITEMS), 0, path, depth, nodes);
    JustifiedConcat(ArrayHead(s, |v.items|, path),
                    ItemsFrom(rx, s, Visited(v.items, MAX_ITEMS), 0, path, depth, nodes).issues, path, blame);
  }

  lemma {:induction false} ItemsJustified(rx: Engine, s: Schema, v: Value, items: seq<Value>, index: nat, path: Path,
                                          depth: nat, nodes: nat)
    requires s.Schema? && v.JArray? && index + |items| <= |v.items|
    requires forall i :: 0 <= i < |items| ==> items[i] == v.items[index + i]
    ensures Justified(ItemsFrom(rx, s, items, index, path, depth, nodes).issues, path, BlameOf(rx, s, v, path, depth))
    decreases s, 2, |items|
  {
    if items != [] {
      ItemJustified(rx, s, v, index, path, depth, nodes);
      var first := ItemTrace(rx, s, items[0], index, path, depth, nodes);
      ItemsJustified(rx, s, v, items[1..], index + 1, path, depth, first.nodes);
      JustifiedConcat(first.issues, ItemsFrom(rx, s, items[1..], index + 1, path, depth, first.nodes).issues, path,
                      BlameOf(rx, s, v, path, depth));
    }
  }

  lemma {:induction false} ItemJustified(rx: Engine, s: Schema, v: Value, index: nat, path: Path, depth: nat,
                                         nodes: nat)
    requires s.Schema? && v.JArray? && index < |v.items|
    ensures Justified(ItemTrace(rx, s, v.items[index], index, path, depth, nodes).issues, path,
                      BlameOf(rx, s, v, path, depth))
    decreases s, 1, 0
  {
    var child, step := path + [Index(index)], SchemaModel.Index(index);
    match ItemRule(s, index) {
      case Ignore =>
      case Refuse =>
        RefusedItem(s, index);
        HereIsBlamed(rx, s, v, path, depth);
        assert child[|path|..] == [step];
      case Check(schema) =>
        FindingsAreFaults(rx, schema, v.items[index], child, depth + 1, nodes);
        ItemLifts(rx, s, v, index, path, depth);
        Lifted(Node(rx, schema, v.items[index], child, depth + 1, nodes).issues, path, step,
               BlameOf(rx, schema, v.items[index], child, depth + 1), BlameOf(rx, s, v, path, depth));
    }
  }

  lemma RefusedItem(s: Schema, index: nat)
    requires s.Schema? && ItemRule(s, index).Refuse?
    ensures s.items.Positional? && index >= |s.items.schemas| && s.additionalItems == Allow(false)
  {
  }

  lemma ItemLifts(rx: Engine, s: Schema, v: Value, index: nat, path: Path, depth: nat)
    requires s.Schema? && v.JArray? && index < |v.items| && ItemRule(s, index).Check?
    ensures var c := ItemRule(s, index).schema;
            forall rel: Path, f: Finding :: BlameOf(rx, c, v.items[index], path + [Index(index)], depth + 1)(rel, f) ==>
              BlameOf(rx, s, v, path, depth)([Index(index)] + rel, f)
  {
    var c, step := ItemRule(s, index).schema, SchemaModel.Index(index);
    forall rel: Path, f: Finding | BlameOf(rx, c, v.items[index], path + [step], depth + 1)(rel, f)
      ensures BlameOf(rx, s, v, path, depth)([step] + rel, f)
    {
      assert ([step] + rel)[0] == step && ([step] + rel)[1..] == rel;
      assert Blames(rx, s, v, path, depth, [step] + rel, f);
    }
  }

  // ----- Inspection -----

  /** A bound that is there is no finite number. */
  predicate NoFiniteNumber(b: Bound) {
    b.WrongType? || b.NotFiniteBound?
  }

  predicate NoCountNumber(c: Count) {
    c.NotNumber? || c.NotCount?
  }

  /** What a finding about the keywords of one schema node says. */
  ghost predicate KeywordFault(rx: Engine, s: Schema, f: Finding)
    requires s.Schema?
  {
    match f
    case UnsupportedKeyword => s.unsupported != []
    case BadType =>
      && s.types.Some?
      && (|| s.types.value == []
          || exists t :: && t in s.types.value
                         && t !in {"null", "boolean", "object", "array", "string", "number", "integer"})
    case BadRequired => s.required.BadNames?
    case BoundNotFinite =>
      || NoFiniteNumber(s.minimum) || NoFiniteNumber(s.maximum) || NoFiniteNumber(s.multipleOf)
      || s.minLength.NotNumber? || s.maxLength.NotNumber? || s.minItems.NotNumber? || s.maxItems.NotNumber?
      || s.minProperties.NotNumber? || s.maxProperties.NotNumber?
    case CountNotInteger =>
      || NoCountNumber(s.minLength) || NoCountNumber(s.maxLength) || NoCountNumber(s.minItems)
      || NoCountNumber(s.maxItems) || NoCountNumber(s.minProperties) || NoCountNumber(s.maxProperties)
    case MultipleNotPositive =>
      || s.multipleOf.WrongType? || (s.multipleOf.NotFiniteBound? && s.multipleOf.negative)
      || (s.multipleOf.Limit? && s.multipleOf.n <= 0)
    case BadExclusiveKeyword => s.exclusiveMinimum.BadExclusive? || s.exclusiveMaximum.BadExclusive?
    case ExclusiveNotFinite => s.exclusiveMinimum.NotFinite? || s.exclusiveMaximum.NotFinite?
    case ExclusiveWithoutBound =>
      || (s.exclusiveMinimum == Flag(true) && (s.minimum.NoBound? || s.minimum.WrongType?))
      || (s.exclusiveMaximum == Flag(true) && (s.maximum.NoBound? || s.maximum.WrongType?))
    case PatternNotString => s.pattern.BadPattern?
    case PatternInvalid => s.pattern.Regex? && !rx.compiles(s.pattern.text)
    case _ => false
  }

  ghost function KeywordBlame(rx: Engine, s: Schema): (Path, Finding) -> bool {
    (rel: Path, f: Finding) => rel == [] && s.Schema? && KeywordFault(rx, s, f)
  }

  lemma {:induction false} FlagsJustified(flags: seq<bool>, path: Path, f: Finding, blame: (Path, Finding) -> bool)
    requires (exists i :: 0 <= i < |flags| && flags[i]) ==> blame([], f)
    ensures Justified(FlagIssues(flags, path, f), path, blame)
  {
    if flags != [] {
      assert forall i :: 0 <= i < |flags[1..]| ==> flags[1..][i] == flags[i + 1];
      FlagsJustified(flags[1..], path, f, blame);
      FoundJustified(flags[0], path, f, blame);
      JustifiedConcat(Found(flags[0], path, f), FlagIssues(flags[1..], path, f), path, blame);
    }
  }

  lemma UnsupportedJustified(keys: seq<string>, path: Path, blame: (Path, Finding) -> bool)
    requires keys != [] ==> blame([], UnsupportedKeyword)
    ensures Justified(UnsupportedIssues(keys, path), path, blame)
  {
    assert path[|path|..] == [];
  }

  lemma BoundFlagsMean(rx: Engine, s: Schema, i: nat)
    requires s.Schema? && i < |NotFiniteFlags(s)| && NotFiniteFlags(s)[i]
    ensures KeywordBlame(rx, s)([], BoundNotFinite)
  {
  }

  lemma CountFlagsMean(rx: Engine, s: Schema, i: nat)
    requires s.Schema? && i < |NotCountFlags(s)| && NotCountFlags(s)[i]
    ensures KeywordBlame(rx, s)([], CountNotInteger)
  {
  }

  lemma NumbersJustified(rx: Engine, s: Schema, path: Path)
    requires s.Schema?
    ensures Justified(FlagIssues(NotFiniteFlags(s), path, BoundNotFinite), path, KeywordBlame(rx, s))
    ensures Justified(FlagIssues(NotCountFlags(s), path, CountNotInteger), path, KeywordBlame(rx, s))
  {
    var finite, counts := NotFiniteFlags(s), NotCountFlags(s);
    if i: nat :| i < |finite| && finite[i] {
      BoundFlagsMean(rx, s, i);
    }
    if i: nat :| i < |counts| && counts[i] {
      CountFlagsMean(rx, s, i);
    }
    FlagsJustified(finite, path, BoundNotFinite, KeywordBlame(rx, s));
    FlagsJustified(counts, path, CountNotInteger, KeywordBlame(rx, s));
  }

  lemma ExclusivesJustified(rx: Engine, s: Schema, path: Path)
    requires s.Schema?
    ensures Justified(ExclusiveIssues(s.exclusiveMinimum, s.minimum, path), path, KeywordBlame(rx, s))
    ensures Justified(ExclusiveIssues(s.exclusiveMaximum, s.maximum, path), path, KeywordBlame(rx, s))
    ensures Justified(PatternIssues(rx, s.pattern, path), path, KeywordBlame(rx, s))
  {
    assert path[|path|..] == [];
  }

  lemma ShapeJustified(rx: Engine, s: Schema, path: Path)
    requires s.Schema?
    ensures Justified(UnsupportedIssues(s.unsupported, path) + Found(TypesWrong(s), path, BadType)
                      + Found(s.required.BadNames?, path, BadRequired), path, KeywordBlame(rx, s))
    ensures Justified(Found(MultipleWrong(s.multipleOf), path, MultipleNotPositive), path, KeywordBlame(rx, s))
  {
    var blame := KeywordBlame(rx, s);
    UnsupportedJustified(s.unsupported, path, blame);
    TypesWrongMeans(rx, s);
    FoundJustified(TypesWrong(s), path, BadType, blame);
    FoundJustified(s.required.BadNames?, path, BadRequired, blame);
    FoundJustified(MultipleWrong(s.multipleOf), path, MultipleNotPositive, blame);
  }

  lemma TypesWrongMeans(rx: Engine, s: Schema)
    requires s.Schema?
    ensures TypesWrong(s) ==> KeywordFault(rx, s, BadType)
  {
    if TypesWrong(s) && s.types.value != [] {
      var i :| 0 <= i < |s.types.value| && s.types.value[i] !in SUPPORTED_TYPES;
      assert s.types.value[i] in s.types.value;
    }
  }

  /** Every finding about the keywords of a schema node is a fault of that node. */
  lemma KeywordFindingsAreFaults(rx: Engine, s: Schema, path: Path)
    requires s.Schema?
    ensures Justified(KeywordIssues(rx, s, path), path, KeywordBlame(rx, s))
  {
    var blame := KeywordBlame(rx, s);
    ShapeJustified(rx, s, path);
    NumbersJustified(rx, s, path);
    ExclusivesJustified(rx, s, path);
    var shape := UnsupportedIssues(s.unsupported, path) + Found(TypesWrong(s), path, BadType)
                 + Found(s.required.BadNames?, path, BadRequired);
    var finite := FlagIssues(NotFiniteFlags(s), path, BoundNotFinite);
    var counts := FlagIssues(NotCountFlags(s), path, CountNotInteger);
    var multiple := Found(MultipleWrong(s.multipleOf), path, MultipleNotPositive);
    var low := ExclusiveIssues(s.exclusiveMinimum, s.minimum, path);
    var high := ExclusiveIssues(s.exclusiveMaximum, s.maximum, path);
    JustifiedConcat(shape, finite, path, blame);
    JustifiedConcat(shape + finite, counts, path, blame);
    JustifiedConcat(shape + finite + counts, multiple, path, blame);
    JustifiedConcat(shape + finite + counts + multiple, low, path, blame);
    JustifiedConcat(shape + finite + counts + multiple + low, high, path, blame);
    JustifiedConcat(shape + finite + counts + multiple + low + high, PatternIssues(rx, s.pattern, path), path, blame);
  }
}
