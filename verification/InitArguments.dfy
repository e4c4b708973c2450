/**
 * The options of `init`: a scanner that accounts for every token and lookups that search the whole line on their own.
 * Together they accept exactly one grammar, and the record they build depends only on what the options say.
 */
module InitArguments {
  import opened Wrappers

  const VALUE_OPTIONS: set<string> := {"workspace", "config", "scope", "client", "import"}
  const BOOLEAN_OPTIONS: set<string> := {"yes", "force", "dry-run", "json", "no-register", "no-doctor", "latest"}

  const DASHES := "--"

  predicate OptionLike(token: string) {
    DASHES <= token
  }

  // ----- Lookups -----

  function OptionToken(name: string): string {
    DASHES + name
  }

  predicate Mentions(argument: string, name: string) {
    argument == OptionToken(name) || OptionToken(name) + "=" <= argument
  }

  datatype FlagValue = FlagValue(found: bool, inline: bool, value: Option<string>)

  function FirstMention(argv: seq<string>, name: string): (i: nat)
    ensures i <= |argv|
    ensures i < |argv| ==> Mentions(argv[i], name)
    ensures forall j :: 0 <= j < i ==> !Mentions(argv[j], name)
  {
    if argv == [] || Mentions(argv[0], name) then 0 else 1 + FirstMention(argv[1..], name)
  }

  function FindFlag(argv: seq<string>, name: string): FlagValue {
    var i := FirstMention(argv, name);
    if i == |argv| then FlagValue(false, false, None)
    else if OptionToken(name) + "=" <= argv[i] then FlagValue(true, true, Some(argv[i][|name| + 3..]))
    else FlagValue(true, false, if i + 1 < |argv| then Some(argv[i + 1]) else None)
  }

  predicate HasFlag(argv: seq<string>, name: string) {
    OptionToken(name) in argv
  }

  function OccurrenceCount(argv: seq<string>, name: string): nat {
    if argv == [] then 0 else (if Mentions(argv[0], name) then 1 else 0) + OccurrenceCount(argv[1..], name)
  }

  datatype Error =
    | RuntimeIsNotInit
    | Unconsumed(argument: string)
    | MissingValue(name: string)
    | PassedTwice(name: string)
    | InvalidChoice(name: string)

  function RequireFlagValue(argv: seq<string>, name: string): Result<Option<string>, Error> {
    var parsed := FindFlag(argv, name);
    if !parsed.found then Ok(None)
    else if parsed.value.None? || (parsed.inline && parsed.value.value == "")
        || (!parsed.inline && OptionLike(parsed.value.value)) then Err(MissingValue(name))
    else Ok(parsed.value)
  }

  function RequireSingleFlagValue(argv: seq<string>, name: string): Result<Option<string>, Error> {
    if OccurrenceCount(argv, name) > 1 then Err(PassedTwice(name)) else RequireFlagValue(argv, name)
  }

  // ----- Tokens -----

  /** What stands before the first `=`, and what stands after it. */
  function SplitAtEquals(s: string): (string, Option<string>) {
    if s == "" then ("", None)
    else if s[0] == '=' then ("", Some(s[1..]))
    else
      var (name, value) := SplitAtEquals(s[1..]);
      ([s[0]] + name, value)
  }

  lemma {:induction false} SplitForms(s: string)
    ensures var (name, value) := SplitAtEquals(s);
            '=' !in name && s == (if value.None? then name else name + "=" + value.value)
  {
    if s != "" && s[0] != '=' {
      SplitForms(s[1..]);
      var (name, value) := SplitAtEquals(s[1..]);
      assert s == [s[0]] + s[1..];
      if value.Some? {
        assert [s[0]] + (name + "=" + value.value) == ([s[0]] + name) + "=" + value.value;
      }
    } else if s != "" {
      assert s == "" + "=" + s[1..];
    }
  }

  lemma {:induction false} SplitOfName(name: string)
    requires '=' !in name
    ensures SplitAtEquals(name) == (name, None)
  {
    if name != "" {
      SplitOfName(name[1..]);
      assert name == [name[0]] + name[1..];
    }
  }

  lemma {:induction false} SplitOfPair(name: string, value: string)
    requires '=' !in name
    ensures SplitAtEquals(name + "=" + value) == (name, Some(value))
  {
    var s := name + "=" + value;
    if name == "" {
      assert s[1..] == value;
    } else {
      SplitOfPair(name[1..], value);
      assert s[1..] == name[1..] + "=" + value;
      assert name == [name[0]] + name[1..];
    }
  }

  datatype Token = Bare(name: string) | Assigned(name: string, value: string) | Positional

  function TokenOf(argument: string): Token {
    if !OptionLike(argument) then Positional
    else
      var (name, value) := SplitAtEquals(argument[2..]);
      if value.None? then Bare(name) else Assigned(name, value.value)
  }

  lemma TokenText(argument: string)
    ensures match TokenOf(argument)
            case Bare(name) => '=' !in name && argument == OptionToken(name)
            case Assigned(name, value) => '=' !in name && argument == OptionToken(name) + "=" + value
            case Positional => !OptionLike(argument)
  {
    if OptionLike(argument) {
      var rest := argument[2..];
      SplitForms(rest);
      assert argument == DASHES + rest;
      var (name, value) := SplitAtEquals(rest);
      if value.Some? {
        assert DASHES + (name + "=" + value.value) == (DASHES + name) + "=" + value.value;
      }
    }
  }

  lemma TokenOfOption(name: string)
    requires '=' !in name
    ensures TokenOf(OptionToken(name)) == Bare(name)
  {
    SplitOfName(name);
    assert OptionToken(name)[2..] == name;
  }

  lemma TokenOfAssignment(name: string, value: string)
    requires '=' !in name
    ensures TokenOf(OptionToken(name) + "=" + value) == Assigned(name, value)
  {
    SplitOfPair(name, value);
    assert (OptionToken(name) + "=" + value)[2..] == name + "=" + value;
  }

  /** The lookups see an option exactly where the scanner reads its name. */
  lemma MentionsIsToken(argument: string, name: string)
    requires '=' !in name
    ensures Mentions(argument, name) <==> !TokenOf(argument).Positional? && TokenOf(argument).name == name
    ensures OptionToken(name) + "=" <= argument <==> TokenOf(argument).Assigned? && TokenOf(argument).name == name
    ensures TokenOf(argument).Assigned? && TokenOf(argument).name == name ==>
        argument[|name| + 3..] == TokenOf(argument).value
  {
    TokenText(argument);
    TokenOfOption(name);
    var prefix := OptionToken(name) + "=";
    if prefix <= argument {
      assert argument == prefix + argument[|prefix|..];
      TokenOfAssignment(name, argument[|prefix|..]);
    }
  }

  lemma NamesArePlain(name: string)
    requires name in VALUE_OPTIONS || name in BOOLEAN_OPTIONS
    ensures '=' !in name
  {
  }

  // ----- The scanner -----

  function TokensTaken(argument: string, next: Option<string>): (n: nat)
    ensures n <= 2 && (n == 2 ==> next.Some?)
  {
    match TokenOf(argument)
    case Positional => 0
    case Bare(name) =>
      if name in BOOLEAN_OPTIONS then 1
      else if name in VALUE_OPTIONS then (if next.Some? && !OptionLike(next.value) then 2 else 1)
      else 0
    case Assigned(name, value) => if name in VALUE_OPTIONS then 1 else 0
  }

  function Next(args: seq<string>): Option<string> {
    if |args| > 1 then Some(args[1]) else None
  }

  /** The first token no option accounts for. */
  function FirstUnconsumed(args: seq<string>): Option<string> {
    if args == [] then None
    else
      var n := TokensTaken(args[0], Next(args));
      if n == 0 then Some(args[0]) else FirstUnconsumed(args[n..])
  }

  method FindUnconsumedArgument(args: seq<string>) returns (r: Option<string>)
    ensures r == FirstUnconsumed(args)
  {
    var index := 0;
    while index < |args|
      invariant 0 <= index <= |args|
      invariant FirstUnconsumed(args) == FirstUnconsumed(args[index..])
    {
      var token := args[index];
      ghost var rest := args[index..];
      assert rest[0] == token && (|rest| > 1 ==> rest[1] == args[index + 1]);
      assert forall n :: 0 <= n <= |rest| ==> rest[n..] == args[index + n..];
      if !OptionLike(token) {
        return Some(token);
      }
      var (name, value) := SplitAtEquals(token[2..]);
      if name in BOOLEAN_OPTIONS {
        NamesArePlain(name);
        if value.Some? {
          DisjointOptions(name);
          return Some(token);
        }
        index := index + 1;
        continue;
      }
      if name in VALUE_OPTIONS {
        if value.None? && index + 1 < |args| && !OptionLike(args[index + 1]) {
          index := index + 1;
        }
        index := index + 1;
        continue;
      }
      return Some(token);
    }
    r := None;
  }

  lemma DisjointOptions(name: string)
    ensures !(name in BOOLEAN_OPTIONS && name in VALUE_OPTIONS)
  {
  }

  // ----- The grammar -----

  /** One option as it can be written; Dangling is a value option without its value. */
  datatype Unit = Switch(name: string) | Separate(name: string, value: string) | Inline(name: string, value: string)
    | Dangling(name: string)

  function Written(u: Unit): seq<string> {
    match u
    case Switch(name) => [OptionToken(name)]
    case Separate(name, value) => [OptionToken(name), value]
    case Inline(name, value) => [OptionToken(name) + "=" + value]
    case Dangling(name) => [OptionToken(name)]
  }

  function Line(units: seq<Unit>): seq<string> {
    if units == [] then [] else Written(units[0]) + Line(units[1..])
  }

  predicate Legal(u: Unit) {
    match u
    case Switch(name) => name in BOOLEAN_OPTIONS
    case Separate(name, value) => name in VALUE_OPTIONS && !OptionLike(value)
    case Inline(name, value) => name in VALUE_OPTIONS && value != ""
    case Dangling(_) => false
  }

  /** Legal but for a value that may be missing or empty. */
  predicate Scanned(u: Unit) {
    match u
    case Switch(name) => name in BOOLEAN_OPTIONS
    case Separate(name, value) => name in VALUE_OPTIONS && !OptionLike(value)
    case Inline(name, _) => name in VALUE_OPTIONS
    case Dangling(name) => name in VALUE_OPTIONS
  }

  function ReadUnit(argument: string, next: Option<string>): Unit
    requires TokensTaken(argument, next) > 0
  {
    match TokenOf(argument)
    case Bare(name) =>
      if name in BOOLEAN_OPTIONS then Switch(name)
      else if TokensTaken(argument, next) == 2 then Separate(name, next.value)
      else Dangling(name)
    case Assigned(name, value) => Inline(name, value)
  }

  /** The options of a line the scanner accounts for. */
  function Read(args: seq<string>): (units: seq<Unit>)
    requires FirstUnconsumed(args).None?
    ensures forall u :: u in units ==> Scanned(u)
  {
    if args == [] then []
    else
      var n := TokensTaken(args[0], Next(args));
      [ReadUnit(args[0], Next(args))] + Read(args[n..])
  }

  lemma {:induction false} LineOfRead(args: seq<string>)
    requires FirstUnconsumed(args).None?
    ensures Line(Read(args)) == args
  {
    if args != [] {
      var n := TokensTaken(args[0], Next(args));
      UnitIsWritten(args);
      ReadStep(args);
      LineOfRead(args[n..]);
      LineStep(ReadUnit(args[0], Next(args)), Read(args[n..]));
    }
  }

  lemma ReadStep(args: seq<string>)
    requires args != [] && FirstUnconsumed(args).None?
    ensures var n := TokensTaken(args[0], Next(args));
            && 0 < n <= |args| && FirstUnconsumed(args[n..]).None?
            && Read(args) == [ReadUnit(args[0], Next(args))] + Read(args[n..])
  {
    var n := TokensTaken(args[0], Next(args));
    TakenBounds(args[0], Next(args), n);
    TakesOff(args, args[n..], n);
  }

  lemma TakesOff(args: seq<string>, rest: seq<string>, n: nat)
    requires args != [] && n == TokensTaken(args[0], Next(args)) && n <= |args| && rest == args[n..]
    ensures FirstUnconsumed(args) == if n == 0 then Some(args[0]) else FirstUnconsumed(rest)
  {
  }

  lemma TakenBounds(argument: string, next: Option<string>, n: nat)
    requires n == TokensTaken(argument, next)
    ensures n <= 2 && (n == 2 ==> next.Some?)
  {
  }

  lemma LineStep(u: Unit, rest: seq<Unit>)
    ensures Line([u] + rest) == Written(u) + Line(rest)
  {
    assert ([u] + rest)[1..] == rest;
  }

  /** The option read from the front of a line is what stands there. */
  lemma UnitIsWritten(args: seq<string>)
    requires args != [] && TokensTaken(args[0], Next(args)) > 0
    ensures var n := TokensTaken(args[0], Next(args));
            n <= |args| && Written(ReadUnit(args[0], Next(args))) == args[..n] && args == args[..n] + args[n..]
  {
    UnitText(args[0], Next(args));
  }

  lemma UnitText(argument: string, next: Option<string>)
    requires TokensTaken(argument, next) > 0
    ensures Written(ReadUnit(argument, next)) ==
              if TokensTaken(argument, next) == 2 then [argument, next.value] else [argument]
  {
    TokenText(argument);
  }

  /** A dangling option can stand only where no value follows. */
  ghost predicate Readable(units: seq<Unit>) {
    && (forall u :: u in units ==> Scanned(u))
    && forall u :: u in units ==> !u.Dangling?
  }

  lemma {:induction false} ReadOfLine(units: seq<Unit>)
    requires Readable(units)
    ensures FirstUnconsumed(Line(units)).None? && Read(Line(units)) == units
  {
    if units != [] {
      var u, rest := units[0], Line(units[1..]);
      assert u in units;
      assert forall v :: v in units[1..] ==> v in units;
      ReadOfLine(units[1..]);
      ReadWritten(u, rest);
      var args := Written(u) + rest;
      assert args[|Written(u)|..] == rest && units == [u] + units[1..];
    }
  }

  lemma ReadWritten(u: Unit, rest: seq<string>)
    requires Scanned(u) && !u.Dangling?
    ensures var args := Written(u) + rest;
        TokensTaken(args[0], Next(args)) == |Written(u)| && ReadUnit(args[0], Next(args)) == u
  {
    NamesArePlain(u.name);
    DisjointOptions(u.name);
    TokenOfOption(u.name);
    var args := Written(u) + rest;
    assert args[0] == Written(u)[0];
    if u.Separate? {
      assert args[1] == u.value;
    }
    if u.Inline? {
      TokenOfAssignment(u.name, u.value);
    }
  }

  // ----- What the lookups find -----

  function Uses(units: seq<Unit>, name: string): nat {
    if units == [] then 0 else (if units[0].name == name then 1 else 0) + Uses(units[1..], name)
  }

  function FirstUse(units: seq<Unit>, name: string): Option<Unit> {
    if units == [] then None else if units[0].name == name then Some(units[0]) else FirstUse(units[1..], name)
  }

  function Value(u: Unit): Option<string> {
    if u.Separate? || u.Inline? then Some(u.value) else None
  }

  lemma UnitTokens(u: Unit, name: string)
    requires Scanned(u) && '=' !in name
    ensures forall i :: 0 <= i < |Written(u)| ==> (Mentions(Written(u)[i], name) <==> i == 0 && u.name == name)
    ensures OptionToken(name) + "=" <= Written(u)[0] <==> u.Inline? && u.name == name
    ensures u.Inline? && u.name == name ==> Written(u)[0][|name| + 3..] == u.value
  {
    NamesArePlain(u.name);
    TokenOfOption(u.name);
    MentionsIsToken(Written(u)[0], name);
    if u.Separate? {
      MentionsIsToken(u.value, name);
    }
    if u.Inline? {
      TokenOfAssignment(u.name, u.value);
    }
  }

  lemma {:induction false} CountAgrees(args: seq<string>, name: string)
    requires FirstUnconsumed(args).None? && '=' !in name
    ensures OccurrenceCount(args, name) == Uses(Read(args), name)
  {
    if args != [] {
      var n := TokensTaken(args[0], Next(args));
      var u := ReadUnit(args[0], Next(args));
      CountAgrees(args[n..], name);
      LineOfRead(args);
      LineOfRead(args[n..]);
      UnitTokens(u, name);
      assert Read(args) == [u] + Read(args[n..]);
      assert args == Written(u) + args[n..];
      if n == 2 {
        assert args[1..][0] == Written(u)[1] && args[1..][1..] == args[n..];
      }
    }
  }

  /** What the lookup reports for an option is what its first use says. */
  ghost predicate Reports(f: FlagValue, use: Option<Unit>) {
    match use
    case None => !f.found
    case Some(u) =>
      && f.found && (f.inline <==> u.Inline?)
      && (u.Inline? || u.Separate? ==> f.value == Some(u.value))
      && (u.Dangling? ==> f.value.None? || OptionLike(f.value.value))
  }

  lemma {:induction false} LookupAgrees(args: seq<string>, name: string)
    requires FirstUnconsumed(args).None? && name in VALUE_OPTIONS
    ensures Reports(FindFlag(args, name), FirstUse(Read(args), name))
  {
    if args != [] {
      var n := TokensTaken(args[0], Next(args));
      var u := ReadUnit(args[0], Next(args));
      NamesArePlain(name);
      DisjointOptions(name);
      LookupAgrees(args[n..], name);
      LineOfRead(args);
      LineOfRead(args[n..]);
      UnitTokens(u, name);
      assert args == Written(u) + args[n..];
      if u.name == name {
        assert FirstMention(args, name) == 0;
      } else {
        SkipUnit(args, n, name);
      }
    }
  }

  lemma SkipUnit(args: seq<string>, n: nat, name: string)
    requires 1 <= n <= 2 && n <= |args| && forall i :: 0 <= i < n ==> !Mentions(args[i], name)
    ensures FindFlag(args, name) == FindFlag(args[n..], name)
  {
    assert FirstMention(args, name) == 1 + FirstMention(args[1..], name);
    if n == 2 {
      assert args[1..][0] == args[1] && args[1..][1..] == args[2..];
      assert FirstMention(args[1..], name) == 1 + FirstMention(args[2..], name);
    }
  }

  lemma {:induction false} SwitchAgrees(args: seq<string>, name: string)
    requires FirstUnconsumed(args).None? && '=' !in name && name !in VALUE_OPTIONS
    ensures HasFlag(args, name) <==> Switch(name) in Read(args)
  {
    if args != [] {
      var n := TokensTaken(args[0], Next(args));
      var u := ReadUnit(args[0], Next(args));
      SwitchAgrees(args[n..], name);
      LineOfRead(args);
      LineOfRead(args[n..]);
      UnitTokens(u, name);
      assert Read(args) == [u] + Read(args[n..]);
      assert args == Written(u) + args[n..];
      assert OptionToken(name) in Written(u) <==> u == Switch(name);
    }
  }

  // ----- The whole line -----

  datatype InitArguments = InitArguments(
    workspace: Option<string>,
    config: Option<string>,
    scope: Option<string>,
    client: Option<string>,
    importSource: Option<string>,
    yes: bool,
    force: bool,
    dryRun: bool,
    json: bool,
    noRegister: bool,
    noDoctor: bool,
    latest: bool)

  const SCOPES: set<string> := {"personal", "project"}
  const CLIENTS: set<string> := {"claude", "codex", "none"}

  predicate ChoiceAllowed(value: Option<string>, choices: set<string>) {
    value.None? || value.value in choices
  }

  function Choose(argv: seq<string>, name: string, choices: set<string>): Result<Option<string>, Error> {
    var value := RequireSingleFlagValue(argv, name);
    if value.Ok? && !ChoiceAllowed(value.value, choices) then Err(InvalidChoice(name)) else value
  }

  function Switches(argv: seq<string>, r: InitArguments): InitArguments {
    r.(yes := HasFlag(argv, "yes"), force := HasFlag(argv, "force"), dryRun := HasFlag(argv, "dry-run"),
       json := HasFlag(argv, "json"), noRegister := HasFlag(argv, "no-register"),
       noDoctor := HasFlag(argv, "no-doctor"), latest := HasFlag(argv, "latest"))
  }

  function Empty(): InitArguments {
    InitArguments(None, None, None, None, None, false, false, false, false, false, false, false)
  }

  method ParseArguments(args: seq<string>) returns (r: Result<InitArguments, Error>)
    ensures r.Ok? <==> Grammatical(args)
    ensures r.Ok? ==> forall units :: Line(units) == args && Accepted(units) ==> r.value == RecordOf(units)
    ensures HasFlag(args, "runtime") ==> r == Err(RuntimeIsNotInit)
    ensures FirstUnconsumed(args).Some? && !HasFlag(args, "runtime") ==>
        r == Err(Unconsumed(FirstUnconsumed(args).value))
    ensures FirstUnconsumed(args).None? && r.Err? ==> Blamed(Read(args), r.error)
  {
    GrammarIsRead(args);
    if HasFlag(args, "runtime") {
      RuntimeIsUnknown(args);
      return Err(RuntimeIsNotInit);
    }
    var unconsumed := FindUnconsumedArgument(args);
    if unconsumed.Some? {
      return Err(Unconsumed(unconsumed.value));
    }
    AcceptedByLookup(args);
    r := ParseConsumed(args);
  }

  method ParseConsumed(args: seq<string>) returns (r: Result<InitArguments, Error>)
    requires FirstUnconsumed(args).None?
    ensures r.Ok? <==> AllFound(args)
    ensures r.Ok? ==> r.value == RecordOf(Read(args))
    ensures r.Err? ==> Blamed(Read(args), r.error)
  {
    ErrorsAreBlamed(args);
    var scope := Choose(args, "scope", SCOPES);
    if scope.Err? {
      return Err(scope.error);
    }
    var client := Choose(args, "client", CLIENTS);
    if client.Err? {
      return Err(client.error);
    }
    var importSource := Choose(args, "import", CLIENTS);
    if importSource.Err? {
      return Err(importSource.error);
    }
    var workspace := RequireSingleFlagValue(args, "workspace");
    if workspace.Err? {
      return Err(workspace.error);
    }
    var config := RequireSingleFlagValue(args, "config");
    if config.Err? {
      return Err(config.error);
    }
    ValuesAgree(args);
    SwitchesAgree(args);
    r := Ok(Switches(args, Empty().(workspace := workspace.value, config := config.value, scope := scope.value,
                                    client := client.value, importSource := importSource.value)));
  }

  /** What an error says is so: an option stands twice, has no value, or has one that is not offered. */
  ghost predicate Blamed(units: seq<Unit>, e: Error) {
    match e
    case PassedTwice(name) => name in VALUE_OPTIONS && Uses(units, name) > 1
    case MissingValue(name) => name in VALUE_OPTIONS && (Dangling(name) in units || Inline(name, "") in units)
    case InvalidChoice(name) =>
      exists value :: (Separate(name, value) in units || Inline(name, value) in units)
                      && value !in (if name == "scope" then {"personal", "project"} else {"claude", "codex", "none"})
    case _ => false
  }

  lemma SingleBlamed(args: seq<string>, name: string)
    requires FirstUnconsumed(args).None? && name in VALUE_OPTIONS
    ensures RequireSingleFlagValue(args, name).Err? ==> Blamed(Read(args), RequireSingleFlagValue(args, name).error)
    ensures RequireSingleFlagValue(args, name).Ok? && RequireSingleFlagValue(args, name).value.Some? ==>
              var value := RequireSingleFlagValue(args, name).value.value;
              Separate(name, value) in Read(args) || Inline(name, value) in Read(args)
  {
    NamesArePlain(name);
    DisjointOptions(name);
    CountAgrees(args, name);
    LookupAgrees(args, name);
    FirstUseIn(Read(args), name);
  }

  lemma ErrorsAreBlamed(args: seq<string>)
    requires FirstUnconsumed(args).None?
    ensures Choose(args, "scope", SCOPES).Err? ==> Blamed(Read(args), Choose(args, "scope", SCOPES).error)
    ensures Choose(args, "client", CLIENTS).Err? ==> Blamed(Read(args), Choose(args, "client", CLIENTS).error)
    ensures Choose(args, "import", CLIENTS).Err? ==> Blamed(Read(args), Choose(args, "import", CLIENTS).error)
    ensures RequireSingleFlagValue(args, "workspace").Err? ==>
              Blamed(Read(args), RequireSingleFlagValue(args, "workspace").error)
    ensures RequireSingleFlagValue(args, "config").Err? ==>
              Blamed(Read(args), RequireSingleFlagValue(args, "config").error)
  {
    SingleBlamed(args, "scope");
    SingleBlamed(args, "client");
    SingleBlamed(args, "import");
    SingleBlamed(args, "workspace");
    SingleBlamed(args, "config");
  }

  /** Every lookup succeeds. */
  predicate AllFound(args: seq<string>) {
    && Choose(args, "scope", SCOPES).Ok? && Choose(args, "client", CLIENTS).Ok? && Choose(args, "import", CLIENTS).Ok?
    && RequireSingleFlagValue(args, "workspace").Ok? && RequireSingleFlagValue(args, "config").Ok?
  }

  /** The line is some sequence of options the grammar accepts. */
  ghost predicate Grammatical(args: seq<string>) {
    exists units: seq<Unit> :: Line(units) == args && Accepted(units)
  }

  /** There is only one such sequence, and the scanner reads it. */
  lemma GrammarIsRead(args: seq<string>)
    ensures Grammatical(args) <==> FirstUnconsumed(args).None? && Accepted(Read(args))
    ensures forall units: seq<Unit> :: Line(units) == args && Accepted(units) ==>
        FirstUnconsumed(args).None? && units == Read(args)
  {
    AcceptedAreRead(args);
    if FirstUnconsumed(args).None? {
      LineOfRead(args);
    }
  }

  lemma AcceptedByLookup(args: seq<string>)
    requires FirstUnconsumed(args).None?
    ensures Accepted(Read(args)) <==> AllFound(args)
  {
    ValuesAgree(args);
    AcceptedByName(Read(args));
    EachName(Read(args));
  }

  lemma EachName(units: seq<Unit>)
    ensures (forall name :: name in VALUE_OPTIONS ==> NameInOrder(units, name)) <==>
              && NameInOrder(units, "scope") && NameInOrder(units, "client") && NameInOrder(units, "import")
              && NameInOrder(units, "workspace") && NameInOrder(units, "config")
  {
  }

  // ----- What a line says -----

  function ValueOf(units: seq<Unit>, name: string): Option<string> {
    if FirstUse(units, name).None? then None else Value(FirstUse(units, name).value)
  }

  function RecordOf(units: seq<Unit>): InitArguments {
    InitArguments(ValueOf(units, "workspace"), ValueOf(units, "config"), ValueOf(units, "scope"),
                  ValueOf(units, "client"), ValueOf(units, "import"),
                  Switch("yes") in units, Switch("force") in units, Switch("dry-run") in units, Switch("json") in units,
                  Switch("no-register") in units, Switch("no-doctor") in units, Switch("latest") in units)
  }

  /** The grammar: legal options, each value option at most once, choices among those offered. */
  ghost predicate Accepted(units: seq<Unit>) {
    && (forall u :: u in units ==> Legal(u))
    && (forall name :: name in VALUE_OPTIONS ==> Uses(units, name) <= 1)
    && ChoiceAllowed(ValueOf(units, "scope"), SCOPES)
    && ChoiceAllowed(ValueOf(units, "client"), CLIENTS)
    && ChoiceAllowed(ValueOf(units, "import"), CLIENTS)
  }

  /** One value option is in order: used at most once, and then with a value. */
  predicate NameInOrder(units: seq<Unit>, name: string) {
    Uses(units, name) <= 1 && (FirstUse(units, name).Some? ==> Legal(FirstUse(units, name).value))
  }

  lemma {:induction false} UsesOnce(units: seq<Unit>, u: Unit)
    requires u in units
    ensures Uses(units, u.name) > 0
    ensures Uses(units, u.name) == 1 ==> FirstUse(units, u.name) == Some(u)
  {
    if units[0] == u {
    } else {
      assert u in units[1..];
      UsesOnce(units[1..], u);
    }
  }

  lemma {:induction false} FirstUseIn(units: seq<Unit>, name: string)
    ensures FirstUse(units, name).Some? ==>
        FirstUse(units, name).value in units
        && FirstUse(units, name).value.name == name
    ensures FirstUse(units, name).None? ==> Uses(units, name) == 0
  {
    if units != [] {
      FirstUseIn(units[1..], name);
    }
  }

  /** Checking each option by name is checking every unit. */
  lemma AcceptedByName(units: seq<Unit>)
    requires forall u :: u in units ==> Scanned(u)
    ensures (forall name :: name in VALUE_OPTIONS ==> NameInOrder(units, name)) <==>
              (forall u :: u in units ==> Legal(u)) && (forall name :: name in VALUE_OPTIONS ==> Uses(units, name) <= 1)
  {
    if forall name :: name in VALUE_OPTIONS ==> NameInOrder(units, name) {
      forall u | u in units ensures Legal(u) {
        UsesOnce(units, u);
        if !u.Switch? {
          assert NameInOrder(units, u.name);
        }
      }
    }
    forall name | name in VALUE_OPTIONS ensures FirstUse(units, name).Some? ==> FirstUse(units, name).value in units {
      FirstUseIn(units, name);
    }
  }

  lemma ValueAgrees(args: seq<string>, name: string)
    requires FirstUnconsumed(args).None? && name in VALUE_OPTIONS
    ensures RequireSingleFlagValue(args, name).Ok? <==> NameInOrder(Read(args), name)
    ensures RequireSingleFlagValue(args, name).Ok? ==>
        RequireSingleFlagValue(args, name).value == ValueOf(Read(args), name)
  {
    NamesArePlain(name);
    DisjointOptions(name);
    CountAgrees(args, name);
    LookupAgrees(args, name);
    FirstUseIn(Read(args), name);
  }

  lemma ValuesAgree(args: seq<string>)
    requires FirstUnconsumed(args).None?
    ensures forall name :: name in VALUE_OPTIONS ==>
              && (RequireSingleFlagValue(args, name).Ok? <==> NameInOrder(Read(args), name))
              && (RequireSingleFlagValue(args, name).Ok? ==>
                  RequireSingleFlagValue(args, name).value == ValueOf(Read(args), name))
  {
    forall name | name in VALUE_OPTIONS
      ensures RequireSingleFlagValue(args, name).Ok? <==> NameInOrder(Read(args), name)
      ensures RequireSingleFlagValue(args, name).Ok? ==>
          RequireSingleFlagValue(args, name).value == ValueOf(Read(args), name)
    {
      ValueAgrees(args, name);
    }
  }

  lemma SwitchesAgree(args: seq<string>)
    requires FirstUnconsumed(args).None?
    ensures forall name :: name in BOOLEAN_OPTIONS ==> (HasFlag(args, name) <==> Switch(name) in Read(args))
  {
    forall name | name in BOOLEAN_OPTIONS ensures HasFlag(args, name) <==> Switch(name) in Read(args) {
      NamesArePlain(name);
      DisjointOptions(name);
      SwitchAgrees(args, name);
    }
  }

  /** `--runtime` is in no line the scanner accounts for. */
  lemma RuntimeIsUnknown(args: seq<string>)
    ensures FirstUnconsumed(args).None? ==> !HasFlag(args, "runtime")
  {
    if FirstUnconsumed(args).None? {
      var name := "runtime";
      PlainUnknown(name);
      SwitchAgrees(args, name);
    }
  }

  lemma PlainUnknown(name: string)
    requires name == "runtime"
    ensures '=' !in name && name !in VALUE_OPTIONS && name !in BOOLEAN_OPTIONS
  {
  }

  /** A line of the grammar is read back as the options it was written from. */
  lemma AcceptedAreRead(args: seq<string>)
    ensures forall units: seq<Unit> :: Line(units) == args && Accepted(units) ==>
        FirstUnconsumed(args).None? && Read(args) == units
  {
    forall units: seq<Unit> | Line(units) == args && Accepted(units)
      ensures FirstUnconsumed(args).None? && Read(args) == units {
      forall u | u in units ensures Scanned(u) && !u.Dangling? {
        assert Legal(u);
      }
      ReadOfLine(units);
    }
  }

  // ----- Order and spelling do not matter -----

  function Names(units: seq<Unit>): seq<string> {
    if units == [] then [] else [units[0].name] + Names(units[1..])
  }

  ghost predicate Says(units: seq<Unit>, name: string, value: Option<string>) {
    exists u :: u in units && u.name == name && Value(u) == value
  }

  /** The same options, each as often and with the same values, in any order and either spelling. */
  ghost predicate SameOptions(a: seq<Unit>, b: seq<Unit>) {
    multiset(Names(a)) == multiset(Names(b)) && forall name, value :: Says(a, name, value) <==> Says(b, name, value)
  }

  lemma {:induction false} UsesAreNames(units: seq<Unit>, name: string)
    ensures Uses(units, name) == multiset(Names(units))[name]
  {
    if units != [] {
      UsesAreNames(units[1..], name);
    }
  }

  lemma SaidIsFirst(units: seq<Unit>, name: string, value: string)
    requires Uses(units, name) <= 1 && Says(units, name, Some(value))
    ensures ValueOf(units, name) == Some(value)
  {
    var u :| u in units && u.name == name && Value(u) == Some(value);
    UsesOnce(units, u);
  }

  lemma SameValue(a: seq<Unit>, b: seq<Unit>, name: string)
    requires SameOptions(a, b) && Uses(a, name) <= 1
    ensures Uses(b, name) == Uses(a, name) && ValueOf(b, name) == ValueOf(a, name)
  {
    UsesAreNames(a, name);
    UsesAreNames(b, name);
    FirstUseIn(a, name);
    FirstUseIn(b, name);
    if ValueOf(a, name).Some? {
      assert Says(a, name, ValueOf(a, name));
      SaidIsFirst(b, name, ValueOf(a, name).value);
    } else if ValueOf(b, name).Some? {
      assert Says(b, name, ValueOf(b, name));
      SaidIsFirst(a, name, ValueOf(b, name).value);
    }
  }

  lemma SameSwitch(a: seq<Unit>, b: seq<Unit>, name: string)
    requires SameOptions(a, b) && (forall u :: u in a || u in b ==> Legal(u)) && Switch(name) in a
    ensures Switch(name) in b
  {
    assert Says(a, name, None);
    var u :| u in b && u.name == name && Value(u) == None;
  }

  /** Acceptance and the record depend only on which options are given with which values. */
  lemma OrderAndSpellingDoNotMatter(a: seq<Unit>, b: seq<Unit>)
    requires Accepted(a) && SameOptions(a, b) && forall u :: u in b ==> Legal(u)
    ensures Accepted(b) && RecordOf(b) == RecordOf(a)
  {
    forall name | name in VALUE_OPTIONS ensures Uses(b, name) <= 1 && ValueOf(b, name) == ValueOf(a, name) {
      SameValue(a, b, name);
    }
    forall name ensures Switch(name) in a <==> Switch(name) in b {
      if Switch(name) in a {
        SameSwitch(a, b, name);
      }
      if Switch(name) in b {
        SameSwitch(b, a, name);
      }
    }
  }
}
