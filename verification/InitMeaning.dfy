/**
 * What an accepted line of `init` means, said of its tokens: which options there are, how they are written, and which
 * field of the record each of them fills.
 */
module InitMeaning {
  import opened Wrappers
  import opened InitArguments

  /** The line gives a value option this value, in either spelling. */
  ghost predicate Gives(args: seq<string>, option: string, value: string) {
    exists i :: 0 <= i < |args| && GivesAt(args, i, option, value)
  }

  ghost predicate GivesAt(args: seq<string>, i: nat, option: string, value: string)
    requires i < |args|
  {
    args[i] == option + "=" + value || (args[i] == option && i + 1 < |args| && args[i + 1] == value)
  }

  // ----- Tokens and units -----

  lemma OneUnit(u: Unit, rest: seq<string>, name: string, value: string)
    requires Legal(u) && name in VALUE_OPTIONS
    ensures GivesAt(Written(u) + rest, 0, OptionToken(name), value) <==>
              u == Separate(name, value) || u == Inline(name, value)
  {
    NamesArePlain(name);
    NamesArePlain(u.name);
    DisjointOptions(u.name);
    DisjointOptions(name);
    TokenOfOption(name);
    TokenOfOption(u.name);
    TokenOfAssignment(name, value);
    if u.Inline? {
      TokenOfAssignment(u.name, u.value);
    }
    var args := Written(u) + rest;
    assert args[0] == Written(u)[0];
    if u.Separate? {
      assert args[1] == u.value;
    }
  }

  /** The value behind an option is no option itself, so nothing is given there. */
  lemma InsideUnit(u: Unit, rest: seq<string>, name: string, value: string)
    requires Legal(u) && |Written(u)| == 2
    ensures !GivesAt(Written(u) + rest, 1, OptionToken(name), value)
  {
    assert (Written(u) + rest)[1] == u.value;
    assert DASHES <= OptionToken(name) && DASHES <= OptionToken(name) + "=" + value;
  }

  lemma LaterGives(head: seq<string>, rest: seq<string>, i: nat, option: string, value: string)
    requires i < |rest|
    ensures GivesAt(head + rest, |head| + i, option, value) <==> GivesAt(rest, i, option, value)
  {
  }

  /** What a line of legal options gives is what its options say. */
  lemma {:induction false} LineGives(units: seq<Unit>, name: string, value: string)
    requires (forall u :: u in units ==> Legal(u)) && name in VALUE_OPTIONS
    ensures Gives(Line(units), OptionToken(name), value) <==>
              Separate(name, value) in units || Inline(name, value) in units
  {
    if units != [] {
      var u, rest := units[0], Line(units[1..]);
      assert units == [u] + units[1..] && u in units;
      LineGives(units[1..], name, value);
      GivesInParts(u, rest, name, value);
    }
  }

  lemma GivesInParts(u: Unit, rest: seq<string>, name: string, value: string)
    requires Legal(u) && name in VALUE_OPTIONS
    ensures Gives(Written(u) + rest, OptionToken(name), value) <==>
              u == Separate(name, value) || u == Inline(name, value) || Gives(rest, OptionToken(name), value)
  {
    var head, option := Written(u), OptionToken(name);
    OneUnit(u, rest, name, value);
    if Gives(head + rest, option, value) {
      var i :| 0 <= i < |head + rest| && GivesAt(head + rest, i, option, value);
      if i >= |head| {
        LaterGives(head, rest, i - |head|, option, value);
      } else if i == 1 {
        InsideUnit(u, rest, name, value);
      }
    }
    if i :| 0 <= i < |rest| && GivesAt(rest, i, option, value) {
      LaterGives(head, rest, i, option, value);
      assert GivesAt(head + rest, |head| + i, option, value);
    }
  }

  lemma {:induction false} LineHas(units: seq<Unit>, name: string)
    requires (forall u :: u in units ==> Legal(u)) && name in BOOLEAN_OPTIONS
    ensures OptionToken(name) in Line(units) <==> Switch(name) in units
  {
    if units != [] {
      var u := units[0];
      assert units == [u] + units[1..] && u in units;
      LineHas(units[1..], name);
      NamesArePlain(name);
      NamesArePlain(u.name);
      DisjointOptions(name);
      TokenOfOption(name);
      TokenOfOption(u.name);
      if u.Inline? {
        TokenOfAssignment(u.name, u.value);
      }
      assert OptionToken(name) in Written(u) <==> u == Switch(name);
    }
  }

  lemma ValueIsGiven(units: seq<Unit>, name: string, value: string)
    requires Accepted(units) && name in VALUE_OPTIONS
    ensures ValueOf(units, name) == Some(value) <==> Gives(Line(units), OptionToken(name), value)
  {
    LineGives(units, name, value);
    FirstUseIn(units, name);
    if Separate(name, value) in units {
      UsesOnce(units, Separate(name, value));
    }
    if Inline(name, value) in units {
      UsesOnce(units, Inline(name, value));
    }
  }

  // ----- The record -----

  /** Each value field holds what the line gives its option, and nothing when the line gives it nothing. */
  ghost predicate Filled(field: Option<string>, args: seq<string>, option: string) {
    forall value :: field == Some(value) <==> Gives(args, option, value)
  }

  lemma FieldIsFilled(units: seq<Unit>, name: string)
    requires Accepted(units) && name in VALUE_OPTIONS
    ensures Filled(ValueOf(units, name), Line(units), OptionToken(name))
  {
    forall value ensures ValueOf(units, name) == Some(value) <==> Gives(Line(units), OptionToken(name), value) {
      ValueIsGiven(units, name, value);
    }
  }

  /** Every field of the record of an accepted line, by the option that fills it. */
  lemma RecordMeans(units: seq<Unit>)
    requires Accepted(units)
    ensures var r, args := RecordOf(units), Line(units);
            && Filled(r.workspace, args, "--workspace") && Filled(r.config, args, "--config")
            && Filled(r.scope, args, "--scope") && Filled(r.client, args, "--client")
            && Filled(r.importSource, args, "--import")
            && (r.yes <==> "--yes" in args) && (r.force <==> "--force" in args)
            && (r.dryRun <==> "--dry-run" in args) && (r.json <==> "--json" in args)
            && (r.noRegister <==> "--no-register" in args) && (r.noDoctor <==> "--no-doctor" in args)
            && (r.latest <==> "--latest" in args)
  {
    ValueFields(units);
    SwitchFields(units);
  }

  lemma ValueFields(units: seq<Unit>)
    requires Accepted(units)
    ensures var r, args := RecordOf(units), Line(units);
            && Filled(r.workspace, args, "--workspace") && Filled(r.config, args, "--config")
            && Filled(r.scope, args, "--scope") && Filled(r.client, args, "--client")
            && Filled(r.importSource, args, "--import")
  {
    FieldIsFilled(units, "workspace");
    FieldIsFilled(units, "config");
    FieldIsFilled(units, "scope");
    FieldIsFilled(units, "client");
    FieldIsFilled(units, "import");
    assert OptionToken("workspace") == "--workspace" && OptionToken("config") == "--config";
    assert OptionToken("scope") == "--scope" && OptionToken("client") == "--client";
    assert OptionToken("import") == "--import";
  }

  lemma SwitchFields(units: seq<Unit>)
    requires Accepted(units)
    ensures var r, args := RecordOf(units), Line(units);
            && (r.yes <==> "--yes" in args) && (r.force <==> "--force" in args)
            && (r.dryRun <==> "--dry-run" in args) && (r.json <==> "--json" in args)
            && (r.noRegister <==> "--no-register" in args) && (r.noDoctor <==> "--no-doctor" in args)
            && (r.latest <==> "--latest" in args)
  {
    LineHas(units, "yes");
    LineHas(units, "force");
    LineHas(units, "dry-run");
    LineHas(units, "json");
    LineHas(units, "no-register");
    LineHas(units, "no-doctor");
    LineHas(units, "latest");
    assert OptionToken("yes") == "--yes" && OptionToken("force") == "--force" && OptionToken("dry-run") == "--dry-run";
    assert OptionToken("json") == "--json" && OptionToken("no-register") == "--no-register";
    assert OptionToken("no-doctor") == "--no-doctor" && OptionToken("latest") == "--latest";
  }

  // ----- The grammar -----

  /** The options there are, how each is written, and what is offered as a choice. */
  lemma GrammarMeans(u: Unit)
    ensures Legal(u) <==>
              || (u.Switch? && u.name in {"yes", "force", "dry-run", "json", "no-register", "no-doctor", "latest"})
              || (u.Separate? && u.name in {"workspace", "config", "scope", "client", "import"} && !("--" <= u.value))
              || (u.Inline? && u.name in {"workspace", "config", "scope", "client", "import"} && u.value != "")
    ensures u.Switch? ==> Written(u) == ["--" + u.name]
    ensures u.Separate? ==> Written(u) == ["--" + u.name, u.value]
    ensures u.Inline? ==> Written(u) == ["--" + u.name + "=" + u.value]
    ensures VALUE_OPTIONS == {"workspace", "config", "scope", "client", "import"}
    ensures SCOPES == {"personal", "project"} && CLIENTS == {"claude", "codex", "none"}
  {
  }

  lemma {:induction false} UsedOnce(units: seq<Unit>, name: string)
    ensures Uses(units, name) == 0 <==> forall i :: 0 <= i < |units| ==> units[i].name != name
    ensures Uses(units, name) <= 1 <==>
              forall i, j :: 0 <= i < j < |units| ==> units[i].name != name || units[j].name != name
  {
    if units != [] {
      var rest := units[1..];
      UsedOnce(rest, name);
      assert forall i :: 1 <= i < |units| ==> units[i] == rest[i - 1];
      if forall i, j :: 0 <= i < j < |units| ==> units[i].name != name || units[j].name != name {
        forall i, j | 0 <= i < j < |rest| ensures rest[i].name != name || rest[j].name != name {
          assert units[i + 1] == rest[i] && units[j + 1] == rest[j];
        }
      }
    }
  }

  /** No value option stands twice. */
  ghost predicate EachOnce(units: seq<Unit>) {
    forall i, j :: 0 <= i < j < |units| && !units[i].Switch? ==> units[i].name != units[j].name
  }

  lemma OnceMeans(units: seq<Unit>)
    requires forall u :: u in units ==> Legal(u)
    ensures EachOnce(units) <==> forall name :: name in VALUE_OPTIONS ==> Uses(units, name) <= 1
  {
    if EachOnce(units) {
      forall name | name in VALUE_OPTIONS ensures Uses(units, name) <= 1 {
        forall i, j | 0 <= i < j < |units| ensures units[i].name != name || units[j].name != name {
          assert Legal(units[i]);
          DisjointOptions(name);
        }
        UsedOnce(units, name);
      }
    }
    if forall name :: name in VALUE_OPTIONS ==> Uses(units, name) <= 1 {
      forall i, j | 0 <= i < j < |units| && !units[i].Switch? ensures units[i].name != units[j].name {
        assert Legal(units[i]);
        UsedOnce(units, units[i].name);
      }
    }
  }

  lemma ChoiceMeans(units: seq<Unit>, name: string, choices: set<string>)
    requires (forall u :: u in units ==> Legal(u)) && name in VALUE_OPTIONS && Uses(units, name) <= 1
    ensures ChoiceAllowed(ValueOf(units, name), choices) <==>
              forall u :: u in units && u.name == name ==> Value(u).Some? && Value(u).value in choices
  {
    FirstUseIn(units, name);
    DisjointOptions(name);
    forall u | u in units && u.name == name ensures FirstUse(units, name) == Some(u) {
      UsesOnce(units, u);
    }
  }

  /**
   * A line is accepted exactly when its options are legal, no value option stands twice, and choices are among those
   * offered.
   */
  lemma AcceptanceMeans(units: seq<Unit>)
    ensures Accepted(units) <==>
              && (forall u :: u in units ==> Legal(u)) && EachOnce(units)
              && (forall u :: u in units && u.name == "scope" ==> u.value in {"personal", "project"})
              && (forall u :: u in units && u.name == "client" ==> u.value in {"claude", "codex", "none"})
              && (forall u :: u in units && u.name == "import" ==> u.value in {"claude", "codex", "none"})
  {
    if forall u :: u in units ==> Legal(u) {
      OnceMeans(units);
      if EachOnce(units) {
        ChoiceMeans(units, "scope", SCOPES);
        ChoiceMeans(units, "client", CLIENTS);
        ChoiceMeans(units, "import", CLIENTS);
      }
    }
  }
}
