/**
 * The capped list of issues the validator and the schema inspection share, and how capped runs relate to the
 * traversal that nothing caps.
 */
module IssueCollection {
  import opened SchemaModel
  import opened SchemaTrace

  /** The state of a collector. */
  datatype Tally = Tally(issues: seq<Issue>, truncated: bool)

  ghost predicate Capped(t: Tally) {
    |t.issues| <= MAX_ISSUES && (t.truncated ==> |t.issues| == MAX_ISSUES)
  }

  function Cap(issues: seq<Issue>): seq<Issue> {
    if |issues| <= MAX_ISSUES then issues else issues[..MAX_ISSUES]
  }

  /** What adding issues one by one leaves: the first ones, and nothing lost without saying so. */
  ghost predicate Appends(before: Tally, added: seq<Issue>, after: Tally) {
    && Capped(after)
    && after.issues == Cap(before.issues + added)
    && (!after.truncated ==> !before.truncated && after.issues == before.issues + added)
  }

  /** The same for a traversal; its node counter is exact as long as nothing was cut. */
  ghost predicate Records(before: Tally, t: Trace, after: Tally, nodes: nat) {
    Appends(before, t.issues, after) && (!after.truncated ==> nodes == t.nodes)
  }

  lemma AppendsNothing(t: Tally)
    requires Capped(t)
    ensures Appends(t, [], t)
  {
    assert t.issues + [] == t.issues;
  }

  lemma CapConcat(a: seq<Issue>, b: seq<Issue>, c: seq<Issue>)
    requires |a| <= MAX_ISSUES
    ensures Cap(Cap(a + b) + c) == Cap(a + (b + c))
  {
    assert a + (b + c) == (a + b) + c;
    if |a + b| > MAX_ISSUES {
      assert ((a + b) + c)[..MAX_ISSUES] == (a + b)[..MAX_ISSUES];
      assert ((a + b)[..MAX_ISSUES] + c)[..MAX_ISSUES] == (a + b)[..MAX_ISSUES];
    }
  }

  lemma AppendsThen(before: Tally, first: seq<Issue>, middle: Tally, second: seq<Issue>, after: Tally)
    requires Capped(before) && Appends(before, first, middle) && Appends(middle, second, after)
    ensures Appends(before, first + second, after)
  {
    CapConcat(before.issues, first, second);
    assert before.issues + (first + second) == (before.issues + first) + second;
  }

  /** One step of a loop that has recorded `done` and has `added + rest` to go. */
  lemma AppendsStep(before: Tally, whole: seq<Issue>, done: seq<Issue>, middle: Tally, added: seq<Issue>,
                    rest: seq<Issue>, after: Tally)
    requires Capped(before) && Appends(before, done, middle) && Appends(middle, added, after)
    requires whole == done + (added + rest)
    ensures Appends(before, done + added, after) && whole == (done + added) + rest
  {
    AppendsThen(before, done, middle, added, after);
  }

  /** A full collector that has lost issues absorbs whatever the rest of the traversal finds. */
  lemma AppendsAny(middle: Tally, second: seq<Issue>, other: seq<Issue>, after: Tally)
    requires middle.truncated && Capped(middle) && Appends(middle, second, after)
    ensures Appends(middle, other, after)
  {
    assert (middle.issues + second)[..MAX_ISSUES] == middle.issues;
    assert (middle.issues + other)[..MAX_ISSUES] == middle.issues;
  }

  /**
   * The second of two traversals starts from the counter the first one left; once issues were lost, that counter no
   * longer matters.
   */
  lemma RecordsThen(before: Tally, first: Trace, middle: Tally, actual: Trace, exact: Trace, after: Tally, nodes: nat)
    requires Capped(before) && Appends(before, first.issues, middle) && Records(middle, actual, after, nodes)
    requires !middle.truncated ==> actual == exact
    ensures Records(before, Then(first, exact), after, nodes)
  {
    if middle.truncated {
      AppendsAny(middle, actual.issues, exact.issues, after);
    }
    AppendsThen(before, first.issues, middle, exact.issues, after);
  }

  class ValidationState {
    var nodes: nat

    constructor ()
      ensures nodes == 0
    {
      nodes := 0;
    }
  }

  class IssueCollector {
    var issues: seq<Issue>
    var truncated: bool

    ghost function View(): Tally
      reads this
    {
      Tally(issues, truncated)
    }

    ghost predicate Valid()
      reads this
    {
      Capped(View())
    }

    constructor ()
      ensures Valid() && issues == [] && !truncated
    {
      issues, truncated := [], false;
    }

    method Add(path: Path, finding: Finding)
      requires Valid()
      modifies this
      ensures Valid() && Appends(old(View()), [Issue(path, finding)], View())
    {
      if |issues| >= MAX_ISSUES {
        truncated := true;
        return;
      }
      issues := issues + [Issue(path, finding)];
    }

    /** Adds the issue when the condition holds. */
    method AddWhen(found: bool, path: Path, finding: Finding)
      requires Valid()
      modifies this
      ensures Valid() && Appends(old(View()), Found(found, path, finding), View())
    {
      AppendsNothing(View());
      if found {
        Add(path, finding);
      }
    }

    method AddFlagged(flags: seq<bool>, path: Path, finding: Finding)
      requires Valid()
      modifies this
      ensures Valid() && Appends(old(View()), FlagIssues(flags, path, finding), View())
    {
      ghost var before, done := View(), [];
      AppendsNothing(before);
      for i := 0 to |flags|
        invariant Appends(before, done, View())
        invariant FlagIssues(flags, path, finding) == done + FlagIssues(flags[i..], path, finding)
      {
        ghost var middle, added := View(), Found(flags[i], path, finding);
        assert flags[i..][0] == flags[i] && flags[i..][1..] == flags[i + 1..];
        assert FlagIssues(flags[i..], path, finding) == added + FlagIssues(flags[i + 1..], path, finding);
        AddWhen(flags[i], path, finding);
        AppendsStep(before, FlagIssues(flags, path, finding), done, middle, added,
                    FlagIssues(flags[i + 1..], path, finding), View());
        done := done + added;
      }
      assert flags[|flags|..] == [];
    }
  }
}
