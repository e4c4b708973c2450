/** Splitting text at a separator and joining it again. */
module Lines {
  /** The pieces between separators; one more than there are separators. */
  function Split(s: string, separator: char): (parts: seq<string>)
    ensures |parts| >= 1
  {
    if s == "" then [""]
    else
      var rest := Split(s[1..], separator);
      if s[0] == separator then [""] + rest else [[s[0]] + rest[0]] + rest[1..]
  }

  function Join(parts: seq<string>, separator: char): string {
    if parts == [] then "" else if |parts| == 1 then parts[0] else parts[0] + [separator] + Join(parts[1..], separator)
  }

  lemma JoinFirst(c: char, parts: seq<string>, separator: char)
    requires parts != []
    ensures Join([[c] + parts[0]] + parts[1..], separator) == [c] + Join(parts, separator)
    ensures Join([""] + parts, separator) == [separator] + Join(parts, separator)
  {
    assert ([[c] + parts[0]] + parts[1..])[1..] == parts[1..];
    assert ([""] + parts)[1..] == parts;
  }

  lemma {:induction false} JoinOfSplit(s: string, separator: char)
    ensures Join(Split(s, separator), separator) == s
  {
    if s != "" {
      JoinOfSplit(s[1..], separator);
      JoinFirst(s[0], Split(s[1..], separator), separator);
      assert s == [s[0]] + s[1..];
    }
  }

  /** No piece holds the separator. */
  lemma {:induction false} PiecesArePlain(s: string, separator: char)
    ensures forall part :: part in Split(s, separator) ==> separator !in part
  {
    if s != "" {
      PiecesArePlain(s[1..], separator);
      var rest := Split(s[1..], separator);
      assert rest[0] in rest;
      forall part | part in Split(s, separator) ensures separator !in part {
        assert part == "" || part == [s[0]] + rest[0] || part in rest;
      }
    }
  }

  lemma SplitWithoutSeparator(s: string, separator: char)
    requires separator !in s
    ensures Split(s, separator) == [s]
  {
    if s != "" {
      SplitWithoutSeparator(s[1..], separator);
      assert [s[0]] + s[1..] == s;
    }
  }

  lemma {:induction false} SplitAtSeparator(front: string, separator: char, back: string)
    requires separator !in front
    ensures Split(front + [separator] + back, separator) == [front] + Split(back, separator)
  {
    var s := front + [separator] + back;
    if front == "" {
      assert s[1..] == back;
    } else {
      assert s[1..] == front[1..] + [separator] + back;
      SplitAtSeparator(front[1..], separator, back);
      assert [s[0]] + front[1..] == front;
    }
  }

  lemma {:induction false} SplitOfJoin(parts: seq<string>, separator: char)
    requires parts != [] && forall part :: part in parts ==> separator !in part
    ensures Split(Join(parts, separator), separator) == parts
  {
    if |parts| == 1 {
      SplitWithoutSeparator(parts[0], separator);
    } else {
      SplitOfJoin(parts[1..], separator);
      SplitAtSeparator(parts[0], separator, Join(parts[1..], separator));
    }
  }
}
