/**
 * The canonical printer of gh-makami.ts, a parser for RFC 8259 that knows nothing of it, and the proof
 * that two values print alike exactly when they are equal up to member order.
 */
module CanonicalJson {
  import opened Wrappers
  import opened Utf8
  import opened Utf16
  import opened Json
  import opened JsonParser

  datatype SerializeError = NumberNotFinite | NotSerializable

  // ----- The printer -----

  function Hex(d: nat): char
    requires d < 16
  {
    "0123456789abcdef"[d]
  }

  function Escape(c: char): (e: string)
    ensures e != ""
  {
    if c == '"' then ['\\', '"']
    else if c == '\\' then ['\\', '\\']
    else if c as int == 8 then ['\\', 'b']
    else if c as int == 9 then ['\\', 't']
    else if c as int == 10 then ['\\', 'n']
    else if c as int == 12 then ['\\', 'f']
    else if c as int == 13 then ['\\', 'r']
    else if c as int < 0x20 then ['\\', 'u', '0', '0', Hex(c as int / 16), Hex(c as int % 16)]
    else [c]
  }

  function EscapeAll(s: string): string {
    if s == "" then "" else Escape(s[0]) + EscapeAll(s[1..])
  }

  function Quote(s: string): string {
    ['"'] + EscapeAll(s) + ['"']
  }

  function Insert(field: Field, sorted: seq<Field>): (r: seq<Field>)
    ensures |r| == |sorted| + 1
    ensures forall f :: f in r <==> f == field || f in sorted
  {
    if sorted == [] || !Before(sorted[0].key, field.key) then [field] + sorted
    else [sorted[0]] + Insert(field, sorted[1..])
  }

  /** Members in key order, keys compared by code units. */
  function Sorted(members: seq<Field>): (r: seq<Field>)
    ensures |r| == |members|
    ensures forall f :: f in r <==> f in members
  {
    if members == [] then [] else Insert(members[0], Sorted(members[1..]))
  }

  lemma SortedInside(members: seq<Field>)
    ensures forall i :: 0 <= i < |members| ==> Sorted(members)[i].value < JObject(members)
  {
    forall i | 0 <= i < |members| ensures Sorted(members)[i].value < JObject(members) {
      assert Sorted(members)[i] in members;
    }
  }

  function StableStringify(v: Value): Result<string, SerializeError>
    decreases v
  {
    match v
    case JNull => Ok("null")
    case JBool(b) => Ok(if b then "true" else "false")
    case JNumber(text) => if IsNumberText(text) then Ok(text) else Err(NumberNotFinite)
    case JString(s) => Ok(Quote(s))
    case JUndefined => Err(NotSerializable)
    case JArray(items) =>
      (match ItemsText(v, items)
       case Err(e) => Err(e)
       case Ok(text) => Ok("[" + text + "]"))
    case JObject(members) =>
      (SortedInside(members);
       match FieldsText(v, Sorted(members))
       case Err(e) => Err(e)
       case Ok(text) => Ok("{" + text + "}"))
  }

  function ItemsText(parent: Value, items: seq<Value>): Result<string, SerializeError>
    requires forall i :: 0 <= i < |items| ==> items[i] < parent
    decreases parent, |items|
  {
    if items == [] then Ok("")
    else
      match StableStringify(items[0])
      case Err(e) => Err(e)
      case Ok(first) =>
        if |items| == 1 then Ok(first)
        else
          match ItemsText(parent, items[1..])
          case Err(e) => Err(e)
          case Ok(rest) => Ok(first + "," + rest)
  }

  function FieldsText(parent: Value, fields: seq<Field>): Result<string, SerializeError>
    requires forall i :: 0 <= i < |fields| ==> fields[i].value < parent
    decreases parent, |fields|
  {
    if fields == [] then Ok("")
    else
      match StableStringify(fields[0].value)
      case Err(e) => Err(e)
      case Ok(value) =>
        var first := Quote(fields[0].key) + ":" + value;
        if |fields| == 1 then Ok(first)
        else
          match FieldsText(parent, fields[1..])
          case Err(e) => Err(e)
          case Ok(rest) => Ok(first + "," + rest)
  }

  /** What a parser should get back: the same value with the members of every object in key order. */
  function Canonical(v: Value): Value
    decreases v
  {
    match v
    case JArray(items) => JArray(CanonicalItems(v, items))
    case JObject(members) => SortedInside(members); JObject(CanonicalFields(v, Sorted(members)))
    case _ => v
  }

  function CanonicalItems(parent: Value, items: seq<Value>): (r: seq<Value>)
    requires forall i :: 0 <= i < |items| ==> items[i] < parent
    ensures |r| == |items| && forall i :: 0 <= i < |items| ==> r[i] == Canonical(items[i])
    decreases parent, |items|
  {
    if items == [] then [] else [Canonical(items[0])] + CanonicalItems(parent, items[1..])
  }

  function CanonicalFields(parent: Value, fields: seq<Field>): (r: seq<Field>)
    requires forall i :: 0 <= i < |fields| ==> fields[i].value < parent
    ensures |r| == |fields| && forall i :: 0 <= i < |fields| ==>
        r[i] == Member(fields[i].key, Canonical(fields[i].value))
    decreases parent, |fields|
  {
    if fields == [] then []
    else [Member(fields[0].key, Canonical(fields[0].value))] + CanonicalFields(parent, fields[1..])
  }

  // ----- Strings -----

  lemma HexDigit(d: nat)
    requires d < 16
    ensures HexValue(Hex(d)) == Some(d)
  {
  }

  lemma ControlEscape(c: char)
    requires c as int < 0x20
    ensures HexNumber(['0', '0', Hex(c as int / 16), Hex(c as int % 16)]) == Some(c as int)
  {
    var h, l := Hex(c as int / 16), Hex(c as int % 16);
    HexDigit(c as int / 16);
    HexDigit(c as int % 16);
    assert ['0', '0', h, l][..3] == ['0', '0', h] && ['0', '0', h][..2] == ['0', '0'] && ['0', '0'][..1] == ['0']
        && ['0'][..0] == "";
    assert HexNumber(['0']) == Some(0);
    assert HexNumber(['0', '0']) == Some(0);
    assert HexNumber(['0', '0', h]) == Some(c as int / 16);
  }

  lemma ParseCharOfEscape(c: char, rest: string)
    ensures ParseChar(Escape(c) + rest) == Some((c, |Escape(c)|))
    ensures Escape(c)[0] != '"'
  {
    var s := Escape(c) + rest;
    assert forall i :: 0 <= i < |Escape(c)| ==> s[i] == Escape(c)[i];
    if |Escape(c)| == 6 {
      ControlEscape(c);
      assert s[2..6] == ['0', '0', Hex(c as int / 16), Hex(c as int % 16)];
    }
  }

  lemma {:induction false} ParseCharsOfEscapes(s: string, rest: string)
    ensures ParseChars(EscapeAll(s) + ['"'] + rest) == Some((s, rest))
  {
    var text := EscapeAll(s) + ['"'] + rest;
    if s == "" {
      assert text[1..] == rest;
    } else {
      var tail := EscapeAll(s[1..]) + ['"'] + rest;
      assert text == Escape(s[0]) + tail;
      ParseCharOfEscape(s[0], tail);
      assert text[|Escape(s[0])|..] == tail;
      ParseCharsOfEscapes(s[1..], rest);
      assert [s[0]] + s[1..] == s;
    }
  }

  lemma ParseQuoted(s: string, rest: string)
    ensures var text := Quote(s) + rest; text != "" && text[0] == '"' && ParseChars(text[1..]) == Some((s, rest))
  {
    ParseCharsOfEscapes(s, rest);
    assert (Quote(s) + rest)[1..] == EscapeAll(s) + ['"'] + rest;
  }

  // ----- Numbers -----

  ghost predicate AllNumberChars(s: string) {
    forall i :: 0 <= i < |s| ==> NumberChar(s[i])
  }

  lemma AllNumberCharsAfter(c: char, s: string)
    requires NumberChar(c) && AllNumberChars(s)
    ensures AllNumberChars([c] + s)
  {
  }

  lemma {:induction false} DigitsAreNumberChars(s: string)
    requires AllNumberChars(SkipDigits(s))
    ensures AllNumberChars(s)
  {
    if s != "" && Digit(s[0]) {
      DigitsAreNumberChars(s[1..]);
      AllNumberCharsAfter(s[0], s[1..]);
      assert s == [s[0]] + s[1..];
    }
  }

  lemma ExponentChars(s: string)
    requires ExponentOrEnd(s)
    ensures AllNumberChars(s)
  {
    if s != "" {
      var digits := if s[1] == '+' || s[1] == '-' then s[2..] else s[1..];
      DigitsAreNumberChars(digits);
      if s[1] == '+' || s[1] == '-' {
        assert s == [s[0]] + ([s[1]] + digits);
      } else {
        assert s == [s[0]] + digits;
      }
    }
  }

  lemma NumberTextChars(s: string)
    requires IsNumberText(s)
    ensures s != "" && AllNumberChars(s) && (Digit(s[0]) || s[0] == '-')
  {
    var unsigned := if s[0] == '-' then s[1..] else s;
    var rest := if unsigned[0] == '0' then unsigned[1..] else SkipDigits(unsigned);
    if rest != "" && rest[0] == '.' {
      ExponentChars(SkipDigits(rest[1..]));
      DigitsAreNumberChars(rest[1..]);
      assert rest == [rest[0]] + rest[1..];
    } else {
      ExponentChars(rest);
    }
    if unsigned[0] == '0' {
      assert unsigned == [unsigned[0]] + rest;
    } else {
      DigitsAreNumberChars(unsigned);
    }
    if s[0] == '-' {
      assert s == [s[0]] + unsigned;
    }
  }

  /** What may follow a value in a text without being taken for part of a number. */
  predicate EndsNumber(rest: string) {
    rest == "" || !NumberChar(rest[0])
  }

  lemma {:induction false} NumberRunOfText(s: string, rest: string)
    requires AllNumberChars(s) && EndsNumber(rest)
    ensures NumberRun(s + rest) == s
  {
    if s == "" {
      assert s + rest == rest;
    } else {
      assert (s + rest)[1..] == s[1..] + rest;
      NumberRunOfText(s[1..], rest);
      assert [s[0]] + s[1..] == s;
    }
  }

  // ----- Values -----

  predicate StartsValue(c: char) {
    c == 'n' || c == 't' || c == 'f' || c == '"' || c == '[' || c == '{' || Digit(c) || c == '-'
  }

  lemma TextStarts(v: Value)
    requires StableStringify(v).Ok?
    ensures StableStringify(v).value != "" && StartsValue(StableStringify(v).value[0])
  {
    if v.JNumber? {
      NumberTextChars(v.n);
    }
  }

  lemma ParsePrintedScalar(v: Value, rest: string)
    requires StableStringify(v).Ok? && EndsNumber(rest) && !v.JArray? && !v.JObject?
    ensures ParseValue(StableStringify(v).value + rest) == Some((v, rest))
  {
    var text := StableStringify(v).value;
    var s := text + rest;
    TextStarts(v);
    assert s[0] == text[0] && s[|text|..] == rest;
    match v
    case JNull => assert s[..4] == "null";
    case JBool(b) => assert s[..|text|] == text;
    case JNumber(n) =>
      NumberTextChars(n);
      NumberRunOfText(n, rest);
    case JString(t) => ParseQuoted(t, rest);
  }

  lemma ParseBracketed(body: string, items: seq<Value>, rest: string)
    requires if items == [] then body == ""
             else body != "" && StartsValue(body[0]) && ParseItems(body + ("]" + rest)) == Some((items, rest))
    ensures ParseValue("[" + (body + ("]" + rest))) == Some((JArray(items), rest))
  {
    var s := "[" + (body + ("]" + rest));
    assert s[0] == '[' && s[1..] == body + ("]" + rest);
    assert SkipSpace(s) == s;
    if items == [] {
      assert s[1..] == "]" + rest;
      assert SkipSpace(s[1..]) == s[1..] && s[1..][1..] == rest;
    } else {
      assert s[1..][0] == body[0] && SkipSpace(s[1..]) == s[1..];
    }
  }

  lemma ParseBraced(body: string, fields: seq<Field>, rest: string)
    requires if fields == [] then body == ""
             else body != "" && body[0] == '"' && ParseFields(body + ("}" + rest)) == Some((fields, rest))
    ensures ParseValue("{" + (body + ("}" + rest))) == Some((JObject(fields), rest))
  {
    var s := "{" + (body + ("}" + rest));
    assert s[0] == '{' && s[1..] == body + ("}" + rest);
    assert SkipSpace(s) == s;
    if fields == [] {
      assert s[1..] == "}" + rest;
      assert SkipSpace(s[1..]) == s[1..] && s[1..][1..] == rest;
    } else {
      assert s[1..][0] == body[0] && SkipSpace(s[1..]) == s[1..];
    }
  }

  lemma RegroupWrapped(open: string, body: string, close: string, rest: string)
    ensures (open + body + close) + rest == open + (body + (close + rest))
  {
  }

  lemma RegroupList(first: string, others: string, close: string, rest: string)
    ensures (first + "," + others) + (close + rest) == first + ("," + (others + (close + rest)))
  {
  }

  lemma RegroupField(key: string, value: string, rest: string)
    ensures (key + ":" + value) + rest == key + (":" + (value + rest))
  {
  }

  /** Reading a printed value back, whatever follows it, gives its canonical form and leaves the rest. */
  lemma {:induction false} ParsePrinted(v: Value, rest: string)
    requires StableStringify(v).Ok? && EndsNumber(rest)
    ensures ParseValue(StableStringify(v).value + rest) == Some((Canonical(v), rest))
    decreases v, 1, 0
  {
    match v
    case JArray(items) =>
      var body := ItemsText(v, items).value;
      if items != [] {
        ParsePrintedItems(v, items, rest);
        ItemsTextStarts(v, items);
      }
      ParseBracketed(body, CanonicalItems(v, items), rest);
      RegroupWrapped("[", body, "]", rest);
    case JObject(members) =>
      SortedInside(members);
      var fields := Sorted(members);
      var body := FieldsText(v, fields).value;
      if fields != [] {
        ParsePrintedFields(v, fields, rest);
        FieldsTextStarts(v, fields);
      }
      ParseBraced(body, CanonicalFields(v, fields), rest);
      RegroupWrapped("{", body, "}", rest);
    case _ => ParsePrintedScalar(v, rest);
  }

  lemma ItemsTextStarts(parent: Value, items: seq<Value>)
    requires forall i :: 0 <= i < |items| ==> items[i] < parent
    requires items != [] && ItemsText(parent, items).Ok?
    ensures var text := ItemsText(parent, items).value; text != "" && StartsValue(text[0])
  {
    TextStarts(items[0]);
  }

  lemma FieldsTextStarts(parent: Value, fields: seq<Field>)
    requires forall i :: 0 <= i < |fields| ==> fields[i].value < parent
    requires fields != [] && FieldsText(parent, fields).Ok?
    ensures var text := FieldsText(parent, fields).value; text != "" && text[0] == '"'
  {
  }

  lemma {:induction false} ParsePrintedItems(parent: Value, items: seq<Value>, rest: string)
    requires forall i :: 0 <= i < |items| ==> items[i] < parent
    requires items != [] && ItemsText(parent, items).Ok?
    ensures ParseItems(ItemsText(parent, items).value + ("]" + rest)) == Some((CanonicalItems(parent, items), rest))
    decreases parent, 0, |items|
  {
    var first := StableStringify(items[0]).value;
    if |items| == 1 {
      ParsePrinted(items[0], "]" + rest);
      LastItem(first + ("]" + rest), Canonical(items[0]), rest);
      assert CanonicalItems(parent, items) == [Canonical(items[0])];
    } else {
      var others := ItemsText(parent, items[1..]).value;
      var tail := others + ("]" + rest);
      ParsePrinted(items[0], "," + tail);
      ParsePrintedItems(parent, items[1..], rest);
      NextItem(first + ("," + tail), Canonical(items[0]), tail, CanonicalItems(parent, items[1..]), rest);
      RegroupList(first, others, "]", rest);
    }
  }

  lemma LastItem(s: string, v: Value, rest: string)
    requires ParseValue(s) == Some((v, "]" + rest))
    ensures ParseItems(s) == Some(([v], rest))
  {
    assert ("]" + rest)[1..] == rest;
    assert SkipSpace("]" + rest) == "]" + rest;
  }

  lemma NextItem(s: string, v: Value, tail: string, others: seq<Value>, rest: string)
    requires ParseValue(s) == Some((v, "," + tail)) && ParseItems(tail) == Some((others, rest))
    ensures ParseItems(s) == Some(([v] + others, rest))
  {
    assert ("," + tail)[1..] == tail;
    assert SkipSpace("," + tail) == "," + tail;
  }

  lemma {:induction false} ParsePrintedFields(parent: Value, fields: seq<Field>, rest: string)
    requires forall i :: 0 <= i < |fields| ==> fields[i].value < parent
    requires fields != [] && FieldsText(parent, fields).Ok?
    ensures ParseFields(FieldsText(parent, fields).value + ("}" + rest))
        == Some((CanonicalFields(parent, fields), rest))
    decreases parent, 0, |fields|
  {
    var key, value := fields[0].key, StableStringify(fields[0].value).value;
    var canonical := Canonical(fields[0].value);
    var first := Quote(key) + ":" + value;
    if |fields| == 1 {
      ParsePrinted(fields[0].value, "}" + rest);
      LastField(key, value, canonical, rest);
      RegroupField(Quote(key), value, "}" + rest);
      assert CanonicalFields(parent, fields) == [Member(key, canonical)];
    } else {
      var others := FieldsText(parent, fields[1..]).value;
      var tail := others + ("}" + rest);
      ParsePrinted(fields[0].value, "," + tail);
      ParsePrintedFields(parent, fields[1..], rest);
      NextField(key, value, canonical, tail, CanonicalFields(parent, fields[1..]), rest);
      RegroupField(Quote(key), value, "," + tail);
      RegroupList(first, others, "}", rest);
    }
  }

  lemma LastField(key: string, text: string, v: Value, rest: string)
    requires ParseValue(text + ("}" + rest)) == Some((v, "}" + rest))
    ensures ParseFields(Quote(key) + (":" + (text + ("}" + rest)))) == Some(([Member(key, v)], rest))
  {
    FieldHead(key, text + ("}" + rest));
    assert ("}" + rest)[1..] == rest;
    assert SkipSpace("}" + rest) == "}" + rest;
  }

  lemma NextField(key: string, text: string, v: Value, tail: string, others: seq<Field>, rest: string)
    requires ParseValue(text + ("," + tail)) == Some((v, "," + tail)) && ParseFields(tail) == Some((others, rest))
    ensures ParseFields(Quote(key) + (":" + (text + ("," + tail)))) == Some(([Member(key, v)] + others, rest))
  {
    FieldHead(key, text + ("," + tail));
    assert ("," + tail)[1..] == tail;
    assert SkipSpace("," + tail) == "," + tail;
  }

  lemma FieldHead(key: string, after: string)
    ensures var s := Quote(key) + (":" + after); var colon := ":" + after;
            && SkipSpace(s) == s && s[0] == '"' && ParseChars(s[1..]) == Some((key, colon))
            && SkipSpace(colon) == colon && colon[0] == ':' && colon[1..] == after
  {
    ParseQuoted(key, ":" + after);
  }

  /** Parsing the canonical text recovers the value, members in key order. */
  lemma ParseOfStringify(v: Value)
    requires StableStringify(v).Ok?
    ensures ParseText(StableStringify(v).value) == Some(Canonical(v))
  {
    var text := StableStringify(v).value;
    ParsePrinted(v, "");
    assert text + "" == text;
  }

  // ----- Equality up to member order -----

  /** Every part prints: no undefined value, no non-finite number. */
  ghost predicate Serializable(v: Value) {
    match v
    case JUndefined => false
    case JNumber(text) => IsNumberText(text)
    case JArray(items) => forall i :: 0 <= i < |items| ==> Serializable(items[i])
    case JObject(members) => forall m :: m in members ==> Serializable(m.value)
    case _ => true
  }

  ghost predicate StrictlySorted(fields: seq<Field>) {
    forall i, j :: 0 <= i < j < |fields| ==> Before(fields[i].key, fields[j].key)
  }

  lemma {:induction false} InsertKeepsOrder(field: Field, sorted: seq<Field>)
    requires StrictlySorted(sorted) && forall f :: f in sorted ==> f.key != field.key
    ensures StrictlySorted(Insert(field, sorted))
  {
    if sorted != [] {
      BeforeTotal(sorted[0].key, field.key);
      if Before(sorted[0].key, field.key) {
        InsertKeepsOrder(field, sorted[1..]);
        var rest := Insert(field, sorted[1..]);
        forall j | 0 <= j < |rest| ensures Before(sorted[0].key, rest[j].key) {
          assert rest[j] in rest;
          if rest[j] != field {
            var k :| 0 <= k < |sorted[1..]| && sorted[1..][k] == rest[j];
          }
        }
      } else {
        forall j | 0 <= j < |sorted| ensures Before(field.key, sorted[j].key) {
          if j > 0 {
            BeforeTransitive(field.key, sorted[0].key, sorted[j].key);
          }
        }
      }
    }
  }

  lemma {:induction false} SortedIsStrict(members: seq<Field>)
    requires DistinctKeys(members)
    ensures StrictlySorted(Sorted(members))
  {
    if members != [] {
      SortedIsStrict(members[1..]);
      forall f | f in Sorted(members[1..]) ensures f.key != members[0].key {
        var k :| 0 <= k < |members[1..]| && members[1..][k] == f;
      }
      InsertKeepsOrder(members[0], Sorted(members[1..]));
    }
  }

  ghost predicate SortedStrings(keys: seq<string>) {
    forall i, j :: 0 <= i < j < |keys| ==> Before(keys[i], keys[j])
  }

  /** A strictly sorted sequence is determined by its elements. */
  lemma {:induction false} SortedStringsUnique(a: seq<string>, b: seq<string>)
    requires SortedStrings(a) && SortedStrings(b) && forall k :: k in a <==> k in b
    ensures a == b
  {
    assert a != [] ==> a[0] in a;
    assert b != [] ==> b[0] in b;
    if a != [] && b != [] {
      FirstIsLeast(a, b);
      forall k ensures k in a[1..] <==> k in b[1..] {
        TailMembers(a, k);
        TailMembers(b, k);
      }
      SortedStringsUnique(a[1..], b[1..]);
      assert a == [a[0]] + a[1..] && b == [b[0]] + b[1..];
    }
  }

  lemma FirstIsLeast(a: seq<string>, b: seq<string>)
    requires SortedStrings(a) && SortedStrings(b) && (forall k :: k in a <==> k in b) && a != [] && b != []
    ensures a[0] == b[0]
  {
    assert a[0] in a && b[0] in b;
    var i :| 0 <= i < |b| && b[i] == a[0];
    var j :| 0 <= j < |a| && a[j] == b[0];
    BeforeTotal(a[0], b[0]);
  }

  lemma TailMembers(a: seq<string>, k: string)
    requires SortedStrings(a) && a != []
    ensures k in a[1..] <==> k in a && k != a[0]
  {
    if k in a[1..] {
      var i :| 0 <= i < |a[1..]| && a[1..][i] == k;
      BeforeTotal(a[0], k);
      assert Before(a[0], a[i + 1]);
    }
  }

  lemma SameKeysSameOrder(ms: seq<Field>, ns: seq<Field>)
    requires DistinctKeys(ms) && DistinctKeys(ns)
    requires forall k :: k in Keys(ms) <==> k in Keys(ns)
    ensures Keys(Sorted(ms)) == Keys(Sorted(ns))
  {
    SortedIsStrict(ms);
    SortedIsStrict(ns);
    forall k ensures k in Keys(Sorted(ms)) <==> k in Keys(Sorted(ns)) {
      SortedKeys(ms, k);
      SortedKeys(ns, k);
    }
    SortedStringsUnique(Keys(Sorted(ms)), Keys(Sorted(ns)));
  }

  lemma SortedKeys(ms: seq<Field>, k: string)
    ensures k in Keys(Sorted(ms)) <==> k in Keys(ms)
  {
    KeyOwner(ms, k);
    KeyOwner(Sorted(ms), k);
  }

  lemma SortedMember(members: seq<Field>, m: Field) returns (i: nat)
    requires m in members
    ensures i < |members| && Sorted(members)[i] == m
  {
    assert m in Sorted(members);
    i :| 0 <= i < |members| && Sorted(members)[i] == m;
  }

  lemma MemberInside(members: seq<Field>, m: Field)
    requires m in members
    ensures m.value < JObject(members)
  {
  }

  lemma WellFormedMember(members: seq<Field>, m: Field)
    requires WellFormed(JObject(members)) && m in members
    ensures WellFormed(m.value)
  {
    var i :| 0 <= i < |members| && members[i] == m;
  }

  /** Values are equal up to member order exactly when their canonical forms are the same. */
  lemma {:induction false} CanonicalIffEquivalent(a: Value, b: Value)
    requires WellFormed(a) && WellFormed(b)
    ensures Canonical(a) == Canonical(b) <==> Equivalent(a, b)
    decreases a
  {
    match (a, b)
    case (JArray(xs), JArray(ys)) =>
      if |xs| == |ys| {
        forall i | 0 <= i < |xs| ensures Canonical(xs[i]) == Canonical(ys[i]) <==> Equivalent(xs[i], ys[i]) {
          CanonicalIffEquivalent(xs[i], ys[i]);
        }
        if Equivalent(a, b) {
          assert CanonicalItems(a, xs) == CanonicalItems(b, ys);
        }
        if Canonical(a) == Canonical(b) {
          assert forall i :: 0 <= i < |xs| ==> CanonicalItems(a, xs)[i] == CanonicalItems(b, ys)[i];
        }
      }
    case (JObject(ms), JObject(ns)) =>
      forall m, n | m in ms && n in ns
        ensures Canonical(m.value) == Canonical(n.value) <==> Equivalent(m.value, n.value) {
        MemberInside(ms, m);
        WellFormedMember(ms, m);
        WellFormedMember(ns, n);
        CanonicalIffEquivalent(m.value, n.value);
      }
      if Canonical(a) == Canonical(b) {
        EqualFormsAreEquivalent(ms, ns);
      }
      if Equivalent(a, b) {
        EquivalentHaveEqualForms(ms, ns);
      }
    case _ =>
  }

  lemma EqualFormsAreEquivalent(ms: seq<Field>, ns: seq<Field>)
    requires Canonical(JObject(ms)) == Canonical(JObject(ns))
    requires forall m, n :: m in ms && n in ns ==>
        (Canonical(m.value) == Canonical(n.value) <==> Equivalent(m.value, n.value))
    ensures Equivalent(JObject(ms), JObject(ns))
  {
    SortedInside(ms);
    SortedInside(ns);
    var cs, ds := CanonicalFields(JObject(ms), Sorted(ms)), CanonicalFields(JObject(ns), Sorted(ns));
    assert cs == ds;
    forall m | m in ms ensures exists n :: n in ns && n.key == m.key && Equivalent(m.value, n.value) {
      var i := SortedMember(ms, m);
      assert cs[i] == ds[i];
      var n := Sorted(ns)[i];
      assert n in Sorted(ns);
      assert n in ns && n.key == m.key && Canonical(m.value) == Canonical(n.value);
    }
  }

  lemma EquivalentHaveEqualForms(ms: seq<Field>, ns: seq<Field>)
    requires DistinctKeys(ms) && DistinctKeys(ns) && Equivalent(JObject(ms), JObject(ns))
    requires forall m, n :: m in ms && n in ns ==>
        (Canonical(m.value) == Canonical(n.value) <==> Equivalent(m.value, n.value))
    ensures Canonical(JObject(ms)) == Canonical(JObject(ns))
  {
    PartnersShareKeys(ms, ns);
    SameKeysSameOrder(ms, ns);
    SortedInside(ms);
    SortedInside(ns);
    var cs, ds := CanonicalFields(JObject(ms), Sorted(ms)), CanonicalFields(JObject(ns), Sorted(ns));
    forall i | 0 <= i < |ms| ensures cs[i] == ds[i] {
      var m, n := Sorted(ms)[i], Sorted(ns)[i];
      assert m in Sorted(ms) && n in Sorted(ns);
      assert Keys(Sorted(ms))[i] == Keys(Sorted(ns))[i];
      var partner :| partner in ns && partner.key == m.key && Equivalent(m.value, partner.value);
      MemberByKey(ns, partner, n);
    }
    assert cs == ds;
  }

  /** The text depends on the canonical form alone. */
  lemma {:induction false} TextOfCanonicalForm(a: Value, b: Value)
    requires Canonical(a) == Canonical(b)
    ensures StableStringify(a) == StableStringify(b)
    decreases a, 1, 0
  {
    match (a, b)
    case (JArray(xs), JArray(ys)) =>
      assert |xs| == |CanonicalItems(a, xs)| == |ys|;
      forall i | 0 <= i < |xs| ensures Canonical(xs[i]) == Canonical(ys[i]) {
        assert CanonicalItems(a, xs)[i] == CanonicalItems(b, ys)[i];
      }
      ItemsTextOfForm(a, xs, b, ys);
    case (JObject(ms), JObject(ns)) =>
      SortedInside(ms);
      SortedInside(ns);
      var xs, ys := Sorted(ms), Sorted(ns);
      assert |xs| == |CanonicalFields(a, xs)| == |ys|;
      forall i | 0 <= i < |xs| ensures xs[i].key == ys[i].key && Canonical(xs[i].value) == Canonical(ys[i].value) {
        assert CanonicalFields(a, xs)[i] == CanonicalFields(b, ys)[i];
      }
      FieldsTextOfForm(a, xs, b, ys);
    case _ =>
  }

  lemma {:induction false} ItemsTextOfForm(a: Value, xs: seq<Value>, b: Value, ys: seq<Value>)
    requires forall i :: 0 <= i < |xs| ==> xs[i] < a
    requires forall i :: 0 <= i < |ys| ==> ys[i] < b
    requires |xs| == |ys| && forall i :: 0 <= i < |xs| ==> Canonical(xs[i]) == Canonical(ys[i])
    ensures ItemsText(a, xs) == ItemsText(b, ys)
    decreases a, 0, |xs|
  {
    if xs != [] {
      TextOfCanonicalForm(xs[0], ys[0]);
      ItemsTextOfForm(a, xs[1..], b, ys[1..]);
    }
  }

  lemma {:induction false} FieldsTextOfForm(a: Value, xs: seq<Field>, b: Value, ys: seq<Field>)
    requires forall i :: 0 <= i < |xs| ==> xs[i].value < a
    requires forall i :: 0 <= i < |ys| ==> ys[i].value < b
    requires |xs| == |ys| && forall i :: 0 <= i < |xs| ==>
        xs[i].key == ys[i].key && Canonical(xs[i].value) == Canonical(ys[i].value)
    ensures FieldsText(a, xs) == FieldsText(b, ys)
    decreases a, 0, |xs|
  {
    if xs != [] {
      TextOfCanonicalForm(xs[0].value, ys[0].value);
      FieldsTextOfForm(a, xs[1..], b, ys[1..]);
    }
  }

  /** Canonical printing: two printable values give the same text exactly when they are equal up to member order. */
  lemma SameTextIffEquivalent(a: Value, b: Value)
    requires WellFormed(a) && WellFormed(b) && StableStringify(a).Ok? && StableStringify(b).Ok?
    ensures StableStringify(a) == StableStringify(b) <==> Equivalent(a, b)
  {
    CanonicalIffEquivalent(a, b);
    if StableStringify(a) == StableStringify(b) {
      ParseOfStringify(a);
      ParseOfStringify(b);
    }
    if Equivalent(a, b) {
      TextOfCanonicalForm(a, b);
    }
  }

  /** What the parser returns is the printed value itself, up to member order. */
  lemma ParsedIsEquivalent(v: Value)
    requires WellFormed(v) && StableStringify(v).Ok?
    ensures var parsed := ParseText(StableStringify(v).value);
            parsed.Some? && WellFormed(parsed.value) && Equivalent(parsed.value, v)
  {
    ParseOfStringify(v);
    CanonicalWellFormed(v);
    CanonicalIdempotent(v);
    CanonicalIffEquivalent(Canonical(v), v);
  }

  lemma {:induction false} CanonicalWellFormed(v: Value)
    requires WellFormed(v)
    ensures WellFormed(Canonical(v))
  {
    match v
    case JArray(items) =>
      forall i | 0 <= i < |items| ensures WellFormed(CanonicalItems(v, items)[i]) {
        CanonicalWellFormed(items[i]);
      }
    case JObject(members) =>
      SortedInside(members);
      var sorted := Sorted(members);
      var fields := CanonicalFields(v, sorted);
      SortedIsStrict(members);
      assert StrictlySorted(fields);
      StrictlySortedDistinct(fields);
      forall i | 0 <= i < |fields| ensures WellFormed(fields[i].value) {
        assert sorted[i] in sorted;
        WellFormedMember(members, sorted[i]);
        CanonicalWellFormed(sorted[i].value);
      }
    case _ =>
  }

  lemma StrictlySortedDistinct(fields: seq<Field>)
    requires StrictlySorted(fields)
    ensures DistinctKeys(fields)
  {
    forall i, j | 0 <= i < j < |fields| ensures fields[i].key != fields[j].key {
      BeforeTotal(fields[i].key, fields[j].key);
    }
  }

  lemma {:induction false} InsertInOrder(field: Field, sorted: seq<Field>)
    requires forall i :: 0 <= i < |sorted| ==> Before(field.key, sorted[i].key)
    ensures Insert(field, sorted) == [field] + sorted
  {
    if sorted != [] {
      BeforeTotal(field.key, sorted[0].key);
    }
  }

  lemma {:induction false} SortedFixed(fields: seq<Field>)
    requires StrictlySorted(fields)
    ensures Sorted(fields) == fields
  {
    if fields != [] {
      SortedFixed(fields[1..]);
      InsertInOrder(fields[0], fields[1..]);
      assert fields == [fields[0]] + fields[1..];
    }
  }

  lemma {:induction false} CanonicalIdempotent(v: Value)
    requires WellFormed(v)
    ensures Canonical(Canonical(v)) == Canonical(v)
  {
    match v
    case JArray(items) =>
      var once := CanonicalItems(v, items);
      forall i | 0 <= i < |items| ensures Canonical(once[i]) == once[i] {
        CanonicalIdempotent(items[i]);
      }
      assert CanonicalItems(JArray(once), once) == once;
    case JObject(members) =>
      SortedInside(members);
      var sorted := Sorted(members);
      var once := CanonicalFields(v, sorted);
      SortedIsStrict(members);
      assert StrictlySorted(once);
      SortedFixed(once);
      SortedInside(once);
      forall i | 0 <= i < |once| ensures Member(once[i].key, Canonical(once[i].value)) == once[i] {
        assert sorted[i] in sorted;
        WellFormedMember(members, sorted[i]);
        CanonicalIdempotent(sorted[i].value);
      }
      assert CanonicalFields(JObject(once), once) == once;
    case _ =>
  }

  // ----- Which values print -----

  lemma {:induction false} PrintsIffSerializable(v: Value)
    ensures StableStringify(v).Ok? <==> Serializable(v)
    decreases v, 1, 0
  {
    match v
    case JArray(items) => ItemsPrint(v, items);
    case JObject(members) =>
      SortedInside(members);
      FieldsPrint(v, Sorted(members));
      if Serializable(v) {
        assert forall i :: 0 <= i < |members| ==> Sorted(members)[i] in Sorted(members);
      }
      if forall i :: 0 <= i < |members| ==> Serializable(Sorted(members)[i].value) {
        forall m | m in members ensures Serializable(m.value) {
          var i := SortedMember(members, m);
        }
      }
    case _ =>
  }

  lemma {:induction false} ItemsPrint(parent: Value, items: seq<Value>)
    requires forall i :: 0 <= i < |items| ==> items[i] < parent
    ensures ItemsText(parent, items).Ok? <==> forall i :: 0 <= i < |items| ==> Serializable(items[i])
    decreases parent, 0, |items|
  {
    if items != [] {
      PrintsIffSerializable(items[0]);
      ItemsPrint(parent, items[1..]);
      assert (forall i :: 0 <= i < |items[1..]| ==> Serializable(items[1..][i])) <==>
          forall i :: 1 <= i < |items| ==> Serializable(items[i]) by {
        assert forall i :: 1 <= i < |items| ==> items[i] == items[1..][i - 1];
      }
    }
  }

  lemma {:induction false} FieldsPrint(parent: Value, fields: seq<Field>)
    requires forall i :: 0 <= i < |fields| ==> fields[i].value < parent
    ensures FieldsText(parent, fields).Ok? <==> forall i :: 0 <= i < |fields| ==> Serializable(fields[i].value)
    decreases parent, 0, |fields|
  {
    if fields != [] {
      PrintsIffSerializable(fields[0].value);
      FieldsPrint(parent, fields[1..]);
      assert (forall i :: 0 <= i < |fields[1..]| ==> Serializable(fields[1..][i].value)) <==>
          forall i :: 1 <= i < |fields| ==> Serializable(fields[i].value) by {
        assert forall i :: 1 <= i < |fields| ==> fields[i] == fields[1..][i - 1];
      }
    }
  }

  // ----- Bounded input (gh-makami.ts, serializeInput) -----

  datatype InputError = InvalidRequest(cause: SerializeError) | InputLimit(limitBytes: nat)

  function SerializeInput(value: Option<Value>, maxBytes: nat): Result<Option<string>, InputError> {
    match value
    case None => Ok(None)
    case Some(v) =>
      match StableStringify(v)
      case Err(e) => Err(InvalidRequest(e))
      case Ok(text) => if ByteLength(text) > maxBytes then Err(InputLimit(maxBytes)) else Ok(Some(text))
  }

  /**
   * What is sent: nothing for no value, and a value exactly when every part of it prints and its text fits. What reads
   * back from that text is the value up to member order.
   */
  lemma InputMeans(v: Value, maxBytes: nat)
    requires WellFormed(v)
    ensures SerializeInput(None, maxBytes) == Ok(None)
    ensures var r := SerializeInput(Some(v), maxBytes);
            && (r.Err? && r.error.InvalidRequest? <==> !Serializable(v))
            && (r == Err(InputLimit(maxBytes)) <==>
                 Serializable(v) && ByteLength(StableStringify(v).value) > maxBytes)
            && (r.Ok? <==> Serializable(v) && ByteLength(StableStringify(v).value) <= maxBytes)
            && (r.Ok? ==> r.value.Some? && ByteLength(r.value.value) <= maxBytes)
            && (r.Ok? ==> ParseText(r.value.value).Some? && Equivalent(ParseText(r.value.value).value, v))
  {
    PrintsIffSerializable(v);
    if Serializable(v) {
      ParsedIsEquivalent(v);
    }
  }

  /** A character is escaped only where JSON asks for it, in the shortest of its forms but for the solidus. */
  lemma EscapeMeans(c: char)
    ensures Escape(c) == [c] <==> c as int >= 0x20 && c != '"' && c != '\\'
    ensures |Escape(c)| == 2 <==> c == '"' || c == '\\' || c as int in {8, 9, 10, 12, 13}
    ensures |Escape(c)| in {1, 2, 6}
  {
  }

  /** Reordering members never changes what is sent or why it is refused. */
  lemma InputIgnoresMemberOrder(a: Value, b: Value, maxBytes: nat)
    requires WellFormed(a) && WellFormed(b) && Equivalent(a, b)
    ensures SerializeInput(Some(a), maxBytes) == SerializeInput(Some(b), maxBytes)
  {
    CanonicalIffEquivalent(a, b);
    TextOfCanonicalForm(a, b);
  }
}
