/** A parser for JSON texts, sections 2 to 7 of RFC 8259. */
module JsonParser {
  import opened Wrappers
  import opened Utf8
  import opened Json

  /** Numbers are carried as their text; a non-finite number has none. */
  type Value = Json<string>
  type Field = Member<string>

  // ----- Number texts (section 6 of RFC 8259) -----

  predicate Digit(c: char) { '0' <= c <= '9' }

  function SkipDigits(s: string): (rest: string)
    ensures |rest| <= |s|
  {
    if s != "" && Digit(s[0]) then SkipDigits(s[1..]) else s
  }

  /** Exponent part or nothing. */
  predicate ExponentOrEnd(s: string) {
    s == "" ||
    (|s| >= 2 && (s[0] == 'e' || s[0] == 'E') &&
     var digits := if s[1] == '+' || s[1] == '-' then s[2..] else s[1..];
     digits != "" && SkipDigits(digits) == "")
  }

  predicate FractionOrEnd(s: string) {
    if s != "" && s[0] == '.' then |s| >= 2 && Digit(s[1]) && ExponentOrEnd(SkipDigits(s[1..])) else ExponentOrEnd(s)
  }

  predicate IsNumberText(s: string) {
    var unsigned := if s != "" && s[0] == '-' then s[1..] else s;
    unsigned != "" && Digit(unsigned[0]) &&
    FractionOrEnd(if unsigned[0] == '0' then unsigned[1..] else SkipDigits(unsigned))
  }

  predicate NumberChar(c: char) {
    Digit(c) || c == '-' || c == '+' || c == '.' || c == 'e' || c == 'E'
  }

  /** The longest front of s made of characters a number may contain. */
  function NumberRun(s: string): (run: string)
    ensures |run| <= |s|
  {
    if s != "" && NumberChar(s[0]) then [s[0]] + NumberRun(s[1..]) else ""
  }

  // ----- Strings (section 7) -----

  function HexValue(c: char): Option<nat> {
    if '0' <= c <= '9' then Some(c as int - '0' as int)
    else if 'a' <= c <= 'f' then Some(c as int - 'a' as int + 10)
    else if 'A' <= c <= 'F' then Some(c as int - 'A' as int + 10)
    else None
  }

  function HexNumber(s: string): Option<nat> {
    if s == "" then Some(0)
    else
      match (HexNumber(s[..|s| - 1]), HexValue(s[|s| - 1]))
      case (Some(high), Some(low)) => Some(high * 16 + low)
      case _ => None
  }

  function ShortEscape(c: char): Option<char> {
    match c
    case '"' => Some('"')
    case '\\' => Some('\\')
    case '/' => Some('/')
    case 'b' => Some(8 as char)
    case 'f' => Some(12 as char)
    case 'n' => Some(10 as char)
    case 'r' => Some(13 as char)
    case 't' => Some(9 as char)
    case _ => None
  }

  /** One character of a string body and the number of characters it was written with. */
  function ParseChar(s: string): (r: Option<(char, nat)>)
    ensures r.Some? ==> 1 <= r.value.1 <= |s|
  {
    if s == "" || s[0] as int < 0x20 || s[0] == '"' then None
    else if s[0] != '\\' then Some((s[0], 1))
    else if |s| >= 6 && s[1] == 'u' then
      (match HexNumber(s[2..6])
       case None => None
       case Some(n) =>
         if IsScalar(n) then Some((n as char, 6))
         else if 0xD800 <= n < 0xDC00 && |s| >= 12 && s[6] == '\\' && s[7] == 'u' then
           (match HexNumber(s[8..12])
            case None => None
            case Some(low) =>
              if 0xDC00 <= low < 0xE000 then Some(((0x1_0000 + (n - 0xD800) * 0x400 + (low - 0xDC00)) as char, 12))
              else None)
         else None)
    else if |s| >= 2 then
      (match ShortEscape(s[1])
       case None => None
       case Some(c) => Some((c, 2)))
    else None
  }

  /** The rest of a string after its opening quote. */
  function ParseChars(s: string): (r: Option<(string, string)>)
    ensures r.Some? ==> |r.value.1| < |s|
  {
    if s != "" && s[0] == '"' then Some(("", s[1..]))
    else
      match ParseChar(s)
      case None => None
      case Some((c, n)) =>
        match ParseChars(s[n..])
        case None => None
        case Some((text, rest)) => Some(([c] + text, rest))
  }

  // ----- Values (sections 2 to 6) -----

  function SkipSpace(s: string): (rest: string)
    ensures |rest| <= |s|
  {
    if s != "" && (s[0] == ' ' || s[0] == '\t' || s[0] == '\n' || s[0] == '\r') then SkipSpace(s[1..]) else s
  }

  function ParseValue(s: string): (r: Option<(Value, string)>)
    ensures r.Some? ==> |r.value.1| < |s|
    decreases |s|, 0
  {
    var t := SkipSpace(s);
    if t == "" then None
    else if "null" <= t then Some((JNull, t[4..]))
    else if "true" <= t then Some((JBool(true), t[4..]))
    else if "false" <= t then Some((JBool(false), t[5..]))
    else if t[0] == '"' then
      (match ParseChars(t[1..])
       case None => None
       case Some((text, rest)) => Some((JString(text), rest)))
    else if t[0] == '[' then
      var u := SkipSpace(t[1..]);
      if u != "" && u[0] == ']' then Some((JArray([]), u[1..]))
      else
        (match ParseItems(t[1..])
         case None => None
         case Some((items, rest)) => Some((JArray(items), rest)))
    else if t[0] == '{' then
      var u := SkipSpace(t[1..]);
      if u != "" && u[0] == '}' then Some((JObject([]), u[1..]))
      else
        (match ParseFields(t[1..])
         case None => None
         case Some((fields, rest)) => Some((JObject(fields), rest)))
    else
      var text := NumberRun(t);
      if IsNumberText(text) then Some((JNumber(text), t[|text|..])) else None
  }

  function ParseItems(s: string): (r: Option<(seq<Value>, string)>)
    ensures r.Some? ==> |r.value.1| < |s|
    decreases |s|, 1
  {
    match ParseValue(s)
    case None => None
    case Some((first, rest)) =>
      var t := SkipSpace(rest);
      if t != "" && t[0] == ']' then Some(([first], t[1..]))
      else if t != "" && t[0] == ',' then
        (match ParseItems(t[1..])
         case None => None
         case Some((others, end)) => Some(([first] + others, end)))
      else None
  }

  function ParseFields(s: string): (r: Option<(seq<Field>, string)>)
    ensures r.Some? ==> |r.value.1| < |s|
    decreases |s|, 1
  {
    var t := SkipSpace(s);
    if t == "" || t[0] != '"' then None
    else
      match ParseChars(t[1..])
      case None => None
      case Some((key, afterKey)) =>
        var u := SkipSpace(afterKey);
        if u == "" || u[0] != ':' then None
        else
          match ParseValue(u[1..])
          case None => None
          case Some((value, rest)) =>
            var w := SkipSpace(rest);
            var first := Member(key, value);
            if w != "" && w[0] == '}' then Some(([first], w[1..]))
            else if w != "" && w[0] == ',' then
              (match ParseFields(w[1..])
               case None => None
               case Some((others, end)) => Some(([first] + others, end)))
            else None
  }

  /** A JSON text is one value and nothing but white space after it. */
  function ParseText(s: string): Option<Value> {
    match ParseValue(s)
    case None => None
    case Some((v, rest)) => if SkipSpace(rest) == "" then Some(v) else None
  }
}
