/**
 * Fitting one artifact into a byte limit: its serialized form, the additive formula the fast path uses for its size,
 * the binary searches over prefixes, and the order in which fields give way.
 */
module ArtifactFit {
  import opened Wrappers
  import opened Utf8
  import opened TextCutters
  import CanonicalJson

  // ----- Artifacts and their serialized form -----

  /** Diagnostics and identity are kept whole or dropped, so only their serialized text matters. */
  datatype Metadata = Metadata(
    operation: string,
    command: Option<string>,
    cwd: Option<string>,
    summary: Option<string>,
    diagnostics: Option<string>,
    identity: Option<string>)

  datatype Payload = Payload(text: string, stdout: Option<string>, stderr: Option<string>, metadata: Option<Metadata>)

  datatype StreamKey = Stdout | Stderr
  datatype MetadataKey = Operation | Command | Cwd | Summary

  const MIN_ARTIFACT_BYTES := 11

  function Quote(s: string): string {
    CanonicalJson.Quote(s)
  }

  function Pair(key: string, value: string): string {
    Quote(key) + (":" + value)
  }

  function Extra(key: string, value: Option<string>): string {
    if value.None? then "" else "," + Pair(key, value.value)
  }

  function Quoted(value: Option<string>): Option<string> {
    if value.None? then None else Some(Quote(value.value))
  }

  function MetadataText(m: Metadata): string {
    "{" + (Pair("operation", Quote(m.operation))
           + (Extra("command", Quoted(m.command)) + (Extra("cwd", Quoted(m.cwd)) + MetadataEnd(m))))
  }

  function MetadataEnd(m: Metadata): string {
    Extra("summary", Quoted(m.summary)) + (Extra("diagnostics", m.diagnostics) + (Extra("identity", m.identity) + "}"))
  }

  function MetadataValue(m: Option<Metadata>): Option<string> {
    if m.None? then None else Some(MetadataText(m.value))
  }

  function Serialize(p: Payload): string {
    "{" + (Pair("text", Quote(p.text))
    + (Extra("stdout", Quoted(p.stdout))
       + (Extra("stderr", Quoted(p.stderr)) + (Extra("metadata", MetadataValue(p.metadata)) + "}"))))
  }

  function PayloadBytes(p: Payload): nat {
    ByteLength(Serialize(p))
  }

  function JsonStringBytes(s: string): nat {
    ByteLength(Quote(s))
  }

  function With(p: Payload, key: StreamKey, value: Option<string>): Payload {
    match key
    case Stdout => p.(stdout := value)
    case Stderr => p.(stderr := value)
  }

  function Get(p: Payload, key: StreamKey): Option<string> {
    match key
    case Stdout => p.stdout
    case Stderr => p.stderr
  }

  function WithMetadata(m: Metadata, key: MetadataKey, value: string): Metadata {
    match key
    case Operation => m.(operation := value)
    case Command => m.(command := Some(value))
    case Cwd => m.(cwd := Some(value))
    case Summary => m.(summary := Some(value))
  }

  // ----- Sizes add up -----

  /** Bytes of an optional field with its comma and key. */
  function Cost(key: string, value: Option<string>): nat {
    if value.None? then 0 else 2 + JsonStringBytes(key) + ByteLength(value.value)
  }

  function MetadataCost(m: Metadata): nat {
    3 + JsonStringBytes("operation") + JsonStringBytes(m.operation)
    + Cost("command", Quoted(m.command)) + Cost("cwd", Quoted(m.cwd)) + Cost("summary", Quoted(m.summary))
    + Cost("diagnostics", m.diagnostics) + Cost("identity", m.identity)
  }

  function PayloadCost(p: Payload): nat {
    3 + JsonStringBytes("text") + JsonStringBytes(p.text)
    + Cost("stdout", Quoted(p.stdout)) + Cost("stderr", Quoted(p.stderr)) + Cost("metadata", MetadataValue(p.metadata))
  }

  lemma {:induction false} AsciiLength(s: string)
    requires forall i :: 0 <= i < |s| ==> s[i] as int < 0x80
    ensures ByteLength(s) == |s|
  {
    if s != "" {
      AsciiLength(s[1..]);
    }
  }

  lemma ExtraSize(key: string, value: Option<string>, rest: string)
    ensures ByteLength(Extra(key, value) + rest) == Cost(key, value) + ByteLength(rest)
  {
    EncodeConcat(Extra(key, value), rest);
    if value.Some? {
      EncodeConcat(",", Pair(key, value.value));
      PairSize(key, value.value);
      AsciiLength(",");
    }
  }

  lemma PairSize(key: string, value: string)
    ensures ByteLength(Pair(key, value)) == JsonStringBytes(key) + 1 + ByteLength(value)
  {
    EncodeConcat(Quote(key), ":" + value);
    EncodeConcat(":", value);
    AsciiLength(":");
  }

  lemma OpeningSize(key: string, value: string, rest: string)
    ensures ByteLength("{" + (Pair(key, value) + rest)) == 2 + JsonStringBytes(key) + ByteLength(value)
        + ByteLength(rest)
  {
    EncodeConcat("{", Pair(key, value) + rest);
    EncodeConcat(Pair(key, value), rest);
    PairSize(key, value);
    AsciiLength("{");
  }

  lemma MetadataEndSize(m: Metadata)
    ensures ByteLength(MetadataEnd(m)) == Cost("summary", Quoted(m.summary)) + Cost("diagnostics", m.diagnostics)
        + Cost("identity", m.identity) + 1
  {
    AsciiLength("}");
    var identity := Extra("identity", m.identity) + "}";
    ExtraSize("identity", m.identity, "}");
    ExtraSize("diagnostics", m.diagnostics, identity);
    ExtraSize("summary", Quoted(m.summary), Extra("diagnostics", m.diagnostics) + identity);
  }

  lemma MetadataSize(m: Metadata)
    ensures ByteLength(MetadataText(m)) == MetadataCost(m)
  {
    MetadataEndSize(m);
    var cwd := Extra("cwd", Quoted(m.cwd)) + MetadataEnd(m);
    ExtraSize("cwd", Quoted(m.cwd), MetadataEnd(m));
    ExtraSize("command", Quoted(m.command), cwd);
    OpeningSize("operation", Quote(m.operation), Extra("command", Quoted(m.command)) + cwd);
  }

  /** The size of a payload is the sum over its fields. */
  lemma PayloadSize(p: Payload)
    ensures PayloadBytes(p) == PayloadCost(p)
  {
    AsciiLength("}");
    var metadata := Extra("metadata", MetadataValue(p.metadata)) + "}";
    ExtraSize("metadata", MetadataValue(p.metadata), "}");
    var stderr := Extra("stderr", Quoted(p.stderr)) + metadata;
    ExtraSize("stderr", Quoted(p.stderr), metadata);
    ExtraSize("stdout", Quoted(p.stdout), stderr);
    OpeningSize("text", Quote(p.text), Extra("stdout", Quoted(p.stdout)) + stderr);
  }

  lemma EmptyString()
    ensures JsonStringBytes("") == 2
  {
    assert Quote("") == ['"', '"'];
    AsciiLength(['"', '"']);
  }

  /** The smallest payload, {"text":""}. */
  lemma SmallestPayload()
    ensures PayloadBytes(Payload("", None, None, None)) == MIN_ARTIFACT_BYTES
  {
    PayloadSize(Payload("", None, None, None));
    EmptyString();
    TextKeySize();
  }

  lemma TextKeySize()
    ensures JsonStringBytes("text") == 6
  {
    PlainQuote('t', "ext");
    PlainQuote('e', "xt");
    PlainQuote('x', "t");
    PlainQuote('t', "");
    assert CanonicalJson.EscapeAll("") == "";
    assert CanonicalJson.EscapeAll("text") == "text";
    AsciiLength(Quote("text"));
  }

  lemma PlainQuote(c: char, rest: string)
    requires 'a' <= c <= 'z'
    ensures CanonicalJson.EscapeAll([c] + rest) == [c] + CanonicalJson.EscapeAll(rest)
  {
    assert ([c] + rest)[1..] == rest;
  }

  /** Replacing a stream adds the bytes of the new string to a constant: the fast formula is exact. */
  lemma StreamFormula(p: Payload, key: StreamKey, value: string)
    ensures PayloadBytes(With(p, key, Some(value))) == PayloadBytes(With(p, key, Some(""))) - 2 + JsonStringBytes(value)
  {
    PayloadSize(With(p, key, Some(value)));
    PayloadSize(With(p, key, Some("")));
    EmptyString();
  }

  lemma MetadataFormula(p: Payload, m: Metadata, key: MetadataKey, value: string)
    ensures PayloadBytes(p.(metadata := Some(WithMetadata(m, key, value)))) ==
              PayloadBytes(p.(metadata := Some(WithMetadata(m, key, "")))) - 2 + JsonStringBytes(value)
  {
    PayloadSize(p.(metadata := Some(WithMetadata(m, key, value))));
    PayloadSize(p.(metadata := Some(WithMetadata(m, key, ""))));
    MetadataSize(WithMetadata(m, key, value));
    MetadataSize(WithMetadata(m, key, ""));
    EmptyString();
  }

  lemma TextFormula(p: Payload, value: string)
    ensures PayloadBytes(p.(text := value)) == PayloadBytes(p.(text := "")) - 2 + JsonStringBytes(value)
  {
    PayloadSize(p.(text := value));
    PayloadSize(p.(text := ""));
    EmptyString();
  }

  // ----- Longer prefixes are no smaller -----

  lemma {:induction false} EscapeConcat(a: string, b: string)
    ensures CanonicalJson.EscapeAll(a + b) == CanonicalJson.EscapeAll(a) + CanonicalJson.EscapeAll(b)
  {
    if a == "" {
      assert a + b == b;
    } else {
      assert (a + b)[1..] == a[1..] + b;
      EscapeConcat(a[1..], b);
    }
  }

  lemma QuoteSize(s: string)
    ensures JsonStringBytes(s) == 2 + ByteLength(CanonicalJson.EscapeAll(s))
  {
    EncodeConcat(['"'], CanonicalJson.EscapeAll(s));
    EncodeConcat(['"'] + CanonicalJson.EscapeAll(s), ['"']);
    AsciiLength(['"']);
  }

  lemma JoinedStringBytes(a: string, b: string)
    ensures JsonStringBytes(a + b) == JsonStringBytes(a) + JsonStringBytes(b) - 2
  {
    QuoteSize(a);
    QuoteSize(b);
    QuoteSize(a + b);
    EscapeConcat(a, b);
    EncodeConcat(CanonicalJson.EscapeAll(a), CanonicalJson.EscapeAll(b));
  }

  lemma PrefixBytes(s: string, j: nat, k: nat)
    requires j <= k <= |s|
    ensures JsonStringBytes(s[..j]) <= JsonStringBytes(s[..k])
  {
    assert s[..k] == s[..j] + s[j..k];
    JoinedStringBytes(s[..j], s[j..k]);
    QuoteSize(s[j..k]);
  }

  // ----- The binary search -----

  ghost predicate Monotone(value: string, fits: string -> bool) {
    forall j, k :: 0 <= j <= k <= |value| && fits(value[..k]) ==> fits(value[..j])
  }

  /** The longest prefix that fits, or nothing when none does. */
  ghost predicate LongestFitting(value: string, fits: string -> bool, r: Option<string>) {
    match r
    case None => forall j :: 0 <= j <= |value| ==> !fits(value[..j])
    case Some(t) => t <= value && fits(t) && forall j :: |t| < j <= |value| ==> !fits(value[..j])
  }

  /** One byte more of allowance is at most one character more. */
  lemma NextPrefix(value: string, n: nat)
    ensures |LongestPrefix(value, n)| <= |LongestPrefix(value, n + 1)| <= |LongestPrefix(value, n)| + 1
    ensures LongestPrefix(value, n) <= value && LongestPrefix(value, n + 1) <= value
  {
    LongestPrefixIsLongest(value, n);
    LongestPrefixIsLongest(value, n + 1);
    var j, k := |LongestPrefix(value, n)|, |LongestPrefix(value, n + 1)|;
    if k > j + 1 {
      ByteLengthMonotone(value, j + 1, k);
    }
  }

  lemma WholePrefix(value: string, n: nat)
    requires n >= ByteLength(value)
    ensures LongestPrefix(value, n) == value
  {
    assert value[..|value|] == value;
    LongestPrefixFromNeighbour(value, |value|, n);
  }

  /** Both bounds of a finished search meet at the longest fitting prefix. */
  lemma SearchEnds(value: string, fits: string -> bool, high: nat)
    requires Monotone(value, fits) && fits(LongestPrefix(value, high)) && high <= ByteLength(value)
    requires high == ByteLength(value) || !fits(LongestPrefix(value, high + 1))
    ensures LongestFitting(value, fits, Some(LongestPrefix(value, high)))
  {
    NextPrefix(value, high);
    var k := |LongestPrefix(value, high)|;
    if high == ByteLength(value) {
      WholePrefix(value, high);
    } else {
      var next := |LongestPrefix(value, high + 1)|;
      assert LongestPrefix(value, high) == value[..k] && LongestPrefix(value, high + 1) == value[..next];
    }
  }

  lemma NothingFits(value: string, fits: string -> bool)
    requires Monotone(value, fits) && !fits(LongestPrefix(value, 0))
    ensures LongestFitting(value, fits, None)
  {
    LongestPrefixOfNothing(value, 0);
    assert value[..0] == "";
  }

  method FitUtf8Prefix(value: string, fits: string -> bool) returns (best: Option<string>)
    ensures best.Some? ==> best.value <= value && fits(best.value)
    ensures Monotone(value, fits) ==> LongestFitting(value, fits, best)
  {
    var low, high := 0, |Encode(value)|;
    EncodeLength(value);
    best := None;
    while low <= high
      invariant 0 <= low <= high + 1 <= |Encode(value)| + 1
      invariant if best.None? then low == 0
                else low > 0 && best.value == LongestPrefix(value, low - 1) && fits(best.value)
      invariant high < |Encode(value)| ==> !fits(LongestPrefix(value, high + 1))
      decreases high - low
    {
      var middle := (low + high) / 2;
      var candidate := Utf8Prefix(value, middle);
      if fits(candidate) {
        best := Some(candidate);
        low := middle + 1;
      } else {
        high := middle - 1;
      }
    }
    if best.Some? {
      LongestPrefixIsLongest(value, high);
    }
    if Monotone(value, fits) {
      if best.None? {
        NothingFits(value, fits);
      } else {
        SearchEnds(value, fits, high);
      }
    }
  }

  // ----- Fitting one field -----

  lemma StreamMonotone(p: Payload, key: StreamKey, value: string, maxBytes: nat)
    ensures Monotone(value, Streamed(p, key, maxBytes))
  {
    forall j, k | 0 <= j <= k <= |value|
      ensures PayloadBytes(With(p, key, Some(value[..j]))) <= PayloadBytes(With(p, key, Some(value[..k]))) {
      StreamFormula(p, key, value[..j]);
      StreamFormula(p, key, value[..k]);
      PrefixBytes(value, j, k);
    }
  }

  lemma MetadataMonotone(p: Payload, m: Metadata, key: MetadataKey, value: string, maxBytes: nat)
    ensures Monotone(value, Described(p, m, key, maxBytes))
  {
    forall j, k | 0 <= j <= k <= |value|
      ensures PayloadBytes(p.(metadata := Some(WithMetadata(m, key, value[..j]))))
              <= PayloadBytes(p.(metadata := Some(WithMetadata(m, key, value[..k]))))
    {
      MetadataFormula(p, m, key, value[..j]);
      MetadataFormula(p, m, key, value[..k]);
      PrefixBytes(value, j, k);
    }
  }

  lemma TextMonotone(p: Payload, value: string, footer: string, maxBytes: nat)
    ensures Monotone(value, Footed(p, footer, maxBytes))
  {
    forall j, k | 0 <= j <= k <= |value|
      ensures PayloadBytes(p.(text := value[..j] + footer)) <= PayloadBytes(p.(text := value[..k] + footer)) {
      TextFormula(p, value[..j] + footer);
      TextFormula(p, value[..k] + footer);
      JoinedStringBytes(value[..j], footer);
      JoinedStringBytes(value[..k], footer);
      PrefixBytes(value, j, k);
    }
  }

  /** The two predicates agree, so their longest fitting prefixes do. */
  lemma SameFits(value: string, fast: string -> bool, exact: string -> bool)
    requires forall c :: fast(c) <==> exact(c)
    ensures Monotone(value, exact) ==> Monotone(value, fast)
    ensures forall r :: LongestFitting(value, fast, r) <==> LongestFitting(value, exact, r)
  {
  }

  /** Whether a string fits as one stream of the payload. */
  ghost function Streamed(p: Payload, key: StreamKey, maxBytes: nat): string -> bool {
    (c: string) => PayloadBytes(With(p, key, Some(c))) <= maxBytes
  }

  method FitStringField(p: Payload, key: StreamKey, value: string, maxBytes: nat) returns (best: Option<string>)
    ensures LongestFitting(value, Streamed(p, key, maxBytes), best)
  {
    ghost var exact := Streamed(p, key, maxBytes);
    StreamMonotone(p, key, value, maxBytes);
    var fixedBytes := PayloadBytes(With(p, key, Some(""))) - 2;
    var fast := (c: string) => fixedBytes + JsonStringBytes(c) <= maxBytes;
    forall c ensures fast(c) <==> exact(c) {
      StreamFormula(p, key, c);
    }
    SameFits(value, fast, exact);
    best := FitUtf8Prefix(value, fast);
    if best.Some? && PayloadBytes(With(p, key, best)) <= maxBytes {
      return;
    }
    var slow := (c: string) => PayloadBytes(With(p, key, Some(c))) <= maxBytes;
    SameFits(value, slow, exact);
    best := FitUtf8Prefix(value, slow);
  }

  /** Whether a string fits as one field of the payload's metadata. */
  ghost function Described(p: Payload, m: Metadata, key: MetadataKey, maxBytes: nat): string -> bool {
    (c: string) => PayloadBytes(p.(metadata := Some(WithMetadata(m, key, c)))) <= maxBytes
  }

  method FitMetadataString(p: Payload, m: Metadata, key: MetadataKey, value: string, maxBytes: nat)
      returns (best: Option<string>)
    ensures LongestFitting(value, Described(p, m, key, maxBytes), best)
  {
    ghost var exact := Described(p, m, key, maxBytes);
    MetadataMonotone(p, m, key, value, maxBytes);
    var fixedBytes := PayloadBytes(p.(metadata := Some(WithMetadata(m, key, "")))) - 2;
    var fast := (c: string) => fixedBytes + JsonStringBytes(c) <= maxBytes;
    forall c ensures fast(c) <==> exact(c) {
      MetadataFormula(p, m, key, c);
    }
    SameFits(value, fast, exact);
    best := FitUtf8Prefix(value, fast);
    if best.Some? && PayloadBytes(p.(metadata := Some(WithMetadata(m, key, best.value)))) <= maxBytes {
      return;
    }
    var slow := (c: string) => PayloadBytes(p.(metadata := Some(WithMetadata(m, key, c)))) <= maxBytes;
    SameFits(value, slow, exact);
    best := FitUtf8Prefix(value, slow);
  }

  function Decimal(n: nat): string {
    if n < 10 then ["0123456789"[n]] else Decimal(n / 10) + ["0123456789"[n % 10]]
  }

  function TruncationFooter(rawBytes: nat, maxBytes: nat): string {
    "\n\U{22EF} artifact truncated bytes=" + Decimal(rawBytes) + " max=" + Decimal(maxBytes) + " \U{22EF}"
  }

  /** Whether a prefix fits as the text of the payload with the footer behind it. */
  ghost function Footed(p: Payload, footer: string, maxBytes: nat): string -> bool {
    (c: string) => PayloadBytes(p.(text := c + footer)) <= maxBytes
  }

  /** The longest prefix that fits with the footer behind it, else the longest that fits without, else nothing. */
  ghost predicate FittedText(text: string, p: Payload, original: string, maxBytes: nat) {
    var footer := TruncationFooter(ByteLength(original), maxBytes);
    || (exists cut: string :: LongestFitting(original, Footed(p, footer, maxBytes), Some(cut)) && text == cut + footer)
    || (LongestFitting(original, Footed(p, footer, maxBytes), None)
        && LongestFitting(original, Footed(p, "", maxBytes), Some(text)))
    || (LongestFitting(original, Footed(p, footer, maxBytes), None)
        && LongestFitting(original, Footed(p, "", maxBytes), None) && text == "")
  }

  method FitText(p: Payload, original: string, maxBytes: nat) returns (text: string)
    ensures FittedText(text, p, original, maxBytes)
  {
    EncodeLength(original);
    var footer := TruncationFooter(|Encode(original)|, maxBytes);
    ghost var exact := Footed(p, footer, maxBytes);
    TextMonotone(p, original, footer, maxBytes);
    var fixedBytes := PayloadBytes(p.(text := "")) - 2;
    var fast := (c: string) => fixedBytes + JsonStringBytes(c + footer) <= maxBytes;
    forall c ensures fast(c) <==> exact(c) {
      TextFormula(p, c + footer);
    }
    SameFits(original, fast, exact);
    var bestPrefix := FitUtf8Prefix(original, fast);
    if bestPrefix.Some? {
      text := bestPrefix.value + footer;
      if PayloadBytes(p.(text := text)) <= maxBytes {
        return;
      }
    }
    TextMonotone(p, original, "", maxBytes);
    var plain := (c: string) => PayloadBytes(p.(text := c + "")) <= maxBytes;
    SameFits(original, plain, Footed(p, "", maxBytes));
    var best := FitUtf8Prefix(original, plain);
    text := if best.Some? then best.value else "";
  }

  // ----- The whole artifact -----

  /** A field is kept only as a prefix of what it was. */
  predicate Cut(kept: Option<string>, original: Option<string>) {
    kept.Some? ==> original.Some? && kept.value <= original.value
  }

  /** Metadata keeps prefixes of its strings, and its structured parts whole or not at all. */
  predicate CutMetadata(kept: Option<Metadata>, original: Option<Metadata>) {
    kept.Some? ==>
      && original.Some?
      && kept.value.operation <= original.value.operation
      && Cut(kept.value.command, original.value.command)
      && Cut(kept.value.cwd, original.value.cwd)
      && Cut(kept.value.summary, original.value.summary)
      && (kept.value.diagnostics.Some? ==> kept.value.diagnostics == original.value.diagnostics)
      && (kept.value.identity.Some? ==> kept.value.identity == original.value.identity)
  }

  function MetadataField(m: Metadata, key: MetadataKey): Option<string> {
    match key
    case Operation => Some(m.operation)
    case Command => m.command
    case Cwd => m.cwd
    case Summary => m.summary
  }

  /** One optional string of the metadata: the longest prefix of it that fits beside what is there, if any does. */
  ghost predicate OptionalFitted(r: Metadata, p: Payload, m: Metadata, bounded: Metadata, key: MetadataKey,
                                 maxBytes: nat) {
    match MetadataField(m, key)
    case None => r == bounded
    case Some(value) =>
      || (LongestFitting(value, Described(p, bounded, key, maxBytes), None) && r == bounded)
      || (&& MetadataField(r, key).Some?
          && LongestFitting(value, Described(p, bounded, key, maxBytes), MetadataField(r, key))
          && r == WithMetadata(bounded, key, MetadataField(r, key).value))
  }

  method BoundOptional(p: Payload, m: Metadata, bounded: Metadata, key: MetadataKey, maxBytes: nat)
      returns (r: Metadata)
    requires PayloadBytes(p.(metadata := Some(bounded))) <= maxBytes && CutMetadata(Some(bounded), Some(m))
    ensures PayloadBytes(p.(metadata := Some(r))) <= maxBytes && CutMetadata(Some(r), Some(m))
    ensures OptionalFitted(r, p, m, bounded, key, maxBytes)
    ensures key != Operation ==> r.operation == bounded.operation
  {
    r := bounded;
    var value := MetadataField(m, key);
    if value.Some? {
      var fitted := FitMetadataString(p, bounded, key, value.value, maxBytes);
      if fitted.Some? {
        CutReplaced(m, bounded, key, value.value, fitted.value);
        DescribedFits(p, bounded, key, value.value, fitted.value, maxBytes);
        r := WithMetadata(bounded, key, fitted.value);
      }
    }
  }

  lemma DescribedFits(p: Payload, m: Metadata, key: MetadataKey, value: string, best: string, maxBytes: nat)
    requires LongestFitting(value, Described(p, m, key, maxBytes), Some(best))
    ensures best <= value && PayloadBytes(p.(metadata := Some(WithMetadata(m, key, best)))) <= maxBytes
    ensures MetadataField(WithMetadata(m, key, best), key) == Some(best)
  {
  }

  lemma CutReplaced(m: Metadata, bounded: Metadata, key: MetadataKey, value: string, prefix: string)
    requires CutMetadata(Some(bounded), Some(m)) && MetadataField(m, key) == Some(value) && prefix <= value
    ensures CutMetadata(Some(WithMetadata(bounded, key, prefix)), Some(m))
  {
  }

  /** Whether metadata fits in the payload. */
  ghost function Fitting(p: Payload, maxBytes: nat): Metadata -> bool {
    (m: Metadata) => PayloadBytes(p.(metadata := Some(m))) <= maxBytes
  }

  /** A structured part is kept when the whole of it fits. */
  ghost function Whole(fits: Metadata -> bool, bounded: Metadata, extended: Metadata): Metadata {
    if fits(extended) then extended else bounded
  }

  ghost function WithStructured(fits: Metadata -> bool, m: Metadata, bounded: Metadata): Metadata {
    var described := if m.diagnostics.None? then bounded
                     else Whole(fits, bounded, bounded.(diagnostics := m.diagnostics));
    if m.identity.None? then described else Whole(fits, described, described.(identity := m.identity))
  }

  lemma StructuredFits(fits: Metadata -> bool, m: Metadata, bounded: Metadata)
    requires fits(bounded) && CutMetadata(Some(bounded), Some(m))
    ensures var r := WithStructured(fits, m, bounded);
            fits(r) && CutMetadata(Some(r), Some(m)) && r.operation == bounded.operation
  {
  }

  lemma FittingFits(p: Payload, m: Metadata, maxBytes: nat)
    requires Fitting(p, maxBytes)(m)
    ensures PayloadBytes(p.(metadata := Some(m))) <= maxBytes
  {
  }

  method KeepStructured(p: Payload, m: Metadata, bounded: Metadata, maxBytes: nat) returns (r: Metadata)
    ensures r == WithStructured(Fitting(p, maxBytes), m, bounded)
  {
    r := bounded;
    if m.diagnostics.Some? {
      var described := r.(diagnostics := m.diagnostics);
      if PayloadBytes(p.(metadata := Some(described))) <= maxBytes {
        r := described;
      }
    }
    if m.identity.Some? {
      var identified := r.(identity := m.identity);
      if PayloadBytes(p.(metadata := Some(identified))) <= maxBytes {
        r := identified;
      }
    }
  }

  /** Whether an operation fits as the only metadata of the payload. */
  ghost function Operated(p: Payload, maxBytes: nat): string -> bool {
    (c: string) => PayloadBytes(p.(metadata := Some(Minimal(c)))) <= maxBytes
  }

  method FitOperation(p: Payload, operation: string, maxBytes: nat) returns (best: Option<string>)
    ensures LongestFitting(operation, Operated(p, maxBytes), best)
  {
    best := FitMetadataString(p, Minimal(""), Operation, operation, maxBytes);
    SameFits(operation, Described(p, Minimal(""), Operation, maxBytes), Operated(p, maxBytes));
  }

  /**
   * The strings around the operation in the order they are fitted, each beside those before it, and then the structured
   * parts.
   */
  ghost predicate RestFitted(r: Metadata, p: Payload, m: Metadata, operation: string, maxBytes: nat) {
    exists command, cwd, summary: Metadata ::
      && OptionalFitted(command, p, m, Minimal(operation), Command, maxBytes)
      && OptionalFitted(cwd, p, m, command, Cwd, maxBytes)
      && OptionalFitted(summary, p, m, cwd, Summary, maxBytes)
      && r == WithStructured(Fitting(p, maxBytes), m, summary)
  }

  method BoundRest(p: Payload, m: Metadata, operation: string, maxBytes: nat) returns (bounded: Metadata)
    requires operation <= m.operation && PayloadBytes(p.(metadata := Some(Minimal(operation)))) <= maxBytes
    ensures CutMetadata(Some(bounded), Some(m)) && bounded.operation == operation
    ensures PayloadBytes(p.(metadata := Some(bounded))) <= maxBytes
    ensures RestFitted(bounded, p, m, operation, maxBytes)
  {
    var command := BoundOptional(p, m, Minimal(operation), Command, maxBytes);
    var cwd := BoundOptional(p, m, command, Cwd, maxBytes);
    var summary := BoundOptional(p, m, cwd, Summary, maxBytes);
    StructuredFits(Fitting(p, maxBytes), m, summary);
    bounded := KeepStructured(p, m, summary, maxBytes);
    FittingFits(p, bounded, maxBytes);
  }

  /** The longest operation that fits alone decides whether there is metadata at all; the rest is fitted around it. */
  ghost predicate MetadataFitted(r: Option<Metadata>, p: Payload, m: Metadata, maxBytes: nat) {
    match r
    case None => LongestFitting(m.operation, Operated(p, maxBytes), None)
    case Some(bounded) =>
      && LongestFitting(m.operation, Operated(p, maxBytes), Some(bounded.operation))
      && RestFitted(bounded, p, m, bounded.operation, maxBytes)
  }

  method BoundMetadata(p: Payload, m: Metadata, maxBytes: nat) returns (r: Option<Metadata>)
    ensures CutMetadata(r, Some(m))
    ensures r.Some? ==> PayloadBytes(p.(metadata := r)) <= maxBytes
    ensures MetadataFitted(r, p, m, maxBytes)
  {
    var operation := FitOperation(p, m.operation, maxBytes);
    if operation.None? {
      return None;
    }
    var bounded := BoundRest(p, m, operation.value, maxBytes);
    r := Some(bounded);
  }

  function TextOnly(text: string): Payload {
    Payload(text, None, None, None)
  }

  function Minimal(operation: string): Metadata {
    Metadata(operation, None, None, None, None, None)
  }

  /** Dropping fields never makes a payload larger. */
  lemma DroppingShrinks(p: Payload)
    ensures PayloadBytes(TextOnly(p.text)) <= PayloadBytes(p)
    ensures PayloadBytes(p.(metadata := None)) <= PayloadBytes(p)
  {
    PayloadSize(p);
    PayloadSize(TextOnly(p.text));
    PayloadSize(p.(metadata := None));
  }

  /** How the text of a bounded artifact relates to the original text. */
  ghost predicate TextKept(kept: string, original: string, maxBytes: nat) {
    || kept <= original
    || exists prefix :: prefix <= original && kept == prefix + TruncationFooter(ByteLength(original), maxBytes)
  }

  /** Both streams cut to the longest prefixes that fit, the second beside what is left of the first. */
  ghost predicate StreamsFitted(p: Payload, artifact: Payload, maxBytes: nat) {
    && p.text == artifact.text && p.metadata == artifact.metadata
    && Cut(p.stdout, artifact.stdout) && Cut(p.stderr, artifact.stderr)
    && (artifact.stdout.Some? ==> LongestFitting(artifact.stdout.value, Streamed(artifact, Stdout, maxBytes), p.stdout))
    && (artifact.stderr.Some? ==>
         LongestFitting(artifact.stderr.value, Streamed(artifact.(stdout := p.stdout), Stderr, maxBytes), p.stderr))
  }

  /** The metadata cut beside the streams that are left. */
  ghost predicate FieldsFitted(p: Payload, streams: Payload, maxBytes: nat) {
    && p == streams.(metadata := p.metadata)
    && CutMetadata(p.metadata, streams.metadata)
    && (streams.metadata.Some? ==> MetadataFitted(p.metadata, streams, streams.metadata.value, maxBytes))
  }

  /** Metadata goes first, then standard error, then standard output, and none without need. */
  function Dropped(p: Payload, maxBytes: nat): Payload {
    if PayloadBytes(p) <= maxBytes then p
    else if PayloadBytes(p.(metadata := None)) <= maxBytes then p.(metadata := None)
    else if PayloadBytes(p.(metadata := None, stderr := None)) <= maxBytes then p.(metadata := None, stderr := None)
    else TextOnly(p.text)
  }

  /** The bare operation comes back when there is room for it. */
  function WithOperation(p: Payload, metadata: Option<Metadata>, maxBytes: nat): Payload {
    if metadata.None? || p.metadata.Some? then p
    else
      var restored := p.(metadata := Some(Minimal(metadata.value.operation)));
      if PayloadBytes(restored) <= maxBytes then restored else p
  }

  /** The text gives way only when it does not fit alone. */
  ghost predicate TextFitted(r: Payload, dropped: Payload, artifact: Payload, maxBytes: nat) {
    if PayloadBytes(dropped) <= maxBytes then r == WithOperation(dropped, artifact.metadata, maxBytes)
    else BestText(r.text, artifact, maxBytes) && r == WithOperation(TextOnly(r.text), artifact.metadata, maxBytes)
  }

  /**
   * How an artifact that does not fit is reduced: streams, metadata, dropped fields, text, each as little as needed.
   */
  ghost predicate Reduced(r: Payload, artifact: Payload, maxBytes: nat) {
    exists streams, fields: Payload ::
      && StreamsFitted(streams, artifact, maxBytes)
      && FieldsFitted(fields, streams, maxBytes)
      && TextFitted(r, Dropped(fields, maxBytes), artifact, maxBytes)
  }

  /** What is retained of an artifact under a limit. */
  ghost predicate BoundForm(p: Payload, artifact: Payload, maxBytes: nat) {
    && PayloadBytes(p) <= maxBytes
    && (if PayloadBytes(artifact) <= maxBytes then p == artifact else Reduced(p, artifact, maxBytes))
    && (p.text == artifact.text <==> PayloadBytes(TextOnly(artifact.text)) <= maxBytes)
    && TextKept(p.text, artifact.text, maxBytes)
    && Cut(p.stdout, artifact.stdout) && Cut(p.stderr, artifact.stderr) && CutMetadata(p.metadata, artifact.metadata)
    && (artifact.metadata.Some? && p.metadata.None? ==>
         PayloadBytes(p.(metadata := Some(Minimal(artifact.metadata.value.operation)))) > maxBytes)
  }

  /**
   * Whatever fits stays untouched; otherwise streams and metadata give way before the text does, and the text survives
   * whole exactly when it fits alone.
   */
  method BoundArtifact(artifact: Payload, maxBytes: nat) returns (p: Payload)
    requires maxBytes >= MIN_ARTIFACT_BYTES
    ensures BoundForm(p, artifact, maxBytes)
  {
    DroppingShrinks(artifact);
    if PayloadBytes(artifact) <= maxBytes {
      return artifact;
    }
    ghost var streams, fields;
    p, streams, fields := BoundFields(artifact, maxBytes);
    ghost var dropped := p;
    if PayloadBytes(p) > maxBytes {
      var text := BoundText(artifact, maxBytes);
      p := p.(text := text, metadata := None);
    } else {
      DroppingShrinks(p);
    }
    OperationKept(p, artifact.metadata, maxBytes);
    p := KeepOperation(p, artifact.metadata, maxBytes);
    DroppingShrinks(p);
    assert TextFitted(p, dropped, artifact, maxBytes);
  }

  /** Streams and metadata cut or dropped; what is still too large then is the text alone. */
  method BoundFields(artifact: Payload, maxBytes: nat)
      returns (p: Payload, ghost streams: Payload, ghost fields: Payload)
    ensures p.text == artifact.text
    ensures PayloadBytes(p) > maxBytes ==> p == TextOnly(p.text)
    ensures Cut(p.stdout, artifact.stdout) && Cut(p.stderr, artifact.stderr)
        && CutMetadata(p.metadata, artifact.metadata)
    ensures StreamsFitted(streams, artifact, maxBytes) && FieldsFitted(fields, streams, maxBytes)
        && p == Dropped(fields, maxBytes)
  {
    p := BoundStreams(artifact, maxBytes);
    streams := p;
    if p.metadata.Some? {
      var bounded := BoundMetadata(p, p.metadata.value, maxBytes);
      p := p.(metadata := bounded);
    }
    fields := p;
    p := DropFields(p, maxBytes);
  }

  method KeepOperation(original: Payload, metadata: Option<Metadata>, maxBytes: nat) returns (p: Payload)
    ensures p == WithOperation(original, metadata, maxBytes)
  {
    p := original;
    if metadata.Some? && original.metadata.None? {
      var restored := original.(metadata := Some(Minimal(metadata.value.operation)));
      if PayloadBytes(restored) <= maxBytes {
        p := restored;
      }
    }
  }

  lemma OperationKept(original: Payload, metadata: Option<Metadata>, maxBytes: nat)
    requires PayloadBytes(original) <= maxBytes && CutMetadata(original.metadata, metadata)
    ensures var p := WithOperation(original, metadata, maxBytes);
            && PayloadBytes(p) <= maxBytes && p == original.(metadata := p.metadata)
               && CutMetadata(p.metadata, metadata)
            && (metadata.Some? && p.metadata.None? ==>
                 PayloadBytes(p.(metadata := Some(Minimal(metadata.value.operation)))) > maxBytes)
  {
    if metadata.Some? {
      MinimalIsCut(metadata.value);
    }
  }

  lemma MinimalIsCut(m: Metadata)
    ensures CutMetadata(Some(Minimal(m.operation)), Some(m))
  {
  }

  /** The longest prefix of one stream that fits beside everything else. */
  method BoundStream(original: Payload, key: StreamKey, maxBytes: nat) returns (p: Payload)
    ensures p == With(original, key, Get(p, key)) && Cut(Get(p, key), Get(original, key))
    ensures Get(original, key).Some? ==>
        LongestFitting(Get(original, key).value, Streamed(original, key, maxBytes), Get(p, key))
  {
    var value := Get(original, key);
    p := original;
    if value.Some? {
      var bounded := FitStringField(p, key, value.value, maxBytes);
      p := With(p, key, bounded);
    }
  }

  method BoundStreams(artifact: Payload, maxBytes: nat) returns (p: Payload)
    ensures StreamsFitted(p, artifact, maxBytes)
  {
    p := BoundStream(artifact, Stdout, maxBytes);
    p := BoundStream(p, Stderr, maxBytes);
  }

  /** Fields are dropped one by one while the rest does not fit. */
  method DropFields(original: Payload, maxBytes: nat) returns (p: Payload)
    ensures p == Dropped(original, maxBytes) && p.text == original.text
    ensures PayloadBytes(p) > maxBytes ==> p == TextOnly(p.text)
    ensures p.metadata == original.metadata || (p.metadata.None? && PayloadBytes(original) > maxBytes)
    ensures p.stderr == original.stderr || (p.stderr.None? && PayloadBytes(original.(metadata := None)) > maxBytes)
    ensures p.stdout == original.stdout
        || (p.stdout.None? && PayloadBytes(original.(metadata := None, stderr := None)) > maxBytes)
  {
    p := original;
    if PayloadBytes(p) <= maxBytes {
      return;
    }
    p := p.(metadata := None);
    if PayloadBytes(p) <= maxBytes {
      return;
    }
    p := p.(stderr := None);
    if PayloadBytes(p) <= maxBytes {
      return;
    }
    p := p.(stdout := None);
  }

  /** What the text is fitted beside: nothing but the bare operation. */
  ghost function Reserve(artifact: Payload): Payload {
    Payload("", None, None, if artifact.metadata.None? then None else Some(Minimal(artifact.metadata.value.operation)))
  }

  /**
   * The longest prefix with the footer that leaves room for the operation, else the longest without the footer, else
   * nothing.
   */
  ghost predicate BestText(text: string, artifact: Payload, maxBytes: nat) {
    FittedText(text, Reserve(artifact), artifact.text, maxBytes)
  }

  /** The text that is left when it does not fit alone: room for the operation is reserved first. */
  method BoundText(artifact: Payload, maxBytes: nat) returns (text: string)
    requires maxBytes >= MIN_ARTIFACT_BYTES
    ensures PayloadBytes(TextOnly(text)) <= maxBytes && TextKept(text, artifact.text, maxBytes)
        && BestText(text, artifact, maxBytes)
  {
    var minimal := if artifact.metadata.None? then None else Some(Minimal(artifact.metadata.value.operation));
    var budget := Payload("", None, None, minimal);
    text := FitText(budget, artifact.text, maxBytes);
    FittedIsKept(text, budget, artifact.text, maxBytes);
  }

  lemma FittedIsKept(text: string, budget: Payload, original: string, maxBytes: nat)
    requires FittedText(text, budget, original, maxBytes) && maxBytes >= MIN_ARTIFACT_BYTES
    ensures PayloadBytes(TextOnly(text)) <= maxBytes && TextKept(text, original, maxBytes)
  {
    var footer := TruncationFooter(ByteLength(original), maxBytes);
    if cut: string :| LongestFitting(original, Footed(budget, footer, maxBytes), Some(cut)) && text == cut + footer {
      LongestFits(budget, original, cut, footer, maxBytes);
      BudgetFits(budget, text, maxBytes);
    } else if LongestFitting(original, Footed(budget, "", maxBytes), Some(text)) {
      LongestFits(budget, original, text, "", maxBytes);
      assert text + "" == text;
      BudgetFits(budget, text, maxBytes);
    } else {
      SmallestPayload();
    }
  }

  lemma LongestFits(budget: Payload, original: string, prefix: string, footer: string, maxBytes: nat)
    requires LongestFitting(original, Footed(budget, footer, maxBytes), Some(prefix))
    ensures prefix <= original && PayloadBytes(budget.(text := prefix + footer)) <= maxBytes
  {
  }

  lemma BudgetFits(budget: Payload, text: string, maxBytes: nat)
    requires PayloadBytes(budget.(text := text)) <= maxBytes
    ensures PayloadBytes(TextOnly(text)) <= maxBytes
  {
    DroppingShrinks(budget.(text := text));
  }
}
