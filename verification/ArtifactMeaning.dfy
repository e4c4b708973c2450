/**
 * What fitting an artifact means: the serialized payload is a JSON text of the fields it keeps, and what is cut or
 * dropped gives way only where the payload written out with it would not fit.
 */
module ArtifactMeaning {
  import opened Wrappers
  import opened Utf8
  import opened Json
  import opened JsonParser
  import opened ArtifactFit
  import CanonicalJson

  // ----- The serialized payload is the JSON of its fields -----

  /** A text that reads as this value wherever a member or the end of an object follows. */
  ghost predicate IsTextOf(text: string, v: Value) {
    forall tail: string :: tail != "" && (tail[0] == ',' || tail[0] == '}') ==>
        ParseValue(text + tail) == Some((v, tail))
  }

  /** What follows a member: the end of the object, or a comma and more members. */
  ghost predicate TailParses(tail: string, others: seq<Field>, rest: string) {
    || (others == [] && tail == "}" + rest)
    || (tail != "" && tail[0] == ',' && ParseFields(tail[1..]) == Some((others, rest)))
  }

  lemma TailStarts(tail: string, others: seq<Field>, rest: string)
    requires TailParses(tail, others, rest)
    ensures tail != "" && (tail[0] == ',' || tail[0] == '}')
  {
  }

  lemma QuoteIsText(s: string)
    ensures IsTextOf(Quote(s), JString(s))
  {
    forall tail: string | tail != "" && (tail[0] == ',' || tail[0] == '}')
      ensures ParseValue(Quote(s) + tail) == Some((JString(s), tail))
    {
      CanonicalJson.ParseQuoted(s, tail);
    }
  }

  /** Printed values are such texts. */
  lemma PrintedIsText(v: Value)
    requires CanonicalJson.StableStringify(v).Ok?
    ensures IsTextOf(CanonicalJson.StableStringify(v).value, CanonicalJson.Canonical(v))
  {
    var text := CanonicalJson.StableStringify(v).value;
    forall tail: string | tail != "" && (tail[0] == ',' || tail[0] == '}')
      ensures ParseValue(text + tail) == Some((CanonicalJson.Canonical(v), tail))
    {
      CanonicalJson.ParsePrinted(v, tail);
    }
  }

  lemma PairParses(key: string, text: string, v: Value, tail: string, others: seq<Field>, rest: string)
    requires IsTextOf(text, v) && TailParses(tail, others, rest)
    ensures ParseFields(Pair(key, text) + tail) == Some(([Member(key, v)] + others, rest))
  {
    TailStarts(tail, others, rest);
    CanonicalJson.RegroupField(Quote(key), text, tail);
    assert Pair(key, text) + tail == CanonicalJson.Quote(key) + (":" + (text + tail));
    if tail[0] == ',' {
      assert tail == "," + tail[1..];
      CanonicalJson.NextField(key, text, v, tail[1..], others, rest);
    } else {
      CanonicalJson.LastField(key, text, v, rest);
      assert [Member(key, v)] + others == [Member(key, v)];
    }
  }

  function Kept(key: string, v: Option<Value>): seq<Field> {
    if v.None? then [] else [Member(key, v.value)]
  }

  lemma ExtraParses(key: string, text: Option<string>, v: Option<Value>, tail: string, others: seq<Field>, rest: string)
    requires text.Some? <==> v.Some?
    requires text.Some? ==> IsTextOf(text.value, v.value)
    requires TailParses(tail, others, rest)
    ensures TailParses(Extra(key, text) + tail, Kept(key, v) + others, rest)
  {
    if text.None? {
      assert Extra(key, text) + tail == tail && Kept(key, v) + others == others;
    } else {
      PairParses(key, text.value, v.value, tail, others, rest);
      CommaThen(Pair(key, text.value), tail);
    }
  }

  lemma CommaThen(pair: string, tail: string)
    ensures var s := ("," + pair) + tail; s != "" && s[0] == ',' && s[1..] == pair + tail
  {
  }

  function Strings(s: Option<string>): Option<Value> {
    if s.None? then None else Some(JString(s.value))
  }

  lemma OptionalString(key: string, s: Option<string>, tail: string, others: seq<Field>, rest: string)
    requires TailParses(tail, others, rest)
    ensures TailParses(Extra(key, Quoted(s)) + tail, Kept(key, Strings(s)) + others, rest)
  {
    if s.Some? {
      QuoteIsText(s.value);
    }
    ExtraParses(key, Quoted(s), Strings(s), tail, others, rest);
  }

  /** The structured parts of metadata as values. */
  ghost predicate PartsAre(m: Metadata, diagnostics: Option<Value>, identity: Option<Value>) {
    && (m.diagnostics.Some? <==> diagnostics.Some?) && (m.identity.Some? <==> identity.Some?)
    && (m.diagnostics.Some? ==> IsTextOf(m.diagnostics.value, diagnostics.value))
    && (m.identity.Some? ==> IsTextOf(m.identity.value, identity.value))
  }

  /** The object the serialized metadata stands for. */
  function MetadataObject(m: Metadata, diagnostics: Option<Value>, identity: Option<Value>): Value {
    JObject([Member("operation", JString(m.operation))]
            + (Kept("command", Strings(m.command)) + (Kept("cwd", Strings(m.cwd)) + (Kept("summary", Strings(m.summary))
               + (Kept("diagnostics", diagnostics) + (Kept("identity", identity) + []))))))
  }

  lemma StructuredParse(m: Metadata, diagnostics: Option<Value>, identity: Option<Value>, rest: string)
    requires PartsAre(m, diagnostics, identity)
    ensures TailParses(Extra("diagnostics", m.diagnostics) + (Extra("identity", m.identity) + ("}" + rest)),
                       Kept("diagnostics", diagnostics) + (Kept("identity", identity) + []), rest)
  {
    var end := "}" + rest;
    ExtraParses("identity", m.identity, identity, end, [], rest);
    ExtraParses("diagnostics", m.diagnostics, diagnostics, Extra("identity", m.identity) + end,
                Kept("identity", identity) + [], rest);
  }

  lemma MetadataParses(m: Metadata, diagnostics: Option<Value>, identity: Option<Value>, rest: string)
    requires PartsAre(m, diagnostics, identity)
    ensures ParseValue(MetadataText(m) + rest) == Some((MetadataObject(m, diagnostics, identity), rest))
  {
    StructuredParse(m, diagnostics, identity, rest);
    var t4 := Extra("diagnostics", m.diagnostics) + (Extra("identity", m.identity) + ("}" + rest));
    var f4 := Kept("diagnostics", diagnostics) + (Kept("identity", identity) + []);
    var t3, f3 := Extra("summary", Quoted(m.summary)) + t4, Kept("summary", Strings(m.summary)) + f4;
    OptionalString("summary", m.summary, t4, f4, rest);
    var t2, f2 := Extra("cwd", Quoted(m.cwd)) + t3, Kept("cwd", Strings(m.cwd)) + f3;
    OptionalString("cwd", m.cwd, t3, f3, rest);
    var t1, f1 := Extra("command", Quoted(m.command)) + t2, Kept("command", Strings(m.command)) + f2;
    OptionalString("command", m.command, t2, f2, rest);
    QuoteIsText(m.operation);
    PairParses("operation", Quote(m.operation), JString(m.operation), t1, f1, rest);
    MetadataRegroups(m, rest);
    ObjectParses(Pair("operation", Quote(m.operation)) + t1, [Member("operation", JString(m.operation))] + f1, rest);
  }

  lemma Assoc(a: string, b: string, c: string)
    ensures (a + b) + c == a + (b + c)
  {
  }

  lemma MetadataRegroups(m: Metadata, rest: string)
    ensures MetadataText(m) + rest == "{"
        + (Pair("operation", Quote(m.operation)) + (Extra("command", Quoted(m.command))
            + (Extra("cwd", Quoted(m.cwd)) + (Extra("summary", Quoted(m.summary))
            + (Extra("diagnostics", m.diagnostics) + (Extra("identity", m.identity) + ("}" + rest)))))))
  {
    RegroupsAny(Pair("operation", Quote(m.operation)), Extra("command", Quoted(m.command)), Extra("cwd", Quoted(m.cwd)),
                Extra("summary", Quoted(m.summary)), Extra("diagnostics", m.diagnostics), Extra("identity", m.identity),
                rest);
  }

  lemma RegroupsAny(a: string, b: string, c: string, d: string, e: string, f: string, rest: string)
    ensures ("{" + (a + (b + (c + (d + (e + (f + "}"))))))) + rest
            == "{" + (a + (b + (c + (d + (e + (f + ("}" + rest)))))))
  {
    Assoc(f, "}", rest);
    Assoc(e, f + "}", rest);
    Assoc(d, e + (f + "}"), rest);
    Assoc(c, d + (e + (f + "}")), rest);
    Assoc(b, c + (d + (e + (f + "}"))), rest);
    Assoc(a, b + (c + (d + (e + (f + "}")))), rest);
    Assoc("{", a + (b + (c + (d + (e + (f + "}"))))), rest);
  }

  lemma ObjectParses(body: string, fields: seq<Field>, rest: string)
    requires body != "" && body[0] == '"' && ParseFields(body) == Some((fields, rest))
    ensures ParseValue("{" + body) == Some((JObject(fields), rest))
  {
    var s := "{" + body;
    assert s[0] == '{' && s[1..] == body;
    assert SkipSpace(s) == s && SkipSpace(body) == body;
  }

  /**
   * Reading the serialized payload gives an object of the fields that are there, under their names: the text, both
   * streams, and the metadata with its own.
   */
  lemma SerializedParses(p: Payload, diagnostics: Option<Value>, identity: Option<Value>)
    requires p.metadata.Some? ==> PartsAre(p.metadata.value, diagnostics, identity)
    ensures var stdout := if p.stdout.Some? then [Member("stdout", JString(p.stdout.value))] else [];
            var stderr := if p.stderr.Some? then [Member("stderr", JString(p.stderr.value))] else [];
            var metadata := if p.metadata.Some?
                            then [Member("metadata", MetadataObject(p.metadata.value, diagnostics, identity))] else [];
            ParseText(Serialize(p)) == Some(JObject([Member("text", JString(p.text))] + (stdout + (stderr + metadata))))
  {
    var metadata :=
      if p.metadata.None? then None else Some(MetadataObject(p.metadata.value, diagnostics, identity));
    MetadataIsText(p.metadata, metadata, diagnostics, identity);
    LastParses("metadata", MetadataValue(p.metadata), metadata);
    StreamsParse(p, Extra("metadata", MetadataValue(p.metadata)) + "}", Kept("metadata", metadata));
  }

  lemma LastParses(key: string, text: Option<string>, v: Option<Value>)
    requires text.Some? <==> v.Some?
    requires text.Some? ==> IsTextOf(text.value, v.value)
    ensures TailParses(Extra(key, text) + "}", Kept(key, v), "")
  {
    assert "}" + "" == "}" && Kept(key, v) + [] == Kept(key, v);
    ExtraParses(key, text, v, "}", [], "");
  }

  lemma MetadataIsText(m: Option<Metadata>, v: Option<Value>, diagnostics: Option<Value>, identity: Option<Value>)
    requires m.Some? ==> PartsAre(m.value, diagnostics, identity)
    requires v == if m.None? then None else Some(MetadataObject(m.value, diagnostics, identity))
    ensures m.Some? ==> IsTextOf(MetadataText(m.value), v.value)
  {
    if m.Some? {
      forall tail: string | tail != "" && (tail[0] == ',' || tail[0] == '}')
        ensures ParseValue(MetadataText(m.value) + tail) == Some((v.value, tail))
      {
        MetadataParses(m.value, diagnostics, identity, tail);
      }
    }
  }

  lemma StreamsParse(p: Payload, tail: string, fields: seq<Field>)
    requires TailParses(tail, fields, "") && tail == Extra("metadata", MetadataValue(p.metadata)) + "}"
    ensures ParseText(Serialize(p)) == Some(JObject([Member("text", JString(p.text))]
              + (Kept("stdout", Strings(p.stdout)) + (Kept("stderr", Strings(p.stderr)) + fields))))
  {
    var t2, f2 := Extra("stderr", Quoted(p.stderr)) + tail, Kept("stderr", Strings(p.stderr)) + fields;
    OptionalString("stderr", p.stderr, tail, fields, "");
    var t1, f1 := Extra("stdout", Quoted(p.stdout)) + t2, Kept("stdout", Strings(p.stdout)) + f2;
    OptionalString("stdout", p.stdout, t2, f2, "");
    QuoteIsText(p.text);
    PairParses("text", Quote(p.text), JString(p.text), t1, f1, "");
    ObjectParses(Pair("text", Quote(p.text)) + t1, [Member("text", JString(p.text))] + f1, "");
  }

  /** The same for metadata, each of its strings and structured parts. */
  lemma MetadataFields(m: Metadata, diagnostics: Option<Value>, identity: Option<Value>)
    requires PartsAre(m, diagnostics, identity)
    ensures var command := if m.command.Some? then [Member("command", JString(m.command.value))] else [];
            var cwd := if m.cwd.Some? then [Member("cwd", JString(m.cwd.value))] else [];
            var summary := if m.summary.Some? then [Member("summary", JString(m.summary.value))] else [];
            var parts := (if diagnostics.Some? then [Member("diagnostics", diagnostics.value)] else [])
                         + (if identity.Some? then [Member("identity", identity.value)] else []);
            MetadataObject(m, diagnostics, identity)
            == JObject([Member("operation", JString(m.operation))] + (command + (cwd + (summary + parts))))
  {
    assert Kept("identity", identity) + [] == Kept("identity", identity);
  }

  // ----- What gives way, in serialized sizes -----

  /** The longest prefix of a field for which the payload fits, or nothing when not even the empty one does. */
  ghost predicate LongestKept(original: Option<string>, kept: Option<string>, bytes: string -> nat, maxBytes: nat) {
    if original.None? then kept.None?
    else
      var v := original.value;
      match kept
      case None => forall j :: 0 <= j <= |v| ==> bytes(v[..j]) > maxBytes
      case Some(t) => t <= v && bytes(t) <= maxBytes && forall j :: |t| < j <= |v| ==> bytes(v[..j]) > maxBytes
  }

  lemma LongestMeans(value: string, fits: string -> bool, bytes: string -> nat, kept: Option<string>, maxBytes: nat)
    requires LongestFitting(value, fits, kept) && forall c :: fits(c) <==> bytes(c) <= maxBytes
    ensures LongestKept(Some(value), kept, bytes, maxBytes)
  {
  }

  /** Standard output is cut beside everything else, standard error beside what is left of standard output. */
  lemma StreamsMean(p: Payload, a: Payload, maxBytes: nat)
    requires StreamsFitted(p, a, maxBytes)
    ensures p.text == a.text && p.metadata == a.metadata
    ensures LongestKept(a.stdout, p.stdout,
                        (c: string) => PayloadBytes(Payload(a.text, Some(c), a.stderr, a.metadata)), maxBytes)
    ensures LongestKept(a.stderr, p.stderr,
                        (c: string) => PayloadBytes(Payload(a.text, p.stdout, Some(c), a.metadata)), maxBytes)
  {
    if a.stdout.Some? {
      var bytes := (c: string) => PayloadBytes(Payload(a.text, Some(c), a.stderr, a.metadata));
      LongestMeans(a.stdout.value, Streamed(a, Stdout, maxBytes), bytes, p.stdout, maxBytes);
    }
    if a.stderr.Some? {
      var bytes := (c: string) => PayloadBytes(Payload(a.text, p.stdout, Some(c), a.metadata));
      LongestMeans(a.stderr.value, Streamed(a.(stdout := p.stdout), Stderr, maxBytes), bytes, p.stderr, maxBytes);
    }
  }

  /** The payload with these streams and this metadata. */
  ghost function Beside(p: Payload, m: Metadata): nat {
    PayloadBytes(Payload(p.text, p.stdout, p.stderr, Some(m)))
  }

  /** The size as a function of one metadata string. */
  ghost function BesideWith(p: Payload, whole: string -> Metadata): string -> nat {
    (c: string) => Beside(p, whole(c))
  }

  lemma OptionalMeans(r: Metadata, p: Payload, m: Metadata, bounded: Metadata, key: MetadataKey, fits: string -> bool,
                      bytes: string -> nat, maxBytes: nat)
    requires OptionalFitted(r, p, m, bounded, key, maxBytes) && MetadataField(bounded, key).None?
    requires fits == Described(p, bounded, key, maxBytes) && forall c :: fits(c) <==> bytes(c) <= maxBytes
    ensures LongestKept(MetadataField(m, key), MetadataField(r, key), bytes, maxBytes)
    ensures r == if MetadataField(r, key).None? then bounded
                 else WithMetadata(bounded, key, MetadataField(r, key).value)
  {
    if MetadataField(m, key).Some? {
      var value := MetadataField(m, key).value;
      if LongestFitting(value, fits, None) && r == bounded {
        LongestMeans(value, fits, bytes, None, maxBytes);
      } else {
        LongestMeans(value, fits, bytes, MetadataField(r, key), maxBytes);
      }
    }
  }

  lemma DescribedIs(p: Payload, bounded: Metadata, key: MetadataKey, whole: string -> Metadata, maxBytes: nat,
                    c: string)
    requires whole(c) == WithMetadata(bounded, key, c)
    ensures Described(p, bounded, key, maxBytes)(c) <==> BesideWith(p, whole)(c) <= maxBytes
  {
    assert p.(metadata := Some(whole(c))) == Payload(p.text, p.stdout, p.stderr, Some(whole(c)));
  }

  /** The structured parts: kept whole exactly when the metadata with them fits, the diagnostics first. */
  lemma StructuredMeans(fits: Metadata -> bool, r: Metadata, m: Metadata, bounded: Metadata)
    requires r == WithStructured(fits, m, bounded) && bounded.diagnostics.None? && bounded.identity.None?
    ensures r.operation == bounded.operation && r.command == bounded.command && r.cwd == bounded.cwd
    ensures r.summary == bounded.summary
    ensures r.diagnostics ==
              if m.diagnostics.Some? && fits(bounded.(diagnostics := m.diagnostics)) then m.diagnostics else None
    ensures r.identity ==
              if m.identity.Some? && fits(bounded.(diagnostics := r.diagnostics, identity := m.identity))
              then m.identity else None
  {
    assert bounded.(diagnostics := None) == bounded;
  }

  lemma FittingIs(p: Payload, maxBytes: nat, d: Metadata)
    ensures Fitting(p, maxBytes)(d) <==> Beside(p, d) <= maxBytes
  {
    assert p.(metadata := Some(d)) == Payload(p.text, p.stdout, p.stderr, Some(d));
  }

  /**
   * Each string of the metadata is cut beside those before it: operation, command, directory, summary. Then diagnostics
   * and identity are kept whole or not, exactly as they fit.
   */
  ghost predicate MetadataReduced(b: Metadata, p: Payload, m: Metadata, maxBytes: nat) {
    && LongestKept(Some(m.operation), Some(b.operation),
                   (c: string) => Beside(p, Metadata(c, None, None, None, None, None)), maxBytes)
    && LongestKept(m.command, b.command,
                   (c: string) => Beside(p, Metadata(b.operation, Some(c), None, None, None, None)), maxBytes)
    && LongestKept(m.cwd, b.cwd,
                   (c: string) => Beside(p, Metadata(b.operation, b.command, Some(c), None, None, None)), maxBytes)
    && LongestKept(m.summary, b.summary,
                   (c: string) => Beside(p, Metadata(b.operation, b.command, b.cwd, Some(c), None, None)), maxBytes)
    && (var d := Metadata(b.operation, b.command, b.cwd, b.summary, m.diagnostics, None);
        b.diagnostics == if m.diagnostics.Some? && Beside(p, d) <= maxBytes then m.diagnostics else None)
    && (var i := Metadata(b.operation, b.command, b.cwd, b.summary, b.diagnostics, m.identity);
        b.identity == if m.identity.Some? && Beside(p, i) <= maxBytes then m.identity else None)
  }

  /** The three optional strings, from the metadata each is fitted beside. */
  lemma StringMeans(r: Metadata, p: Payload, m: Metadata, bounded: Metadata, key: MetadataKey, original: Option<string>,
                    kept: Option<string>, whole: string -> Metadata, maxBytes: nat)
    requires OptionalFitted(r, p, m, bounded, key, maxBytes) && !key.Operation? && MetadataField(bounded, key).None?
    requires MetadataField(m, key) == original && MetadataField(r, key) == kept
    requires forall c :: whole(c) == WithMetadata(bounded, key, c)
    ensures LongestKept(original, kept, BesideWith(p, whole), maxBytes)
    ensures r == if kept.None? then bounded else whole(kept.value)
  {
    var fits, bytes := Described(p, bounded, key, maxBytes), BesideWith(p, whole);
    forall c ensures fits(c) <==> bytes(c) <= maxBytes {
      DescribedIs(p, bounded, key, whole, maxBytes, c);
    }
    OptionalMeans(r, p, m, bounded, key, fits, bytes, maxBytes);
  }

  lemma MetadataMeans(b: Metadata, p: Payload, m: Metadata, maxBytes: nat)
    requires MetadataFitted(Some(b), p, m, maxBytes)
    ensures MetadataReduced(b, p, m, maxBytes)
  {
    var base := Minimal(b.operation);
    var command, cwd, summary: Metadata :|
      && OptionalFitted(command, p, m, base, Command, maxBytes)
      && OptionalFitted(cwd, p, m, command, Cwd, maxBytes)
      && OptionalFitted(summary, p, m, cwd, Summary, maxBytes)
      && b == WithStructured(Fitting(p, maxBytes), m, summary);
    StringsMean(b, p, m, base, command, cwd, summary, maxBytes);
    PartsMean(b, p, m, summary, maxBytes);
    OperationMeans(b, p, m, maxBytes);
  }

  lemma OperationMeans(b: Metadata, p: Payload, m: Metadata, maxBytes: nat)
    requires LongestFitting(m.operation, Operated(p, maxBytes), Some(b.operation))
    ensures LongestKept(Some(m.operation), Some(b.operation),
                        (c: string) => Beside(p, Metadata(c, None, None, None, None, None)), maxBytes)
  {
    LongestMeans(m.operation, Operated(p, maxBytes),
                 (c: string) => Beside(p, Metadata(c, None, None, None, None, None)), Some(b.operation), maxBytes);
  }

  lemma PartsMean(b: Metadata, p: Payload, m: Metadata, summary: Metadata, maxBytes: nat)
    requires b == WithStructured(Fitting(p, maxBytes), m, summary)
    requires summary.diagnostics.None? && summary.identity.None?
    ensures var d := Metadata(b.operation, b.command, b.cwd, b.summary, m.diagnostics, None);
            b.diagnostics == if m.diagnostics.Some? && Beside(p, d) <= maxBytes then m.diagnostics else None
    ensures var i := Metadata(b.operation, b.command, b.cwd, b.summary, b.diagnostics, m.identity);
            b.identity == if m.identity.Some? && Beside(p, i) <= maxBytes then m.identity else None
  {
    StructuredMeans(Fitting(p, maxBytes), b, m, summary);
    var d := Metadata(b.operation, b.command, b.cwd, b.summary, m.diagnostics, None);
    var i := Metadata(b.operation, b.command, b.cwd, b.summary, b.diagnostics, m.identity);
    assert summary.(diagnostics := m.diagnostics) == d;
    assert summary.(diagnostics := b.diagnostics, identity := m.identity) == i;
    FittingIs(p, maxBytes, d);
    FittingIs(p, maxBytes, i);
  }

  /** One string more never touches the others. */
  lemma OptionalKeeps(r: Metadata, p: Payload, m: Metadata, bounded: Metadata, key: MetadataKey, maxBytes: nat)
    requires OptionalFitted(r, p, m, bounded, key, maxBytes) && !key.Operation?
    ensures r.operation == bounded.operation
    ensures r.diagnostics == bounded.diagnostics && r.identity == bounded.identity
    ensures !key.Command? ==> r.command == bounded.command
    ensures !key.Cwd? ==> r.cwd == bounded.cwd
    ensures !key.Summary? ==> r.summary == bounded.summary
  {
  }

  lemma StringsMean(b: Metadata, p: Payload, m: Metadata, base: Metadata, command: Metadata, cwd: Metadata,
                    summary: Metadata, maxBytes: nat)
    requires base == Metadata(b.operation, None, None, None, None, None)
    requires OptionalFitted(command, p, m, base, Command, maxBytes)
    requires OptionalFitted(cwd, p, m, command, Cwd, maxBytes)
    requires OptionalFitted(summary, p, m, cwd, Summary, maxBytes)
    requires b == WithStructured(Fitting(p, maxBytes), m, summary)
    ensures summary.diagnostics.None? && summary.identity.None?
    ensures LongestKept(m.command, b.command,
                        (c: string) => Beside(p, Metadata(b.operation, Some(c), None, None, None, None)), maxBytes)
    ensures LongestKept(m.cwd, b.cwd,
                        (c: string) => Beside(p, Metadata(b.operation, b.command, Some(c), None, None, None)), maxBytes)
    ensures LongestKept(m.summary, b.summary,
                        (c: string) => Beside(p, Metadata(b.operation, b.command, b.cwd, Some(c), None, None)),
                          maxBytes)
  {
    OptionalKeeps(command, p, m, base, Command, maxBytes);
    OptionalKeeps(cwd, p, m, command, Cwd, maxBytes);
    OptionalKeeps(summary, p, m, cwd, Summary, maxBytes);
    StructuredMeans(Fitting(p, maxBytes), b, m, summary);
    CommandMeans(command, p, m, base, maxBytes);
    CwdMeans(cwd, p, m, command, maxBytes);
    SummaryMeans(summary, p, m, cwd, maxBytes);
  }

  lemma CommandMeans(r: Metadata, p: Payload, m: Metadata, base: Metadata, maxBytes: nat)
    requires base == Metadata(r.operation, None, None, None, None, None)
    requires OptionalFitted(r, p, m, base, Command, maxBytes)
    ensures LongestKept(m.command, r.command,
                        (c: string) => Beside(p, Metadata(r.operation, Some(c), None, None, None, None)), maxBytes)
  {
    var whole := (c: string) => Metadata(r.operation, Some(c), None, None, None, None);
    StringMeans(r, p, m, base, Command, m.command, r.command, whole, maxBytes);
  }

  lemma CwdMeans(r: Metadata, p: Payload, m: Metadata, before: Metadata, maxBytes: nat)
    requires before == Metadata(r.operation, r.command, None, None, None, None)
    requires OptionalFitted(r, p, m, before, Cwd, maxBytes)
    ensures LongestKept(m.cwd, r.cwd,
                        (c: string) => Beside(p, Metadata(r.operation, r.command, Some(c), None, None, None)), maxBytes)
  {
    var whole := (c: string) => Metadata(r.operation, r.command, Some(c), None, None, None);
    StringMeans(r, p, m, before, Cwd, m.cwd, r.cwd, whole, maxBytes);
  }

  lemma SummaryMeans(r: Metadata, p: Payload, m: Metadata, before: Metadata, maxBytes: nat)
    requires before == Metadata(r.operation, r.command, r.cwd, None, None, None)
    requires OptionalFitted(r, p, m, before, Summary, maxBytes)
    ensures LongestKept(m.summary, r.summary,
                        (c: string) => Beside(p, Metadata(r.operation, r.command, r.cwd, Some(c), None, None)),
                          maxBytes)
  {
    var whole := (c: string) => Metadata(r.operation, r.command, r.cwd, Some(c), None, None);
    StringMeans(r, p, m, before, Summary, m.summary, r.summary, whole, maxBytes);
  }

  // ----- The whole artifact -----

  /** The metadata that comes back when it was dropped: the bare operation, exactly when there is room for it. */
  ghost predicate Restored(kept: Option<Metadata>, original: Option<Metadata>, r: Payload, maxBytes: nat) {
    if original.None? then kept.None?
    else
      var bare := Metadata(original.value.operation, None, None, None, None, None);
      kept == if PayloadBytes(Payload(r.text, r.stdout, r.stderr, Some(bare))) <= maxBytes then Some(bare) else None
  }

  /** Bytes of a payload of this text and the bare operation, the footer behind the text. */
  ghost function TextBytes(a: Payload, footer: string): string -> nat {
    var bare :=
      if a.metadata.None? then None else Some(Metadata(a.metadata.value.operation, None, None, None, None, None));
    (c: string) => PayloadBytes(Payload(c + footer, None, None, bare))
  }

  /**
   * The text that does not fit alone: the longest prefix with the footer that leaves room for the operation, else the
   * longest without the footer, else nothing.
   */
  ghost predicate TextReduced(text: string, a: Payload, maxBytes: nat) {
    var footer := "\n\U{22EF} artifact truncated bytes=" + Decimal(ByteLength(a.text))
                  + " max=" + Decimal(maxBytes) + " \U{22EF}";
    || (exists cut: string :: LongestKept(Some(a.text), Some(cut), TextBytes(a, footer), maxBytes)
                              && text == cut + footer)
    || (LongestKept(Some(a.text), None, TextBytes(a, footer), maxBytes)
        && LongestKept(Some(a.text), Some(text), TextBytes(a, ""), maxBytes))
    || (LongestKept(Some(a.text), None, TextBytes(a, footer), maxBytes)
        && LongestKept(Some(a.text), None, TextBytes(a, ""), maxBytes) && text == "")
  }

  /** Streams and metadata as they are cut before anything is dropped. */
  ghost predicate FieldsReduced(out: Option<string>, err: Option<string>, meta: Option<Metadata>, a: Payload,
                                maxBytes: nat) {
    && LongestKept(a.stdout, out, (c: string) => PayloadBytes(Payload(a.text, Some(c), a.stderr, a.metadata)), maxBytes)
    && LongestKept(a.stderr, err, (c: string) => PayloadBytes(Payload(a.text, out, Some(c), a.metadata)), maxBytes)
    && (a.metadata.None? ==> meta.None?)
    && (a.metadata.Some? ==>
         var cut := Payload(a.text, out, err, a.metadata);
         if meta.Some? then MetadataReduced(meta.value, cut, a.metadata.value, maxBytes)
         else LongestKept(Some(a.metadata.value.operation), None,
                          (c: string) => Beside(cut, Metadata(c, None, None, None, None, None)), maxBytes))
  }

  /** What is dropped: metadata first, then standard error, then standard output, none without need; the text last. */
  ghost predicate Explained(r: Payload, a: Payload, maxBytes: nat, out: Option<string>, err: Option<string>,
                            meta: Option<Metadata>) {
    if PayloadBytes(Payload(a.text, out, err, meta)) <= maxBytes then
      && r.text == a.text && r.stdout == out && r.stderr == err
      && (if meta.Some? then r.metadata == meta else Restored(r.metadata, a.metadata, r, maxBytes))
    else if PayloadBytes(Payload(a.text, out, err, None)) <= maxBytes then
      r.text == a.text && r.stdout == out && r.stderr == err && Restored(r.metadata, a.metadata, r, maxBytes)
    else if PayloadBytes(Payload(a.text, out, None, None)) <= maxBytes then
      r.text == a.text && r.stdout == out && r.stderr.None? && Restored(r.metadata, a.metadata, r, maxBytes)
    else
      && r.stdout.None? && r.stderr.None? && Restored(r.metadata, a.metadata, r, maxBytes)
      && (if PayloadBytes(Payload(a.text, None, None, None)) <= maxBytes then r.text == a.text
          else TextReduced(r.text, a, maxBytes))
  }

  lemma RestoredMeans(r: Payload, p: Payload, original: Option<Metadata>, maxBytes: nat)
    requires r == WithOperation(p, original, maxBytes) && p.metadata.None?
    ensures r.text == p.text && r.stdout == p.stdout && r.stderr == p.stderr
    ensures Restored(r.metadata, original, r, maxBytes)
  {
    if original.Some? {
      assert p.(metadata := Some(Minimal(original.value.operation)))
          == Payload(p.text, p.stdout, p.stderr,
                     Some(Metadata(original.value.operation, None, None, None, None, None)));
    }
  }

  lemma TextMeans(text: string, a: Payload, maxBytes: nat)
    requires BestText(text, a, maxBytes)
    ensures TextReduced(text, a, maxBytes)
  {
    var reserve, footer := Reserve(a), TruncationFooter(ByteLength(a.text), maxBytes);
    TextFits(a, footer, maxBytes);
    TextFits(a, "", maxBytes);
    if cut: string :| LongestFitting(a.text, Footed(reserve, footer, maxBytes), Some(cut)) && text == cut + footer {
      LongestMeans(a.text, Footed(reserve, footer, maxBytes), TextBytes(a, footer), Some(cut), maxBytes);
    } else {
      LongestMeans(a.text, Footed(reserve, footer, maxBytes), TextBytes(a, footer), None, maxBytes);
      if LongestFitting(a.text, Footed(reserve, "", maxBytes), Some(text)) {
        LongestMeans(a.text, Footed(reserve, "", maxBytes), TextBytes(a, ""), Some(text), maxBytes);
      } else {
        LongestMeans(a.text, Footed(reserve, "", maxBytes), TextBytes(a, ""), None, maxBytes);
      }
    }
  }

  lemma TextFits(a: Payload, footer: string, maxBytes: nat)
    ensures forall c :: Footed(Reserve(a), footer, maxBytes)(c) <==> TextBytes(a, footer)(c) <= maxBytes
  {
    forall c ensures Footed(Reserve(a), footer, maxBytes)(c) <==> TextBytes(a, footer)(c) <= maxBytes {
      FootedIs(a, footer, maxBytes, c);
    }
  }

  lemma FootedIs(a: Payload, footer: string, maxBytes: nat, c: string)
    ensures Footed(Reserve(a), footer, maxBytes)(c) <==> TextBytes(a, footer)(c) <= maxBytes
  {
    var text, p := c + footer, Reserve(a);
    assert p.(text := text) == Payload(text, None, None, p.metadata);
  }

  lemma FieldsMean(fields: Payload, streams: Payload, a: Payload, maxBytes: nat)
    requires StreamsFitted(streams, a, maxBytes) && FieldsFitted(fields, streams, maxBytes)
    ensures fields == Payload(a.text, streams.stdout, streams.stderr, fields.metadata)
    ensures FieldsReduced(streams.stdout, streams.stderr, fields.metadata, a, maxBytes)
  {
    StreamsMean(streams, a, maxBytes);
    assert streams == Payload(a.text, streams.stdout, streams.stderr, a.metadata);
    if a.metadata.Some? {
      if fields.metadata.Some? {
        MetadataMeans(fields.metadata.value, streams, a.metadata.value, maxBytes);
      } else {
        LongestMeans(a.metadata.value.operation, Operated(streams, maxBytes),
                     (c: string) => Beside(streams, Metadata(c, None, None, None, None, None)), None, maxBytes);
      }
    }
  }

  /** An artifact that does not fit is reduced as the sizes of its reduced forms require, and no further. */
  lemma BoundArtifactMeans(r: Payload, a: Payload, maxBytes: nat)
    requires BoundForm(r, a, maxBytes) && PayloadBytes(a) > maxBytes
    ensures exists out, err: Option<string>, meta: Option<Metadata> ::
              FieldsReduced(out, err, meta, a, maxBytes) && Explained(r, a, maxBytes, out, err, meta)
  {
    var streams, fields: Payload :|
      && StreamsFitted(streams, a, maxBytes)
      && FieldsFitted(fields, streams, maxBytes)
      && TextFitted(r, Dropped(fields, maxBytes), a, maxBytes);
    FieldsMean(fields, streams, a, maxBytes);
    DropMeans(r, a, maxBytes, fields);
    assert Explained(r, a, maxBytes, streams.stdout, streams.stderr, fields.metadata);
  }

  lemma DropMeans(r: Payload, a: Payload, maxBytes: nat, fields: Payload)
    requires fields.text == a.text && TextFitted(r, Dropped(fields, maxBytes), a, maxBytes)
    requires a.metadata.None? ==> fields.metadata.None?
    ensures Explained(r, a, maxBytes, fields.stdout, fields.stderr, fields.metadata)
  {
    var dropped := Dropped(fields, maxBytes);
    DropOrder(fields, maxBytes);
    if PayloadBytes(dropped) <= maxBytes {
      FieldsKept(r, a, maxBytes, fields);
    } else {
      TextMeans(r.text, a, maxBytes);
      RestoredMeans(r, TextOnly(r.text), a.metadata, maxBytes);
    }
  }

  lemma FieldsKept(r: Payload, a: Payload, maxBytes: nat, fields: Payload)
    requires fields.text == a.text && (a.metadata.None? ==> fields.metadata.None?)
    requires var dropped := Dropped(fields, maxBytes);
             PayloadBytes(dropped) <= maxBytes && r == WithOperation(dropped, a.metadata, maxBytes)
    ensures Explained(r, a, maxBytes, fields.stdout, fields.stderr, fields.metadata)
  {
    var dropped := Dropped(fields, maxBytes);
    DropOrder(fields, maxBytes);
    if dropped.metadata.None? {
      RestoredMeans(r, dropped, a.metadata, maxBytes);
    }
  }

  /** Which fields are left. */
  lemma DropOrder(p: Payload, maxBytes: nat)
    ensures Dropped(p, maxBytes) ==
              if PayloadBytes(Payload(p.text, p.stdout, p.stderr, p.metadata)) <= maxBytes then p
              else if PayloadBytes(Payload(p.text, p.stdout, p.stderr, None)) <= maxBytes
              then Payload(p.text, p.stdout, p.stderr, None)
              else if PayloadBytes(Payload(p.text, p.stdout, None, None)) <= maxBytes
              then Payload(p.text, p.stdout, None, None)
              else Payload(p.text, None, None, None)
  {
    assert p == Payload(p.text, p.stdout, p.stderr, p.metadata);
    assert p.(metadata := None) == Payload(p.text, p.stdout, p.stderr, None);
    assert p.(metadata := None, stderr := None) == Payload(p.text, p.stdout, None, None);
  }

  // ----- Numbers in the footer -----

  /** The value of a decimal numeral. */
  function Numeral(s: string): Option<nat> {
    if s == "" then Some(0)
    else
      match Numeral(s[..|s| - 1])
      case None => None
      case Some(n) => if '0' <= s[|s| - 1] <= '9' then Some(10 * n + (s[|s| - 1] as int - '0' as int)) else None
  }

  /** The footer's numbers are decimal numerals without a needless zero. */
  lemma {:induction false} DecimalMeans(n: nat)
    ensures Decimal(n) != "" && Numeral(Decimal(n)) == Some(n)
    ensures Decimal(n)[0] == '0' ==> n == 0
  {
    if n < 10 {
      assert Decimal(n)[..0] == "";
    } else {
      DecimalMeans(n / 10);
      var s := Decimal(n);
      assert s[..|s| - 1] == Decimal(n / 10);
    }
  }
}
