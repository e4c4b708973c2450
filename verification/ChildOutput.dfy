/**
 * The output of a child: two streams captured on one byte limit, and the text a captured stream becomes.
 */
module ChildOutput {
  import opened Wrappers
  import opened Utf8
  import opened Utf16
  import opened TextCutters

  datatype Target = Stdout | Stderr

  /** One byte of output with the stream it came from. */
  type Output = (Target, byte)

  /** Captured output of both streams on one limit, and everything that went by. */
  datatype Buffer = Buffer(max: nat, stdout: seq<byte>, stderr: seq<byte>, bytes: nat, arrived: seq<Output>)

  function Tagged(target: Target, chunk: seq<byte>): (r: seq<Output>)
    ensures |r| == |chunk| && forall i :: 0 <= i < |r| ==> r[i] == (target, chunk[i])
  {
    seq(|chunk|, i requires 0 <= i < |chunk| => (target, chunk[i]))
  }

  function FromTarget(o: Output, target: Target): seq<byte> {
    if o.0 == target then [o.1] else []
  }

  /** The bytes of one stream, in order of arrival. */
  function Project(outputs: seq<Output>, target: Target): seq<byte> {
    if outputs == [] then []
    else Project(outputs[..|outputs| - 1], target) + FromTarget(outputs[|outputs| - 1], target)
  }

  function First<T>(s: seq<T>, n: nat): seq<T> {
    if |s| <= n then s else s[..n]
  }

  /** The chunk goes over the limit. */
  predicate Cuts(b: Buffer, chunk: seq<byte>) {
    b.bytes + |chunk| > b.max
  }

  function Store(b: Buffer, target: Target, chunk: seq<byte>): Buffer {
    var part := if b.bytes >= b.max then [] else First(chunk, b.max - b.bytes);
    var arrived := b.arrived + Tagged(target, chunk);
    if target.Stdout? then b.(bytes := b.bytes + |part|, stdout := b.stdout + part, arrived := arrived)
    else b.(bytes := b.bytes + |part|, stderr := b.stderr + part, arrived := arrived)
  }

  /** What is kept of both streams is their share of the first `max` bytes that arrived. */
  ghost predicate Captured(b: Buffer) {
    && b.bytes == |First(b.arrived, b.max)|
    && b.stdout == Project(First(b.arrived, b.max), Stdout)
    && b.stderr == Project(First(b.arrived, b.max), Stderr)
  }

  lemma {:induction false} ProjectConcat(a: seq<Output>, b: seq<Output>, target: Target)
    ensures Project(a + b, target) == Project(a, target) + Project(b, target)
  {
    if b == [] {
      assert a + b == a;
    } else {
      assert (a + b)[..|a + b| - 1] == a + b[..|b| - 1];
      ProjectConcat(a, b[..|b| - 1], target);
    }
  }

  lemma {:induction false} ProjectTagged(target: Target, chunk: seq<byte>, other: Target)
    ensures Project(Tagged(target, chunk), other) == if other == target then chunk else []
  {
    if chunk != [] {
      var front := chunk[..|chunk| - 1];
      assert Tagged(target, chunk)[..|chunk| - 1] == Tagged(target, front);
      ProjectTagged(target, front, other);
      assert chunk == front + [chunk[|chunk| - 1]];
    }
  }

  /** The captured bytes stay the first ones, however the output is cut into chunks. */
  lemma StoreCaptures(b: Buffer, target: Target, chunk: seq<byte>)
    requires Captured(b)
    ensures Captured(Store(b, target, chunk))
    ensures |Store(b, target, chunk).arrived| == |b.arrived| + |chunk|
    ensures chunk != [] ==> (Cuts(b, chunk) <==> |b.arrived| + |chunk| > b.max)
  {
    var part := if b.bytes >= b.max then [] else First(chunk, b.max - b.bytes);
    FirstOfMore(b.arrived, Tagged(target, chunk), Tagged(target, part), b.max);
    ProjectConcat(First(b.arrived, b.max), Tagged(target, part), Stdout);
    ProjectConcat(First(b.arrived, b.max), Tagged(target, part), Stderr);
    ProjectTagged(target, part, Stdout);
    ProjectTagged(target, part, Stderr);
  }

  lemma FirstOfMore(arrived: seq<Output>, more: seq<Output>, part: seq<Output>, max: nat)
    requires part == if |arrived| >= max then [] else First(more, max - |arrived|)
    ensures First(arrived + more, max) == First(arrived, max) + part
  {
  }

  // ----- Text -----

  const REPLACEMENT: char := '\U{FFFD}'

  lemma PrefixDecodes(text: string, n: nat)
    ensures Decode(Encode(LongestPrefix(text, n))) == Some(LongestPrefix(text, n))
  {
    DecodeOfEncode(LongestPrefix(text, n));
  }

  /**
   * The text of a captured stream whose output is well formed. The decoder has given out the whole characters; what it
   * holds back is dropped when output was limited and becomes one replacement character otherwise, and the result is
   * fitted to the bytes captured. So it is the longest whole-character prefix, but for a stream that ends three bytes
   * into a character without having met the limit.
   */
  method ResultText(raw: seq<byte>, limited: bool, ghost text: string) returns (r: seq<unit>)
    requires raw <= Encode(text)
    ensures var whole := LongestPrefix(text, |raw|);
            r == Units(if !limited && |raw| - ByteLength(whole) == 3 then whole + [REPLACEMENT] else whole)
    ensures limited || raw == Encode(text) ==> r == Units(LongestPrefix(text, |raw|))
  {
    ghost var prefix := LongestPrefix(text, |raw|);
    LongestPrefixIsLongest(text, |raw|);
    PrefixDecodes(text, |raw|);
    EncodeLength(prefix);
    EncodeLength(text);
    var given := TrimIncompleteUtf8(raw);
    TrimmedIsLongestPrefix(text, raw, given);
    var decoded := Decode(given).value;
    if !limited && |given| < |raw| {
      decoded := decoded + [REPLACEMENT];
    }
    r := FitTextToByteLimit(Units(decoded), |raw|);
    ghost var n :| LongestFront(Units(decoded), |raw|, n) && r == Units(decoded)[..WholeCut(Units(decoded), n)];
    FrontIsLongestPrefix(decoded, |raw|, n);
    FittedReplacement(text, prefix, |raw|, decoded);
  }

  lemma FittedReplacement(text: string, prefix: string, n: nat, decoded: string)
    requires prefix == LongestPrefix(text, n) && n <= ByteLength(text)
    requires decoded == prefix || (ByteLength(prefix) < n && decoded == prefix + [REPLACEMENT])
    ensures LongestPrefix(decoded, n) == if decoded == prefix || n - ByteLength(prefix) < 3 then prefix else decoded
    ensures n - ByteLength(prefix) <= 3
    ensures n == ByteLength(text) ==> prefix == text
  {
    LongestPrefixIsLongest(text, n);
    var k := |prefix|;
    assert text[..|text|] == text && text[..k] == prefix;
    if k < |text| {
      ByteLengthStep(text, k);
    }
    assert decoded[..k] == prefix;
    if decoded == prefix {
      LongestPrefixFromNeighbour(decoded, k, n);
    } else {
      ReplacementFits(prefix, n);
    }
  }

  /** Behind whole characters the replacement needs three bytes. */
  lemma ReplacementFits(prefix: string, n: nat)
    requires ByteLength(prefix) <= n <= ByteLength(prefix) + 3
    ensures LongestPrefix(prefix + [REPLACEMENT], n) == if n - ByteLength(prefix) < 3 then prefix
                                                        else prefix + [REPLACEMENT]
  {
    var decoded, k := prefix + [REPLACEMENT], |prefix|;
    EncodeConcat(prefix, [REPLACEMENT]);
    assert decoded[..k] == prefix && decoded[..k + 1] == decoded;
    assert ByteLength([REPLACEMENT]) == 3;
    LongestPrefixFromNeighbour(decoded, if n - ByteLength(prefix) < 3 then k else k + 1, n);
  }
}
