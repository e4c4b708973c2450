/** Text as the programs see it: Unicode scalar strings, their UTF-8 bytes and their UTF-16 code units. */
module Utf8 {
  import opened Wrappers

  type byte = x: int | 0 <= x < 0x100

  /** Number of bytes one scalar takes in UTF-8. */
  function Width(c: char): (w: nat)
    ensures 1 <= w <= 4
  {
    if c as int < 0x80 then 1
    else if c as int < 0x800 then 2
    else if c as int < 0x1_0000 then 3
    else 4
  }

  predicate Continuation(b: byte) {
    0x80 <= b < 0xC0
  }

  function EncodeChar(c: char): (b: seq<byte>)
    ensures |b| == Width(c)
  {
    var n := c as int;
    if n < 0x80 then [n]
    else if n < 0x800 then [0xC0 + n / 0x40, 0x80 + n % 0x40]
    else if n < 0x1_0000 then [0xE0 + n / 0x1000, 0x80 + n / 0x40 % 0x40, 0x80 + n % 0x40]
    else [0xF0 + n / 0x4_0000, 0x80 + n / 0x1000 % 0x40, 0x80 + n / 0x40 % 0x40, 0x80 + n % 0x40]
  }

  function Encode(s: string): seq<byte> {
    if s == "" then [] else EncodeChar(s[0]) + Encode(s[1..])
  }

  function ByteLength(s: string): nat {
    if s == "" then 0 else Width(s[0]) + ByteLength(s[1..])
  }

  predicate IsScalar(n: int) {
    0 <= n < 0xD800 || 0xE000 <= n < 0x11_0000
  }

  /** Appends the six payload bits of a continuation byte. */
  function JoinBits(high: nat, b: byte): (n: nat)
    requires Continuation(b)
    ensures n / 0x40 == high && n % 0x40 == b - 0x80
  {
    high * 0x40 + (b - 0x80)
  }

  /** The scalar at the front of b and the bytes it takes, under the strict rules of RFC 3629. */
  function DecodeChar(b: seq<byte>): (r: Option<(char, nat)>)
    ensures r.Some? ==> 1 <= r.value.1 <= |b|
  {
    if |b| >= 1 && b[0] < 0x80 then Some((b[0] as char, 1))
    else if |b| >= 2 && 0xC2 <= b[0] < 0xE0 && Continuation(b[1]) then
      Some((JoinBits(b[0] - 0xC0, b[1]) as char, 2))
    else if |b| >= 3 && 0xE0 <= b[0] < 0xF0 && Continuation(b[1]) && Continuation(b[2]) then
      var n := JoinBits(JoinBits(b[0] - 0xE0, b[1]), b[2]);
      if n >= 0x800 && IsScalar(n) then Some((n as char, 3)) else None
    else if |b| >= 4 && 0xF0 <= b[0] < 0xF5 && Continuation(b[1]) && Continuation(b[2]) && Continuation(b[3]) then
      var n := JoinBits(JoinBits(JoinBits(b[0] - 0xF0, b[1]), b[2]), b[3]);
      if n >= 0x1_0000 && IsScalar(n) then Some((n as char, 4)) else None
    else None
  }

  /** A decoder that fails on the first malformed sequence, as `TextDecoder` with `fatal: true` does. */
  function Decode(b: seq<byte>): Option<string> {
    if b == [] then Some("")
    else
      match DecodeChar(b)
      case None => None
      case Some((c, n)) =>
        match Decode(b[n..])
        case None => None
        case Some(rest) => Some([c] + rest)
  }

  // ----- Round trips -----

  lemma DecodeCharOfEncoding(c: char, rest: seq<byte>)
    ensures DecodeChar(EncodeChar(c) + rest) == Some((c, Width(c)))
  {
    DivideTwice(c as int);
    var b := EncodeChar(c) + rest;
    assert forall i :: 0 <= i < Width(c) ==> b[i] == EncodeChar(c)[i];
  }

  lemma EncodeOfDecodedChar(b: seq<byte>)
    requires DecodeChar(b).Some?
    ensures var (c, n) := DecodeChar(b).value; EncodeChar(c) == b[..n]
  {
    DivideTwice(DecodeChar(b).value.0 as int);
  }

  lemma DivideTwice(n: nat)
    ensures n / 0x1000 == n / 0x40 / 0x40
    ensures n / 0x4_0000 == n / 0x1000 / 0x40
  {
  }

  /** Decoding what was encoded gives the text back. */
  lemma {:induction false} DecodeOfEncode(s: string)
    ensures Decode(Encode(s)) == Some(s)
  {
    if s != "" {
      DecodeCharOfEncoding(s[0], Encode(s[1..]));
      assert Encode(s)[Width(s[0])..] == Encode(s[1..]);
      DecodeOfEncode(s[1..]);
      assert [s[0]] + s[1..] == s;
    }
  }

  /** Whatever the strict decoder accepts is the encoding of its result. */
  lemma {:induction false} EncodeOfDecode(b: seq<byte>)
    requires Decode(b).Some?
    ensures Encode(Decode(b).value) == b
  {
    if b != [] {
      var (c, n) := DecodeChar(b).value;
      EncodeOfDecodedChar(b);
      EncodeOfDecode(b[n..]);
      EncodeFirst(c, Decode(b[n..]).value);
      assert b == b[..n] + b[n..];
    }
  }

  lemma EncodeFirst(c: char, rest: string)
    ensures Encode([c] + rest) == EncodeChar(c) + Encode(rest)
  {
    assert ([c] + rest)[1..] == rest;
  }

  /** UTF-8 encoding is injective. */
  lemma EncodeInjective(s: string, t: string)
    requires Encode(s) == Encode(t)
    ensures s == t
  {
    DecodeOfEncode(s);
    DecodeOfEncode(t);
  }

  // ----- Lengths and prefixes -----

  lemma {:induction false} EncodeLength(s: string)
    ensures |Encode(s)| == ByteLength(s)
  {
    if s != "" {
      EncodeLength(s[1..]);
    }
  }

  lemma {:induction false} EncodeConcat(s: string, t: string)
    ensures Encode(s + t) == Encode(s) + Encode(t)
    ensures ByteLength(s + t) == ByteLength(s) + ByteLength(t)
  {
    if s == "" {
      assert s + t == t;
    } else {
      assert (s + t)[1..] == s[1..] + t;
      EncodeConcat(s[1..], t);
    }
  }

  /** Cutting a text after k characters cuts its bytes after ByteLength of those characters. */
  lemma EncodeSplit(s: string, k: nat)
    requires k <= |s|
    ensures ByteLength(s[..k]) + ByteLength(s[k..]) == ByteLength(s) == |Encode(s)|
    ensures Encode(s[..k]) == Encode(s)[..ByteLength(s[..k])]
    ensures Encode(s[k..]) == Encode(s)[ByteLength(s[..k])..]
  {
    assert s[..k] + s[k..] == s;
    EncodeConcat(s[..k], s[k..]);
    EncodeLength(s[..k]);
    EncodeLength(s);
  }

  lemma ByteLengthStep(s: string, k: nat)
    requires k < |s|
    ensures ByteLength(s[..k + 1]) == ByteLength(s[..k]) + Width(s[k])
    ensures ByteLength(s[k..]) == Width(s[k]) + ByteLength(s[k + 1..])
  {
    assert s[..k + 1] == s[..k] + [s[k]];
    EncodeConcat(s[..k], [s[k]]);
  }

  lemma {:induction false} ByteLengthMonotone(s: string, j: nat, k: nat)
    requires j <= k <= |s|
    ensures ByteLength(s[..j]) + (k - j) <= ByteLength(s[..k])
    decreases k - j
  {
    if j < k {
      ByteLengthStep(s, k - 1);
      ByteLengthMonotone(s, j, k - 1);
    }
  }

  /** UTF-8 is a prefix code: an encoded text starts with another only when the text does. */
  lemma {:induction false} PrefixCode(t: string, s: string)
    requires Encode(t) <= Encode(s)
    ensures t <= s
  {
    if t != "" {
      EncodeLength(s);
      EncodeLength(t);
      DecodeCharOfEncoding(t[0], Encode(t[1..]) + Encode(s)[|Encode(t)|..]);
      assert EncodeChar(t[0]) + (Encode(t[1..]) + Encode(s)[|Encode(t)|..]) == Encode(s);
      assert s != "";
      DecodeCharOfEncoding(s[0], Encode(s[1..]));
      assert Encode(t[1..]) == Encode(t)[Width(t[0])..];
      assert Encode(s[1..]) == Encode(s)[Width(s[0])..];
      PrefixCode(t[1..], s[1..]);
    }
  }

  /** A cut of encoded text decodes exactly when it falls between two characters. */
  lemma DecodeOfCut(s: string, n: nat)
    requires n <= |Encode(s)|
    ensures Decode(Encode(s)[..n]).Some? <==> exists k :: 0 <= k <= |s| && ByteLength(s[..k]) == n
    ensures forall k :: 0 <= k <= |s| && ByteLength(s[..k]) == n ==> Decode(Encode(s)[..n]) == Some(s[..k])
  {
    forall k | 0 <= k <= |s| && ByteLength(s[..k]) == n
      ensures Decode(Encode(s)[..n]) == Some(s[..k])
    {
      EncodeSplit(s, k);
      DecodeOfEncode(s[..k]);
    }
    match Decode(Encode(s)[..n])
    case None =>
    case Some(t) =>
      EncodeOfDecode(Encode(s)[..n]);
      PrefixCode(t, s);
      EncodeLength(t);
      assert s[..|t|] == t;
      assert ByteLength(s[..|t|]) == n;
  }

  /**
   * Encoded text begins with a lead byte and never with a continuation byte; inside a character only continuation bytes
   * follow.
   */
  lemma EncodedCharShape(c: char)
    ensures !Continuation(EncodeChar(c)[0])
    ensures forall i :: 1 <= i < Width(c) ==> Continuation(EncodeChar(c)[i])
    ensures Width(c) == LeadLength(EncodeChar(c)[0])
  {
  }

  /** The table of RFC 3629, section 3, with the lead ranges and payload weights in plain numbers. */
  lemma EncodedCharTable(c: char)
    ensures var b := EncodeChar(c);
            var n := c as int;
            && (|b| == 1 <==> n <= 127) && (|b| == 2 <==> 128 <= n <= 2047)
            && (|b| == 3 <==> 2048 <= n <= 65535) && (|b| == 4 <==> n >= 65536)
            && (forall i :: 1 <= i < |b| ==> 128 <= b[i] <= 191)
            && (|b| == 1 ==> b[0] as int == n)
            && (|b| == 2 ==> 192 <= b[0] <= 223 && n == (b[0] as int - 192) * 64 + (b[1] as int - 128))
            && (|b| == 3 ==> 224 <= b[0] <= 239
                             && n == (b[0] as int - 224) * 4096 + (b[1] as int - 128) * 64 + (b[2] as int - 128))
            && (|b| == 4 ==> 240 <= b[0] <= 247
                             && n == (b[0] as int - 240) * 262144 + (b[1] as int - 128) * 4096
                                     + (b[2] as int - 128) * 64 + (b[3] as int - 128))
  {
    DivideTwice(c as int);
  }

  /** Sequence length a lead byte announces. */
  function LeadLength(b: byte): nat {
    if b >= 0xF0 then 4 else if b >= 0xE0 then 3 else if b >= 0xC0 then 2 else 1
  }
}
