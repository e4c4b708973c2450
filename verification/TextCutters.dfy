/**
 * The byte-limited text cutters, each written out as its own loop, and one specification they all meet:
 * the longest prefix of whole characters that fits (or, for the standard-error tail, the longest suffix).
 */
module TextCutters {
  import opened Wrappers
  import opened Utf8
  import opened Utf16

  // ----- Specification -----

  /** k characters fit in max bytes and no larger number does (max < 0 leaves nothing). */
  ghost predicate IsLongestPrefix(s: string, k: nat, max: int) {
    && k <= |s|
    && (ByteLength(s[..k]) <= max || k == 0)
    && forall j :: k < j <= |s| ==> ByteLength(s[..j]) > max
  }

  function LongestPrefix(s: string, max: int): string {
    if s == "" || Width(s[0]) > max then "" else [s[0]] + LongestPrefix(s[1..], max - Width(s[0]))
  }

  function LongestSuffix(s: string, max: int): string {
    if ByteLength(s) <= max || s == "" then s else LongestSuffix(s[1..], max)
  }

  lemma {:induction false} LongestPrefixIsLongest(s: string, max: int)
    ensures LongestPrefix(s, max) <= s
    ensures IsLongestPrefix(s, |LongestPrefix(s, max)|, max)
  {
    if s != "" {
      ByteLengthFirst(s);
      if Width(s[0]) <= max {
        LongestPrefixIsLongest(s[1..], max - Width(s[0]));
        var k := |LongestPrefix(s, max)|;
        assert s[..k][1..] == s[1..][..k - 1];
        forall j | k < j <= |s| ensures ByteLength(s[..j]) > max {
          assert s[..j][1..] == s[1..][..j - 1];
        }
      }
    }
  }

  lemma ByteLengthFirst(s: string)
    requires s != ""
    ensures forall j :: 1 <= j <= |s| ==> ByteLength(s[..j]) >= Width(s[0])
  {
    forall j | 1 <= j <= |s| ensures ByteLength(s[..j]) >= Width(s[0]) {
      assert s[..j][0] == s[0];
    }
  }

  /** The specification determines the cut. */
  lemma LongestPrefixUnique(s: string, k: nat, max: int)
    requires IsLongestPrefix(s, k, max)
    ensures LongestPrefix(s, max) == s[..k]
  {
    LongestPrefixIsLongest(s, max);
    assert s[..|LongestPrefix(s, max)|] == LongestPrefix(s, max);
  }

  /** It suffices that k characters fit and one more does not. */
  lemma LongestPrefixFromNeighbour(s: string, k: nat, max: int)
    requires k <= |s| && (ByteLength(s[..k]) <= max || k == 0)
    requires k < |s| ==> ByteLength(s[..k + 1]) > max
    ensures LongestPrefix(s, max) == s[..k]
  {
    forall j | k < j <= |s| ensures ByteLength(s[..j]) > max {
      ByteLengthMonotone(s, k + 1, j);
    }
    LongestPrefixUnique(s, k, max);
  }

  /** Where the longest suffix that fits begins. */
  lemma {:induction false} LongestSuffixIsLongest(s: string, max: nat) returns (i: nat)
    ensures i <= |s| && LongestSuffix(s, max) == s[i..] && ByteLength(s[i..]) <= max
    ensures forall j :: 0 <= j < i ==> ByteLength(s[j..]) > max
  {
    if ByteLength(s) <= max {
      i := 0;
      assert s[0..] == s;
    } else {
      var t := s[1..];
      var k := LongestSuffixIsLongest(t, max);
      i := k + 1;
      assert t[k..] == s[i..];
      forall j | 0 <= j < i ensures ByteLength(s[j..]) > max {
        if j > 0 {
          assert t[j - 1..] == s[j..];
        } else {
          assert s[0..] == s;
        }
      }
    }
  }

  // ----- Binary search over code units (local-tools.ts and subprocess.ts) -----

  /** The longest front of the units that takes at most maxBytes ends after n of them (none when nothing fits). */
  ghost predicate LongestFront(value: seq<unit>, maxBytes: int, n: nat) {
    && n <= |value|
    && (n > 0 ==> UnitByteLength(value[..n]) <= maxBytes)
    && forall i :: n < i <= |value| ==> UnitByteLength(value[..i]) > maxBytes
  }

  /** Where a front of n units is cut: not behind a high surrogate, unless nothing follows it. */
  function WholeCut(value: seq<unit>, n: nat): (k: nat)
    requires n <= |value|
    ensures k <= n
  {
    if 0 < n < |value| && HighSurrogate(value[n - 1]) then n - 1 else n
  }

  /** Any units, well formed or not. */
  method FitTextToByteLimit(value: seq<unit>, maxBytes: int) returns (r: seq<unit>)
    ensures exists n :: LongestFront(value, maxBytes, n) && r == value[..WholeCut(value, n)]
    ensures maxBytes >= 0 ==> UnitByteLength(r) <= maxBytes
  {
    if UnitByteLength(value) <= maxBytes {
      assert value[..|value|] == value;
      assert LongestFront(value, maxBytes, |value|) && WholeCut(value, |value|) == |value|;
      return value;
    }
    var low, high := 0, |value|;
    while low < high
      invariant 0 <= low <= high <= |value|
      invariant low == 0 || UnitByteLength(value[..low]) <= maxBytes
      invariant forall i :: high < i <= |value| ==> UnitByteLength(value[..i]) > maxBytes
    {
      var middle := (low + high + 1) / 2;
      if UnitByteLength(value[..middle]) <= maxBytes {
        low := middle;
      } else {
        forall i | middle <= i <= |value| ensures UnitByteLength(value[..i]) > maxBytes {
          UnitByteLengthMonotone(value, middle, i);
        }
        high := middle - 1;
      }
    }
    ghost var n := low;
    assert LongestFront(value, maxBytes, n);
    if low > 0 && low < |value| && HighSurrogate(value[low - 1]) {
      low := low - 1;
    }
    assert low == WholeCut(value, n);
    UnitByteLengthMonotone(value, low, n);
    return value[..low];
  }

  /** On well-formed text the cut is the longest prefix of whole characters. */
  lemma FrontIsLongestPrefix(text: string, maxBytes: int, n: nat)
    requires LongestFront(Units(text), maxBytes, n)
    ensures Units(text)[..WholeCut(Units(text), n)] == Units(LongestPrefix(text, maxBytes))
  {
    var value, k := Units(text), WholeChars(text, n);
    CutUnits(text, n);
    UnitByteLengthOfText(text);
    assert value[..|value|] == value && text[..|text|] == text;
    UnitsSplit(text, k);
    if k < |text| {
      UnitsStep(text, k);
      UnitsSplit(text, k + 1);
    }
    var cut := WholeCut(value, n);
    assert cut == |Units(text[..k])|;
    assert UnitByteLength(value[..cut]) == ByteLength(text[..k]) by {
      CutUnits(text, cut);
      WholeCharsAt(text, k);
    }
    if k < |text| {
      NextCharacterDoesNotFit(text, k, maxBytes);
    }
    LongestPrefixFromNeighbour(text, k, maxBytes);
  }

  lemma {:induction false} WholeCharsAt(s: string, k: nat)
    requires k <= |s|
    ensures WholeChars(s, |Units(s[..k])|) == k
  {
    if k > 0 {
      assert s[..k][1..] == s[1..][..k - 1];
      WholeCharsAt(s[1..], k - 1);
    } else {
      assert s[..0] == "";
    }
  }

  /** If the unit prefix that ends after the next character does not fit, that character does not. */
  lemma NextCharacterDoesNotFit(s: string, k: nat, max: int)
    requires k < |s|
    requires |Units(s[..k + 1])| <= |Units(s)| ==> UnitByteLength(Units(s)[..|Units(s[..k + 1])|]) > max
    ensures ByteLength(s[..k + 1]) > max
  {
    UnitsSplit(s, k + 1);
    WholeCharsAt(s, k + 1);
    CutUnits(s, |Units(s[..k + 1])|);
  }

  // ----- One pass over code points (logging.ts) -----

  method TruncateUtf8(value: string, maxBytes: nat) returns (r: seq<unit>)
    ensures r == Units(LongestPrefix(value, maxBytes))
  {
    if |Encode(value)| <= maxBytes {
      EncodeLength(value);
      assert value[..|value|] == value;
      LongestPrefixFromNeighbour(value, |value|, maxBytes);
      return Units(value);
    }
    var byteLength, end, index := 0, 0, 0;
    while index < |value|
      invariant 0 <= index <= |value|
      invariant byteLength == ByteLength(value[..index]) <= maxBytes
      invariant end == |Units(value[..index])|
    {
      var codePointBytes := Width(value[index]);
      ByteLengthStep(value, index);
      UnitsStep(value, index);
      if byteLength + codePointBytes > maxBytes {
        break;
      }
      byteLength := byteLength + codePointBytes;
      end := end + |CharUnits(value[index])|;
      index := index + 1;
    }
    LongestPrefixFromNeighbour(value, index, maxBytes);
    UnitsSplit(value, index);
    return Units(value)[..end];
  }

  // ----- Stepping back from a byte cut until it decodes (retrieve.ts) -----

  method Utf8Prefix(value: string, maxBytes: int) returns (r: string)
    ensures r == LongestPrefix(value, maxBytes)
  {
    if maxBytes <= 0 {
      LongestPrefixOfNothing(value, maxBytes);
      return "";
    }
    var bytes := Encode(value);
    EncodeLength(value);
    assert value[..|value|] == value;
    if |bytes| <= maxBytes {
      LongestPrefixFromNeighbour(value, |value|, maxBytes);
      return value;
    }
    ghost var k := |LongestPrefix(value, maxBytes)|;
    LongestPrefixIsLongest(value, maxBytes);
    var end := maxBytes;
    while end >= 0
      invariant ByteLength(value[..k]) <= end <= maxBytes
      decreases end
    {
      DecodeOfCut(value, end);
      match Decode(bytes[..end])
      case Some(text) =>
        ghost var j :| 0 <= j <= |value| && ByteLength(value[..j]) == end;
        if j < k { ByteLengthMonotone(value, j, k); }
        assert j == k;
        return text;
      case None =>
        end := end - 1;
    }
    return "";
  }

  lemma LongestPrefixOfNothing(s: string, max: int)
    requires max <= 0
    ensures LongestPrefix(s, max) == ""
  {
  }

  // ----- Dropping an incomplete sequence at the end of a byte cut (local-tools.ts) -----

  /** The last sequence begins at p and announces more bytes than are there. */
  predicate Incomplete(buffer: seq<byte>, p: nat) {
    && p < |buffer| < p + LeadLength(buffer[p])
    && !Continuation(buffer[p])
    && forall i :: p < i < |buffer| ==> Continuation(buffer[i])
  }

  /** Any bytes, well formed or not: what is dropped is exactly an incomplete last sequence. */
  method TrimIncompleteUtf8(buffer: seq<byte>) returns (r: seq<byte>)
    ensures r <= buffer
    ensures if r == buffer then forall p :: !Incomplete(buffer, p) else Incomplete(buffer, |r|)
  {
    var leadIndex, scanned := |buffer|, 0;
    while leadIndex > 0 && scanned < 4 && Continuation(buffer[leadIndex - 1])
      invariant scanned == |buffer| - leadIndex && 0 <= leadIndex
      invariant forall i :: leadIndex <= i < |buffer| ==> Continuation(buffer[i])
    {
      leadIndex, scanned := leadIndex - 1, scanned + 1;
    }
    if leadIndex == 0 {
      return buffer;
    }
    var leadByte := buffer[leadIndex - 1];
    var sequenceLength := LeadLength(leadByte);
    var availableBytes := |buffer| - (leadIndex - 1);
    if sequenceLength > 1 && availableBytes < sequenceLength {
      return buffer[..leadIndex - 1];
    }
    return buffer;
  }

  /** A cut of well-formed text is trimmed to the longest prefix of whole characters. */
  lemma TrimmedIsLongestPrefix(text: string, buffer: seq<byte>, r: seq<byte>)
    requires buffer <= Encode(text) && r <= buffer
    requires if r == buffer then forall p :: !Incomplete(buffer, p) else Incomplete(buffer, |r|)
    ensures r == Encode(LongestPrefix(text, |buffer|))
  {
    var k := |LongestPrefix(text, |buffer|)|;
    LongestPrefixIsLongest(text, |buffer|);
    EncodeSplit(text, k);
    assert text[..k] == LongestPrefix(text, |buffer|);
    if buffer != [] {
      var p := LastLead(text, k, buffer);
      if ByteLength(text[..k]) == |buffer| {
        assert r != buffer ==> p == |r|;
      } else {
        assert Incomplete(buffer, p);
        assert p == |r|;
      }
      assert |r| == ByteLength(text[..k]);
    }
  }

  /** Position of the last lead byte of a cut: the cut ends inside or right after the character it begins. */
  lemma LastLead(text: string, k: nat, buffer: seq<byte>) returns (p: nat)
    requires buffer <= Encode(text) && buffer != []
    requires IsLongestPrefix(text, k, |buffer|)
    ensures p < |buffer| <= p + 4
    ensures !Continuation(buffer[p]) && forall i :: p < i < |buffer| ==> Continuation(buffer[i])
    ensures if ByteLength(text[..k]) == |buffer| then |buffer| == p + LeadLength(buffer[p])
            else p == ByteLength(text[..k]) && |buffer| < p + LeadLength(buffer[p])
  {
    EncodeSplit(text, k);
    var m := if ByteLength(text[..k]) == |buffer| then k - 1 else k;
    assert text[..|text|] == text;
    EncodeSplit(text, m);
    ByteLengthStep(text, m);
    p := ByteLength(text[..m]);
    EncodedCharShape(text[m]);
    assert Encode(text[m..]) == EncodeChar(text[m]) + Encode(text[m..][1..]);
    forall i | 0 <= i < |buffer| - p ensures buffer[p + i] == EncodeChar(text[m])[i] {
      assert Encode(text)[p..][i] == buffer[p + i];
    }
  }

  // ----- The rolling tail of standard error (upstream.ts) -----

  method BoundedText(value: string, maxBytes: int) returns (r: string)
    ensures r == if maxBytes <= 0 then "" else LongestSuffix(value, maxBytes)
  {
    if maxBytes <= 0 {
      return "";
    }
    var bytes := Encode(value);
    EncodeLength(value);
    if |bytes| <= maxBytes {
      return value;
    }
    ghost var i := LongestSuffixIsLongest(value, maxBytes);
    EncodeSplit(value, i);
    var offset := |bytes| - maxBytes;
    while offset < |bytes|
      invariant |bytes| - maxBytes <= offset <= ByteLength(value[..i])
    {
      match Decode(bytes[offset..])
      case Some(text) =>
        ghost var j := SuffixCut(value, offset);
        EncodeSplit(value, j);
        if i < j { ByteLengthMonotone(value, i, j); }
        return text;
      case None =>
        if offset == ByteLength(value[..i]) {
          DecodeOfEncode(value[i..]);
        }
        offset := offset + 1;
    }
    return "";
  }

  lemma InsideCharacterDoesNotDecode(s: string, offset: nat)
    requires s != "" && 0 < offset < Width(s[0])
    ensures offset < |Encode(s)| && Decode(Encode(s)[offset..]) == None
  {
    EncodedCharShape(s[0]);
    assert Encode(s)[offset..][0] == EncodeChar(s[0])[offset];
  }

  /** A suffix of encoded text that decodes begins at a character. */
  lemma SuffixCut(s: string, offset: nat) returns (j: nat)
    requires offset <= |Encode(s)| && Decode(Encode(s)[offset..]).Some?
    ensures j <= |s| && ByteLength(s[..j]) == offset && Decode(Encode(s)[offset..]) == Some(s[j..])
  {
    EncodeLength(s);
    if offset == 0 {
      DecodeOfEncode(s);
      j := 0;
      assert s[0..] == s;
    } else {
      StartsLater(s, offset);
      var k := SuffixCut(s[1..], offset - Width(s[0]));
      PrefixTail(s, k);
      j := k + 1;
    }
  }

  lemma StartsLater(s: string, offset: nat)
    requires 0 < offset <= |Encode(s)| && Decode(Encode(s)[offset..]).Some?
    ensures s != "" && Width(s[0]) <= offset && Encode(s)[offset..] == Encode(s[1..])[offset - Width(s[0])..]
  {
    if offset < Width(s[0]) {
      InsideCharacterDoesNotDecode(s, offset);
    }
    EncodedTail(s, offset);
  }

  lemma EncodedTail(s: string, offset: nat)
    requires s != "" && Width(s[0]) <= offset <= |Encode(s)|
    ensures Encode(s)[offset..] == Encode(s[1..])[offset - Width(s[0])..]
  {
  }

  lemma PrefixTail(s: string, k: nat)
    requires k < |s|
    ensures ByteLength(s[..k + 1]) == Width(s[0]) + ByteLength(s[1..][..k]) && s[1..][k..] == s[k + 1..]
  {
    assert s[..k + 1][1..] == s[1..][..k];
  }

  const STDERR_TAIL_BYTES: nat := 16 * 1024

  function Concat(parts: seq<string>): string {
    if parts == [] then "" else parts[0] + Concat(parts[1..])
  }

  class StderrTail {
    var values: seq<string>

    constructor ()
      ensures values == []
    {
      values := [];
    }

    /** The tail after appending is the longest suffix of the old tail followed by the new text. */
    method AppendTail(value: string)
      modifies this
      ensures Concat(values) == LongestSuffix(Concat(old(values)) + value, STDERR_TAIL_BYTES)
    {
      EncodeLength(value);
      var source := if |Encode(value)| >= STDERR_TAIL_BYTES then value else Concat(values) + value;
      if |Encode(value)| >= STDERR_TAIL_BYTES {
        ForgottenPrefix(Concat(values), value, STDERR_TAIL_BYTES);
      }
      var bounded := BoundedText(source, STDERR_TAIL_BYTES);
      values := [bounded];
      assert values[1..] == [];
    }
  }

  lemma LongestSuffixDropsFirst(c: char, s: string, max: nat)
    requires ByteLength([c] + s) > max
    ensures LongestSuffix([c] + s, max) == LongestSuffix(s, max)
  {
    assert ([c] + s)[1..] == s;
  }

  /** Text in front of a suffix that already fills the limit does not matter. */
  lemma {:induction false} ForgottenPrefix(front: string, back: string, max: nat)
    requires ByteLength(back) >= max
    ensures LongestSuffix(front + back, max) == LongestSuffix(back, max)
  {
    if front == "" {
      assert front + back == back;
    } else {
      var c, rest := front[0], front[1..];
      assert front == [c] + rest;
      ForgottenPrefix(rest, back, max);
      EncodeConcat(front, back);
      Reassociate(c, rest, back);
      LongestSuffixDropsFirst(c, rest + back, max);
    }
  }

  lemma Reassociate(c: char, rest: string, back: string)
    ensures ([c] + rest) + back == [c] + (rest + back)
  {
  }

  /** Bounding early and bounding late give the same tail. */
  lemma {:induction false} TailAbsorbs(all: string, value: string, max: nat)
    ensures LongestSuffix(LongestSuffix(all, max) + value, max) == LongestSuffix(all + value, max)
  {
    if ByteLength(all) <= max || all == "" {
      assert LongestSuffix(all, max) == all;
    } else {
      var rest := all[1..];
      assert all == [all[0]] + rest;
      assert all + value == [all[0]] + (rest + value);
      TailAbsorbs(rest, value, max);
      LongestSuffixDropsFirst(all[0], rest, max);
      assert ByteLength(all + value) > max by { EncodeConcat(all, value); }
      LongestSuffixDropsFirst(all[0], rest + value, max);
    }
  }

  /** The tail after a run of appends. */
  function TailAfter(appended: seq<string>): string {
    if appended == [] then ""
    else LongestSuffix(TailAfter(appended[..|appended| - 1]) + appended[|appended| - 1], STDERR_TAIL_BYTES)
  }

  /** However the output was chunked, the rolling tail is the longest whole-character suffix of all of it. */
  lemma {:induction false} RollingTailIsLongestSuffix(appended: seq<string>)
    ensures TailAfter(appended) == LongestSuffix(Concat(appended), STDERR_TAIL_BYTES)
  {
    if appended != [] {
      var n := |appended| - 1;
      RollingTailIsLongestSuffix(appended[..n]);
      TailAbsorbs(Concat(appended[..n]), appended[n], STDERR_TAIL_BYTES);
      ConcatLast(appended);
    }
  }

  lemma {:induction false} ConcatLast(parts: seq<string>)
    requires parts != []
    ensures Concat(parts) == Concat(parts[..|parts| - 1]) + parts[|parts| - 1]
  {
    var n := |parts| - 1;
    if n > 0 {
      ConcatLast(parts[1..]);
      assert parts[1..][..n - 1] == parts[..n][1..];
    } else {
      assert parts[1..] == [] && parts[..0] == [];
    }
  }
}
