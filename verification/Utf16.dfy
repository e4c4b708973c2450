/** UTF-16 code units: what a JavaScript string is made of, and the byte length the runtime reports for it. */
module Utf16 {
  import opened Utf8

  type unit = x: int | 0 <= x < 0x1_0000

  predicate HighSurrogate(u: unit) { 0xD800 <= u < 0xDC00 }

  predicate LowSurrogate(u: unit) { 0xDC00 <= u < 0xE000 }

  function CharUnits(c: char): (u: seq<unit>)
    ensures |u| == 1 || |u| == 2
  {
    var n := c as int;
    if n < 0x1_0000 then [n] else [0xD800 + (n - 0x1_0000) / 0x400, 0xDC00 + n % 0x400]
  }

  function Units(s: string): seq<unit> {
    if s == "" then [] else CharUnits(s[0]) + Units(s[1..])
  }

  /** UTF-8 length of any unit sequence; an unpaired surrogate counts as U+FFFD, three bytes. */
  function UnitByteLength(u: seq<unit>): nat {
    if u == [] then 0
    else if |u| >= 2 && HighSurrogate(u[0]) && LowSurrogate(u[1]) then 4 + UnitByteLength(u[2..])
    else (if u[0] < 0x80 then 1 else if u[0] < 0x800 then 2 else 3) + UnitByteLength(u[1..])
  }

  /** How many whole characters the first i units of Units(s) contain. */
  function WholeChars(s: string, i: nat): (k: nat)
    ensures k <= |s|
  {
    if s == "" || |CharUnits(s[0])| > i then 0 else 1 + WholeChars(s[1..], i - |CharUnits(s[0])|)
  }

  lemma {:induction false} UnitsConcat(s: string, t: string)
    ensures Units(s + t) == Units(s) + Units(t)
  {
    if s == "" {
      assert s + t == t;
    } else {
      assert (s + t)[1..] == s[1..] + t;
      UnitsConcat(s[1..], t);
    }
  }

  lemma UnitsStep(s: string, k: nat)
    requires k < |s|
    ensures Units(s[..k + 1]) == Units(s[..k]) + CharUnits(s[k])
  {
    assert s[..k + 1] == s[..k] + [s[k]];
    UnitsConcat(s[..k], [s[k]]);
  }

  lemma UnitsSplit(s: string, k: nat)
    requires k <= |s|
    ensures |Units(s[..k])| <= |Units(s)|
    ensures Units(s)[..|Units(s[..k])|] == Units(s[..k])
  {
    assert s[..k] + s[k..] == s;
    UnitsConcat(s[..k], s[k..]);
  }

  /** The first i units are k whole characters, or those and half of a surrogate pair; the byte length says which. */
  ghost predicate CutAfter(s: string, i: nat, k: nat)
    requires i <= |Units(s)| && k <= |s|
  {
    var b := |Units(s[..k])|;
    && b <= i <= b + 1
    && (i == b ==> UnitByteLength(Units(s)[..i]) == ByteLength(s[..k]))
    && (i == b + 1 ==> k < |s| && Width(s[k]) == 4 && UnitByteLength(Units(s)[..i]) == ByteLength(s[..k]) + 3)
    && (i > 0 ==> (HighSurrogate(Units(s)[i - 1]) <==> i == b + 1))
    && (k < |s| && i == b ==> |CharUnits(s[k])| == if Width(s[k]) == 4 then 2 else 1)
  }

  /** A cut of well-formed units falls between characters or inside one surrogate pair. */
  lemma {:induction false} CutUnits(s: string, i: nat)
    requires i <= |Units(s)|
    ensures CutAfter(s, i, WholeChars(s, i))
  {
    if s != "" {
      var w := |CharUnits(s[0])|;
      if i >= w {
        CutUnits(s[1..], i - w);
        CutLater(s, i, WholeChars(s[1..], i - w));
      } else {
        assert s[..0] == "";
      }
    }
  }

  lemma CutLater(s: string, i: nat, k: nat)
    requires s != "" && |CharUnits(s[0])| <= i <= |Units(s)| && k < |s|
    requires CutAfter(s[1..], i - |CharUnits(s[0])|, k)
    ensures CutAfter(s, i, k + 1)
  {
    var w, rest := |CharUnits(s[0])|, Units(s[1..]);
    assert s[..k + 1][1..] == s[1..][..k] && s[..k + 1][0] == s[0];
    FirstUnits(s[0], rest, i);
    assert i > w ==> Units(s)[i - 1] == rest[i - w - 1];
  }

  lemma FirstUnits(c: char, rest: seq<unit>, i: nat)
    requires |CharUnits(c)| <= i <= |CharUnits(c) + rest|
    ensures UnitByteLength((CharUnits(c) + rest)[..i]) == Width(c) + UnitByteLength(rest[..i - |CharUnits(c)|])
  {
    var w := |CharUnits(c)|;
    assert (CharUnits(c) + rest)[..i] == CharUnits(c) + rest[..i - w];
    assert (CharUnits(c) + rest[..i - w])[w..] == rest[..i - w];
  }

  lemma {:induction false} UnitByteLengthMonotone(u: seq<unit>, i: nat, j: nat)
    requires i <= j <= |u|
    ensures UnitByteLength(u[..i]) <= UnitByteLength(u[..j])
  {
    if i > 0 {
      if j >= 2 && HighSurrogate(u[0]) && LowSurrogate(u[1]) {
        assert u[..j][2..] == u[2..][..j - 2];
        if i >= 2 {
          assert u[..i][2..] == u[2..][..i - 2];
          UnitByteLengthMonotone(u[2..], i - 2, j - 2);
        } else {
          assert u[..1][1..] == [];
        }
      } else {
        assert u[..i][1..] == u[1..][..i - 1];
        assert u[..j][1..] == u[1..][..j - 1];
        UnitByteLengthMonotone(u[1..], i - 1, j - 1);
      }
    }
  }

  /** On well-formed text the runtime's byte length is the UTF-8 length. */
  lemma UnitByteLengthOfText(s: string)
    ensures UnitByteLength(Units(s)) == ByteLength(s)
  {
    CutUnits(s, |Units(s)|);
    var k := WholeChars(s, |Units(s)|);
    assert Units(s)[..|Units(s)|] == Units(s);
    if k < |s| {
      UnitsStep(s, k);
      UnitsSplit(s, k + 1);
    }
    assert s[..|s|] == s;
  }

  // ----- The `<` of JavaScript strings: lexicographic on code units -----

  predicate UnitsBefore(a: seq<unit>, b: seq<unit>) {
    b != [] && (a == [] || a[0] < b[0] || (a[0] == b[0] && UnitsBefore(a[1..], b[1..])))
  }

  predicate Before(a: string, b: string) {
    UnitsBefore(Units(a), Units(b))
  }

  lemma {:induction false} UnitsInjective(a: string, b: string)
    requires Units(a) == Units(b)
    ensures a == b
  {
    if a != "" && b != "" {
      assert Units(a)[0] == CharUnits(a[0])[0];
      assert Units(b)[0] == CharUnits(b[0])[0];
      if a[0] as int >= 0x1_0000 {
        assert Units(a)[1] == CharUnits(a[0])[1];
        assert Units(b)[1] == CharUnits(b[0])[1];
      }
      assert a[0] == b[0];
      assert Units(a[1..]) == Units(a)[|CharUnits(a[0])|..];
      assert Units(b[1..]) == Units(b)[|CharUnits(b[0])|..];
      UnitsInjective(a[1..], b[1..]);
    }
  }

  lemma {:induction false} UnitsBeforeTrichotomy(a: seq<unit>, b: seq<unit>)
    ensures a == b || UnitsBefore(a, b) || UnitsBefore(b, a)
    ensures !(UnitsBefore(a, b) && UnitsBefore(b, a))
    ensures UnitsBefore(a, b) ==> a != b
  {
    if a != [] && b != [] {
      UnitsBeforeTrichotomy(a[1..], b[1..]);
      assert a == [a[0]] + a[1..] && b == [b[0]] + b[1..];
    }
  }

  lemma {:induction false} UnitsBeforeTransitive(a: seq<unit>, b: seq<unit>, c: seq<unit>)
    requires UnitsBefore(a, b) && UnitsBefore(b, c)
    ensures UnitsBefore(a, c)
  {
    if a != [] && a[0] == b[0] == c[0] {
      UnitsBeforeTransitive(a[1..], b[1..], c[1..]);
    }
  }

  /** Where two sequences part, at the end of the first or at a smaller unit. */
  ghost predicate PartsAt(a: seq<unit>, b: seq<unit>, k: nat) {
    k <= |a| && k < |b| && a[..k] == b[..k] && (k == |a| || a[k] < b[k])
  }

  /** What the order compares: the first unit in which two sequences differ, a proper front being the smaller one. */
  lemma {:induction false} UnitsBeforeMeans(a: seq<unit>, b: seq<unit>)
    ensures UnitsBefore(a, b) <==> exists k :: PartsAt(a, b, k)
  {
    if a != [] && b != [] && a[0] == b[0] {
      UnitsBeforeMeans(a[1..], b[1..]);
      if k: nat :| PartsAt(a[1..], b[1..], k) {
        assert a[..k + 1] == [a[0]] + a[1..][..k] && b[..k + 1] == [b[0]] + b[1..][..k];
        assert PartsAt(a, b, k + 1);
      }
      if k: nat :| PartsAt(a, b, k) {
        PartsLater(a, b, k);
      }
    } else if b != [] {
      if UnitsBefore(a, b) {
        assert a[..0] == b[..0] && PartsAt(a, b, 0);
      }
      if k: nat :| PartsAt(a, b, k) {
        PartsFirst(a, b, k);
      }
    }
  }

  lemma PartsFirst(a: seq<unit>, b: seq<unit>, k: nat)
    requires PartsAt(a, b, k)
    ensures b != [] && (k > 0 ==> a != [] && a[0] == b[0])
  {
    if k > 0 {
      assert a[0] == a[..k][0] && b[0] == b[..k][0];
    }
  }

  lemma PartsLater(a: seq<unit>, b: seq<unit>, k: nat)
    requires a != [] && b != [] && a[0] == b[0] && PartsAt(a, b, k)
    ensures k > 0 && PartsAt(a[1..], b[1..], k - 1)
  {
    assert a[1..][..k - 1] == a[..k][1..] && b[1..][..k - 1] == b[..k][1..];
  }

  /** A character outside the basic plane is a high and a low surrogate of ten bits each, any other one unit. */
  lemma CharUnitsMean(c: char)
    ensures c as int < 0x1_0000 ==> CharUnits(c) == [c as int]
    ensures c as int >= 0x1_0000 ==>
              && |CharUnits(c)| == 2 && HighSurrogate(CharUnits(c)[0]) && LowSurrogate(CharUnits(c)[1])
              && c as int == 0x1_0000 + (CharUnits(c)[0] as int - 0xD800) * 0x400 + (CharUnits(c)[1] as int - 0xDC00)
  {
  }

  /** `<` is a strict total order on strings. */
  lemma BeforeTotal(a: string, b: string)
    ensures a == b || Before(a, b) || Before(b, a)
    ensures !(Before(a, b) && Before(b, a))
    ensures !Before(a, a)
  {
    UnitsBeforeTrichotomy(Units(a), Units(b));
    UnitsBeforeTrichotomy(Units(a), Units(a));
    if Units(a) == Units(b) {
      UnitsInjective(a, b);
    }
  }

  lemma BeforeTransitive(a: string, b: string, c: string)
    requires Before(a, b) && Before(b, c)
    ensures Before(a, c)
  {
    UnitsBeforeTransitive(Units(a), Units(b), Units(c));
  }
}
