/**
 * The validator's divisibility test: it divides in binary64 (IEEE 754-2019, round to nearest, ties to even) and asks
 * whether the quotient is an integer. Rounding can make it one.
 */
module SchemaDivision {
  /** From here on every binary64 number is an integer. */
  const INTEGERS_ONLY := 0x10_0000_0000_0000

  function Abs(n: int): nat {
    if n < 0 then -n else n
  }

  function Min(a: int, b: int): int {
    if a < b then a else b
  }

  /** How many binary64 numbers there are to a unit around a/m: the power of two that brings it to 53 binary digits. */
  function Grid(a: nat, m: nat): (r: nat)
    requires a > 0 && m > 0
    ensures r >= 1
    decreases INTEGERS_ONLY * m - a
  {
    if a >= INTEGERS_ONLY * m then 1 else 2 * Grid(2 * a, m)
  }

  /** a/m rounded to the nearest integer, a tie to the even one. */
  function RoundHalfEven(a: nat, m: nat): nat
    requires m > 0
  {
    if 2 * (a % m) < m || (2 * (a % m) == m && a / m % 2 == 0) then a / m else a / m + 1
  }

  /** The rounded quotient is an integer: its numerator over the grid is a multiple of the grid. */
  predicate QuotientIsInteger(n: int, m: int)
    requires m > 0
  {
    var a := Abs(n);
    a == 0 || a >= INTEGERS_ONLY * m || RoundHalfEven(a * Grid(a, m), m) % Grid(a, m) == 0
  }

  /** How far n is from a multiple of m. */
  function Distance(n: int, m: int): int
    requires m > 0
  {
    Min(Abs(n) % m, m - Abs(n) % m)
  }

  /** The test is exact: a multiple, or a number so far from one that the quotient does not round to an integer. */
  predicate DivisionExact(n: int, m: int)
    requires m > 0
  {
    var a := Abs(n);
    a % m == 0 || (a < INTEGERS_ONLY * m && m < 2 * Grid(a, m) * Distance(n, m))
  }

  /** On its grid a quotient has 53 binary digits. */
  lemma {:induction false} GridBounds(a: nat, m: nat)
    requires a > 0 && m > 0
    ensures INTEGERS_ONLY * m <= a * Grid(a, m)
    ensures a < INTEGERS_ONLY * m ==> a * Grid(a, m) < 2 * INTEGERS_ONLY * m && Grid(a, m) % 2 == 0 && Grid(a, m) >= 2
    decreases INTEGERS_ONLY * m - a
  {
    if a < INTEGERS_ONLY * m {
      GridBounds(2 * a, m);
      var half := Grid(2 * a, m);
      assert a * (2 * half) == (2 * a) * half;
    }
  }

  /** Rounding goes to the nearest integer. */
  lemma RoundIsNearest(a: nat, m: nat)
    requires m > 0
    ensures 2 * Abs(RoundHalfEven(a, m) * m - a) <= m
    ensures 2 * Abs(RoundHalfEven(a, m) * m - a) == m ==> RoundHalfEven(a, m) % 2 == 0
  {
    Divided(a, m);
    Distribute(a / m, 1, m);
  }

  lemma DivMod(k: nat, y: nat, m: nat)
    requires m > 0
    ensures (k * m + y) / m == k + y / m && (k * m + y) % m == y % m
  {
    var q, r := y / m, y % m;
    assert k * m + y == (k + q) * m + r;
    Quotient(k * m + y, m, k + q, r);
  }

  lemma Distribute(a: int, b: int, m: int)
    ensures (a + b) * m == a * m + b * m
  {
  }

  lemma AtLeastOnce(k: int, m: nat)
    ensures k >= 1 ==> k * m >= m
    ensures k >= 0 ==> k * m >= 0
  {
  }

  lemma SameQuotient(p: nat, t: nat, q: nat, r: nat, m: nat)
    requires t < m && r < m && p * m + t == q * m + r
    ensures p == q && t == r
  {
    Distribute(p, q - p, m);
    Distribute(q, p - q, m);
    AtLeastOnce(q - p, m);
    AtLeastOnce(p - q, m);
  }

  lemma Divided(a: nat, m: nat)
    requires m > 0
    ensures a == a / m * m + a % m && 0 <= a % m < m && 0 <= a / m
  {
  }

  /** Quotient and remainder are unique. */
  lemma Quotient(a: nat, m: nat, q: nat, r: nat)
    requires m > 0 && r < m && a == q * m + r
    ensures a / m == q && a % m == r
  {
    Divided(a, m);
    SameQuotient(a / m, a % m, q, r, m);
  }

  /** Rounding moves with an even whole part. */
  lemma RoundShifts(k: nat, y: nat, m: nat)
    requires m > 0 && k % 2 == 0
    ensures RoundHalfEven(k * m + y, m) == k + RoundHalfEven(y, m)
  {
    DivMod(k, y, m);
  }

  /** Quotient q, remainder r: where the quotient stands against 0 and against the last step of the grid. */
  lemma OnGrid(q: nat, r: nat, m: nat, grid: nat)
    requires r < m && grid > 0 && q * m + r < grid * m
    ensures q < grid
    ensures q == 0 ==> q * m == 0
    ensures q > 0 ==> q * m >= m
    ensures q == grid - 1 ==> grid * m - q * m == m
    ensures q < grid - 1 ==> grid * m - q * m >= 2 * m
  {
    Distribute(q, grid - q, m);
    Distribute(grid, q - grid, m);
    AtLeastOnce(q - grid, m);
    AtLeastOnce(q, m);
    if q < grid - 1 {
      Distribute(2, grid - q - 2, m);
      AtLeastOnce(grid - q - 2, m);
    }
  }

  /** Below grid * m, rounding gives an end of the grid exactly near that end. */
  lemma RoundsToEnd(y: nat, m: nat, grid: nat, top: nat)
    requires m > 0 && grid % 2 == 0 && grid > 0 && top == grid * m && y < top
    ensures RoundHalfEven(y, m) <= grid
    ensures RoundHalfEven(y, m) == 0 <==> 2 * y <= m
    ensures RoundHalfEven(y, m) == grid <==> 2 * (top - y) <= m
  {
    Divided(y, m);
    OnGrid(y / m, y % m, m, grid);
    AtEnds(y, y / m, y % m, y / m * m, m, grid, top);
  }

  lemma AtEnds(y: nat, q: nat, r: nat, base: nat, m: nat, grid: nat, top: nat)
    requires m > 0 && grid % 2 == 0 && grid > 0 && q == y / m && r == y % m && r < m && y == base + r && y < top
    requires q < grid && (q == 0 ==> base == 0) && (q > 0 ==> base >= m)
    requires (q == grid - 1 ==> top - base == m) && (q < grid - 1 ==> top - base >= 2 * m)
    ensures RoundHalfEven(y, m) <= grid
    ensures RoundHalfEven(y, m) == 0 <==> 2 * y <= m
    ensures RoundHalfEven(y, m) == grid <==> 2 * (top - y) <= m
  {
  }

  lemma EndsOnly(k: nat, r: nat, grid: nat)
    requires grid > 0 && r <= grid
    ensures (k * grid + r) % grid == 0 <==> r == 0 || r == grid
  {
    if r == grid {
      Quotient(k * grid + r, grid, k + 1, 0);
    } else {
      Quotient(k * grid + r, grid, k, r);
    }
  }

  /** The grid around a, from its quotient k and remainder r. */
  lemma Scaled(k: nat, r: nat, m: nat, grid: nat)
    requires r < m && grid > 0
    ensures (k * m + r) * grid == (k * grid) * m + r * grid
    ensures r * grid < grid * m && grid * m - r * grid == (m - r) * grid
  {
    Distribute(k * m, r, grid);
    assert k * m * grid == (k * grid) * m;
    Distribute(r, m - r, grid);
    AtLeastOnce(m - r, grid);
  }

  /** Exactly which rounded quotients are integers. */
  lemma RoundedIff(a: nat, m: nat)
    requires 0 < a < INTEGERS_ONLY * m && m > 0
    ensures QuotientIsInteger(a, m) <==> 2 * Grid(a, m) * Min(a % m, m - a % m) <= m
  {
    GridBounds(a, m);
    Divided(a, m);
    var grid, k, r := Grid(a, m), a / m, a % m;
    Scaled(k, r, m, grid);
    EvenTimes(k, grid);
    RoundShifts(k * grid, r * grid, m);
    RoundsToEnd(r * grid, m, grid, grid * m);
    EndsOnly(k, RoundHalfEven(r * grid, m), grid);
    Doubled(grid, r);
    Doubled(grid, m - r);
    MinTimes(2 * grid, r, m - r, m);
  }

  lemma Doubled(grid: nat, r: nat)
    ensures 2 * (r * grid) == 2 * grid * r
  {
  }

  lemma EvenTimes(k: nat, grid: nat)
    requires grid % 2 == 0
    ensures (k * grid) % 2 == 0
  {
    var half := grid / 2;
    assert k * grid == 2 * (k * half);
  }

  lemma MinTimes(f: nat, a: int, b: int, m: int)
    ensures f * Min(a, b) <= m <==> f * a <= m || f * b <= m
  {
    if a <= b {
      assert f * (b - a) >= 0;
    } else {
      assert f * (a - b) >= 0;
    }
  }

  /** Exactly when the test says what divisibility says. */
  lemma DivisionExactIff(n: int, m: int)
    requires m > 0
    ensures (QuotientIsInteger(n, m) <==> Abs(n) % m == 0) <==> DivisionExact(n, m)
    ensures Abs(n) % m == 0 ==> QuotientIsInteger(n, m)
  {
    if 0 < Abs(n) < INTEGERS_ONLY * m {
      RoundedIff(Abs(n), m);
    }
  }

  /** In the safe range the test is exact. */
  lemma SafeDivisionExact(n: int, m: int)
    requires m > 0 && Abs(n) < 2 * INTEGERS_ONLY
    ensures DivisionExact(n, m)
  {
    var a := Abs(n);
    if a % m != 0 {
      GridBounds(a, m);
      Divided(a, m);
      if m > 1 {
        SafeGrid(a, m, Grid(a, m));
        AtLeastOnce(Distance(n, m), 2 * Grid(a, m));
      }
    }
  }

  lemma SafeGrid(a: nat, m: nat, grid: nat)
    requires INTEGERS_ONLY * m <= a * grid && grid >= 1 && a < 2 * INTEGERS_ONLY && m > 1
    ensures m < 2 * grid && a < INTEGERS_ONLY * m
  {
    Distribute(a, 2 * INTEGERS_ONLY - a, grid);
    AtLeastOnce(2 * INTEGERS_ONLY - a, grid);
  }

  /** A family on which it is not: numbers so large that every quotient rounds to an integer. */
  lemma HugeQuotientPasses(n: int, m: int)
    requires m > 0 && Abs(n) >= INTEGERS_ONLY * m
    ensures QuotientIsInteger(n, m)
    ensures DivisionExact(n, m) <==> Abs(n) % m == 0
  {
  }

  lemma MultipleIff(n: int, m: int)
    requires m > 0
    ensures Abs(n) % m == 0 <==> exists q :: n == q * m
  {
    var a := Abs(n);
    if a % m == 0 {
      var q := a / m;
      assert n == (if n < 0 then -q else q) * m;
    }
    if exists q :: n == q * m {
      var q :| n == q * m;
      assert a == Abs(q) * m;
      Quotient(a, m, Abs(q), 0);
    }
  }
}
