/**
 * Bezier curves: the table of binomial coefficients computed from 32-bit
 * factorials, the Bernstein basis and its derivatives, evaluation of a
 * point and of a derivative, and division of the curve into samples of
 * equal arc length.
 */
module BezierCurves {
  import opened Wrappers
  import opened Geometry
  import opened FrenetFrames
  import opened DividedCurves
  import opened ParametricCurves

  // ---------------------------------------------------------------- integers

  const TwoTo31: int := 0x8000_0000
  const TwoTo32: int := 0x1_0000_0000

  /** C#'s unchecked int arithmetic: the two's-complement value of x in 32 bits. */
  function Wrap32(x: int): (r: int)
    ensures -TwoTo31 <= r < TwoTo31
    ensures -TwoTo31 <= x < TwoTo31 ==> r == x
  {
    (x + TwoTo31) % TwoTo32 - TwoTo31
  }

  /** C#'s integer division, which truncates toward zero. */
  function Quot32(a: int, b: int): int
    requires b != 0
  {
    var q := Abs32(a) / Abs32(b);
    if (a < 0) != (b < 0) then -q else q
  }

  function Abs32(a: int): nat { if a < 0 then -a else a }

  /** The exact factorial, with the C# code's convention that every n <= 1 gives 1. */
  function Factorial(n: int): nat
    decreases if n < 0 then 0 else n
  {
    if n <= 1 then 1 else n * Factorial(n - 1)
  }

  /**
   * The C# code's Factorial on int: each product wraps to 32 bits. The result is an Int32, and it
   * is the exact factorial for as long as that fits in an Int32.
   */
  function Factorial32(n: int): (r: int)
    ensures -TwoTo31 <= r < TwoTo31
    ensures Factorial(n) < TwoTo31 ==> r == Factorial(n)
    decreases if n < 0 then 0 else n
  {
    if n <= 1 then 1 else
      FactorialMonotone(n - 1, n);
      Wrap32(n * Factorial32(n - 1))
  }

  lemma {:induction false} FactorialPositive(n: int)
    ensures Factorial(n) >= 1
  {
    if n > 1 {
      FactorialPositive(n - 1);
    }
  }

  /** 12! is the largest factorial below 2^31. */
  lemma FactorialTwelve()
    ensures Factorial(12) == 479001600
  {
    assert Factorial(4) == 24;
    assert Factorial(8) == 40320;
  }

  lemma {:induction false} FactorialMonotone(m: int, n: int)
    requires m <= n
    ensures Factorial(m) <= Factorial(n)
  {
    if m < n && n > 1 {
      FactorialMonotone(m, n - 1);
      FactorialPositive(n - 1);
    }
  }

  /** Up to 12 the 32-bit factorial is exact. */
  lemma Factorial32Exact(n: int)
    requires n <= 12
    ensures Factorial32(n) == Factorial(n)
  {
    FactorialMonotone(n, 12);
    FactorialTwelve();
  }

  /** Pascal's triangle. */
  function Binomial(n: nat, k: nat): nat {
    if k > n then 0 else if k == 0 || k == n then 1 else Binomial(n - 1, k - 1) + Binomial(n - 1, k)
  }

  /** Every entry inside the triangle is at least 1. */
  lemma {:induction false} BinomialPositive(n: nat, k: nat)
    requires k <= n
    ensures Binomial(n, k) >= 1
  {
    if 0 < k < n {
      BinomialPositive(n - 1, k);
    }
  }

  /** The ring identity behind the inductive step of the factorial formula. */
  lemma PascalStep(a: int, b: int, k: int, m: int, f1: int, f2: int)
    ensures (a + b) * ((k * f1) * (m * f2)) == k * (a * (f1 * (m * f2))) + m * (b * ((k * f1) * f2))
  {
  }

  /** The inductive step on plain integers: both neighbours give f, so their sum gives (k + m) f. */
  lemma PascalSum(a: int, b: int, k: int, m: int, f1: int, f2: int, f: int)
    requires a * (f1 * (m * f2)) == f && b * ((k * f1) * f2) == f
    ensures (a + b) * ((k * f1) * (m * f2)) == (k + m) * f
  {
    PascalStep(a, b, k, m, f1, f2);
    assert k * f + m * f == (k + m) * f;
  }

  /** The factorial formula: C(n, k) k! (n-k)! == n!. */
  lemma {:induction false} BinomialFactorial(n: nat, k: nat)
    requires k <= n
    ensures Binomial(n, k) * (Factorial(k) * Factorial(n - k)) == Factorial(n)
  {
    if 0 < k < n {
      BinomialFactorial(n - 1, k - 1);
      BinomialFactorial(n - 1, k);
      var a, b := Binomial(n - 1, k - 1), Binomial(n - 1, k);
      var fk1, fnk1 := Factorial(k - 1), Factorial(n - k - 1);
      var f := Factorial(n - 1);
      assert n - 1 - (k - 1) == n - k && n - 1 - k == n - k - 1;
      assert Factorial(k) == k * fk1 && Factorial(n - k) == (n - k) * fnk1 && Factorial(n) == n * f;
      PascalSum(a, b, k, n - k, fk1, fnk1, f);
    }
  }

  /** Division by a zero product throws, so a row exists only when no denominator wraps to 0. */
  predicate RowDefined(n: int) {
    forall i :: 0 <= i <= n ==> Denominator(n, i) != 0
  }

  /** The denominator of entry i of row n: i! (n-i)! in 32-bit arithmetic. */
  function Denominator(n: int, i: int): int {
    Wrap32(Factorial32(i) * Factorial32(n - i))
  }

  /** The table rows for degrees below `count` all exist. */
  predicate TableDefined(count: int) {
    forall d :: 0 <= d < count ==> RowDefined(d)
  }

  /**
   * The row the C# code computes for degree n: n! / (i! (n-i)!) in 32-bit arithmetic.
   * RowEnds proves its ends are 1, RowExact that up to degree 12 it is row n of Pascal's
   * triangle, and RowThirteenWraps that from degree 13 on it is not.
   */
  function CombinationRow(n: int): (r: seq<int>)
    requires n >= 0 && RowDefined(n)
    ensures |r| == n + 1
  {
    seq(n + 1, i requires 0 <= i <= n => Quot32(Factorial32(n), Denominator(n, i)))
  }

  /** Every defined row starts and ends with 1. */
  lemma RowEnds(n: int)
    requires n >= 0 && RowDefined(n)
    ensures CombinationRow(n)[0] == 1 && CombinationRow(n)[n] == 1
  {
    var f := Factorial32(n);
    assert Factorial32(0) == 1;
    assert -TwoTo31 <= f < TwoTo31;
    assert Wrap32(Factorial32(0) * f) == f;
    assert Wrap32(f * Factorial32(0)) == f;
    assert f != 0;
    assert Abs32(f) / Abs32(f) == 1;
  }

  lemma MulNonNegative(a: int, b: int)
    requires a >= 0 && b >= 0
    ensures a * b >= 0
  {
  }

  lemma Distribute(d: int, a: int, b: int)
    ensures d * b - d * a == d * (b - a)
  {
  }

  /** Dividing an exact multiple gives the factor back. */
  lemma ExactQuotient(c: int, d: int)
    requires c >= 0 && d > 0
    ensures c * d >= 0 && Quot32(c * d, d) == c
  {
    MulNonNegative(c, d);
    var p := c * d;
    var q, r := p / d, p % d;
    assert p == d * q + r && 0 <= r < d;
    Distribute(d, q, c);
    if q < c {
      MulNonNegative(d, c - q - 1);
      Distribute(d, q + 1, c);
    } else if q > c {
      MulNonNegative(d, q - c - 1);
      Distribute(d, c + 1, q);
    }
    assert Quot32(p, d) == p / d;
  }

  /** A denominator that divides a number below 2^31 is itself below 2^31, and the division is exact. */
  lemma DenominatorFits(c: int, d: int, f: int)
    requires c >= 1 && d >= 1 && c * d == f && f < TwoTo31
    ensures Wrap32(d) == d && Quot32(f, d) == c
  {
    assert d <= c * d;
    ExactQuotient(c, d);
  }

  /** The facts about factorials up to 12 that the row entries need. */
  lemma FactorialFacts(n: int, i: int)
    requires 0 <= i <= n <= 12
    ensures Factorial32(n) == Factorial(n) && Factorial32(i) == Factorial(i) && Factorial32(n - i) == Factorial(n - i)
    ensures Binomial(n, i) * (Factorial(i) * Factorial(n - i)) == Factorial(n)
    ensures Binomial(n, i) >= 1 && Factorial(i) >= 1 && Factorial(n - i) >= 1 && Factorial(n) < TwoTo31
  {
    Factorial32Exact(n);
    Factorial32Exact(i);
    Factorial32Exact(n - i);
    BinomialFactorial(n, i);
    BinomialPositive(n, i);
    FactorialPositive(i);
    FactorialPositive(n - i);
    FactorialMonotone(n, 12);
    FactorialTwelve();
  }

  /** One row entry from the facts about its three factorials, stated over plain integers. */
  lemma EntryFromFactorials(f32n: int, f32i: int, f32ni: int, fn: int, fi: int, fni: int, c: int)
    requires f32n == fn && f32i == fi && f32ni == fni
    requires c * (fi * fni) == fn && c >= 1 && fi >= 1 && fni >= 1 && fn < TwoTo31
    ensures Wrap32(f32i * f32ni) == fi * fni >= 1
    ensures Quot32(f32n, Wrap32(f32i * f32ni)) == c
  {
    assert fi * fni >= 1 by { MulNonNegative(fi - 1, fni - 1); }
    DenominatorFits(c, fi * fni, fn);
  }

  /** Up to degree 12 the denominator is the exact product i! (n-i)! and the entry is C(n, i). */
  lemma RowEntryExact(n: int, i: int)
    requires 0 <= i <= n <= 12
    ensures Denominator(n, i) >= 1
    ensures Quot32(Factorial32(n), Denominator(n, i)) == Binomial(n, i)
  {
    FactorialFacts(n, i);
    EntryFromFactorials(Factorial32(n), Factorial32(i), Factorial32(n - i),
                        Factorial(n), Factorial(i), Factorial(n - i), Binomial(n, i));
  }

  /** Up to degree 12 every row is the row of Pascal's triangle. */
  lemma RowExact(n: int)
    requires 0 <= n <= 12
    ensures RowDefined(n)
    ensures forall i :: 0 <= i <= n ==> CombinationRow(n)[i] == Binomial(n, i)
  {
    forall i | 0 <= i <= n
      ensures Denominator(n, i) >= 1
      ensures Quot32(Factorial32(n), Denominator(n, i)) == Binomial(n, i)
    {
      RowEntryExact(n, i);
    }
  }

  /** Pascal's triangle is symmetric. */
  lemma {:induction false} BinomialSymmetric(n: nat, k: nat)
    requires k <= n
    ensures Binomial(n, k) == Binomial(n, n - k)
  {
    if 0 < k < n {
      BinomialSymmetric(n - 1, k - 1);
      BinomialSymmetric(n - 1, k);
    }
  }

  /** The 32-bit factorials of 0 through 13. */
  lemma SmallFactorials32()
    ensures Factorial32(0) == 1 && Factorial32(1) == 1 && Factorial32(2) == 2 && Factorial32(3) == 6
    ensures Factorial32(4) == 24 && Factorial32(5) == 120 && Factorial32(6) == 720
    ensures Factorial32(7) == 5040 && Factorial32(8) == 40320 && Factorial32(9) == 362880
    ensures Factorial32(10) == 3628800 && Factorial32(11) == 39916800 && Factorial32(12) == 479001600
    ensures Factorial32(13) == 1932053504
  {
    assert Factorial32(13) == Wrap32(13 * Factorial32(12));
    assert Wrap32(13 * 479001600) == 1932053504;
  }

  /** Every denominator of the degree-13 row is a non-zero Int32, so the row exists although 13! wraps. */
  lemma RowThirteenDefined()
    ensures RowDefined(13)
  {
    SmallFactorials32();
    assert Denominator(13, 0) == Denominator(13, 13) == 1932053504;
    assert Denominator(13, 1) == Denominator(13, 12) == 479001600;
    assert Denominator(13, 2) == Denominator(13, 11) == 79833600;
    assert Denominator(13, 3) == Denominator(13, 10) == 21772800;
    assert Denominator(13, 4) == Denominator(13, 9) == 8709120;
    assert Denominator(13, 5) == Denominator(13, 8) == 4838400;
    assert Denominator(13, 6) == Denominator(13, 7) == 3628800;
  }

  /** 13! wraps in 32 bits, and the row for degree 13 no longer holds binomial coefficients. */
  lemma RowThirteenWraps()
    ensures RowDefined(13)
    ensures CombinationRow(13)[1] == 4 && Binomial(13, 1) == 13
  {
    RowThirteenDefined();
    SmallFactorials32();
    assert Wrap32(1 * 479001600) == 479001600;
    assert Quot32(1932053504, 479001600) == 4;
    assert Binomial(12, 0) == 1 && Binomial(12, 1) == 12;
  }

  /** The table of rows 0..count-1 the C# code builds. */
  function Rows(count: nat): (r: seq<seq<int>>)
    requires TableDefined(count)
    ensures |r| == count && forall d :: 0 <= d < count ==> r[d] == CombinationRow(d)
  {
    seq(count, d requires 0 <= d < count => CombinationRow(d))
  }

  /** The first loop of Combinations: the 32-bit factorials of 0..n. */
  method Factorials(n: int) returns (factorials: seq<int>)
    requires n >= 0
    ensures |factorials| == n + 1 && forall k :: 0 <= k <= n ==> factorials[k] == Factorial32(k)
  {
    factorials := [];
    for i := 0 to n + 1
      invariant |factorials| == i && forall k :: 0 <= k < i ==> factorials[k] == Factorial32(k)
    {
      factorials := factorials + [Factorial32(i)];
    }
  }

  /** Combinations: first the list of 32-bit factorials 0..n, then one quotient per entry. */
  method Combinations(n: int) returns (combinations: seq<int>)
    requires n >= 0 && RowDefined(n)
    ensures combinations == CombinationRow(n)
  {
    var factorials := Factorials(n);
    var row := CombinationRow(n);
    combinations := [];
    for i := 0 to n + 1
      invariant combinations == row[..i]
    {
      var d := Wrap32(factorials[i] * factorials[n - i]);
      assert d == Denominator(n, i) by {
        assert factorials[i] == Factorial32(i) && factorials[n - i] == Factorial32(n - i);
      }
      var c := Quot32(factorials[n], d);
      assert c == row[i];
      combinations := combinations + [c];
    }
    assert row[..n + 1] == row;
  }

  /** The binomial table, one row per degree below the number of control points. */
  class Bernstein {
    var combinationsTable: array<seq<int>>

    /** Row d holds the C# code's coefficients for degree d. */
    predicate Valid()
      reads this, combinationsTable
    {
      TableDefined(combinationsTable.Length) && combinationsTable[..] == Rows(combinationsTable.Length)
    }

    constructor (controlPointCount: nat)
      requires TableDefined(controlPointCount)
      ensures Valid() && combinationsTable.Length == controlPointCount
    {
      combinationsTable := new seq<int>[0];
      new;
      SetTable(controlPointCount);
    }

    /** Builds a fresh table with one row per degree 0..controlPointCount-1. */
    method SetTable(controlPointCount: nat)
      requires TableDefined(controlPointCount)
      modifies this
      ensures Valid() && combinationsTable.Length == controlPointCount && fresh(combinationsTable)
    {
      var table := new seq<int>[controlPointCount];
      for di := 0 to controlPointCount
        invariant forall d :: 0 <= d < di ==> table[d] == CombinationRow(d)
      {
        table[di] := Combinations(di);
      }
      combinationsTable := table;
    }

    /** Rebuilds the table only when its size differs from the control-point count. */
    method Update(controlPointCount: nat)
      requires Valid() && TableDefined(controlPointCount)
      modifies this
      ensures Valid() && combinationsTable.Length == controlPointCount
      ensures old(combinationsTable.Length) == controlPointCount ==> combinationsTable == old(combinationsTable)
    {
      if controlPointCount != combinationsTable.Length {
        SetTable(controlPointCount);
      }
    }
  }

  // ---------------------------------------------------------------- basis functions

  /** Mathf.Pow at a non-negative whole exponent, with 0^0 == 1. */
  function Pow(x: real, k: nat): real {
    if k == 0 then 1.0 else x * Pow(x, k - 1)
  }

  /** A table lookup; under a valid table every lookup the model makes is in range. */
  function Entry(rows: seq<seq<int>>, n: int, i: int): int {
    if 0 <= n < |rows| && 0 <= i < |rows[n]| then rows[n][i] else 0
  }

  /**
   * Basis: coefficient times t^i (1-t)^(n-i). On [0, 1] it is non-negative wherever its
   * coefficient is; BasisAtStart and BasisAtEnd give its values at the ends.
   */
  function Basis(rows: seq<seq<int>>, n: int, i: int, t: real): (r: real)
    requires 0 <= i <= n
    ensures 0.0 <= t <= 1.0 && Entry(rows, n, i) >= 0 ==> r >= 0.0
  {
    var c, p, q := Entry(rows, n, i) as real, Pow(t, i), Pow(1.0 - t, n - i);
    PowNonNegative(t, i);
    PowNonNegative(1.0 - t, n - i);
    ProductNonNegative(c, p, q);
    c * p * q
  }

  lemma {:induction false} PowNonNegative(x: real, k: nat)
    ensures x >= 0.0 ==> Pow(x, k) >= 0.0
  {
    if k > 0 && x >= 0.0 {
      PowNonNegative(x, k - 1);
      ProductNonNegative(x, Pow(x, k - 1), 1.0);
    }
  }

  lemma ProductNonNegative(a: real, b: real, c: real)
    ensures a >= 0.0 && b >= 0.0 && c >= 0.0 ==> a * b * c >= 0.0
  {
    if a >= 0.0 && b >= 0.0 && c >= 0.0 {
      assert a * b >= 0.0;
    }
  }

  /**
   * Derivative: zero outside 0 <= cpi <= degree, the basis itself at order
   * 0, and otherwise the degree times the difference of two derivatives of
   * one degree lower and one order lower. DerivativeVanishes proves that
   * every order above the degree gives 0.
   */
  function Derivative(rows: seq<seq<int>>, degree: int, cpi: int, t: real, order: int): (r: real)
    ensures cpi < 0 || degree < cpi ==> r == 0.0
    decreases degree + 1
  {
    if cpi < 0 || degree < cpi then 0.0
    else if order == 0 then Basis(rows, degree, cpi, t)
    else degree as real * (Derivative(rows, degree - 1, cpi - 1, t, order - 1) - Derivative(rows, degree - 1, cpi, t, order - 1))
  }

  /** A derivative of order above the degree vanishes: the basis polynomials have that degree. */
  lemma {:induction false} DerivativeVanishes(rows: seq<seq<int>>, degree: int, cpi: int, t: real, order: int)
    requires order > degree
    ensures Derivative(rows, degree, cpi, t, order) == 0.0
    decreases degree + 1
  {
    if !(cpi < 0 || degree < cpi) {
      DerivativeVanishes(rows, degree - 1, cpi - 1, t, order - 1);
      DerivativeVanishes(rows, degree - 1, cpi, t, order - 1);
    }
  }

  /** The weighted sum of control points over the first m of them. */
  function WeightedSum(points: seq<Vec3>, weights: seq<real>, m: nat): Vec3
    requires m <= |points| && m <= |weights|
  {
    if m == 0 then Zero else Add(WeightedSum(points, weights, m - 1), Scale(points[m - 1], weights[m - 1]))
  }

  /** A weight vector that selects one control point sums to that point. */
  lemma {:induction false} WeightedSumSelects(points: seq<Vec3>, weights: seq<real>, j: nat, m: nat)
    requires m <= |points| && m <= |weights| && j < |weights|
    requires weights[j] == 1.0 && forall k :: 0 <= k < |weights| && k != j ==> weights[k] == 0.0
    ensures WeightedSum(points, weights, m) == if j < m then points[j] else Zero
  {
    if m > 0 {
      WeightedSumSelects(points, weights, j, m - 1);
    }
  }

  /** Zero weights sum to the zero vector. */
  lemma {:induction false} WeightedSumZero(points: seq<Vec3>, weights: seq<real>, m: nat)
    requires m <= |points| && m <= |weights|
    requires forall k :: 0 <= k < |weights| ==> weights[k] == 0.0
    ensures WeightedSum(points, weights, m) == Zero
  {
    if m > 0 {
      WeightedSumZero(points, weights, m - 1);
    }
  }

  /** The Bernstein weights of every control point at t. */
  function BasisWeights(rows: seq<seq<int>>, n: nat, t: real): (r: seq<real>)
    ensures |r| == n
  {
    seq(n, i requires 0 <= i < n => Basis(rows, n - 1, i, t))
  }

  /** The derivative weights of every control point at t. */
  function DerivativeWeights(rows: seq<seq<int>>, n: nat, t: real, order: int): (r: seq<real>)
    ensures |r| == n
  {
    seq(n, i requires 0 <= i < n => Derivative(rows, n - 1, i, t, order))
  }

  /** The point of the curve at t. */
  function PointAt(rows: seq<seq<int>>, points: seq<Vec3>, t: real): Vec3 {
    WeightedSum(points, BasisWeights(rows, |points|, t), |points|)
  }

  /** The derivative of the given order at t. */
  function VelocityAt(rows: seq<seq<int>>, points: seq<Vec3>, t: real, order: int): Vec3 {
    WeightedSum(points, DerivativeWeights(rows, |points|, t, order), |points|)
  }

  lemma PowZero(k: nat)
    requires k > 0
    ensures Pow(0.0, k) == 0.0
  {
  }

  /** At t = 0 only the first basis function is non-zero. */
  lemma BasisAtStart(rows: seq<seq<int>>, d: nat, k: int)
    requires 0 <= k <= d
    ensures Basis(rows, d, k, 0.0) == if k == 0 then Entry(rows, d, 0) as real else 0.0
  {
    if k == 0 {
      PowOne(d);
      assert 1.0 - 0.0 == 1.0;
    } else {
      PowZero(k);
    }
  }

  /** At t = 1 only the last basis function is non-zero. */
  lemma BasisAtEnd(rows: seq<seq<int>>, d: nat, k: int)
    requires 0 <= k <= d
    ensures Basis(rows, d, k, 1.0) == if k == d then Entry(rows, d, d) as real else 0.0
  {
    PowOne(k);
    if k < d {
      assert 1.0 - 1.0 == 0.0;
      PowZero(d - k);
    }
  }

  /** With a leading coefficient of 1 the curve starts at its first control point. */
  lemma PositionStart(rows: seq<seq<int>>, points: seq<Vec3>)
    requires |points| > 0 && Entry(rows, |points| - 1, 0) == 1
    ensures PointAt(rows, points, 0.0) == points[0]
  {
    var n := |points|;
    var w := BasisWeights(rows, n, 0.0);
    forall k | 0 <= k < n
      ensures w[k] == if k == 0 then 1.0 else 0.0
    {
      BasisAtStart(rows, n - 1, k);
    }
    WeightedSumSelects(points, w, 0, n);
  }

  /** With a trailing coefficient of 1 the curve ends at its last control point. */
  lemma PositionEnd(rows: seq<seq<int>>, points: seq<Vec3>)
    requires |points| > 0 && Entry(rows, |points| - 1, |points| - 1) == 1
    ensures PointAt(rows, points, 1.0) == points[|points| - 1]
  {
    var n := |points|;
    var w := BasisWeights(rows, n, 1.0);
    forall k | 0 <= k < n
      ensures w[k] == if k == n - 1 then 1.0 else 0.0
    {
      BasisAtEnd(rows, n - 1, k);
    }
    WeightedSumSelects(points, w, n - 1, n);
  }

  /** A Bezier curve starts at its first control point and ends at its last. */
  lemma PositionEndpoints(rows: seq<seq<int>>, points: seq<Vec3>)
    requires |points| > 0 && TableDefined(|points|) && rows == Rows(|points|)
    ensures PointAt(rows, points, 0.0) == points[0]
    ensures PointAt(rows, points, 1.0) == points[|points| - 1]
  {
    var n := |points|;
    RowEnds(n - 1);
    assert Entry(rows, n - 1, 0) == 1 && Entry(rows, n - 1, n - 1) == 1;
    PositionStart(rows, points);
    PositionEnd(rows, points);
  }

  lemma {:induction false} PowOne(k: nat)
    ensures Pow(1.0, k) == 1.0
  {
    if k > 0 {
      PowOne(k - 1);
    }
  }

  /** Derivatives of order at least the number of control points vanish. */
  lemma DifferentialVanishes(rows: seq<seq<int>>, points: seq<Vec3>, t: real, order: int)
    requires order >= |points|
    ensures VelocityAt(rows, points, t, order) == Zero
  {
    var w := DerivativeWeights(rows, |points|, t, order);
    forall k | 0 <= k < |points|
      ensures w[k] == 0.0
    {
      DerivativeVanishes(rows, |points| - 1, k, t, order);
    }
    WeightedSumZero(points, w, |points|);
  }

  // ---------------------------------------------------------------- division into samples

  /** The C# code's grid point j (of L) in section i (of N). */
  function GridValue(i: int, j: int, L: int, N: int): real
    requires L >= 1 && N >= 1
  {
    (i as real) / (N as real) + (j as real) / (L as real) / (N as real)
  }

  lemma DivideSum(a: real, b: real, N: real)
    requires N > 0.0
    ensures (a + b) / N == a / N + b / N
  {
  }

  /** Within a section the grid points increase. */
  lemma GridStep(i: int, j: int, L: int, N: int)
    requires L >= 1 && N >= 1
    ensures GridValue(i, j, L, N) < GridValue(i, j + 1, L, N)
  {
    var l, n := L as real, N as real;
    assert (j + 1) as real / l == j as real / l + 1.0 / l by {
      DivideSum(j as real, 1.0, l);
    }
    assert 1.0 / l > 0.0;
    DivideSum(j as real / l, 1.0 / l, n);
    assert (1.0 / l) / n > 0.0;
  }

  /** The section boundary i / N. */
  function Fraction(i: int, N: int): real
    requires N >= 1
  {
    (i as real) / (N as real)
  }

  /** Section i runs from i/N (exclusive) to (i+1)/N (inclusive). */
  lemma GridEnds(i: int, L: int, N: int)
    requires L >= 1 && N >= 1
    ensures GridValue(i, 0, L, N) == Fraction(i, N)
    ensures GridValue(i, L, L, N) == Fraction(i + 1, N)
  {
    var n := N as real;
    assert (L as real) / (L as real) == 1.0;
    DivideSum(i as real, 1.0, n);
  }

  lemma FractionWhole(N: int)
    requires N >= 1
    ensures Fraction(N, N) == 1.0
  {
    var n := N as real;
    assert n / n == 1.0;
  }

  lemma PrefixMembers(before: seq<real>, t: seq<real>)
    requires |before| <= |t| && t[..|before|] == before
    ensures forall x :: x in before ==> x in t
  {
    forall x | x in before
      ensures x in t
    {
      var m :| 0 <= m < |before| && before[m] == x;
      assert t[m] == before[m];
    }
  }

  function SumInts(s: seq<int>): int {
    if |s| == 0 then 0 else SumInts(s[..|s| - 1]) + s[|s| - 1]
  }

  predicate Increasing(t: seq<real>) {
    forall k :: 0 < k < |t| ==> t[k - 1] < t[k]
  }

  /** The grid after i of N sections: increasing from 0 to i / N, holding every boundary up to i / N. */
  predicate GridPrefix(t: seq<real>, i: int, N: int)
    requires N >= 1
  {
    |t| >= 1 && t[0] == 0.0 && t[|t| - 1] == Fraction(i, N) && Increasing(t) &&
    (forall k :: 0 <= k < |t| ==> 0.0 <= t[k] <= t[|t| - 1]) &&
    (forall k :: 0 <= k <= i ==> Fraction(k, N) in t)
  }

  /** The per-section counts: N first, each at least 1, never growing. */
  predicate Halving(locals: seq<int>, N: int) {
    (|locals| > 0 ==> locals[0] == N) &&
    (forall k :: 0 <= k < |locals| ==> 1 <= locals[k]) &&
    (forall k :: 0 < k < |locals| ==> locals[k] <= locals[k - 1])
  }

  /** Recording one more section count keeps the counts halving and adds it to the total. */
  lemma HalvingStep(locals: seq<int>, x: int, N: int)
    requires Halving(locals, N) && 1 <= x
    requires |locals| == 0 ==> x == N
    requires |locals| > 0 ==> x <= locals[|locals| - 1]
    ensures Halving(locals + [x], N)
    ensures SumInts(locals + [x]) == SumInts(locals) + x
  {
    var s := locals + [x];
    assert s[..|s| - 1] == locals;
    assert SumInts(s) == SumInts(s[..|s| - 1]) + s[|s| - 1];
    forall k | 0 <= k < |s|
      ensures 1 <= s[k]
    {
      if k < |locals| {
        assert s[k] == locals[k];
      }
    }
    forall k | 0 < k < |s|
      ensures s[k] <= s[k - 1]
    {
      if k < |locals| {
        assert s[k] == locals[k] && s[k - 1] == locals[k - 1];
      }
    }
  }

  /** After all N sections the grid runs from 0 to 1. */
  lemma GridComplete(t: seq<real>, N: int)
    requires N >= 1 && GridPrefix(t, N, N)
    ensures t[0] == 0.0 && t[|t| - 1] == 1.0 && Increasing(t)
    ensures forall k :: 0 <= k < |t| ==> 0.0 <= t[k] <= 1.0
    ensures forall i :: 0 <= i <= N ==> Fraction(i, N) in t
  {
    FractionWhole(N);
  }

  /** One section of the candidate grid: L equally spaced points after i / N, the last at (i + 1) / N. */
  method AppendSection(before: seq<real>, i: int, L: int, N: int) returns (t: seq<real>)
    requires L >= 1 && N >= 1 && GridPrefix(before, i, N)
    ensures |t| == |before| + L && t[..|before|] == before
    ensures t == before + SectionPoints(i, L, N)
    ensures GridPrefix(t, i + 1, N)
  {
    GridEnds(i, L, N);
    t := before;
    for j := 1 to L + 1
      invariant |t| == |before| + j - 1 && t[..|before|] == before
      invariant forall k :: |before| <= k < |t| ==> t[k] == GridValue(i, k - |before| + 1, L, N)
      invariant t[|t| - 1] == GridValue(i, j - 1, L, N)
      invariant Increasing(t)
      invariant forall k :: 0 <= k < |t| ==> 0.0 <= t[k] <= t[|t| - 1]
    {
      GridStep(i, j - 1, L, N);
      t := t + [GridValue(i, j, L, N)];
    }
    PrefixMembers(before, t);
    ghost var points := SectionPoints(i, L, N);
    ghost var u := before + points;
    forall k | 0 <= k < |t|
      ensures t[k] == u[k]
    {
      if k < |before| {
        assert t[k] == t[..|before|][k];
      } else {
        var m := k - |before|;
        assert t[k] == GridValue(i, m + 1, L, N) == points[m];
      }
    }
    assert t == u;
  }

  /** Section i of the candidate grid: L equally spaced points after i / N, the last at (i + 1) / N. */
  function SectionPoints(i: int, L: int, N: int): seq<real>
    requires L >= 1 && N >= 1
  {
    seq(L, j requires 0 <= j < L => GridValue(i, j + 1, L, N))
  }

  /** The state of CandidateGrid's loop: the points so far, the count per section and the schedule. */
  datatype GridState = GridState(t: seq<real>, local: int, sectionSize: real, sectionCount: int)

  /**
   * The state after i sections: each section adds its points; after a section, once the
   * sections since the last halving reach the section size, the size doubles and the count per
   * section is halved, rounding up.
   */
  function GridAfter(i: nat, N: int): (g: GridState)
    requires N >= 1
    ensures |g.t| >= 1 && g.local >= 1
  {
    if i == 0 then GridState([0.0], N, 0.5, 0)
    else
      var g := GridAfter(i - 1, N);
      var t := g.t + SectionPoints(i - 1, g.local, N);
      var c := g.sectionCount + 1;
      if c as real >= g.sectionSize then GridState(t, (g.local + 1) / 2, g.sectionSize * 2.0, 0)
      else GridState(t, g.local, g.sectionSize, c)
  }

  /** The candidate parameters of Divide for N samples. */
  function Grid(N: int): (t: seq<real>)
    requires N >= 1
    ensures |t| >= 1
  {
    GridAfter(N, N).t
  }

  /**
   * The candidate parameters of Divide: 0, then for each of the N sections
   * `localDivisionCount` equally spaced points ending at the section's end.
   * The count starts at N and is halved (rounding up) after sections 0, 1,
   * 3, 7, ...; `locals` records the count used in each section.
   */
  method CandidateGrid(divisionCount: int) returns (t: seq<real>, ghost locals: seq<int>)
    requires divisionCount >= 1
    ensures t == Grid(divisionCount)
    ensures |locals| == divisionCount && Halving(locals, divisionCount)
    ensures |t| == 1 + SumInts(locals) && |t| >= 1 + divisionCount
    ensures t[0] == 0.0 && t[|t| - 1] == 1.0 && Increasing(t)
    ensures forall k :: 0 <= k < |t| ==> 0.0 <= t[k] <= 1.0
    ensures forall i :: 0 <= i <= divisionCount ==> Fraction(i, divisionCount) in t
  {
    var N := divisionCount;
    t := [0.0];
    locals := [];
    var localDivisionCount := N;
    var sectionSize := 0.5;
    var sectionCount := 0;
    for i := 0 to N
      invariant GridLoop(t, locals, localDivisionCount, sectionSize, sectionCount, i, N)
    {
      t, locals, localDivisionCount, sectionSize, sectionCount :=
        GridSection(t, locals, localDivisionCount, sectionSize, sectionCount, i, N);
    }
    GridComplete(t, N);
  }

  /** The state of CandidateGrid's loop after i of N sections. */
  ghost predicate GridLoop(t: seq<real>, locals: seq<int>, local: int, size: real, count: int, i: nat, N: int) {
    N >= 1 && i <= N && |locals| == i && 1 <= local &&
    (i == 0 ==> local == N) && (i > 0 ==> local <= locals[i - 1]) &&
    Halving(locals, N) && |t| == 1 + SumInts(locals) && |t| >= 1 + i &&
    GridPrefix(t, i, N) && GridAfter(i, N) == GridState(t, local, size, count)
  }

  /** One pass of CandidateGrid's loop: section i's points, then the schedule update. */
  method GridSection(t: seq<real>, ghost locals: seq<int>, local: int, size: real, count: int, i: nat, N: int)
    returns (t': seq<real>, ghost locals': seq<int>, local': int, size': real, count': int)
    requires i < N && GridLoop(t, locals, local, size, count, i, N)
    ensures GridLoop(t', locals', local', size', count', i + 1, N)
  {
    t' := AppendSection(t, i, local, N);
    HalvingStep(locals, local, N);
    locals' := locals + [local];
    count' := count + 1;
    local', size' := local, size;
    if count' as real >= size {
      count' := 0;
      size' := size * 2.0;
      local' := (local + 1) / 2;
    }
  }

  /** The running arc length at every candidate parameter, one two-point Simpson step at a time. */
  method CumulativeLengths(t: seq<real>, speed: real -> real) returns (length: seq<real>)
    requires |t| >= 1
    ensures |length| == |t| && length[0] == 0.0
    ensures forall k :: 0 <= k < |t| ==> length[k] == CompositeLength(t, speed, k + 1)
  {
    length := [0.0];
    for i := 0 to |t| - 1
      invariant |length| == i + 1
      invariant forall k :: 0 <= k <= i ==> length[k] == CompositeLength(t, speed, k + 1)
    {
      var pair := t[i..i + 2];
      var step := LengthByRungeKuttaMethod(pair, speed);
      ShortListsAgree(pair, speed);
      length := length + [length[i] + step];
    }
  }

  /** The measured length from base at a up to tm is within the margin of the goal. */
  predicate Reached(speed: real -> real, base: real, a: real, tm: real, goal: real) {
    Abs(base + Simpson(speed, a, tm) - goal) < MarginOfError
  }

  /**
   * The call where the bisection stops: its `length` and `t0` arguments and the midpoint it
   * returns.
   */
  datatype Stop = Stop(length: real, t0: real, tmid: real)

  /**
   * ParameterFromLength(length, t0, t1, goal): bisects [t0, t1] for the parameter at which the
   * length measured from `length` at t0 reaches the goal, and returns the midpoint of the call
   * that stops, with that call's length and t0. The recursion of the C# code has no depth
   * bound; here it gives None after `fuel` calls.
   */
  function ParameterFromLength(speed: real -> real, length: real, t0: real, t1: real, goal: real, fuel: nat): (r: Option<Stop>)
    ensures r.Some? ==> Reached(speed, r.value.length, r.value.t0, r.value.tmid, goal)
    ensures r.Some? && t0 <= t1 ==> t0 <= r.value.t0 <= r.value.tmid <= t1
    ensures r.Some? && r.value.t0 == t0 && t0 < t1 ==> r.value.length == length
    decreases fuel
  {
    if fuel == 0 then None
    else
      var tmid := (t0 + t1) / 2.0;
      // LengthByRungeKuttaMethod of the list [t0, tmid] is one Simpson step (ShortListsAgree)
      var lmid := length + Simpson(speed, t0, tmid);
      if Abs(lmid - goal) < MarginOfError then Some(Stop(length, t0, tmid))
      else if goal < lmid then ParameterFromLength(speed, length, t0, tmid, goal, fuel - 1)
      else ParameterFromLength(speed, lmid, tmid, t1, goal, fuel - 1)
  }

  /** A chain of parameters from a to b that never goes back. */
  predicate Chain(c: seq<real>, a: real, b: real) {
    |c| >= 1 && c[0] == a && c[|c| - 1] == b && forall k :: 0 < k < |c| ==> c[k - 1] <= c[k]
  }

  /** Measuring from x to the start of a chain and then along it. */
  lemma {:induction false} CompositePrepend(x: real, c: seq<real>, speed: real -> real, k: nat)
    requires 1 <= k <= |c|
    ensures CompositeLength([x] + c, speed, k + 1) == Simpson(speed, x, c[0]) + CompositeLength(c, speed, k)
  {
    var d := [x] + c;
    if k == 1 {
      assert CompositeLength(d, speed, 1) == 0.0 && CompositeLength(c, speed, 1) == 0.0;
      assert d[0] == x && d[1] == c[0];
    } else {
      CompositePrepend(x, c, speed, k - 1);
      assert d[k - 1] == c[k - 2] && d[k] == c[k - 1];
    }
  }

  /**
   * The length ParameterFromLength stops at is the one it started from plus the two-point
   * Simpson lengths of the right halves it moved to: a chain from t0 to the stopping t0.
   */
  lemma {:induction false} StopMeasured(speed: real -> real, length: real, t0: real, t1: real, goal: real, fuel: nat)
    requires t0 <= t1 && ParameterFromLength(speed, length, t0, t1, goal, fuel).Some?
    ensures var s := ParameterFromLength(speed, length, t0, t1, goal, fuel).value;
      exists c :: Chain(c, t0, s.t0) && s.length == length + CompositeLength(c, speed, |c|)
    decreases fuel
  {
    var r := ParameterFromLength(speed, length, t0, t1, goal, fuel);
    var s := r.value;
    var tmid := (t0 + t1) / 2.0;
    var lmid := length + Simpson(speed, t0, tmid);
    if Abs(lmid - goal) < MarginOfError {
      assert r == Some(Stop(length, t0, tmid));
      assert Chain([t0], t0, s.t0) && CompositeLength([t0], speed, 1) == 0.0;
    } else if goal < lmid {
      assert r == ParameterFromLength(speed, length, t0, tmid, goal, fuel - 1);
      StopMeasured(speed, length, t0, tmid, goal, fuel - 1);
    } else {
      assert r == ParameterFromLength(speed, lmid, tmid, t1, goal, fuel - 1);
      StopMeasured(speed, lmid, tmid, t1, goal, fuel - 1);
      var c :| Chain(c, tmid, s.t0) && s.length == lmid + CompositeLength(c, speed, |c|);
      ChainPrepend(t0, c, speed, s.t0);
      var d := [t0] + c;
      assert |d| == |c| + 1;
      assert Chain(d, t0, s.t0) && s.length == length + CompositeLength(d, speed, |d|);
    }
  }

  /** A step from x up to the start of a chain, then the chain: a chain from x, measured by both. */
  lemma ChainPrepend(x: real, c: seq<real>, speed: real -> real, b: real)
    requires |c| >= 1 && Chain(c, c[0], b) && x <= c[0]
    ensures Chain([x] + c, x, b)
    ensures CompositeLength([x] + c, speed, |c| + 1) == Simpson(speed, x, c[0]) + CompositeLength(c, speed, |c|)
  {
    CompositePrepend(x, c, speed, |c|);
    var d := [x] + c;
    forall k | 0 < k < |d|
      ensures d[k - 1] <= d[k]
    {
      if k > 1 {
        assert d[k - 1] == c[k - 2] && d[k] == c[k - 1];
      }
    }
  }

  /** A larger goal never bisects to an earlier parameter within the same interval. */
  lemma {:induction false} ParameterMonotone(speed: real -> real, length: real, t0: real, t1: real,
                                             goal: real, goal': real, fuel: nat)
    requires t0 <= t1 && goal <= goal'
    requires ParameterFromLength(speed, length, t0, t1, goal, fuel).Some?
    requires ParameterFromLength(speed, length, t0, t1, goal', fuel).Some?
    ensures ParameterFromLength(speed, length, t0, t1, goal, fuel).value.tmid <=
            ParameterFromLength(speed, length, t0, t1, goal', fuel).value.tmid
    decreases fuel
  {
    var tmid := (t0 + t1) / 2.0;
    var lmid := length + Simpson(speed, t0, tmid);
    var near, near' := Abs(lmid - goal) < MarginOfError, Abs(lmid - goal') < MarginOfError;
    if !near && !near' && goal < lmid && goal' < lmid {
      ParameterMonotone(speed, length, t0, tmid, goal, goal', fuel - 1);
    } else if !near && !near' && goal >= lmid && goal' >= lmid {
      ParameterMonotone(speed, lmid, tmid, t1, goal, goal', fuel - 1);
    }
  }

  /** The length Divide aims at for sample i: i equal steps of total / N. */
  function Goal(i: int, total: real, N: int): real
    requires N >= 1
  {
    (i as real) * (total / N as real)
  }

  /** Every goal with i < N lies within the total. */
  lemma GoalWithinTotal(i: int, N: int, total: real)
    requires 1 <= i < N && total >= 0.0
    ensures Goal(i, total, N) <= total
  {
    var dx := total / N as real;
    assert dx >= 0.0;
    assert dx * N as real == total;
    assert (i as real) * dx <= (N as real) * dx;
  }

  /** A larger i never gives a smaller goal. */
  lemma GoalStep(i: int, N: int, total: real)
    requires N >= 1 && i >= 1 && total >= 0.0
    ensures Goal(i - 1, total, N) <= Goal(i, total, N)
  {
    var dx := total / N as real;
    assert dx >= 0.0;
    assert Goal(i, total, N) == Goal(i - 1, total, N) + dx;
  }

  /** A list whose neighbours increase is sorted. */
  lemma {:induction false} IncreasingSorted(t: seq<real>)
    requires Increasing(t)
    ensures forall a, b :: 0 <= a <= b < |t| ==> t[a] <= t[b]
  {
    if |t| > 1 {
      var u := t[..|t| - 1];
      assert Increasing(u) by {
        forall k | 0 < k < |u|
          ensures u[k - 1] < u[k]
        {
          assert u[k - 1] == t[k - 1] && u[k] == t[k];
        }
      }
      IncreasingSorted(u);
      forall a, b | 0 <= a <= b < |t|
        ensures t[a] <= t[b]
      {
        if b < |t| - 1 {
          assert t[a] == u[a] && t[b] == u[b];
        } else if a < b {
          assert t[a] == u[a] && u[a] <= u[b - 1] && u[b - 1] == t[b - 1];
        }
      }
    }
  }

  /**
   * The parameter found for a goal length: bisection inside the candidate interval
   * [t[j-1], t[j]], whose end has reached the goal.
   */
  predicate LocatedAt(speed: real -> real, t: seq<real>, length: seq<real>, goal: real, fuel: nat, p: real, j: int)
    requires |t| == |length|
  {
    1 <= j < |t| && goal <= length[j] &&
    var s := ParameterFromLength(speed, length[j - 1], t[j - 1], t[j], goal, fuel);
    s.Some? && s.value.tmid == p
  }

  ghost predicate Located(speed: real -> real, t: seq<real>, length: seq<real>, goal: real, fuel: nat, p: real)
    requires |t| == |length|
  {
    exists j :: LocatedAt(speed, t, length, goal, fuel, p, j)
  }

  /**
   * Two goals located in the same or in later intervals, the second no smaller, give parameters
   * in order.
   */
  lemma LocatedInOrder(speed: real -> real, t: seq<real>, length: seq<real>, fuel: nat,
                       goal: real, p: real, j: int, goal': real, p': real, j': int)
    requires |t| == |length| && forall a, b :: 0 <= a <= b < |t| ==> t[a] <= t[b]
    requires LocatedAt(speed, t, length, goal, fuel, p, j) && LocatedAt(speed, t, length, goal', fuel, p', j')
    requires j <= j' && goal <= goal'
    ensures p <= p'
  {
    if j == j' {
      ParameterMonotone(speed, length[j - 1], t[j - 1], t[j], goal, goal', fuel);
    } else {
      assert t[j] <= t[j' - 1];
    }
  }

  /**
   * The parameter search of Divide: 0, then for each goal i * (total / N)
   * with 0 < i < N the candidate interval is advanced until its end reaches
   * the goal and the parameter is bisected inside it, then 1. The parameters
   * never decrease.
   */
  method EqualLengthParameters(speed: real -> real, t: seq<real>, length: seq<real>, N: int, fuel: nat)
    returns (r: Option<seq<real>>)
    requires N >= 1 && |t| == |length| >= 2
    requires Increasing(t)
    requires forall k :: 0 <= k < |t| ==> 0.0 <= t[k] <= 1.0
    requires length[|length| - 1] >= 0.0
    ensures r.Some? ==> |r.value| == N + 1 && r.value[0] == 0.0 && r.value[N] == 1.0
    ensures r.Some? ==> forall k :: 0 <= k <= N ==> 0.0 <= r.value[k] <= 1.0
    ensures r.Some? ==> forall k :: 0 < k < N ==>
      Located(speed, t, length, Goal(k, length[|length| - 1], N), fuel, r.value[k])
    ensures r.Some? ==> forall k :: 0 < k <= N ==> r.value[k - 1] <= r.value[k]
  {
    IncreasingSorted(t);
    var total := length[|length| - 1];
    var parameter := [0.0];
    var searchIndex := 1;
    ghost var at: seq<int> := [1];
    for i := 1 to N
      invariant ParameterLoop(speed, t, length, total, N, fuel, parameter, at, searchIndex, i)
    {
      var p;
      p, searchIndex, at := NextParameter(speed, t, length, total, N, fuel, parameter, at, searchIndex, i);
      if p.None? {
        return None;
      }
      parameter := parameter + [p.value];
    }
    r := Some(parameter + [1.0]);
    forall k | 0 < k < N
      ensures Located(speed, t, length, Goal(k, total, N), fuel, r.value[k])
    {
      assert LocatedAt(speed, t, length, Goal(k, total, N), fuel, r.value[k], at[k]);
    }
  }

  /**
   * The state of EqualLengthParameters' loop before goal i: parameters 0..i-1, each located in
   * the interval at[k] and no smaller than the one before, and the search index no earlier than
   * the last of them.
   */
  ghost predicate ParameterLoop(speed: real -> real, t: seq<real>, length: seq<real>, total: real, N: int,
                                fuel: nat, parameter: seq<real>, at: seq<int>, searchIndex: int, i: int)
  {
    N >= 1 && |t| == |length| && 1 <= i && |parameter| == i && |at| == i && parameter[0] == 0.0
    && (forall k :: 0 <= k < i ==> 0.0 <= parameter[k] <= 1.0)
    && (forall k :: 0 < k < i ==> LocatedAt(speed, t, length, Goal(k, total, N), fuel, parameter[k], at[k]))
    && (forall k :: 0 < k < i ==> parameter[k - 1] <= parameter[k])
    && 1 <= at[i - 1] <= searchIndex < |length|
  }

  /** The body of EqualLengthParameters' loop for goal i, which appends the parameter it locates. */
  method NextParameter(speed: real -> real, t: seq<real>, length: seq<real>, total: real, N: int, fuel: nat,
                       parameter: seq<real>, ghost at: seq<int>, searchIndex: int, i: int)
    returns (p: Option<real>, next: int, ghost at': seq<int>)
    requires ParameterLoop(speed, t, length, total, N, fuel, parameter, at, searchIndex, i)
    requires 1 <= i < N && total == length[|length| - 1] && total >= 0.0
    requires forall a, b :: 0 <= a <= b < |t| ==> t[a] <= t[b]
    requires forall k :: 0 <= k < |t| ==> 0.0 <= t[k] <= 1.0
    ensures p.Some? ==> ParameterLoop(speed, t, length, total, N, fuel, parameter + [p.value], at', next, i + 1)
  {
    var goal := Goal(i, total, N);
    GoalWithinTotal(i, N, total);
    if i > 1 {
      GoalStep(i, N, total);
    }
    ghost var previous := if i > 1 then Goal(i - 1, total, N) else 0.0;
    p, next := Locate(speed, t, length, fuel, goal, searchIndex, previous, parameter[i - 1], at[i - 1], i > 1);
    at' := at + [next];
    if p.Some? {
      ParameterLoopStep(speed, t, length, total, N, fuel, parameter, at, searchIndex, i, p.value, next);
    }
  }

  lemma ParameterLoopStep(speed: real -> real, t: seq<real>, length: seq<real>, total: real, N: int,
                          fuel: nat, parameter: seq<real>, at: seq<int>, searchIndex: int, i: int,
                          p: real, next: int)
    requires ParameterLoop(speed, t, length, total, N, fuel, parameter, at, searchIndex, i)
    requires LocatedAt(speed, t, length, Goal(i, total, N), fuel, p, next)
    requires parameter[i - 1] <= p && 0.0 <= p <= 1.0 && searchIndex <= next < |length|
    ensures ParameterLoop(speed, t, length, total, N, fuel, parameter + [p], at + [next], next, i + 1)
  {
    var ps, qs := parameter + [p], at + [next];
    forall k | 0 < k < i + 1
      ensures LocatedAt(speed, t, length, Goal(k, total, N), fuel, ps[k], qs[k])
    {
      if k < i {
        assert ps[k] == parameter[k] && qs[k] == at[k];
      }
    }
    forall k | 0 < k < i + 1
      ensures ps[k - 1] <= ps[k]
    {
      if k < i {
        assert ps[k - 1] == parameter[k - 1] && ps[k] == parameter[k];
      }
    }
  }

  /**
   * One goal of EqualLengthParameters: the search index moves on to the first candidate interval
   * whose end reaches the goal, and the parameter is bisected inside it. It is no smaller than
   * the previous parameter, located for a goal no larger at an index no later.
   */
  method Locate(speed: real -> real, t: seq<real>, length: seq<real>, fuel: nat, goal: real, from: int,
                ghost previousGoal: real, previous: real, ghost previousAt: int, ghost located: bool)
    returns (p: Option<real>, searchIndex: int)
    requires |t| == |length| && 1 <= previousAt <= from < |length| && goal <= length[|length| - 1]
    requires forall a, b :: 0 <= a <= b < |t| ==> t[a] <= t[b]
    requires forall k :: 0 <= k < |t| ==> 0.0 <= t[k] <= 1.0
    requires located ==> previousGoal <= goal && LocatedAt(speed, t, length, previousGoal, fuel, previous, previousAt)
    requires !located ==> previous == 0.0
    ensures from <= searchIndex < |length|
    ensures p.Some? ==> LocatedAt(speed, t, length, goal, fuel, p.value, searchIndex)
    ensures p.Some? ==> previous <= p.value && 0.0 <= p.value <= 1.0
  {
    searchIndex := Advance(length, from, goal);
    var s := ParameterFromLength(speed, length[searchIndex - 1], t[searchIndex - 1], t[searchIndex], goal, fuel);
    if s.None? {
      return None, searchIndex;
    }
    p := Some(s.value.tmid);
    assert LocatedAt(speed, t, length, goal, fuel, p.value, searchIndex);
    if located {
      LocatedInOrder(speed, t, length, fuel, previousGoal, previous, previousAt, goal, p.value, searchIndex);
    } else {
      assert t[0] <= t[searchIndex - 1];
    }
  }

  /** The search index moves on until the end of its candidate interval reaches the goal. */
  method Advance(length: seq<real>, from: int, goal: real) returns (searchIndex: int)
    requires 1 <= from < |length| && goal <= length[|length| - 1]
    ensures from <= searchIndex < |length| && goal <= length[searchIndex]
    ensures forall k :: from <= k < searchIndex ==> length[k] < goal
  {
    searchIndex := from;
    while length[searchIndex] < goal
      invariant from <= searchIndex < |length|
      invariant forall k :: from <= k < searchIndex ==> length[k] < goal
      decreases |length| - searchIndex
    {
      searchIndex := searchIndex + 1;
    }
  }

  /** The arc lengths of Divide: the same step for every sample. */
  method Uniform(n: nat, dx: real) returns (arcLengths: seq<real>)
    ensures |arcLengths| == n && forall k :: 0 <= k < n ==> arcLengths[k] == dx
  {
    arcLengths := [];
    for i := 0 to n
      invariant |arcLengths| == i && forall k :: 0 <= k < i ==> arcLengths[k] == dx
    {
      arcLengths := arcLengths + [dx];
    }
  }

  /** The speed |dB/dt| of the curve with the given table and control points. */
  function Speed(rows: seq<seq<int>>, points: seq<Vec3>, sqrt: real -> real): real -> real {
    x => sqrt(SqrMagnitude(VelocityAt(rows, points, x, 1)))
  }

  lemma SpeedNonNegative(rows: seq<seq<int>>, points: seq<Vec3>, sqrt: real -> real)
    requires IsSqrt(sqrt)
    ensures forall x :: Speed(rows, points, sqrt)(x) >= 0.0
  {
    forall x
      ensures Speed(rows, points, sqrt)(x) >= 0.0
    {
      SqrMagnitudeNonNegative(VelocityAt(rows, points, x, 1));
    }
  }

  lemma StepNonNegative(total: real, N: int)
    requires N >= 1 && total >= 0.0
    ensures total / N as real >= 0.0
  {
  }

  /** The parameters of Divide's samples: N + 1 of them from 0 to 1, never decreasing. */
  predicate SampleParameters(ps: seq<real>, N: int) {
    |ps| == N + 1 && N >= 0 && ps[0] == 0.0 && ps[N] == 1.0 &&
    (forall k :: 0 <= k <= N ==> 0.0 <= ps[k] <= 1.0) &&
    (forall k :: 0 < k <= N ==> ps[k - 1] <= ps[k])
  }

  /** The length Divide measures: two-point Simpson steps over the whole candidate grid. */
  function GridLength(rows: seq<seq<int>>, points: seq<Vec3>, sqrt: real -> real, N: int): real
    requires N >= 1
  {
    var t := Grid(N);
    CompositeLength(t, Speed(rows, points, sqrt), |t|)
  }

  /** The cumulative lengths Divide measures: entry k is the length along the candidate grid up to its point k. */
  function GridLengths(rows: seq<seq<int>>, points: seq<Vec3>, sqrt: real -> real, N: int): (length: seq<real>)
    requires N >= 1
    ensures |length| == |Grid(N)| && length[|length| - 1] == GridLength(rows, points, sqrt, N)
  {
    var t := Grid(N);
    seq(|t|, k requires 0 <= k < |t| => CompositeLength(t, Speed(rows, points, sqrt), k + 1))
  }

  /**
   * The equal-length promise for sample k of Divide: p is the bisection's answer for the goal
   * k * total / N inside the first candidate interval whose cumulative length reaches that goal.
   */
  ghost predicate EqualLengthSample(rows: seq<seq<int>>, points: seq<Vec3>, sqrt: real -> real, N: int, fuel: nat,
                                    k: int, p: real)
    requires N >= 1
  {
    var length := GridLengths(rows, points, sqrt, N);
    Located(Speed(rows, points, sqrt), Grid(N), length, Goal(k, length[|length| - 1], N), fuel, p)
  }

  /** Samples taken at located parameters, each with the step dx of the measured grid, keep Divide's promises. */
  lemma SampledOnParameters(rows: seq<seq<int>>, points: seq<Vec3>, sqrt: real -> real, N: int, fuel: nat,
                            t: seq<real>, length: seq<real>, ps: seq<real>, curve: Curve, dx: real)
    requires N >= 1 && t == Grid(N) && length == GridLengths(rows, points, sqrt, N)
    requires length[|length| - 1] >= 0.0 && dx == length[|length| - 1] / N as real
    requires SampleParameters(ps, N)
    requires forall k :: 0 < k < N ==>
      Located(Speed(rows, points, sqrt), t, length, Goal(k, length[|length| - 1], N), fuel, ps[k])
    requires |curve.positions| == |curve.arcLengths| == N + 1
    requires forall k :: 0 <= k <= N ==> curve.positions[k] == PointAt(rows, points, ps[k])
    requires forall k :: 0 <= k <= N ==> curve.arcLengths[k] == dx
    ensures exists ps' ::
      SampleParameters(ps', N) &&
      (forall k :: 0 <= k <= N ==> curve.positions[k] == PointAt(rows, points, ps'[k])) &&
      forall k :: 0 < k < N ==> EqualLengthSample(rows, points, sqrt, N, fuel, k, ps'[k])
    ensures forall k :: 0 <= k <= N ==> curve.arcLengths[k] == GridLength(rows, points, sqrt, N) / N as real
    ensures curve.arcLengths[0] >= 0.0
  {
    StepNonNegative(length[|length| - 1], N);
  }

  class BezierCurve {
    var controlPoints: seq<Vec3>
    const bernstein: Bernstein

    predicate Valid()
      reads this, bernstein, bernstein.combinationsTable
    {
      bernstein.Valid() && bernstein.combinationsTable.Length == |controlPoints|
    }

    /** The coefficient table as a value. */
    function Table(): seq<seq<int>>
      reads bernstein, bernstein.combinationsTable
    {
      bernstein.combinationsTable[..]
    }

    /** The Bernstein table is built for the empty control list and then resized by the setter. */
    constructor (controlPoints: seq<Vec3>)
      requires TableDefined(|controlPoints|)
      ensures Valid() && this.controlPoints == controlPoints && Table() == Rows(|controlPoints|)
    {
      this.controlPoints := [];
      bernstein := new Bernstein(0);
      new;
      SetControlPoints(controlPoints);
    }

    /** The ControlPoints setter keeps the table sized to the control points. */
    method SetControlPoints(value: seq<Vec3>)
      requires bernstein.Valid() && TableDefined(|value|)
      modifies this, bernstein
      ensures Valid() && controlPoints == value && Table() == Rows(|value|)
    {
      controlPoints := value;
      bernstein.Update(|controlPoints|);
    }

    /** The point at t: the control points weighted by the Bernstein basis. */
    method Position(t: real) returns (position: Vec3)
      requires Valid()
      ensures position == PointAt(Table(), controlPoints, t)
    {
      var degree := |controlPoints| - 1;
      var rows := Table();
      position := Zero;
      for i := 0 to |controlPoints|
        invariant position == WeightedSum(controlPoints, BasisWeights(rows, |controlPoints|, t), i)
      {
        assert BasisWeights(rows, |controlPoints|, t)[i] == Basis(rows, degree, i, t);
        position := Add(position, Scale(controlPoints[i], Basis(rows, degree, i, t)));
      }
    }

    /** The derivative of the given order at t. */
    method Differential(t: real, order: int) returns (vector: Vec3)
      requires Valid()
      ensures vector == VelocityAt(Table(), controlPoints, t, order)
    {
      var degree := |controlPoints| - 1;
      var rows := Table();
      vector := Zero;
      for i := 0 to |controlPoints|
        invariant vector == WeightedSum(controlPoints, DerivativeWeights(rows, |controlPoints|, t, order), i)
      {
        vector := Add(vector, Scale(controlPoints[i], Derivative(rows, degree, i, t, order)));
      }
    }

    /**
     * Divide: N + 1 samples at parameters of equal arc length. The first is
     * at 0, the last at 1, each inner one found by bisection inside the
     * candidate interval that contains its goal length; every sample carries
     * the same arc length total / N. None when a bisection runs out of fuel.
     */
    method Divide(divisionCount: int, sqrt: real -> real, sample: (Vec3, Vec3, Vec3) -> Sample, fuel: nat)
      returns (r: Option<Curve>)
      requires Valid() && divisionCount >= 1 && IsSqrt(sqrt)
      ensures r.Some? ==> Aligned(r.value) && Count(r.value) == divisionCount + 1
      ensures r.Some? ==> r.value.positions[0] == PointAt(Table(), controlPoints, 0.0)
      ensures r.Some? ==> r.value.positions[divisionCount] == PointAt(Table(), controlPoints, 1.0)
      ensures r.Some? ==>
        exists ps :: SampleParameters(ps, divisionCount) &&
          (forall k :: 0 <= k <= divisionCount ==> r.value.positions[k] == PointAt(Table(), controlPoints, ps[k])) &&
          forall k :: 0 < k < divisionCount ==> EqualLengthSample(Table(), controlPoints, sqrt, divisionCount, fuel, k, ps[k])
      ensures r.Some? ==> forall k :: 0 <= k <= divisionCount ==>
        r.value.arcLengths[k] == GridLength(Table(), controlPoints, sqrt, divisionCount) / divisionCount as real
      ensures r.Some? ==> r.value.arcLengths[0] >= 0.0
    {
      r := EqualLengthCurve(Table(), controlPoints, divisionCount, sqrt, sample, fuel);
    }
  }

  /** The candidate grid of Divide and the cumulative length measured along it, which never goes negative. */
  method MeasureGrid(rows: seq<seq<int>>, cps: seq<Vec3>, sqrt: real -> real, N: int)
    returns (t: seq<real>, length: seq<real>)
    requires N >= 1 && IsSqrt(sqrt)
    ensures t == Grid(N) && length == GridLengths(rows, cps, sqrt, N)
    ensures |t| == |length| >= 2 && Increasing(t) && forall k :: 0 <= k < |t| ==> 0.0 <= t[k] <= 1.0
    ensures length[|length| - 1] >= 0.0
  {
    var speed := Speed(rows, cps, sqrt);
    SpeedNonNegative(rows, cps, sqrt);
    ghost var locals;
    t, locals := CandidateGrid(N);
    length := CumulativeLengths(t, speed);
    CompositeMonotone(t, speed, |t|);
  }

  /** Divide on the coefficient table and the control points as values. */
  method EqualLengthCurve(rows: seq<seq<int>>, cps: seq<Vec3>, divisionCount: int, sqrt: real -> real,
                          sample: (Vec3, Vec3, Vec3) -> Sample, fuel: nat) returns (r: Option<Curve>)
    requires divisionCount >= 1 && IsSqrt(sqrt)
    ensures r.Some? ==> Aligned(r.value) && Count(r.value) == divisionCount + 1
    ensures r.Some? ==> r.value.positions[0] == PointAt(rows, cps, 0.0)
    ensures r.Some? ==> r.value.positions[divisionCount] == PointAt(rows, cps, 1.0)
    ensures r.Some? ==>
      exists ps :: SampleParameters(ps, divisionCount) &&
        (forall k :: 0 <= k <= divisionCount ==> r.value.positions[k] == PointAt(rows, cps, ps[k])) &&
        forall k :: 0 < k < divisionCount ==> EqualLengthSample(rows, cps, sqrt, divisionCount, fuel, k, ps[k])
    ensures r.Some? ==> forall k :: 0 <= k <= divisionCount ==>
      r.value.arcLengths[k] == GridLength(rows, cps, sqrt, divisionCount) / divisionCount as real
    ensures r.Some? ==> r.value.arcLengths[0] >= 0.0
  {
    var N := divisionCount;
    var t, length := MeasureGrid(rows, cps, sqrt, N);
    var dx := length[|length| - 1] / N as real;
    var found := EqualLengthParameters(Speed(rows, cps, sqrt), t, length, N, fuel);
    if found.None? {
      return None;
    }
    var curve := SampleCurve(rows, cps, found.value, N, dx, sample);
    SampledOnParameters(rows, cps, sqrt, N, fuel, t, length, found.value, curve, dx);
    r := Some(curve);
  }

  /** The curve of Divide: a sample at each parameter, every one with the arc length dx. */
  method SampleCurve(rows: seq<seq<int>>, cps: seq<Vec3>, parameter: seq<real>, N: int, dx: real,
                     sample: (Vec3, Vec3, Vec3) -> Sample) returns (curve: Curve)
    requires SampleParameters(parameter, N)
    ensures Aligned(curve) && Count(curve) == N + 1
    ensures curve.positions[0] == PointAt(rows, cps, 0.0) && curve.positions[N] == PointAt(rows, cps, 1.0)
    ensures forall k :: 0 <= k <= N ==> curve.positions[k] == PointAt(rows, cps, parameter[k])
    ensures forall k :: 0 <= k <= N ==> curve.arcLengths[k] == dx
  {
    var arcLengths := Uniform(|parameter|, dx);
    curve := FromParametric(parameter, arcLengths, x => PointAt(rows, cps, x),
                            (x, o) => VelocityAt(rows, cps, x, o), sample);
  }

  /** Divided curves start at the first control point and end at the last. */
  lemma DivideEndpoints(rows: seq<seq<int>>, points: seq<Vec3>, c: Curve, n: nat)
    requires |points| > 0 && TableDefined(|points|) && rows == Rows(|points|)
    requires |c.positions| == n + 1
    requires c.positions[0] == PointAt(rows, points, 0.0) && c.positions[n] == PointAt(rows, points, 1.0)
    ensures c.positions[0] == points[0] && c.positions[n] == points[|points| - 1]
  {
    PositionEndpoints(rows, points);
  }
}
