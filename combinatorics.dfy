/**
 * Combinatorics: the identity and reversal permutations, and binomial
 * coefficients computed in 32-bit integers without overflowing in between.
 */
module Combinatorics {
  import opened Wrappers

  const Int32Min: int := -0x8000_0000
  const Int32Max: int := 0x7FFF_FFFF

  type Int32 = x: int | Int32Min <= x <= Int32Max

  /** The exceptions the operations throw. */
  datatype Failure = ArgumentOutOfRange | Overflow

  /** Unchecked 32-bit arithmetic wraps around. */
  function Wrap32(x: int): (r: Int32)
    ensures Int32Min <= x <= Int32Max ==> r == x
    ensures Int32Max < x <= 2 * Int32Max + 1 ==> r == x - 0x1_0000_0000
  {
    (x - Int32Min) % 0x1_0000_0000 + Int32Min
  }

  // ---------------------------------------------------------- permutations

  /** (0, 1, ..., n - 1). */
  function Identity(n: nat): (r: seq<int>)
    ensures |r| == n && forall i :: 0 <= i < n ==> r[i] == i
  {
    seq(n, i => i)
  }

  /** (n - 1, ..., 1, 0). */
  function Reversal(n: nat): (r: seq<int>)
    ensures |r| == n && forall i :: 0 <= i < n ==> r[i] == Identity(n)[n - 1 - i]
  {
    seq(n, i => n - 1 - i)
  }

  /** Every index below the length occurs exactly once. */
  predicate IsPermutationOfRange(s: seq<int>)
  {
    (forall i :: 0 <= i < |s| ==> 0 <= s[i] < |s|) &&
    (forall i, j :: 0 <= i < j < |s| ==> s[i] != s[j])
  }

  lemma PermutationsOfRange(n: nat)
    ensures IsPermutationOfRange(Identity(n))
    ensures IsPermutationOfRange(Reversal(n))
  {
  }

  /** `TrivialPermutation`: a fresh array holding the identity permutation. */
  method TrivialPermutation(n: Int32) returns (r: Result<array<int>, Failure>)
    ensures n < 0 <==> r.Err?
    ensures r.Err? ==> r.error == ArgumentOutOfRange
    ensures r.Ok? ==> fresh(r.value) && r.value[..] == Identity(n)
  {
    if n < 0 {
      return Err(ArgumentOutOfRange);
    }
    var result := new int[n];
    for i := 0 to n
      invariant forall j :: 0 <= j < i ==> result[j] == j
    {
      result[i] := i;
    }
    return Ok(result);
  }

  /** `ReversePermutation`: a fresh array holding the identity permutation backwards. */
  method ReversePermutation(n: Int32) returns (r: Result<array<int>, Failure>)
    ensures n < 0 <==> r.Err?
    ensures r.Err? ==> r.error == ArgumentOutOfRange
    ensures r.Ok? ==> fresh(r.value) && r.value[..] == Reversal(n)
  {
    if n < 0 {
      return Err(ArgumentOutOfRange);
    }
    var result := new int[n];
    for i := 0 to n
      invariant forall j :: 0 <= j < i ==> result[j] == n - 1 - j
    {
      result[i] := n - 1 - i;
    }
    return Ok(result);
  }

  // ------------------------------------------------------------ arithmetic

  lemma MulAtLeast(x: int, g: int)
    requires x >= 1 && g > 0
    ensures x * g >= g
  {
  }

  lemma ModOfMultiple(m: int, g: int)
    requires g > 0
    ensures (m * g) % g == 0
  {
    var p := m * g;
    var q, rem := p / g, p % g;
    assert p == q * g + rem;
    assert (m - q) * g == rem;
    if m - q >= 1 {
      MulAtLeast(m - q, g);
    } else if m - q <= -1 {
      MulAtLeast(q - m, g);
    }
  }

  lemma DivOfMultiple(m: int, g: int)
    requires g > 0
    ensures (m * g) / g == m
  {
    ModOfMultiple(m, g);
    var p := m * g;
    assert p == (p / g) * g;
    assert (m - p / g) * g == 0;
  }

  function Gcd(a: nat, b: nat): nat
    decreases b
  {
    if b == 0 then a else Gcd(b, a % b)
  }

  /** Reducing the larger argument modulo the smaller keeps the divisor. */
  lemma GcdReduceFirst(a: nat, b: nat)
    requires 0 < b < a
    ensures Gcd(a % b, b) == Gcd(a, b)
  {
    assert (a % b) % b == a % b;
  }

  lemma GcdReduceSecond(a: nat, b: nat)
    requires 0 < a <= b
    ensures Gcd(a, b % a) == Gcd(a, b)
  {
    if a < b {
      assert a % b == a;
    } else {
      assert a % b == 0 && b % a == 0;
    }
  }

  method GreatestCommonDivisor(a0: nat, b0: nat) returns (r: nat)
    ensures r == Gcd(a0, b0)
  {
    var a: nat, b: nat := a0, b0;
    while a != 0 && b != 0
      invariant Gcd(a, b) == Gcd(a0, b0)
      decreases a + b
    {
      if a > b {
        GcdReduceFirst(a, b);
        a := a % b;
      } else {
        GcdReduceSecond(a, b);
        b := b % a;
      }
    }
    if a == 0 {
      assert Gcd(0, b) == Gcd(b, 0);
    }
    r := a + b;
  }

  lemma {:induction false} GcdDivides(a: nat, b: nat)
    requires a > 0 || b > 0
    ensures Gcd(a, b) > 0 && a % Gcd(a, b) == 0 && b % Gcd(a, b) == 0
    decreases b
  {
    if b > 0 {
      GcdDivides(b, a % b);
      DividesCombination(a / b, 1, b, a % b, Gcd(a, b));
      assert a == (a / b) * b + 1 * (a % b);
    }
  }

  /** A common divisor of u and v divides x * u + y * v. */
  lemma DividesCombination(x: int, y: int, u: int, v: int, c: int)
    requires c > 0 && u % c == 0 && v % c == 0
    ensures (x * u + y * v) % c == 0
  {
    var u1, v1 := u / c, v / c;
    assert u == u1 * c && v == v1 * c;
    FactorOut(x, y, u1, v1, c);
    ModOfMultiple(x * u1 + y * v1, c);
  }

  lemma {:induction false} Bezout(a: nat, b: nat) returns (x: int, y: int)
    ensures x * a + y * b == Gcd(a, b)
    decreases b
  {
    if b == 0 {
      x, y := 1, 0;
    } else {
      var x', y' := Bezout(b, a % b);
      var q := a / b;
      BezoutStep(a, b, q, a % b, x', y', Gcd(b, a % b));
      x, y := y', x' - y' * q;
    }
  }

  /** The Bezout coefficients of (b, a mod b) give those of (a, b). */
  lemma BezoutStep(a: int, b: int, q: int, r: int, x: int, y: int, g: int)
    requires a == q * b + r && x * b + y * r == g
    ensures y * a + (x - y * q) * b == g
  {
    assert y * a == y * (q * b) + y * r;
    assert (x - y * q) * b == x * b - y * (q * b);
  }

  /** Every common divisor of a and b divides Gcd(a, b), so it is the greatest one. */
  lemma GcdIsGreatest(a: nat, b: nat, c: nat)
    requires c > 0 && a % c == 0 && b % c == 0
    ensures Gcd(a, b) % c == 0
  {
    var x, y := Bezout(a, b);
    DividesCombination(x, y, a, b, c);
  }

  lemma FactorOut(x: int, y: int, a: int, b: int, c: int)
    ensures x * (a * c) + y * (b * c) == (x * a + y * b) * c
  {
  }

  lemma Gauss(d: int, a: int, b: int, x: int, y: int)
    requires d > 0 && x * a + y * d == 1
    requires (a * b) % d == 0
    ensures b % d == 0
  {
    var q := (a * b) / d;
    assert a * b == q * d;
    assert b == (x * a + y * d) * b;
    assert (x * a + y * d) * b == x * (a * b) + (y * b) * d;
    assert x * (q * d) == (x * q) * d;
    assert b == (x * q + y * b) * d;
    ModOfMultiple(x * q + y * b, d);
  }


  /** Dividing both sides of x * a + y * d == g by g. */
  lemma BezoutReduced(a: nat, d: nat, g: nat, s: int, t: int)
    requires g > 0 && a % g == 0 && d % g == 0
    requires s * a + t * d == g
    ensures s * (a / g) + t * (d / g) == 1
  {
    var a1, d1 := a / g, d / g;
    assert a == a1 * g && d == d1 * g;
    assert s * a == (s * a1) * g && t * d == (t * d1) * g;
    assert (s * a1 + t * d1) * g == 1 * g;
  }

  /** The reduced numerator times b is the quotient times the reduced denominator. */
  lemma ReducedProduct(a: nat, b: nat, d: nat, g: nat)
    requires g > 0 && d > 0 && a % g == 0 && d % g == 0 && (a * b) % d == 0
    ensures (a / g) * b == (d / g) * ((a * b) / d)
  {
    var a1, d1, q := a / g, d / g, (a * b) / d;
    assert a == a1 * g && d == d1 * g;
    assert a * b == d * q;
    assert (a1 * b) * g == a * b;
    assert (d1 * q) * g == d * q;
    assert ((a1 * b) - (d1 * q)) * g == 0;
  }

  lemma QuotientLemma(a: nat, b: nat, d: nat, g: nat, s: int, t: int)
    requires a > 0 && b > 0 && d > 0 && (a * b) % d == 0
    requires g == Gcd(a, d) && g > 0 && a % g == 0 && d % g == 0
    requires s * a + t * d == g
    ensures d / g > 0 && b % (d / g) == 0
    ensures Gcd(b, d / g) == d / g
    ensures (a / g) * (b / (d / g)) == (a * b) / d
  {
    var a1, d1, q := a / g, d / g, (a * b) / d;
    assert d == d1 * g;
    BezoutReduced(a, d, g, s, t);
    ReducedProduct(a, b, d, g);
    ModOfMultiple(q, d1);
    assert (a1 * b) % d1 == 0;
    Gauss(d1, a1, b, s, t);
    GcdOfMultiple(b, d1);
    var m := b / d1;
    assert b == m * d1;
    assert (a1 * m) * d1 == q * d1;
    Cancel(a1 * m, q, d1);
  }

  lemma Cancel(u: int, v: int, d: int)
    requires d > 0 && u * d == v * d
    ensures u == v
  {
    assert (u - v) * d == 0;
  }

  lemma GcdOfMultiple(b: nat, d: nat)
    requires d > 0 && b % d == 0
    ensures Gcd(b, d) == d
  {
    assert Gcd(d, 0) == d;
  }

  method MultiplyThenDivide(a: nat, b: nat, d: nat) returns (r: Result<Int32, Failure>)
    requires 0 < a <= Int32Max && 0 < b <= Int32Max && 0 < d <= Int32Max
    requires (a * b) % d == 0
    ensures r.Ok? <==> (a * b) / d <= Int32Max
    ensures r.Ok? ==> r.value == (a * b) / d
    ensures r.Err? ==> r.error == Overflow
  {
    var x := GreatestCommonDivisor(a, d);
    GcdDivides(a, d);
    ghost var s, t := Bezout(a, d);
    QuotientLemma(a, b, d, x, s, t);
    var a1 := a / x;
    var d1 := d / x;
    x := GreatestCommonDivisor(b, d1);
    var b1 := b / x;
    if a1 * b1 > Int32Max {
      return Err(Overflow);
    }
    return Ok(a1 * b1);
  }

  // -------------------------------------------------------------- binomial

  function Choose(n: nat, k: nat): nat
    decreases n
  {
    if k == 0 then 1
    else if n == 0 then 0
    else Choose(n - 1, k - 1) + Choose(n - 1, k)
  }

  lemma {:induction false} ChooseAboveIsZero(n: nat, k: nat)
    requires k > n
    ensures Choose(n, k) == 0
    decreases n
  {
    if n > 0 {
      ChooseAboveIsZero(n - 1, k - 1);
      ChooseAboveIsZero(n - 1, k);
    }
  }

  lemma {:induction false} ChooseOne(m: nat)
    ensures Choose(m, 1) == m
    decreases m
  {
    if m > 0 {
      ChooseOne(m - 1);
    }
  }

  lemma {:induction false} ChooseAll(n: nat)
    ensures Choose(n, n) == 1
    decreases n
  {
    if n > 0 {
      ChooseAll(n - 1);
      ChooseAboveIsZero(n - 1, n);
    }
  }

  /** The arithmetic of one absorption step, with the coefficients as plain numbers. */
  lemma AbsorptionAlgebra(m: int, j: int, c: int, c1: int, p: int, p1: int)
    requires j * c == m * p      // j C(m, j) == m C(m-1, j-1)
    requires (j + 1) * c1 == m * p1  // (j+1) C(m, j+1) == m C(m-1, j)
    requires c == p + p1
    ensures (j + 1) * (c + c1) == (m + 1) * c
  {
    assert (j + 1) * (c + c1) == j * c + c + (j + 1) * c1;
    assert m * p + m * p1 == m * c;
  }

  lemma {:induction false} Absorption(m: nat, j: nat)
    ensures (j + 1) * Choose(m + 1, j + 1) == (m + 1) * Choose(m, j)
    decreases m
  {
    if j == 0 {
      ChooseOne(m + 1);
    } else if m == 0 {
      ChooseAboveIsZero(0, j);
      ChooseAboveIsZero(1, j + 1);
    } else {
      Absorption(m - 1, j);
      Absorption(m - 1, j - 1);
      AbsorptionAlgebra(m, j, Choose(m, j), Choose(m, j + 1),
        Choose(m - 1, j - 1), Choose(m - 1, j));
    }
  }

  /** The symmetry the method uses to keep k small. */
  lemma {:induction false} ChooseSymmetric(n: nat, k: nat)
    requires k <= n
    ensures Choose(n, k) == Choose(n, n - k)
    decreases n
  {
    if k == 0 || k == n {
      ChooseAll(n);
    } else {
      ChooseSymmetric(n - 1, k - 1);
      ChooseSymmetric(n - 1, k);
      assert n - 1 - (k - 1) == n - k;
    }
  }

  /** One step of the product formula: exact, and never decreasing. */
  lemma Step(m: nat, j: nat)
    requires j <= m
    ensures (Choose(m, j) * (m + 1)) % (j + 1) == 0
    ensures (Choose(m, j) * (m + 1)) / (j + 1) == Choose(m + 1, j + 1)
    ensures Choose(m, j) <= Choose(m + 1, j + 1)
  {
    Absorption(m, j);
    ExactQuotient(Choose(m, j), Choose(m + 1, j + 1), m + 1, j + 1);
  }

  /** c * a == c1 * b with 0 < b <= a: the division is exact and c1 is at least c. */
  lemma ExactQuotient(c: nat, c1: nat, a: nat, b: nat)
    requires 0 < b <= a && b * c1 == a * c
    ensures (c * a) % b == 0 && (c * a) / b == c1 && c <= c1
  {
    assert c * a == c1 * b;
    ModOfMultiple(c1, b);
    DivOfMultiple(c1, b);
    assert c * b <= c1 * b by { MulMonotone(c, b, a); }
  }

  lemma MulMonotone(c: nat, x: nat, y: nat)
    requires x <= y
    ensures c * x <= c * y
  {
    assert c * y == c * x + c * (y - x);
  }

  /** The values C(n - k + d, d) the loop visits grow up to C(n, k). */
  lemma {:induction false} Increasing(n: nat, k: nat, d: nat)
    requires d <= k <= n
    ensures Choose(n - k + d, d) <= Choose(n, k)
    decreases k - d
  {
    if d < k {
      Step(n - k + d, d);
      Increasing(n, k, d + 1);
    }
  }

  /** The product formula: C(b + d, d) built up one factor (b + i) / i at a time. */
  function ChooseByProduct(b: nat, d: nat): nat
  {
    if d == 0 then 1 else ChooseByProduct(b, d - 1) * (b + d) / d
  }

  lemma {:induction false} ProductIsChoose(b: nat, d: nat)
    ensures ChooseByProduct(b, d) == Choose(b + d, d)
  {
    if d == 0 {
    } else {
      ProductIsChoose(b, d - 1);
      Step(b + d - 1, d - 1);
    }
  }

  /**
   * Where the 32-bit limit falls: C(33, 17) fits, C(34, 17) does not. The
   * arguments are variables so that the coefficients are reached through the
   * product formula rather than by unfolding Pascal's rule on constants.
   */
  lemma ChooseBoundary(n: nat, k: nat)
    requires n == 33 && k == 17
    ensures Choose(n, k) == 1166803110 <= Int32Max
    ensures Choose(n + 1, k) == 2333606220 > Int32Max
  {
    assert ChooseByProduct(16, 1) == 17;
    assert ChooseByProduct(16, 2) == 153;
    assert ChooseByProduct(16, 3) == 969;
    assert ChooseByProduct(16, 4) == 4845;
    assert ChooseByProduct(16, 5) == 20349;
    assert ChooseByProduct(16, 6) == 74613;
    assert ChooseByProduct(16, 7) == 245157;
    assert ChooseByProduct(16, 8) == 735471;
    assert ChooseByProduct(16, 9) == 2042975;
    assert ChooseByProduct(16, 10) == 5311735;
    assert ChooseByProduct(16, 11) == 13037895;
    assert ChooseByProduct(16, 12) == 30421755;
    assert ChooseByProduct(16, 13) == 67863915;
    assert ChooseByProduct(16, 14) == 145422675;
    assert ChooseByProduct(16, 15) == 300540195;
    assert ChooseByProduct(16, 16) == 601080390;
    assert ChooseByProduct(16, 17) == 1166803110;
    ProductIsChoose(16, k);
    ChooseSymmetric(n, k - 1);
  }

  /**
   * `BinomialCoefficient`: the number of k-element subsets of an n-element
   * set, or Overflow exactly when that number exceeds the 32-bit range.
   */
  method BinomialCoefficient(n: Int32, k: Int32) returns (r: Result<Int32, Failure>)
    ensures (r.Err? && r.error == ArgumentOutOfRange) <==> (n < 0 || k < 0 || k > n)
    ensures 0 <= k <= n ==> (r.Ok? <==> Choose(n, k) <= Int32Max)
    ensures r.Ok? ==> 0 <= k <= n && r.value == Choose(n, k)
    ensures r.Err? && 0 <= k <= n ==> r.error == Overflow
    decreases k
  {
    if n < 0 {
      return Err(ArgumentOutOfRange);
    }
    if k < 0 || k > n {
      return Err(ArgumentOutOfRange);
    }
    if k == 0 || k == n {
      ChooseAll(n);
      return Ok(1);
    }
    // The sum is unchecked: for k of 2^30 or more it wraps to a negative number.
    if Wrap32(k + k) > n {
      ChooseSymmetric(n, k);
      r := BinomialCoefficient(n, n - k);
      return;
    }
    var result: Int32 := n - k + 1;
    var numerator := result + 1;
    ChooseOne(n - k + 1);
    var denominator := 2;
    while denominator <= k
      invariant 2 <= denominator <= k + 1
      invariant numerator == n - k + denominator
      invariant result == Choose(n - k + denominator - 1, denominator - 1)
      invariant 0 < result
      decreases k - denominator
    {
      Step(n - k + denominator - 1, denominator - 1);
      Increasing(n, k, denominator);
      var next := MultiplyThenDivide(result, numerator, denominator);
      if next.Err? {
        return Err(Overflow);
      }
      result := next.value;
      denominator := denominator + 1;
      numerator := numerator + 1;
    }
    return Ok(result);
  }
}
