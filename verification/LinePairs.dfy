/** What the root search searches: on the unit circle its two polynomials are the real and the imaginary part of the
    predictor, rotated by eleven half steps, without their trivial zeros. */
module LinePairs {
  import opened Basics
  import opened RealArithmetic
  import opened RootSearch

  // ---- Cosine and sine ----

  predicate CosineRule(cos: real -> real, x: real, y: real) {
    2.0 * cos(x) * cos(y) == cos(x + y) + cos(x - y)
  }

  predicate SineRule(cos: real -> real, sin: real -> real, x: real, y: real) {
    2.0 * sin(x) * cos(y) == sin(x + y) + sin(x - y)
  }

  /** The product rules, from which multiples of an angle follow. */
  ghost predicate IsTrigonometric(cos: real -> real, sin: real -> real) {
    && cos(0.0) == 1.0 && sin(0.0) == 0.0
    && (forall x, y {:trigger CosineRule(cos, x, y)} :: CosineRule(cos, x, y))
    && (forall x, y {:trigger SineRule(cos, sin, x, y)} :: SineRule(cos, sin, x, y))
  }

  // ---- The Chebyshev recursion ----

  function Chebyshev(n: nat, c: real): real {
    if n == 0 then 1.0 else if n == 1 then c else 2.0 * c * Chebyshev(n - 1, c) - Chebyshev(n - 2, c)
  }

  /** The angle n * x. */
  function Multiple(n: nat, x: real): real {
    n as real * x
  }

  lemma Multiples(n: nat, x: real)
    ensures Multiple(0, x) == 0.0 && Multiple(1, x) == x
    ensures n >= 2 ==> Multiple(n - 1, x) + x == Multiple(n, x) && Multiple(n - 1, x) - x == Multiple(n - 2, x)
  {
  }

  lemma NextCosine(cos: real -> real, y: real, x: real, above: real, below: real)
    requires CosineRule(cos, y, x) && y + x == above && y - x == below
    ensures cos(above) == 2.0 * cos(x) * cos(y) - cos(below)
  {
  }

  lemma {:induction false} ChebyshevIsCosine(cos: real -> real, sin: real -> real, n: nat, x: real)
    requires IsTrigonometric(cos, sin)
    ensures Chebyshev(n, cos(x)) == cos(Multiple(n, x))
  {
    Multiples(n, x);
    if n >= 2 {
      ChebyshevIsCosine(cos, sin, n - 1, x);
      ChebyshevIsCosine(cos, sin, n - 2, x);
      assert CosineRule(cos, Multiple(n - 1, x), x);
      hide Multiple, CosineRule;
      NextCosine(cos, Multiple(n - 1, x), x, Multiple(n, x), Multiple(n - 2, x));
    }
  }

  lemma ChebyshevPolynomials(c: real)
    ensures Chebyshev(2, c) == 2.0 * c * c - 1.0
    ensures Chebyshev(3, c) == 4.0 * c * c * c - 3.0 * c
    ensures Chebyshev(4, c) == 8.0 * c * c * c * c - 8.0 * c * c + 1.0
    ensures Chebyshev(5, c) == 16.0 * c * c * c * c * c - 20.0 * c * c * c + 5.0 * c
  {
    assert Chebyshev(2, c) == 2.0 * c * c - 1.0;
    assert Chebyshev(3, c) == 2.0 * c * Chebyshev(2, c) - c;
    assert Chebyshev(4, c) == 2.0 * c * Chebyshev(3, c) - Chebyshev(2, c);
    assert Chebyshev(5, c) == 2.0 * c * Chebyshev(4, c) - Chebyshev(3, c);
  }

  /** Clenshaw's scheme: the recursion of the search sums the series. */
  lemma RecursionSumsSeries(c: real, p0: real, p1: real, p2: real, p3: real, p4: real)
    ensures var h1 := 2.0 * c + p0;
            var h2 := 2.0 * c * h1 - 1.0 + p1;
            var h3 := 2.0 * c * h2 - h1 + p2;
            var h4 := 2.0 * c * h3 - h2 + p3;
            c * h4 - h3 + p4
            == (16.0 * c * c * c * c * c - 20.0 * c * c * c + 5.0 * c) + p0 * (8.0 * c * c * c * c - 8.0 * c * c + 1.0)
               + p1 * (4.0 * c * c * c - 3.0 * c) + p2 * (2.0 * c * c - 1.0) + p3 * c + p4
  {
  }

  lemma Same(p: real, x: real, y: real)
    requires x == y
    ensures p * x == p * y
  {
  }

  /** The search's evaluation, for given cosines of the multiples. */
  lemma EvaluateIsSeries(pq: seq<real>, cos: real -> real, w: real, c: seq<real>)
    requires |pq| == |c| == 5 && forall n: nat {:trigger c[n]} | n < 5 :: c[n] == Chebyshev(n + 1, cos(w * TWO_PI))
    ensures Evaluate(pq, cos, w) == c[4] + pq[0] * c[3] + pq[1] * c[2] + pq[2] * c[1] + pq[3] * c[0] + pq[4]
  {
    var x := cos(w * TWO_PI);
    assert c[0] == Chebyshev(1, x) && c[1] == Chebyshev(2, x) && c[2] == Chebyshev(3, x);
    assert c[3] == Chebyshev(4, x) && c[4] == Chebyshev(5, x) && c[0] == x;
    ChebyshevPolynomials(x);
    RecursionSumsSeries(x, pq[0], pq[1], pq[2], pq[3], pq[4]);
    hide Chebyshev;
    Same(pq[0], c[3], 8.0 * x * x * x * x - 8.0 * x * x + 1.0);
    Same(pq[1], c[2], 4.0 * x * x * x - 3.0 * x);
    Same(pq[2], c[1], 2.0 * x * x - 1.0);
    Same(pq[3], c[0], x);
  }

  // ---- The predictor on the unit circle ----

  /** Coefficient k of the predictor, whose first is one. */
  function Coefficient(a: seq<real>, k: nat): real
    requires |a| == COEFFICIENTS && k < COEFFICIENTS
  {
    if k == 0 then 1.0 else a[k]
  }

  /** The angle m * half. */
  function Halves(m: int, half: real): real {
    m as real * half
  }

  lemma HalvesNegate(m: int, half: real)
    ensures Halves(-m, half) == -Halves(m, half)
  {
  }

  /** The first n terms of the predictor at twice the angle `half`, rotated by eleven halves: the real part ... */
  function RotatedReal(a: seq<real>, cos: real -> real, half: real, n: nat): real
    requires |a| == COEFFICIENTS && n <= COEFFICIENTS
  {
    if n == 0 then 0.0
    else RotatedReal(a, cos, half, n - 1) + Coefficient(a, n - 1) * cos(Halves(11 - 2 * (n - 1), half))
  }

  /** ... and the imaginary one. */
  function RotatedImaginary(a: seq<real>, sin: real -> real, half: real, n: nat): real
    requires |a| == COEFFICIENTS && n <= COEFFICIENTS
  {
    if n == 0 then 0.0
    else RotatedImaginary(a, sin, half, n - 1) + Coefficient(a, n - 1) * sin(Halves(11 - 2 * (n - 1), half))
  }

  lemma EvenAndOdd(cos: real -> real, sin: real -> real, x: real)
    requires IsTrigonometric(cos, sin)
    ensures cos(-x) == cos(x) && sin(-x) == -sin(x)
  {
    assert CosineRule(cos, 0.0, x) && SineRule(cos, sin, 0.0, x);
    assert 0.0 + x == x && 0.0 - x == -x;
  }

  /** Half the angle times a multiple of it: neighbouring odd multiples. */
  lemma HalfTimes(cos: real -> real, sin: real -> real, n: nat, half: real)
    requires IsTrigonometric(cos, sin)
    ensures var up, down := Halves(2 * n + 1, half), Halves(2 * n - 1, half);
            && 2.0 * cos(half) * cos(Multiple(n, 2.0 * half)) == cos(up) + cos(down)
            && 2.0 * sin(half) * cos(Multiple(n, 2.0 * half)) == sin(up) - sin(down)
  {
    var x, up, down := Multiple(n, 2.0 * half), Halves(2 * n + 1, half), Halves(2 * n - 1, half);
    assert half + x == up && half - x == -down;
    assert CosineRule(cos, half, x) && SineRule(cos, sin, half, x);
    EvenAndOdd(cos, sin, down);
  }

  lemma Scale(d: real, p: real, c: real, dc: real)
    requires d * c == dc
    ensures d * (p * c) == p * dc
  {
  }

  /** A sum over the odd multiples. */
  function Series(k: seq<real>, b: seq<real>): real
    requires |k| == 6 && |b| == 5
  {
    k[5] + b[0] * k[4] + b[1] * k[3] + b[2] * k[2] + b[3] * k[1] + b[4] * k[0]
  }

  lemma Distribute(d: real, u: real, v: real, w: real, x: real, y: real, z: real)
    ensures d * (u + v + w + x + y + z) == d * u + d * v + d * w + d * x + d * y + z * d
  {
  }

  lemma SumTelescopes(d: real, e: real, p: seq<real>, c: seq<real>, k: seq<real>, b: seq<real>)
    requires |p| == |c| == |b| == 5 && |k| == 6
    requires e == c[4] + p[0] * c[3] + p[1] * c[2] + p[2] * c[1] + p[3] * c[0] + p[4] && d == 2.0 * k[0]
    requires d * c[4] == k[5] + k[4] && d * c[3] == k[4] + k[3] && d * c[2] == k[3] + k[2]
    requires d * c[1] == k[2] + k[1] && d * c[0] == k[1] + k[0]
    requires b == [1.0 + p[0], p[0] + p[1], p[1] + p[2], p[2] + p[3], p[3] + 2.0 * p[4]]
    ensures d * e == Series(k, b)
  {
    Scale(d, p[0], c[3], k[4] + k[3]);
    Scale(d, p[1], c[2], k[3] + k[2]);
    Scale(d, p[2], c[1], k[2] + k[1]);
    Scale(d, p[3], c[0], k[1] + k[0]);
    SumTelescopesParts(p, k, b);
    Distribute(d, c[4], p[0] * c[3], p[1] * c[2], p[2] * c[1], p[3] * c[0], p[4]);
    Same(p[4], d, 2.0 * k[0]);
  }

  lemma SumTelescopesParts(p: seq<real>, k: seq<real>, b: seq<real>)
    requires |p| == |b| == 5 && |k| == 6
    requires b == [1.0 + p[0], p[0] + p[1], p[1] + p[2], p[2] + p[3], p[3] + 2.0 * p[4]]
    ensures Series(k, b) == (k[5] + k[4]) + p[0] * (k[4] + k[3]) + p[1] * (k[3] + k[2])
                            + p[2] * (k[2] + k[1]) + p[3] * (k[1] + k[0]) + p[4] * (2.0 * k[0])
  {
  }

  lemma DifferenceTelescopes(d: real, e: real, p: seq<real>, c: seq<real>, k: seq<real>, b: seq<real>)
    requires |p| == |c| == |b| == 5 && |k| == 6
    requires e == c[4] + p[0] * c[3] + p[1] * c[2] + p[2] * c[1] + p[3] * c[0] + p[4] && d == 2.0 * k[0]
    requires d * c[4] == k[5] - k[4] && d * c[3] == k[4] - k[3] && d * c[2] == k[3] - k[2]
    requires d * c[1] == k[2] - k[1] && d * c[0] == k[1] - k[0]
    requires b == [p[0] - 1.0, p[1] - p[0], p[2] - p[1], p[3] - p[2], 2.0 * p[4] - p[3]]
    ensures d * e == Series(k, b)
  {
    Scale(d, p[0], c[3], k[4] - k[3]);
    Scale(d, p[1], c[2], k[3] - k[2]);
    Scale(d, p[2], c[1], k[2] - k[1]);
    Scale(d, p[3], c[0], k[1] - k[0]);
    DifferenceTelescopesParts(p, k, b);
    Distribute(d, c[4], p[0] * c[3], p[1] * c[2], p[2] * c[1], p[3] * c[0], p[4]);
    Same(p[4], d, 2.0 * k[0]);
  }

  lemma DifferenceTelescopesParts(p: seq<real>, k: seq<real>, b: seq<real>)
    requires |p| == |b| == 5 && |k| == 6
    requires b == [p[0] - 1.0, p[1] - p[0], p[2] - p[1], p[3] - p[2], 2.0 * p[4] - p[3]]
    ensures Series(k, b) == (k[5] - k[4]) + p[0] * (k[4] - k[3]) + p[1] * (k[3] - k[2])
                            + p[2] * (k[2] - k[1]) + p[3] * (k[1] - k[0]) + p[4] * (2.0 * k[0])
  {
  }

  /** The odd multiples, smallest first, and the multiples of the whole angle. */
  function Odds(f: real -> real, half: real): (k: seq<real>)
    ensures |k| == 6
  {
    seq(6, n requires 0 <= n < 6 => f(Halves(2 * n + 1, half)))
  }

  function Wholes(cos: real -> real, half: real): (c: seq<real>)
    ensures |c| == 5
  {
    seq(5, n requires 0 <= n < 5 => cos(Multiple(n + 1, 2.0 * half)))
  }

  lemma OddAt(f: real -> real, half: real, n: nat)
    requires n < 6
    ensures Odds(f, half)[n] == f(Halves(2 * n + 1, half))
  {
  }

  /** Term n of the rotated predictor: terms n and 11 - n belong to the same odd multiple. */
  lemma RealTerm(a: seq<real>, cos: real -> real, sin: real -> real, half: real, n: nat, x: real, y: real)
    requires IsTrigonometric(cos, sin) && |a| == COEFFICIENTS && n < COEFFICIENTS
    requires x == Coefficient(a, n) && y == Odds(cos, half)[if n <= 5 then 5 - n else n - 6]
    ensures RotatedReal(a, cos, half, n + 1) == RotatedReal(a, cos, half, n) + x * y
  {
    var at := if n <= 5 then 5 - n else n - 6;
    OddAt(cos, half, at);
    HalvesNegate(2 * at + 1, half);
    EvenAndOdd(cos, sin, Halves(2 * at + 1, half));
    assert 11 - 2 * n == if n <= 5 then 2 * at + 1 else -(2 * at + 1);
  }

  lemma ImaginaryTerm(a: seq<real>, cos: real -> real, sin: real -> real, half: real, n: nat, x: real, y: real)
    requires IsTrigonometric(cos, sin) && |a| == COEFFICIENTS && n < COEFFICIENTS
    requires x == (if n <= 5 then Coefficient(a, n) else -Coefficient(a, n))
    requires y == Odds(sin, half)[if n <= 5 then 5 - n else n - 6]
    ensures RotatedImaginary(a, sin, half, n + 1) == RotatedImaginary(a, sin, half, n) + x * y
  {
    var at := if n <= 5 then 5 - n else n - 6;
    OddAt(sin, half, at);
    HalvesNegate(2 * at + 1, half);
    EvenAndOdd(cos, sin, Halves(2 * at + 1, half));
    assert 11 - 2 * n == if n <= 5 then 2 * at + 1 else -(2 * at + 1);
  }

  lemma Pair(x: real, y: real, k: real, b: real)
    requires b == x + y
    ensures x * k + y * k == b * k
  {
  }

  lemma RealPairs(a: seq<real>, cos: real -> real, sin: real -> real, half: real, b: seq<real>)
    requires IsTrigonometric(cos, sin) && |a| == COEFFICIENTS
    requires b == [a[1] + a[10], a[2] + a[9], a[3] + a[8], a[4] + a[7], a[5] + a[6]]
    ensures RotatedReal(a, cos, half, COEFFICIENTS) == Series(Odds(cos, half), b)
  {
    hide IsTrigonometric, Odds, RotatedReal;
    var k := Odds(cos, half);
    RealTerm(a, cos, sin, half, 10, a[10], k[4]);
    RealTerm(a, cos, sin, half, 9, a[9], k[3]);
    RealTerm(a, cos, sin, half, 8, a[8], k[2]);
    RealTerm(a, cos, sin, half, 7, a[7], k[1]);
    RealTerm(a, cos, sin, half, 6, a[6], k[0]);
    RealTerm(a, cos, sin, half, 5, a[5], k[0]);
    RealTerm(a, cos, sin, half, 4, a[4], k[1]);
    RealTerm(a, cos, sin, half, 3, a[3], k[2]);
    RealTerm(a, cos, sin, half, 2, a[2], k[3]);
    RealTerm(a, cos, sin, half, 1, a[1], k[4]);
    RealTerm(a, cos, sin, half, 0, 1.0, k[5]);
    NoTerms(a, cos, half);
    Pair(a[1], a[10], k[4], b[0]);
    Pair(a[2], a[9], k[3], b[1]);
    Pair(a[3], a[8], k[2], b[2]);
    Pair(a[4], a[7], k[1], b[3]);
    Pair(a[5], a[6], k[0], b[4]);
  }

  lemma NoTerms(a: seq<real>, f: real -> real, half: real)
    requires |a| == COEFFICIENTS
    ensures RotatedReal(a, f, half, 0) == 0.0 && RotatedImaginary(a, f, half, 0) == 0.0
  {
  }

  lemma ImaginaryPairs(a: seq<real>, cos: real -> real, sin: real -> real, half: real, b: seq<real>)
    requires IsTrigonometric(cos, sin) && |a| == COEFFICIENTS
    requires b == [a[1] - a[10], a[2] - a[9], a[3] - a[8], a[4] - a[7], a[5] - a[6]]
    ensures RotatedImaginary(a, sin, half, COEFFICIENTS) == Series(Odds(sin, half), b)
  {
    hide IsTrigonometric, Odds, RotatedImaginary;
    var k := Odds(sin, half);
    ImaginaryTerm(a, cos, sin, half, 10, -a[10], k[4]);
    ImaginaryTerm(a, cos, sin, half, 9, -a[9], k[3]);
    ImaginaryTerm(a, cos, sin, half, 8, -a[8], k[2]);
    ImaginaryTerm(a, cos, sin, half, 7, -a[7], k[1]);
    ImaginaryTerm(a, cos, sin, half, 6, -a[6], k[0]);
    ImaginaryTerm(a, cos, sin, half, 5, a[5], k[0]);
    ImaginaryTerm(a, cos, sin, half, 4, a[4], k[1]);
    ImaginaryTerm(a, cos, sin, half, 3, a[3], k[2]);
    ImaginaryTerm(a, cos, sin, half, 2, a[2], k[3]);
    ImaginaryTerm(a, cos, sin, half, 1, a[1], k[4]);
    ImaginaryTerm(a, cos, sin, half, 0, 1.0, k[5]);
    NoTerms(a, sin, half);
    Pair(a[1], -a[10], k[4], b[0]);
    Pair(a[2], -a[9], k[3], b[1]);
    Pair(a[3], -a[8], k[2], b[2]);
    Pair(a[4], -a[7], k[1], b[3]);
    Pair(a[5], -a[6], k[0], b[4]);
  }

  lemma WholeIsChebyshev(cos: real -> real, sin: real -> real, x: real, n: nat)
    requires IsTrigonometric(cos, sin) && n < 5
    ensures Wholes(cos, x / 2.0)[n] == Chebyshev(n + 1, cos(x))
  {
    assert 2.0 * (x / 2.0) == x;
    ChebyshevIsCosine(cos, sin, n + 1, x);
  }

  /** Evaluate as a series in the cosines of the whole angle. */
  lemma EvaluateInWholes(pq: seq<real>, cos: real -> real, sin: real -> real, w: real, c: seq<real>)
    requires IsTrigonometric(cos, sin) && |pq| == 5 && c == Wholes(cos, w * TWO_PI / 2.0)
    ensures Evaluate(pq, cos, w) == c[4] + pq[0] * c[3] + pq[1] * c[2] + pq[2] * c[1] + pq[3] * c[0] + pq[4]
  {
    hide Chebyshev, Evaluate, Wholes, IsTrigonometric;
    forall n: nat | n < 5
      ensures c[n] == Chebyshev(n + 1, cos(w * TWO_PI))
    {
      WholeIsChebyshev(cos, sin, w * TWO_PI, n);
    }
    EvaluateIsSeries(pq, cos, w, c);
  }

  lemma WholeTimesHalf(cos: real -> real, sin: real -> real, half: real, n: nat)
    requires IsTrigonometric(cos, sin) && n < 5
    ensures 2.0 * cos(half) * Wholes(cos, half)[n] == Odds(cos, half)[n + 1] + Odds(cos, half)[n]
    ensures 2.0 * sin(half) * Wholes(cos, half)[n] == Odds(sin, half)[n + 1] - Odds(sin, half)[n]
    ensures Odds(cos, half)[0] == cos(half) && Odds(sin, half)[0] == sin(half)
  {
    HalfTimes(cos, sin, n + 1, half);
    assert Halves(1, half) == half;
  }

  /** The sum polynomial's search function, times its trivial zero, is the real part of the rotated predictor. */
  lemma SumIsRealPart(a: seq<real>, cos: real -> real, sin: real -> real, w: real)
    requires IsTrigonometric(cos, sin) && |a| == COEFFICIENTS
    ensures 2.0 * cos(w * TWO_PI / 2.0) * Evaluate(Reduced(a, true), cos, w)
            == RotatedReal(a, cos, w * TWO_PI / 2.0, COEFFICIENTS)
  {
    hide IsTrigonometric, Evaluate, Wholes, Odds, RotatedReal, Series, Reduced;
    var half, p := w * TWO_PI / 2.0, Reduced(a, true);
    var c, k, d, e := Wholes(cos, half), Odds(cos, half), 2.0 * cos(half), Evaluate(p, cos, w);
    var b := [a[1] + a[10], a[2] + a[9], a[3] + a[8], a[4] + a[7], a[5] + a[6]];
    EvaluateInWholes(p, cos, sin, w, c);
    WholeTimesHalf(cos, sin, half, 4);
    WholeTimesHalf(cos, sin, half, 3);
    WholeTimesHalf(cos, sin, half, 2);
    WholeTimesHalf(cos, sin, half, 1);
    WholeTimesHalf(cos, sin, half, 0);
    SumCoefficients(a);
    SumTelescopes(d, e, p, c, k, b);
    RealPairs(a, cos, sin, half, b);
  }

  /** The searched polynomials: for even searches the real part, for odd ones the imaginary part. */
  lemma PolynomialIsPart(a: seq<real>, cos: real -> real, sin: real -> real, i: nat, w: real)
    requires IsTrigonometric(cos, sin) && |a| == COEFFICIENTS
    ensures var half := w * TWO_PI / 2.0;
            if i % 2 == 0 then
              2.0 * cos(half) * Polynomial(a, cos, i)(w) == RotatedReal(a, cos, half, COEFFICIENTS)
            else
              2.0 * sin(half) * Polynomial(a, cos, i)(w) == RotatedImaginary(a, sin, half, COEFFICIENTS)
  {
    hide IsTrigonometric, Evaluate, Reduced, RotatedReal, RotatedImaginary;
    SumIsRealPart(a, cos, sin, w);
    DifferenceIsImaginaryPart(a, cos, sin, w);
    assert Polynomial(a, cos, i)(w) == Evaluate(Reduced(a, i % 2 == 0), cos, w);
    hide Polynomial;
  }

  lemma SumCoefficients(a: seq<real>)
    requires |a| == COEFFICIENTS
    ensures var p := Reduced(a, true);
            && 1.0 + p[0] == a[1] + a[10] && p[0] + p[1] == a[2] + a[9] && p[1] + p[2] == a[3] + a[8]
            && p[2] + p[3] == a[4] + a[7] && p[3] + 2.0 * p[4] == a[5] + a[6]
  {
  }

  lemma DifferenceCoefficients(a: seq<real>)
    requires |a| == COEFFICIENTS
    ensures var q := Reduced(a, false);
            && q[0] - 1.0 == a[1] - a[10] && q[1] - q[0] == a[2] - a[9] && q[2] - q[1] == a[3] - a[8]
            && q[3] - q[2] == a[4] - a[7] && 2.0 * q[4] - q[3] == a[5] - a[6]
  {
  }

  /** The difference polynomial's, times its trivial zero, is the imaginary part. */
  lemma DifferenceIsImaginaryPart(a: seq<real>, cos: real -> real, sin: real -> real, w: real)
    requires IsTrigonometric(cos, sin) && |a| == COEFFICIENTS
    ensures 2.0 * sin(w * TWO_PI / 2.0) * Evaluate(Reduced(a, false), cos, w)
            == RotatedImaginary(a, sin, w * TWO_PI / 2.0, COEFFICIENTS)
  {
    hide IsTrigonometric, Evaluate, Wholes, Odds, RotatedImaginary, Series, Reduced;
    var half, q := w * TWO_PI / 2.0, Reduced(a, false);
    var c, k, d, e := Wholes(cos, half), Odds(sin, half), 2.0 * sin(half), Evaluate(q, cos, w);
    var b := [a[1] - a[10], a[2] - a[9], a[3] - a[8], a[4] - a[7], a[5] - a[6]];
    EvaluateInWholes(q, cos, sin, w, c);
    WholeTimesHalf(cos, sin, half, 4);
    WholeTimesHalf(cos, sin, half, 3);
    WholeTimesHalf(cos, sin, half, 2);
    WholeTimesHalf(cos, sin, half, 1);
    WholeTimesHalf(cos, sin, half, 0);
    DifferenceCoefficients(a);
    DifferenceTelescopes(d, e, q, c, k, b);
    ImaginaryPairs(a, cos, sin, half, b);
  }
}
