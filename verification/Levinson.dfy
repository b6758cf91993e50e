/** Autocorrelation and the Levinson-Durbin recursion with its half-length
    in-place update. */
module Levinson {
  import opened RealArithmetic

  const SILENT: real := 0.0000000000000002220446

  function Distance(i: nat, j: nat): nat {
    if i >= j then i - j else j - i
  }

  /** Row i of the Toeplitz matrix of r times a, over columns lo..hi. */
  function Row(a: seq<real>, r: seq<real>, i: nat, lo: nat, hi: nat): real
    requires lo <= hi <= |a| && hi <= |r| && i < |r|
    decreases hi - lo
  {
    if lo == hi then 0.0 else Row(a, r, i, lo, hi - 1) + a[hi - 1] * r[Distance(i, hi - 1)]
  }

  function FullRow(a: seq<real>, r: seq<real>, i: nat): real
    requires |a| <= |r| && i < |r|
  {
    Row(a, r, i, 0, |a|)
  }

  /** The prediction polynomial of one order and its error energy. */
  datatype Predictor = Predictor(a: seq<real>, alpha: real)

  function Reversed(a: seq<real>): (b: seq<real>)
    ensures |b| == |a|
  {
    seq(|a|, j requires 0 <= j < |a| => a[|a| - 1 - j])
  }

  /** a plus k times b, entry by entry. */
  function Mixed(a: seq<real>, k: real, b: seq<real>): (c: seq<real>)
    requires |a| == |b|
    ensures |c| == |a|
  {
    seq(|a|, j requires 0 <= j < |a| => a[j] + k * b[j])
  }

  /** The next order's polynomial for reflection coefficient k. */
  function Raised(a: seq<real>, k: real): (b: seq<real>)
    ensures |b| == |a| + 1
  {
    Mixed(a + [0.0], k, Reversed(a + [0.0]))
  }

  /** The recursion, from order 0. */
  function Levinson(r: seq<real>, m: nat): (p: Predictor)
    requires m < |r|
    ensures |p.a| == m + 1
    decreases m, 0
  {
    if m == 0 then Predictor([1.0], r[0])
    else
      var p, k := Levinson(r, m - 1), Reflection(r, m - 1);
      Predictor(Raised(p.a, k), p.alpha + k * FullRow(p.a, r, m))
  }

  /** The reflection coefficient that takes order m to order m + 1. */
  function Reflection(r: seq<real>, m: nat): real
    requires m + 1 < |r|
    decreases m, 1
  {
    var p := Levinson(r, m);
    Quotient(-FullRow(p.a, r, m + 1), p.alpha)
  }

  predicate NonSingular(r: seq<real>, m: nat)
    requires m <= |r|
  {
    forall t: nat | t < m :: Levinson(r, t).alpha != 0.0
  }

  // ---- The normal equations ----

  lemma {:induction false} RowFront(a: seq<real>, r: seq<real>, i: nat, lo: nat, hi: nat)
    requires lo < hi <= |a| && hi <= |r| && i < |r|
    ensures Row(a, r, i, lo, hi) == a[lo] * r[Distance(i, lo)] + Row(a, r, i, lo + 1, hi)
    decreases hi
  {
    if lo + 1 < hi {
      RowFront(a, r, i, lo, hi - 1);
    }
  }

  lemma SameDistance(i: nat, j: nat, k: nat, l: nat)
    requires i + k == j + l
    ensures Distance(i, j) == Distance(k, l)
  {
  }

  /** Reversing the vector is reversing the rows: the matrix is symmetric about its second diagonal too. */
  lemma {:induction false} RowOfReversed(a: seq<real>, r: seq<real>, i: nat, n: nat)
    requires n <= |a| <= |r| && i < |a|
    ensures Row(Reversed(a), r, i, 0, n) == Row(a, r, |a| - 1 - i, |a| - n, |a|)
  {
    if n > 0 {
      RowOfReversed(a, r, i, n - 1);
      RowFront(a, r, |a| - 1 - i, |a| - n, |a|);
      SameDistance(i, n - 1, |a| - 1 - i, |a| - n);
      var b, lo := Reversed(a), |a| - n;
      assert b[n - 1] == a[lo];
      hide Distance, Reversed;
      assert Row(b, r, i, 0, n) == Row(b, r, i, 0, n - 1) + b[n - 1] * r[Distance(i, n - 1)];
    }
  }

  lemma MixAlgebra(longer: real, rowA: real, rowA': real, rowB: real, rowB': real, a: real, b: real, c: real,
                   k: real, d: real)
    requires longer == rowA + k * rowB + c * d && c == a + k * b
    requires rowA' == rowA + a * d && rowB' == rowB + b * d
    ensures longer == rowA' + k * rowB'
  {
  }

  lemma {:induction false} RowOfMixed(a: seq<real>, k: real, b: seq<real>, r: seq<real>, i: nat, n: nat)
    requires |a| == |b| && n <= |a| && n <= |r| && i < |r|
    ensures Row(Mixed(a, k, b), r, i, 0, n) == Row(a, r, i, 0, n) + k * Row(b, r, i, 0, n)
  {
    if n > 0 {
      hide Distance;
      RowOfMixed(a, k, b, r, i, n - 1);
      var c, d := Mixed(a, k, b), r[Distance(i, n - 1)];
      MixAlgebra(Row(c, r, i, 0, n), Row(a, r, i, 0, n - 1), Row(a, r, i, 0, n), Row(b, r, i, 0, n - 1),
                 Row(b, r, i, 0, n), a[n - 1], b[n - 1], c[n - 1], k, d);
    }
  }

  lemma {:induction false} RowOfPadded(a: seq<real>, r: seq<real>, i: nat, n: nat)
    requires n <= |a| && n <= |r| && i < |r|
    ensures Row(a + [0.0], r, i, 0, n) == Row(a, r, i, 0, n)
  {
    if n > 0 {
      RowOfPadded(a, r, i, n - 1);
    }
  }

  /** Every row of the raised polynomial is the old row plus k times the mirrored one. */
  lemma RowOfRaised(a: seq<real>, k: real, r: seq<real>, i: nat)
    requires |a| < |r| && i <= |a|
    ensures FullRow(Raised(a, k), r, i) == FullRow(a, r, i) + k * FullRow(a, r, |a| - i)
  {
    var b := a + [0.0];
    RowOfMixed(b, k, Reversed(b), r, i, |b|);
    RowOfReversed(b, r, i, |b|);
    RowOfPadded(a, r, i, |a|);
    RowOfPadded(a, r, |a| - i, |a|);
  }

  /** The order-m equations: all rows but the first vanish, and the first is the error energy. */
  ghost predicate Solves(p: Predictor, r: seq<real>)
    requires |p.a| <= |r|
  {
    && |p.a| > 0 && p.a[0] == 1.0
    && FullRow(p.a, r, 0) == p.alpha
    && forall i | 0 < i < |p.a| :: FullRow(p.a, r, i) == 0.0
  }

  /** q is the predictor of the next order after p, by reflection coefficient k. */
  ghost predicate Follows(q: Predictor, p: Predictor, k: real, r: seq<real>)
    requires |p.a| < |r|
  {
    var sum := FullRow(p.a, r, |p.a|);
    && (p.alpha != 0.0 ==> k * p.alpha == -sum)
    && q.a == Raised(p.a, k)
    && q.alpha == p.alpha + k * sum
  }

  lemma LevinsonStep(r: seq<real>, m: nat)
    requires 0 < m < |r|
    ensures Follows(Levinson(r, m), Levinson(r, m - 1), Reflection(r, m - 1), r)
  {
  }

  lemma FollowsUnique(q: Predictor, q': Predictor, p: Predictor, k: real, r: seq<real>)
    requires |p.a| < |r| && Follows(q, p, k, r) && Follows(q', p, k, r)
    ensures q == q'
  {
  }

  /** One order more: the mirrored row cancels the new last row and leaves the others zero. */
  lemma NextSolves(q: Predictor, p: Predictor, k: real, r: seq<real>)
    requires |p.a| < |r| && Solves(p, r) && p.alpha != 0.0 && Follows(q, p, k, r)
    ensures Solves(q, r)
  {
    var m := |p.a|;
    forall i | 0 < i <= m
      ensures FullRow(q.a, r, i) == 0.0
    {
      RowOfRaised(p.a, k, r, i);
      if i < m {
        assert FullRow(p.a, r, i) == 0.0 && FullRow(p.a, r, m - i) == 0.0;
      }
    }
    RowOfRaised(p.a, k, r, 0);
    var padded := p.a + [0.0];
    assert q.a[0] == padded[0] + k * padded[m];
  }

  lemma OrderZero(r: seq<real>)
    requires |r| > 0
    ensures Solves(Levinson(r, 0), r)
  {
    assert Row([1.0], r, 0, 0, 0) == 0.0;
  }

  /** Levinson-Durbin solves the Toeplitz normal equations of every order up to the first zero error energy. */
  lemma {:induction false} NormalEquations(r: seq<real>, m: nat)
    requires m < |r| && NonSingular(r, m)
    ensures Solves(Levinson(r, m), r)
  {
    if m == 0 {
      OrderZero(r);
    } else {
      NormalEquations(r, m - 1);
      LevinsonStep(r, m);
      NextSolves(Levinson(r, m), Levinson(r, m - 1), Reflection(r, m - 1), r);
    }
  }

  function Damping(k: real): real {
    1.0 - k * k
  }

  /** r[0] times the product of (1 - k^2). */
  function EnergyProduct(r: seq<real>, m: nat): real
    requires m < |r|
  {
    if m == 0 then r[0] else EnergyProduct(r, m - 1) * Damping(Reflection(r, m - 1))
  }

  /** One order more shrinks the error energy by the factor 1 - k^2. */
  lemma EnergyShrinks(q: Predictor, p: Predictor, k: real, r: seq<real>)
    requires |p.a| < |r| && p.alpha != 0.0 && Follows(q, p, k, r)
    ensures q.alpha == p.alpha * Damping(k)
  {
    var sum := FullRow(p.a, r, |p.a|);
    assert k * sum == -(k * (k * p.alpha));
  }

  lemma AlphaStep(r: seq<real>, m: nat)
    requires 0 < m < |r| && Levinson(r, m - 1).alpha != 0.0
    ensures Levinson(r, m).alpha == Levinson(r, m - 1).alpha * Damping(Reflection(r, m - 1))
  {
    LevinsonStep(r, m);
    EnergyShrinks(Levinson(r, m), Levinson(r, m - 1), Reflection(r, m - 1), r);
  }

  lemma SameFactor(x: real, y: real, d: real)
    requires x == y
    ensures x * d == y * d
  {
  }

  lemma {:induction false} AlphaIsProduct(r: seq<real>, m: nat)
    requires m < |r| && NonSingular(r, m)
    ensures Levinson(r, m).alpha == EnergyProduct(r, m)
  {
    if m > 0 {
      hide Levinson, Reflection, Damping;
      AlphaIsProduct(r, m - 1);
      AlphaStep(r, m);
      SameFactor(Levinson(r, m - 1).alpha, EnergyProduct(r, m - 1), Damping(Reflection(r, m - 1)));
    }
  }

  // ---- Autocorrelation ----

  /** The sum of x[n] * x[n + lag] over n < count. */
  function LaggedProducts(x: seq<real>, lag: nat, count: nat): real
    requires count == 0 || count + lag <= |x|
  {
    if count == 0 then 0.0 else LaggedProducts(x, lag, count - 1) + x[count - 1] * x[count - 1 + lag]
  }

  function Autocorrelation(x: seq<real>, lag: nat): real {
    LaggedProducts(x, lag, if lag < |x| then |x| - lag else 0)
  }

  function Autocorrelations(x: seq<real>, order: nat): (r: seq<real>)
    ensures |r| == order + 1
  {
    seq(order + 1, lag requires 0 <= lag <= order => Autocorrelation(x, lag))
  }

  /** autocorr: lags 0..order of the first `length` samples. */
  method Autocorr(r: array<real>, x: seq<real>, order: nat)
    requires order < r.Length
    modifies r
    ensures r[..order + 1] == Autocorrelations(x, order)
    ensures r[order + 1..] == old(r[order + 1..])
  {
    for lag := 0 to order + 1
      invariant forall l | 0 <= l < lag :: r[l] == Autocorrelation(x, l)
      invariant r[order + 1..] == old(r[order + 1..])
    {
      var sum, n := 0.0, 0;
      while n < |x| - lag
        invariant 0 <= n && (n == 0 || n <= |x| - lag)
        invariant sum == LaggedProducts(x, lag, n)
      {
        sum := sum + x[n] * x[n + lag];
        n := n + 1;
      }
      r[lag] := sum;
    }
  }

  /** A signal over all times: the samples, extended by zeros. */
  function Extended(x: seq<real>): int -> real {
    (t: int) => if 0 <= t < |x| then x[t] else 0.0
  }

  /** The sum of f(t) * g(t) over 0 <= t < n. */
  function Inner(f: int -> real, g: int -> real, n: nat): real {
    if n == 0 then 0.0 else Inner(f, g, n - 1) + f(n - 1) * g(n - 1)
  }

  function Delayed(x: int -> real, d: nat): int -> real {
    (t: int) => x(t - d)
  }

  /** The sum of a[j] * x(t - j) over j < n. */
  function Prediction(a: seq<real>, x: int -> real, t: int, n: nat): real
    requires n <= |a|
  {
    if n == 0 then 0.0 else Prediction(a, x, t, n - 1) + a[n - 1] * x(t - (n - 1))
  }

  /** The prediction error over time. */
  function Error(a: seq<real>, x: int -> real, n: nat): int -> real
    requires n <= |a|
  {
    (t: int) => Prediction(a, x, t, n)
  }

  /** The sum of squared errors over t < n. */
  function ErrorEnergy(a: seq<real>, x: int -> real, n: nat): real {
    Inner(Error(a, x, |a|), Error(a, x, |a|), n)
  }

  /** The sum of a[j] * <f, x delayed by j> over j < c. */
  function WeightedInner(a: seq<real>, f: int -> real, x: int -> real, n: nat, c: nat): real
    requires c <= |a|
  {
    if c == 0 then 0.0 else WeightedInner(a, f, x, n, c - 1) + a[c - 1] * Inner(f, Delayed(x, c - 1), n)
  }

  lemma {:induction false} InnerSymmetric(f: int -> real, g: int -> real, n: nat)
    ensures Inner(f, g, n) == Inner(g, f, n)
  {
    if n > 0 {
      InnerSymmetric(f, g, n - 1);
    }
  }

  lemma {:induction false} InnerZero(f: int -> real, g: int -> real, n: nat)
    requires forall t :: g(t) == 0.0
    ensures Inner(f, g, n) == 0.0
  {
    if n > 0 {
      InnerZero(f, g, n - 1);
    }
  }

  lemma InnerAlgebra(f: real, g: real, h: real, k: real, s: real, ig: real, iz: real)
    requires h == g + k * s
    ensures (ig + k * iz) + f * h == (ig + f * g) + k * (iz + f * s)
  {
  }

  lemma {:induction false} InnerAddScaled(f: int -> real, h: int -> real, g: int -> real, k: real, s: int -> real,
                                          n: nat)
    requires forall t :: h(t) == g(t) + k * s(t)
    ensures Inner(f, h, n) == Inner(f, g, n) + k * Inner(f, s, n)
  {
    if n > 0 {
      InnerAddScaled(f, h, g, k, s, n - 1);
      var t := n - 1;
      InnerAlgebra(f(t), g(t), h(t), k, s(t), Inner(f, g, t), Inner(f, s, t));
    }
  }

  /** The inner product is linear in the prediction error. */
  lemma {:induction false} InnerWithError(a: seq<real>, f: int -> real, x: int -> real, n: nat, c: nat)
    requires c <= |a|
    ensures Inner(f, Error(a, x, c), n) == WeightedInner(a, f, x, n, c)
  {
    if c == 0 {
      InnerZero(f, Error(a, x, 0), n);
    } else {
      InnerWithError(a, f, x, n, c - 1);
      InnerAddScaled(f, Error(a, x, c), Error(a, x, c - 1), a[c - 1], Delayed(x, c - 1), n);
    }
  }

  lemma {:induction false} InnerIsLagged(x: seq<real>, i: nat, j: nat, n: nat)
    requires j <= i
    ensures var count := if n <= i then 0 else if n - j <= |x| then n - i else if i - j < |x| then |x| - (i - j) else 0;
            Inner(Delayed(Extended(x), i), Delayed(Extended(x), j), n) == LaggedProducts(x, i - j, count)
  {
    if n > 0 {
      InnerIsLagged(x, i, j, n - 1);
    }
  }

  /** Once every delayed sample is covered, the inner product of two delays is the autocorrelation at their distance. */
  lemma InnerIsAutocorrelation(x: seq<real>, i: nat, j: nat, n: nat)
    requires n >= |x| + i && n >= |x| + j
    ensures Inner(Delayed(Extended(x), i), Delayed(Extended(x), j), n) == Autocorrelation(x, Distance(i, j))
  {
    if j <= i {
      InnerIsLagged(x, i, j, n);
    } else {
      InnerSymmetric(Delayed(Extended(x), i), Delayed(Extended(x), j), n);
      InnerIsLagged(x, j, i, n);
    }
  }

  lemma {:induction false} WeightedInnerIsRow(a: seq<real>, x: seq<real>, i: nat, n: nat, c: nat, r: seq<real>)
    requires c <= |a| <= |r| && i < |r| && n >= |x| + |r|
    requires r == Autocorrelations(x, |r| - 1)
    ensures WeightedInner(a, Delayed(Extended(x), i), Extended(x), n, c) == Row(a, r, i, 0, c)
  {
    if c > 0 {
      WeightedInnerIsRow(a, x, i, n, c - 1, r);
      InnerIsAutocorrelation(x, i, c - 1, n);
    }
  }

  /** The error is orthogonal to every delayed copy of the signal that it was predicted from. */
  lemma ErrorIsOrthogonal(p: Predictor, x: seq<real>, i: nat, n: nat, r: seq<real>)
    requires i < |p.a| <= |r| && n >= |x| + |r|
    requires r == Autocorrelations(x, |r| - 1) && Solves(p, r)
    ensures Inner(Error(p.a, Extended(x), |p.a|), Delayed(Extended(x), i), n) == if i == 0 then p.alpha else 0.0
  {
    var e, d := Error(p.a, Extended(x), |p.a|), Delayed(Extended(x), i);
    InnerSymmetric(e, d, n);
    InnerWithError(p.a, d, Extended(x), n, |p.a|);
    WeightedInnerIsRow(p.a, x, i, n, |p.a|, r);
    assert FullRow(p.a, r, i) == if i == 0 then p.alpha else 0.0;
  }

  lemma {:induction false} OnlyFirstCorrelates(p: Predictor, x: seq<real>, n: nat, c: nat, r: seq<real>)
    requires |p.a| <= |r| && 0 < c <= |p.a| && n >= |x| + |r|
    requires r == Autocorrelations(x, |r| - 1) && Solves(p, r)
    ensures WeightedInner(p.a, Error(p.a, Extended(x), |p.a|), Extended(x), n, c) == p.alpha
  {
    ErrorIsOrthogonal(p, x, c - 1, n, r);
    if c > 1 {
      OnlyFirstCorrelates(p, x, n, c - 1, r);
    } else {
      assert WeightedInner(p.a, Error(p.a, Extended(x), |p.a|), Extended(x), n, 0) == 0.0;
    }
  }

  /** On an autocorrelation sequence the error energy of the recursion is the sum of the squared prediction errors. */
  lemma AlphaIsErrorEnergy(x: seq<real>, order: nat, m: nat)
    requires m <= order && NonSingular(Autocorrelations(x, order), m)
    ensures var p := Levinson(Autocorrelations(x, order), m);
            p.alpha == ErrorEnergy(p.a, Extended(x), |x| + order + 1)
  {
    var r := Autocorrelations(x, order);
    NormalEquations(r, m);
    var p, n := Levinson(r, m), |x| + order + 1;
    InnerWithError(p.a, Error(p.a, Extended(x), |p.a|), Extended(x), n, |p.a|);
    OnlyFirstCorrelates(p, x, n, |p.a|, r);
  }

  lemma {:induction false} EnergyGrows(f: int -> real, t: nat, n: nat)
    requires t <= n
    ensures 0.0 <= Inner(f, f, t) <= Inner(f, f, n)
  {
    if n > 0 {
      EnergyGrows(f, if t < n then t else t - 1, n - 1);
      var s := NonNegativeSquare(f(n - 1));
    }
  }

  /** A signal that begins at time t. */
  ghost predicate BeginsAt(x: int -> real, t: nat) {
    x(t) != 0.0 && forall i | i < t :: x(i) == 0.0
  }

  lemma {:induction false} FirstErrorIsFirstSample(a: seq<real>, x: int -> real, t: nat, n: nat)
    requires 0 < n <= |a| && a[0] == 1.0 && BeginsAt(x, t)
    ensures Prediction(a, x, t, n) == x(t)
  {
    if n > 1 {
      FirstErrorIsFirstSample(a, x, t, n - 1);
      assert x(t - (n - 1)) == 0.0;
    } else {
      assert Prediction(a, x, t, 0) == 0.0;
    }
  }

  lemma ErrorEnergyPositive(a: seq<real>, x: int -> real, t: nat, n: nat)
    requires |a| > 0 && a[0] == 1.0 && BeginsAt(x, t) && t < n
    ensures ErrorEnergy(a, x, n) > 0.0
  {
    var f := Error(a, x, |a|);
    FirstErrorIsFirstSample(a, x, t, |a|);
    EnergyGrows(f, t, t);
    var s := PositiveSquare(f(t));
    assert Inner(f, f, t + 1) == Inner(f, f, t) + s;
    EnergyGrows(f, t + 1, n);
  }

  lemma {:induction false} NonZeroSignalBegins(x: seq<real>, n: nat) returns (t: nat)
    requires n < |x| && x[n] != 0.0
    ensures t < |x| && BeginsAt(Extended(x), t)
    decreases n
  {
    if m: nat :| m < n && x[m] != 0.0 {
      t := NonZeroSignalBegins(x, m);
    } else {
      t := n;
    }
  }

  /** The autocorrelation method never divides by zero: on a signal that is not all zero the error energy of every
      order is positive and every reflection coefficient is smaller than one in magnitude. */
  lemma {:induction false} ErrorEnergyStaysPositive(x: seq<real>, n: nat, order: nat, m: nat)
    requires n < |x| && x[n] != 0.0 && m <= order
    ensures NonSingular(Autocorrelations(x, order), m)
    ensures Levinson(Autocorrelations(x, order), m).alpha > 0.0
    ensures m > 0 ==> -1.0 < Reflection(Autocorrelations(x, order), m - 1) < 1.0
  {
    var r := Autocorrelations(x, order);
    if m > 0 {
      ErrorEnergyStaysPositive(x, n, order, m - 1);
    }
    NormalEquations(r, m);
    AlphaIsErrorEnergy(x, order, m);
    var t := NonZeroSignalBegins(x, n);
    ErrorEnergyPositive(Levinson(r, m).a, Extended(x), t, |x| + order + 1);
    if m > 0 {
      LevinsonStep(r, m);
      MagnitudeBelowOne(Levinson(r, m), Levinson(r, m - 1), Reflection(r, m - 1), r);
    }
  }

  lemma MagnitudeBelowOne(q: Predictor, p: Predictor, k: real, r: seq<real>)
    requires |p.a| < |r| && p.alpha > 0.0 && q.alpha > 0.0 && Follows(q, p, k, r)
    ensures -1.0 < k < 1.0
  {
    EnergyShrinks(q, p, k, r);
    if k >= 1.0 || k <= -1.0 {
      var excess := SquareExcess(k);
      var product := NonNegativeProduct(p.alpha, excess);
    }
  }

  lemma SquareExcess(k: real) returns (e: real)
    requires k >= 1.0 || k <= -1.0
    ensures e == k * k - 1.0 && e >= 0.0
  {
    e := NonNegativeProduct(if k > 0.0 then k - 1.0 else -k - 1.0, if k > 0.0 then k + 1.0 else -k + 1.0);
  }

  // ---- The in-place recursion ----

  /** Between the polynomial a and its raised form c after i exchanges of the half-length update. */
  ghost predicate HalfUpdated(b: seq<real>, a: seq<real>, c: seq<real>, i: nat)
    requires |a| > 0 && |c| == |a| + 1
  {
    var m := |a| - 1;
    && |b| >= m + 1
    && forall j | 0 <= j <= m :: b[j] == if j <= i || j > m - i then c[j] else a[j]
  }

  lemma RaisedEntry(a: seq<real>, k: real, j: nat)
    requires 1 <= j <= |a|
    ensures Raised(a, k)[j] == if j < |a| then a[j] + k * a[|a| - j] else k * a[0]
    ensures |a| > 0 ==> Raised(a, k)[0] == a[0]
  {
    var b := a + [0.0];
    assert Raised(a, k)[j] == b[j] + k * b[|a| - j];
    assert Raised(a, k)[0] == b[0] + k * b[|a|];
  }

  /** One exchange: the entries i + 1 and m - i move towards each other. */
  method Exchange(a: array<real>, m: nat, k: real, i: nat, ghost p: seq<real>, ghost c: seq<real>)
    requires m + 1 < a.Length && i < (m + 1) / 2 && |p| == m + 1 && |c| == m + 2
    requires c[i + 1] == p[i + 1] + k * p[m - i] && c[m - i] == p[m - i] + k * p[i + 1]
    requires HalfUpdated(a[..], p, c, i)
    modifies a
    ensures HalfUpdated(a[..], p, c, i + 1)
    ensures forall j | m < j < a.Length :: a[j] == old(a[j])
  {
    var x, y := a[i + 1], a[m - i];
    assert x == p[i + 1] && y == p[m - i];
    a[m - i] := y + k * x;
    a[i + 1] := x + k * y;
  }

  /** Raises the order of a in place, half of the entries at a time. */
  method RaiseOrder(a: array<real>, m: nat, k: real)
    requires m + 1 < a.Length && a[0] == 1.0
    modifies a
    ensures a[..m + 2] == Raised(old(a[..m + 1]), k)
    ensures forall j | m + 2 <= j < a.Length :: a[j] == old(a[j])
  {
    ghost var p := a[..m + 1];
    RaisedEntry(p, k, m + 1);
    hide Raised;
    for i := 0 to (m + 1) / 2
      invariant HalfUpdated(a[..], p, Raised(p, k), i)
      invariant forall j | m < j < a.Length :: a[j] == old(a[j])
    {
      RaisedEntry(p, k, i + 1);
      RaisedEntry(p, k, m - i);
      Exchange(a, m, k, i, p, Raised(p, k));
    }
    a[m + 1] := k;
  }

  /** One pass of the main loop: from order m to order m + 1. */
  method NextOrder(a: array<real>, k: array<real>, r: seq<real>, m: nat, alpha: real, ghost p: Predictor)
    returns (next: real)
    requires m + 1 < |r| && m + 1 < a.Length && m < k.Length && a != k
    requires |p.a| == m + 1 && p.a[0] == 1.0 && a[..m + 1] == p.a && alpha == p.alpha
    modifies a, k
    ensures k[m] == Quotient(-FullRow(p.a, r, m + 1), p.alpha)
    ensures forall t | 0 <= t < k.Length && t != m :: k[t] == old(k[t])
    ensures Follows(Predictor(a[..m + 2], next), p, k[m], r)
  {
    assert a[0] == a[..m + 1][0];
    var sum := LastRow(a, r, m);
    k[m] := Quotient(-sum, alpha);
    next := alpha + k[m] * sum;
    assert a[..m + 1] == p.a;
    RaiseOrder(a, m, k[m]);
  }

  method Silence(a: array<real>, k: array<real>, order: nat)
    requires order < a.Length && order <= k.Length && a != k
    modifies a, k
    ensures a[0] == old(a[0])
    ensures forall m | 1 <= m <= order :: a[m] == 0.0
    ensures forall m | 0 <= m < order :: k[m] == 0.0
  {
    for i := 0 to order
      invariant a[0] == old(a[0])
      invariant forall m | 1 <= m <= i :: a[m] == 0.0
      invariant forall m | 0 <= m < i :: k[m] == 0.0
    {
      k[i], a[i + 1] := 0.0, 0.0;
    }
  }

  /** The recursion for an input that is not silent. */
  method Recurse(a: array<real>, k: array<real>, r: seq<real>, order: nat)
    requires 0 < order < |r| && order < a.Length && order <= k.Length && a != k && a[0] == 1.0
    modifies a, k
    ensures a[..order + 1] == Levinson(r, order).a
    ensures forall m | 0 <= m < order :: k[m] == Reflection(r, m)
  {
    var alpha := FirstOrder(a, k, r);
    for m := 1 to order
      invariant a[..m + 1] == Levinson(r, m).a && alpha == Levinson(r, m).alpha
      invariant forall t | 0 <= t < m :: k[t] == Reflection(r, t)
    {
      LeadingOne(r, m);
      alpha := NextOrder(a, k, r, m, alpha, Levinson(r, m));
      LevinsonStep(r, m + 1);
      FollowsUnique(Predictor(a[..m + 2], alpha), Levinson(r, m + 1), Levinson(r, m), k[m], r);
    }
  }

  /** levdurb: the prediction polynomial and the reflection coefficients of r, in place, by the recursion above;
      a silent input gets the polynomial 1. */
  method Levdurb(a: array<real>, k: array<real>, r: seq<real>, order: nat)
    requires 0 < order < |r| && order < a.Length && order <= k.Length && a != k
    modifies a, k
    ensures r[0] >= SILENT ==>
              && a[..order + 1] == Levinson(r, order).a
              && (forall m | 0 <= m < order :: k[m] == Reflection(r, m))
              && (NonSingular(r, order) ==> Solves(Predictor(a[..order + 1], Levinson(r, order).alpha), r))
    ensures r[0] < SILENT ==>
              && a[0] == 1.0
              && (forall m | 1 <= m <= order :: a[m] == 0.0)
              && (forall m | 0 <= m < order :: k[m] == 0.0)
  {
    a[0] := 1.0;
    if r[0] < SILENT {
      Silence(a, k, order);
    } else {
      Recurse(a, k, r, order);
      if NonSingular(r, order) {
        NormalEquations(r, order);
      }
    }
  }

  lemma {:induction false} LeadingOne(r: seq<real>, m: nat)
    requires m < |r|
    ensures Levinson(r, m).a[0] == 1.0
  {
    if m > 0 {
      LeadingOne(r, m - 1);
    }
  }

  method FirstOrder(a: array<real>, k: array<real>, r: seq<real>) returns (alpha: real)
    requires |r| > 1 && a.Length > 1 && k.Length > 0 && a != k && a[0] == 1.0
    modifies a, k
    ensures a[..2] == Levinson(r, 1).a && alpha == Levinson(r, 1).alpha && a[0] == 1.0
    ensures k[0] == Reflection(r, 0)
  {
    a[1] := Quotient(-r[1], r[0]);
    k[0] := Quotient(-r[1], r[0]);
    alpha := r[0] + r[1] * k[0];
    var p := Levinson(r, 0);
    assert FullRow(p.a, r, 1) == r[1] by { assert Row(p.a, r, 1, 0, 0) == 0.0; }
    assert a[..2] == Raised(p.a, k[0]);
  }

  /** The inner product with the reversed autocorrelations: row m + 1 of the matrix. */
  method LastRow(a: array<real>, r: seq<real>, m: nat) returns (sum: real)
    requires m < a.Length && m + 1 < |r| && a[0] == 1.0
    ensures sum == FullRow(a[..m + 1], r, m + 1)
  {
    sum := r[m + 1];
    ghost var p := a[..m + 1];
    assert Row(p, r, m + 1, 0, 1) == r[m + 1] by { assert Row(p, r, m + 1, 0, 0) == 0.0; }
    for i := 0 to m
      invariant sum == Row(p, r, m + 1, 0, i + 1)
    {
      sum := sum + a[i + 1] * r[m - i];
    }
  }
}
