/** The search for line spectral pairs: a coarse walk over frequencies that is
    bisected three times at every sign change. Frequencies are fractions of the
    sampling rate; the cosine is any function. */
module RootSearch {
  import opened RealArithmetic

  const TWO_PI: real := 6.2831855
  const COARSE: real := 0.00635
  const HUGE: real := 10000000000000000000000000000000000000.0

  /** The step of each level: every one is half of the one before. */
  function StepOf(level: nat): (s: real)
    requires level < 4
    ensures s > 0.0
    ensures level > 0 ==> 2.0 * s == StepOf(level - 1)
  {
    if level == 0 then 0.00635 else if level == 1 then 0.003175 else if level == 2 then 0.0015875 else 0.00079375
  }

  /** The two symmetric polynomials' coefficients after division by their trivial roots. */
  function Reduced(a: seq<real>, sum: bool): (pq: seq<real>)
    requires |a| == 11
    ensures |pq| == 5
  {
    if sum then
      var p := seq(5, i requires 0 <= i < 5 => -1.0 * (a[i + 1] + a[10 - i]));
      var p0 := -1.0 - p[0];
      var p1 := -p0 - p[1];
      var p2 := -p1 - p[2];
      var p3 := -p2 - p[3];
      [p0, p1, p2, p3, (-p3 - p[4]) / 2.0]
    else
      var q := seq(5, i requires 0 <= i < 5 => a[10 - i] - a[i + 1]);
      var q0 := 1.0 - q[0];
      var q1 := q0 - q[1];
      var q2 := q1 - q[2];
      var q3 := q2 - q[3];
      [q0, q1, q2, q3, (q3 - q[4]) / 2.0]
  }

  /** The polynomial at a frequency, by the Chebyshev recursion on its cosine. */
  function Evaluate(pq: seq<real>, cos: real -> real, omega: real): real
    requires |pq| == 5
  {
    var c := cos(omega * TWO_PI);
    var h1 := 2.0 * c + pq[0];
    var h2 := 2.0 * c * h1 - 1.0 + pq[1];
    var h3 := 2.0 * c * h2 - h1 + pq[2];
    var h4 := 2.0 * c * h3 - h2 + pq[3];
    c * h4 - h3 + pq[4]
  }

  /** The loop's stop test: the sign differs from the remembered value's, or half the rate is reached. */
  predicate Stops(value: real, old_: real, omega: real) {
    value * old_ <= 0.0 || omega >= 0.5
  }

  /** A value of the sign remembered before, once remembered, still differs in sign from the stopping value. */
  lemma SignFlip(remembered: real, middle: real, right: real)
    requires middle * remembered > 0.0
    requires right * remembered <= 0.0
    ensures right * middle <= 0.0
  {
    if remembered > 0.0 {
      assert middle > 0.0;
      assert right <= 0.0;
    } else {
      assert middle < 0.0;
      assert right >= 0.0;
    }
  }

  /** Coarse position n of the walk. */
  function Grid(n: nat): real {
    n as real * COARSE
  }

  const LAST: nat := 79

  lemma GridEnds(n: nat)
    ensures Grid(n) < 0.5 <==> n < LAST
  {
  }

  /** The search loop at one level: step right until the stop test holds, remembering the last value seen. */
  method WalkToStop(eval: real -> real, start: real, step: real, initial: real)
    returns (omega: real, remembered: real, value: real, ghost steps: nat)
    requires step > 0.0
    ensures omega == start + steps as real * step
    ensures value == eval(omega) && Stops(value, remembered, omega)
    ensures remembered == if steps == 0 then initial else eval(omega - step)
    ensures steps > 0 ==> !Stops(eval(start), initial, start)
    ensures steps > 1 ==> !Stops(eval(start + step), eval(start), start + step)
    ensures steps > 0 ==> omega - step < 0.5
  {
    omega, remembered, steps := start, initial, 0;
    value := eval(omega);
    while !(value * remembered <= 0.0 || omega >= 0.5)
      invariant omega == start + steps as real * step
      invariant value == eval(omega)
      invariant remembered == if steps == 0 then initial else eval(omega - step)
      invariant steps > 0 ==> !Stops(eval(start), initial, start) && omega - step < 0.5
      invariant steps > 1 ==> !Stops(eval(start + step), eval(start), start + step)
      decreases (0.5 - omega) / step
    {
      OneStepCloser(omega, step);
      remembered := value;
      omega := omega + step;
      value := eval(omega);
      steps := steps + 1;
    }
  }

  lemma OneStepCloser(omega: real, step: real)
    requires step > 0.0
    ensures (0.5 - (omega + step)) / step == (0.5 - omega) / step - 1.0
    ensures omega < 0.5 ==> (0.5 - omega) / step > 0.0
  {
    var q, r := (0.5 - omega) / step, (0.5 - (omega + step)) / step;
    assert q * step == 0.5 - omega && r * step == 0.5 - omega - step;
    assert (q - 1.0 - r) * step == q * step - step - r * step;
    ZeroProduct(q - 1.0 - r, step);
  }

  /** The state between levels: the last stop, where the remembered value differs in sign (or half the rate is
      reached), and that value, taken one step of this level to the left unless it is the one the search started
      with and no step has been taken. */
  ghost predicate Bracketed(eval: real -> real, right: real, remembered: real, step: real, untouched: bool,
                            initial: real)
  {
    && Stops(eval(right), remembered, right)
    && (remembered == eval(right - step) || (untouched && remembered == initial))
  }

  /** One refinement level evaluates at most twice and keeps a bracket of one step. */
  method Refine(eval: real -> real, level: nat, right0: real, remembered0: real, ghost untouched: bool,
                ghost initial: real)
    returns (right: real, remembered: real, value: real, ghost evaluations: nat)
    requires 1 <= level < 4
    requires Bracketed(eval, right0, remembered0, StepOf(level - 1), untouched, initial)
    ensures Bracketed(eval, right, remembered, StepOf(level), untouched, initial)
    ensures right == right0 || right == right0 - StepOf(level)
    ensures value == eval(right) && evaluations <= 2
  {
    var step := StepOf(level);
    var middle := right0 - step;
    ghost var steps;
    right, remembered, value, steps := WalkToStop(eval, middle, step, remembered0);
    if steps > 0 {
      if right0 < 0.5 {
        SignFlip(remembered0, eval(middle), eval(right0));
      }
      assert middle + step == right0;
    }
    evaluations := steps + 1;
  }

  /** One root: walk from coarse position n0 to the first stop, then halve the bracket three times.
      The walk never goes back, each level evaluates at most twice, and the frequency lies at most one coarse step
      below the coarse stop: it is the end of the final bracket whose value is smaller. */
  method FindRoot(eval: real -> real, ghost n0: nat, start: real, initial: real)
    returns (freq: real, coarse: real, next: real, ghost n: nat, ghost right: real, ghost left: real,
             ghost evaluations: nat)
    requires n0 <= LAST && start == Grid(n0)
    ensures n0 <= n <= LAST && coarse == Grid(n)
    ensures coarse - COARSE + StepOf(3) <= right <= coarse
    ensures Bracketed(eval, right, left, StepOf(3), n == n0, initial)
    ensures freq == if Abs(eval(right)) >= Abs(left) then right - StepOf(3) else right
    ensures coarse - COARSE <= freq <= coarse
    ensures next == if left >= 0.0 then -HUGE else HUGE
    ensures evaluations <= (n - n0) + 1 + 6
  {
    var omega, remembered, value, steps := WalkToStop(eval, start, StepOf(0), initial);
    n, coarse, evaluations := n0 + steps, omega, steps + 1;
    GridEnds(n);
    if steps > 0 {
      GridEnds(n - 1);
    }
    var level := 1;
    while level < 4
      invariant 1 <= level <= 4
      invariant Bracketed(eval, omega, remembered, StepOf(level - 1), n == n0, initial)
      invariant value == eval(omega)
      invariant coarse - COARSE + StepOf(level - 1) <= omega <= coarse
      invariant evaluations <= (n - n0) + 1 + 2 * (level - 1)
    {
      ghost var e;
      omega, remembered, value, e := Refine(eval, level, omega, remembered, n == n0, initial);
      evaluations := evaluations + e;
      level := level + 1;
    }
    freq := if Abs(value) >= Abs(remembered) then omega - StepOf(3) else omega;
    next := if remembered >= 0.0 then -HUGE else HUGE;
    right, left := omega, remembered;
  }

  ghost predicate Ordered(coarse: seq<real>, freq: seq<real>) {
    && |coarse| == |freq|
    && (forall i, j | 0 <= i <= j < |coarse| :: coarse[i] <= coarse[j])
    && (forall i | 0 <= i < |freq| :: TWO_PI * (coarse[i] - COARSE) <= freq[i] <= TWO_PI * coarse[i])
  }

  /** A later frequency undershoots an earlier one by at most one coarse step. */
  lemma UndershootIsBounded(coarse: seq<real>, freq: seq<real>, i: nat, j: nat)
    requires Ordered(coarse, freq)
    requires i <= j < |freq|
    ensures freq[j] >= freq[i] - TWO_PI * COARSE
  {
    assert coarse[i] <= coarse[j];
  }

  /** The polynomial whose roots the i-th search looks for: the sum polynomial for even i, the difference for odd. */
  function Polynomial(a: seq<real>, cos: real -> real, i: nat): real -> real
    requires |a| == 11
  {
    w => Evaluate(Reduced(a, i % 2 == 0), cos, w)
  }

  /** What a search starts from: the sign opposite to the one before root j, the last of its polynomial. */
  function Opposite(lefts: seq<real>, j: int): real
    requires j < |lefts|
  {
    if j < 0 then HUGE else if lefts[j] >= 0.0 then -HUGE else HUGE
  }

  /** Search i's result. Between right - StepOf(3) and right the polynomial changes its sign, or has a zero at right;
      except that right may be half the rate or more, or that the search never left the coarse position it started from,
      because there the sign was already the one to be found. Of the two ends the one of smaller value is the root. */
  ghost predicate IsRoot(eval: real -> real, i: nat, coarse: seq<real>, rights: seq<real>, lefts: seq<real>, f: real)
    requires i < |coarse| == |rights| == |lefts|
  {
    var right, left := rights[i], lefts[i];
    && coarse[i] - COARSE + StepOf(3) <= right <= coarse[i]
    && Stops(eval(right), left, right)
    && (left == eval(right - StepOf(3))
        || (left == Opposite(lefts, i - 2) && coarse[i] == if i == 0 then 0.0 else coarse[i - 1]))
    && f == if Abs(eval(right)) >= Abs(left) then right - StepOf(3) else right
  }

  /** The first n results. */
  ghost predicate AreRoots(a: seq<real>, cos: real -> real, n: nat, coarse: seq<real>, rights: seq<real>,
                           lefts: seq<real>, f: seq<real>)
    requires |a| == 11
  {
    && n == |coarse| == |rights| == |lefts| && n <= |f|
    && forall i: nat {:trigger f[i]} | i < n :: IsRoot(Polynomial(a, cos, i), i, coarse, rights, lefts, f[i])
  }

  lemma OneMoreRoot(a: seq<real>, cos: real -> real, coarse: seq<real>, rights: seq<real>, lefts: seq<real>,
                    f: seq<real>, g: seq<real>, stop: real, right: real, left: real)
    requires |a| == 11 && AreRoots(a, cos, |coarse|, coarse, rights, lefts, f)
    requires |f| == |g| > |coarse| && forall i: nat | i < |coarse| :: g[i] == f[i]
    requires IsRoot(Polynomial(a, cos, |coarse|), |coarse|, coarse + [stop], rights + [right], lefts + [left],
                    g[|coarse|])
    ensures AreRoots(a, cos, |coarse| + 1, coarse + [stop], rights + [right], lefts + [left], g)
  {
    hide Polynomial, StepOf;
    forall i: nat | i < |coarse| + 1
      ensures IsRoot(Polynomial(a, cos, i), i, coarse + [stop], rights + [right], lefts + [left], g[i])
    {
      if i < |coarse| {
        assert IsRoot(Polynomial(a, cos, i), i, coarse, rights, lefts, f[i]);
      }
    }
  }

  /** a2lsf: ten roots, alternately of the sum and the difference polynomial, each search resuming at the coarse
      stop of the one before. It terminates for every coefficient vector and every cosine after at most 149
      evaluations. */
  method A2Lsf(freq: array<real>, a: seq<real>, cos: real -> real)
    returns (ghost coarse: seq<real>, ghost rights: seq<real>, ghost lefts: seq<real>, ghost found: seq<real>,
             ghost evaluations: nat)
    requires freq.Length >= 10 && |a| == 11
    modifies freq
    ensures |coarse| == |found| == 10 && AreRoots(a, cos, 10, coarse, rights, lefts, found)
    ensures forall i | 0 <= i < 10 :: freq[i] == found[i] * TWO_PI
    ensures Ordered(coarse, freq[..10])
    ensures freq[10..] == old(freq[10..])
    ensures evaluations <= 149
  {
    coarse, rights, lefts, evaluations := FindRoots(freq, a, cos);
    found := freq[..10];
    for i := 0 to 10
      invariant forall j | 0 <= j < i :: freq[j] == found[j] * TWO_PI
      invariant forall j | i <= j < 10 :: freq[j] == found[j]
      invariant freq[10..] == old(freq[10..])
    {
      freq[i] := freq[i] * TWO_PI;
    }
    forall i | 0 <= i < 10
      ensures TWO_PI * (coarse[i] - COARSE) <= freq[i] <= TWO_PI * coarse[i]
    {
    }
  }

  /** The ten searches. */
  method FindRoots(freq: array<real>, a: seq<real>, cos: real -> real)
    returns (ghost coarse: seq<real>, ghost rights: seq<real>, ghost lefts: seq<real>, ghost evaluations: nat)
    requires freq.Length >= 10 && |a| == 11
    modifies freq
    ensures |coarse| == 10 && AreRoots(a, cos, 10, coarse, rights, lefts, freq[..10])
    ensures forall i, j | 0 <= i <= j < 10 :: coarse[i] <= coarse[j]
    ensures forall i | 0 <= i < 10 :: coarse[i] - COARSE <= freq[i] <= coarse[i]
    ensures freq[10..] == old(freq[10..]) && evaluations <= 149
  {
    hide IsRoot, Evaluate, Reduced, AreRoots;
    var p, q := Reduced(a, true), Reduced(a, false);
    var oldP, oldQ, omega := HUGE, HUGE, 0.0;
    ghost var n: nat := 0;
    coarse, rights, lefts, evaluations := [], [], [], 0;
    NoRoots(a, cos, freq[..10]);
    for i := 0 to 10
      invariant |coarse| == |lefts| == |rights| == i && n <= LAST && omega == Grid(n)
      invariant AreRoots(a, cos, i, coarse, rights, lefts, freq[..10])
      invariant omega == if i == 0 then 0.0 else coarse[i - 1]
      invariant oldP == Opposite(lefts, if i % 2 == 0 then i - 2 else i - 1)
      invariant oldQ == Opposite(lefts, if i % 2 == 0 then i - 1 else i - 2)
      invariant forall j, k | 0 <= j <= k < i :: coarse[j] <= coarse[k]
      invariant forall j | 0 <= j < i :: coarse[j] <= omega && coarse[j] - COARSE <= freq[j] <= coarse[j]
      invariant freq[10..] == old(freq[10..])
      invariant evaluations <= n + 7 * i
    {
      var f, stop, next;
      ghost var m, right, left, e;
      ghost var before := freq[..10];
      if i % 2 == 0 {
        f, stop, next, m, right, left, e := NextRoot(a, p, cos, i, coarse, rights, lefts, n, omega, oldP);
        oldP := next;
      } else {
        f, stop, next, m, right, left, e := NextRoot(a, q, cos, i, coarse, rights, lefts, n, omega, oldQ);
        oldQ := next;
      }
      freq[i] := f;
      OneMoreRoot(a, cos, coarse, rights, lefts, before, freq[..10], stop, right, left);
      coarse, rights, lefts := coarse + [stop], rights + [right], lefts + [left];
      omega, n := stop, m;
      evaluations := evaluations + e;
    }
  }

  /** Search i, from the coarse stop of the one before. */
  method NextRoot(ghost a: seq<real>, pq: seq<real>, cos: real -> real, ghost i: nat, ghost coarse: seq<real>,
                  ghost rights: seq<real>, ghost lefts: seq<real>, ghost n: nat, omega: real, initial: real)
    returns (f: real, stop: real, next: real, ghost m: nat, ghost right: real, ghost left: real,
             ghost evaluations: nat)
    requires |a| == 11 && pq == Reduced(a, i % 2 == 0) && |coarse| == |rights| == |lefts| == i
    requires n <= LAST && omega == Grid(n) && omega == (if i == 0 then 0.0 else coarse[i - 1])
    requires initial == Opposite(lefts, i - 2)
    ensures n <= m <= LAST && stop == Grid(m) && omega <= stop && stop - COARSE <= f <= stop
    ensures IsRoot(Polynomial(a, cos, i), i, coarse + [stop], rights + [right], lefts + [left], f)
    ensures next == if left >= 0.0 then -HUGE else HUGE
    ensures evaluations <= (m - n) + 7
  {
    hide IsRoot, Bracketed, Evaluate, Reduced;
    f, stop, next, m, right, left, evaluations := FindRoot(w => Evaluate(pq, cos, w), n, omega, initial);
    FoundIsRoot(a, cos, w => Evaluate(pq, cos, w), i, coarse, rights, lefts, n, m, right, left, f);
    GridMonotone(n, m);
  }

  lemma NoRoots(a: seq<real>, cos: real -> real, f: seq<real>)
    requires |a| == 11
    ensures AreRoots(a, cos, 0, [], [], [], f)
  {
  }

  lemma FoundIsRoot(a: seq<real>, cos: real -> real, eval: real -> real, i: nat, coarse: seq<real>, rights: seq<real>,
                    lefts: seq<real>, n: nat, m: nat, right: real, left: real, f: real)
    requires |a| == 11 && |coarse| == |rights| == |lefts| == i && n <= m
    requires forall w :: eval(w) == Evaluate(Reduced(a, i % 2 == 0), cos, w)
    requires Grid(n) == if i == 0 then 0.0 else coarse[i - 1]
    requires Grid(m) - COARSE + StepOf(3) <= right <= Grid(m)
    requires Bracketed(eval, right, left, StepOf(3), m == n, Opposite(lefts, i - 2))
    requires f == if Abs(eval(right)) >= Abs(left) then right - StepOf(3) else right
    ensures IsRoot(Polynomial(a, cos, i), i, coarse + [Grid(m)], rights + [right], lefts + [left], f)
  {
    var found := Polynomial(a, cos, i);
    assert forall w :: found(w) == eval(w);
    var longer := lefts + [left];
    assert Opposite(longer, i - 2) == Opposite(lefts, i - 2);
  }

  lemma GridMonotone(n: nat, m: nat)
    requires n <= m
    ensures Grid(n) <= Grid(m)
  {
  }
}
