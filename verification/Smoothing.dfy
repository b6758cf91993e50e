/** The enhancer's smoother: six pitch-synchronous neighbours of a block are
    averaged and mixed with it under a constraint on the change. */
module Smoothing {
  import opened Basics
  import opened RealArithmetic
  import opened Vectors

  /** A square root on the non-negative reals. */
  ghost predicate IsSqrt(f: real -> real) {
    forall x :: x >= 0.0 ==> f(x) >= 0.0 && f(x) * f(x) == x
  }

  function Difference(u: seq<real>, v: seq<real>): (d: seq<real>)
    requires |u| == |v|
    ensures |d| == |u|
  {
    seq(|u|, i requires 0 <= i < |u| => u[i] - v[i])
  }

  /** The squared error between two blocks. */
  function SquaredError(u: seq<real>, v: seq<real>): real
    requires |u| == |v|
  {
    Energy(Difference(u, v))
  }

  /** a * s + b * p, sample by sample. */
  function Mix(a: real, s: seq<real>, b: real, p: seq<real>): (m: seq<real>)
    requires |s| == |p|
    ensures |m| == |s|
  {
    seq(|s|, i requires 0 <= i < |s| => a * s[i] + b * p[i])
  }

  /** The energy of a mix, from the energies of its parts and their correlation. */
  function MixEnergy(a: real, b: real, ss: real, sp: real, pp: real): real {
    a * a * ss + 2.0 * (a * b) * sp + b * b * pp
  }

  lemma SquareOfSum(m: real, u: real, v: real)
    requires m == u + v
    ensures m * m == u * u + 2.0 * (u * v) + v * v
  {
  }

  lemma SampleEnergy(a: real, b: real, s: real, p: real, m: real, ss: real, sp: real, pp: real)
    requires m == a * s + b * p
    ensures MixEnergy(a, b, ss, sp, pp) + m * m == MixEnergy(a, b, ss + s * s, sp + s * p, pp + p * p)
  {
    var u, v := a * s, b * p;
    SquareOfSum(m, u, v);
    assert u * u == a * a * (s * s);
    assert u * v == a * b * (s * p);
    assert v * v == b * b * (p * p);
  }

  ghost predicate IsMix(m: seq<real>, a: real, s: seq<real>, b: real, p: seq<real>) {
    && |m| == |s| == |p|
    && forall i | 0 <= i < |m| :: m[i] == a * s[i] + b * p[i]
  }

  lemma {:induction false} EnergyOfMix(m: seq<real>, a: real, s: seq<real>, b: real, p: seq<real>, n: nat)
    requires IsMix(m, a, s, b, p) && n <= |s|
    ensures Dot(m, m, n) == MixEnergy(a, b, Dot(s, s, n), Dot(s, p, n), Dot(p, p, n))
  {
    if n > 0 {
      EnergyOfMix(m, a, s, b, p, n - 1);
      SampleEnergy(a, b, s[n - 1], p[n - 1], m[n - 1], Dot(s, s, n - 1), Dot(s, p, n - 1), Dot(p, p, n - 1));
    }
  }

  lemma MixIsMix(a: real, s: seq<real>, b: real, p: seq<real>)
    requires |s| == |p|
    ensures IsMix(Mix(a, s, b, p), a, s, b, p)
  {
  }

  lemma DifferenceIsMix(o: seq<real>, a: real, s: seq<real>, b: real, e: real, p: seq<real>)
    requires IsMix(o, a, s, b, p) && e == b - 1.0
    ensures IsMix(Difference(o, p), a, s, e, p)
  {
    var d := Difference(o, p);
    forall i | 0 <= i < |d|
      ensures d[i] == a * s[i] + e * p[i]
    {
      assert o[i] == a * s[i] + b * p[i];
      OneLess(b, e, p[i]);
    }
  }

  lemma OneLess(b: real, e: real, x: real)
    requires e == b - 1.0
    ensures e * x == b * x - x
  {
  }

  /** The squared error and the energy of a mix with weights a and b; e is b - 1. */
  lemma MixMeasures(s: seq<real>, p: seq<real>, a: real, b: real, e: real)
    requires |s| == |p| && e == b - 1.0
    ensures SquaredError(Mix(a, s, b, p), p) == MixEnergy(a, e, Energy(s), Dot(s, p, |s|), Energy(p))
    ensures Energy(Mix(a, s, b, p)) == MixEnergy(a, b, Energy(s), Dot(s, p, |s|), Energy(p))
  {
    var o := Mix(a, s, b, p);
    MixIsMix(a, s, b, p);
    DifferenceIsMix(o, a, s, b, e, p);
    EnergyOfMix(Difference(o, p), a, s, e, p, |s|);
    EnergyOfMix(o, a, s, b, p, |s|);
  }

  // ---- The constrained mix ----

  /** The equations that the two mixing weights satisfy; w11 and w00 are the clamped energies. */
  ghost predicate Constrained(a: real, b: real, y: real, alpha0: real, w11: real, w10: real, w00: real, denom: real) {
    && denom * (w00 * w00) == w11 * w00 - w10 * w10
    && a * a * denom == alpha0 - alpha0 * alpha0 / 4.0
    && y * w00 == a * w10
    && b == 1.0 - alpha0 / 2.0 - y
  }

  lemma CancelFactor(x: real, y: real, w: real)
    requires x * w == y * w && w > 0.0
    ensures x == y
  {
    assert (x - y) * w == 0.0;
    ZeroProduct(x - y, w);
  }

  /** With the clamped energies the mix misses the centre by exactly alpha0 * w00. */
  lemma ClampedError(a: real, b: real, e: real, y: real, alpha0: real, w11: real, w10: real, w00: real, denom: real)
    requires Constrained(a, b, y, alpha0, w11, w10, w00, denom) && w00 > 0.0 && e == b - 1.0
    ensures MixEnergy(a, e, w11, w10, w00) == alpha0 * w00
  {
    var h := alpha0 / 2.0;
    var c := h + y;
    // a^2 w11 - y a w10 is what the denominator leaves.
    assert (a * a * w11 - y * (a * w10)) * w00 == ((alpha0 - h * h) * w00) * w00 by {
      calc {
        (a * a * w11 - y * (a * w10)) * w00;
        a * a * (w11 * w00) - (y * w00) * (a * w10);
        a * a * (w11 * w00) - (a * w10) * (a * w10);
        a * a * (w11 * w00 - w10 * w10);
        a * a * (denom * (w00 * w00));
        (a * a * denom) * (w00 * w00);
        ((alpha0 - h * h) * w00) * w00;
      }
    }
    CancelFactor(a * a * w11 - y * (a * w10), (alpha0 - h * h) * w00, w00);
    calc {
      MixEnergy(a, e, w11, w10, w00);
      { assert e == -c; }
      a * a * w11 - 2.0 * c * (a * w10) + c * (c * w00);
      { assert c * w00 == h * w00 + a * w10; }
      a * a * w11 - 2.0 * c * (a * w10) + c * (h * w00 + a * w10);
      a * a * w11 + c * (h * w00) - c * (a * w10);
      a * a * w11 - y * (a * w10) + h * (c * w00) - h * (a * w10);
      a * a * w11 - y * (a * w10) + h * (h * w00);
      (alpha0 - h * h) * w00 + h * (h * w00);
      alpha0 * w00;
    }
  }

  /** Clamping the energies upwards can only overstate the error. */
  lemma ClampingOverstates(a: real, b: real, ss: real, w11: real, sp: real, pp: real, w00: real)
    requires ss <= w11 && pp <= w00
    ensures MixEnergy(a, b, ss, sp, pp) <= MixEnergy(a, b, w11, sp, w00)
  {
    var aa := NonNegativeSquare(a);
    var bb := NonNegativeSquare(b);
    var x := NonNegativeProduct(aa, w11 - ss);
    var y := NonNegativeProduct(bb, w00 - pp);
    assert aa * w11 - aa * ss == x && bb * w00 - bb * pp == y;
  }

  /** Without clamping, the mix has the energy of the centre. */
  lemma UnclampedEnergy(a: real, b: real, e: real, y: real, alpha0: real, w11: real, w10: real, w00: real, denom: real)
    requires Constrained(a, b, y, alpha0, w11, w10, w00, denom) && w00 > 0.0 && e == b - 1.0
    ensures MixEnergy(a, b, w11, w10, w00) == w00
  {
    ClampedError(a, b, e, y, alpha0, w11, w10, w00, denom);
    calc {
      MixEnergy(a, b, w11, w10, w00);
      { assert a * b == a * e + a; assert b * b == e * e + 2.0 * e + 1.0; }
      MixEnergy(a, e, w11, w10, w00) + 2.0 * (a * w10) + 2.0 * (e * w00) + w00;
      alpha0 * w00 + 2.0 * (a * w10) + 2.0 * (e * w00) + w00;
      { assert e * w00 == -(alpha0 / 2.0) * w00 - a * w10; }
      w00;
    }
  }

  function AtLeastOne(x: real): real {
    if x < 1.0 then 1.0 else x
  }

  /** The weights of the second attempt, from the clamped energies: the constrained ones, or the centre alone if the
      surround is almost a multiple of it. */
  ghost predicate AreWeights(a: real, b: real, alpha0: real, w11: real, w10: real, w00: real)
    requires w00 >= 1.0
  {
    var denom := Denominator(w11, w10, w00);
    if denom > 0.0001 then a >= 0.0 && Constrained(a, b, 1.0 - alpha0 / 2.0 - b, alpha0, w11, w10, w00, denom)
    else a == 0.0 && b == 1.0
  }

  function Denominator(w11: real, w10: real, w00: real): real
    requires w00 >= 1.0
  {
    var square := w00 * w00;
    Quotient(w11 * w00 - w10 * w10, square)
  }

  /** Their mix misses the centre by at most alpha0 times its clamped energy and, unless an energy was clamped, keeps
      the centre's energy. */
  lemma WeightsAreGood(a: real, b: real, alpha0: real, ss: real, sp: real, pp: real)
    requires 0.0 <= alpha0 && AreWeights(a, b, alpha0, AtLeastOne(ss), sp, AtLeastOne(pp))
    ensures MixEnergy(a, b - 1.0, ss, sp, pp) <= alpha0 * AtLeastOne(pp)
    ensures ss >= 1.0 && pp >= 1.0 ==> MixEnergy(a, b, ss, sp, pp) == pp
  {
    var denom, y, e := Denominator(AtLeastOne(ss), sp, AtLeastOne(pp)), 1.0 - alpha0 / 2.0 - b, b - 1.0;
    if denom > 0.0001 {
      ConstrainedIsGood(a, b, e, y, alpha0, ss, sp, pp, denom);
    } else {
      var x := NonNegativeProduct(alpha0, AtLeastOne(pp));
    }
  }

  lemma ConstrainedIsGood(a: real, b: real, e: real, y: real, alpha0: real, ss: real, sp: real, pp: real, denom: real)
    requires Constrained(a, b, y, alpha0, AtLeastOne(ss), sp, AtLeastOne(pp), denom) && e == b - 1.0
    ensures MixEnergy(a, e, ss, sp, pp) <= alpha0 * AtLeastOne(pp)
    ensures ss >= 1.0 && pp >= 1.0 ==> MixEnergy(a, b, ss, sp, pp) == pp
  {
    ClampingOverstates(a, e, ss, AtLeastOne(ss), sp, pp, AtLeastOne(pp));
    ClampedError(a, b, e, y, alpha0, AtLeastOne(ss), sp, AtLeastOne(pp), denom);
    if ss >= 1.0 && pp >= 1.0 {
      UnclampedEnergy(a, b, e, y, alpha0, ss, sp, pp, denom);
    }
  }

  lemma ScaledEnergy(c: real, ss: real, sp: real, pp: real, alpha0: real, err: real)
    requires c * c * AtLeastOne(ss) == pp && 0.0 <= alpha0 && err <= alpha0 * pp
    ensures err <= alpha0 * AtLeastOne(pp)
    ensures ss >= 1.0 ==> MixEnergy(c, 0.0, ss, sp, pp) == pp
  {
    var x := NonNegativeProduct(alpha0, AtLeastOne(pp) - pp);
    assert x == alpha0 * AtLeastOne(pp) - alpha0 * pp;
  }

  /** The first attempt: the surround alone, scaled to the centre's energy. */
  lemma ScaledSurround(s: seq<real>, p: seq<real>, c: real, alpha0: real)
    requires |s| == |p| && 0.0 <= alpha0
    requires c * c * AtLeastOne(Energy(s)) == Energy(p)
    requires SquaredError(Mix(c, s, 0.0, p), p) <= alpha0 * Energy(p)
    ensures var o := Mix(c, s, 0.0, p);
            && SquaredError(o, p) <= alpha0 * AtLeastOne(Energy(p))
            && (Energy(s) >= 1.0 ==> Energy(o) == Energy(p))
  {
    hide Energy, Dot, Mix, SquaredError, AtLeastOne, MixEnergy;
    MixMeasures(s, p, c, 0.0, -1.0);
    ScaledEnergy(c, Energy(s), Dot(s, p, |s|), Energy(p), alpha0, SquaredError(Mix(c, s, 0.0, p), p));
  }

  // ---- The method ----

  /** One sample of the weighted sum of the segments around the centre one. */
  function SurroundSample(segments: seq<real>, wt: seq<real>, hl: nat, i: nat, k: nat): real
    requires |wt| == 2 * hl + 1 && k <= |wt| && |segments| == BLOCK * |wt| && i < BLOCK
  {
    if k == 0 then 0.0
    else if k - 1 == hl then SurroundSample(segments, wt, hl, i, k - 1)
    else SurroundSample(segments, wt, hl, i, k - 1) + segments[BLOCK * (k - 1) + i] * wt[k - 1]
  }

  function Surround(segments: seq<real>, wt: seq<real>, hl: nat): (s: seq<real>)
    requires |wt| == 2 * hl + 1 && |segments| == BLOCK * |wt|
    ensures |s| == BLOCK
  {
    seq(BLOCK, i requires 0 <= i < BLOCK => SurroundSample(segments, wt, hl, i, 2 * hl + 1))
  }

  function Centre(segments: seq<real>, hl: nat): (p: seq<real>)
    requires |segments| == BLOCK * (2 * hl + 1)
    ensures |p| == BLOCK
  {
    segments[BLOCK * hl..BLOCK * hl + BLOCK]
  }

  method ComputeSurround(segments: seq<real>, wt: seq<real>, hl: nat) returns (s: seq<real>)
    requires |wt| == 2 * hl + 1 && |segments| == BLOCK * |wt|
    ensures s == Surround(segments, wt, hl)
  {
    var a := new real[BLOCK](i => 0.0);
    for k := 0 to 2 * hl + 1
      invariant forall i: nat | i < BLOCK :: a[i] == SurroundSample(segments, wt, hl, i, k)
    {
      if k != hl {
        for i := 0 to BLOCK
          invariant forall j: nat | j < i :: a[j] == SurroundSample(segments, wt, hl, j, k + 1)
          invariant forall j: nat | i <= j < BLOCK :: a[j] == SurroundSample(segments, wt, hl, j, k)
        {
          a[i] := a[i] + segments[BLOCK * k + i] * wt[k];
        }
      }
    }
    s := a[..];
  }

  method WriteMix(odata: array<real>, off: nat, a: real, s: seq<real>, b: real, p: seq<real>)
    requires |s| == |p| && off + |s| <= odata.Length
    modifies odata
    ensures odata[off..off + |s|] == Mix(a, s, b, p)
    ensures forall i | 0 <= i < odata.Length && !(off <= i < off + |s|) :: odata[i] == old(odata[i])
  {
    ghost var m := Mix(a, s, b, p);
    for i := 0 to |s|
      invariant forall k | off <= k < off + i :: odata[k] == m[k - off]
      invariant forall k | 0 <= k < odata.Length && !(off <= k < off + |s|) :: odata[k] == old(odata[k])
    {
      odata[off + i] := a * s[i] + b * p[i];
    }
  }

  /** The two weights of the constrained mix, from the clamped energies. */
  method Weights(sqrt: real -> real, alpha0: real, w11: real, w10: real, w00: real) returns (a: real, b: real)
    requires IsSqrt(sqrt) && 0.0 <= alpha0 <= 4.0 && w00 >= 1.0
    ensures AreWeights(a, b, alpha0, w11, w10, w00)
  {
    var ww := PositiveProduct(w00, w00);
    var denom := (w11 * w00 - w10 * w10) / (w00 * w00);
    assert denom == Denominator(w11, w10, w00);
    if denom > 0.0001 {
      NumeratorNonNegative(alpha0);
      QuotientNonNegative(alpha0 - alpha0 * alpha0 / 4.0, denom);
      a := sqrt((alpha0 - alpha0 * alpha0 / 4.0) / denom);
      b := -alpha0 / 2.0 - a * w10 / w00;
      b := b + 1.0;
      RootSolves(a, a * w10 / w00, b, alpha0, w11, w10, w00, denom);
    } else {
      a, b := 0.0, 1.0;
    }
  }

  lemma RootSolves(a: real, y: real, b: real, alpha0: real, w11: real, w10: real, w00: real, denom: real)
    requires w00 >= 1.0 && denom == Denominator(w11, w10, w00) && denom > 0.0001
    requires a >= 0.0 && a * a == (alpha0 - alpha0 * alpha0 / 4.0) / denom
    requires y == a * w10 / w00 && b == 1.0 - alpha0 / 2.0 - y
    ensures AreWeights(a, b, alpha0, w11, w10, w00)
  {
    var square := PositiveProduct(w00, w00);
    assert denom * square == w11 * w00 - w10 * w10;
    assert a * a * denom == alpha0 - alpha0 * alpha0 / 4.0;
    assert y * w00 == a * w10;
    assert 1.0 - alpha0 / 2.0 - b == y;
  }

  lemma NumeratorNonNegative(alpha0: real)
    requires 0.0 <= alpha0 <= 4.0
    ensures alpha0 - alpha0 * alpha0 / 4.0 >= 0.0
  {
    var p := NonNegativeProduct(alpha0, 4.0 - alpha0);
    assert p == 4.0 * alpha0 - alpha0 * alpha0;
  }

  lemma QuotientNonNegative(x: real, d: real)
    requires x >= 0.0 && d > 0.0
    ensures x / d >= 0.0
  {
    var q := x / d;
    assert q * d == x;
    NonNegativeFactor(q, d);
  }

  lemma NonNegativeFactor(q: real, d: real)
    requires q * d >= 0.0 && d > 0.0
    ensures q >= 0.0
  {
    if q < 0.0 {
      var p := PositiveProduct(-q, d);
    }
  }

  /** The hanning-like weights of the neighbours, for any cosine. */
  function NeighbourWeights(cos: real -> real, hl: nat): (wt: seq<real>)
    ensures |wt| == 2 * hl + 1
  {
    seq(2 * hl + 1, i requires 0 <= i < 2 * hl + 1 =>
      if i == hl then 0.0
      else 0.5 * (1.0 - cos(6.2831855 * (i + 1) as real / (2 * hl + 2) as real)))
  }

  /** A gain that gives the surround the energy of the centre. */
  ghost predicate IsGain(c: real, ss: real, pp: real) {
    c >= 0.0 && c * c * AtLeastOne(ss) == pp
  }

  /** smath's value for surround s and centre p. The first attempt is the surround alone, scaled to the centre's energy;
      if that misses the bound, the surround and the centre are mixed under the constraint. */
  ghost predicate Smoothed(o: seq<real>, s: seq<real>, p: seq<real>, alpha0: real)
    requires |o| == |s| == |p|
  {
    exists c :: IsGain(c, Energy(s), Energy(p)) && SmoothedBy(o, s, p, alpha0, c)
  }

  ghost predicate SmoothedBy(o: seq<real>, s: seq<real>, p: seq<real>, alpha0: real, c: real)
    requires |o| == |s| == |p|
  {
    if FirstSuffices(s, p, alpha0, c) then o == Mix(c, s, 0.0, p)
    else exists a, b :: AreWeights(a, b, alpha0, AtLeastOne(Energy(s)), Dot(s, p, |s|), AtLeastOne(Energy(p)))
                        && o == Mix(a, s, b, p)
  }

  predicate FirstSuffices(s: seq<real>, p: seq<real>, alpha0: real, c: real)
    requires |s| == |p|
  {
    SquaredError(Mix(c, s, 0.0, p), p) <= alpha0 * Energy(p)
  }

  /** smath: the smoothed block of every seven segments. */
  method Smath(odata: array<real>, off: nat, segments: seq<real>, hl: nat, alpha0: real, cos: real -> real,
               sqrt: real -> real)
    requires |segments| == BLOCK * (2 * hl + 1) && off + BLOCK <= odata.Length
    requires IsSqrt(sqrt) && 0.0 <= alpha0 <= 4.0
    modifies odata
    ensures Smoothed(odata[off..off + BLOCK], Surround(segments, NeighbourWeights(cos, hl), hl),
                     Centre(segments, hl), alpha0)
    ensures forall i | 0 <= i < odata.Length && !(off <= i < off + BLOCK) :: odata[i] == old(odata[i])
  {
    var s := ComputeSurround(segments, NeighbourWeights(cos, hl), hl);
    var p := Centre(segments, hl);
    Smooth(odata, off, s, p, alpha0, sqrt);
  }

  method Smooth(odata: array<real>, off: nat, s: seq<real>, p: seq<real>, alpha0: real, sqrt: real -> real)
    requires |s| == |p| == BLOCK && off + BLOCK <= odata.Length
    requires IsSqrt(sqrt) && 0.0 <= alpha0 <= 4.0
    modifies odata
    ensures Smoothed(odata[off..off + BLOCK], s, p, alpha0)
    ensures forall i | 0 <= i < odata.Length && !(off <= i < off + BLOCK) :: odata[i] == old(odata[i])
  {
    var w00 := DotProduct(p, p);
    var w11 := DotProduct(s, s);
    var w10 := DotProduct(s, p);
    EnergyNonNegative(p, |p|);
    EnergyNonNegative(s, |s|);
    if -1.0 < w11 < 1.0 {
      w11 := 1.0;
    }
    var c := Gain(sqrt, w00, w11, Energy(s));
    WriteMix(odata, off, c, s, 0.0, p);
    var d := Difference(odata[off..off + BLOCK], p);
    var errs := DotProduct(d, d);
    assert errs <= alpha0 * w00 <==> FirstSuffices(s, p, alpha0, c);
    if errs > alpha0 * w00 {
      SecondAttempt(odata, off, s, p, alpha0, w11, w10, w00, sqrt);
    }
    assert SmoothedBy(odata[off..off + BLOCK], s, p, alpha0, c);
  }

  /** The second attempt: a mix of the surround and the centre itself. */
  method SecondAttempt(odata: array<real>, off: nat, s: seq<real>, p: seq<real>, alpha0: real, w11: real, w10: real,
                       energy: real, sqrt: real -> real)
    requires |s| == |p| == BLOCK && off + BLOCK <= odata.Length
    requires IsSqrt(sqrt) && 0.0 <= alpha0 <= 4.0
    requires w11 == AtLeastOne(Energy(s)) && w10 == Dot(s, p, |s|) && energy == Energy(p)
    modifies odata
    ensures exists a, b :: AreWeights(a, b, alpha0, AtLeastOne(Energy(s)), Dot(s, p, |s|), AtLeastOne(Energy(p)))
                           && odata[off..off + BLOCK] == Mix(a, s, b, p)
    ensures forall i | 0 <= i < odata.Length && !(off <= i < off + BLOCK) :: odata[i] == old(odata[i])
  {
    var w00 := energy;
    if w00 < 1.0 {
      w00 := 1.0;
    }
    var a, b := Weights(sqrt, alpha0, w11, w10, w00);
    WriteMix(odata, off, a, s, b, p);
  }

  method Gain(sqrt: real -> real, w00: real, w11: real, ghost ss: real) returns (c: real)
    requires IsSqrt(sqrt) && w00 >= 0.0 && w11 == AtLeastOne(ss)
    ensures IsGain(c, ss, w00)
  {
    QuotientNonNegative(w00, w11);
    c := sqrt(w00 / w11);
    assert c * c == w00 / w11;
  }

  // ---- What the value is good for ----

  /** The smoothed block differs from the centre by a squared error of at most alpha0 * max(centre energy, 1), and has
      exactly the centre's energy whenever no energy was clamped. */
  lemma StaysClose(o: seq<real>, s: seq<real>, p: seq<real>, alpha0: real, c: real)
    requires |o| == |s| == |p| && 0.0 <= alpha0 && IsGain(c, Energy(s), Energy(p)) && SmoothedBy(o, s, p, alpha0, c)
    ensures SquaredError(o, p) <= alpha0 * AtLeastOne(Energy(p))
    ensures Energy(s) >= 1.0 && (Energy(p) >= 1.0 || FirstSuffices(s, p, alpha0, c)) ==> Energy(o) == Energy(p)
  {
    if FirstSuffices(s, p, alpha0, c) {
      ScaledSurround(s, p, c, alpha0);
    } else {
      var a, b :| AreWeights(a, b, alpha0, AtLeastOne(Energy(s)), Dot(s, p, |s|), AtLeastOne(Energy(p)))
                  && o == Mix(a, s, b, p);
      WeightsAreGood(a, b, alpha0, Energy(s), Dot(s, p, |s|), Energy(p));
      MixMeasures(s, p, a, b, b - 1.0);
    }
  }

  // ---- No admissible block correlates better with the surround ----

  lemma {:induction false} DotSymmetric(u: seq<real>, v: seq<real>, n: nat)
    requires n <= |u| && n <= |v|
    ensures Dot(u, v, n) == Dot(v, u, n)
  {
    if n > 0 {
      DotSymmetric(u, v, n - 1);
    }
  }

  lemma DotStep(a: real, b: real, s: real, p: real, x: real, sx: real, px: real)
    ensures (a * sx + b * px) + (a * s + b * p) * x == a * (sx + s * x) + b * (px + p * x)
  {
  }

  lemma {:induction false} DotOfMix(o: seq<real>, a: real, s: seq<real>, b: real, p: seq<real>, x: seq<real>, n: nat)
    requires IsMix(o, a, s, b, p) && n <= |o| && n <= |x|
    ensures Dot(o, x, n) == a * Dot(s, x, n) + b * Dot(p, x, n)
  {
    if n > 0 {
      DotOfMix(o, a, s, b, p, x, n - 1);
      DotStep(a, b, s[n - 1], p[n - 1], x[n - 1], Dot(s, x, n - 1), Dot(p, x, n - 1));
    }
  }

  /** The error between two blocks, from their energies and their correlation. */
  lemma ErrorIs(u: seq<real>, v: seq<real>)
    requires |u| == |v|
    ensures SquaredError(u, v) == Energy(u) + Energy(v) - 2.0 * Dot(u, v, |u|)
  {
    var d := Difference(u, v);
    assert IsMix(d, 1.0, u, -1.0, v);
    EnergyOfMix(d, 1.0, u, -1.0, v, |u|);
  }

  lemma {:induction false} SilentIsZero(d: seq<real>, n: nat, i: nat)
    requires i < n <= |d| && Dot(d, d, n) <= 0.0
    ensures d[i] == 0.0
  {
    EnergyNonNegative(d, n - 1);
    var square := NonNegativeSquare(d[n - 1]);
    if i == n - 1 {
      if d[i] != 0.0 {
        var q := PositiveSquare(d[i]);
      }
    } else {
      SilentIsZero(d, n - 1, i);
    }
  }

  lemma NoErrorIsSame(u: seq<real>, v: seq<real>)
    requires |u| == |v| && SquaredError(u, v) <= 0.0
    ensures u == v
  {
    forall i | 0 <= i < |u|
      ensures u[i] == v[i]
    {
      SilentIsZero(Difference(u, v), |u|, i);
    }
  }

  /** Blocks of the centre's energy within the error bound. */
  predicate Admissible(x: seq<real>, p: seq<real>, alpha0: real) {
    |x| == |p| && Energy(x) == Energy(p) && SquaredError(x, p) <= alpha0 * Energy(p)
  }

  /** Of two blocks of equal energy, neither correlates better with the other than with itself. */
  lemma CorrelatesAtMost(o: seq<real>, x: seq<real>)
    requires |o| == |x| && Energy(o) == Energy(x)
    ensures Dot(o, x, |o|) <= Energy(o)
  {
    ErrorIs(o, x);
    EnergyNonNegative(Difference(o, x), |o|);
  }

  lemma LessByFactor(a: real, x: real, y: real)
    requires a > 0.0 && a * x <= a * y
    ensures x <= y
  {
    if x > y {
      var p := PositiveProduct(a, x - y);
    }
  }

  lemma NoWeight(b: real, x: real)
    requires b == 0.0
    ensures b * x == 0.0
  {
  }

  /** A mix's correlations follow those of its parts: with weights that are not negative, a block that correlates no
      better with the mix and no worse with the centre correlates no better with the surround. */
  lemma PartsFollow(a: real, b: real, sx: real, px: real, so: real, po: real)
    requires a > 0.0 && b >= 0.0 && (b > 0.0 ==> px >= po) && a * sx + b * px <= a * so + b * po
    ensures sx <= so
  {
    if b > 0.0 {
      var p := NonNegativeProduct(b, px - po);
      assert p == b * px - b * po;
    } else {
      NoWeight(b, px);
      NoWeight(b, po);
    }
    LessByFactor(a, sx, so);
  }

  lemma MixCorrelates(o: seq<real>, a: real, s: seq<real>, b: real, p: seq<real>, x: seq<real>)
    returns (sx: real, px: real)
    requires IsMix(o, a, s, b, p) && |x| == |o|
    ensures sx == Dot(s, x, |o|) && px == Dot(p, x, |o|) && Dot(o, x, |o|) == a * sx + b * px
  {
    DotOfMix(o, a, s, b, p, x, |o|);
    sx, px := Dot(s, x, |o|), Dot(p, x, |o|);
  }

  /** A mix with weights that are not negative correlates best with the surround among all blocks of its energy that
      correlate with the centre at least as well. */
  lemma MixIsBest(o: seq<real>, a: real, s: seq<real>, b: real, p: seq<real>, x: seq<real>)
    requires IsMix(o, a, s, b, p) && |x| == |o| && Energy(x) == Energy(o) && a > 0.0 && b >= 0.0
    requires b > 0.0 ==> Dot(p, x, |o|) >= Dot(p, o, |o|)
    ensures Dot(s, x, |o|) <= Dot(s, o, |o|)
  {
    hide Dot;
    CorrelatesAtMost(o, x);
    var sx, px := MixCorrelates(o, a, s, b, p, x);
    var so, po := MixCorrelates(o, a, s, b, p, o);
    PartsFollow(a, b, sx, px, so, po);
  }

  lemma GainIsPositive(c: real, ss: real, pp: real)
    requires IsGain(c, ss, pp) && pp >= 1.0
    ensures c > 0.0
  {
    assert c == 0.0 ==> c * c * AtLeastOne(ss) == 0.0;
  }

  lemma SquareGap(a: real, c: real)
    ensures c * c - a * a == (c - a) * (c + a)
  {
  }

  /** How the two attempts' surround weights compare, by how the first one missed. */
  lemma WeightsCompare(a: real, c: real, v: real, t: real, q: real)
    requires a >= 0.0 && c > 0.0 && q > 0.0 && v < t
    requires (c * c - a * a) * q == c * c * ((t - v) * (t + v))
    ensures t + v > 0.0 ==> a < c
    ensures t + v < 0.0 ==> a > c
  {
    var gap := c * c - a * a;
    var cc := PositiveProduct(c, c);
    SquareGap(a, c);
    if t + v > 0.0 {
      var p := PositiveProduct(t - v, t + v);
      var r := PositiveProduct(cc, p);
      if a >= c {
        var n := NonNegativeProduct(a - c, a + c);
        var m := NonNegativeProduct(-gap, q);
        assert false;
      }
    } else if t + v < 0.0 {
      var p := PositiveProduct(t - v, -(t + v));
      var r := PositiveProduct(cc, p);
      assert cc * ((t - v) * (t + v)) == -r;
      if a <= c {
        var n := NonNegativeProduct(c - a, c + a);
        var m := NonNegativeProduct(gap, q);
        assert false;
      }
    }
  }

  lemma ReachedGap(c: real, cc: real, w11: real, w10: real, w00: real, d: real, v: real)
    requires cc == c * c && cc * w11 == w00 && v == c * w10 && d == w11 * w00 - w10 * w10
    ensures cc * d == w00 * w00 - v * v
  {
    assert cc * (w11 * w00) == w00 * w00;
    assert cc * (w10 * w10) == v * v;
  }

  lemma WantedGap(aa: real, cc: real, denom: real, tau: real, w00: real, w: real, t: real)
    requires aa * denom == 1.0 - tau * tau && w == w00 * w00 && t == tau * w00
    ensures aa * (cc * (denom * w)) == cc * (w - t * t)
  {
    assert t * t == (tau * tau) * w;
    assert aa * (cc * (denom * w)) == cc * ((aa * denom) * w);
  }

  lemma GapsDiffer(aa: real, cc: real, q: real, w: real, v: real, t: real)
    requires q == w - v * v && cc * q - aa * q == cc * q - cc * (w - t * t)
    ensures (cc - aa) * q == cc * ((t - v) * (t + v))
  {
    assert (t - v) * (t + v) == t * t - v * v;
  }

  /** (c^2 - a^2) (w00^2 - v^2) = c^2 (t^2 - v^2), where v and t are the correlations that the first attempt reached and
      should have reached. */
  lemma GapProduct(a: real, c: real, w11: real, w10: real, w00: real, denom: real, tau: real, v: real, t: real, q: real)
    requires denom * (w00 * w00) == w11 * w00 - w10 * w10 && c * c * w11 == w00
    requires a * a * denom == 1.0 - tau * tau && v == c * w10 && t == tau * w00
    requires q == (c * c) * (denom * (w00 * w00))
    ensures q == w00 * w00 - v * v
    ensures (c * c - a * a) * q == c * c * ((t - v) * (t + v))
  {
    ReachedGap(c, c * c, w11, w10, w00, denom * (w00 * w00), v);
    WantedGap(a * a, c * c, denom, tau, w00, w00 * w00, t);
    GapsDiffer(a * a, c * c, q, w00 * w00, v, t);
  }

  lemma OrderedFactors(x: real, y: real, w: real)
    requires w >= 0.0 && x <= y
    ensures x * w <= y * w && y * -w <= x * -w
  {
    var p := NonNegativeProduct(y - x, w);
  }

  /** Where the first attempt missed the bound, the centre's weight in the second one is not negative. */
  lemma CentreWeight(a: real, c: real, w11: real, w10: real, w00: real, denom: real, tau: real)
    requires w00 >= 1.0 && denom > 0.0 && denom * (w00 * w00) == w11 * w00 - w10 * w10
    requires a >= 0.0 && c > 0.0 && c * c * w11 == w00 && -1.0 <= tau
    requires a * a * denom == 1.0 - tau * tau && c * w10 < tau * w00
    ensures a * w10 <= tau * w00 && tau > -1.0
  {
    var v, t := c * w10, tau * w00;
    var w := PositiveProduct(w00, w00);
    var dw := PositiveProduct(denom, w);
    var cc := PositiveProduct(c, c);
    var q := PositiveProduct(cc, dw);
    GapProduct(a, c, w11, w10, w00, denom, tau, v, t, q);
    WeightsCompare(a, c, v, t, q);
    if tau == -1.0 {
      var p := PositiveProduct(-v - w00, -v + w00);
      assert false;
    }
    if w10 > 0.0 {
      var p := PositiveProduct(c, w10);
      OrderedFactors(a, c, w10);
    } else if tau >= 0.0 {
      var p := NonNegativeProduct(a, -w10);
      var r := NonNegativeProduct(tau, w00);
    } else {
      var r := PositiveProduct(-tau, w00);
      OrderedFactors(c, a, -w10);
    }
  }

  lemma ScaledMeasures(s: seq<real>, p: seq<real>, c: real)
    requires |s| == |p|
    ensures var o := Mix(c, s, 0.0, p);
            Energy(o) == c * c * Energy(s) && Dot(o, p, |s|) == c * Dot(s, p, |s|)
  {
    hide Dot, Mix, IsMix;
    var o := Mix(c, s, 0.0, p);
    MixIsMix(c, s, 0.0, p);
    EnergyOfMix(o, c, s, 0.0, p, |s|);
    DotOfMix(o, c, s, 0.0, p, p, |s|);
    ScaledParts(c, Energy(s), Dot(s, p, |s|), Energy(p));
  }

  lemma ScaledParts(c: real, ss: real, sp: real, pp: real)
    ensures MixEnergy(c, 0.0, ss, sp, pp) == c * c * ss && c * sp + 0.0 * pp == c * sp
  {
  }

  /** The first attempt misses the bound exactly if it correlates too little with the centre. */
  lemma FirstMisses(s: seq<real>, p: seq<real>, c: real, alpha0: real)
    requires |s| == |p| && Energy(s) >= 1.0 && IsGain(c, Energy(s), Energy(p))
    ensures FirstSuffices(s, p, alpha0, c) <==> c * Dot(s, p, |s|) >= (1.0 - alpha0 / 2.0) * Energy(p)
  {
    hide Dot, Energy, Mix, SquaredError;
    var o := Mix(c, s, 0.0, p);
    ScaledMeasures(s, p, c);
    ErrorIs(o, p);
    MissCore(Energy(p), c * Dot(s, p, |s|), alpha0, SquaredError(o, p));
  }

  lemma MissCore(pp: real, csp: real, alpha0: real, err: real)
    requires err == pp + pp - 2.0 * csp
    ensures err <= alpha0 * pp <==> csp >= (1.0 - alpha0 / 2.0) * pp
  {
  }

  lemma NonNegativeWeights(a: real, b: real, c: real, alpha0: real, ss: real, sp: real, pp: real)
    requires 0.0 <= alpha0 <= 4.0 && ss >= 1.0 && pp >= 1.0 && IsGain(c, ss, pp) && AreWeights(a, b, alpha0, ss, sp, pp)
    requires Denominator(ss, sp, pp) > 0.0001 && c * sp < (1.0 - alpha0 / 2.0) * pp
    ensures b >= 0.0 && (alpha0 > 0.0 ==> a > 0.0)
  {
    var tau, denom := 1.0 - alpha0 / 2.0, Denominator(ss, sp, pp);
    GainIsPositive(c, ss, pp);
    assert alpha0 - alpha0 * alpha0 / 4.0 == 1.0 - tau * tau;
    CentreWeight(a, c, ss, sp, pp, denom, tau);
    if b < 0.0 {
      var p := PositiveProduct(-b, pp);
      assert false;
    }
    if alpha0 > 0.0 {
      var p := PositiveProduct(1.0 - tau, 1.0 + tau);
      assert a == 0.0 ==> a * a * denom == 0.0;
    }
  }

  /** Blocks within the bound correlate with the centre at least as well as one that exhausts it. */
  lemma WithinBound(o: seq<real>, x: seq<real>, p: seq<real>, alpha0: real)
    requires |o| == |p| && Energy(o) == Energy(p) && SquaredError(o, p) == alpha0 * Energy(p)
             && Admissible(x, p, alpha0)
    ensures Dot(p, x, |o|) >= Dot(p, o, |o|)
  {
    ErrorIs(o, p);
    ErrorIs(x, p);
    DotSymmetric(p, x, |o|);
    DotSymmetric(p, o, |o|);
  }

  lemma SecondIsBest(s: seq<real>, p: seq<real>, alpha0: real, c: real, a: real, b: real, x: seq<real>)
    requires |s| == |p| && 0.0 < alpha0 <= 4.0 && Energy(s) >= 1.0 && Energy(p) >= 1.0
    requires IsGain(c, Energy(s), Energy(p)) && !FirstSuffices(s, p, alpha0, c)
    requires Denominator(Energy(s), Dot(s, p, |s|), Energy(p)) > 0.0001
    requires AreWeights(a, b, alpha0, Energy(s), Dot(s, p, |s|), Energy(p)) && Admissible(x, p, alpha0)
    ensures Dot(s, x, |s|) <= Dot(s, Mix(a, s, b, p), |s|)
  {
    var ss, sp, pp, o := Energy(s), Dot(s, p, |s|), Energy(p), Mix(a, s, b, p);
    FirstMisses(s, p, c, alpha0);
    NonNegativeWeights(a, b, c, alpha0, ss, sp, pp);
    MixMeasures(s, p, a, b, b - 1.0);
    WeightsExhaust(a, b, alpha0, ss, sp, pp);
    hide Dot, Energy, SquaredError, AreWeights, Denominator, MixEnergy, FirstSuffices, IsGain;
    MixIsMix(a, s, b, p);
    WithinBound(o, x, p, alpha0);
    MixIsBest(o, a, s, b, p, x);
  }

  lemma WeightsExhaust(a: real, b: real, alpha0: real, ss: real, sp: real, pp: real)
    requires pp >= 1.0 && AreWeights(a, b, alpha0, ss, sp, pp) && Denominator(ss, sp, pp) > 0.0001
    ensures MixEnergy(a, b - 1.0, ss, sp, pp) == alpha0 * pp && MixEnergy(a, b, ss, sp, pp) == pp
  {
    var denom, y, e := Denominator(ss, sp, pp), 1.0 - alpha0 / 2.0 - b, b - 1.0;
    hide MixEnergy, Denominator;
    ClampedError(a, b, e, y, alpha0, ss, sp, pp, denom);
    UnclampedEnergy(a, b, e, y, alpha0, ss, sp, pp, denom);
  }

  lemma FirstIsBest(s: seq<real>, p: seq<real>, c: real, x: seq<real>)
    requires |x| == |s| == |p| && c > 0.0 && Energy(x) == Energy(Mix(c, s, 0.0, p))
    ensures Dot(s, x, |s|) <= Dot(s, Mix(c, s, 0.0, p), |s|)
  {
    hide Dot, Energy, Mix, IsMix;
    MixIsMix(c, s, 0.0, p);
    MixIsBest(Mix(c, s, 0.0, p), c, s, 0.0, p, x);
  }

  lemma StaysAdmissible(o: seq<real>, s: seq<real>, p: seq<real>, alpha0: real, c: real)
    requires |o| == |s| == |p| && 0.0 <= alpha0 && Energy(s) >= 1.0 && Energy(p) >= 1.0
    requires IsGain(c, Energy(s), Energy(p)) && SmoothedBy(o, s, p, alpha0, c)
    ensures Admissible(o, p, alpha0)
  {
    hide SmoothedBy, IsGain, Energy, SquaredError, FirstSuffices;
    StaysClose(o, s, p, alpha0, c);
    assert AtLeastOne(Energy(p)) == Energy(p);
  }

  /** Section 4.6.4 of RFC 3951: with no energy clamped and the surround no near multiple of the centre, no block of the
      centre's energy within the error bound correlates better with the surround than the smoothed one. */
  lemma NothingCorrelatesBetter(o: seq<real>, s: seq<real>, p: seq<real>, alpha0: real, c: real, x: seq<real>)
    requires |o| == |s| == |p| && 0.0 <= alpha0 <= 4.0 && Energy(s) >= 1.0 && Energy(p) >= 1.0
    requires IsGain(c, Energy(s), Energy(p)) && SmoothedBy(o, s, p, alpha0, c)
    requires FirstSuffices(s, p, alpha0, c) || Denominator(Energy(s), Dot(s, p, |s|), Energy(p)) > 0.0001
    requires Admissible(x, p, alpha0)
    ensures Admissible(o, p, alpha0) && Dot(s, x, |s|) <= Dot(s, o, |s|)
  {
    hide Dot, Energy, SquaredError, FirstSuffices, IsGain, Denominator, AreWeights;
    StaysAdmissible(o, s, p, alpha0, c);
    if FirstSuffices(s, p, alpha0, c) {
      GainIsPositive(c, Energy(s), Energy(p));
      FirstIsBest(s, p, c, x);
    } else if alpha0 == 0.0 {
      NoErrorIsSame(o, p);
      NoErrorIsSame(x, p);
    } else {
      var a, b :| AreWeights(a, b, alpha0, Energy(s), Dot(s, p, |s|), Energy(p)) && o == Mix(a, s, b, p);
      SecondIsBest(s, p, alpha0, c, a, b, x);
    }
  }
}
