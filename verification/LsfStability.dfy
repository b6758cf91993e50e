/** The stability pass over dequantised line spectral frequencies. */
module LsfStability {

  const EPS: real := 0.039
  const EPS2: real := 0.0195
  const MAX_LSF: real := 3.14
  const MIN_LSF: real := 0.01

  function Clamp(x: real): real {
    if x < MIN_LSF then MIN_LSF else if x > MAX_LSF then MAX_LSF else x
  }

  /** One visit: push a pair that is too close apart, then clamp its lower member. */
  function Visit(v: seq<real>, k: nat): (w: seq<real>)
    requires k + 1 < |v|
    ensures |w| == |v|
  {
    var x, y := v[k], v[k + 1];
    if y - x < EPS then
      if y < x then v[k := Clamp(x + EPS2 - EPS2)][k + 1 := x + EPS2]
      else v[k := Clamp(x - EPS2)][k + 1 := y + EPS2]
    else v[k := Clamp(x)]
  }

  /** The visits from index k to the end of the vector. */
  function Pass(v: seq<real>, k: nat): (w: seq<real>)
    requires k < |v|
    ensures |w| == |v|
    decreases |v| - k
  {
    if k + 1 == |v| then v else Pass(Visit(v, k), k + 1)
  }

  function TwoPasses(v: seq<real>): (w: seq<real>)
    requires v != []
    ensures |w| == |v|
  {
    Pass(Pass(v, 0), 0)
  }

  /** Well spaced and in range already: nothing for the pass to do. */
  predicate Spaced(v: seq<real>) {
    forall i | 0 <= i < |v| - 1 :: Quiet(v, i)
  }

  predicate Quiet(v: seq<real>, i: nat)
    requires i + 1 < |v|
  {
    v[i + 1] - v[i] >= EPS && MIN_LSF <= v[i] <= MAX_LSF
  }

  predicate InRange(v: seq<real>, n: nat)
    requires n <= |v|
  {
    forall i | 0 <= i < n :: MIN_LSF <= v[i] <= MAX_LSF
  }

  predicate NonDecreasing(v: seq<real>, n: nat)
    requires n <= |v|
  {
    forall i, j | 0 <= i <= j < n :: v[i] <= v[j]
  }

  /** What holds when a pass reaches index k: the part behind is settled, and the entry ahead either clears it
      by EPS2 or stands behind an entry that was raised to the lower limit. */
  predicate Settled(v: seq<real>, k: nat)
    requires k < |v|
  {
    && InRange(v, k)
    && NonDecreasing(v, k)
    && (k > 0 ==> v[k] >= v[k - 1] + EPS2 || v[k - 1] == MIN_LSF)
  }

  lemma {:induction false} PassSettles(v: seq<real>, k: nat)
    requires k < |v| && Settled(v, k)
    ensures Settled(Pass(v, k), |v| - 1)
    decreases |v| - k
  {
    if k + 1 < |v| {
      PassSettles(Visit(v, k), k + 1);
    }
  }

  /** As Settled, when the entries not yet visited were in range to start with. */
  predicate Separated(v: seq<real>, k: nat)
    requires k < |v|
  {
    && (forall i | 0 <= i < |v| - 1 :: v[i] >= MIN_LSF)
    && (k + 1 == |v| > 1 ==> v[k] >= v[k - 1] + EPS2)
  }

  lemma {:induction false} SecondPassSeparates(v: seq<real>, k: nat)
    requires k < |v| && Separated(v, k)
    ensures Separated(Pass(v, k), |v| - 1)
    decreases |v| - k
  {
    if k + 1 < |v| {
      SecondPassSeparates(Visit(v, k), k + 1);
    }
  }

  /** What the decoder may rely on: everything but the last entry lies in [0.01, 3.14], the vector never
      decreases, and the last entry clears the one before it by at least 0.0195. */
  predicate Stable(v: seq<real>) {
    && v != []
    && InRange(v, |v| - 1)
    && NonDecreasing(v, |v|)
    && (|v| > 1 ==> v[|v| - 1] >= v[|v| - 2] + EPS2)
  }

  lemma TwoPassesStabilise(v: seq<real>)
    requires v != []
    ensures Stable(TwoPasses(v))
  {
    var once := Pass(v, 0);
    PassSettles(v, 0);
    PassSettles(once, 0);
    if |v| > 1 {
      SecondPassSeparates(once, 0);
    }
  }

  /** Whether any visit of a pass from k finds something to repair. */
  predicate Repairs(v: seq<real>, k: nat)
    requires k < |v|
    decreases |v| - k
  {
    k + 1 < |v| && (!Quiet(v, k) || Repairs(Visit(v, k), k + 1))
  }

  lemma {:induction false} RepairsUnlessSpaced(v: seq<real>, k: nat)
    requires k < |v|
    ensures !Repairs(v, k) <==> forall i | k <= i < |v| - 1 :: Quiet(v, i)
    ensures !Repairs(v, k) ==> Pass(v, k) == v
    decreases |v| - k
  {
    if k + 1 < |v| && Quiet(v, k) {
      assert Visit(v, k) == v;
      RepairsUnlessSpaced(v, k + 1);
    }
  }

  /** The loop body: one visit of a pair, in place. */
  method VisitInPlace(lsf: array<real>, base: nat, k: nat, dim: nat) returns (change: bool)
    requires k + 1 < dim && base + dim <= lsf.Length
    modifies lsf
    ensures lsf[base..base + dim] == Visit(old(lsf[base..base + dim]), k)
    ensures forall i | 0 <= i < lsf.Length && !(base <= i < base + dim) :: lsf[i] == old(lsf[i])
    ensures change <==> !Quiet(old(lsf[base..base + dim]), k)
  {
    change := false;
    var pos := base + k;
    if lsf[pos + 1] - lsf[pos] < EPS {
      if lsf[pos + 1] < lsf[pos] {
        lsf[pos + 1] := lsf[pos] + EPS2;
        lsf[pos] := lsf[pos + 1] - EPS2;
      } else {
        lsf[pos] := lsf[pos] - EPS2;
        lsf[pos + 1] := lsf[pos + 1] + EPS2;
      }
      change := true;
    }
    if lsf[pos] < MIN_LSF {
      lsf[pos] := MIN_LSF;
      change := true;
    }
    if lsf[pos] > MAX_LSF {
      lsf[pos] := MAX_LSF;
      change := true;
    }
  }

  /** One pass over the vector that starts at base. */
  method PassInPlace(lsf: array<real>, base: nat, dim: nat) returns (change: bool)
    requires 0 < dim && base + dim <= lsf.Length
    modifies lsf
    ensures lsf[base..base + dim] == Pass(old(lsf[base..base + dim]), 0)
    ensures forall i | 0 <= i < lsf.Length && !(base <= i < base + dim) :: lsf[i] == old(lsf[i])
    ensures change <==> Repairs(old(lsf[base..base + dim]), 0)
  {
    change := false;
    ghost var v := lsf[base..base + dim];
    for k := 0 to dim - 1
      invariant Pass(lsf[base..base + dim], k) == Pass(v, 0)
      invariant change || Repairs(lsf[base..base + dim], k) <==> Repairs(v, 0)
      invariant forall i | 0 <= i < lsf.Length && !(base <= i < base + dim) :: lsf[i] == old(lsf[i])
    {
      var c := VisitInPlace(lsf, base, k, dim);
      change := change || c;
    }
  }

  /** The m-th vector of ten frequencies. */
  function Vector(s: seq<real>, m: nat): (v: seq<real>)
    requires 10 * m + 10 <= |s|
    ensures |v| == 10
  {
    s[10 * m..10 * m + 10]
  }

  predicate AnyRepairs(s: seq<real>, analyses: nat)
    requires 10 * analyses <= |s|
  {
    exists m: nat | m < analyses :: Repairs(Vector(s, m), 0)
  }

  lemma VectorsAgree(s: seq<real>, t: seq<real>, m: nat)
    requires |s| == |t| && 10 * m + 10 <= |s|
    requires forall i | 10 * m <= i < 10 * m + 10 :: s[i] == t[i]
    ensures Vector(s, m) == Vector(t, m)
  {
  }

  /** One pass over each of the analyses' vectors. */
  method PassOverAll(lsf: array<real>, analyses: nat) returns (change: bool)
    requires 10 * analyses <= lsf.Length
    modifies lsf
    ensures forall m: nat | m < analyses :: Vector(lsf[..], m) == Pass(Vector(old(lsf[..]), m), 0)
    ensures forall i | 10 * analyses <= i < lsf.Length :: lsf[i] == old(lsf[i])
    ensures change <==> AnyRepairs(old(lsf[..]), analyses)
  {
    change := false;
    ghost var s := lsf[..];
    for m := 0 to analyses
      invariant forall i | 10 * m <= i < lsf.Length :: lsf[i] == s[i]
      invariant forall i: nat | i < m :: Vector(lsf[..], i) == Pass(Vector(s, i), 0)
      invariant change <==> AnyRepairs(s, m)
    {
      ghost var before := lsf[..];
      VectorsAgree(before, s, m);
      var c := PassInPlace(lsf, 10 * m, 10);
      change := change || c;
      ghost var after := lsf[..];
      assert Vector(after, m) == Pass(Vector(s, m), 0);
      forall i: nat | i < m + 1
        ensures Vector(after, i) == Pass(Vector(s, i), 0)
      {
        if i < m {
          VectorsAgree(after, before, i);
        }
      }
    }
  }

  /** checkLSF: two passes over every vector leave each one stable, whatever the input, and report a change
      exactly when some vector was not well spaced to begin with. */
  method CheckLsf(lsf: array<real>, analyses: nat) returns (change: bool)
    requires 10 * analyses <= lsf.Length
    modifies lsf
    ensures forall m: nat | m < analyses ::
              Vector(lsf[..], m) == TwoPasses(Vector(old(lsf[..]), m)) && Stable(Vector(lsf[..], m))
    ensures forall i | 10 * analyses <= i < lsf.Length :: lsf[i] == old(lsf[i])
    ensures !change <==> forall m: nat | m < analyses :: Spaced(Vector(old(lsf[..]), m))
  {
    hide Stable;
    ghost var s := lsf[..];
    var first := PassOverAll(lsf, analyses);
    ghost var once := lsf[..];
    var second := PassOverAll(lsf, analyses);
    change := first || second;
    forall m: nat | m < analyses
      ensures Vector(lsf[..], m) == TwoPasses(Vector(s, m)) && Stable(Vector(lsf[..], m))
      ensures Repairs(Vector(s, m), 0) <==> !Spaced(Vector(s, m))
      ensures Repairs(Vector(once, m), 0) ==> !Spaced(Vector(s, m))
    {
      TwoPassesStabilise(Vector(s, m));
      RepairsUnlessSpaced(Vector(s, m), 0);
    }
  }
}
