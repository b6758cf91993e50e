/** The normalised cross-correlation and the searches for the lag that
    maximises it. */
module PitchSearch {
  import opened RealArithmetic
  import opened Vectors
  import opened Nearest

  /** xCorrCoef: the squared correlation over the regressor's energy, for positive correlations. */
  function XCorr(target: seq<real>, regressor: seq<real>): real
    requires |target| == |regressor|
  {
    var c := Dot(target, regressor, |target|);
    if c > 0.0 then Quotient(c * c, Energy(regressor)) else 0.0
  }

  /** A positive correlation needs a regressor with energy, so the quotient is a real one. */
  lemma {:induction false} CorrelationNeedsEnergy(t: seq<real>, r: seq<real>, n: nat)
    requires n <= |t| && n <= |r| && Dot(r, r, n) == 0.0
    ensures Dot(t, r, n) == 0.0
  {
    if n > 0 {
      EnergyNonNegative(r, n - 1);
      var s := NonNegativeSquare(r[n - 1]);
      assert Dot(r, r, n) == Dot(r, r, n - 1) + s;
      if r[n - 1] != 0.0 {
        var p := PositiveSquare(r[n - 1]);
        assert false;
      }
      CorrelationNeedsEnergy(t, r, n - 1);
      assert t[n - 1] * r[n - 1] == 0.0;
    }
  }

  method XCorrCoef(target: seq<real>, regressor: seq<real>) returns (cc: real)
    requires |target| == |regressor|
    ensures cc == XCorr(target, regressor)
  {
    var ftmp1 := DotProduct(target, regressor);
    var ftmp2 := DotProduct(regressor, regressor);
    if ftmp1 > 0.0 {
      if ftmp2 == 0.0 {
        CorrelationNeedsEnergy(target, regressor, |target|);
        assert false;
      }
      cc := ftmp1 * ftmp1 / ftmp2;
    } else {
      cc := 0.0;
    }
  }

  /** The correlation of len samples at a position with those `lag` samples before. */
  function BackAt(s: seq<real>, at: nat, len: nat, lag: nat): real
    requires at + len <= |s| && lag <= at
  {
    XCorr(s[at..at + len], s[at - lag..at - lag + len])
  }

  /** The correlation of the first len samples with those `lag` samples later. */
  function ForwardAt(s: seq<real>, len: nat, lag: nat): real
    requires lag + len <= |s|
  {
    XCorr(s[..len], s[lag..lag + len])
  }

  function BackCorrelations(s: seq<real>, at: nat, len: nat, hi: nat): (ms: seq<real>)
    requires at + len <= |s| && hi <= at + 1
    ensures |ms| == hi
  {
    seq(hi, lag requires 0 <= lag < hi => BackAt(s, at, len, lag))
  }

  function ForwardCorrelations(s: seq<real>, len: nat, hi: nat): (ms: seq<real>)
    requires hi + len <= |s| + 1
    ensures |ms| == hi
  {
    seq(hi, lag requires 0 <= lag < hi => ForwardAt(s, len, lag))
  }

  /** The search over lags into the past. */
  method BestBackLag(s: seq<real>, at: nat, len: nat, lo: nat, hi: nat) returns (lag: nat)
    requires at + len <= |s| && lo < hi <= at + 1
    ensures IsGreatest(BackCorrelations(s, at, len, hi), lo, hi, lag)
  {
    hide XCorr;
    ghost var ms := BackCorrelations(s, at, len, hi);
    lag := lo;
    var maxcc := XCorrCoef(s[at..at + len], s[at - lo..at - lo + len]);
    for ilag := lo + 1 to hi
      invariant lo <= lag < ilag && maxcc == ms[lag]
      invariant forall l | lo <= l < ilag :: ms[l] <= maxcc
      invariant forall l | lo <= l < lag :: ms[l] < maxcc
    {
      var cc := XCorrCoef(s[at..at + len], s[at - ilag..at - ilag + len]);
      assert cc == ms[ilag];
      if cc > maxcc {
        lag, maxcc := ilag, cc;
      }
    }
  }

  /** The search over lags into the future. */
  method BestForwardLag(s: seq<real>, len: nat, lo: nat, hi: nat) returns (lag: nat)
    requires lo < hi && hi + len <= |s| + 1
    ensures IsGreatest(ForwardCorrelations(s, len, hi), lo, hi, lag)
  {
    hide XCorr;
    ghost var ms := ForwardCorrelations(s, len, hi);
    lag := lo;
    var maxcc := XCorrCoef(s[..len], s[lo..lo + len]);
    for ilag := lo + 1 to hi
      invariant lo <= lag < ilag && maxcc == ms[lag]
      invariant forall l | lo <= l < ilag :: ms[l] <= maxcc
      invariant forall l | lo <= l < lag :: ms[l] < maxcc
    {
      var cc := XCorrCoef(s[..len], s[ilag..ilag + len]);
      assert cc == ms[ilag];
      if cc > maxcc {
        lag, maxcc := ilag, cc;
      }
    }
  }
}
