/** What the correlation measures promise for signals that repeat: no lag scores more than an exact repetition, and such
    a signal counts as fully voiced. */
module Repetition {
  import opened Basics
  import opened RealArithmetic
  import opened Vectors
  import PS = PitchSearch
  import opened Nearest
  import opened FrameFormat
  import LC = LossConcealment
  import S = Smoothing
  import E = Enhancer
  import EI = EnhancerInterface

  lemma CoreInequality(uu: real, uv: real, vv: real)
    requires vv > 0.0 && S.MixEnergy(vv, -uv, uu, uv, vv) >= 0.0
    ensures uv * uv <= uu * vv
  {
    var gap := vv * uu - uv * uv;
    assert S.MixEnergy(vv, -uv, uu, uv, vv) == vv * gap;
    if gap < 0.0 {
      var p := PositiveProduct(vv, -gap);
    }
  }

  /** The Cauchy-Schwarz inequality. */
  lemma CauchySchwarz(u: seq<real>, v: seq<real>)
    requires |u| == |v|
    ensures Dot(u, v, |u|) * Dot(u, v, |u|) <= Energy(u) * Energy(v)
  {
    var uu, uv, vv := Energy(u), Dot(u, v, |u|), Energy(v);
    EnergyNonNegative(u, |u|);
    EnergyNonNegative(v, |v|);
    if vv == 0.0 {
      PS.CorrelationNeedsEnergy(u, v, |u|);
    } else {
      var m := S.Mix(vv, u, -uv, v);
      S.MixIsMix(vv, u, -uv, v);
      S.EnergyOfMix(m, vv, u, -uv, v, |u|);
      EnergyNonNegative(m, |m|);
      CoreInequality(uu, uv, vv);
    }
  }

  lemma QuotientAtMost(x: real, y: real, z: real)
    requires y > 0.0 && x <= z * y
    ensures x / y <= z
  {
    var q := x / y;
    if q > z {
      var p := PositiveProduct(q - z, y);
    }
  }

  /** No regressor scores more than the target's own energy, and a repetition of the target scores that. */
  lemma RepetitionScoresMost(t: seq<real>, r: seq<real>)
    requires |t| == |r|
    ensures PS.XCorr(t, r) <= Energy(t)
    ensures PS.XCorr(t, t) == Energy(t)
  {
    EnergyNonNegative(t, |t|);
    EnergyNonNegative(r, |r|);
    CauchySchwarz(t, r);
    var c := Dot(t, r, |t|);
    if c > 0.0 {
      if Energy(r) == 0.0 {
        PS.CorrelationNeedsEnergy(t, r, |t|);
        assert false;
      }
      QuotientAtMost(c * c, Energy(r), Energy(t));
    }
    if Energy(t) > 0.0 {
      assert Energy(t) * Energy(t) / Energy(t) == Energy(t);
    }
  }

  /** The search over lags finds an exact repetition, or an earlier lag that scores as much. */
  lemma RepetitionIsFound(s: seq<real>, at: nat, len: nat, lo: nat, hi: nat, period: nat, lag: nat)
    requires at + len <= |s| && lo <= period < hi <= at + 1
    requires s[at - period..at - period + len] == s[at..at + len]
    requires IsGreatest(PS.BackCorrelations(s, at, len, hi), lo, hi, lag)
    ensures lag <= period && PS.BackAt(s, at, len, lag) == Energy(s[at..at + len])
  {
    var ms, t := PS.BackCorrelations(s, at, len, hi), s[at..at + len];
    RepetitionScoresMost(t, s[at - period..at - period + len]);
    RepetitionScoresMost(t, s[at - lag..at - lag + len]);
    assert ms[period] == Energy(t) && ms[lag] == PS.BackAt(s, at, len, lag);
  }

  // ---- Voicing ----

  lemma SquaresOrder(x: real, y: real)
    requires x >= 0.0 && y >= 0.0 && x * x <= y * y
    ensures x <= y
  {
    if x > y {
      var p := PositiveProduct(x - y, x + y);
    }
  }

  lemma RootsProduct(a: real, b: real, d: real, e: real)
    requires a * a == d && b * b == e
    ensures (a * b) * (a * b) == d * e
  {
  }

  lemma AbsSquared(c: real)
    ensures Abs(c) * Abs(c) == c * c && Abs(c) >= 0.0
  {
  }

  lemma OwnQuotient(x: real, y: real)
    requires 0.0 <= x <= y
    ensures Quotient(x, y) <= 1.0 && (x == y && y > 0.0 ==> Quotient(x, y) == 1.0)
  {
    if y > 0.0 {
      QuotientAtMost(x, y, 1.0);
    }
  }

  /** The degree of voicing never exceeds one, and is one where the correlation is as large as it can be. */
  lemma VoicingAtMostOne(u: LC.Sums, sqrt: real -> real)
    requires S.IsSqrt(sqrt) && u.delayed >= 0.0 && u.direct >= 0.0 && u.cross * u.cross <= u.delayed * u.direct
    ensures LC.Periodicity(u, sqrt) <= 1.0
    ensures u.cross * u.cross == u.delayed * u.direct && u.delayed > 0.0 && u.direct > 0.0 ==>
              LC.Periodicity(u, sqrt) == 1.0
  {
    var a, b := sqrt(u.delayed), sqrt(u.direct);
    var p := NonNegativeProduct(a, b);
    RootsProduct(a, b, u.delayed, u.direct);
    AbsSquared(u.cross);
    SquaresOrder(Abs(u.cross), p);
    if u.cross * u.cross == u.delayed * u.direct {
      SquaresOrder(p, Abs(u.cross));
      if u.delayed > 0.0 && u.direct > 0.0 {
        var q := PositiveProduct(u.delayed, u.direct);
        assert p != 0.0;
      }
    }
    OwnQuotient(Abs(u.cross), p);
  }

  /** The sums of a frame obey the inequality, and an exact repetition reaches it. */
  lemma SumsObey(s: seq<real>, lag: nat)
    requires lag <= |s|
    ensures var u := LC.SumsAt(s, lag); var r := LC.Span(|s|, lag);
            && u.delayed >= 0.0 && u.direct >= 0.0 && u.cross * u.cross <= u.delayed * u.direct
            && (s[|s| - r..] == s[|s| - r - lag..|s| - lag] ==> u.cross == u.delayed == u.direct)
  {
    var n, r := |s|, LC.Span(|s|, lag);
    var a, b := s[n - r..], s[n - r - lag..n - lag];
    EnergyNonNegative(a, r);
    EnergyNonNegative(b, r);
    CauchySchwarz(a, b);
  }

  lemma MatchAtMost(u: LC.Sums)
    requires u.delayed >= 0.0 && u.direct >= 0.0 && u.cross * u.cross <= u.delayed * u.direct
    ensures LC.Match(u) <= u.direct
    ensures LC.Match(u) == u.direct && u.delayed > 0.0 ==> u.cross * u.cross == u.delayed * u.direct
    ensures u.cross == u.delayed == u.direct ==> LC.Match(u) == u.direct
  {
    if u.delayed > 0.0 {
      QuotientAtMost(u.cross * u.cross, u.delayed, u.direct);
      assert LC.Match(u) * u.delayed == u.cross * u.cross;
    }
  }

  lemma UnitRoot(sqrt: real -> real)
    requires S.IsSqrt(sqrt)
    ensures sqrt(1.0) == 1.0
  {
    var r := sqrt(1.0);
    SquaresOrder(r, 1.0);
    SquaresOrder(1.0, r);
  }

  /** The sums at a lag that is short enough for the full span. */
  lemma FullSpan(s: seq<real>, lag: nat)
    requires LC.CORRELATED + lag <= |s|
    ensures LC.SumsAt(s, lag).direct == Energy(s[|s| - LC.CORRELATED..])
  {
  }

  /** The first loss after a frame whose end repeats exactly at one of the seven lags in question: the chosen lag scores
      as much, the voicing is one, and so the concealed frame is pure repetition. */
  lemma RepeatingFrameIsVoiced(mode: Mode, s: LC.State, inlag: nat, period: nat, sqrt: real -> real)
    requires LC.ValidState(mode, s) && !s.lost && LC.LagFits(inlag) && S.IsSqrt(sqrt)
    requires inlag - 3 <= period <= inlag + 3 && LC.CORRELATED + inlag + 3 <= |s.residual|
    requires var n, r := |s.residual|, LC.CORRELATED;
             s.residual[n - r - period..n - period] == s.residual[n - r..] && Energy(s.residual[n - r..]) > 0.0
    ensures LC.LossLag(mode, s, inlag, LC.Actual(sqrt)) <= period
    ensures LC.LossPer(mode, s, inlag, LC.Actual(sqrt)) == 1.0 && LC.Actual(sqrt).root(1.0) > LC.VOICED
  {
    var m, x := LC.Actual(sqrt), s.residual;
    var ms, lag := LC.Matches(x, m), LC.LossLag(mode, s, inlag, m);
    assert LC.BestLag(ms, inlag, lag) && ms[period] <= ms[lag] && (period < lag ==> ms[period] < ms[lag]);
    assert ms[lag] == LC.Match(LC.SumsAt(x, lag)) && ms[period] == LC.Match(LC.SumsAt(x, period));
    assert LC.LossPer(mode, s, inlag, m) == LC.Periodicity(LC.SumsAt(x, lag), sqrt);
    hide LC.LossLag, LC.LossPer, LC.Matches, LC.Match, LC.BestLag, LC.SumsAt, LC.Periodicity;
    BestOfRepetition(x, lag, period, sqrt);
    UnitRoot(sqrt);
  }

  lemma BestOfRepetition(x: seq<real>, lag: nat, period: nat, sqrt: real -> real)
    requires LC.CORRELATED + lag <= |x| && LC.CORRELATED + period <= |x| && S.IsSqrt(sqrt)
    requires var n, r := |x|, LC.CORRELATED; x[n - r - period..n - period] == x[n - r..] && Energy(x[n - r..]) > 0.0
    requires LC.Match(LC.SumsAt(x, period)) <= LC.Match(LC.SumsAt(x, lag))
    ensures LC.Match(LC.SumsAt(x, period)) == LC.Match(LC.SumsAt(x, lag))
    ensures LC.Periodicity(LC.SumsAt(x, lag), sqrt) == 1.0
  {
    var u, v := LC.SumsAt(x, lag), LC.SumsAt(x, period);
    FullSpan(x, lag);
    FullSpan(x, period);
    SumsObey(x, lag);
    SumsObey(x, period);
    MatchAtMost(u);
    MatchAtMost(v);
    assert LC.Match(u) > 0.0 ==> u.delayed > 0.0;
    VoicingAtMostOne(u, sqrt);
  }

  // ---- Smoothing ----

  /** Segments that all equal p. */
  ghost predicate AllEqual(segments: seq<real>, p: seq<real>, hl: nat) {
    && |p| == BLOCK && |segments| == BLOCK * (2 * hl + 1)
    && forall q: nat, i: nat | q < 2 * hl + 1 && i < BLOCK :: EqualAt(segments, p, q, i)
  }

  predicate EqualAt(segments: seq<real>, p: seq<real>, q: nat, i: nat) {
    BLOCK * q + i < |segments| && i < |p| && segments[BLOCK * q + i] == p[i]
  }

  /** The weights of the segments around the centre. */
  function AroundWeight(wt: seq<real>, hl: nat, k: nat): real
    requires |wt| == 2 * hl + 1 && k <= |wt|
  {
    if k == 0 then 0.0 else AroundWeight(wt, hl, k - 1) + if k - 1 == hl then 0.0 else wt[k - 1]
  }

  lemma OneMoreWeight(w: real, x: real, v: real)
    ensures w * x + x * v == (w + v) * x
  {
  }

  lemma {:induction false} SurroundIsMultiple(segments: seq<real>, p: seq<real>, wt: seq<real>, hl: nat, i: nat, k: nat)
    requires AllEqual(segments, p, hl) && |wt| == 2 * hl + 1 && k <= |wt| && i < BLOCK
    ensures S.SurroundSample(segments, wt, hl, i, k) == AroundWeight(wt, hl, k) * p[i]
  {
    if k > 0 {
      SurroundIsMultiple(segments, p, wt, hl, i, k - 1);
      assert EqualAt(segments, p, k - 1, i);
      if k - 1 != hl {
        OneMoreWeight(AroundWeight(wt, hl, k - 1), p[i], wt[k - 1]);
      }
    }
  }

  lemma {:induction false} MultipleEnergy(s: seq<real>, p: seq<real>, w: real, n: nat)
    requires n <= |s| == |p| && forall i: nat | i < |s| :: s[i] == w * p[i]
    ensures Dot(s, s, n) == w * w * Dot(p, p, n)
  {
    if n > 0 {
      MultipleEnergy(s, p, w, n - 1);
      var x, e := p[n - 1], Dot(p, p, n - 1);
      assert (w * x) * (w * x) + w * w * e == w * w * (e + x * x);
    }
  }

  lemma UnitProduct(c: real, w: real, ss: real, pp: real)
    requires c >= 0.0 && w > 0.0 && pp > 0.0 && c * c * ss == pp && ss == w * w * pp
    ensures c * w == 1.0
  {
    var q := NonNegativeProduct(c, w);
    assert c * c * (w * w * pp) == q * q * pp;
    assert (q * q - 1.0) * pp == 0.0;
    ZeroProduct(q * q - 1.0, pp);
    SquaresOrder(q, 1.0);
    SquaresOrder(1.0, q);
  }

  lemma MultipleOfMultiple(c: real, w: real, x: real, s: real)
    requires c * w == 1.0 && s == w * x
    ensures c * s + 0.0 * x == x
  {
    assert c * (w * x) == (c * w) * x;
  }

  /** A perfectly periodic signal, loud enough not to be clamped, passes the smoother unchanged. */
  lemma PeriodicPassesUnchanged(segments: seq<real>, p: seq<real>, wt: seq<real>, hl: nat, alpha0: real, o: seq<real>)
    requires AllEqual(segments, p, hl) && |wt| == 2 * hl + 1 && |o| == BLOCK && alpha0 >= 0.0
    requires AroundWeight(wt, hl, |wt|) > 0.0 && Energy(S.Surround(segments, wt, hl)) >= 1.0
    requires S.Smoothed(o, S.Surround(segments, wt, hl), p, alpha0)
    ensures o == p
  {
    var s, w := S.Surround(segments, wt, hl), AroundWeight(wt, hl, |wt|);
    forall i: nat | i < BLOCK
      ensures s[i] == w * p[i]
    {
      SurroundIsMultiple(segments, p, wt, hl, i, |wt|);
    }
    MultipleEnergy(s, p, w, BLOCK);
    EnergyNonNegative(p, BLOCK);
    MultiplePasses(s, p, w, alpha0, o);
  }

  lemma MultiplePasses(s: seq<real>, p: seq<real>, w: real, alpha0: real, o: seq<real>)
    requires |s| == |p| == |o| && w > 0.0 && alpha0 >= 0.0 && (forall i: nat | i < |s| :: s[i] == w * p[i])
    requires Energy(s) >= 1.0 && Energy(p) >= 0.0 && Energy(s) == w * w * Energy(p)
    requires S.Smoothed(o, s, p, alpha0)
    ensures o == p
  {
    var c :| S.IsGain(c, Energy(s), Energy(p)) && S.SmoothedBy(o, s, p, alpha0, c);
    assert Energy(p) > 0.0;
    UnitProduct(c, w, Energy(s), Energy(p));
    var m := S.Mix(c, s, 0.0, p);
    forall i: nat | i < |p|
      ensures m[i] == p[i]
    {
      MultipleOfMultiple(c, w, p[i], s[i]);
    }
    assert m == p;
    NoErrorToItself(p);
    var bound := NonNegativeProduct(alpha0, Energy(p));
    assert S.FirstSuffices(s, p, alpha0, c);
  }

  lemma NoErrorToItself(p: seq<real>)
    ensures S.SquaredError(p, p) == 0.0
  {
    S.ErrorIs(p, p);
  }

  // ---- The repair after a loss ----

  /** The prediction of a sample before the frame is the sample one lag later. */
  lemma PredictedIsLater(mode: Mode, moved: seq<real>, input: seq<real>, lag: nat, j: nat)
    requires |moved| == E.HISTORY && |input| == mode.FrameSamples() && 0 < lag <= |input| && j < EI.RepairLength(mode)
    requires moved[E.HISTORY - |input|..] == input
    ensures EI.Prediction(mode, moved, input, lag)[j] == moved[E.HISTORY - |input| - EI.RepairLength(mode) + j + lag]
  {
    var p, len := E.HISTORY - |input|, EI.RepairLength(mode);
    if lag + j >= len {
      assert moved[p..][lag + j - len] == moved[p + (lag + j - len)];
    }
  }

  /** In the fade the history's weight lies between zero and one and grows with the distance from the frame. */
  lemma HistoryGainsWeight(i: nat, j: nat, len: nat)
    requires i < j < len
    ensures 0.0 < EI.Keep(i, len) < EI.Keep(j, len) < 1.0
  {
    var d := (len + 1) as real;
    KeepIs(i, len);
    KeepIs(j, len);
    if EI.Keep(i, len) >= EI.Keep(j, len) {
      var p := NonNegativeProduct(EI.Keep(i, len) - EI.Keep(j, len), d);
    }
  }

  lemma KeepIs(i: nat, len: nat)
    requires i < len
    ensures EI.Keep(i, len) * (len + 1) as real == (i + 1) as real && 0.0 < EI.Keep(i, len) < 1.0
  {
    var k, d := EI.Keep(i, len), (len + 1) as real;
    assert k * d == (i + 1) as real;
    if k >= 1.0 {
      var p := NonNegativeProduct(k - 1.0, d);
    }
    if k <= 0.0 {
      var p := NonNegativeProduct(-k, d);
    }
  }

  lemma FadedToItself(x: real, w: real)
    ensures EI.Faded(x, x, w) == x
  {
  }

  /** The samples before the frame repeat one lag later. */
  predicate RepeatsInto(mode: Mode, moved: seq<real>, lag: nat)
    requires |moved| == E.HISTORY
  {
    forall x: nat | E.HISTORY - mode.FrameSamples() - EI.RepairLength(mode) <= x < E.HISTORY - mode.FrameSamples() ::
      RepeatsAt(moved, x, lag)
  }

  predicate RepeatsAt(moved: seq<real>, x: nat, lag: nat) {
    x + lag < |moved| && moved[x] == moved[x + lag]
  }

  lemma PredictionIsPast(mode: Mode, moved: seq<real>, input: seq<real>, lag: nat)
    requires |moved| == E.HISTORY && |input| == mode.FrameSamples() && 0 < lag <= |input|
    requires moved[E.HISTORY - |input|..] == input && RepeatsInto(mode, moved, lag)
    ensures EI.Prediction(mode, moved, input, lag) == EI.JustBefore(mode, moved)
  {
    var pred, past := EI.Prediction(mode, moved, input, lag), EI.JustBefore(mode, moved);
    var from := E.HISTORY - |input| - EI.RepairLength(mode);
    forall j: nat | j < EI.RepairLength(mode)
      ensures pred[j] == past[j]
    {
      PredictedIsLater(mode, moved, input, lag, j);
      assert RepeatsAt(moved, from + j, lag);
    }
  }

  lemma RepairedByPast(mode: Mode, moved: seq<real>)
    requires |moved| == E.HISTORY
    ensures EI.Repaired(moved, mode.FrameSamples(), EI.JustBefore(mode, moved)) == moved
  {
    var p, n := EI.JustBefore(mode, moved), mode.FrameSamples();
    var after := EI.Repaired(moved, n, p);
    hide EI.Keep, EI.Faded;
    forall x: nat | x < E.HISTORY
      ensures after[x] == moved[x]
    {
      var i := E.HISTORY - 1 - n - x;
      if 0 <= i < |p| {
        assert p[|p| - 1 - i] == moved[x];
        FadedToItself(moved[x], EI.Keep(i, |p|));
      }
    }
  }

  /** A history whose end repeats into the frame at the lag is not changed by the repair. */
  lemma RepairKeepsRepetition(mode: Mode, moved: seq<real>, after: seq<real>, input: seq<real>, lag: int,
                              sqrt: real -> real)
    requires |moved| == E.HISTORY && |input| == mode.FrameSamples() && S.IsSqrt(sqrt)
    requires moved[E.HISTORY - |input|..] == input && 0 < lag <= |input| && RepeatsInto(mode, moved, lag)
    requires EI.NewHistory(mode, moved, after, input, true, lag, sqrt)
    ensures after == moved
  {
    hide EI.Prediction, EI.JustBefore, EI.Levelled, EI.Repaired, RepeatsInto;
    PredictionIsPast(mode, moved, input, lag);
    LevelKept(sqrt, EI.JustBefore(mode, moved));
    RepairedByPast(mode, moved);
  }

  lemma LevelKept(sqrt: real -> real, p: seq<real>)
    requires S.IsSqrt(sqrt) && |p| > 0
    ensures EI.Levelled(sqrt, p, p) == p
  {
    EnergyNonNegative(p, |p|);
    var e, n := Energy(p), |p| as real;
    var q := Quotient(e, n);
    if q < 0.0 {
      var r := PositiveProduct(-q, n);
    }
    assert EI.Level(sqrt, p) >= 0.0;
  }
}
