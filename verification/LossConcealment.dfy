/** Packet loss concealment: the excitation of a lost frame is a mixture of
    pitch repetition and noise from the frame before, fading over a burst. */
module LossConcealment {
  import opened Basics
  import opened FrameFormat
  import opened Arithmetic
  import opened NoiseGenerator
  import opened RealArithmetic
  import opened Vectors

  // The single-precision values of 0.7, 0.4 and 0.29999998; the last is exactly the difference of the others.
  const VOICED: real := 11744051.0 / 16777216.0
  const UNVOICED: real := 13421773.0 / 33554432.0
  const VOICING_SPAN: real := 10066329.0 / 33554432.0

  const MOST_LOSSES: nat := 9
  const CORRELATED: nat := 60
  const SILENT: real := 30.0

  // ---- The pitch search ----

  /** How many samples are correlated at a lag. */
  function Span(n: nat, lag: nat): nat {
    if n < CORRELATED + lag then (if lag <= n then n - lag else 0) else CORRELATED
  }

  /** The correlation sums of the end of a frame with itself `lag` samples earlier. */
  datatype Sums = Sums(cross: real, delayed: real, direct: real)

  function SumsAt(s: seq<real>, lag: nat): Sums
    requires lag <= |s|
  {
    var n, r := |s|, Span(|s|, lag);
    var a, b := s[n - r..], s[n - r - lag..n - lag];
    Sums(Dot(a, b, r), Dot(b, b, r), Dot(a, a, r))
  }

  /** The measure that the lag is chosen by. */
  function Match(u: Sums): real {
    if u.delayed > 0.0 then u.cross * u.cross / u.delayed else 0.0
  }

  /** The degree of voicing. Where single-precision arithmetic divides zero by zero the result is a NaN, which later
      comparisons treat as unvoiced, like the zero that stands in for it here. */
  function Periodicity(u: Sums, sqrt: real -> real): real {
    if u.delayed > 0.0 then Quotient(Abs(u.cross), sqrt(u.delayed) * sqrt(u.direct)) else 0.0
  }

  /** A mixture too quiet to be speech. */
  predicate TooQuiet(energy: real, n: nat, sqrt: real -> real)
  {
    sqrt(Quotient(energy, n as real)) < SILENT
  }

  /** The measures that concealment decides by. The results about bursts hold for any. */
  datatype Measures = Measures(matching: Sums -> real, voicing: Sums -> real, root: real -> real,
                               quiet: (real, nat) -> bool)

  /** The measures in use, for a given square root. */
  function Actual(sqrt: real -> real): Measures {
    Measures((u: Sums) => Match(u), (u: Sums) => Periodicity(u, sqrt), sqrt,
             (energy: real, n: nat) => TooQuiet(energy, n, sqrt))
  }

  /** compCorr; its gain result is not used by the caller. */
  method CompCorr(buffer: seq<real>, lag: nat, sRange0: nat, sqrt: real -> real) returns (cc: real, pm: real)
    requires lag <= |buffer| && sRange0 == CORRELATED
    ensures cc == Match(SumsAt(buffer, lag)) && pm == Periodicity(SumsAt(buffer, lag), sqrt)
  {
    hide Dot;
    var bLen, sRange := |buffer|, sRange0;
    if bLen < sRange + lag {
      sRange := bLen - lag;
    }
    var a, b := buffer[bLen - sRange..], buffer[bLen - sRange - lag..bLen - lag];
    var ftmp1 := DotProduct(a, b);
    var ftmp2 := DotProduct(b, b);
    var ftmp3 := DotProduct(a, a);
    assert Sums(ftmp1, ftmp2, ftmp3) == SumsAt(buffer, lag);
    if ftmp2 > 0.0 {
      cc := ftmp1 * ftmp1 / ftmp2;
      pm := Quotient(Abs(ftmp1), sqrt(ftmp2) * sqrt(ftmp3));
    } else {
      cc, pm := 0.0, 0.0;
    }
  }

  /** Lags that a frame can be searched at. */
  predicate LagFits(inlag: nat) {
    20 <= inlag <= 119
  }

  const LAGS: nat := 123

  /** The measures of all lags in reach. */
  function Matches(s: seq<real>, m: Measures): (ms: seq<real>)
    requires |s| >= 160
    ensures |ms| == LAGS
  {
    seq(LAGS, l requires 0 <= l < LAGS => m.matching(SumsAt(s, l)))
  }

  function Periodicities(s: seq<real>, m: Measures): (ps: seq<real>)
    requires |s| >= 160
    ensures |ps| == LAGS
  {
    seq(LAGS, l requires 0 <= l < LAGS => m.voicing(SumsAt(s, l)))
  }

  /** Both results, lag by lag. */
  ghost predicate AreCorrelations(s: seq<real>, m: Measures, ms: seq<real>, ps: seq<real>)
    requires |s| >= 160
  {
    && |ms| == |ps| == LAGS
    && forall l: nat {:trigger SumsAt(s, l)} | l < LAGS ::
         ms[l] == m.matching(SumsAt(s, l)) && ps[l] == m.voicing(SumsAt(s, l))
  }

  /** The lag is the first of the best of the seven around a given one. */
  predicate BestLag(ms: seq<real>, inlag: nat, lag: nat)
    requires LagFits(inlag) && |ms| == LAGS
  {
    && inlag - 3 <= lag <= inlag + 3
    && (forall l | inlag - 3 <= l <= inlag + 3 :: ms[l] <= ms[lag])
    && (forall l | inlag - 3 <= l < lag :: ms[l] < ms[lag])
  }

  lemma BestLagIsUnique(ms: seq<real>, inlag: nat, a: nat, b: nat)
    requires LagFits(inlag) && |ms| == LAGS && BestLag(ms, inlag, a) && BestLag(ms, inlag, b)
    ensures a == b
  {
    assert ms[a] == ms[b];
  }

  /** The search around the given lag. */
  method SearchLag(s: seq<real>, inlag: nat, sqrt: real -> real) returns (lag: nat, maxPer: real)
    requires LagFits(inlag) && |s| >= 160
    ensures BestLag(Matches(s, Actual(sqrt)), inlag, lag) && maxPer == Periodicities(s, Actual(sqrt))[lag]
  {
    lag, maxPer := ScanLags(s, inlag, sqrt, Matches(s, Actual(sqrt)), Periodicities(s, Actual(sqrt)));
  }

  method Correlate(s: seq<real>, lag: nat, sqrt: real -> real, ghost ms: seq<real>, ghost ps: seq<real>)
    returns (cc: real, pm: real)
    requires |s| >= 160 && AreCorrelations(s, Actual(sqrt), ms, ps) && lag < LAGS
    ensures cc == ms[lag] && pm == ps[lag]
  {
    cc, pm := CompCorr(s, lag, CORRELATED, sqrt);
  }

  method ScanLags(s: seq<real>, inlag: nat, sqrt: real -> real, ghost ms: seq<real>, ghost ps: seq<real>)
    returns (lag: nat, maxPer: real)
    requires LagFits(inlag) && |s| >= 160 && AreCorrelations(s, Actual(sqrt), ms, ps)
    ensures BestLag(ms, inlag, lag) && maxPer == ps[lag]
  {
    var maxcc;
    lag := inlag - 3;
    maxcc, maxPer := Correlate(s, lag, sqrt, ms, ps);
    for i := inlag - 2 to inlag + 4
      invariant inlag - 3 <= lag < i
      invariant maxcc == ms[lag] && maxPer == ps[lag]
      invariant forall l | inlag - 3 <= l < i :: ms[l] <= maxcc
      invariant forall l | inlag - 3 <= l < lag :: ms[l] < maxcc
    {
      var maxccComp, per := Correlate(s, i, sqrt, ms, ps);
      if maxccComp > maxcc {
        maxcc, lag, maxPer := maxccComp, i, per;
      }
    }
  }

  // ---- Gains ----

  /** The gain of the count-th lost frame in a row. */
  function LossGain(mode: Mode, count: nat): (g: real)
    ensures 0.0 <= g <= 1.0
  {
    var samples := if mode.Mode20? then 160 * count else 240 * count;
    if samples > 1280 then 0.0 else if samples > 960 then 0.5 else if samples > 640 then 0.7
      else if samples > 320 then 0.9 else 1.0
  }

  /** The gain never rises within a burst. */
  lemma GainFalls(mode: Mode, a: nat, b: nat)
    requires a <= b
    ensures LossGain(mode, b) <= LossGain(mode, a)
  {
  }

  /** It is zero exactly from the 9th lost 20 ms frame, or the 6th lost 30 ms frame. */
  lemma SilentFrom(mode: Mode, count: nat)
    ensures LossGain(mode, count) == 0.0 <==> count >= (if mode.Mode20? then 9 else 6)
  {
  }

  /** How much of the mixture is pitch repetition. */
  function PitchFactor(root: real): (f: real)
    ensures 0.0 <= f <= 1.0
  {
    if root > VOICED then 1.0 else if root > UNVOICED then (root - UNVOICED) / VOICING_SPAN else 0.0
  }

  /** The further damping along the frame. */
  function Damping(i: nat): (d: real)
    ensures 0.0 < d <= 1.0
  {
    if i < 80 then 1.0 else if i < 160 then 0.95 else 0.9
  }

  function Level(i: nat, gain: real): real {
    Damping(i) * gain
  }

  /** The lag of the repetition. */
  function RepeatLag(lag: nat): nat {
    if lag < 80 then 2 * lag else lag
  }

  /** One or two pitch periods, and at least two subframes where two periods reach that far; along a frame the level
      only falls; and the blend goes from noise to repetition as the voicing rises through the thresholds. */
  lemma ShapeOfMixture(lag: nat, i: nat, j: nat, gain: real, x: real, y: real)
    requires i <= j && gain >= 0.0 && x <= y
    ensures (RepeatLag(lag) == lag || RepeatLag(lag) == 2 * lag) && (40 <= lag ==> RepeatLag(lag) >= 80)
            && (RepeatLag(lag) == 2 * lag ==> lag <= 80)
    ensures Level(j, gain) <= Level(i, gain)
    ensures PitchFactor(x) <= PitchFactor(y)
    ensures (PitchFactor(x) == 0.0 <==> x <= UNVOICED) && (PitchFactor(x) == 1.0 <==> x >= VOICED)
  {
    var p := NonNegativeProduct(Damping(i) - Damping(j), gain);
  }

  // ---- The concealed frame ----

  /** A scaled sample, or a scaled peak. */
  function Times(gain: real, x: real): real {
    gain * x
  }

  predicate AreLags(lags: seq<nat>, n: nat) {
    |lags| == n && forall i | 0 <= i < n :: 50 <= lags[i] <= 119
  }

  /** The noise lags of a frame. */
  function NoiseLags(seed: nat, n: nat): (lags: seq<nat>)
    ensures AreLags(lags, n)
  {
    seq(n, i requires 0 <= i < n => NoiseLag(Seeds(seed, i + 1)))
  }

  /** Noise sample i: a random earlier sample of the noise, or of the frame before. */
  function Noise(prev: seq<real>, lags: seq<nat>, i: nat): real
    requires |prev| >= 160 && AreLags(lags, |prev|) && i < |prev|
    decreases i
  {
    var randlag := lags[i];
    if i < randlag then prev[|prev| + i - randlag] else Noise(prev, lags, i - randlag)
  }

  function Blend(level: real, pitchfact: real, repeated: real, noise: real): real {
    level * (pitchfact * repeated + (1.0 - pitchfact) * noise)
  }

  /** Mixture sample i: repetition of the mixture itself, or of the frame before, blended with noise. */
  function Mixture(prev: seq<real>, lags: seq<nat>, lag: nat, gain: real, pitchfact: real, i: nat): real
    requires |prev| >= 160 && AreLags(lags, |prev|) && i < |prev| && 0 < RepeatLag(lag) <= |prev|
    decreases i
  {
    var useLag := RepeatLag(lag);
    var repeated := if i < useLag then prev[|prev| + i - useLag]
                    else Mixture(prev, lags, lag, gain, pitchfact, i - useLag);
    Blend(Level(i, gain), pitchfact, repeated, Noise(prev, lags, i))
  }

  function NoiseFrame(prev: seq<real>, lags: seq<nat>, gain: real): (s: seq<real>)
    requires |prev| >= 160 && AreLags(lags, |prev|)
    ensures |s| == |prev|
  {
    seq(|prev|, i requires 0 <= i < |prev| => Times(gain, Noise(prev, lags, i)))
  }

  function MixtureFrame(prev: seq<real>, lags: seq<nat>, lag: nat, gain: real, pitchfact: real): (s: seq<real>)
    requires |prev| >= 160 && AreLags(lags, |prev|) && 0 < RepeatLag(lag) <= |prev|
    ensures |s| == |prev|
  {
    seq(|prev|, i requires 0 <= i < |prev| => Mixture(prev, lags, lag, gain, pitchfact, i))
  }

  /** The concealed frame: the mixture, or only noise if the mixture is too quiet. */
  function ConcealedFrame(prev: seq<real>, lags: seq<nat>, lag: nat, gain: real, pitchfact: real,
                          measures: Measures): (s: seq<real>)
    requires |prev| >= 160 && AreLags(lags, |prev|) && 0 < RepeatLag(lag) <= |prev|
    ensures |s| == |prev|
  {
    var m := MixtureFrame(prev, lags, lag, gain, pitchfact);
    if measures.quiet(Energy(m), |prev|) then NoiseFrame(prev, lags, gain) else m
  }

  lemma IsMixtureFrame(s: seq<real>, prev: seq<real>, lags: seq<nat>, lag: nat, gain: real, pitchfact: real)
    requires |s| == |prev| >= 160 && AreLags(lags, |prev|) && 0 < RepeatLag(lag) <= |prev|
    requires forall i: nat | i < |prev| :: s[i] == Mixture(prev, lags, lag, gain, pitchfact, i)
    ensures s == MixtureFrame(prev, lags, lag, gain, pitchfact)
  {
  }

  lemma IsNoiseFrame(noise: seq<real>, prev: seq<real>, lags: seq<nat>, gain: real)
    requires |noise| == |prev| >= 160 && AreLags(lags, |prev|)
    requires forall i: nat | i < |prev| :: noise[i] == Noise(prev, lags, i)
    ensures seq(|noise|, i requires 0 <= i < |noise| => Times(gain, noise[i])) == NoiseFrame(prev, lags, gain)
  {
  }

  lemma ConcealedIs(prev: seq<real>, lags: seq<nat>, lag: nat, gain: real, pitchfact: real, measures: Measures,
                    m: seq<real>, energy: real)
    requires |prev| >= 160 && AreLags(lags, |prev|) && 0 < RepeatLag(lag) <= |prev|
    requires m == MixtureFrame(prev, lags, lag, gain, pitchfact) && energy == Energy(m)
    ensures ConcealedFrame(prev, lags, lag, gain, pitchfact, measures)
         == if measures.quiet(energy, |prev|) then NoiseFrame(prev, lags, gain) else m
  {
  }

  // ---- What is repeated and what is drawn ----

  /** Sample i of a frame is the damped sample one repeat lag before it, across the border to the frame before. */
  ghost predicate Repeats(w: seq<real>, prev: seq<real>, lag: nat, gain: real) {
    && |w| == |prev| && 0 < RepeatLag(lag) <= |prev|
    && forall i: nat {:trigger w[i]} | i < |w| :: w[i] == Times(Level(i, gain), (prev + w)[|prev| + i - RepeatLag(lag)])
  }

  /** Sample i of the noise is the one its own draw before it, across the border to the frame before. */
  ghost predicate Draws(noise: seq<real>, prev: seq<real>, lags: seq<nat>) {
    && |noise| == |prev| >= 160 && AreLags(lags, |prev|)
    && forall i: nat {:trigger noise[i]} | i < |noise| :: noise[i] == (prev + noise)[|prev| + i - lags[i]]
  }

  lemma {:induction false} OneRepetition(v: seq<real>, w: seq<real>, prev: seq<real>, lag: nat, gain: real, i: nat)
    requires Repeats(v, prev, lag, gain) && Repeats(w, prev, lag, gain) && i < |w|
    ensures v[i] == w[i]
    decreases i
  {
    hide Times, Level;
    var at := |prev| + i - RepeatLag(lag);
    if i >= RepeatLag(lag) {
      OneRepetition(v, w, prev, lag, gain, i - RepeatLag(lag));
    }
    assert (prev + v)[at] == (prev + w)[at];
  }

  lemma OnlyRepetition(level: real, repeated: real, noise: real)
    ensures Blend(level, 1.0, repeated, noise) == Times(level, repeated)
    ensures Blend(level, 0.0, repeated, noise) == Times(level, noise)
  {
  }

  /** A fully voiced frame repeats the pitch, whatever is drawn. */
  lemma VoicedRepeats(prev: seq<real>, lags: seq<nat>, lag: nat, gain: real)
    requires |prev| >= 160 && AreLags(lags, |prev|) && 0 < RepeatLag(lag) <= |prev|
    ensures Repeats(MixtureFrame(prev, lags, lag, gain, 1.0), prev, lag, gain)
  {
    var w, u := MixtureFrame(prev, lags, lag, gain, 1.0), RepeatLag(lag);
    forall i: nat | i < |w|
      ensures w[i] == Times(Level(i, gain), (prev + w)[|prev| + i - u])
    {
      OnlyRepetition(Level(i, gain), (prev + w)[|prev| + i - u], Noise(prev, lags, i));
    }
  }

  lemma NoiseDraws(prev: seq<real>, lags: seq<nat>) returns (noise: seq<real>)
    requires |prev| >= 160 && AreLags(lags, |prev|)
    ensures Draws(noise, prev, lags) && forall i: nat | i < |noise| :: noise[i] == Noise(prev, lags, i)
  {
    noise := seq(|prev|, i requires 0 <= i < |prev| => Noise(prev, lags, i));
  }

  /** A frame of a given noise, damped along the frame or only by the gain. */
  ghost predicate LevelledNoise(w: seq<real>, noise: seq<real>, gain: real) {
    |w| == |noise| && forall i: nat | i < |w| :: w[i] == Times(Level(i, gain), noise[i])
  }

  ghost predicate PlainNoise(w: seq<real>, noise: seq<real>, gain: real) {
    |w| == |noise| && forall i: nat | i < |w| :: w[i] == Times(gain, noise[i])
  }

  /** An unvoiced frame is noise, whatever the pitch. */
  lemma UnvoicedIsNoise(prev: seq<real>, lags: seq<nat>, lag: nat, gain: real, noise: seq<real>)
    requires |prev| >= 160 && AreLags(lags, |prev|) && 0 < RepeatLag(lag) <= |prev|
    requires |noise| == |prev| && forall i: nat | i < |noise| :: noise[i] == Noise(prev, lags, i)
    ensures LevelledNoise(MixtureFrame(prev, lags, lag, gain, 0.0), noise, gain)
  {
    var w, u := MixtureFrame(prev, lags, lag, gain, 0.0), RepeatLag(lag);
    forall i: nat | i < |w|
      ensures w[i] == Times(Level(i, gain), noise[i])
    {
      OnlyRepetition(Level(i, gain), (prev + w)[|prev| + i - u], noise[i]);
    }
  }

  // ---- Peaks ----

  ghost predicate Within(s: seq<real>, peak: real) {
    peak >= 0.0 && forall i | 0 <= i < |s| :: -peak <= s[i] <= peak
  }

  lemma {:induction false} NoiseWithin(prev: seq<real>, lags: seq<nat>, i: nat, peak: real)
    requires |prev| >= 160 && AreLags(lags, |prev|) && i < |prev| && Within(prev, peak)
    ensures -peak <= Noise(prev, lags, i) <= peak
    decreases i
  {
    var randlag := lags[i];
    if i >= randlag {
      NoiseWithin(prev, lags, i - randlag, peak);
    }
  }

  /** A scaled value and its bound. */
  lemma Scaled(f: real, x: real, peak: real) returns (y: real, bound: real)
    requires 0.0 <= f && -peak <= x <= peak
    ensures y == f * x && bound == f * peak && -bound <= y <= bound
  {
    ScaleWithin(f, x, peak);
    y, bound := f * x, f * peak;
  }

  lemma BlendWithin(level: real, gain: real, pitchfact: real, repeated: real, noise: real, peak: real, bound: real)
    requires 0.0 <= level <= gain && 0.0 <= pitchfact <= 1.0 && bound == gain * peak
    requires -peak <= repeated <= peak && -peak <= noise <= peak
    ensures -bound <= Blend(level, pitchfact, repeated, noise) <= bound
  {
    var a, p := Scaled(pitchfact, repeated, peak);
    var b, q := Scaled(1.0 - pitchfact, noise, peak);
    PartsMakeWhole(pitchfact, peak, p, q);
    LevelWithin(level, gain, a + b, peak, bound);
  }

  lemma PartsMakeWhole(f: real, peak: real, p: real, q: real)
    requires p == f * peak && q == (1.0 - f) * peak
    ensures p + q == peak
  {
  }

  lemma LevelWithin(level: real, gain: real, x: real, peak: real, bound: real)
    requires 0.0 <= level <= gain && -peak <= x <= peak && bound == gain * peak
    ensures -bound <= level * x <= bound
  {
    var y, b := Scaled(level, x, peak);
    var d := NonNegativeProduct(gain - level, peak);
    DifferenceOfProducts(gain, level, peak, bound, b, d);
  }

  lemma DifferenceOfProducts(a: real, b: real, x: real, ax: real, bx: real, d: real)
    requires ax == a * x && bx == b * x && d == (a - b) * x
    ensures d == ax - bx
  {
  }

  lemma LevelBound(i: nat, gain: real)
    requires 0.0 <= gain
    ensures 0.0 <= Level(i, gain) <= gain
  {
    var damping := Damping(i);
    ScaleWithin(gain, damping, 1.0);
    var p := NonNegativeProduct(damping, gain);
  }

  lemma {:induction false} MixtureWithin(prev: seq<real>, lags: seq<nat>, lag: nat, gain: real, pitchfact: real,
                                         i: nat, peak: real, bound: real)
    requires |prev| >= 160 && AreLags(lags, |prev|) && i < |prev| && 0 < RepeatLag(lag) <= |prev| && Within(prev, peak)
    requires 0.0 <= gain && bound == gain * peak && bound <= peak && 0.0 <= pitchfact <= 1.0
    ensures -bound <= Mixture(prev, lags, lag, gain, pitchfact, i) <= bound
    decreases i
  {
    var useLag, noise := RepeatLag(lag), Noise(prev, lags, i);
    NoiseWithin(prev, lags, i, peak);
    LevelBound(i, gain);
    var repeated;
    if i < useLag {
      repeated := prev[|prev| + i - useLag];
    } else {
      repeated := Mixture(prev, lags, lag, gain, pitchfact, i - useLag);
      MixtureWithin(prev, lags, lag, gain, pitchfact, i - useLag, peak, bound);
    }
    BlendWithin(Level(i, gain), gain, pitchfact, repeated, noise, peak, bound);
  }

  lemma SmallerProduct(gain: real, peak: real) returns (bound: real)
    requires 0.0 <= gain <= 1.0 && peak >= 0.0
    ensures bound == gain * peak == Times(gain, peak) && 0.0 <= bound <= peak
  {
    bound := NonNegativeProduct(gain, peak);
    var rest := NonNegativeProduct(1.0 - gain, peak);
    DifferenceOfProducts(1.0, gain, peak, peak, bound, rest);
  }

  /** A concealed frame's peak is at most its gain times the peak of the frame before. */
  lemma ConcealedWithin(prev: seq<real>, lags: seq<nat>, lag: nat, gain: real, pitchfact: real, measures: Measures,
                        peak: real)
    requires |prev| >= 160 && AreLags(lags, |prev|) && 0 < RepeatLag(lag) <= |prev| && Within(prev, peak)
    requires 0.0 <= gain <= 1.0 && 0.0 <= pitchfact <= 1.0
    ensures Within(ConcealedFrame(prev, lags, lag, gain, pitchfact, measures), Times(gain, peak))
  {
    var bound := SmallerProduct(gain, peak);
    MixtureFrameWithin(prev, lags, lag, gain, pitchfact, peak, bound);
    NoiseFrameWithin(prev, lags, gain, peak, bound);
  }

  lemma TimesWithin(gain: real, x: real, peak: real, bound: real)
    requires 0.0 <= gain && -peak <= x <= peak && bound == gain * peak
    ensures -bound <= Times(gain, x) <= bound
  {
    var y, b := Scaled(gain, x, peak);
  }

  lemma MixtureFrameWithin(prev: seq<real>, lags: seq<nat>, lag: nat, gain: real, pitchfact: real, peak: real,
                           bound: real)
    requires |prev| >= 160 && AreLags(lags, |prev|) && 0 < RepeatLag(lag) <= |prev| && Within(prev, peak)
    requires 0.0 <= gain && 0.0 <= pitchfact <= 1.0 && bound == gain * peak && 0.0 <= bound <= peak
    ensures Within(MixtureFrame(prev, lags, lag, gain, pitchfact), bound)
  {
    forall i: nat | i < |prev|
      ensures -bound <= MixtureFrame(prev, lags, lag, gain, pitchfact)[i] <= bound
    {
      MixtureWithin(prev, lags, lag, gain, pitchfact, i, peak, bound);
    }
  }

  lemma NoiseFrameWithin(prev: seq<real>, lags: seq<nat>, gain: real, peak: real, bound: real)
    requires |prev| >= 160 && AreLags(lags, |prev|) && Within(prev, peak) && 0.0 <= gain && bound == gain * peak
             && bound >= 0.0
    ensures Within(NoiseFrame(prev, lags, gain), bound)
  {
    forall i: nat | i < |prev|
      ensures -bound <= NoiseFrame(prev, lags, gain)[i] <= bound
    {
      NoiseWithin(prev, lags, i, peak);
      TimesWithin(gain, Noise(prev, lags, i), peak, bound);
    }
  }

  // ---- The state over frames ----

  /** What concealment keeps from frame to frame. */
  datatype State = State(count: nat, lost: bool, lag: nat, per: real, seed: nat, residual: seq<real>, lpc: seq<real>)

  predicate ValidState(mode: Mode, s: State) {
    && s.count <= MOST_LOSSES && 17 <= s.lag <= 122 && s.seed < MASKED
    && |s.residual| == mode.FrameSamples() && |s.lpc| == COEFFICIENTS
  }

  /** The state before the first frame: silence, and a seed and a lag that only the first loss looks at. */
  function InitialState(mode: Mode): (s: State)
    ensures ValidState(mode, s)
  {
    State(0, false, 120, 0.0, 777, seq(mode.FrameSamples(), i => 0.0),
          seq(COEFFICIENTS, i => if i == 0 then 1.0 else 0.0))
  }

  function NextCount(count: nat): nat {
    if count < MOST_LOSSES then count + 1 else count
  }

  /** The lag of a lost frame: searched for the first of a burst, kept afterwards. */
  function LossLag(mode: Mode, s: State, inlag: nat, m: Measures): (lag: nat)
    requires ValidState(mode, s) && LagFits(inlag)
    ensures 17 <= lag <= 122
  {
    if s.lost then s.lag else ChosenLag(Matches(s.residual, m), inlag)
  }

  function ChosenLag(ms: seq<real>, inlag: nat): (lag: nat)
    requires |ms| == LAGS && LagFits(inlag)
    ensures BestLag(ms, inlag, lag)
  {
    BestUpTo(ms, inlag, inlag + 3)
  }

  function BestUpTo(ms: seq<real>, inlag: nat, last: nat): (lag: nat)
    requires |ms| == LAGS && LagFits(inlag) && inlag - 3 <= last <= inlag + 3
    ensures inlag - 3 <= lag <= last
    ensures forall l | inlag - 3 <= l <= last :: ms[l] <= ms[lag]
    ensures forall l | inlag - 3 <= l < lag :: ms[l] < ms[lag]
    decreases last
  {
    if last == inlag - 3 then last
    else
      var lag := BestUpTo(ms, inlag, last - 1);
      if ms[last] > ms[lag] then last else lag
  }

  function LossPer(mode: Mode, s: State, inlag: nat, m: Measures): real
    requires ValidState(mode, s) && LagFits(inlag)
  {
    if s.lost then s.per else Periodicities(s.residual, m)[LossLag(mode, s, inlag, m)]
  }

  /** A lost frame. */
  function Lose(mode: Mode, s: State, inlag: nat, m: Measures): (t: State)
    requires ValidState(mode, s) && LagFits(inlag)
    ensures ValidState(mode, t) && t.lost
  {
    var count, lag, per := NextCount(s.count), LossLag(mode, s, inlag, m), LossPer(mode, s, inlag, m);
    State(count, true, lag, per, Seeds(s.seed, mode.FrameSamples()),
          ConcealedFrame(s.residual, NoiseLags(s.seed, mode.FrameSamples()), lag, LossGain(mode, count),
                         PitchFactor(m.root(per)), m), s.lpc)
  }

  /** A received frame. */
  function Accept(mode: Mode, s: State, residual: seq<real>, lpc: seq<real>): (t: State)
    requires ValidState(mode, s) && |residual| == mode.FrameSamples() && |lpc| == COEFFICIENTS
    ensures ValidState(mode, t) && !t.lost && t.count == 0
  {
    State(0, false, s.lag, s.per, s.seed, residual, lpc)
  }

  /** A lost frame after a clearly periodic one repeats the pitch, unless that is too quiet; it is then noise. */
  lemma VoicedLossRepeatsPitch(mode: Mode, s: State, inlag: nat, m: Measures) returns (w: seq<real>, noise: seq<real>)
    requires ValidState(mode, s) && LagFits(inlag) && m.root(LossPer(mode, s, inlag, m)) > VOICED
    ensures var t := Lose(mode, s, inlag, m); var gain := LossGain(mode, t.count);
            && Repeats(w, s.residual, t.lag, gain)
            && Draws(noise, s.residual, NoiseLags(s.seed, mode.FrameSamples()))
            && if m.quiet(Energy(w), |w|) then PlainNoise(t.residual, noise, gain) else t.residual == w
  {
    var count, lag, lags := NextCount(s.count), LossLag(mode, s, inlag, m), NoiseLags(s.seed, mode.FrameSamples());
    w := MixtureFrame(s.residual, lags, lag, LossGain(mode, count), 1.0);
    noise := NoiseDraws(s.residual, lags);
    VoicedRepeats(s.residual, lags, lag, LossGain(mode, count));
  }

  /** A lost frame after one without a period is noise, damped along the frame unless that is too quiet. */
  lemma UnvoicedLossIsNoise(mode: Mode, s: State, inlag: nat, m: Measures) returns (w: seq<real>, noise: seq<real>)
    requires ValidState(mode, s) && LagFits(inlag) && m.root(LossPer(mode, s, inlag, m)) <= UNVOICED
    ensures var t := Lose(mode, s, inlag, m); var gain := LossGain(mode, t.count);
            && LevelledNoise(w, noise, gain) && Draws(noise, s.residual, NoiseLags(s.seed, mode.FrameSamples()))
            && if m.quiet(Energy(w), |w|) then PlainNoise(t.residual, noise, gain) else t.residual == w
  {
    var count, lag, lags := NextCount(s.count), LossLag(mode, s, inlag, m), NoiseLags(s.seed, mode.FrameSamples());
    w := MixtureFrame(s.residual, lags, lag, LossGain(mode, count), 0.0);
    noise := NoiseDraws(s.residual, lags);
    UnvoicedIsNoise(s.residual, lags, lag, LossGain(mode, count), noise);
  }

  // ---- The method ----

  class Concealer {
    var consPLICount: nat
    var prevPLI: nat
    var prevLag: nat
    var per: real
    var seed: nat
    const prevResidual: array<real>
    const prevLpc: array<real>

    ghost predicate Valid(mode: Mode)
      reads this, prevResidual, prevLpc
    {
      && prevResidual.Length == 240 && prevLpc.Length == COEFFICIENTS && prevResidual != prevLpc && prevPLI <= 1
      && ValidState(mode, View(mode))
    }

    ghost function View(mode: Mode): State
      requires prevResidual.Length == 240
      reads this, prevResidual, prevLpc
    {
      State(consPLICount, prevPLI == 1, prevLag, per, seed, prevResidual[..mode.FrameSamples()], prevLpc[..])
    }

    constructor (mode: Mode)
      ensures Valid(mode) && fresh(prevResidual) && fresh(prevLpc)
      ensures View(mode) == InitialState(mode)
    {
      consPLICount, prevPLI, prevLag, per, seed := 0, 0, 120, 0.0, 777;
      prevResidual := new real[240](i => 0.0);
      prevLpc := new real[COEFFICIENTS](i => if i == 0 then 1.0 else 0.0);
    }

    /** One draw of the noise generator: the seed moves on and gives a lag. */
    method Draw() returns (randlag: nat)
      modifies this`seed
      ensures seed == NextSeed(old(seed)) && randlag == NoiseLag(seed)
    {
      seed := (seed * MULTIPLIER % WORD + 1) % WORD % MASKED;
      randlag := 50 + seed % 70;
    }

    /** The sample loop of a lost frame. */
    method Mix(mode: Mode, plc: array<real>, randvec: array<real>, lag: nat, useGain: real, pitchfact: real,
               ghost lags: seq<nat>)
      requires prevResidual.Length == 240 && plc.Length == 240 && randvec.Length == 240
      requires plc != prevResidual && randvec != prevResidual && plc != randvec
      requires 17 <= lag <= 122 && lags == NoiseLags(seed, mode.FrameSamples())
      modifies this`seed, plc, randvec
      ensures seed == Seeds(old(seed), mode.FrameSamples())
      ensures forall i: nat | i < mode.FrameSamples() ::
                randvec[i] == Noise(prevResidual[..mode.FrameSamples()], lags, i)
      ensures forall i: nat | i < mode.FrameSamples() ::
                plc[i] == Mixture(prevResidual[..mode.FrameSamples()], lags, lag, useGain, pitchfact, i)
    {
      var n := mode.FrameSamples();
      var prev := prevResidual[..n];
      for i := 0 to n
        invariant seed == Seeds(old(seed), i)
        invariant forall j: nat | j < i :: randvec[j] == Noise(prev, lags, j)
        invariant forall j: nat | j < i :: plc[j] == Mixture(prev, lags, lag, useGain, pitchfact, j)
      {
        var randlag := Draw();
        assert randlag == lags[i];
        MixSample(plc, randvec, prev, lag, useGain, pitchfact, i, randlag, lags);
      }
    }

    /** One sample of noise and of the mixture. */
    static method MixSample(plc: array<real>, randvec: array<real>, prev: seq<real>, lag: nat, useGain: real,
                            pitchfact: real, i: nat, randlag: nat, ghost lags: seq<nat>)
      requires plc.Length == 240 && randvec.Length == 240 && plc != randvec && 160 <= |prev| <= 240 && i < |prev|
      requires 17 <= lag <= 122 && AreLags(lags, |prev|) && randlag == lags[i]
      requires forall j: nat | j < i :: randvec[j] == Noise(prev, lags, j)
      requires forall j: nat | j < i :: plc[j] == Mixture(prev, lags, lag, useGain, pitchfact, j)
      modifies plc, randvec
      ensures randvec[i] == Noise(prev, lags, i) && plc[i] == Mixture(prev, lags, lag, useGain, pitchfact, i)
      ensures forall j: nat | j < i :: randvec[j] == old(randvec[j]) && plc[j] == old(plc[j])
    {
      var n := |prev|;
      var useLag := if lag < 80 then 2 * lag else lag;
      var pick := i - randlag;
      randvec[i] := if pick < 0 then prev[n + pick] else randvec[pick];
      pick := i - useLag;
      var repeated := if pick < 0 then prev[n + pick] else plc[pick];
      plc[i] := Blend(Level(i, useGain), pitchfact, repeated, randvec[i]);
    }

    /** The concealed frame, with its final test for a frame that is too quiet. */
    method Synthesise(mode: Mode, plc: array<real>, lag: nat, useGain: real, pitchfact: real, sqrt: real -> real)
      requires prevResidual.Length == 240 && plc.Length == 240 && plc != prevResidual && 17 <= lag <= 122
      modifies this`seed, plc
      ensures seed == Seeds(old(seed), mode.FrameSamples())
      ensures plc[..mode.FrameSamples()]
           == ConcealedFrame(prevResidual[..mode.FrameSamples()], NoiseLags(old(seed), mode.FrameSamples()), lag,
                             useGain, pitchfact, Actual(sqrt))
    {
      var n := mode.FrameSamples();
      var randvec := new real[240](i => 0.0);
      ghost var lags := NoiseLags(seed, n);
      Mix(mode, plc, randvec, lag, useGain, pitchfact, lags);
      FinishFrame(n, plc, randvec, useGain, sqrt, prevResidual[..n], lags, lag, pitchfact);
    }

    static method FinishFrame(n: nat, plc: array<real>, randvec: array<real>, useGain: real, sqrt: real -> real,
                              ghost prev: seq<real>, ghost lags: seq<nat>, ghost lag: nat, ghost pitchfact: real)
      requires plc.Length == 240 && randvec.Length == 240 && plc != randvec && 160 <= n == |prev| <= 240
      requires 17 <= lag <= 122 && AreLags(lags, n)
      requires forall i: nat | i < n :: randvec[i] == Noise(prev, lags, i)
      requires forall i: nat | i < n :: plc[i] == Mixture(prev, lags, lag, useGain, pitchfact, i)
      modifies plc
      ensures plc[..n] == ConcealedFrame(prev, lags, lag, useGain, pitchfact, Actual(sqrt))
    {
      ghost var noise := randvec[..n];
      var s := plc[..n];
      IsMixtureFrame(s, prev, lags, lag, useGain, pitchfact);
      IsNoiseFrame(noise, prev, lags, useGain);
      var energy := DotProduct(s, s);
      ConcealedIs(prev, lags, lag, useGain, pitchfact, Actual(sqrt), s, energy);
      if TooQuiet(energy, n, sqrt) {
        forall i | 0 <= i < n { plc[i] := Times(useGain, randvec[i]); }
        assert plc[..n] == seq(n, i requires 0 <= i < n => Times(useGain, noise[i]));
      }
    }

    /** doThePLC's branch for a lost frame. */
    method LoseFrame(mode: Mode, plc: array<real>, inlag: nat, sqrt: real -> real)
      requires Valid(mode) && LagFits(inlag) && plc.Length == 240 && plc != prevResidual && plc != prevLpc
      modifies this, plc
      ensures var t := Lose(mode, old(View(mode)), inlag, Actual(sqrt));
              && View(mode).(residual := t.residual) == t && prevPLI == 1
              && plc[..mode.FrameSamples()] == t.residual
    {
      if consPLICount < 9 {
        consPLICount := consPLICount + 1;
      }
      var lag, maxPer := FindLag(mode, inlag, sqrt);
      Synthesise(mode, plc, lag, LossGain(mode, consPLICount), PitchFactor(sqrt(maxPer)), sqrt);
      prevLag, per, prevPLI := lag, maxPer, 1;
    }

    method FindLag(mode: Mode, inlag: nat, sqrt: real -> real) returns (lag: nat, maxPer: real)
      requires prevResidual.Length == 240 && ValidState(mode, View(mode)) && LagFits(inlag)
      ensures lag == LossLag(mode, View(mode), inlag, Actual(sqrt))
              && maxPer == LossPer(mode, View(mode), inlag, Actual(sqrt))
    {
      if prevPLI != 1 {
        var s := prevResidual[..mode.FrameSamples()];
        lag, maxPer := SearchLag(s, inlag, sqrt);
        BestLagIsUnique(Matches(s, Actual(sqrt)), inlag, lag, ChosenLag(Matches(s, Actual(sqrt)), inlag));
      } else {
        lag, maxPer := prevLag, per;
      }
    }

    /** doThePLC. */
    method DoThePlc(mode: Mode, plc: array<real>, plcLpc: array<real>, lost: bool, decresidual: seq<real>,
                    lpc: seq<real>, inlag: nat, sqrt: real -> real)
      requires Valid(mode) && LagFits(inlag) && |decresidual| >= mode.FrameSamples() && |lpc| == COEFFICIENTS
      requires plc.Length == 240 && plcLpc.Length == COEFFICIENTS && plc != plcLpc
      requires plc != prevResidual && plc != prevLpc && plcLpc != prevResidual && plcLpc != prevLpc
      modifies this, prevResidual, prevLpc, plc, plcLpc
      ensures Valid(mode)
      ensures View(mode) == if lost then Lose(mode, old(View(mode)), inlag, Actual(sqrt))
                            else Accept(mode, old(View(mode)), decresidual[..mode.FrameSamples()], lpc)
      ensures plc[..mode.FrameSamples()] == View(mode).residual && plcLpc[..] == View(mode).lpc
    {
      var n := mode.FrameSamples();
      if lost {
        LoseFrame(mode, plc, inlag, sqrt);
        forall i | 0 <= i < COEFFICIENTS { plcLpc[i] := prevLpc[i]; }
      } else {
        forall i | 0 <= i < n { plc[i] := decresidual[i]; }
        forall i | 0 <= i < COEFFICIENTS { plcLpc[i] := lpc[i]; }
        consPLICount, prevPLI := 0, 0;
      }
      forall i | 0 <= i < COEFFICIENTS { prevLpc[i] := plcLpc[i]; }
      forall i | 0 <= i < n { prevResidual[i] := plc[i]; }
    }
  }

  // ---- Bursts ----

  /** The state after the first n losses of a burst; the decoder searches each frame around the lag it found last. */
  function Burst(mode: Mode, s: State, inlags: seq<nat>, n: nat, m: Measures): (t: State)
    requires ValidState(mode, s) && n <= |inlags| && forall i | 0 <= i < |inlags| :: LagFits(inlags[i])
    ensures ValidState(mode, t)
  {
    if n == 0 then s else Lose(mode, Burst(mode, s, inlags, n - 1, m), inlags[n - 1], m)
  }

  function Min(a: nat, b: nat): nat {
    if a < b then a else b
  }

  lemma {:induction false} BurstCounts(mode: Mode, s: State, inlags: seq<nat>, n: nat, m: Measures)
    requires ValidState(mode, s) && n <= |inlags| && forall i | 0 <= i < |inlags| :: LagFits(inlags[i])
    ensures Burst(mode, s, inlags, n, m).count == Min(MOST_LOSSES, s.count + n)
  {
    if n > 0 {
      BurstCounts(mode, s, inlags, n - 1, m);
    }
  }

  /** The noise generator draws once for every concealed sample, without a break. */
  lemma {:induction false} BurstDraws(mode: Mode, s: State, inlags: seq<nat>, n: nat, m: Measures)
    requires ValidState(mode, s) && n <= |inlags| && forall i | 0 <= i < |inlags| :: LagFits(inlags[i])
    ensures Burst(mode, s, inlags, n, m).seed == Seeds(s.seed, n * mode.FrameSamples())
  {
    hide Lose;
    if n > 0 {
      var k, t := mode.FrameSamples(), Burst(mode, s, inlags, n - 1, m);
      BurstDraws(mode, s, inlags, n - 1, m);
      LoseDraws(mode, t, inlags[n - 1], m);
      SeedsCompose(s.seed, (n - 1) * k, k);
      OneFrameMore(n, k);
    }
  }

  lemma LoseDraws(mode: Mode, s: State, inlag: nat, m: Measures)
    requires ValidState(mode, s) && LagFits(inlag)
    ensures Lose(mode, s, inlag, m).seed == Seeds(s.seed, mode.FrameSamples())
  {
  }

  lemma OneFrameMore(n: nat, k: nat)
    requires n > 0
    ensures (n - 1) * k + k == n * k
  {
  }

  lemma LoseDecays(mode: Mode, s: State, inlag: nat, m: Measures, peak: real, gain: real)
    requires ValidState(mode, s) && LagFits(inlag) && Within(s.residual, peak)
             && gain == LossGain(mode, NextCount(s.count))
    ensures Within(Lose(mode, s, inlag, m).residual, Times(gain, peak))
  {
    var lag, pitchfact := LossLag(mode, s, inlag, m), PitchFactor(m.root(LossPer(mode, s, inlag, m)));
    ConcealedWithin(s.residual, NoiseLags(s.seed, mode.FrameSamples()), lag, gain, pitchfact, m, peak);
  }

  /** Each lost frame's peak is at most its gain times the peak before it, and no gain exceeds the one before. */
  lemma BurstDecays(mode: Mode, s: State, inlags: seq<nat>, n: nat, m: Measures, peak: real)
    requires ValidState(mode, s) && n < |inlags| && forall i | 0 <= i < |inlags| :: LagFits(inlags[i])
    requires Within(Burst(mode, s, inlags, n, m).residual, peak)
    ensures var t := Burst(mode, s, inlags, n + 1, m);
            && Within(t.residual, Times(LossGain(mode, t.count), peak))
            && LossGain(mode, t.count) <= LossGain(mode, Burst(mode, s, inlags, n, m).count)
  {
    var b := Burst(mode, s, inlags, n, m);
    LoseDecays(mode, b, inlags[n], m, peak, LossGain(mode, NextCount(b.count)));
    GainFalls(mode, b.count, NextCount(b.count));
  }

  predicate IsSilent(s: seq<real>) {
    forall i | 0 <= i < |s| :: s[i] == 0.0
  }

  /** From the 9th (20 ms) or 6th (30 ms) frame of a burst on, the excitation is identically zero. */
  lemma BurstEndsInSilence(mode: Mode, s: State, inlags: seq<nat>, n: nat, m: Measures)
    requires ValidState(mode, s) && n <= |inlags| && forall i | 0 <= i < |inlags| :: LagFits(inlags[i])
    requires n >= (if mode.Mode20? then 9 else 6)
    ensures IsSilent(Burst(mode, s, inlags, n, m).residual)
  {
    var b := Burst(mode, s, inlags, n - 1, m);
    var peak := PeakOf(b.residual);
    BurstCounts(mode, s, inlags, n - 1, m);
    SilentFrom(mode, NextCount(b.count));
    LoseDecays(mode, b, inlags[n - 1], m, peak, 0.0);
    ZeroWithin(Burst(mode, s, inlags, n, m).residual, Times(0.0, peak));
  }

  lemma ZeroWithin(s: seq<real>, bound: real)
    requires Within(s, bound) && bound == 0.0
    ensures IsSilent(s)
  {
  }

  /** Some bound of a sequence. */
  function PeakOf(s: seq<real>): (peak: real)
    ensures Within(s, peak)
  {
    if s == [] then 0.0
    else
      var p, x := PeakOf(s[1..]), Abs(s[0]);
      assert forall i | 1 <= i < |s| :: s[i] == s[1..][i - 1];
      if x > p then x else p
  }
}
