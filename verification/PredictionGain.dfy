/** Recursion and filter meet: what the analysis filter leaves of a signal when it runs with the predictor that the
    recursion computed from that signal. */
module PredictionGain {
  import opened Basics
  import opened Vectors
  import LP = LinearPrediction
  import LD = Levinson

  function Zeros(n: nat): (z: seq<real>)
    ensures |z| == n
  {
    seq(n, i => 0.0)
  }

  /** The filter's sum is the recursion's prediction error, its memory being the silence before the signal. */
  lemma {:induction false} FilterIsPrediction(a: seq<real>, x: seq<real>, tail: nat, t: nat, n: nat)
    requires n <= |a| == ORDER + 1 && t < |x| + tail
    ensures LP.Fir(a, Zeros(ORDER) + x + Zeros(tail), ORDER + t, n) == LD.Prediction(a, LD.Extended(x), t, n)
  {
    if n > 0 {
      FilterIsPrediction(a, x, tail, t, n - 1);
      var h, p := Zeros(ORDER) + x + Zeros(tail), ORDER + t - (n - 1);
      assert h[p] == LD.Extended(x)(t - (n - 1));
    }
  }

  lemma {:induction false} EnergyIsInner(a: seq<real>, x: seq<real>, tail: nat, r: seq<real>, n: nat)
    requires |a| == ORDER + 1 && r == LP.Analysed(a, Zeros(ORDER) + x + Zeros(tail)) && n <= |r| == |x| + tail
    ensures Dot(r, r, n) == LD.Inner(LD.Error(a, LD.Extended(x), |a|), LD.Error(a, LD.Extended(x), |a|), n)
  {
    if n > 0 {
      EnergyIsInner(a, x, tail, r, n - 1);
      FilterIsPrediction(a, x, tail, n - 1, |a|);
      var error := LD.Error(a, LD.Extended(x), |a|);
      assert r[n - 1] == error(n - 1);
      hide LP.Fir, LD.Prediction, LD.Extended, LD.Error, LP.Analysed, Zeros;
    }
  }

  /** Started in silence and followed by silence, the analysis filter leaves exactly the recursion's error energy. */
  lemma AnalysisLeavesAlpha(x: seq<real>)
    requires LD.NonSingular(LD.Autocorrelations(x, ORDER), ORDER)
    ensures var p := LD.Levinson(LD.Autocorrelations(x, ORDER), ORDER);
            && |p.a| == ORDER + 1
            && Energy(LP.Analysed(p.a, Zeros(ORDER) + x + Zeros(ORDER + 1))) == p.alpha
  {
    LD.AlphaIsErrorEnergy(x, ORDER, ORDER);
    var a := LD.Levinson(LD.Autocorrelations(x, ORDER), ORDER).a;
    var r := LP.Analysed(a, Zeros(ORDER) + x + Zeros(ORDER + 1));
    EnergyIsInner(a, x, ORDER + 1, r, |r|);
  }
}
