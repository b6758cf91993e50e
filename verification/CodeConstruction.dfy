/** Search and reconstruction meet: over the reals the vector that both sides construct from a code is the one that the
    search built it as. */
module CodeConstruction {
  import opened Basics
  import opened RealArithmetic
  import opened Vectors
  import opened CodebookEnergies
  import opened CodebookSearch
  import opened StagedSearch
  import opened GainCorrection
  import opened ResidualSpec
  import opened FrameFormat
  import EM = EncoderModel
  import C = Codebook
  import GQ = GainQuantisation

  /** The shared operations are those of the reals, with the given filter and gain tables. */
  ghost predicate IsReal(k: Kernel<real>, taps: seq<real>, t: GQ.Tables) {
    && |taps| == C.TAPS && GQ.ValidTables(t) && ValidKernel(k) && k.ar == Reals(taps)
    && (forall x :: k.abs(x) == Abs(x))
    && forall index: nat, x, n: nat {:trigger k.gain(index, x, n)} | n in {8, 16, 32} && index < n ::
         k.gain(index, x, n) == GQ.GainDequant(t, index, x, n)
  }

  /** Every gain is relative to the magnitude of the one before. */
  lemma {:induction false} GainsAgree(k: Kernel<real>, taps: seq<real>, t: GQ.Tables, c: Code, s: nat)
    requires IsReal(k, taps, t) && s < STAGES && |c.gain| == STAGES
    requires forall i: nat | i < STAGES :: c.gain[i] < LEVELS[i]
    ensures Gain(k, c, s) == GainOf(t, c.gain, s)
  {
    if s > 0 {
      GainsAgree(k, taps, t, c, s - 1);
    }
  }

  lemma ChainFits(b: Book, c: Code)
    requires ValidBook(b) && Chain(b, c.index, c.gain, STAGES) && |c.index| == |c.gain| == STAGES
    ensures CodeFits(c, |b.m|, b.veclen)
  {
  }

  lemma BuiltStep(b: Book, t: GQ.Tables, index: seq<nat>, f: seq<nat>, n: nat, j: nat, g: real, x: real)
    requires ValidBook(b) && GQ.ValidTables(t) && 1 <= n <= STAGES && Chain(b, index, f, STAGES) && j < b.veclen
    requires g == GainOf(t, f, n - 1) && x == Vector(b, index[n - 1])[j]
    ensures Built(b, t, index, f, n)[j] == Built(b, t, index, f, n - 1)[j] + g * x
    ensures Built(b, t, index, f, 0)[j] == 0.0
  {
    hide Vector, GainOf;
  }

  lemma RealStep(k: Kernel<real>, taps: seq<real>, g: real, x: real, u: real)
    requires |taps| == C.TAPS && k.ar == Reals(taps)
    ensures k.ar.mul(g, x) == g * x && k.ar.add(u, k.ar.mul(g, x)) == u + g * x
  {
  }

  lemma StageStep(k: Kernel<real>, b: Book, t: GQ.Tables, c: Code, n: nat, j: nat, g: real, x: real)
    requires IsReal(k, b.taps, t) && ValidBook(b) && CodeFits(c, |b.m|, b.veclen)
    requires 1 <= n <= STAGES && Chain(b, c.index, c.gain, STAGES) && j < b.veclen
    requires g == Gain(k, c, n - 1) && x == Vector(b, c.index[n - 1])[j]
    ensures StageSum(k, b.m, c, b.veclen, n, j)
            == (if n == 1 then 0.0 else StageSum(k, b.m, c, b.veclen, n - 1, j)) + g * x
  {
    RealVector(k, b, t, c.index[n - 1]);
    var u := if n == 1 then 0.0 else StageSum(k, b.m, c, b.veclen, n - 1, j);
    RealStep(k, b.taps, g, x, u);
    hide C.CodeVector, Vector, Gain, IsReal, Reals;
  }

  lemma {:induction false} SumsAgree(k: Kernel<real>, b: Book, t: GQ.Tables, c: Code, n: nat, j: nat)
    requires IsReal(k, b.taps, t) && ValidBook(b) && CodeFits(c, |b.m|, b.veclen)
    requires 1 <= n <= STAGES && Chain(b, c.index, c.gain, STAGES) && j < b.veclen
    ensures StageSum(k, b.m, c, b.veclen, n, j) == Built(b, t, c.index, c.gain, n)[j]
  {
    GainsAgree(k, b.taps, t, c, n - 1);
    var g, x := Gain(k, c, n - 1), Vector(b, c.index[n - 1])[j];
    BuiltStep(b, t, c.index, c.gain, n, j, g, x);
    StageStep(k, b, t, c, n, j, g, x);
    if n > 1 {
      SumsAgree(k, b, t, c, n - 1, j);
    }
    hide Built, StageSum;
  }

  lemma RealVector(k: Kernel<real>, b: Book, t: GQ.Tables, i: nat)
    requires IsReal(k, b.taps, t) && ValidBook(b) && i < 2 * b.Base()
    ensures k.ar == Reals(b.taps) && C.IndexFits(|b.m|, b.veclen, i)
    ensures Vector(b, i) == C.CodeVector(k.ar, b.m, i, b.veclen)
  {
  }

  /** constructCodebook rebuilds what the search built, for the code's own gains, corrected or not. */
  lemma ConstructedIsBuilt(k: Kernel<real>, b: Book, t: GQ.Tables, c: Code)
    requires IsReal(k, b.taps, t) && ValidBook(b) && |c.index| == |c.gain| == STAGES
    requires Chain(b, c.index, c.gain, STAGES)
    ensures CodeFits(c, |b.m|, b.veclen)
    ensures Constructed(k, b.m, c, b.veclen) == Built(b, t, c.index, c.gain, STAGES)
  {
    ChainFits(b, c);
    hide IsReal, Built, StageSum, CodeFits, Chain;
    forall j: nat | j < b.veclen
      ensures Constructed(k, b.m, c, b.veclen)[j] == Built(b, t, c.index, c.gain, STAGES)[j]
    {
      SumsAgree(k, b, t, c, STAGES, j);
    }
  }

  /** So where the gains follow, the decoder's vector for a corrected code is quieter than the target; b's memory is the
      decoder's when the weighting filter is the identity. */
  lemma CorrectedDecodesQuieter(k: Kernel<real>, b: Book, t: GQ.Tables, index: seq<nat>, f: seq<nat>,
                                target: seq<real>, j: nat)
    requires IsReal(k, b.taps, t) && ValidBook(b) && PositiveRising(t.sq5) && Coded(f) && f[0] < j < LEVELS[0]
    requires |index| == STAGES && Chain(b, index, f, STAGES) && NoFloor(t, f)
    requires Corrected(t.sq5, f[0], Energy(Built(b, t, index, f, STAGES)), Energy(target), j)
    ensures var c := Code(index, f[0 := j]);
            CodeFits(c, |b.m|, b.veclen) && Energy(Constructed(k, b.m, c, b.veclen)) < Energy(target)
  {
    assert Chain(b, index, f[0 := j], STAGES);
    hide IsReal, Built, Corrected, NoFloor;
    RaisedStaysQuieter(b, t, index, f, target, j);
    ConstructedIsBuilt(k, b, t, Code(index, f[0 := j]));
  }

  /** Every adaptive subframe of the local reconstruction, and so of what a decoder in lock step plays, is what the
      search would build from the subframe's code over the reconstructed samples next to it. */
  lemma SubframeIsBuilt<S>(k: Kernel<real>, taps: seq<real>, t: GQ.Tables, d: EM.Decisions<real, S>, mode: Mode,
                           residual: seq<real>, weightdenum: seq<real>, f: Fields, decoded: seq<real>, n: nat)
    requires IsReal(k, taps, t) && EM.Chosen(mode, f) && Playable(mode, f)
             && |residual| == |decoded| == mode.FrameSamples()
    requires |weightdenum| == COEFFICIENTS * mode.Subframes() && n < mode.Subframes()
             && (n + 1 < f.start || n > f.start)
    requires EM.CodedAt(k, d, mode, residual, weightdenum, f, decoded, n)
    ensures var q := EM.RequestAt(k, mode, residual, decoded, weightdenum, f.start, n);
            var b, c := Book(taps, q.memory, SUBFRAME), CodeAt(f.cb, f.gain, q.block - 1);
            && ValidBook(b) && Chain(b, c.index, c.gain, STAGES)
            && Built(b, t, c.index, c.gain, STAGES)
               == if n > f.start then EM.Subframe(decoded, n) else Reverse(EM.Subframe(decoded, n))
  {
    var q := EM.RequestAt(k, mode, residual, decoded, weightdenum, f.start, n);
    var b, c := Book(taps, q.memory, SUBFRAME), CodeAt(f.cb, f.gain, q.block - 1);
    ChosenIsChain(mode, f, taps, q.memory, q.block - 1);
    hide IsReal, Built, Constructed, EM.Found, Recent, Reverse, EM.Subframe, EM.FilterOf, CodeAt, Chain, EM.Chosen;
    ConstructedIsBuilt(k, b, t, c);
  }

  lemma ChosenIsChain(mode: Mode, f: Fields, taps: seq<real>, m: seq<real>, i: nat)
    requires EM.Chosen(mode, f) && i < mode.AdaptiveSubframes() && |taps| == C.TAPS && |m| == MEMORY
    ensures var b, c := Book(taps, m, SUBFRAME), CodeAt(f.cb, f.gain, i);
            ValidBook(b) && Chain(b, c.index, c.gain, STAGES)
  {
    var c := CodeAt(f.cb, f.gain, i);
    assert EM.CodeInSpace(c, i + 1);
    forall s: nat | s < STAGES
      ensures c.index[s] < 256 && c.gain[s] < LEVELS[s]
    {
      assert EM.IndexInSpace(i + 1, s, c.index[s]);
    }
  }
}
