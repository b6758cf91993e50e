/** What a frame's fields mean: the excitation they denote, defined once for
    encoder and decoder over any arithmetic. Subframes are added to a growing
    history, forwards in time after the start block and backwards before it. */
module ResidualSpec {
  import opened Basics
  import opened FrameFormat
  import opened Codebook

  /** The numerical operations that both sides share, as deterministic functions; sequences are given by their
      elements. */
  datatype Kernel<!F> = Kernel(
    ar: Arith<F>,
    abs: F -> F,
    gain: (nat, F, nat) -> F,
    state: (nat, seq<nat>, seq<F>, nat) -> F,
    lsfTable: seq<F>, weights20: seq<F>, weights30: seq<F>, bandwidth: F,
    predictor: (seq<F>, nat) -> F,
    stable: (seq<F>, nat, nat) -> F)

  const MEMORY: nat := 147
  const SHORT_MEMORY: nat := 85
  const LSF_TABLE: nat := 64 * 3 + 128 * 3 + 128 * 4

  ghost predicate ValidKernel<F>(k: Kernel<F>) {
    Valid(k.ar) && |k.lsfTable| == LSF_TABLE && |k.weights20| == 4 && |k.weights30| == 6
  }

  /** The three codebook indices and gain indices of one vector. */
  datatype Code = Code(index: seq<nat>, gain: seq<nat>)

  predicate CodeFits(c: Code, memory: nat, veclen: nat) {
    && |c.index| == |c.gain| == STAGES
    && forall s: nat | s < STAGES :: IndexFits(memory, veclen, c.index[s]) && c.gain[s] < LEVELS[s]
  }

  /** gaindequant, whose table has n entries. */
  function GainAt<F>(k: Kernel<F>, index: nat, maxIn: F, n: nat): F
    requires index < n
  {
    k.gain(index, maxIn, n)
  }

  /** The 64 scales and the eight levels of the scalar part. */
  predicate StateFits(scale: nat, idx: seq<nat>) {
    scale < 64 && Below(idx, 8)
  }

  /** Sample i of stateConstructW. */
  function StateAt<F>(k: Kernel<F>, scale: nat, idx: seq<nat>, synt: seq<F>, i: nat): F
    requires StateFits(scale, idx) && i < |idx|
  {
    k.state(scale, idx, synt, i)
  }

  /** The gain of a stage, relative to the stage before. */
  function Gain<F>(k: Kernel<F>, c: Code, s: nat): F
    requires s < STAGES && |c.gain| == STAGES && forall i: nat | i < STAGES :: c.gain[i] < LEVELS[i]
  {
    if s == 0 then GainAt(k, c.gain[0], k.ar.one, LEVELS[0])
    else GainAt(k, c.gain[s], k.abs(Gain(k, c, s - 1)), LEVELS[s])
  }

  /** Sample j of the sum of the first n scaled vectors. */
  function StageSum<F>(k: Kernel<F>, m: seq<F>, c: Code, veclen: nat, n: nat, j: nat): F
    requires ValidKernel(k) && CodeFits(c, |m|, veclen) && 1 <= n <= STAGES && j < veclen
  {
    var x := k.ar.mul(Gain(k, c, n - 1), CodeVector(k.ar, m, c.index[n - 1], veclen)[j]);
    if n == 1 then x else k.ar.add(StageSum(k, m, c, veclen, n - 1, j), x)
  }

  /** The sum of the first n scaled vectors of a code. */
  function PartialVector<F>(k: Kernel<F>, m: seq<F>, c: Code, veclen: nat, n: nat): (v: seq<F>)
    requires ValidKernel(k) && CodeFits(c, |m|, veclen) && 1 <= n <= STAGES
    ensures |v| == veclen
  {
    seq(veclen, j requires 0 <= j < veclen => StageSum(k, m, c, veclen, n, j))
  }

  /** The vector that a code denotes over a memory. */
  function Constructed<F>(k: Kernel<F>, m: seq<F>, c: Code, veclen: nat): (v: seq<F>)
    requires ValidKernel(k) && CodeFits(c, |m|, veclen)
    ensures |v| == veclen
  {
    PartialVector(k, m, c, veclen, STAGES)
  }

  function Reverse<T>(s: seq<T>): (r: seq<T>)
    ensures |r| == |s|
    ensures forall i | 0 <= i < |s| :: r[i] == s[|s| - 1 - i]
  {
    seq(|s|, i requires 0 <= i < |s| => s[|s| - 1 - i])
  }

  /** The last n samples of a history, with zeros before its beginning. */
  function Recent<F>(k: Kernel<F>, h: seq<F>, n: nat): (m: seq<F>)
    ensures |m| == n
    ensures forall i | 0 <= i < n :: m[i] == if |h| + i >= n then h[|h| + i - n] else k.ar.zero
  {
    seq(n, i requires 0 <= i < n => if |h| + i >= n then h[|h| + i - n] else k.ar.zero)
  }

  /** A history with one vector more. */
  function Extended<F>(k: Kernel<F>, h: seq<F>, c: Code, memory: nat, veclen: nat): (r: seq<F>)
    requires ValidKernel(k) && CodeFits(c, memory, veclen)
    ensures |r| == |h| + veclen
  {
    h + Constructed(k, Recent(k, h, memory), c, veclen)
  }

  ghost predicate CodesFit(codes: seq<Code>) {
    forall i {:trigger CodeFits(codes[i], MEMORY, SUBFRAME)} | 0 <= i < |codes| :: CodeFits(codes[i], MEMORY, SUBFRAME)
  }

  /** A history with a subframe for every code. */
  function Grown<F>(k: Kernel<F>, h: seq<F>, codes: seq<Code>): (r: seq<F>)
    requires ValidKernel(k) && CodesFit(codes)
    ensures |r| == |h| + SUBFRAME * |codes|
    decreases |codes|
  {
    if codes == [] then h
    else Extended(k, Grown(k, h, codes[..|codes| - 1]), codes[|codes| - 1], MEMORY, SUBFRAME)
  }

  /** The part of the start block that the extra code fills. */
  function Extra(mode: Mode): nat {
    2 * SUBFRAME - mode.StateSamples()
  }

  function State<F>(k: Kernel<F>, mode: Mode, scale: nat, idx: seq<nat>, synt: seq<F>): (s: seq<F>)
    requires StateFits(scale, idx) && |idx| == mode.StateSamples()
    ensures |s| == mode.StateSamples()
  {
    seq(mode.StateSamples(), i requires 0 <= i < mode.StateSamples() => StateAt(k, scale, idx, synt, i))
  }

  /** The two subframes of the start state: the scalar part, continued forwards or backwards in time. */
  function Block<F>(k: Kernel<F>, mode: Mode, state: seq<F>, stateFirst: bool, extra: Code): (b: seq<F>)
    requires ValidKernel(k) && |state| == mode.StateSamples() && CodeFits(extra, SHORT_MEMORY, Extra(mode))
    ensures |b| == 2 * SUBFRAME
  {
    if stateFirst then Extended(k, state, extra, SHORT_MEMORY, Extra(mode))
    else Reverse(Extended(k, Reverse(state), extra, SHORT_MEMORY, Extra(mode)))
  }

  /** The whole frame around the block: later subframes forwards, then earlier ones backwards. */
  function Around<F>(k: Kernel<F>, block: seq<F>, later: seq<Code>, earlier: seq<Code>): (r: seq<F>)
    requires ValidKernel(k) && CodesFit(later) && CodesFit(earlier)
    ensures |r| == |block| + SUBFRAME * (|later| + |earlier|)
  {
    Reverse(Grown(k, Reverse(Grown(k, block, later)), earlier))
  }

  // ---- From fields ----

  /** The code of adaptive subframe i, in the order of coding. */
  function CodeAt(cb: seq<nat>, gain: seq<nat>, i: nat): (c: Code)
    requires 3 * i + 3 <= |cb| && 3 * i + 3 <= |gain|
    ensures |c.index| == |c.gain| == STAGES
  {
    Code(cb[3 * i..3 * i + 3], gain[3 * i..3 * i + 3])
  }

  function Codes(cb: seq<nat>, gain: seq<nat>, lo: nat, hi: nat): (codes: seq<Code>)
    requires lo <= hi && 3 * hi <= |cb| && 3 * hi <= |gain|
    ensures |codes| == hi - lo
  {
    seq(hi - lo, i requires 0 <= i < hi - lo => CodeAt(cb, gain, lo + i))
  }

  /** What the excitation of a frame depends on: a start index with two subframes around it, and codes whose indices are
      inside the memories. */
  predicate Playable(mode: Mode, f: Fields) {
    && EncoderStart(mode, f.start) && HasShape(mode, f) && f.stateFirst < 2 && StateFits(f.scale, f.state)
    && CodeFits(Code(f.extraCb, f.extraGain), SHORT_MEMORY, Extra(mode))
    && forall i: nat {:trigger CodeAt(f.cb, f.gain, i)} | i < mode.AdaptiveSubframes() ::
         CodeFits(CodeAt(f.cb, f.gain, i), MEMORY, SUBFRAME)
  }

  /** The excitation that the fields of a frame denote, given the predictors. */
  function Residual<F>(k: Kernel<F>, mode: Mode, f: Fields, syntdenum: seq<F>): (r: seq<F>)
    requires ValidKernel(k) && Playable(mode, f) && |syntdenum| == COEFFICIENTS * mode.Subframes()
    ensures |r| == mode.FrameSamples()
  {
    var state := State(k, mode, f.scale, f.state, syntdenum[COEFFICIENTS * (f.start - 1)..COEFFICIENTS * f.start]);
    var block := Block(k, mode, state, f.stateFirst == 1, Code(f.extraCb, f.extraGain));
    var nfor := mode.Subframes() - f.start - 1;
    Around(k, block, Codes(f.cb, f.gain, 0, nfor), Codes(f.cb, f.gain, nfor, mode.AdaptiveSubframes()))
  }

  /** The bounds of the fields that index tables and codebooks. */
  predicate FieldsFit(mode: Mode, f: Fields)
    requires HasShape(mode, f)
  {
    && f.stateFirst < 2 && StateFits(f.scale, f.state)
    && (forall s: nat | s < STAGES :: f.extraCb[s] < 128 && f.extraGain[s] < LEVELS[s])
    && (forall i | 0 <= i < |f.cb| :: f.cb[i] < 256)
    && (forall i: nat, s: nat | i < mode.AdaptiveSubframes() && s < STAGES ::
        CodeAt(f.cb, f.gain, i).gain[s] < LEVELS[s])
  }

  /** Every frame that fits its bit fields can be played, once its start index is valid: no index leaves a memory or a
      table. */
  lemma FittingFieldsArePlayable(mode: Mode, f: Fields)
    requires HasShape(mode, f) && EncoderStart(mode, f.start) && FieldsFit(mode, f)
    ensures Playable(mode, f)
  {
    forall i: nat | i < mode.AdaptiveSubframes()
      ensures CodeFits(CodeAt(f.cb, f.gain, i), MEMORY, SUBFRAME)
    {
      assert forall s: nat | s < 3 :: CodeAt(f.cb, f.gain, i).index[s] == f.cb[3 * i + s];
    }
  }
}
