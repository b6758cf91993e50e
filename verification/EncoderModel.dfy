/** The encoder: its local decoding loop, which runs the decoder's
    reconstruction between searches, and the frame it packs. */
module EncoderModel {
  import opened Basics
  import opened FrameFormat
  import opened Codebook
  import opened ResidualSpec
  import opened ResidualDecoding
  import opened LsfCoding
  import opened IndexConversion

  /** What a codebook search looks at: the subframe to match, the memory, the weighting filter, and which vector of the
      frame it is. */
  datatype Request<F> = Request(target: seq<F>, memory: seq<F>, weights: seq<F>, block: nat)

  /** The encoder's own decisions, as deterministic functions of what they look at. S is all of its history except the
      frequencies that it shares with the decoder. */
  datatype Decisions<!F, !S> = Decisions(
    less: (F, F) -> bool, huge: F,
    analyse: (S, seq<F>) -> S,
    lsf: (S, nat) -> F,
    residual: (S, seq<F>, nat) -> F,
    advance: (S, seq<F>) -> S,
    classify: seq<F> -> nat,
    stateFirst: (seq<F>, nat) -> bool,
    scale: (seq<F>, seq<F>, seq<F>, bool) -> nat,
    state: (seq<F>, seq<F>, seq<F>, bool, nat) -> nat,
    index: (Request<F>, nat) -> nat,
    gainIndex: (Request<F>, nat) -> nat)

  /** The range of a stage's codebook index in the vector number `block` of a frame. */
  predicate IndexInSpace(block: nat, stage: nat, i: nat) {
    if block == 0 then i < 128
    else if block == 1 && stage > 0 then Restricted(i)
    else i < 256
  }

  /** The requests that the encoder makes: the rest of the start block over the short memory, or a subframe. */
  predicate IsRequest<F>(mode: Mode, q: Request<F>) {
    && |q.weights| == COEFFICIENTS
    && if q.block == 0 then |q.target| == Extra(mode) && |q.memory| == SHORT_MEMORY
       else |q.target| == SUBFRAME && |q.memory| == MEMORY
  }

  /** The decisions stay in their ranges. */
  ghost predicate Sound<F(!new), S>(d: Decisions<F, S>, mode: Mode) {
    && (forall r | |r| == mode.FrameSamples() :: EncoderStart(mode, d.classify(r)))
    && (forall r, s, w, b :: d.scale(r, s, w, b) < 64)
    && (forall r, s, w, b, i :: d.state(r, s, w, b, i) < 8)
    && (forall q: Request<F>, s: nat | IsRequest(mode, q) && s < STAGES :: IndexInSpace(q.block, s, d.index(q, s)))
    && (forall q: Request<F>, s: nat | IsRequest(mode, q) && s < STAGES :: d.gainIndex(q, s) < LEVELS[s])
  }

  /** The result of one search. */
  function Found<F, S>(d: Decisions<F, S>, q: Request<F>): (c: Code)
    ensures |c.index| == |c.gain| == STAGES
  {
    Code([d.index(q, 0), d.index(q, 1), d.index(q, 2)], [d.gainIndex(q, 0), d.gainIndex(q, 1), d.gainIndex(q, 2)])
  }

  predicate CodeInSpace(c: Code, block: nat) {
    && |c.index| == |c.gain| == STAGES
    && forall s: nat | s < STAGES :: IndexInSpace(block, s, c.index[s]) && c.gain[s] < LEVELS[s]
  }

  lemma FoundInSpace<F(!new), S>(d: Decisions<F, S>, mode: Mode, q: Request<F>)
    requires Sound(d, mode) && IsRequest(mode, q)
    ensures CodeInSpace(Found(d, q), q.block)
    ensures q.block == 0 ==> CodeFits(Found(d, q), SHORT_MEMORY, Extra(mode))
    ensures q.block > 0 ==> CodeFits(Found(d, q), MEMORY, SUBFRAME)
  {
  }

  predicate Complete(codes: seq<Code>) {
    forall i | 0 <= i < |codes| :: |codes[i].index| == |codes[i].gain| == STAGES
  }

  predicate AdaptiveInSpace(c: Code, i: nat) {
    CodeInSpace(c, i + 1) && CodeFits(c, MEMORY, SUBFRAME)
  }

  /** The codes of adaptive subframes from a given one on. */
  ghost predicate InSpaceFrom(codes: seq<Code>, base: nat) {
    Complete(codes) && forall i: nat | i < |codes| :: InSpaceAt(codes, base, i)
  }

  predicate InSpaceAt(codes: seq<Code>, base: nat, i: nat)
    requires i < |codes|
  {
    AdaptiveInSpace(codes[i], base + i)
  }

  ghost predicate CodesInSpace(codes: seq<Code>) {
    InSpaceFrom(codes, 0)
  }

  lemma OneMoreInSpace(codes: seq<Code>, base: nat, c: Code)
    requires InSpaceFrom(codes, base) && AdaptiveInSpace(c, base + |codes|)
    ensures InSpaceFrom(codes + [c], base)
  {
    var longer := codes + [c];
    forall i: nat | i < |longer|
      ensures InSpaceAt(longer, base, i)
    {
      if i < |codes| {
        assert InSpaceAt(codes, base, i);
      }
    }
  }

  lemma JoinInSpace(a: seq<Code>, b: seq<Code>)
    requires CodesInSpace(a) && InSpaceFrom(b, |a|)
    ensures CodesInSpace(a + b)
  {
    var c := a + b;
    forall i: nat | i < |c|
      ensures InSpaceAt(c, 0, i)
    {
      if i < |a| {
        assert InSpaceAt(a, 0, i);
      } else {
        assert InSpaceAt(b, |a|, i - |a|);
      }
    }
  }

  /** The weighting filter of one subframe. */
  function FilterOf<F>(weightdenum: seq<F>, mode: Mode, i: int): (w: seq<F>)
    requires |weightdenum| == COEFFICIENTS * mode.Subframes() && 0 <= i < mode.Subframes()
    ensures |w| == COEFFICIENTS
  {
    weightdenum[COEFFICIENTS * i..COEFFICIENTS * i + COEFFICIENTS]
  }

  /** The filters of the start block's two subframes. */
  function FilterPair<F>(denum: seq<F>, mode: Mode, start: nat): (w: seq<F>)
    requires |denum| == COEFFICIENTS * mode.Subframes() && EncoderStart(mode, start)
    ensures |w| == 2 * COEFFICIENTS
  {
    denum[COEFFICIENTS * (start - 1)..COEFFICIENTS * (start + 1)]
  }

  // ---- What each search is asked ----

  /** A subframe's samples. */
  function Subframe<F>(s: seq<F>, n: nat): (v: seq<F>)
    requires SUBFRAME * (n + 1) <= |s|
    ensures |v| == SUBFRAME
  {
    s[SUBFRAME * n..SUBFRAME * n + SUBFRAME]
  }

  /** The request for later subframe i: its own samples and filter, over the block and the later subframes before it. */
  function LaterRequest<F>(k: Kernel<F>, mode: Mode, residual: seq<F>, weightdenum: seq<F>, start: nat, block: seq<F>,
                           codes: seq<Code>, i: nat): Request<F>
    requires ValidKernel(k) && EncoderStart(mode, start) && i < mode.Subframes() - start - 1 && i <= |codes|
    requires |residual| == mode.FrameSamples() && |weightdenum| == COEFFICIENTS * mode.Subframes() && CodesFit(codes)
  {
    var n := start + 1 + i;
    Request(Subframe(residual, n), Recent(k, Grown(k, block, codes[..i]), MEMORY), FilterOf(weightdenum, mode, n),
            i + 1)
  }

  /** The request for earlier subframe i: its own samples and filter, backwards in time over all that follows it. */
  function EarlierRequest<F>(k: Kernel<F>, mode: Mode, residual: seq<F>, weightdenum: seq<F>, start: nat, h0: seq<F>,
                             codes: seq<Code>, i: nat): Request<F>
    requires ValidKernel(k) && EncoderStart(mode, start) && i < start - 1 && i <= |codes|
    requires |residual| == mode.FrameSamples() && |weightdenum| == COEFFICIENTS * mode.Subframes() && CodesFit(codes)
  {
    var n := start - 2 - i;
    Request(Reverse(Subframe(residual, n)), Recent(k, Grown(k, h0, codes[..i]), MEMORY), FilterOf(weightdenum, mode, n),
            mode.Subframes() - start + i)
  }

  /** The request for the rest of the start block, forwards or backwards in time over the scalar part. */
  function ExtraRequest<F>(k: Kernel<F>, mode: Mode, residual: seq<F>, weightdenum: seq<F>, start: nat,
                           stateFirst: bool, state: seq<F>): Request<F>
    requires EncoderStart(mode, start) && |residual| == mode.FrameSamples()
    requires |weightdenum| == COEFFICIENTS * mode.Subframes()
  {
    var off := SUBFRAME * (start - 1);
    if stateFirst then
      Request(residual[off + mode.StateSamples()..off + 2 * SUBFRAME], Recent(k, state, SHORT_MEMORY),
              FilterOf(weightdenum, mode, start), 0)
    else
      Request(Reverse(residual[off..off + Extra(mode)]), Recent(k, Reverse(state), SHORT_MEMORY),
              FilterOf(weightdenum, mode, start - 1), 0)
  }

  ghost predicate LaterFound<F(!new), S>(k: Kernel<F>, d: Decisions<F, S>, mode: Mode, residual: seq<F>,
                                         weightdenum: seq<F>, start: nat, block: seq<F>, codes: seq<Code>)
    requires ValidKernel(k) && EncoderStart(mode, start) && |codes| <= mode.Subframes() - start - 1
    requires |residual| == mode.FrameSamples() && |weightdenum| == COEFFICIENTS * mode.Subframes() && CodesFit(codes)
  {
    forall i: nat {:trigger codes[i]} | i < |codes| ::
      codes[i] == Found(d, LaterRequest(k, mode, residual, weightdenum, start, block, codes, i))
  }

  ghost predicate EarlierFound<F(!new), S>(k: Kernel<F>, d: Decisions<F, S>, mode: Mode, residual: seq<F>,
                                           weightdenum: seq<F>, start: nat, h0: seq<F>, codes: seq<Code>)
    requires ValidKernel(k) && EncoderStart(mode, start) && |codes| <= start - 1
    requires |residual| == mode.FrameSamples() && |weightdenum| == COEFFICIENTS * mode.Subframes() && CodesFit(codes)
  {
    forall i: nat {:trigger codes[i]} | i < |codes| ::
      codes[i] == Found(d, EarlierRequest(k, mode, residual, weightdenum, start, h0, codes, i))
  }

  /** A request depends only on the codes before its own. */
  lemma SameLaterRequest<F>(k: Kernel<F>, mode: Mode, residual: seq<F>, weightdenum: seq<F>, start: nat, block: seq<F>,
                            codes: seq<Code>, longer: seq<Code>, i: nat)
    requires ValidKernel(k) && EncoderStart(mode, start) && i < mode.Subframes() - start - 1
    requires |residual| == mode.FrameSamples() && |weightdenum| == COEFFICIENTS * mode.Subframes()
    requires CodesFit(codes) && CodesFit(longer) && i <= |codes| <= |longer| && longer[..i] == codes[..i]
    ensures LaterRequest(k, mode, residual, weightdenum, start, block, longer, i)
            == LaterRequest(k, mode, residual, weightdenum, start, block, codes, i)
  {
  }

  lemma SameEarlierRequest<F>(k: Kernel<F>, mode: Mode, residual: seq<F>, weightdenum: seq<F>, start: nat, h0: seq<F>,
                              codes: seq<Code>, longer: seq<Code>, i: nat)
    requires ValidKernel(k) && EncoderStart(mode, start) && i < start - 1
    requires |residual| == mode.FrameSamples() && |weightdenum| == COEFFICIENTS * mode.Subframes()
    requires CodesFit(codes) && CodesFit(longer) && i <= |codes| <= |longer| && longer[..i] == codes[..i]
    ensures EarlierRequest(k, mode, residual, weightdenum, start, h0, longer, i)
            == EarlierRequest(k, mode, residual, weightdenum, start, h0, codes, i)
  {
  }

  lemma OneMoreLater<F(!new), S>(k: Kernel<F>, d: Decisions<F, S>, mode: Mode, residual: seq<F>, weightdenum: seq<F>,
                                 start: nat, block: seq<F>, codes: seq<Code>, c: Code)
    requires ValidKernel(k) && EncoderStart(mode, start) && |codes| < mode.Subframes() - start - 1
    requires |residual| == mode.FrameSamples() && |weightdenum| == COEFFICIENTS * mode.Subframes()
    requires CodesFit(codes) && CodesFit(codes + [c])
    requires LaterFound(k, d, mode, residual, weightdenum, start, block, codes)
    requires c == Found(d, LaterRequest(k, mode, residual, weightdenum, start, block, codes, |codes|))
    ensures LaterFound(k, d, mode, residual, weightdenum, start, block, codes + [c])
  {
    hide LaterRequest, Found, CodesFit, ValidKernel;
    var longer := codes + [c];
    forall i: nat | i < |longer|
      ensures longer[i] == Found(d, LaterRequest(k, mode, residual, weightdenum, start, block, longer, i))
    {
      assert i < |codes| ==> longer[i] == codes[i];
      SameLaterRequest(k, mode, residual, weightdenum, start, block, codes, longer, i);
    }
  }

  lemma OneMoreEarlier<F(!new), S>(k: Kernel<F>, d: Decisions<F, S>, mode: Mode, residual: seq<F>,
                                   weightdenum: seq<F>, start: nat, h0: seq<F>, codes: seq<Code>, c: Code)
    requires ValidKernel(k) && EncoderStart(mode, start) && |codes| < start - 1
    requires |residual| == mode.FrameSamples() && |weightdenum| == COEFFICIENTS * mode.Subframes()
    requires CodesFit(codes) && CodesFit(codes + [c])
    requires EarlierFound(k, d, mode, residual, weightdenum, start, h0, codes)
    requires c == Found(d, EarlierRequest(k, mode, residual, weightdenum, start, h0, codes, |codes|))
    ensures EarlierFound(k, d, mode, residual, weightdenum, start, h0, codes + [c])
  {
    hide EarlierRequest, Found, CodesFit, ValidKernel;
    var longer := codes + [c];
    forall i: nat | i < |longer|
      ensures longer[i] == Found(d, EarlierRequest(k, mode, residual, weightdenum, start, h0, longer, i))
    {
      assert i < |codes| ==> longer[i] == codes[i];
      SameEarlierRequest(k, mode, residual, weightdenum, start, h0, codes, longer, i);
    }
  }

  // ---- The local decoding loop ----

  lemma GrownByOne<F>(k: Kernel<F>, h: seq<F>, codes: seq<Code>, c: Code)
    requires ValidKernel(k) && CodesFit(codes) && CodeFits(c, MEMORY, SUBFRAME)
    ensures CodesFit(codes + [c])
    ensures Grown(k, h, codes + [c]) == Extended(k, Grown(k, h, codes), c, MEMORY, SUBFRAME)
  {
    assert (codes + [c])[..|codes|] == codes;
  }

  /** One adaptive subframe: searchCodebook, constructCodebook, and the memory moved on. */
  method EncodeSubframe<F(0, !new), S>(k: Kernel<F>, d: Decisions<F, S>, mode: Mode, target: seq<F>, weights: seq<F>,
                                       block: nat, out: array<F>, at: nat, mem: array<F>, ghost h0: seq<F>,
                                       ghost codes: seq<Code>)
    returns (c: Code)
    requires ValidKernel(k) && Sound(d, mode) && CodesFit(codes) && block > 0
    requires |target| == SUBFRAME && |weights| == COEFFICIENTS
    requires at + SUBFRAME <= out.Length && mem.Length == MEMORY && mem != out
    requires mem[..] == Recent(k, Grown(k, h0, codes), MEMORY)
    modifies out, mem
    ensures c == Found(d, Request(target, old(mem[..]), weights, block))
    ensures AdaptiveInSpace(c, block - 1) && CodesFit(codes + [c])
    ensures var v := Constructed(k, Recent(k, Grown(k, h0, codes), MEMORY), c, SUBFRAME);
            && out[..] == Written(old(out[..]), at, v)
            && Grown(k, h0, codes + [c]) == Grown(k, h0, codes) + v
    ensures mem[..] == Recent(k, Grown(k, h0, codes + [c]), MEMORY)
  {
    var q := Request(target, mem[..], weights, block);
    FoundInSpace(d, mode, q);
    c := Found(d, q);
    NextSubframe(k, out, at, mem, c, Grown(k, h0, codes));
    GrownByOne(k, h0, codes, c);
  }

  /** The subframes after the start block. */
  method EncodeLater<F(0, !new), S>(k: Kernel<F>, d: Decisions<F, S>, mode: Mode, residual: seq<F>,
                                    weightdenum: seq<F>, start: nat, decresidual: array<F>, mem: array<F>,
                                    ghost block: seq<F>) returns (codes: seq<Code>)
    requires ValidKernel(k) && Sound(d, mode) && EncoderStart(mode, start) && |block| == 2 * SUBFRAME
    requires |residual| == mode.FrameSamples() && |weightdenum| == COEFFICIENTS * mode.Subframes()
    requires decresidual.Length == 240 && mem.Length == MEMORY && mem != decresidual
    requires decresidual[SUBFRAME * (start - 1)..][..2 * SUBFRAME] == block
    modifies decresidual, mem
    ensures |codes| == mode.Subframes() - start - 1 && CodesInSpace(codes) && CodesFit(codes)
    ensures LaterFound(k, d, mode, residual, weightdenum, start, block, codes)
    ensures decresidual[SUBFRAME * (start - 1)..][..SUBFRAME * (|codes| + 2)] == Grown(k, block, codes)
  {
    codes := [];
    ghost var before, off := decresidual[..], SUBFRAME * (start - 1);
    AlreadyWritten(before, off, block);
    if mode.Subframes() - start - 1 > 0 {
      FillForward(k, mem, decresidual[SUBFRAME * (start - 1)..][..2 * SUBFRAME]);
      codes := EncodeForward(k, d, mode, residual, weightdenum, start, decresidual, mem, block);
    }
    WrittenThere(before, off, Grown(k, block, codes));
  }

  method EncodeForward<F(0, !new), S>(k: Kernel<F>, d: Decisions<F, S>, mode: Mode, residual: seq<F>,
                                      weightdenum: seq<F>, start: nat, decresidual: array<F>, mem: array<F>,
                                      ghost block: seq<F>) returns (codes: seq<Code>)
    requires ValidKernel(k) && Sound(d, mode) && EncoderStart(mode, start) && |block| == 2 * SUBFRAME
    requires |residual| == mode.FrameSamples() && |weightdenum| == COEFFICIENTS * mode.Subframes()
    requires decresidual.Length == 240 && mem.Length == MEMORY && mem != decresidual
    requires Written(decresidual[..], SUBFRAME * (start - 1), block) == decresidual[..]
             && mem[..] == Recent(k, block, MEMORY)
    modifies decresidual, mem
    ensures |codes| == mode.Subframes() - start - 1 && CodesInSpace(codes) && CodesFit(codes)
    ensures LaterFound(k, d, mode, residual, weightdenum, start, block, codes)
    ensures decresidual[..] == Written(old(decresidual[..]), SUBFRAME * (start - 1), Grown(k, block, codes))
  {
    codes := [];
    assert CodesInSpace(codes) && CodesFit(codes);
    hide Constructed, Recent, LaterFound, Sound, LaterRequest, Found, FilterOf, InSpaceFrom, CodesFit;
    NoneLaterFound(k, d, mode, residual, weightdenum, start, block);
    ghost var before, off := decresidual[..], SUBFRAME * (start - 1);
    for i := 0 to mode.Subframes() - start - 1
      invariant |codes| == i && CodesInSpace(codes) && CodesFit(codes)
      invariant LaterFound(k, d, mode, residual, weightdenum, start, block, codes)
      invariant mem[..] == Recent(k, Grown(k, block, codes), MEMORY)
      invariant decresidual[..] == Written(before, off, Grown(k, block, codes))
    {
      var c := EncodeNext(k, d, mode, residual, weightdenum, start, decresidual, mem, block, codes, i, before);
      codes := codes + [c];
    }
  }

  /** One later subframe, added to those before it. */
  method EncodeNext<F(0, !new), S>(k: Kernel<F>, d: Decisions<F, S>, mode: Mode, residual: seq<F>, weightdenum: seq<F>,
                                   start: nat, decresidual: array<F>, mem: array<F>, ghost block: seq<F>,
                                   ghost codes: seq<Code>, i: nat, ghost before: seq<F>) returns (c: Code)
    requires ValidKernel(k) && Sound(d, mode) && EncoderStart(mode, start) && |block| == 2 * SUBFRAME
    requires |residual| == mode.FrameSamples() && |weightdenum| == COEFFICIENTS * mode.Subframes()
    requires decresidual.Length == 240 == |before| && mem.Length == MEMORY && mem != decresidual
    requires i == |codes| < mode.Subframes() - start - 1 && CodesInSpace(codes) && CodesFit(codes)
    requires LaterFound(k, d, mode, residual, weightdenum, start, block, codes)
    requires mem[..] == Recent(k, Grown(k, block, codes), MEMORY)
    requires decresidual[..] == Written(before, SUBFRAME * (start - 1), Grown(k, block, codes))
    modifies decresidual, mem
    ensures CodesInSpace(codes + [c]) && CodesFit(codes + [c])
    ensures LaterFound(k, d, mode, residual, weightdenum, start, block, codes + [c])
    ensures mem[..] == Recent(k, Grown(k, block, codes + [c]), MEMORY)
    ensures decresidual[..] == Written(before, SUBFRAME * (start - 1), Grown(k, block, codes + [c]))
  {
    hide Constructed, Recent, LaterFound, Sound, LaterRequest, Found, FilterOf, InSpaceFrom, Grown, AdaptiveInSpace,
         ValidKernel;
    var at := SUBFRAME * (start + 1 + i);
    ghost var h := Grown(k, block, codes);
    c := EncodeSubframe(k, d, mode, residual[at..at + SUBFRAME], FilterOf(weightdenum, mode, start + 1 + i), i + 1,
                        decresidual, at, mem, block, codes);
    WrittenAfter(before, SUBFRAME * (start - 1), h, Constructed(k, Recent(k, h, MEMORY), c, SUBFRAME));
    OneMoreInSpace(codes, 0, c);
    LaterRequestIs(k, mode, residual, weightdenum, start, block, codes);
    OneMoreLater(k, d, mode, residual, weightdenum, start, block, codes, c);
  }

  lemma NoneLaterFound<F(!new), S>(k: Kernel<F>, d: Decisions<F, S>, mode: Mode, residual: seq<F>,
                                   weightdenum: seq<F>, start: nat, block: seq<F>)
    requires ValidKernel(k) && EncoderStart(mode, start)
    requires |residual| == mode.FrameSamples() && |weightdenum| == COEFFICIENTS * mode.Subframes()
    ensures LaterFound(k, d, mode, residual, weightdenum, start, block, [])
  {
  }

  lemma LaterRequestIs<F>(k: Kernel<F>, mode: Mode, residual: seq<F>, weightdenum: seq<F>, start: nat, block: seq<F>,
                          codes: seq<Code>)
    requires ValidKernel(k) && EncoderStart(mode, start) && |codes| < mode.Subframes() - start - 1
    requires |residual| == mode.FrameSamples() && |weightdenum| == COEFFICIENTS * mode.Subframes() && CodesFit(codes)
    ensures var i, at := |codes|, SUBFRAME * (start + 1 + |codes|);
            LaterRequest(k, mode, residual, weightdenum, start, block, codes, i)
              == Request(residual[at..at + SUBFRAME], Recent(k, Grown(k, block, codes), MEMORY),
                         FilterOf(weightdenum, mode, start + 1 + i), i + 1)
  {
    assert codes[..|codes|] == codes;
  }

  /** The subframes before it, backwards in time. */
  method EncodeEarlier<F(0, !new), S>(k: Kernel<F>, d: Decisions<F, S>, mode: Mode, ghost residual: seq<F>,
                                      reverseResidual: seq<F>, weightdenum: seq<F>, start: nat, reverse: array<F>,
                                      mem: array<F>, ghost h0: seq<F>, first: nat)
    returns (codes: seq<Code>)
    requires ValidKernel(k) && Sound(d, mode) && EncoderStart(mode, start) && first == mode.Subframes() - start - 1
    requires |residual| == mode.FrameSamples() && reverseResidual == Reverse(residual[..SUBFRAME * (start - 1)])
    requires |weightdenum| == COEFFICIENTS * mode.Subframes()
    requires reverse.Length == 240 && mem.Length == MEMORY && mem != reverse && mem[..] == Recent(k, h0, MEMORY)
    modifies reverse, mem
    ensures |codes| == start - 1 && InSpaceFrom(codes, first) && CodesFit(codes)
    ensures EarlierFound(k, d, mode, residual, weightdenum, start, h0, codes)
    ensures Grown(k, h0, codes) == h0 + reverse[..SUBFRAME * (start - 1)]
  {
    codes := [];
    assert CodesFit(codes) && InSpaceFrom(codes, first);
    hide Constructed, Recent, EarlierFound, Sound, EarlierRequest, Found, FilterOf, Reverse, CodesFit, InSpaceFrom;
    NoneEarlierFound(k, d, mode, residual, weightdenum, start, h0);
    for i := 0 to start - 1
      invariant |codes| == i && CodesFit(codes) && InSpaceFrom(codes, first)
      invariant EarlierFound(k, d, mode, residual, weightdenum, start, h0, codes)
      invariant mem[..] == Recent(k, Grown(k, h0, codes), MEMORY)
      invariant Grown(k, h0, codes) == h0 + reverse[..SUBFRAME * i]
    {
      var c := EncodePrevious(k, d, mode, residual, reverseResidual, weightdenum, start, reverse, mem, h0, first, codes,
                              i);
      codes := codes + [c];
    }
  }

  /** One earlier subframe, added to those after it. */
  method EncodePrevious<F(0, !new), S>(k: Kernel<F>, d: Decisions<F, S>, mode: Mode, ghost residual: seq<F>,
                                       reverseResidual: seq<F>, weightdenum: seq<F>, start: nat, reverse: array<F>,
                                       mem: array<F>, ghost h0: seq<F>, first: nat, ghost codes: seq<Code>, i: nat)
    returns (c: Code)
    requires ValidKernel(k) && Sound(d, mode) && EncoderStart(mode, start) && first == mode.Subframes() - start - 1
    requires |residual| == mode.FrameSamples() && reverseResidual == Reverse(residual[..SUBFRAME * (start - 1)])
    requires |weightdenum| == COEFFICIENTS * mode.Subframes() && reverse.Length == 240
    requires mem.Length == MEMORY && mem != reverse
    requires i == |codes| < start - 1 && CodesFit(codes) && InSpaceFrom(codes, first)
    requires EarlierFound(k, d, mode, residual, weightdenum, start, h0, codes)
    requires mem[..] == Recent(k, Grown(k, h0, codes), MEMORY)
    requires Grown(k, h0, codes) == h0 + reverse[..SUBFRAME * i]
    modifies reverse, mem
    ensures CodesFit(codes + [c]) && InSpaceFrom(codes + [c], first)
    ensures EarlierFound(k, d, mode, residual, weightdenum, start, h0, codes + [c])
    ensures mem[..] == Recent(k, Grown(k, h0, codes + [c]), MEMORY)
    ensures Grown(k, h0, codes + [c]) == h0 + reverse[..SUBFRAME * (i + 1)]
  {
    hide Constructed, Recent, EarlierFound, Sound, EarlierRequest, Found, FilterOf, Reverse, InSpaceFrom, Grown,
         AdaptiveInSpace, ValidKernel;
    var at := SUBFRAME * i;
    ghost var s, h := reverse[..], Grown(k, h0, codes);
    c := EncodeSubframe(k, d, mode, reverseResidual[at..at + SUBFRAME], FilterOf(weightdenum, mode, start - 2 - i),
                        first + i + 1, reverse, at, mem, h0, codes);
    Longer(h0, s, reverse[..], at, Constructed(k, Recent(k, h, MEMORY), c, SUBFRAME));
    OneMoreInSpace(codes, first, c);
    EarlierRequestIs(k, mode, residual, weightdenum, start, h0, codes);
    OneMoreEarlier(k, d, mode, residual, weightdenum, start, h0, codes, c);
  }

  lemma NoneEarlierFound<F(!new), S>(k: Kernel<F>, d: Decisions<F, S>, mode: Mode, residual: seq<F>,
                                     weightdenum: seq<F>, start: nat, h0: seq<F>)
    requires ValidKernel(k) && EncoderStart(mode, start)
    requires |residual| == mode.FrameSamples() && |weightdenum| == COEFFICIENTS * mode.Subframes()
    ensures EarlierFound(k, d, mode, residual, weightdenum, start, h0, [])
  {
  }

  /** Part i of the reversed beginning is the reversed subframe start - 2 - i. */
  lemma ReversedPart<F>(residual: seq<F>, start: nat, i: nat)
    requires i + 1 < start && SUBFRAME * (start - 1) <= |residual|
    ensures Reverse(residual[..SUBFRAME * (start - 1)])[SUBFRAME * i..SUBFRAME * i + SUBFRAME]
            == Reverse(Subframe(residual, start - 2 - i))
  {
  }

  lemma EarlierRequestIs<F>(k: Kernel<F>, mode: Mode, residual: seq<F>, weightdenum: seq<F>, start: nat, h0: seq<F>,
                            codes: seq<Code>)
    requires ValidKernel(k) && EncoderStart(mode, start) && |codes| < start - 1
    requires |residual| == mode.FrameSamples() && |weightdenum| == COEFFICIENTS * mode.Subframes() && CodesFit(codes)
    ensures var i, r := |codes|, Reverse(residual[..SUBFRAME * (start - 1)]);
            EarlierRequest(k, mode, residual, weightdenum, start, h0, codes, i)
              == Request(r[SUBFRAME * i..SUBFRAME * i + SUBFRAME], Recent(k, Grown(k, h0, codes), MEMORY),
                         FilterOf(weightdenum, mode, start - 2 - i), mode.Subframes() - start + i)
  {
    assert codes[..|codes|] == codes;
    ReversedPart(residual, start, |codes|);
  }

  // ---- The frame ----

  function Indices(codes: seq<Code>): (s: seq<nat>)
    requires Complete(codes)
    ensures |s| == 3 * |codes|
  {
    if codes == [] then [] else Indices(codes[..|codes| - 1]) + codes[|codes| - 1].index
  }

  function GainIndices(codes: seq<Code>): (s: seq<nat>)
    requires Complete(codes)
    ensures |s| == 3 * |codes|
  {
    if codes == [] then [] else GainIndices(codes[..|codes| - 1]) + codes[|codes| - 1].gain
  }

  lemma {:induction false} IndicesAt(codes: seq<Code>, i: nat)
    requires i < |codes| && Complete(codes)
    ensures Indices(codes)[3 * i..3 * i + 3] == codes[i].index && GainIndices(codes)[3 * i..3 * i + 3] == codes[i].gain
  {
    var n := |codes| - 1;
    if i < n {
      IndicesAt(codes[..n], i);
      assert Indices(codes)[3 * i..3 * i + 3] == Indices(codes[..n])[3 * i..3 * i + 3];
      assert GainIndices(codes)[3 * i..3 * i + 3] == GainIndices(codes[..n])[3 * i..3 * i + 3];
    }
  }

  lemma CodesAre(cb: seq<nat>, gain: seq<nat>, codes: seq<Code>, lo: nat, hi: nat)
    requires lo <= hi <= |codes| && 3 * |codes| == |cb| == |gain|
    requires forall i: nat {:trigger CodeAt(cb, gain, i)} | i < |codes| :: CodeAt(cb, gain, i) == codes[i]
    ensures Codes(cb, gain, lo, hi) == codes[lo..hi]
  {
    forall i: nat | i < hi - lo
      ensures Codes(cb, gain, lo, hi)[i] == codes[lo..hi][i]
    {
      assert CodeAt(cb, gain, lo + i) == codes[lo + i];
    }
  }

  /** The choice of the start block and of its scalar part. */
  datatype Start = Start(start: nat, stateFirst: bool, scale: nat, state: seq<nat>)

  /** The scalar part's decisions look at its own samples and at the filters of the block's two subframes. */
  ghost predicate StartFound<F(!new), S>(d: Decisions<F, S>, mode: Mode, residual: seq<F>, syntdenum: seq<F>,
                                         weightdenum: seq<F>, c: Start)
    requires EncoderStart(mode, c.start) && |residual| == mode.FrameSamples()
    requires |syntdenum| == |weightdenum| == COEFFICIENTS * mode.Subframes()
  {
    var at := StatePosition(mode, c.start, c.stateFirst);
    var target := residual[at..at + mode.StateSamples()];
    var s, w := FilterPair(syntdenum, mode, c.start), FilterPair(weightdenum, mode, c.start);
    && c.start == d.classify(residual) && c.stateFirst == d.stateFirst(residual, c.start)
    && c.scale == d.scale(target, s, w, c.stateFirst) && |c.state| == mode.StateSamples()
    && forall i: nat | i < |c.state| :: c.state[i] == d.state(target, s, w, c.stateFirst, i)
  }

  method ChooseStart<F(0, !new), S>(d: Decisions<F, S>, mode: Mode, residual: seq<F>, syntdenum: seq<F>,
                                    weightdenum: seq<F>)
    returns (c: Start)
    requires Sound(d, mode) && |residual| == mode.FrameSamples()
    requires |syntdenum| == |weightdenum| == COEFFICIENTS * mode.Subframes()
    ensures EncoderStart(mode, c.start) && c.scale < 64 && |c.state| == mode.StateSamples() && Below(c.state, 8)
    ensures StartFound(d, mode, residual, syntdenum, weightdenum, c)
  {
    var start := d.classify(residual);
    var stateFirst := d.stateFirst(residual, start);
    var startPos := StatePosition(mode, start, stateFirst);
    var target := residual[startPos..startPos + mode.StateSamples()];
    var s, w := FilterPair(syntdenum, mode, start), FilterPair(weightdenum, mode, start);
    c := Start(start, stateFirst, d.scale(target, s, w, stateFirst),
               seq(mode.StateSamples(), i requires 0 <= i < mode.StateSamples() =>
                     d.state(target, s, w, stateFirst, i)));
  }

  /** The search for the rest of the start block, forwards or backwards in time. */
  method SearchExtra<F(0, !new), S>(k: Kernel<F>, d: Decisions<F, S>, mode: Mode, residual: seq<F>,
                                    weightdenum: seq<F>, start: nat, stateFirst: bool, memory: seq<F>,
                                    ghost state: seq<F>) returns (extra: Code)
    requires Sound(d, mode) && EncoderStart(mode, start) && |residual| == mode.FrameSamples()
    requires |weightdenum| == COEFFICIENTS * mode.Subframes() && |state| == mode.StateSamples()
    requires memory == Recent(k, if stateFirst then state else Reverse(state), SHORT_MEMORY)
    ensures CodeInSpace(extra, 0) && CodeFits(extra, SHORT_MEMORY, Extra(mode))
    ensures extra == Found(d, ExtraRequest(k, mode, residual, weightdenum, start, stateFirst, state))
  {
    var off, diff := SUBFRAME * (start - 1), Extra(mode);
    var q := if stateFirst then
               Request(residual[off + mode.StateSamples()..off + 2 * SUBFRAME], memory,
                       FilterOf(weightdenum, mode, start), 0)
             else
               Request(Reverse(residual[off..off + diff]), memory, FilterOf(weightdenum, mode, start - 1), 0);
    FoundInSpace(d, mode, q);
    extra := Found(d, q);
  }

  /** The fields before renumbering: every value in the range its search gives it. */
  ghost predicate Chosen(mode: Mode, f: Fields) {
    && HasShape(mode, f) && EncoderStart(mode, f.start) && f.stateFirst < 2 && StateFits(f.scale, f.state)
    && CodeInSpace(Code(f.extraCb, f.extraGain), 0)
    && forall i: nat {:trigger CodeAt(f.cb, f.gain, i)} | i < mode.AdaptiveSubframes() ::
         CodeInSpace(CodeAt(f.cb, f.gain, i), i + 1)
  }

  /** Collects what was chosen. */
  function Collected(lsf: seq<nat>, c: Start, extra: Code, codes: seq<Code>): Fields
    requires Complete(codes)
  {
    Fields(lsf, c.start, if c.stateFirst then 1 else 0, c.scale, c.state, extra.index, extra.gain, Indices(codes),
           GainIndices(codes))
  }

  lemma CollectedIsChosen(mode: Mode, lsf: seq<nat>, c: Start, extra: Code, later: seq<Code>, earlier: seq<Code>)
    requires |lsf| == 3 * mode.Analyses()
    requires EncoderStart(mode, c.start) && c.scale < 64 && |c.state| == mode.StateSamples() && Below(c.state, 8)
    requires CodeInSpace(extra, 0) && CodeFits(extra, SHORT_MEMORY, Extra(mode))
    requires |later| == mode.Subframes() - c.start - 1 && |earlier| == c.start - 1 && CodesInSpace(later + earlier)
    ensures var f := Collected(lsf, c, extra, later + earlier);
            && Chosen(mode, f) && Playable(mode, f)
            && Codes(f.cb, f.gain, 0, |later|) == later
            && Codes(f.cb, f.gain, |later|, mode.AdaptiveSubframes()) == earlier
  {
    var codes := later + earlier;
    var f := Collected(lsf, c, extra, codes);
    forall i: nat | i < mode.AdaptiveSubframes()
      ensures CodeAt(f.cb, f.gain, i) == codes[i] && AdaptiveInSpace(codes[i], i)
    {
      IndicesAt(codes, i);
      assert InSpaceAt(codes, 0, i);
    }
    assert Code(f.extraCb, f.extraGain) == extra;
    CodesAre(f.cb, f.gain, codes, 0, |later|);
    CodesAre(f.cb, f.gain, codes, |later|, |codes|);
    assert codes[..|later|] == later && codes[|later|..] == earlier;
  }

  lemma CollectedResidual<F>(k: Kernel<F>, mode: Mode, lsf: seq<nat>, c: Start, extra: Code, later: seq<Code>,
                             earlier: seq<Code>, syntdenum: seq<F>)
    requires ValidKernel(k) && |lsf| == 3 * mode.Analyses() && |syntdenum| == COEFFICIENTS * mode.Subframes()
    requires EncoderStart(mode, c.start) && c.scale < 64 && |c.state| == mode.StateSamples() && Below(c.state, 8)
    requires CodeInSpace(extra, 0) && CodeFits(extra, SHORT_MEMORY, Extra(mode))
    requires |later| == mode.Subframes() - c.start - 1 && |earlier| == c.start - 1 && CodesInSpace(later + earlier)
    requires CodesFit(later) && CodesFit(earlier)
    ensures var f, synt := Collected(lsf, c, extra, later + earlier),
              syntdenum[COEFFICIENTS * (c.start - 1)..COEFFICIENTS * c.start];
            && Chosen(mode, f) && Playable(mode, f)
            && Residual(k, mode, f, syntdenum)
               == Around(k, Block(k, mode, State(k, mode, c.scale, c.state, synt), c.stateFirst, extra), later, earlier)
  {
    CollectedIsChosen(mode, lsf, c, extra, later, earlier);
    assert Code(extra.index, extra.gain) == extra;
  }

  // ---- Analysis by synthesis, in the order of time ----

  /** What the search for subframe n looks at, for a frame whose local reconstruction is `decoded`: the subframe's own
      samples and filter, and the nearest reconstructed samples on the side of the start block. Before the block, time
      runs backwards. */
  function RequestAt<F>(k: Kernel<F>, mode: Mode, residual: seq<F>, decoded: seq<F>, weightdenum: seq<F>, start: nat,
                        n: nat): Request<F>
    requires EncoderStart(mode, start) && |residual| == |decoded| == mode.FrameSamples()
    requires |weightdenum| == COEFFICIENTS * mode.Subframes() && n < mode.Subframes() && (n + 1 < start || n > start)
  {
    if n > start then
      Request(Subframe(residual, n), Recent(k, decoded[SUBFRAME * (start - 1)..SUBFRAME * n], MEMORY),
              FilterOf(weightdenum, mode, n), n - start)
    else
      Request(Reverse(Subframe(residual, n)), Recent(k, Reverse(decoded[SUBFRAME * (n + 1)..]), MEMORY),
              FilterOf(weightdenum, mode, n), mode.Subframes() - 2 - n)
  }

  /** Subframe n carries the code that its own search found, and is reconstructed from it over the same memory. */
  ghost predicate CodedAt<F(!new), S>(k: Kernel<F>, d: Decisions<F, S>, mode: Mode, residual: seq<F>,
                                      weightdenum: seq<F>, f: Fields, decoded: seq<F>, n: nat)
    requires ValidKernel(k) && Playable(mode, f) && |residual| == |decoded| == mode.FrameSamples()
    requires |weightdenum| == COEFFICIENTS * mode.Subframes() && n < mode.Subframes()
             && (n + 1 < f.start || n > f.start)
  {
    var q := RequestAt(k, mode, residual, decoded, weightdenum, f.start, n);
    var c := CodeAt(f.cb, f.gain, q.block - 1);
    && c == Found(d, q)
    && Constructed(k, q.memory, c, SUBFRAME)
       == if n > f.start then Subframe(decoded, n) else Reverse(Subframe(decoded, n))
  }

  /** The start block carries what the classifier, the scalar quantiser and the search for its rest decide on its own
      samples. */
  ghost predicate StartCoded<F(!new), S>(k: Kernel<F>, d: Decisions<F, S>, mode: Mode, residual: seq<F>,
                                         syntdenum: seq<F>, weightdenum: seq<F>, f: Fields, decoded: seq<F>)
    requires Playable(mode, f) && |residual| == |decoded| == mode.FrameSamples()
    requires |syntdenum| == |weightdenum| == COEFFICIENTS * mode.Subframes()
  {
    var at := StatePosition(mode, f.start, f.stateFirst == 1);
    && StartFound(d, mode, residual, syntdenum, weightdenum, Start(f.start, f.stateFirst == 1, f.scale, f.state))
    && Code(f.extraCb, f.extraGain)
       == Found(d, ExtraRequest(k, mode, residual, weightdenum, f.start, f.stateFirst == 1,
                                decoded[at..at + mode.StateSamples()]))
  }

  /** Every field is the decision about its own samples. */
  ghost predicate Analysed<F(!new), S>(k: Kernel<F>, d: Decisions<F, S>, mode: Mode, residual: seq<F>,
                                       syntdenum: seq<F>, weightdenum: seq<F>, f: Fields, decoded: seq<F>)
    requires ValidKernel(k) && Playable(mode, f) && |residual| == |decoded| == mode.FrameSamples()
    requires |syntdenum| == |weightdenum| == COEFFICIENTS * mode.Subframes()
  {
    && StartCoded(k, d, mode, residual, syntdenum, weightdenum, f, decoded)
    && forall n: nat {:trigger CodedAt(k, d, mode, residual, weightdenum, f, decoded, n)}
         | n < mode.Subframes() && (n + 1 < f.start || n > f.start) ::
         CodedAt(k, d, mode, residual, weightdenum, f, decoded, n)
  }

  lemma {:induction false} GrownPrefix<F>(k: Kernel<F>, h: seq<F>, codes: seq<Code>, i: nat)
    requires ValidKernel(k) && CodesFit(codes) && i <= |codes|
    ensures CodesFit(codes[..i]) && Grown(k, h, codes[..i]) == Grown(k, h, codes)[..|h| + SUBFRAME * i]
    decreases |codes|
  {
    if i == |codes| {
      assert codes[..i] == codes;
    } else {
      var last := |codes| - 1;
      GrownPrefix(k, h, codes[..last], i);
      assert codes[..last][..i] == codes[..i];
    }
  }

  /** The next vector of a growing history. */
  lemma GrownNext<F>(k: Kernel<F>, h: seq<F>, codes: seq<Code>, i: nat)
    requires ValidKernel(k) && CodesFit(codes) && i < |codes|
    ensures var g, at := Grown(k, h, codes), |h| + SUBFRAME * i;
            && CodesFit(codes[..i]) && Grown(k, h, codes[..i]) == g[..at]
            && g[at..at + SUBFRAME] == Constructed(k, Recent(k, g[..at], MEMORY), codes[i], SUBFRAME)
  {
    GrownPrefix(k, h, codes, i);
    GrownPrefix(k, h, codes, i + 1);
    GrownStep(k, h, codes, i);
    var g, at := Grown(k, h, codes), |h| + SUBFRAME * i;
    assert g[..at + SUBFRAME][at..] == g[at..at + SUBFRAME];
  }

  lemma ReversedEnd<T>(back: seq<T>, g: seq<T>)
    requires |g| <= |back| && back[..|g|] == Reverse(g)
    ensures Reverse(back)[|back| - |g|..] == g && Reverse(Reverse(back)) == back
  {
    forall j | 0 <= j < |g|
      ensures Reverse(back)[|back| - |g|..][j] == g[j]
    {
      assert back[|g| - 1 - j] == back[..|g|][|g| - 1 - j];
    }
  }

  /** Where the parts of the frame lie. */
  lemma AroundParts<F>(k: Kernel<F>, block: seq<F>, later: seq<Code>, earlier: seq<Code>)
    requires ValidKernel(k) && CodesFit(later) && CodesFit(earlier)
    ensures var off, r := SUBFRAME * |earlier|, Around(k, block, later, earlier);
            && r[off..] == Grown(k, block, later) && r[off..off + |block|] == block
            && Reverse(r) == Grown(k, Reverse(Grown(k, block, later)), earlier)
  {
    hide Grown, CodesFit, ValidKernel, Reverse;
    var g := Grown(k, block, later);
    GrownKeeps(k, block, later);
    GrownKeeps(k, Reverse(g), earlier);
    var back := Grown(k, Reverse(g), earlier);
    assert Around(k, block, later, earlier) == Reverse(back) && |back| - |g| == SUBFRAME * |earlier|;
    ReversedEnd(back, g);
    SliceOfEnd(Around(k, block, later, earlier), SUBFRAME * |earlier|, |block|);
  }

  lemma SliceOfEnd<T>(r: seq<T>, off: nat, n: nat)
    requires off + n <= |r|
    ensures r[off..off + n] == r[off..][..n]
  {
  }

  /** The parts of the forward history that subframe n is made of. */
  lemma ForwardParts<F>(decoded: seq<F>, g: seq<F>, start: nat, n: nat)
    requires 1 <= start < n && SUBFRAME * (n + 1) <= |decoded| && decoded[SUBFRAME * (start - 1)..] == g
    ensures var at := SUBFRAME * (n - start + 1);
            && decoded[SUBFRAME * (start - 1)..SUBFRAME * n] == g[..at] && Subframe(decoded, n) == g[at..at + SUBFRAME]
  {
    var off, at := SUBFRAME * (start - 1), SUBFRAME * (n - start + 1);
    assert decoded[off..][..at] == decoded[off..off + at];
    assert decoded[off..][at..at + SUBFRAME] == decoded[off + at..off + at + SUBFRAME];
  }

  /** The parts of the backward history that subframe n is made of. */
  lemma BackwardParts<F>(decoded: seq<F>, n: nat)
    requires SUBFRAME * (n + 1) <= |decoded|
    ensures var g, at := Reverse(decoded), |decoded| - SUBFRAME * (n + 1);
            && Reverse(decoded[SUBFRAME * (n + 1)..]) == g[..at]
            && Reverse(Subframe(decoded, n)) == g[at..at + SUBFRAME]
  {
  }

  /** The codes of a frame and the local reconstruction that they denote. */
  ghost predicate Parts<F>(k: Kernel<F>, mode: Mode, f: Fields, block: seq<F>, later: seq<Code>, earlier: seq<Code>,
                           decoded: seq<F>)
    requires ValidKernel(k) && Playable(mode, f)
  {
    && CodesFit(later) && CodesFit(earlier) && |later| == mode.Subframes() - f.start - 1 && |earlier| == f.start - 1
    && |block| == 2 * SUBFRAME && |decoded| == mode.FrameSamples() && decoded == Around(k, block, later, earlier)
    && Codes(f.cb, f.gain, 0, |later|) == later && Codes(f.cb, f.gain, |later|, mode.AdaptiveSubframes()) == earlier
  }

  lemma LaterCoded<F(!new), S>(k: Kernel<F>, d: Decisions<F, S>, mode: Mode, residual: seq<F>, weightdenum: seq<F>,
                               f: Fields, block: seq<F>, later: seq<Code>, earlier: seq<Code>, decoded: seq<F>, n: nat)
    requires ValidKernel(k) && Playable(mode, f) && Parts(k, mode, f, block, later, earlier, decoded)
    requires |residual| == mode.FrameSamples() && |weightdenum| == COEFFICIENTS * mode.Subframes()
    requires f.start < n < mode.Subframes()
    requires var i := n - f.start - 1;
             later[i] == Found(d, LaterRequest(k, mode, residual, weightdenum, f.start, block, later, i))
    ensures CodedAt(k, d, mode, residual, weightdenum, f, decoded, n)
  {
    var i := n - f.start - 1;
    LaterParts(k, mode, f, block, later, earlier, decoded, n);
    LaterRequestAt(k, mode, residual, weightdenum, f.start, block, later, decoded, n);
    hide Grown, Around, Constructed, Recent, Found, Reverse, Subframe, Codes, CodeAt, CodesFit, Parts;
  }

  lemma LaterRequestAt<F>(k: Kernel<F>, mode: Mode, residual: seq<F>, weightdenum: seq<F>, start: nat, block: seq<F>,
                          later: seq<Code>, decoded: seq<F>, n: nat)
    requires ValidKernel(k) && EncoderStart(mode, start) && start < n < mode.Subframes()
    requires |residual| == |decoded| == mode.FrameSamples() && |weightdenum| == COEFFICIENTS * mode.Subframes()
    requires CodesFit(later) && n - start - 1 <= |later| && CodesFit(later[..n - start - 1])
    requires decoded[SUBFRAME * (start - 1)..SUBFRAME * n] == Grown(k, block, later[..n - start - 1])
    ensures RequestAt(k, mode, residual, decoded, weightdenum, start, n)
            == LaterRequest(k, mode, residual, weightdenum, start, block, later, n - start - 1)
  {
    hide Grown, Recent, FilterOf, Subframe;
  }

  lemma CodeInRange(f: Fields, codes: seq<Code>, lo: nat, hi: nat, i: nat)
    requires lo <= hi && 3 * hi <= |f.cb| && 3 * hi <= |f.gain| && Codes(f.cb, f.gain, lo, hi) == codes && i < hi - lo
    ensures CodeAt(f.cb, f.gain, lo + i) == codes[i]
  {
    assert Codes(f.cb, f.gain, lo, hi)[i] == codes[i];
  }

  /** The forward history at subframe n of the frame. */
  lemma LaterParts<F>(k: Kernel<F>, mode: Mode, f: Fields, block: seq<F>, later: seq<Code>, earlier: seq<Code>,
                      decoded: seq<F>, n: nat)
    requires ValidKernel(k) && Playable(mode, f) && Parts(k, mode, f, block, later, earlier, decoded)
    requires f.start < n < mode.Subframes()
    ensures var i := n - f.start - 1;
            && CodesFit(later[..i])
            && decoded[SUBFRAME * (f.start - 1)..SUBFRAME * n] == Grown(k, block, later[..i])
            && Subframe(decoded, n)
               == Constructed(k, Recent(k, Grown(k, block, later[..i]), MEMORY), later[i], SUBFRAME)
            && CodeAt(f.cb, f.gain, i) == later[i]
  {
    hide Constructed, Recent, Reverse, Subframe, CodesFit, CodeAt, Codes;
    var i, g := n - f.start - 1, Grown(k, block, later);
    AroundParts(k, block, later, earlier);
    ForwardParts(decoded, g, f.start, n);
    GrownNext(k, block, later, i);
    CodeInRange(f, later, 0, |later|, i);
  }

  /** The backward history at subframe n of the frame. */
  lemma EarlierParts<F>(k: Kernel<F>, mode: Mode, f: Fields, block: seq<F>, later: seq<Code>, earlier: seq<Code>,
                        decoded: seq<F>, n: nat)
    requires ValidKernel(k) && Playable(mode, f) && Parts(k, mode, f, block, later, earlier, decoded) && n + 1 < f.start
    ensures var i, h0 := f.start - 2 - n, Reverse(Grown(k, block, later));
            && CodesFit(earlier[..i]) && Reverse(decoded[SUBFRAME * (n + 1)..]) == Grown(k, h0, earlier[..i])
            && Reverse(Subframe(decoded, n))
               == Constructed(k, Recent(k, Grown(k, h0, earlier[..i]), MEMORY), earlier[i], SUBFRAME)
            && CodeAt(f.cb, f.gain, |later| + i) == earlier[i]
  {
    hide Constructed, Recent, Reverse, Subframe, CodesFit, CodeAt, Codes;
    var i, h0 := f.start - 2 - n, Reverse(Grown(k, block, later));
    AroundParts(k, block, later, earlier);
    BackwardParts(decoded, n);
    GrownNext(k, h0, earlier, i);
    CodeInRange(f, earlier, |later|, mode.AdaptiveSubframes(), i);
    assert |decoded| - SUBFRAME * (n + 1) == |h0| + SUBFRAME * i;
  }

  lemma EarlierCoded<F(!new), S>(k: Kernel<F>, d: Decisions<F, S>, mode: Mode, residual: seq<F>, weightdenum: seq<F>,
                                 f: Fields, block: seq<F>, later: seq<Code>, earlier: seq<Code>, decoded: seq<F>,
                                 n: nat)
    requires ValidKernel(k) && Playable(mode, f) && Parts(k, mode, f, block, later, earlier, decoded)
    requires |residual| == mode.FrameSamples() && |weightdenum| == COEFFICIENTS * mode.Subframes() && n + 1 < f.start
    requires var i, h0 := f.start - 2 - n, Reverse(Grown(k, block, later));
             earlier[i] == Found(d, EarlierRequest(k, mode, residual, weightdenum, f.start, h0, earlier, i))
    ensures CodedAt(k, d, mode, residual, weightdenum, f, decoded, n)
  {
    var i, h0 := f.start - 2 - n, Reverse(Grown(k, block, later));
    EarlierParts(k, mode, f, block, later, earlier, decoded, n);
    EarlierRequestAt(k, mode, residual, weightdenum, f.start, h0, earlier, decoded, n);
    hide Grown, Around, Constructed, Recent, Found, Reverse, Subframe, Codes, CodeAt, CodesFit, Parts;
  }

  lemma EarlierRequestAt<F>(k: Kernel<F>, mode: Mode, residual: seq<F>, weightdenum: seq<F>, start: nat, h0: seq<F>,
                            earlier: seq<Code>, decoded: seq<F>, n: nat)
    requires ValidKernel(k) && EncoderStart(mode, start) && n + 1 < start
    requires |residual| == |decoded| == mode.FrameSamples() && |weightdenum| == COEFFICIENTS * mode.Subframes()
    requires CodesFit(earlier) && start - 2 - n <= |earlier| && CodesFit(earlier[..start - 2 - n])
    requires Reverse(decoded[SUBFRAME * (n + 1)..]) == Grown(k, h0, earlier[..start - 2 - n])
    ensures RequestAt(k, mode, residual, decoded, weightdenum, start, n)
            == EarlierRequest(k, mode, residual, weightdenum, start, h0, earlier, start - 2 - n)
  {
    hide Grown, Recent, FilterOf, Subframe, Reverse;
  }

  /** The scalar part of the block is reconstructed at its own place. */
  lemma ScalarPart<F>(k: Kernel<F>, mode: Mode, start: nat, stateFirst: bool, state: seq<F>, extra: Code,
                      decoded: seq<F>)
    requires ValidKernel(k) && EncoderStart(mode, start) && |state| == mode.StateSamples()
    requires CodeFits(extra, SHORT_MEMORY, Extra(mode)) && |decoded| == mode.FrameSamples()
    requires decoded[SUBFRAME * (start - 1)..SUBFRAME * (start + 1)] == Block(k, mode, state, stateFirst, extra)
    ensures var at := StatePosition(mode, start, stateFirst); decoded[at..at + mode.StateSamples()] == state
  {
    var off, block := SUBFRAME * (start - 1), Block(k, mode, state, stateFirst, extra);
    var at := StatePosition(mode, start, stateFirst) - off;
    SliceOfSlice(decoded, off, 2 * SUBFRAME, at, |state|);
    if !stateFirst {
      var v := Constructed(k, Recent(k, Reverse(state), SHORT_MEMORY), extra, Extra(mode));
      hide Constructed, Recent;
      ReverseBlock(state, v);
    }
  }

  lemma LaterFoundAt<F(!new), S>(k: Kernel<F>, d: Decisions<F, S>, mode: Mode, residual: seq<F>, weightdenum: seq<F>,
                                 start: nat, block: seq<F>, codes: seq<Code>, i: nat)
    requires ValidKernel(k) && EncoderStart(mode, start) && i < |codes| <= mode.Subframes() - start - 1
    requires |residual| == mode.FrameSamples() && |weightdenum| == COEFFICIENTS * mode.Subframes() && CodesFit(codes)
    requires LaterFound(k, d, mode, residual, weightdenum, start, block, codes)
    ensures codes[i] == Found(d, LaterRequest(k, mode, residual, weightdenum, start, block, codes, i))
  {
  }

  lemma EarlierFoundAt<F(!new), S>(k: Kernel<F>, d: Decisions<F, S>, mode: Mode, residual: seq<F>, weightdenum: seq<F>,
                                   start: nat, h0: seq<F>, codes: seq<Code>, i: nat)
    requires ValidKernel(k) && EncoderStart(mode, start) && i < |codes| <= start - 1
    requires |residual| == mode.FrameSamples() && |weightdenum| == COEFFICIENTS * mode.Subframes() && CodesFit(codes)
    requires EarlierFound(k, d, mode, residual, weightdenum, start, h0, codes)
    ensures codes[i] == Found(d, EarlierRequest(k, mode, residual, weightdenum, start, h0, codes, i))
  {
  }

  /** All of a frame's fields, from the parts that were searched. */
  lemma PartsAreAnalysed<F(!new), S>(k: Kernel<F>, d: Decisions<F, S>, mode: Mode, lsf: seq<nat>, residual: seq<F>,
                                     syntdenum: seq<F>, weightdenum: seq<F>, c: Start, state: seq<F>, extra: Code,
                                     later: seq<Code>, earlier: seq<Code>, decoded: seq<F>)
    requires ValidKernel(k) && |lsf| == 3 * mode.Analyses() && |residual| == |decoded| == mode.FrameSamples()
    requires |syntdenum| == |weightdenum| == COEFFICIENTS * mode.Subframes() && |state| == mode.StateSamples()
    requires EncoderStart(mode, c.start) && c.scale < 64 && |c.state| == mode.StateSamples() && Below(c.state, 8)
    requires StartFound(d, mode, residual, syntdenum, weightdenum, c)
    requires CodeInSpace(extra, 0) && CodeFits(extra, SHORT_MEMORY, Extra(mode))
    requires extra == Found(d, ExtraRequest(k, mode, residual, weightdenum, c.start, c.stateFirst, state))
    requires |later| == mode.Subframes() - c.start - 1 && |earlier| == c.start - 1 && CodesInSpace(later + earlier)
    requires CodesFit(later) && CodesFit(earlier)
    requires var block := Block(k, mode, state, c.stateFirst, extra);
             && LaterFound(k, d, mode, residual, weightdenum, c.start, block, later)
             && EarlierFound(k, d, mode, residual, weightdenum, c.start, Reverse(Grown(k, block, later)), earlier)
             && decoded == Around(k, block, later, earlier)
    ensures var f := Collected(lsf, c, extra, later + earlier);
            Playable(mode, f) && Analysed(k, d, mode, residual, syntdenum, weightdenum, f, decoded)
  {
    var f, block := Collected(lsf, c, extra, later + earlier), Block(k, mode, state, c.stateFirst, extra);
    hide Grown, Block, Around, Found, StartFound, LaterFound, EarlierFound, ExtraRequest, CodeInSpace, CodeFits,
      CodedAt,
         Reverse, Codes, CodesFit, Playable, Chosen, CodesInSpace, InSpaceFrom, StartCoded, ValidKernel;
    CollectedIsChosen(mode, lsf, c, extra, later, earlier);
    assert Parts(k, mode, f, block, later, earlier, decoded);
    StartIsCoded(k, d, mode, residual, syntdenum, weightdenum, c, state, extra, f, later, earlier, decoded);
    forall n: nat | n < mode.Subframes() && (n + 1 < f.start || n > f.start)
      ensures CodedAt(k, d, mode, residual, weightdenum, f, decoded, n)
    {
      AdaptiveIsCoded(k, d, mode, residual, weightdenum, f, block, later, earlier, decoded, n);
    }
  }

  lemma AdaptiveIsCoded<F(!new), S>(k: Kernel<F>, d: Decisions<F, S>, mode: Mode, residual: seq<F>,
                                    weightdenum: seq<F>, f: Fields, block: seq<F>, later: seq<Code>,
                                    earlier: seq<Code>, decoded: seq<F>, n: nat)
    requires ValidKernel(k) && Playable(mode, f) && Parts(k, mode, f, block, later, earlier, decoded)
    requires |residual| == mode.FrameSamples() && |weightdenum| == COEFFICIENTS * mode.Subframes()
    requires LaterFound(k, d, mode, residual, weightdenum, f.start, block, later)
    requires EarlierFound(k, d, mode, residual, weightdenum, f.start, Reverse(Grown(k, block, later)), earlier)
    requires n < mode.Subframes() && (n + 1 < f.start || n > f.start)
    ensures CodedAt(k, d, mode, residual, weightdenum, f, decoded, n)
  {
    hide Grown, Found, LaterFound, EarlierFound, LaterRequest, EarlierRequest, CodedAt, Reverse, Around, Codes;
    if n > f.start {
      LaterFoundAt(k, d, mode, residual, weightdenum, f.start, block, later, n - f.start - 1);
      LaterCoded(k, d, mode, residual, weightdenum, f, block, later, earlier, decoded, n);
    } else {
      EarlierFoundAt(k, d, mode, residual, weightdenum, f.start, Reverse(Grown(k, block, later)), earlier,
                     f.start - 2 - n);
      EarlierCoded(k, d, mode, residual, weightdenum, f, block, later, earlier, decoded, n);
    }
  }

  lemma StartIsCoded<F(!new), S>(k: Kernel<F>, d: Decisions<F, S>, mode: Mode, residual: seq<F>, syntdenum: seq<F>,
                                 weightdenum: seq<F>, c: Start, state: seq<F>, extra: Code, f: Fields,
                                 later: seq<Code>, earlier: seq<Code>, decoded: seq<F>)
    requires ValidKernel(k) && Playable(mode, f) && |residual| == |decoded| == mode.FrameSamples()
    requires |syntdenum| == |weightdenum| == COEFFICIENTS * mode.Subframes() && |state| == mode.StateSamples()
    requires EncoderStart(mode, c.start) && CodesFit(later) && CodesFit(earlier) && |earlier| == c.start - 1
    requires StartFound(d, mode, residual, syntdenum, weightdenum, c)
    requires CodeFits(extra, SHORT_MEMORY, Extra(mode))
    requires extra == Found(d, ExtraRequest(k, mode, residual, weightdenum, c.start, c.stateFirst, state))
    requires decoded == Around(k, Block(k, mode, state, c.stateFirst, extra), later, earlier)
    requires f.start == c.start && f.stateFirst == (if c.stateFirst then 1 else 0) && f.scale == c.scale
             && f.state == c.state && Code(f.extraCb, f.extraGain) == extra
    ensures StartCoded(k, d, mode, residual, syntdenum, weightdenum, f, decoded)
  {
    var block := Block(k, mode, state, c.stateFirst, extra);
    hide Grown, Block, Around, Found, StartFound, ExtraRequest, CodeFits, Reverse, CodesFit, ValidKernel, Playable;
    AroundParts(k, block, later, earlier);
    ScalarPart(k, mode, c.start, c.stateFirst, state, extra, decoded);
    assert Start(f.start, f.stateFirst == 1, f.scale, f.state) == c;
  }

  /** encodeFrame's middle part: the start block, then the subframes after and before it, each searched over the local
      reconstruction. Every field is the decision about its own samples, and whatever is decided, the reconstruction is
      the excitation that the fields denote. */
  method EncodeResidual<F(0, !new), S>(k: Kernel<F>, d: Decisions<F, S>, mode: Mode, lsf: seq<nat>, residual: seq<F>,
                                       syntdenum: seq<F>, weightdenum: seq<F>)
    returns (f: Fields, decresidual: array<F>)
    requires ValidKernel(k) && Sound(d, mode) && |lsf| == 3 * mode.Analyses() && |residual| == mode.FrameSamples()
    requires |syntdenum| == |weightdenum| == COEFFICIENTS * mode.Subframes()
    ensures f.lsf == lsf && Chosen(mode, f) && Playable(mode, f) && fresh(decresidual) && decresidual.Length == 240
    ensures decresidual[..mode.FrameSamples()] == Residual(k, mode, f, syntdenum)
    ensures Analysed(k, d, mode, residual, syntdenum, weightdenum, f, decresidual[..mode.FrameSamples()])
  {
    hide StartFound, LaterFound, EarlierFound, ExtraRequest, Sound, Analysed, Grown, Around, Found;
    decresidual := new F[240](i => k.ar.zero);
    var reverse, mem := new F[240](i => k.ar.zero), new F[MEMORY](i => k.ar.zero);
    var c := ChooseStart(d, mode, residual, syntdenum, weightdenum);
    var synt := syntdenum[COEFFICIENTS * (c.start - 1)..COEFFICIENTS * c.start];
    var extra, block := EncodeBlock(k, d, mode, residual, weightdenum, synt, c, decresidual, reverse, mem);
    var later, earlier := EncodeAround(k, d, mode, residual, weightdenum, c.start, decresidual, reverse, mem, block);
    f := Collected(lsf, c, extra, later + earlier);
    CollectedResidual(k, mode, lsf, c, extra, later, earlier, syntdenum);
    PartsAreAnalysed(k, d, mode, lsf, residual, syntdenum, weightdenum, c, State(k, mode, c.scale, c.state, synt),
                     extra, later, earlier, decresidual[..mode.FrameSamples()]);
  }

  /** The start block. */
  method EncodeBlock<F(0, !new), S>(k: Kernel<F>, d: Decisions<F, S>, mode: Mode, residual: seq<F>,
                                    weightdenum: seq<F>, synt: seq<F>, c: Start, decresidual: array<F>,
                                    reverse: array<F>, mem: array<F>)
    returns (extra: Code, ghost block: seq<F>)
    requires ValidKernel(k) && Sound(d, mode) && EncoderStart(mode, c.start) && |residual| == mode.FrameSamples()
    requires |weightdenum| == COEFFICIENTS * mode.Subframes()
    requires StateFits(c.scale, c.state) && |c.state| == mode.StateSamples()
    requires decresidual.Length == 240 && reverse.Length == 240 && mem.Length == MEMORY
    requires mem != decresidual && reverse != decresidual && reverse != mem
    modifies decresidual, reverse, mem
    ensures CodeInSpace(extra, 0) && CodeFits(extra, SHORT_MEMORY, Extra(mode))
    ensures extra == Found(d, ExtraRequest(k, mode, residual, weightdenum, c.start, c.stateFirst,
                                           State(k, mode, c.scale, c.state, synt)))
    ensures block == Block(k, mode, State(k, mode, c.scale, c.state, synt), c.stateFirst, extra)
    ensures decresidual[SUBFRAME * (c.start - 1)..][..2 * SUBFRAME] == block
  {
    ghost var state := State(k, mode, c.scale, c.state, synt);
    BeginBlock(k, mode, decresidual, mem, c.start, c.stateFirst, c.scale, c.state, synt);
    ShortMemory(k, if c.stateFirst then state else Reverse(state));
    extra := SearchExtra(k, d, mode, residual, weightdenum, c.start, c.stateFirst, mem[MEMORY - SHORT_MEMORY..], state);
    EndBlock(k, mode, decresidual, reverse, mem, c.start, c.stateFirst, extra, state);
    block := Block(k, mode, state, c.stateFirst, extra);
  }

  /** The adaptive subframes around the start block. */
  method EncodeAround<F(0, !new), S>(k: Kernel<F>, d: Decisions<F, S>, mode: Mode, residual: seq<F>,
                                     weightdenum: seq<F>, start: nat, decresidual: array<F>, reverse: array<F>,
                                     mem: array<F>, ghost block: seq<F>)
    returns (later: seq<Code>, earlier: seq<Code>)
    requires ValidKernel(k) && Sound(d, mode) && EncoderStart(mode, start) && |block| == 2 * SUBFRAME
    requires |residual| == mode.FrameSamples() && |weightdenum| == COEFFICIENTS * mode.Subframes()
    requires decresidual.Length == 240 && reverse.Length == 240 && mem.Length == MEMORY
    requires mem != decresidual && reverse != decresidual && reverse != mem
    requires decresidual[SUBFRAME * (start - 1)..][..2 * SUBFRAME] == block
    modifies decresidual, reverse, mem
    ensures |later| == mode.Subframes() - start - 1 && |earlier| == start - 1 && CodesInSpace(later + earlier)
    ensures CodesFit(later) && CodesFit(earlier)
    ensures LaterFound(k, d, mode, residual, weightdenum, start, block, later)
    ensures EarlierFound(k, d, mode, residual, weightdenum, start, Reverse(Grown(k, block, later)), earlier)
    ensures decresidual[..mode.FrameSamples()] == Around(k, block, later, earlier)
  {
    later := EncodeLater(k, d, mode, residual, weightdenum, start, decresidual, mem, block);
    earlier := EncodeBefore(k, d, mode, residual, weightdenum, start, decresidual, reverse, mem,
                            Grown(k, block, later), |later|);
    JoinInSpace(later, earlier);
  }

  /** The subframes before the start block, and their place in the frame. */
  method EncodeBefore<F(0, !new), S>(k: Kernel<F>, d: Decisions<F, S>, mode: Mode, residual: seq<F>,
                                     weightdenum: seq<F>, start: nat, decresidual: array<F>, reverse: array<F>,
                                     mem: array<F>, ghost grown: seq<F>, first: nat)
    returns (earlier: seq<Code>)
    requires ValidKernel(k) && Sound(d, mode) && EncoderStart(mode, start) && first == mode.Subframes() - start - 1
    requires |residual| == mode.FrameSamples() && |weightdenum| == COEFFICIENTS * mode.Subframes()
    requires decresidual.Length == 240 && reverse.Length == 240 && mem.Length == MEMORY
    requires mem != decresidual && reverse != decresidual && reverse != mem
    requires |grown| == SUBFRAME * (first + 2) && decresidual[SUBFRAME * (start - 1)..][..|grown|] == grown
    modifies decresidual, reverse, mem
    ensures |earlier| == start - 1 && InSpaceFrom(earlier, first) && CodesFit(earlier)
    ensures EarlierFound(k, d, mode, residual, weightdenum, start, Reverse(grown), earlier)
    ensures decresidual[..mode.FrameSamples()] == Reverse(Grown(k, Reverse(grown), earlier))
  {
    earlier := [];
    if start > 1 {
      var n := SUBFRAME * (start - 1);
      FillBackward(k, mem, decresidual[n..][..SUBFRAME * (first + 2)]);
      earlier := EncodeEarlier(k, d, mode, residual, Reverse(residual[..n]), weightdenum, start, reverse, mem,
                               Reverse(grown), first);
      WriteEarlier(k, decresidual, reverse[..n], grown, Reverse(Grown(k, Reverse(grown), earlier)));
    } else {
      NothingEarlier(k, grown);
      assert decresidual[..mode.FrameSamples()] == decresidual[0..][..|grown|];
    }
  }

  lemma NothingEarlier<F>(k: Kernel<F>, grown: seq<F>)
    requires ValidKernel(k)
    ensures Reverse(Grown(k, Reverse(grown), [])) == grown
  {
    assert Reverse(Reverse(grown)) == grown;
  }

  /** The reversed subframes copied back before the rest. */
  method WriteEarlier<F(0)>(k: Kernel<F>, decresidual: array<F>, r: seq<F>, ghost later: seq<F>, ghost whole: seq<F>)
    requires |r| + |later| <= decresidual.Length && decresidual[|r|..][..|later|] == later
    requires whole == Reverse(Reverse(later) + r)
    modifies decresidual
    ensures decresidual[..|r| + |later|] == whole
  {
    ghost var before := decresidual[..];
    ReverseBlock(later, r);
    CopyBackward(decresidual, 0, r);
    WrittenBefore(before, 0, Reverse(r), later);
    WrittenThere(before, 0, whole);
    assert decresidual[..|r| + |later|] == decresidual[..][0..][..|whole|];
  }
}
