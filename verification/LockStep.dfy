/** Encoder and decoder in lock step: what a frame carries, what each side does
    with it, and runs of both over a network that loses any frames it likes. */
module LockStep {
  import opened Basics
  import opened FrameFormat
  import opened Codebook
  import opened ResidualSpec
  import opened ResidualDecoding
  import opened LsfCoding
  import opened IndexConversion
  import opened EncoderModel

  // ---- Renumbered fields ----

  lemma ConversionsStayNatural(s: seq<nat>)
    requires |s| >= 3
    ensures forall i | 0 <= i < |s| :: ConvertedEncoder(s)[i] >= 0 && ConvertedDecoder(s)[i] >= 0
  {
  }

  /** The fields as they are packed. */
  function Packed(f: Fields): (g: Fields)
    requires |f.cb| >= 3
    ensures g == f.(cb := g.cb) && g.cb == ConvertedEncoder(f.cb)
  {
    ConversionsStayNatural(f.cb);
    var cb: seq<nat> := ConvertedEncoder(f.cb);
    f.(cb := cb)
  }

  /** The fields as the decoder uses them. */
  function Renumbered(g: Fields): (f: Fields)
    requires |g.cb| >= 3
    ensures f == g.(cb := f.cb) && f.cb == ConvertedDecoder(g.cb)
  {
    ConversionsStayNatural(g.cb);
    var cb: seq<nat> := ConvertedDecoder(g.cb);
    g.(cb := cb)
  }

  lemma ChosenTriple(mode: Mode, f: Fields, i: nat)
    requires Chosen(mode, f) && i < mode.AdaptiveSubframes()
    ensures IndexInSpace(i + 1, 0, f.cb[3 * i]) && IndexInSpace(i + 1, 1, f.cb[3 * i + 1])
            && IndexInSpace(i + 1, 2, f.cb[3 * i + 2])
    ensures f.gain[3 * i] < 32 && f.gain[3 * i + 1] < 16 && f.gain[3 * i + 2] < 8
  {
    var c := CodeAt(f.cb, f.gain, i);
    assert CodeInSpace(c, i + 1);
    assert IndexInSpace(i + 1, 0, c.index[0]) && IndexInSpace(i + 1, 1, c.index[1])
           && IndexInSpace(i + 1, 2, c.index[2]);
    assert c.gain[0] < LEVELS[0] && c.gain[1] < LEVELS[1] && c.gain[2] < LEVELS[2];
  }

  /** Whatever the encoder chooses fits the frame format once renumbered, and the decoder's renumbering restores it. */
  lemma ChosenFieldsSurvive(mode: Mode, f: Fields)
    requires Chosen(mode, f) && LsfFits(mode, f.lsf)
    ensures InFormat(mode, Packed(f)) && Renumbered(Packed(f)) == f
  {
    var g := Packed(f);
    var c := Code(f.extraCb, f.extraGain);
    assert forall s: nat | s < 3 :: IndexInSpace(0, s, c.index[s]) && c.gain[s] < LEVELS[s];
    ChosenTriple(mode, f, 0);
    ConversionsAreInverse(f.cb[1]);
    ConversionsAreInverse(f.cb[2]);
    RoundTrip(f.cb);
    forall i: nat | i < mode.AdaptiveSubframes()
      ensures TripleBelow(g.cb, i, 256, CbBound(i), CbBound(i)) && TripleBelow(g.gain, i, 32, 16, 8)
    {
      ChosenTriple(mode, f, i);
    }
  }

  /** Any frame that is not concealed can be played: whatever bits arrive, no index leaves its memory or its table. */
  lemma ReceivedFieldsArePlayable(mode: Mode, g: Fields)
    requires InFormat(mode, g) && EncoderStart(mode, g.start)
    ensures Playable(mode, Renumbered(g)) && LsfIndicesFit(g.lsf, mode.Analyses())
  {
    var f := Renumbered(g);
    assert TripleBelow(g.extraCb, 0, 128, 128, 128) && TripleBelow(g.extraGain, 0, 32, 16, 8);
    forall i | 0 <= i < |f.cb|
      ensures f.cb[i] < 256
    {
      assert TripleBelow(g.cb, i / 3, 256, CbBound(i / 3), CbBound(i / 3));
      ConversionsAreInverse(g.cb[i]);
      assert i == 3 * (i / 3) || i == 3 * (i / 3) + 1 || i == 3 * (i / 3) + 2;
    }
    forall i: nat, s: nat | i < mode.AdaptiveSubframes() && s < STAGES
      ensures CodeAt(f.cb, f.gain, i).gain[s] < LEVELS[s]
    {
      assert TripleBelow(g.gain, i, 32, 16, 8);
    }
    FittingFieldsArePlayable(mode, f);
  }

  // ---- The decoder ----

  /** What the decoder makes of a byte string: concealment, or an excitation, predictors and new frequencies. */
  datatype Heard<F> = Heard(lost: bool, residual: seq<F>, synt: seq<F>, after: seq<F>)

  /** The frequencies of a frame after the stability pass. */
  function Frequencies<F>(k: Kernel<F>, mode: Mode, lsf: seq<nat>): (r: seq<F>)
    requires ValidKernel(k) && LsfIndicesFit(lsf, mode.Analyses())
    ensures |r| == ORDER * mode.Analyses()
  {
    Stable(k, Dequantised(k.lsfTable, lsf, mode.Analyses()), mode.Analyses())
  }

  ghost function Hear<F>(k: Kernel<F>, mode: Mode, before: seq<F>, bytes: seq<Byte>): (h: Heard<F>)
    requires ValidKernel(k) && |before| == ORDER && |bytes| == mode.FrameBytes()
    ensures |h.after| == ORDER
  {
    var g := FieldsOf(mode, bytes);
    if Lost(mode, g.start, LastBitOf(bytes)) then Heard(true, [], [], before)
    else
      FramesAreFields(mode, bytes, g);
      ReceivedFieldsArePlayable(mode, g);
      var lsf := Frequencies(k, mode, g.lsf);
      var synt := Predictors(k, mode, before, lsf, mode.Subframes());
      Heard(false, Residual(k, mode, Renumbered(g), synt), synt, Last(mode, lsf))
  }

  /** convertDecoderIndices on the fields of a frame. */
  method RenumberFields(g: Fields) returns (f: Fields)
    requires |g.cb| >= 3
    ensures f == Renumbered(g)
  {
    var cbIndex := new int[|g.cb|](i requires 0 <= i < |g.cb| => g.cb[i]);
    assert cbIndex[..] == g.cb;
    ConvertDecoderIndices(cbIndex);
    ConversionsStayNatural(g.cb);
    var cb: seq<nat> := cbIndex[..];
    f := g.(cb := cb);
  }

  /** The frequencies of a frame, looked up and made stable. */
  method LookUpFrequencies<F(0)>(k: Kernel<F>, mode: Mode, idx: seq<nat>) returns (lsf: seq<F>)
    requires ValidKernel(k) && LsfIndicesFit(idx, mode.Analyses())
    ensures lsf == Frequencies(k, mode, idx)
  {
    var lsfdeq := new F[2 * ORDER](i => k.ar.zero);
    DequantizeLsf(k.lsfTable, lsfdeq, idx, mode.Analyses());
    lsf := Stable(k, lsfdeq[..ORDER * mode.Analyses()], mode.Analyses());
  }

  /** decodeFrame up to the excitation, for arbitrary bytes. */
  method Receive<F(0)>(k: Kernel<F>, mode: Mode, bytes: seq<Byte>, lsfdeqold: array<F>, decresidual: array<F>)
    returns (lost: bool, syntdenum: seq<F>)
    requires ValidKernel(k) && |bytes| == mode.FrameBytes() && lsfdeqold.Length == ORDER
    requires decresidual.Length >= mode.FrameSamples() && decresidual != lsfdeqold
    modifies lsfdeqold, decresidual
    ensures var h := Hear(k, mode, old(lsfdeqold[..]), bytes);
            && lost == h.lost && lsfdeqold[..] == h.after
            && (!lost ==> syntdenum == h.synt && decresidual[..mode.FrameSamples()] == h.residual)
  {
    var g, lastBit := UnpackFields(mode, bytes);
    lost := Lost(mode, g.start, lastBit);
    syntdenum := [];
    if !lost {
      ReceivedFieldsArePlayable(mode, g);
      var f := RenumberFields(g);
      var lsf := LookUpFrequencies(k, mode, g.lsf);
      var weightdenum;
      syntdenum, weightdenum := DecoderInterpolate(k, mode, lsf, lsfdeqold);
      Decode(k, mode, f, syntdenum, decresidual);
    }
  }

  // ---- The encoder ----

  /** One encoded frame and the encoder's view of it: its local excitation, its predictors, and the shared frequencies
      before and after. */
  datatype Sent<F> = Sent(bytes: seq<Byte>, start: nat, residual: seq<F>, synt: seq<F>, before: seq<F>, after: seq<F>)

  /** The frame carries some choice of the encoder, and its local view is what that choice denotes. */
  ghost predicate Carried<F>(k: Kernel<F>, mode: Mode, s: Sent<F>, f: Fields)
    requires ValidKernel(k)
  {
    && Chosen(mode, f) && Playable(mode, f) && LsfFits(mode, f.lsf) && LsfIndicesFit(f.lsf, mode.Analyses())
    && |s.bytes| == mode.FrameBytes() && IsFrameOf(mode, s.bytes, Packed(f)) && f.start == s.start
    && |s.before| == ORDER
    && s.synt == Predictors(k, mode, s.before, Frequencies(k, mode, f.lsf), mode.Subframes())
    && s.residual == Residual(k, mode, f, s.synt)
    && s.after == Last(mode, Frequencies(k, mode, f.lsf))
  }

  ghost predicate IsSent<F>(k: Kernel<F>, mode: Mode, s: Sent<F>)
    requires ValidKernel(k)
  {
    exists f :: Carried(k, mode, s, f)
  }

  /** A frame for a choice of the encoder, made with given frequencies and predictors. */
  ghost predicate Finished<F>(k: Kernel<F>, mode: Mode, idx: seq<nat>, synt: seq<F>, bytes: seq<Byte>,
                              residual: seq<F>, f: Fields)
    requires ValidKernel(k) && |synt| == COEFFICIENTS * mode.Subframes()
  {
    && f.lsf == idx && Chosen(mode, f) && Playable(mode, f) && |bytes| == mode.FrameBytes()
    && IsFrameOf(mode, bytes, Packed(f)) && residual == Residual(k, mode, f, synt)
  }

  lemma FinishedIsCarried<F>(k: Kernel<F>, mode: Mode, idx: seq<nat>, s: Sent<F>, f: Fields)
    requires ValidKernel(k) && |s.before| == ORDER
    requires |idx| == 3 * mode.Analyses() && LsfFits(mode, idx) && LsfIndicesFit(idx, mode.Analyses())
    requires s.synt == Predictors(k, mode, s.before, Frequencies(k, mode, idx), mode.Subframes())
    requires s.after == Last(mode, Frequencies(k, mode, idx))
    requires Finished(k, mode, idx, s.synt, s.bytes, s.residual, f) && s.start == f.start
    ensures Carried(k, mode, s, f)
  {
  }

  /** The frequencies and the prediction residual that the encoder's history gives. */
  function LsfOf<F, S>(d: Decisions<F, S>, mode: Mode, h: S): (lsf: seq<F>)
    ensures |lsf| == ORDER * mode.Analyses()
  {
    seq(ORDER * mode.Analyses(), i requires 0 <= i < ORDER * mode.Analyses() => d.lsf(h, i))
  }

  function ResidualOf<F, S>(d: Decisions<F, S>, mode: Mode, h: S, syntdenum: seq<F>): (r: seq<F>)
    ensures |r| == mode.FrameSamples()
  {
    seq(mode.FrameSamples(), i requires 0 <= i < mode.FrameSamples() => d.residual(h, syntdenum, i))
  }

  /** The nearest codewords of every analysis. */
  ghost predicate AllQuantised<F, S>(k: Kernel<F>, d: Decisions<F, S>, mode: Mode, lsf: seq<F>, idx: seq<nat>)
    requires ValidKernel(k) && |lsf| == ORDER * mode.Analyses() && |idx| == 3 * mode.Analyses()
  {
    && AllSplits(k.ar, d.less, d.huge, lsf[..ORDER], k.lsfTable, idx[..3])
    && (mode.Mode30? ==> AllSplits(k.ar, d.less, d.huge, lsf[ORDER..], k.lsfTable, idx[3..]))
  }

  /** What a frame's fields are the decisions about: the frequencies and the residual of the block, weighted by the
      filters of the unquantised frequencies. */
  ghost predicate DecidedFor<F(!new), S>(k: Kernel<F>, d: Decisions<F, S>, mode: Mode, history: S, lsfold: seq<F>,
                                         pcm: seq<F>, synt: seq<F>, f: Fields, decoded: seq<F>)
    requires ValidKernel(k) && |lsfold| == ORDER && |synt| == COEFFICIENTS * mode.Subframes()
    requires Playable(mode, f) && |decoded| == mode.FrameSamples() && |f.lsf| == 3 * mode.Analyses()
  {
    var h := d.analyse(history, pcm);
    var lsf := LsfOf(d, mode, h);
    && AllQuantised(k, d, mode, lsf, f.lsf)
    && Analysed(k, d, mode, ResidualOf(d, mode, h, synt), synt, Weights(k, mode, lsfold, lsf, mode.Subframes()), f,
                decoded)
  }

  class Encoder<F(0, !new), S> {
    const lsfold: array<F>
    const lsfdeqold: array<F>
    var history: S

    ghost predicate Valid()
      reads this
    {
      lsfold.Length == lsfdeqold.Length == ORDER && lsfold != lsfdeqold
    }

    constructor (lsfmean: seq<F>, start: S)
      requires |lsfmean| == ORDER
      ensures Valid() && fresh(lsfold) && fresh(lsfdeqold) && lsfdeqold[..] == lsfmean && lsfold[..] == lsfmean
    {
      lsfold := new F[ORDER](i requires 0 <= i < ORDER => lsfmean[i]);
      lsfdeqold := new F[ORDER](i requires 0 <= i < ORDER => lsfmean[i]);
      history := start;
    }

    /** encodeFrame: the frame it writes carries its decisions about this block, and its local excitation is what they
        denote. */
    method EncodeFrame(k: Kernel<F>, d: Decisions<F, S>, mode: Mode, pcm: seq<F>, bytes: array<Byte>)
      returns (decresidual: array<F>, syntdenum: seq<F>, ghost f: Fields)
      requires Valid() && ValidKernel(k) && Sound(d, mode) && bytes.Length == mode.FrameBytes()
      modifies this, lsfold, lsfdeqold, bytes
      ensures Valid() && decresidual.Length == 240
      ensures Carried(k, mode, Sent(bytes[..], f.start, decresidual[..mode.FrameSamples()], syntdenum,
                                    old(lsfdeqold[..]), lsfdeqold[..]), f)
      ensures DecidedFor(k, d, mode, old(history), old(lsfold[..]), pcm, syntdenum, f,
                         decresidual[..mode.FrameSamples()])
      ensures lsfold[..] == Last(mode, LsfOf(d, mode, d.analyse(old(history), pcm)))
      ensures history == d.advance(d.analyse(old(history), pcm), syntdenum)
    {
      hide Predictors, Frequencies, Last, Sound, Analysed, Chosen, CodesFit, Weights, AllQuantised, Carried, IsFrameOf,
           LsfOf, ResidualOf, Residual, Playable, ValidKernel;
      ghost var before := lsfdeqold[..];
      var idx, weightdenum;
      idx, syntdenum, weightdenum := EncodeLpc(k, d, mode, pcm);
      ghost var after := lsfdeqold[..];
      var residual := Analyse(d, mode, syntdenum);
      f, decresidual := FinishFrame(k, d, mode, idx, residual, syntdenum, weightdenum, bytes);
      FinishedIsCarried(k, mode, idx, Sent(bytes[..], f.start, decresidual[..mode.FrameSamples()], syntdenum, before,
                                           after), f);
    }

    /** One frame, with the record of it. */
    method EncodeOne(k: Kernel<F>, d: Decisions<F, S>, mode: Mode, pcm: seq<F>)
      returns (frame: seq<Byte>, ghost s: Sent<F>)
      requires Valid() && ValidKernel(k) && Sound(d, mode)
      modifies this, lsfold, lsfdeqold
      ensures Valid() && IsSent(k, mode, s)
      ensures s.bytes == frame && s.before == old(lsfdeqold[..]) && s.after == lsfdeqold[..]
    {
      hide DecidedFor, Carried, Sound;
      var bytes := new Byte[mode.FrameBytes()](i => 0);
      ghost var before := lsfdeqold[..];
      ghost var f;
      var decresidual, syntdenum;
      decresidual, syntdenum, f := EncodeFrame(k, d, mode, pcm, bytes);
      frame := bytes[..];
      s := Sent(frame, f.start, decresidual[..mode.FrameSamples()], syntdenum, before, lsfdeqold[..]);
    }

    /** A whole run: whatever is encoded, the frames form an encoder run that starts from the frequencies held
        before. */
    method EncodeAll(k: Kernel<F>, d: Decisions<F, S>, mode: Mode, pcm: seq<seq<F>>)
      returns (frames: seq<seq<Byte>>, ghost sent: seq<Sent<F>>)
      requires Valid() && ValidKernel(k) && Sound(d, mode)
      modifies this, lsfold, lsfdeqold
      ensures Valid() && |frames| == |sent| == |pcm| && IsEncoderRun(k, mode, old(lsfdeqold[..]), sent)
      ensures forall i | 0 <= i < |frames| :: frames[i] == sent[i].bytes
    {
      hide IsSent;
      frames, sent := [], [];
      ghost var lsfmean := lsfdeqold[..];
      for i := 0 to |pcm|
        invariant Valid() && |frames| == |sent| == i && IsEncoderRun(k, mode, lsfmean, sent)
        invariant lsfdeqold[..] == SharedBefore(lsfmean, sent, i)
        invariant forall j | 0 <= j < i :: frames[j] == sent[j].bytes
      {
        var frame;
        ghost var s;
        frame, s := EncodeOne(k, d, mode, pcm[i]);
        LongerRun(k, mode, lsfmean, sent, s);
        frames, sent := frames + [frame], sent + [s];
      }
    }

    /** The excitation, and the frame packed from what was chosen for it. */
    method FinishFrame(k: Kernel<F>, d: Decisions<F, S>, mode: Mode, idx: seq<nat>, residual: seq<F>, syntdenum: seq<F>,
                       weightdenum: seq<F>, bytes: array<Byte>) returns (ghost f: Fields, decresidual: array<F>)
      requires ValidKernel(k) && Sound(d, mode) && bytes.Length == mode.FrameBytes()
      requires |idx| == 3 * mode.Analyses() && LsfFits(mode, idx) && |residual| == mode.FrameSamples()
      requires |syntdenum| == |weightdenum| == COEFFICIENTS * mode.Subframes()
      modifies bytes
      ensures fresh(decresidual) && decresidual.Length == 240
      ensures Finished(k, mode, idx, syntdenum, bytes[..], decresidual[..mode.FrameSamples()], f)
      ensures Analysed(k, d, mode, residual, syntdenum, weightdenum, f, decresidual[..mode.FrameSamples()])
    {
      hide Residual, Sound, Analysed;
      var g;
      g, decresidual := EncodeResidual(k, d, mode, idx, residual, syntdenum, weightdenum);
      PackFrameOf(mode, g, bytes);
      f := g;
    }

    /** The analysis filter, whose memory belongs to the history. */
    method Analyse(d: Decisions<F, S>, mode: Mode, syntdenum: seq<F>) returns (residual: seq<F>)
      modifies this`history
      ensures residual == ResidualOf(d, mode, old(history), syntdenum)
      ensures history == d.advance(old(history), syntdenum)
    {
      var h := history;
      residual := seq(mode.FrameSamples(), i requires 0 <= i < mode.FrameSamples() => d.residual(h, syntdenum, i));
      history := d.advance(history, syntdenum);
    }

    /** encodeLPC: analysis, quantisation, the stability pass and interpolation. */
    method EncodeLpc(k: Kernel<F>, d: Decisions<F, S>, mode: Mode, pcm: seq<F>)
      returns (idx: seq<nat>, syntdenum: seq<F>, weightdenum: seq<F>)
      requires Valid() && ValidKernel(k)
      modifies this`history, lsfold, lsfdeqold
      ensures Valid() && |idx| == 3 * mode.Analyses() && LsfFits(mode, idx) && LsfIndicesFit(idx, mode.Analyses())
      ensures syntdenum == Predictors(k, mode, old(lsfdeqold[..]), Frequencies(k, mode, idx), mode.Subframes())
      ensures lsfdeqold[..] == Last(mode, Frequencies(k, mode, idx))
      ensures history == d.analyse(old(history), pcm)
      ensures var lsf := LsfOf(d, mode, history);
              && AllQuantised(k, d, mode, lsf, idx) && lsfold[..] == Last(mode, lsf)
              && weightdenum == Weights(k, mode, old(lsfold[..]), lsf, mode.Subframes())
    {
      hide AllSplits, Predictors, Weights;
      var n := mode.Analyses();
      history := d.analyse(history, pcm);
      var h := history;
      var lsf := seq(ORDER * n, i requires 0 <= i < ORDER * n => d.lsf(h, i));
      assert lsf == LsfOf(d, mode, h);
      var q;
      idx, q := QuantizeLsf(k.ar, d.less, d.huge, lsf, k.lsfTable, n);
      LsfIndicesAreFields(mode, idx);
      syntdenum, weightdenum := SimpleInterpolate(k, mode, lsf, Stable(k, q, n), lsfold, lsfdeqold);
    }

    /** Renumbering and packing. */
    method PackFrameOf(mode: Mode, f: Fields, bytes: array<Byte>)
      requires Chosen(mode, f) && LsfFits(mode, f.lsf) && bytes.Length == mode.FrameBytes()
      modifies bytes
      ensures IsFrameOf(mode, bytes[..], Packed(f))
    {
      var cbIndex := new int[|f.cb|](i requires 0 <= i < |f.cb| => f.cb[i]);
      assert cbIndex[..] == f.cb;
      ConvertEncoderIndices(cbIndex);
      ConversionsStayNatural(f.cb);
      var cb: seq<nat> := cbIndex[..];
      ChosenFieldsSurvive(mode, f);
      PackFields(mode, f.(cb := cb), bytes);
    }
  }

  lemma LsfIndicesAreFields(mode: Mode, idx: seq<nat>)
    requires |idx| == 3 * mode.Analyses() && LsfIndicesFit(idx, mode.Analyses())
    ensures LsfFits(mode, idx)
  {
  }

  // ---- One frame on both sides ----

  lemma {:induction false} PredictorsAt<F>(k: Kernel<F>, mode: Mode, before: seq<F>, lsf: seq<F>, n: nat, i: nat)
    requires ValidKernel(k) && |before| == ORDER && |lsf| == ORDER * mode.Analyses() && i < n <= mode.Subframes()
    ensures Predictors(k, mode, before, lsf, n)[COEFFICIENTS * i..COEFFICIENTS * (i + 1)]
              == PredictorAt(k, mode, before, lsf, i)
  {
    if i < n - 1 {
      PredictorsAt(k, mode, before, lsf, n - 1, i);
      assert Predictors(k, mode, before, lsf, n)[COEFFICIENTS * i..COEFFICIENTS * (i + 1)]
          == Predictors(k, mode, before, lsf, n - 1)[COEFFICIENTS * i..COEFFICIENTS * (i + 1)];
    }
  }

  /** In a 30 ms frame only the first subframe's predictor looks back to the frame before. */
  lemma OnlyFirstLooksBack<F>(k: Kernel<F>, before: seq<F>, before': seq<F>, lsf: seq<F>, i: nat)
    requires ValidKernel(k) && |before| == |before'| == ORDER && |lsf| == ORDER * Mode30.Analyses()
             && 1 <= i < Mode30.Subframes()
    ensures Predictors(k, Mode30, before, lsf, 6)[COEFFICIENTS * i..COEFFICIENTS * (i + 1)]
         == Predictors(k, Mode30, before', lsf, 6)[COEFFICIENTS * i..COEFFICIENTS * (i + 1)]
  {
    PredictorsAt(k, Mode30, before, lsf, 6, i);
    PredictorsAt(k, Mode30, before', lsf, 6, i);
  }

  /** A decoder that hears a frame computes with exactly the encoder's choice. */
  lemma HearCarried<F>(k: Kernel<F>, mode: Mode, s: Sent<F>, f: Fields, before: seq<F>)
    requires ValidKernel(k) && Carried(k, mode, s, f) && |before| == ORDER
    ensures var lsf := Frequencies(k, mode, f.lsf); var synt := Predictors(k, mode, before, lsf, mode.Subframes());
            Hear(k, mode, before, s.bytes) == Heard(false, Residual(k, mode, f, synt), synt, Last(mode, lsf))
  {
    ChosenFieldsSurvive(mode, f);
    FramesAreFields(mode, s.bytes, Packed(f));
    EncodedFramesAreReceived(mode, s.bytes, Packed(f));
    assert FieldsOf(mode, s.bytes) == Packed(f) && Renumbered(Packed(f)) == f;
  }

  /** An excitation depends on one subframe's predictor only. */
  lemma ExcitationLooksAtOne<F>(k: Kernel<F>, mode: Mode, f: Fields, a: seq<F>, b: seq<F>)
    requires ValidKernel(k) && Playable(mode, f) && |a| == |b| == COEFFICIENTS * mode.Subframes()
    requires a[COEFFICIENTS * (f.start - 1)..COEFFICIENTS * f.start]
               == b[COEFFICIENTS * (f.start - 1)..COEFFICIENTS * f.start]
    ensures Residual(k, mode, f, a) == Residual(k, mode, f, b)
  {
  }

  /** What a received frame of the encoder gives any decoder: the frequencies agree afterwards, and everything agrees if
      they agreed before. A 30 ms frame whose start block does not touch the first subframe even gives the same
      excitation whatever was lost before it. */
  lemma FrameAgrees<F>(k: Kernel<F>, mode: Mode, s: Sent<F>, before: seq<F>)
    requires ValidKernel(k) && IsSent(k, mode, s) && |before| == ORDER
    ensures |s.bytes| == mode.FrameBytes() && |s.after| == ORDER
    ensures var h := Hear(k, mode, before, s.bytes);
            && !h.lost && h.after == s.after
            && (before == s.before ==> h.residual == s.residual && h.synt == s.synt)
            && (mode.Mode30? && s.start >= 2 ==> h.residual == s.residual)
  {
    var f :| Carried(k, mode, s, f);
    CarriedAgrees(k, mode, s, f, before, Hear(k, mode, before, s.bytes));
  }

  lemma CarriedAgrees<F>(k: Kernel<F>, mode: Mode, s: Sent<F>, f: Fields, before: seq<F>, h: Heard<F>)
    requires ValidKernel(k) && Carried(k, mode, s, f) && |before| == ORDER && h == Hear(k, mode, before, s.bytes)
    ensures |s.after| == ORDER && !h.lost && h.after == s.after
    ensures before == s.before ==> h.residual == s.residual && h.synt == s.synt
    ensures mode.Mode30? && s.start >= 2 ==> h.residual == s.residual
  {
    HearCarried(k, mode, s, f, before);
    if mode.Mode30? && s.start >= 2 {
      LateStartLooksForward(k, f, before, s.before, Frequencies(k, mode, f.lsf));
    }
  }

  lemma LateStartLooksForward<F>(k: Kernel<F>, f: Fields, before: seq<F>, before': seq<F>, lsf: seq<F>)
    requires ValidKernel(k) && Playable(Mode30, f) && f.start >= 2
    requires |before| == |before'| == ORDER && |lsf| == ORDER * Mode30.Analyses()
    ensures Residual(k, Mode30, f, Predictors(k, Mode30, before, lsf, 6))
              == Residual(k, Mode30, f, Predictors(k, Mode30, before', lsf, 6))
  {
    var i: nat := f.start - 1;
    OnlyFirstLooksBack(k, before, before', lsf, i);
    assert i + 1 == f.start;
    ExcitationLooksAtOne(k, Mode30, f, Predictors(k, Mode30, before, lsf, 6), Predictors(k, Mode30, before', lsf, 6));
  }

  // ---- Runs ----

  /** The frames of one encoder, each continuing from the frequencies that the one before left. */
  ghost predicate IsEncoderRun<F>(k: Kernel<F>, mode: Mode, lsfmean: seq<F>, sent: seq<Sent<F>>)
    requires ValidKernel(k)
  {
    forall i: nat | i < |sent| :: Continues(k, mode, lsfmean, sent, i)
  }

  ghost predicate Continues<F>(k: Kernel<F>, mode: Mode, lsfmean: seq<F>, sent: seq<Sent<F>>, i: nat)
    requires ValidKernel(k) && i < |sent|
  {
    IsSent(k, mode, sent[i]) && sent[i].before == SharedBefore(lsfmean, sent, i)
  }

  function SharedBefore<F>(lsfmean: seq<F>, sent: seq<Sent<F>>, i: nat): seq<F>
    requires i <= |sent|
  {
    if i == 0 then lsfmean else sent[i - 1].after
  }

  /** What arrives of a run over a network that loses some of its frames. */
  function Arriving<F>(sent: seq<Sent<F>>, lost: seq<bool>): (packets: seq<Option<seq<Byte>>>)
    requires |sent| == |lost|
    ensures |packets| == |sent|
  {
    seq(|sent|, i requires 0 <= i < |sent| => if lost[i] then None else Some(sent[i].bytes))
  }

  predicate ValidPackets(mode: Mode, packets: seq<Option<seq<Byte>>>) {
    forall i | 0 <= i < |packets| :: packets[i].Some? ==> |packets[i].value| == mode.FrameBytes()
  }

  /** The decoder's frequencies after one packet or its absence. */
  ghost function NextFrequencies<F>(k: Kernel<F>, mode: Mode, before: seq<F>, packet: Option<seq<Byte>>): (f: seq<F>)
    requires ValidKernel(k) && |before| == ORDER && (packet.Some? ==> |packet.value| == mode.FrameBytes())
    ensures |f| == ORDER
  {
    if packet.Some? then Hear(k, mode, before, packet.value).after else before
  }

  /** The decoder's frequencies after the first n packets. */
  ghost function DecoderBefore<F>(k: Kernel<F>, mode: Mode, lsfmean: seq<F>, packets: seq<Option<seq<Byte>>>,
                                  n: nat): (f: seq<F>)
    requires ValidKernel(k) && |lsfmean| == ORDER && ValidPackets(mode, packets) && n <= |packets|
    ensures |f| == ORDER
  {
    if n == 0 then lsfmean else NextFrequencies(k, mode, DecoderBefore(k, mode, lsfmean, packets, n - 1),
                                                packets[n - 1])
  }

  lemma RunHasFrames<F>(k: Kernel<F>, mode: Mode, lsfmean: seq<F>, sent: seq<Sent<F>>, lost: seq<bool>)
    requires ValidKernel(k) && |lsfmean| == ORDER && IsEncoderRun(k, mode, lsfmean, sent) && |sent| == |lost|
    ensures forall i | 0 <= i < |sent| :: |sent[i].bytes| == mode.FrameBytes()
    ensures ValidPackets(mode, Arriving(sent, lost))
  {
    hide IsSent;
    forall i | 0 <= i < |sent|
      ensures |sent[i].bytes| == mode.FrameBytes()
    {
      assert Continues(k, mode, lsfmean, sent, i);
      FrameAgrees(k, mode, sent[i], lsfmean);
    }
  }

  /** A received frame leaves the encoder's frequencies behind. */
  lemma ReceivedIsShared<F>(k: Kernel<F>, mode: Mode, s: Sent<F>, before: seq<F>)
    requires ValidKernel(k) && IsSent(k, mode, s) && |before| == ORDER
    ensures |s.bytes| == mode.FrameBytes() && NextFrequencies(k, mode, before, Some(s.bytes)) == s.after
  {
    FrameAgrees(k, mode, s, before);
  }

  /** What is promised of a received frame n: it is not concealed, it brings the frequencies of both sides back
      together, and if its predecessor was received too, or it is the first, the decoder's excitation and predictors are
      exactly the encoder's local ones. A late start block is enough for the excitation. */
  ghost predicate InStep<F>(k: Kernel<F>, mode: Mode, lsfmean: seq<F>, sent: seq<Sent<F>>, lost: seq<bool>, n: nat)
    requires ValidKernel(k) && |lsfmean| == ORDER && n < |sent| == |lost|
  {
    var packets := Arriving(sent, lost);
    && ValidPackets(mode, packets) && |sent[n].bytes| == mode.FrameBytes()
    && DecoderBefore(k, mode, lsfmean, packets, n + 1) == sent[n].after
    && GivesBack(Hear(k, mode, DecoderBefore(k, mode, lsfmean, packets, n), sent[n].bytes), sent[n],
                 n == 0 || !lost[n - 1], (n == 0 || !lost[n - 1]) || (mode.Mode30? && sent[n].start >= 2))
  }

  /** What a decoder hears of a frame is the encoder's view of it. */
  ghost predicate GivesBack<F>(h: Heard<F>, s: Sent<F>, predictors: bool, excitation: bool) {
    !h.lost && (predictors ==> h.synt == s.synt) && (excitation ==> h.residual == s.residual)
  }

  /** Lock step over whole runs, for any loss pattern. */
  lemma LockStep<F>(k: Kernel<F>, mode: Mode, lsfmean: seq<F>, sent: seq<Sent<F>>, lost: seq<bool>, n: nat)
    requires ValidKernel(k) && |lsfmean| == ORDER && IsEncoderRun(k, mode, lsfmean, sent)
    requires n < |sent| == |lost| && !lost[n]
    ensures InStep(k, mode, lsfmean, sent, lost, n)
  {
    hide IsSent, Hear;
    RunHasFrames(k, mode, lsfmean, sent, lost);
    var packets := Arriving(sent, lost);
    var before := DecoderBefore(k, mode, lsfmean, packets, n);
    assert Continues(k, mode, lsfmean, sent, n);
    if n > 0 && !lost[n - 1] {
      assert Continues(k, mode, lsfmean, sent, n - 1);
      ReceivedIsShared(k, mode, sent[n - 1], DecoderBefore(k, mode, lsfmean, packets, n - 1));
    }
    assert (n == 0 || !lost[n - 1]) ==> before == SharedBefore(lsfmean, sent, n);
    FrameAgrees(k, mode, sent[n], before);
    ReceivedIsShared(k, mode, sent[n], before);
  }

  lemma LongerRun<F>(k: Kernel<F>, mode: Mode, lsfmean: seq<F>, sent: seq<Sent<F>>, s: Sent<F>)
    requires ValidKernel(k) && IsEncoderRun(k, mode, lsfmean, sent) && IsSent(k, mode, s)
    requires s.before == SharedBefore(lsfmean, sent, |sent|)
    ensures IsEncoderRun(k, mode, lsfmean, sent + [s]) && s.after == SharedBefore(lsfmean, sent + [s], |sent| + 1)
  {
    hide IsSent;
    var longer := sent + [s];
    forall i: nat | i < |longer|
      ensures Continues(k, mode, lsfmean, longer, i)
    {
      assert SharedBefore(lsfmean, longer, i) == SharedBefore(lsfmean, sent, i);
      if i < |sent| {
        assert Continues(k, mode, lsfmean, sent, i);
      }
    }
  }
}
