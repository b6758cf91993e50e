/** The decoder over whole runs: any sequence of byte strings and missing
    packets keeps its lags, periods and tables in range. */
module Decoder {
  import opened Basics
  import opened FrameFormat
  import opened Nearest
  import opened PitchSearch
  import opened LossConcealment
  import opened Enhancer
  import opened EnhancerInterface
  import RS = ResidualSpec
  import L = LockStep
  import LP = LinearPrediction

  /** Where the plain decoder correlates for its lag. */
  function CorrLen(mode: Mode): nat {
    if mode.Mode20? then 40 else 80
  }

  /** Without enhancement the excitation itself is synthesised, and the lag is the one with the greatest correlation. */
  ghost predicate PlainFrame(mode: Mode, residual: seq<real>, data: seq<real>, lag: nat) {
    && |residual| == mode.FrameSamples() <= |data| && data[..mode.FrameSamples()] == residual
    && IsGreatest(BackCorrelations(residual, mode.FrameSamples() - CorrLen(mode), CorrLen(mode), 120), 20, 120, lag)
  }

  // ---- The excitation ----

  /** What concealment makes of a packet: nothing, or a frame with an excitation and a last predictor. */
  datatype Event = Missing | Frame(residual: seq<real>, synt: seq<real>)

  predicate ValidEvent(mode: Mode, e: Event) {
    e.Frame? ==> |e.residual| == mode.FrameSamples() && |e.synt| == COEFFICIENTS * mode.Subframes()
  }

  /** A missing packet, or one whose frame is flagged empty or has no valid start, is missing; any other is a frame. */
  ghost function EventOf(k: RS.Kernel<real>, mode: Mode, before: seq<real>, packet: Option<seq<Byte>>): (e: Event)
    requires RS.ValidKernel(k) && |before| == ORDER && (packet.Some? ==> |packet.value| == mode.FrameBytes())
    ensures ValidEvent(mode, e)
  {
    if packet.None? || L.Hear(k, mode, before, packet.value).lost then Missing
    else
      HeardHasShape(k, mode, before, packet.value);
      Frame(L.Hear(k, mode, before, packet.value).residual, L.Hear(k, mode, before, packet.value).synt)
  }

  lemma HeardHasShape(k: RS.Kernel<real>, mode: Mode, before: seq<real>, bytes: seq<Byte>)
    requires RS.ValidKernel(k) && |before| == ORDER && |bytes| == mode.FrameBytes()
    ensures var h := L.Hear(k, mode, before, bytes);
            !h.lost ==> |h.residual| == mode.FrameSamples() && |h.synt| == COEFFICIENTS * mode.Subframes()
  {
  }

  /** The last predictor of a frame. */
  function LastPredictor(mode: Mode, synt: seq<real>): (lpc: seq<real>)
    requires |synt| == COEFFICIENTS * mode.Subframes()
    ensures |lpc| == COEFFICIENTS
  {
    synt[COEFFICIENTS * (mode.Subframes() - 1)..]
  }

  /** The concealment state after an event. */
  function AfterEvent(mode: Mode, s: State, e: Event, lag: nat, sqrt: real -> real): (t: State)
    requires ValidState(mode, s) && ValidEvent(mode, e) && LagFits(lag)
    ensures ValidState(mode, t)
  {
    match e
    case Missing => Lose(mode, s, lag, Actual(sqrt))
    case Frame(residual, synt) => Accept(mode, s, residual, LastPredictor(mode, synt))
  }

  /** The predictors of a frame: its own, or the last known one, repeated. */
  function PredictorsOf(mode: Mode, lpc: seq<real>, e: Event): (s: seq<real>)
    requires |lpc| == COEFFICIENTS && ValidEvent(mode, e)
    ensures |s| == COEFFICIENTS * mode.Subframes()
  {
    if e.Frame? then e.synt else Repeated(lpc, mode.Subframes())
  }

  function Repeated(lpc: seq<real>, n: nat): (s: seq<real>)
    requires |lpc| == COEFFICIENTS
    ensures |s| == COEFFICIENTS * n
  {
    if n == 0 then [] else Repeated(lpc, n - 1) + lpc
  }

  // ---- Synthesis ----

  /** The predictor that subframe i of the output is synthesised with; the enhancer's output is one or two subframes
      late. */
  function FilterAt(mode: Mode, late: bool, previous: seq<real>, synt: seq<real>, i: nat): (f: seq<real>)
    requires |previous| == |synt| == COEFFICIENTS * mode.Subframes() && i < mode.Subframes()
    ensures LP.IsFilter(f)
  {
    var delay := if !late then 0 else if mode.Mode20? then 1 else 2;
    if i < delay then previous[COEFFICIENTS * (i + mode.Subframes() - delay)..][..COEFFICIENTS]
    else synt[COEFFICIENTS * (i - delay)..][..COEFFICIENTS]
  }

  /** The predictor follows the samples: counted from the beginning of the frame before, subframe m is where the
      enhancer cuts output subframe i out of its history, and m's own predictor is used for it. */
  lemma FiltersAreInTime(mode: Mode, previous: seq<real>, synt: seq<real>, i: nat, m: nat)
    requires |previous| == |synt| == COEFFICIENTS * mode.Subframes() && i < mode.Subframes()
    requires HISTORY - 2 * mode.FrameSamples() + SUBFRAME * m == CentreOf(mode, 0) + SUBFRAME * i
    ensures m < 2 * mode.Subframes()
    ensures FilterAt(mode, true, previous, synt, i)
              == (previous + synt)[COEFFICIENTS * m..COEFFICIENTS * m + COEFFICIENTS]
    ensures FilterAt(mode, false, previous, synt, i) == synt[COEFFICIENTS * i..COEFFICIENTS * i + COEFFICIENTS]
    ensures forall block: nat | block < NewBlocks(mode) :: CentreOf(mode, block) == CentreOf(mode, 0) + BLOCK * block
  {
  }

  /** The filter memory followed by the first n synthesised subframes. */
  function Spoken(mode: Mode, late: bool, previous: seq<real>, synt: seq<real>, mem: seq<real>, data: seq<real>,
                  n: nat): (h: seq<real>)
    requires |previous| == |synt| == COEFFICIENTS * mode.Subframes() && n <= mode.Subframes() && |mem| == ORDER
    requires |data| == mode.FrameSamples()
    ensures |h| == ORDER + SUBFRAME * n
  {
    if n == 0 then mem
    else
      var h := Spoken(mode, late, previous, synt, mem, data, n - 1);
      h + LP.Synthesised(FilterAt(mode, late, previous, synt, n - 1), LP.Tail(h),
                         data[SUBFRAME * (n - 1)..SUBFRAME * n])[ORDER..]
  }

  class Decoder {
    const mode: Mode
    const enhancement: bool
    const lsfdeqold: array<real>
    const concealer: Concealer
    const pitch: PitchHistory
    const oldSyntdenum: array<real>
    const syntMem: array<real>
    var lastLag: nat
    var prevEnhPl: bool

    /** Lags and periods in range, and every buffer at its size. */
    ghost predicate Valid()
      reads this, concealer, concealer.prevResidual, concealer.prevLpc, pitch, pitch.enhPeriod
    {
      && 20 <= lastLag <= 119
      && concealer.Valid(mode) && pitch.Valid()
      && lsfdeqold.Length == ORDER && syntMem.Length == ORDER && lsfdeqold != syntMem
      && oldSyntdenum.Length == 66
    }

    ghost function Footprint(): set<object>
      reads this, concealer, pitch
    {
      {this, lsfdeqold, concealer, concealer.prevResidual, concealer.prevLpc, pitch.enhBuf, pitch.enhPeriod,
       oldSyntdenum, syntMem}
    }

    constructor (mode: Mode, enhancement: bool, lsfmean: seq<real>)
      requires |lsfmean| == ORDER
      ensures Valid() && this.mode == mode && this.enhancement == enhancement
      ensures fresh(Footprint() - {this}) && lsfdeqold[..] == lsfmean && lastLag == 20 && !prevEnhPl
      ensures concealer.View(mode) == InitialState(mode)
    {
      this.mode, this.enhancement := mode, enhancement;
      lsfdeqold := new real[ORDER](i requires 0 <= i < ORDER => lsfmean[i]);
      concealer := new Concealer(mode);
      pitch := new PitchHistory();
      oldSyntdenum := new real[66](i => if i % COEFFICIENTS == 0 then 1.0 else 0.0);
      syntMem := new real[ORDER](i => 0.0);
      lastLag, prevEnhPl := 20, false;
    }

    /** A received excitation passes through concealment, which keeps it for the next loss. */
    method Keep(residual0: seq<real>, synt: seq<real>, sqrt: real -> real) returns (residual: seq<real>)
      requires Valid() && |residual0| == mode.FrameSamples() && |synt| == COEFFICIENTS * mode.Subframes()
      modifies concealer, concealer.prevResidual, concealer.prevLpc
      ensures Valid() && residual == residual0
      ensures concealer.View(mode) == Accept(mode, old(concealer.View(mode)), residual0, LastPredictor(mode, synt))
    {
      var plc, plcLpc := new real[240](i => 0.0), new real[COEFFICIENTS](i => 0.0);
      concealer.DoThePlc(mode, plc, plcLpc, false, residual0, LastPredictor(mode, synt), lastLag, sqrt);
      residual := plc[..mode.FrameSamples()];
      assert residual0[..mode.FrameSamples()] == residual0;
    }

    /** A concealed excitation, and the last known predictor for every subframe. */
    method Conceal(sqrt: real -> real) returns (residual: seq<real>, synt: seq<real>)
      requires Valid()
      modifies concealer, concealer.prevResidual, concealer.prevLpc
      ensures Valid() && concealer.View(mode) == Lose(mode, old(concealer.View(mode)), lastLag, Actual(sqrt))
      ensures residual == concealer.View(mode).residual
              && synt == Repeated(old(concealer.View(mode)).lpc, mode.Subframes())
    {
      var plc, plcLpc := new real[240](i => 0.0), new real[COEFFICIENTS](i => 0.0);
      var zeros, one := seq(240, i => 0.0), seq(COEFFICIENTS, i => if i == 0 then 1.0 else 0.0);
      concealer.DoThePlc(mode, plc, plcLpc, true, zeros, one, lastLag, sqrt);
      residual := plc[..mode.FrameSamples()];
      synt := RepeatPredictor(plcLpc[..]);
    }

    method RepeatPredictor(lpc: seq<real>) returns (synt: seq<real>)
      requires |lpc| == COEFFICIENTS
      ensures synt == Repeated(lpc, mode.Subframes())
    {
      synt := [];
      for i := 0 to mode.Subframes()
        invariant synt == Repeated(lpc, i)
      {
        synt := synt + lpc;
      }
    }

    /** The excitation of a frame: from its packet, or concealed. */
    method Excite(k: RS.Kernel<real>, packet: Option<seq<Byte>>, sqrt: real -> real)
      returns (concealed: bool, residual: seq<real>, synt: seq<real>)
      requires Valid() && RS.ValidKernel(k) && (packet.Some? ==> |packet.value| == mode.FrameBytes())
      modifies lsfdeqold, concealer, concealer.prevResidual, concealer.prevLpc
      ensures Valid() && lsfdeqold[..] == L.NextFrequencies(k, mode, old(lsfdeqold[..]), packet)
      ensures var e := EventOf(k, mode, old(lsfdeqold[..]), packet);
              && concealed == e.Missing?
              && concealer.View(mode) == AfterEvent(mode, old(concealer.View(mode)), e, lastLag, sqrt)
              && synt == PredictorsOf(mode, old(concealer.View(mode)).lpc, e)
      ensures residual == concealer.View(mode).residual
    {
      hide L.Hear, Lose;
      concealed := true;
      ghost var e := EventOf(k, mode, lsfdeqold[..], packet);
      if packet.Some? {
        concealed, residual, synt := Attempt(k, packet.value, sqrt, e);
      }
      if concealed {
        residual, synt := Conceal(sqrt);
      }
    }

    /** A packet's own frame, unless the packet must be concealed. */
    method Attempt(k: RS.Kernel<real>, bytes: seq<Byte>, sqrt: real -> real, ghost e: Event)
      returns (lost: bool, residual: seq<real>, synt: seq<real>)
      requires Valid() && RS.ValidKernel(k) && |bytes| == mode.FrameBytes()
               && e == EventOf(k, mode, lsfdeqold[..], Some(bytes))
      modifies lsfdeqold, concealer, concealer.prevResidual, concealer.prevLpc
      ensures Valid() && lost == e.Missing?
              && lsfdeqold[..] == L.NextFrequencies(k, mode, old(lsfdeqold[..]), Some(bytes))
      ensures lost ==> concealer.View(mode) == old(concealer.View(mode))
      ensures !lost ==> residual == e.residual && synt == e.synt
                        && concealer.View(mode) == Accept(mode, old(concealer.View(mode)), e.residual,
                                                          LastPredictor(mode, e.synt))
    {
      hide L.Hear;
      var decresidual := new real[240](i => 0.0);
      HeardHasShape(k, mode, lsfdeqold[..], bytes);
      lost, synt := L.Receive(k, mode, bytes, lsfdeqold, decresidual);
      residual := [];
      if !lost {
        residual := Keep(decresidual[..mode.FrameSamples()], synt, sqrt);
      }
    }

    /** The pitch lag and the samples to synthesise: enhanced, or the excitation itself. */
    method Pitch(residual: seq<real>, tools: Tools) returns (data: array<real>)
      requires Valid() && ValidTools(tools) && |residual| == mode.FrameSamples()
      modifies this`lastLag, pitch.enhBuf, pitch.enhPeriod
      ensures Valid() && fresh(data) && data.Length == 240
      ensures if enhancement then
                EnhancedFrame(mode, old(pitch.enhBuf[..]), old(pitch.enhPeriod[..]), pitch.enhBuf[..],
                              pitch.enhPeriod[..], residual, prevEnhPl, tools, data[..], lastLag)
              else PlainFrame(mode, residual, data[..], lastLag)
    {
      data := new real[240](i => 0.0);
      if enhancement {
        lastLag := pitch.Interface(mode, data, residual, prevEnhPl, tools);
      } else {
        lastLag := BestBackLag(residual, mode.FrameSamples() - CorrLen(mode), CorrLen(mode), 20, 120);
        forall i | 0 <= i < mode.FrameSamples() { data[i] := residual[i]; }
      }
    }

    /** The synthesis filter over all subframes. */
    method Speak(data: array<real>, synt: seq<real>)
      requires Valid() && |synt| == COEFFICIENTS * mode.Subframes() && data.Length == 240
      requires data != lsfdeqold && data != syntMem && data != oldSyntdenum
      modifies data, syntMem
      ensures data[..mode.FrameSamples()] == Output(Predictors(), synt, old(syntMem[..]), old(data[..]))
    {
      var n, previous := mode.Subframes(), oldSyntdenum[..COEFFICIENTS * mode.Subframes()];
      ghost var job := Job(mode, enhancement, previous, synt, syntMem[..], data[..mode.FrameSamples()]);
      assert syntMem[..] + data[..0] == syntMem[..];
      for i := 0 to n
        invariant SpokenUpTo(job, data[..mode.FrameSamples()], syntMem[..], i)
      {
        SpeakOne(data, previous, synt, i, job);
      }
      assert (job.mem + data[..SUBFRAME * n])[ORDER..] == data[..SUBFRAME * n];
    }

    method SpeakOne(data: array<real>, previous: seq<real>, synt: seq<real>, i: nat, ghost job: Job)
      requires data.Length == 240 && syntMem.Length == ORDER && data != syntMem && i < mode.Subframes()
      requires |previous| == |synt| == COEFFICIENTS * mode.Subframes()
      requires ValidJob(job) && job.mode == mode && job.late == enhancement && job.previous == previous
               && job.synt == synt
      requires SpokenUpTo(job, data[..mode.FrameSamples()], syntMem[..], i)
      modifies data, syntMem
      ensures SpokenUpTo(job, data[..mode.FrameSamples()], syntMem[..], i + 1)
    {
      ghost var before := data[..mode.FrameSamples()];
      FilterSubframe(data, mode.FrameSamples(), SUBFRAME * i, FilterAt(mode, enhancement, previous, synt, i), syntMem);
      SpokenStep(job, before, data[..mode.FrameSamples()], i);
    }

    /** One subframe of the first n samples. */
    static method FilterSubframe(data: array<real>, n: nat, off: nat, f: seq<real>, mem: array<real>)
      requires off + SUBFRAME <= n <= data.Length && mem.Length == ORDER && mem != data && LP.IsFilter(f)
      modifies data, mem
      ensures data[..n][..off] == old(data[..n])[..off]
              && data[..n][off + SUBFRAME..] == old(data[..n])[off + SUBFRAME..]
      ensures data[..n][off..off + SUBFRAME]
           == LP.Synthesised(f, old(mem[..]), old(data[..n])[off..off + SUBFRAME])[ORDER..]
      ensures mem[..] == LP.Tail(data[..n][off..off + SUBFRAME])
    {
      ghost var whole := data[..];
      assert data[..n][off..off + SUBFRAME] == data[off..off + SUBFRAME];
      LP.SyntFilter(data, off, f, SUBFRAME, mem);
      assert data[..n][off..off + SUBFRAME] == data[off..off + SUBFRAME];
      assert data[..off] == data[..n][..off];
      assert data[off + SUBFRAME..][..n - (off + SUBFRAME)] == data[..n][off + SUBFRAME..];
      assert whole[off + SUBFRAME..][..n - (off + SUBFRAME)] == whole[..n][off + SUBFRAME..];
    }

    /** decodeFrame up to the output filter: from a packet of the right length, whatever its bytes, or for a missing
        one. The samples before synthesis are the excitation, or what the enhancer makes of it. */
    method DecodeFrame(k: RS.Kernel<real>, tools: Tools, packet: Option<seq<Byte>>)
      returns (data: array<real>, concealed: bool, ghost unvoiced: seq<real>)
      requires Valid() && RS.ValidKernel(k) && ValidTools(tools)
      requires packet.Some? ==> |packet.value| == mode.FrameBytes()
      modifies Footprint()
      ensures Valid() && fresh(data) && data.Length == |unvoiced| == 240
      ensures lsfdeqold[..] == L.NextFrequencies(k, mode, old(lsfdeqold[..]), packet)
      ensures var e := EventOf(k, mode, old(lsfdeqold[..]), packet);
              && concealed == e.Missing?
              && concealer.View(mode) == AfterEvent(mode, old(concealer.View(mode)), e, old(lastLag), tools.sqrt)
              && Predictors() == PredictorsOf(mode, old(concealer.View(mode)).lpc, e)
      ensures prevEnhPl == concealed
      ensures if enhancement then
                EnhancedFrame(mode, old(pitch.enhBuf[..]), old(pitch.enhPeriod[..]), pitch.enhBuf[..],
                              pitch.enhPeriod[..], concealer.View(mode).residual, old(prevEnhPl), tools, unvoiced,
                                lastLag)
              else PlainFrame(mode, concealer.View(mode).residual, unvoiced, lastLag)
      ensures data[..mode.FrameSamples()] == Output(old(Predictors()), Predictors(), old(syntMem[..]), unvoiced)
    {
      hide EventOf, AfterEvent, EnhancedFrame, PlainFrame, Spoken, L.NextFrequencies;
      var residual, synt;
      concealed, residual, synt := Excite(k, packet, tools.sqrt);
      data, unvoiced := Render(residual, synt, concealed, tools);
    }

    /** The predictors of the frame decoded last. */
    ghost function Predictors(): (s: seq<real>)
      requires oldSyntdenum.Length == 66
      reads oldSyntdenum
      ensures |s| == COEFFICIENTS * mode.Subframes()
    {
      oldSyntdenum[..COEFFICIENTS * mode.Subframes()]
    }

    /** The synthesis of a frame. */
    ghost function Output(previous: seq<real>, synt: seq<real>, mem: seq<real>, unvoiced: seq<real>): (o: seq<real>)
      requires |previous| == |synt| == COEFFICIENTS * mode.Subframes() && |mem| == ORDER
      requires |unvoiced| >= mode.FrameSamples()
    {
      Spoken(mode, enhancement, previous, synt, mem, unvoiced[..mode.FrameSamples()], mode.Subframes())[ORDER..]
    }

    /** The lag, the output, and what the next frame needs of this one. */
    method Render(residual: seq<real>, synt: seq<real>, concealed: bool, tools: Tools)
      returns (data: array<real>, ghost unvoiced: seq<real>)
      requires Valid() && ValidTools(tools) && |residual| == mode.FrameSamples()
      requires |synt| == COEFFICIENTS * mode.Subframes()
      modifies this`lastLag, this`prevEnhPl, pitch.enhBuf, pitch.enhPeriod, oldSyntdenum, syntMem
      ensures Valid() && fresh(data) && data.Length == |unvoiced| == 240
      ensures Predictors() == synt && prevEnhPl == concealed
      ensures if enhancement then
                EnhancedFrame(mode, old(pitch.enhBuf[..]), old(pitch.enhPeriod[..]), pitch.enhBuf[..],
                              pitch.enhPeriod[..], residual, old(prevEnhPl), tools, unvoiced, lastLag)
              else PlainFrame(mode, residual, unvoiced, lastLag)
      ensures data[..mode.FrameSamples()] == Output(old(Predictors()), synt, old(syntMem[..]), unvoiced)
    {
      hide EnhancedFrame, PlainFrame, Spoken;
      data := Pitch(residual, tools);
      unvoiced := data[..];
      ghost var buf, period := pitch.enhBuf[..], pitch.enhPeriod[..];
      assert unvoiced[..mode.FrameSamples()] == data[..mode.FrameSamples()];
      Speak(data, synt);
      forall i | 0 <= i < COEFFICIENTS * mode.Subframes() { oldSyntdenum[i] := synt[i]; }
      prevEnhPl := concealed;
      assert pitch.enhBuf[..] == buf && pitch.enhPeriod[..] == period;
    }

    /** Any run: packets of the right length with arbitrary bytes, and missing ones, in any order. Every frame starts
        from a lag in range, and the state is the one that the packets and those lags determine. */
    method Play(k: RS.Kernel<real>, tools: Tools, packets: seq<Option<seq<Byte>>>)
      returns (lags: seq<nat>, ghost events: seq<Event>)
      requires Valid() && RS.ValidKernel(k) && ValidTools(tools) && L.ValidPackets(mode, packets)
      modifies Footprint()
      ensures Valid() && |lags| == |packets| && LagsFit(lags)
      ensures lsfdeqold[..] == L.DecoderBefore(k, mode, old(lsfdeqold[..]), packets, |packets|)
      ensures AreEvents(k, mode, old(lsfdeqold[..]), packets, events)
      ensures concealer.View(mode) == RunState(mode, old(concealer.View(mode)), events, lags, tools.sqrt, |packets|)
    {
      hide EventOf, AfterEvent, L.NextFrequencies;
      lags, events := [], [];
      ghost var before, s := lsfdeqold[..], concealer.View(mode);
      for n := 0 to |packets|
        invariant Valid() && |lags| == |events| == n && LagsFit(lags) && EventsFit(mode, events)
        invariant lsfdeqold[..] == L.DecoderBefore(k, mode, before, packets, n)
        invariant EventsUpTo(k, mode, before, packets, events, n)
        invariant concealer.View(mode) == RunState(mode, s, events, lags, tools.sqrt, n)
      {
        ghost var e := EventOf(k, mode, lsfdeqold[..], packets[n]);
        RunsOn(mode, s, events, lags, tools.sqrt, e, lastLag);
        OneMoreEvent(k, mode, before, packets, events, n, e);
        lags, events := lags + [lastLag], events + [e];
        Next(k, tools, packets[n], e);
      }
    }

    /** One frame of a run. */
    method Next(k: RS.Kernel<real>, tools: Tools, packet: Option<seq<Byte>>, ghost e: Event)
      requires Valid() && RS.ValidKernel(k) && ValidTools(tools)
               && (packet.Some? ==> |packet.value| == mode.FrameBytes())
      requires e == EventOf(k, mode, lsfdeqold[..], packet)
      modifies Footprint()
      ensures Valid() && lsfdeqold[..] == L.NextFrequencies(k, mode, old(lsfdeqold[..]), packet)
      ensures concealer.View(mode) == AfterEvent(mode, old(concealer.View(mode)), e, old(lastLag), tools.sqrt)
    {
      hide EventOf, AfterEvent, EnhancedFrame, PlainFrame, Spoken, L.NextFrequencies;
      ghost var unvoiced;
      var data, concealed;
      data, concealed, unvoiced := DecodeFrame(k, tools, packet);
    }
  }

  /** One frame's synthesis: everything that Spoken depends on. */
  datatype Job = Job(mode: Mode, late: bool, previous: seq<real>, synt: seq<real>, mem: seq<real>, data: seq<real>)

  predicate ValidJob(j: Job) {
    |j.previous| == |j.synt| == COEFFICIENTS * j.mode.Subframes() && |j.mem| == ORDER
      && |j.data| == j.mode.FrameSamples()
  }

  function SpokenOf(j: Job, n: nat): (h: seq<real>)
    requires ValidJob(j) && n <= j.mode.Subframes()
    ensures |h| == ORDER + SUBFRAME * n
  {
    Spoken(j.mode, j.late, j.previous, j.synt, j.mem, j.data, n)
  }

  /** The first i subframes are synthesised, the others untouched, and the memory is the end of what was synthesised. */
  ghost predicate SpokenUpTo(j: Job, data: seq<real>, mem: seq<real>, i: nat) {
    && ValidJob(j) && i <= j.mode.Subframes() && |data| == j.mode.FrameSamples()
    && j.mem + data[..SUBFRAME * i] == SpokenOf(j, i)
    && data[SUBFRAME * i..] == j.data[SUBFRAME * i..]
    && mem == LP.Tail(SpokenOf(j, i))
  }

  lemma SpokenNext(j: Job, i: nat)
    requires ValidJob(j) && i < j.mode.Subframes()
    ensures SpokenOf(j, i + 1)
         == SpokenOf(j, i) + LP.Synthesised(FilterAt(j.mode, j.late, j.previous, j.synt, i), LP.Tail(SpokenOf(j, i)),
                                            j.data[SUBFRAME * i..SUBFRAME * (i + 1)])[ORDER..]
  {
  }

  lemma SpokenStep(j: Job, before: seq<real>, after: seq<real>, i: nat)
    requires ValidJob(j) && i < j.mode.Subframes() && |before| == |after| == j.mode.FrameSamples()
    requires SpokenUpTo(j, before, LP.Tail(SpokenOf(j, i)), i)
    requires after[..SUBFRAME * i] == before[..SUBFRAME * i]
    requires after[SUBFRAME * i..SUBFRAME * i + SUBFRAME]
          == LP.Synthesised(FilterAt(j.mode, j.late, j.previous, j.synt, i), LP.Tail(SpokenOf(j, i)),
                            before[SUBFRAME * i..SUBFRAME * i + SUBFRAME])[ORDER..]
    requires after[SUBFRAME * i + SUBFRAME..] == before[SUBFRAME * i + SUBFRAME..]
    ensures SpokenUpTo(j, after, LP.Tail(after[SUBFRAME * i..SUBFRAME * i + SUBFRAME]), i + 1)
  {
    hide SpokenOf, FilterAt, LP.Synthesised;
    var h, v := SpokenOf(j, i), after[SUBFRAME * i..SUBFRAME * i + SUBFRAME];
    SpokenNext(j, i);
    assert before[SUBFRAME * i..SUBFRAME * i + SUBFRAME] == before[SUBFRAME * i..][..SUBFRAME]
             == j.data[SUBFRAME * i..SUBFRAME * (i + 1)];
    assert SpokenOf(j, i + 1) == h + v;
    assert after[..SUBFRAME * (i + 1)] == after[..SUBFRAME * i] + v;
    assert j.mem + after[..SUBFRAME * (i + 1)] == j.mem + after[..SUBFRAME * i] + v;
    assert after[SUBFRAME * (i + 1)..] == before[SUBFRAME * i..][SUBFRAME..];
    assert LP.Tail(h + v) == LP.Tail(v);
  }

  // ---- Runs ----

  predicate LagsFit(lags: seq<nat>) {
    forall i | 0 <= i < |lags| :: LagFits(lags[i])
  }

  predicate EventsFit(mode: Mode, events: seq<Event>) {
    forall i | 0 <= i < |events| :: ValidEvent(mode, events[i])
  }

  /** The events of a run's first n packets. */
  ghost predicate EventsUpTo(k: RS.Kernel<real>, mode: Mode, before: seq<real>, packets: seq<Option<seq<Byte>>>,
                             events: seq<Event>, n: nat)
    requires RS.ValidKernel(k) && |before| == ORDER && L.ValidPackets(mode, packets) && n <= |packets|
  {
    && |events| == n
    && forall i: nat {:trigger IsEvent(k, mode, before, packets, i, events[i])} | i < n ::
         IsEvent(k, mode, before, packets, i, events[i])
  }

  ghost predicate IsEvent(k: RS.Kernel<real>, mode: Mode, before: seq<real>, packets: seq<Option<seq<Byte>>>, i: nat,
                          e: Event)
    requires RS.ValidKernel(k) && |before| == ORDER && L.ValidPackets(mode, packets) && i < |packets|
  {
    e == EventOf(k, mode, L.DecoderBefore(k, mode, before, packets, i), packets[i])
  }

  ghost predicate AreEvents(k: RS.Kernel<real>, mode: Mode, before: seq<real>, packets: seq<Option<seq<Byte>>>,
                            events: seq<Event>)
    requires RS.ValidKernel(k) && |before| == ORDER && L.ValidPackets(mode, packets)
  {
    EventsUpTo(k, mode, before, packets, events, |packets|) && EventsFit(mode, events)
  }

  lemma NoPacketIsMissing(k: RS.Kernel<real>, mode: Mode, before: seq<real>, packets: seq<Option<seq<Byte>>>,
                          i: nat, e: Event)
    requires RS.ValidKernel(k) && |before| == ORDER && L.ValidPackets(mode, packets) && i < |packets|
    requires packets[i] == None && IsEvent(k, mode, before, packets, i, e)
    ensures e == Missing
  {
  }

  lemma OneMoreEvent(k: RS.Kernel<real>, mode: Mode, before: seq<real>, packets: seq<Option<seq<Byte>>>,
                     events: seq<Event>, n: nat, e: Event)
    requires RS.ValidKernel(k) && |before| == ORDER && L.ValidPackets(mode, packets) && n < |packets|
    requires EventsUpTo(k, mode, before, packets, events, n)
    requires e == EventOf(k, mode, L.DecoderBefore(k, mode, before, packets, n), packets[n])
    ensures EventsUpTo(k, mode, before, packets, events + [e], n + 1)
  {
    hide EventOf, L.DecoderBefore;
    var longer := events + [e];
    forall i: nat | i < n + 1
      ensures IsEvent(k, mode, before, packets, i, longer[i])
    {
      if i < n {
        assert IsEvent(k, mode, before, packets, i, events[i]);
      }
    }
  }

  /** The concealment state after n events, given the lag that each started from. */
  function RunState(mode: Mode, s: State, events: seq<Event>, lags: seq<nat>, sqrt: real -> real, n: nat): (t: State)
    requires ValidState(mode, s) && EventsFit(mode, events) && LagsFit(lags) && n <= |events| && n <= |lags|
    ensures ValidState(mode, t)
  {
    if n == 0 then s else AfterEvent(mode, RunState(mode, s, events, lags, sqrt, n - 1), events[n - 1], lags[n - 1],
                                     sqrt)
  }

  lemma {:induction false} LongerRun(mode: Mode, s: State, events: seq<Event>, lags: seq<nat>, sqrt: real -> real,
                                     n: nat, e: Event, lag: nat)
    requires ValidState(mode, s) && EventsFit(mode, events) && LagsFit(lags) && n <= |events| && n <= |lags|
    requires ValidEvent(mode, e) && LagFits(lag)
    ensures EventsFit(mode, events + [e]) && LagsFit(lags + [lag])
    ensures RunState(mode, s, events + [e], lags + [lag], sqrt, n) == RunState(mode, s, events, lags, sqrt, n)
  {
    hide AfterEvent;
    if n > 0 {
      LongerRun(mode, s, events, lags, sqrt, n - 1, e, lag);
    }
  }

  /** One event more. */
  lemma RunsOn(mode: Mode, s: State, events: seq<Event>, lags: seq<nat>, sqrt: real -> real, e: Event, lag: nat)
    requires ValidState(mode, s) && EventsFit(mode, events) && LagsFit(lags) && |events| == |lags|
    requires ValidEvent(mode, e) && LagFits(lag)
    ensures EventsFit(mode, events + [e]) && LagsFit(lags + [lag])
    ensures RunState(mode, s, events + [e], lags + [lag], sqrt, |events| + 1)
         == AfterEvent(mode, RunState(mode, s, events, lags, sqrt, |events|), e, lag, sqrt)
  {
    LongerRun(mode, s, events, lags, sqrt, |events|, e, lag);
  }

  /** A decoder that plays what arrives of an encoder's run has the encoder's local excitation in every frame that it
      receives after receiving the one before, and the encoder's frequencies after every received frame. */
  lemma DecoderFollowsEncoder(k: RS.Kernel<real>, mode: Mode, lsfmean: seq<real>, s: State, sent: seq<L.Sent<real>>,
                              lost: seq<bool>, events: seq<Event>, lags: seq<nat>, sqrt: real -> real, n: nat)
    requires RS.ValidKernel(k) && |lsfmean| == ORDER && L.IsEncoderRun(k, mode, lsfmean, sent)
    requires n < |sent| == |lost| == |lags| && ValidState(mode, s) && LagsFit(lags) && !lost[n]
    requires L.ValidPackets(mode, L.Arriving(sent, lost)) && AreEvents(k, mode, lsfmean, L.Arriving(sent, lost), events)
    ensures L.DecoderBefore(k, mode, lsfmean, L.Arriving(sent, lost), n + 1) == sent[n].after
    ensures n == 0 || !lost[n - 1] || (mode.Mode30? && sent[n].start >= 2) ==>
              RunState(mode, s, events, lags, sqrt, n + 1).residual == sent[n].residual
  {
    hide Lose, L.Hear, L.IsSent;
    L.LockStep(k, mode, lsfmean, sent, lost, n);
    assert IsEvent(k, mode, lsfmean, L.Arriving(sent, lost), n, events[n]);
  }

  /** Missing packets in a row are a burst. */
  lemma {:induction false} MissingIsBurst(mode: Mode, s: State, events: seq<Event>, lags: seq<nat>,
                                          sqrt: real -> real, n: nat, m: nat)
    requires ValidState(mode, s) && EventsFit(mode, events) && LagsFit(lags) && n + m <= |events| == |lags|
    requires forall i | n <= i < n + m :: events[i] == Missing
    ensures RunState(mode, s, events, lags, sqrt, n + m)
         == Burst(mode, RunState(mode, s, events, lags, sqrt, n), lags[n..], m, Actual(sqrt))
  {
    hide Lose;
    if m > 0 {
      MissingIsBurst(mode, s, events, lags, sqrt, n, m - 1);
      assert n + (m - 1) == n + m - 1;
      assert events[n + m - 1] == Missing && lags[n..][m - 1] == lags[n + m - 1];
    }
  }

  /** However a run went before, the excitation is zero from the 9th (20 ms) or 6th (30 ms) missing frame in a row until
      one is received. */
  lemma LongLossIsSilent(mode: Mode, s: State, events: seq<Event>, lags: seq<nat>, sqrt: real -> real, n: nat, m: nat)
    requires ValidState(mode, s) && EventsFit(mode, events) && LagsFit(lags) && n + m <= |events| == |lags|
    requires forall i | n <= i < n + m :: events[i] == Missing
    requires m >= (if mode.Mode20? then 9 else 6)
    ensures IsSilent(RunState(mode, s, events, lags, sqrt, n + m).residual)
  {
    MissingIsBurst(mode, s, events, lags, sqrt, n, m);
    BurstEndsInSilence(mode, RunState(mode, s, events, lags, sqrt, n), lags[n..], m, Actual(sqrt));
  }
}
