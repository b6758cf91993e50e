/** The enhancer's history over frames: the sample buffer, one pitch period for
    each of its blocks, and the repair of its end after a lost frame. */
module EnhancerInterface {
  import opened Basics
  import opened RealArithmetic
  import opened Vectors
  import opened Nearest
  import opened FrameFormat
  import opened PitchSearch
  import opened Enhancer
  import R = Resampling
  import S = Smoothing

  const PLOCS: seq<int> := [40, 120, 200, 280, 360, 440, 520, 600]
  const ALPHA0: real := 0.05
  const DOWNSAMPLED: nat := 180

  /** Blocks that one frame adds, and the block length that the repair after a loss works on. */
  function NewBlocks(mode: Mode): nat {
    if mode.Mode20? then 2 else 3
  }

  function RepairLength(mode: Mode): nat {
    if mode.Mode20? then 40 else 80
  }

  /** Where the down-sampled part of the history begins. */
  function PitchStart(mode: Mode): nat {
    if mode.Mode20? then 360 else 280
  }

  /** Where enhanced block i is cut out of the history: one and a half or two blocks late. */
  function CentreOf(mode: Mode, i: nat): nat {
    if mode.Mode20? then (5 + i) * 80 + 40 else (4 + i) * 80
  }

  /** The history after a frame, before any repair. */
  function Moved(buf: seq<real>, input: seq<real>): (b: seq<real>)
    requires |buf| == HISTORY && |input| <= HISTORY
    ensures |b| == HISTORY
  {
    buf[|input|..] + input
  }

  /** The down-sampled end of the history. */
  ghost predicate IsDownSampled(buf: seq<real>, coef: seq<real>, mode: Mode, d: seq<real>)
    requires |buf| == HISTORY && |coef| == 7
  {
    var start := PitchStart(mode);
    |d| == DOWNSAMPLED && forall t: nat | t < (HISTORY - start) / 2 ::
      d[t] == R.Decimated(coef, buf[start - 6..start], buf[start..], t)
  }

  /** The pitch of new block i: twice the best lag at half the rate. */
  ghost predicate IsPitch(d: seq<real>, i: nat, period: int)
    requires |d| == DOWNSAMPLED && i < 3
  {
    exists lag: nat :: IsPitchOf(d, i, period, lag)
  }

  ghost predicate IsPitchOf(d: seq<real>, i: nat, period: int, lag: nat)
    requires |d| == DOWNSAMPLED && i < 3
  {
    period == 2 * lag && IsGreatest(BackCorrelations(d, 60 + 40 * i, 40, 60), 10, 60, lag)
  }

  /** The period at place x of the list of periods is that of its block. */
  ghost predicate PitchAt(mode: Mode, d: seq<real>, periods: seq<int>, x: nat)
    requires |d| == DOWNSAMPLED && |periods| == PERIODS && PERIODS - NewBlocks(mode) <= x < PERIODS
  {
    20 <= periods[x] <= 118 && IsPitch(d, x - (PERIODS - NewBlocks(mode)), periods[x])
  }

  // ---- The repair after a lost frame ----

  /** Sample j of the prediction: the frame read backwards from one period into it, continued by the history. */
  function Predicted(input: seq<real>, past: seq<real>, lag: nat, len: nat, j: nat): real
    requires j < len <= |past| && 0 < lag <= |input|
  {
    if lag + j >= len then input[lag + j - len] else past[|past| + lag + j - len]
  }

  method Predict(input: seq<real>, past: seq<real>, lag: nat, len: nat) returns (plcPred: seq<real>)
    requires len <= |past| && 0 < lag <= |input| && len > 0
    ensures plcPred == seq(len, j requires 0 <= j < len => Predicted(input, past, lag, len, j))
  {
    var a := new real[len](i => 0.0);
    var start := if lag > len then len else lag;
    for k := 0 to start
      invariant forall j | len - k <= j < len :: a[j] == Predicted(input, past, lag, len, j)
    {
      a[len - 1 - k] := input[lag - 1 - k];
    }
    for k := 0 to len - start
      invariant forall j | len - start - k <= j < len :: a[j] == Predicted(input, past, lag, len, j)
    {
      a[len - 1 - start - k] := past[|past| - 1 - k];
    }
    plcPred := a[..];
  }

  /** The root of a block's mean square. */
  function Level(sqrt: real -> real, u: seq<real>): real {
    sqrt(Quotient(Energy(u), |u| as real))
  }

  /** How much a prediction twice as loud as the past is reduced: fully at its beginning, less over its last ten
      samples. */
  function Reduction(ratio: real, len: nat, j: nat): real {
    if j + 10 < len then ratio else (j - len + 10) as real * (1.0 - ratio) / 10.0 + ratio
  }

  /** The prediction after the level check. */
  function Levelled(sqrt: real -> real, pred: seq<real>, past: seq<real>): (p: seq<real>)
    ensures |p| == |pred|
  {
    var f1, f2 := Level(sqrt, pred), Level(sqrt, past);
    if f1 > 2.0 * f2 && f1 > 0.0 then
      seq(|pred|, j requires 0 <= j < |pred| => pred[j] * Reduction(2.0 * f2 / f1, |pred|, j))
    else pred
  }

  method CheckLevel(sqrt: real -> real, pred: seq<real>, past: seq<real>) returns (p: seq<real>)
    ensures p == Levelled(sqrt, pred, past)
  {
    var e1 := DotProduct(pred, pred);
    var e2 := DotProduct(past, past);
    var f1, f2 := sqrt(Quotient(e1, |pred| as real)), sqrt(Quotient(e2, |past| as real));
    p := pred;
    if f1 > 2.0 * f2 && f1 > 0.0 {
      var ratio := 2.0 * f2 / f1;
      p := seq(|pred|, j requires 0 <= j < |pred| => pred[j] * Reduction(ratio, |pred|, j));
    }
  }

  /** The weight of the history in the cross-fade, i samples before the frame. */
  function Keep(i: nat, len: nat): real {
    (i + 1) as real / (len + 1) as real
  }

  function Faded(past: real, pred: real, weight: real): real {
    past * weight + (1.0 - weight) * pred
  }

  /** The history with its last samples before the frame faded into the prediction. */
  function Repaired(buf: seq<real>, frame: nat, pred: seq<real>): (b: seq<real>)
    requires |buf| == HISTORY && frame + |pred| <= HISTORY
    ensures |b| == HISTORY
  {
    seq(HISTORY, x requires 0 <= x < HISTORY =>
      var i := HISTORY - 1 - frame - x;
      if 0 <= i < |pred| then Faded(buf[x], pred[|pred| - 1 - i], Keep(i, |pred|)) else buf[x])
  }

  method FadeIn(enhBuf: array<real>, frame: nat, pred: seq<real>)
    requires enhBuf.Length == HISTORY && frame + |pred| <= HISTORY
    modifies enhBuf
    ensures enhBuf[..] == Repaired(old(enhBuf[..]), frame, pred)
  {
    ghost var before := enhBuf[..];
    var last: int := HISTORY - 1 - frame;
    for i := 0 to |pred|
      invariant forall x | 0 <= x < HISTORY && !(last - i < x <= last) :: enhBuf[x] == before[x]
      invariant forall x | last - i < x <= last && 0 <= x :: enhBuf[x] == Repaired(before, frame, pred)[x]
    {
      enhBuf[last - i] := Faded(enhBuf[last - i], pred[|pred| - 1 - i], Keep(i, |pred|));
    }
  }

  // ---- The history ----

  /** The two tables of the interpolating and decimating filters, and the functions of the smoother. */
  datatype Tools = Tools(lowPass: seq<real>, polyphase: seq<real>, cos: real -> real, sqrt: real -> real)

  ghost predicate ValidTools(t: Tools) {
    |t.lowPass| == 7 && |t.polyphase| == TABLE && S.IsSqrt(t.sqrt)
  }

  /** The periods after the pitch search: the old ones moved down, the new ones found in the moved history. */
  ghost predicate FoundPeriods(mode: Mode, before: seq<int>, after: seq<int>, d: seq<real>)
    requires |before| == PERIODS && |d| == DOWNSAMPLED
  {
    var n := NewBlocks(mode);
    && |after| == PERIODS
    && (forall x: nat | PERIODS - n <= x < PERIODS :: PitchAt(mode, d, after, x))
    && (forall i | 0 <= i < PERIODS - n :: after[i] == before[i + n])
  }

  /** The periods after a frame: those found, and after a loss the one before the new ones replaced by the best lag
      within the frame. */
  ghost predicate NewPeriods(mode: Mode, before: seq<int>, after: seq<int>, d: seq<real>, input: seq<real>,
                             afterLoss: bool)
    requires |before| == PERIODS && |d| == DOWNSAMPLED && |input| == mode.FrameSamples()
  {
    var at := PERIODS - NewBlocks(mode) - 1;
    exists found: seq<int> :: FoundPeriods(mode, before, found, d)
      && if afterLoss then |after| == PERIODS && after == found[at := after[at]]
           && IsRepairLag(mode, input, found[at + 1], after[at])
         else after == found
  }

  /** The best lag within one sample of the first new block's period. */
  ghost predicate IsRepairLag(mode: Mode, input: seq<real>, period: int, lag: int)
    requires |input| == mode.FrameSamples()
  {
    && 20 <= period <= 118 && lag >= 0
    && IsGreatest(ForwardCorrelations(input, RepairLength(mode), period + 2), period - 1, period + 2, lag)
  }

  function Prediction(mode: Mode, moved: seq<real>, input: seq<real>, lag: nat): (p: seq<real>)
    requires |moved| == HISTORY && |input| == mode.FrameSamples() && 0 < lag <= |input|
    ensures |p| == RepairLength(mode)
  {
    seq(RepairLength(mode), j requires 0 <= j < RepairLength(mode) =>
      Predicted(input, moved[..HISTORY - |input|], lag, RepairLength(mode), j))
  }

  /** The samples just before the frame. */
  function JustBefore(mode: Mode, moved: seq<real>): (p: seq<real>)
    requires |moved| == HISTORY
    ensures |p| == RepairLength(mode)
  {
    moved[HISTORY - mode.FrameSamples() - RepairLength(mode)..HISTORY - mode.FrameSamples()]
  }

  /** The history after a frame: moved, and after a loss faded into the prediction. */
  ghost predicate NewHistory(mode: Mode, moved: seq<real>, after: seq<real>, input: seq<real>, afterLoss: bool,
                             lag: int, sqrt: real -> real)
    requires |moved| == HISTORY && |input| == mode.FrameSamples()
  {
    if afterLoss then
      && 0 < lag <= |input|
      && after == Repaired(moved, |input|, Levelled(sqrt, Prediction(mode, moved, input, lag), JustBefore(mode, moved)))
    else after == moved
  }

  /** What the enhancer does to its history and makes of a frame. */
  ghost predicate EnhancedFrame(mode: Mode, buf: seq<real>, periods: seq<int>, buf': seq<real>, periods': seq<int>,
                                input: seq<real>, afterLoss: bool, tools: Tools, out: seq<real>, lastLag: nat)
  {
    exists d :: IsEnhancedFrame(mode, buf, periods, buf', periods', input, afterLoss, tools, out, lastLag, d)
  }

  ghost predicate IsEnhancedFrame(mode: Mode, buf: seq<real>, periods: seq<int>, buf': seq<real>, periods': seq<int>,
                                  input: seq<real>, afterLoss: bool, tools: Tools, out: seq<real>, lastLag: nat,
                                  d: seq<real>)
  {
    && ValidTools(tools) && |input| == mode.FrameSamples() && |out| == 240
    && |buf| == |buf'| == HISTORY && ValidPeriods(periods) && ValidPeriods(periods')
    && IsDownSampled(Moved(buf, input), tools.lowPass, mode, d) && lastLag == periods'[PERIODS - 1]
    && NewPeriods(mode, periods, periods', d, input, afterLoss)
    && NewHistory(mode, Moved(buf, input), buf', input, afterLoss, periods'[PERIODS - NewBlocks(mode) - 1], tools.sqrt)
    && AreEnhanced(mode, buf', periods', tools, out, NewBlocks(mode))
  }

  class PitchHistory {
    const enhBuf: array<real>
    const enhPeriod: array<int>

    ghost predicate Valid()
      reads this, enhPeriod
    {
      enhBuf.Length == HISTORY && enhPeriod.Length == PERIODS && ValidPeriods(enhPeriod[..])
    }

    constructor ()
      ensures Valid() && fresh(enhBuf) && fresh(enhPeriod)
      ensures enhPeriod[..] == seq(PERIODS, i => 40) && enhBuf[..] == seq(HISTORY, i => 0.0)
    {
      enhBuf := new real[HISTORY](i => 0.0);
      enhPeriod := new int[PERIODS](i => 40);
    }

    /** The frame enters the history. */
    method MoveHistory(input: seq<real>)
      requires Valid() && |input| <= HISTORY
      modifies enhBuf
      ensures enhBuf[..] == Moved(old(enhBuf[..]), input)
    {
      var n := |input|;
      forall i | 0 <= i < HISTORY - n { enhBuf[i] := enhBuf[i + n]; }
      forall i | 0 <= i < n { enhBuf[HISTORY - n + i] := input[i]; }
    }

    /** The down-sampled end of the history. */
    method DownSampled(mode: Mode, coef: seq<real>) returns (d: seq<real>)
      requires Valid() && |coef| == 7
      ensures IsDownSampled(enhBuf[..], coef, mode, d)
    {
      var downsampled := new real[DOWNSAMPLED](i => 0.0);
      var start, buf := PitchStart(mode), enhBuf[..];
      R.DownSample(buf[start..], coef, buf[start - 6..start], downsampled);
      d := downsampled[..];
    }

    /** The pitch of the new blocks. */
    method FindPeriods(mode: Mode, d: seq<real>) returns (lastLag: nat)
      requires Valid() && |d| == DOWNSAMPLED
      modifies enhPeriod
      ensures Valid() && 20 <= lastLag <= 118 && lastLag == enhPeriod[PERIODS - 1]
      ensures FoundPeriods(mode, old(enhPeriod[..]), enhPeriod[..], d)
    {
      var n := NewBlocks(mode);
      ghost var before := enhPeriod[..];
      forall i | 0 <= i < PERIODS - n { enhPeriod[i] := enhPeriod[i + n]; }
      lastLag := 0;
      for x := PERIODS - n to PERIODS
        invariant forall i | 0 <= i < PERIODS - n :: enhPeriod[i] == before[i + n]
        invariant forall y: nat | PERIODS - n <= y < x :: PitchAt(mode, d, enhPeriod[..], y)
        invariant x > PERIODS - n ==> 20 <= lastLag <= 118 && lastLag == enhPeriod[x - 1]
      {
        ghost var previous := enhPeriod[..];
        lastLag := FindPitch(d, x - (PERIODS - n));
        enhPeriod[x] := lastLag;
        forall y: nat | PERIODS - n <= y < x
          ensures PitchAt(mode, d, enhPeriod[..], y)
        {
          assert PitchAt(mode, d, previous, y);
        }
      }
      FoundAreValid(mode, before, enhPeriod[..], d);
    }

    /** The pitch of one block. */
    static method FindPitch(d: seq<real>, iblock: nat) returns (period: nat)
      requires |d| == DOWNSAMPLED && iblock < 3
      ensures IsPitch(d, iblock, period) && 20 <= period <= 118
    {
      var lag := BestBackLag(d, 60 + 40 * iblock, 40, 10, 60);
      period := 2 * lag;
      assert IsPitchOf(d, iblock, period, lag);
    }

    /** The repair of the history's end after a lost frame. */
    method Repair(mode: Mode, input: seq<real>, sqrt: real -> real)
      requires Valid() && |input| == mode.FrameSamples() && 20 <= enhPeriod[PERIODS - NewBlocks(mode)] <= 118
      modifies enhBuf, enhPeriod
      ensures Valid()
      ensures var at := PERIODS - NewBlocks(mode) - 1;
              && enhPeriod[..] == old(enhPeriod[..])[at := enhPeriod[at]]
              && IsRepairLag(mode, input, enhPeriod[at + 1], enhPeriod[at])
              && NewHistory(mode, old(enhBuf[..]), enhBuf[..], input, true, enhPeriod[at], sqrt)
    {
      var at := PERIODS - NewBlocks(mode) - 1;
      var lag := FindRepairLag(mode, input, enhPeriod[at + 1]);
      enhPeriod[at] := lag;
      RepairBuffer(mode, input, sqrt, lag);
    }

    static method FindRepairLag(mode: Mode, input: seq<real>, inlag: nat) returns (lag: nat)
      requires |input| == mode.FrameSamples() && 20 <= inlag <= 118
      ensures IsRepairLag(mode, input, inlag, lag) && 19 <= lag <= 119
    {
      lag := BestForwardLag(input, RepairLength(mode), inlag - 1, inlag + 2);
    }

    method RepairBuffer(mode: Mode, input: seq<real>, sqrt: real -> real, lag: nat)
      requires enhBuf.Length == HISTORY && |input| == mode.FrameSamples() && 0 < lag <= |input|
      modifies enhBuf
      ensures NewHistory(mode, old(enhBuf[..]), enhBuf[..], input, true, lag, sqrt)
    {
      var n, buf := mode.FrameSamples(), enhBuf[..];
      var pred := Predict(input, buf[..HISTORY - n], lag, RepairLength(mode));
      assert pred == Prediction(mode, buf, input, lag);
      pred := CheckLevel(sqrt, pred, JustBefore(mode, buf));
      FadeIn(enhBuf, n, pred);
    }

    /** enhancerInterface: the periods stay in range whatever the samples are, so that the segment search stays inside
        the history, and every output block is a smoothed search result. */
    method Interface(mode: Mode, out: array<real>, input: seq<real>, afterLoss: bool, tools: Tools)
      returns (lastLag: nat)
      requires Valid() && ValidTools(tools) && |input| == mode.FrameSamples() && out.Length == 240 && out != enhBuf
      modifies enhBuf, enhPeriod, out
      ensures Valid() && 20 <= lastLag <= 118
      ensures EnhancedFrame(mode, old(enhBuf[..]), old(enhPeriod[..]), enhBuf[..], enhPeriod[..], input, afterLoss,
                            tools, out[..], lastLag)
    {
      ghost var buf, periods := enhBuf[..], enhPeriod[..];
      MoveHistory(input);
      var d := DownSampled(mode, tools.lowPass);
      lastLag := FindPeriods(mode, d);
      ghost var found := enhPeriod[..];
      if afterLoss {
        assert PitchAt(mode, d, found, PERIODS - NewBlocks(mode));
        Repair(mode, input, tools.sqrt);
      }
      assert FoundPeriods(mode, periods, found, d);
      EnhanceBlocks(mode, out, tools);
      assert IsEnhancedFrame(mode, buf, periods, enhBuf[..], enhPeriod[..], input, afterLoss, tools, out[..],
                             lastLag, d);
    }

    method EnhanceBlocks(mode: Mode, out: array<real>, tools: Tools)
      requires Valid() && ValidTools(tools) && out.Length == 240 && out != enhBuf
      modifies out
      ensures AreEnhanced(mode, enhBuf[..], enhPeriod[..], tools, out[..], NewBlocks(mode))
    {
      var buf, period := enhBuf[..], enhPeriod[..];
      for iblock := 0 to NewBlocks(mode)
        invariant AreEnhanced(mode, buf, period, tools, out[..], iblock)
      {
        ghost var before := out[..];
        EnhanceBlock(mode, buf, period, out, iblock, tools);
        EnhancedStay(mode, buf, period, tools, before, out[..], iblock);
      }
    }

    /** One block. */
    static method EnhanceBlock(mode: Mode, buf: seq<real>, period: seq<int>, out: array<real>, iblock: nat,
                               tools: Tools)
      requires |buf| == HISTORY && ValidPeriods(period) && ValidTools(tools) && out.Length == 240
               && iblock < NewBlocks(mode)
      modifies out
      ensures IsEnhanced(mode, buf, period, tools, iblock, BlockOf(out[..], iblock))
      ensures forall i | 0 <= i < 240 && !(BLOCK * iblock <= i < BLOCK * iblock + BLOCK) :: out[i] == old(out[i])
    {
      var g := Setting(buf, tools.polyphase, PLOCS, period, CentreOf(mode, iblock));
      ghost var segments, pos, blocks := Enhance(g, out, BLOCK * iblock, ALPHA0, tools.cos, tools.sqrt);
      assert IsEnhancedFrom(g, tools, segments, pos, blocks, out[BLOCK * iblock..BLOCK * iblock + BLOCK]);
    }
  }

  lemma FoundAreValid(mode: Mode, before: seq<int>, after: seq<int>, d: seq<real>)
    requires |d| == DOWNSAMPLED && ValidPeriods(before) && FoundPeriods(mode, before, after, d)
    ensures ValidPeriods(after)
  {
    forall i | 0 <= i < PERIODS
      ensures 19 <= after[i] <= 119
    {
      if i >= PERIODS - NewBlocks(mode) {
        assert PitchAt(mode, d, after, i);
      }
    }
  }

  function BlockOf(out: seq<real>, i: nat): (o: seq<real>)
    requires |out| == 240 && i < 3
    ensures |o| == BLOCK
  {
    out[BLOCK * i..BLOCK * i + BLOCK]
  }

  /** The first n output blocks are enhanced. */
  ghost predicate AreEnhanced(mode: Mode, buf: seq<real>, period: seq<int>, tools: Tools, out: seq<real>, n: nat)
    requires |buf| == HISTORY && ValidPeriods(period) && |tools.polyphase| == TABLE && n <= NewBlocks(mode)
             && |out| == 240
  {
    forall i: nat {:trigger BlockOf(out, i)} | i < n :: IsEnhanced(mode, buf, period, tools, i, BlockOf(out, i))
  }

  lemma EnhancedStay(mode: Mode, buf: seq<real>, period: seq<int>, tools: Tools, before: seq<real>, after: seq<real>,
                     n: nat)
    requires |buf| == HISTORY && ValidPeriods(period) && |tools.polyphase| == TABLE && n < NewBlocks(mode)
             && |before| == |after| == 240
    requires AreEnhanced(mode, buf, period, tools, before, n)
             && IsEnhanced(mode, buf, period, tools, n, BlockOf(after, n))
    requires forall i | 0 <= i < 240 && !(BLOCK * n <= i < BLOCK * n + BLOCK) :: after[i] == before[i]
    ensures AreEnhanced(mode, buf, period, tools, after, n + 1)
  {
    forall i: nat | i < n
      ensures IsEnhanced(mode, buf, period, tools, i, BlockOf(after, i))
    {
      assert BlockOf(after, i) == BlockOf(before, i);
    }
  }

  /** One output block: a search around its centre, smoothed. */
  ghost predicate IsEnhanced(mode: Mode, buf: seq<real>, period: seq<int>, tools: Tools, i: nat, o: seq<real>)
    requires |buf| == HISTORY && ValidPeriods(period) && |tools.polyphase| == TABLE && i < NewBlocks(mode)
             && |o| == BLOCK
  {
    exists segments, pos, blocks ::
      IsEnhancedFrom(Setting(buf, tools.polyphase, PLOCS, period, CentreOf(mode, i)), tools, segments, pos, blocks, o)
  }

  ghost predicate IsEnhancedFrom(g: Setting, tools: Tools, segments: seq<real>, pos: seq<int>, blocks: seq<nat>,
                                 o: seq<real>)
    requires ValidSetting(g) && |o| == BLOCK
  {
    && IsSearch(g, segments, pos, blocks)
    && S.Smoothed(o, S.Surround(segments, S.NeighbourWeights(tools.cos, HALF), HALF), S.Centre(segments, HALF), ALPHA0)
  }
}
