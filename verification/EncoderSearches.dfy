/** The encoder's decisions made by the verified searches: the classifier, the
    scalar quantiser and the codebook search over the weighted memory and
    target. */
module EncoderSearches {
  import opened Basics
  import opened FrameFormat
  import opened Vectors
  import opened CodebookSearch
  import opened StagedSearch
  import opened ResidualSpec
  import opened ResidualDecoding
  import opened EncoderModel
  import C = Codebook
  import GQ = GainQuantisation
  import SQ = ScalarQuantisation
  import FC = FrameClassify
  import LP = LinearPrediction

  /** The codebook filter and the quantisers' tables. */
  datatype SearchTables = SearchTables(taps: seq<real>, gains: GQ.Tables, scales: seq<real>, levels: seq<real>)

  ghost predicate ValidSearchTables(t: SearchTables) {
    && |t.taps| == C.TAPS && GQ.ValidTables(t.gains) && PositiveRising(t.gains.sq5)
    && |t.scales| == 64 && SQ.Rising(t.scales) && |t.levels| == 8 && SQ.Rising(t.levels)
  }

  /** Memory and target, filtered together by the weighting filter from a zero state. */
  function Weighted(q: Request<real>): (w: seq<real>)
    requires |q.weights| == COEFFICIENTS
    ensures |w| == |q.memory| + |q.target|
  {
    LP.Synthesised(q.weights, seq(ORDER, i => 0.0), q.memory + q.target)[ORDER..]
  }

  function BookOf(t: SearchTables, mode: Mode, q: Request<real>): (k: Book)
    requires IsRequest(mode, q) && |t.taps| == C.TAPS
    ensures ValidBook(k) && k.veclen == |q.target| && ValidRanges(k, SearchRange(q.block))
  {
    var k := Book(t.taps, Weighted(q)[..|q.memory|], |q.target|);
    IndexSpace(k, q.block, 0, 0);
    k
  }

  function TargetOf(q: Request<real>): (target: seq<real>)
    requires |q.weights| == COEFFICIENTS
    ensures |target| == |q.target|
  {
    Weighted(q)[|q.memory|..]
  }

  /** Three stages of the search, and the corrected first gain index. */
  ghost predicate IsSearchResult(t: SearchTables, mode: Mode, q: Request<real>, c: Code)
    requires ValidSearchTables(t) && IsRequest(mode, q)
  {
    |c.gain| == STAGES && exists g0: nat :: IsSearchResultFrom(t, mode, q, c, g0)
  }

  ghost predicate IsSearchResultFrom(t: SearchTables, mode: Mode, q: Request<real>, c: Code, g0: nat)
    requires ValidSearchTables(t) && IsRequest(mode, q) && |c.gain| == STAGES
  {
    var k, gains := BookOf(t, mode, q), c.gain[0 := g0];
    && SearchedUpTo(k, t.gains, SearchRange(q.block), TargetOf(q), c.index, gains, STAGES)
    && Corrected(t.gains.sq5, g0, Energy(Built(k, t.gains, c.index, gains, STAGES)), Energy(TargetOf(q)), c.gain[0])
  }

  /** Every index that a search returns is in its range: seven bits for the extra vector, the renumbered set for the
      later stages of the first subframe, eight bits otherwise; every gain index, corrected or not, fits its table. */
  lemma SearchResultFits(t: SearchTables, mode: Mode, q: Request<real>, c: Code)
    requires ValidSearchTables(t) && IsRequest(mode, q) && IsSearchResult(t, mode, q, c)
    ensures CodeInSpace(c, q.block)
  {
    var k, ranges := BookOf(t, mode, q), SearchRange(q.block);
    var g0: nat :| IsSearchResultFrom(t, mode, q, c, g0);
    var gains := c.gain[0 := g0];
    forall s: nat | s < STAGES
      ensures IndexInSpace(q.block, s, c.index[s]) && c.gain[s] < LEVELS[s]
    {
      StageIndexInSpace(k, t.gains, ranges, TargetOf(q), c.index, gains, s);
      IndexSpace(k, q.block, s, c.index[s]);
    }
  }

  lemma StageIndexInSpace(k: Book, tables: GQ.Tables, ranges: seq<nat>, target: seq<real>, index: seq<nat>,
                          gains: seq<nat>, s: nat)
    requires ValidBook(k) && GQ.ValidTables(tables) && |target| == k.veclen && ValidRanges(k, ranges) && s < STAGES
    requires SearchedUpTo(k, tables, ranges, target, index, gains, STAGES)
    ensures InSpace(k, ranges[s], index[s]) && gains[s] < LEVELS[s]
  {
    assert StageDone(k, tables, ranges, target, index, gains, s);
  }

  /** The weighting and the search for one request. */
  method Search(t: SearchTables, mode: Mode, q: Request<real>) returns (c: Code)
    requires ValidSearchTables(t) && IsRequest(mode, q)
    ensures IsSearchResult(t, mode, q, c) && CodeInSpace(c, q.block)
  {
    var n := |q.memory| + |q.target|;
    var input := q.memory + q.target;
    var buf := new real[ORDER + n](i requires 0 <= i < ORDER + n => if i < ORDER then 0.0 else input[i - ORDER]);
    assert buf[..ORDER] == seq(ORDER, i => 0.0) && buf[ORDER..ORDER + n] == input;
    LP.AllPoleFilter(buf, q.weights, n);
    var w := buf[ORDER..ORDER + n];
    assert w == Weighted(q) by { assert buf[..ORDER + n][ORDER..] == w; }
    var k := Book(t.taps, w[..|q.memory|], |q.target|);
    assert k == BookOf(t, mode, q) && w[|q.memory|..] == TargetOf(q);
    var index, gain;
    ghost var g0;
    index, gain, g0 := SearchCodebook(k, t.gains, SearchRange(q.block), w[|q.memory|..]);
    c := Code(index, gain);
    assert IsSearchResultFrom(t, mode, q, c, g0);
    SearchResultFits(t, mode, q, c);
  }

  /** The quantiser's index for some value. */
  ghost predicate IsLevel(cb: seq<real>, index: nat) {
    exists x :: SQ.IsNearestLevel(cb, x, index)
  }

  lemma LevelFits(cb: seq<real>, index: nat)
    requires IsLevel(cb, index)
    ensures index < |cb|
  {
  }

  /** Whether the scalar part of the start block is its beginning: that is louder than its end. */
  ghost predicate BeginsLouder(mode: Mode, residual: seq<real>, start: nat)
    requires EncoderStart(mode, start) && |residual| == mode.FrameSamples()
  {
    var at, n := SUBFRAME * (start - 1), mode.StateSamples();
    Energy(residual[at..at + n]) > Energy(residual[at + Extra(mode)..at + Extra(mode) + n])
  }

  /** encodeFrame's choice between the two places of the scalar part. */
  method ChooseFirst(mode: Mode, residual: seq<real>, start: nat) returns (stateFirst: bool)
    requires EncoderStart(mode, start) && |residual| == mode.FrameSamples()
    ensures stateFirst == BeginsLouder(mode, residual, start)
  {
    var at, n, diff := SUBFRAME * (start - 1), mode.StateSamples(), 2 * SUBFRAME - mode.StateSamples();
    var en1 := DotProduct(residual[at..at + n], residual[at..at + n]);
    var en2 := DotProduct(residual[at + diff..at + diff + n], residual[at + diff..at + diff + n]);
    stateFirst := en1 > en2;
  }

  /** Every decision of the encoder is what the verified classifier, quantiser and search decide. */
  ghost predicate IsVerified<S>(t: SearchTables, mode: Mode, d: Decisions<real, S>)
    requires ValidSearchTables(t)
  {
    && (forall r | |r| == mode.FrameSamples() :: FC.IsStart(mode, r, d.classify(r)))
    && (forall r, start: nat | |r| == mode.FrameSamples() && EncoderStart(mode, start) ::
          d.stateFirst(r, start) == BeginsLouder(mode, r, start))
    && (forall r, s, w, b :: IsLevel(t.scales, d.scale(r, s, w, b)))
    && (forall r, s, w, b, i: nat :: IsLevel(t.levels, d.state(r, s, w, b, i)))
    && (forall q: Request<real> | IsRequest(mode, q) :: IsSearchResult(t, mode, q, Found(d, q)))
  }

  /** Such decisions stay in the ranges that the frame format and the lock step of both sides need. */
  lemma VerifiedDecisionsAreSound<S>(t: SearchTables, mode: Mode, d: Decisions<real, S>)
    requires ValidSearchTables(t) && IsVerified(t, mode, d)
    ensures Sound(d, mode)
  {
    hide IsSearchResult, FC.PairEnergy, FC.Tapered;
    forall r, s, w, b, i: nat
      ensures d.state(r, s, w, b, i) < 8
    {
      LevelFits(t.levels, d.state(r, s, w, b, i));
    }
    forall r, s, w, b
      ensures d.scale(r, s, w, b) < 64
    {
      LevelFits(t.scales, d.scale(r, s, w, b));
    }
    forall q: Request<real>, s: nat | IsRequest(mode, q) && s < STAGES
      ensures IndexInSpace(q.block, s, d.index(q, s)) && d.gainIndex(q, s) < LEVELS[s]
    {
      assert IsSearchResult(t, mode, q, Found(d, q));
      SearchResultFits(t, mode, q, Found(d, q));
      assert Found(d, q).index[s] == d.index(q, s) && Found(d, q).gain[s] == d.gainIndex(q, s);
    }
  }

  /** A frame whose fields are verified decisions about its own samples: its start block is the loudest, its scalar part
      the louder end of that, and every code is a search result for its own subframe over what the decoder will have
      there. */
  ghost predicate SearchedThroughout(t: SearchTables, k: Kernel<real>, mode: Mode, residual: seq<real>,
                                     weightdenum: seq<real>, f: Fields, decoded: seq<real>)
    requires ValidSearchTables(t) && ValidKernel(k) && Playable(mode, f)
    requires |residual| == |decoded| == mode.FrameSamples() && |weightdenum| == COEFFICIENTS * mode.Subframes()
  {
    var at := StatePosition(mode, f.start, f.stateFirst == 1);
    && FC.IsStart(mode, residual, f.start)
    && (f.stateFirst == 1 <==> BeginsLouder(mode, residual, f.start))
    && IsSearchResult(t, mode, ExtraRequest(k, mode, residual, weightdenum, f.start, f.stateFirst == 1,
                                            decoded[at..at + mode.StateSamples()]), Code(f.extraCb, f.extraGain))
    && forall n: nat {:trigger RequestAt(k, mode, residual, decoded, weightdenum, f.start, n)}
         | n < mode.Subframes() && (n + 1 < f.start || n > f.start) ::
         var q := RequestAt(k, mode, residual, decoded, weightdenum, f.start, n);
         IsSearchResult(t, mode, q, CodeAt(f.cb, f.gain, q.block - 1))
  }

  lemma DecidedIsSearched<S>(t: SearchTables, k: Kernel<real>, mode: Mode, d: Decisions<real, S>, residual: seq<real>,
                             syntdenum: seq<real>, weightdenum: seq<real>, f: Fields, decoded: seq<real>)
    requires ValidSearchTables(t) && IsVerified(t, mode, d) && ValidKernel(k) && Playable(mode, f)
    requires |residual| == |decoded| == mode.FrameSamples()
    requires |syntdenum| == |weightdenum| == COEFFICIENTS * mode.Subframes()
    requires Analysed(k, d, mode, residual, syntdenum, weightdenum, f, decoded)
    ensures SearchedThroughout(t, k, mode, residual, weightdenum, f, decoded)
  {
    hide IsSearchResult, FC.IsStart, BeginsLouder, Found, Constructed, Recent;
    forall n: nat | n < mode.Subframes() && (n + 1 < f.start || n > f.start)
      ensures var q := RequestAt(k, mode, residual, decoded, weightdenum, f.start, n);
              IsSearchResult(t, mode, q, CodeAt(f.cb, f.gain, q.block - 1))
    {
      assert CodedAt(k, d, mode, residual, weightdenum, f, decoded, n);
      assert IsRequest(mode, RequestAt(k, mode, residual, decoded, weightdenum, f.start, n));
    }
  }
}
