/** The pitch-synchronous search of the enhancer: seven segments one pitch
    period apart, each placed to a quarter of a sample. Positions are counted in
    quarter samples. */
module Enhancer {
  import opened Basics
  import opened RealArithmetic
  import opened Vectors
  import opened Nearest
  import R = Resampling
  import S = Smoothing

  const HISTORY: nat := 640
  const HALF: nat := 3
  const SEGMENTS: nat := 7
  const TABLE: nat := 28
  const PERIODS: nat := 8

  // ---- Nearest block ----

  function Square(x: int): int {
    x * x
  }

  function Gaps(places: seq<int>, value: int): (gs: seq<int>)
    ensures |gs| == |places|
  {
    seq(|places|, i requires 0 <= i < |places| => Square(places[i] - value))
  }

  /** nearestNeighbor. */
  method NearestNeighbor(places: seq<int>, value: int) returns (index: nat)
    requires |places| > 0
    ensures index < |places| && IsLeast(Gaps(places, value), index)
  {
    index := FirstLeast((i: nat) requires i < |places| => Square(places[i] - value), |places|, Gaps(places, value));
  }

  // ---- Placing one segment ----

  /** The history extended by zeros. */
  function At(s: seq<real>, i: int): real {
    if 0 <= i < |s| then s[i] else 0.0
  }

  /** mycorr1's sums, by position. */
  function CorrelationsWith(s: seq<real>, t: seq<real>, n: nat): (c: seq<real>)
    requires |t| > 0 && n + |t| <= |s| + 1
    ensures |c| == n
  {
    seq(n, i requires 0 <= i < n => Dot(s[i..i + |t|], t, |t|))
  }

  /** mycorr1. */
  method MyCorr1(corr: array<real>, off: nat, seq1: seq<real>, seq2: seq<real>)
    requires 0 < |seq2| <= |seq1| && off + |seq1| - |seq2| + 1 <= corr.Length
    modifies corr
    ensures var n := |seq1| - |seq2| + 1; corr[off..off + n] == CorrelationsWith(seq1, seq2, n)
    ensures forall i | 0 <= i < corr.Length && !(off <= i < off + |seq1| - |seq2| + 1) :: corr[i] == old(corr[i])
  {
    var n := |seq1| - |seq2| + 1;
    ghost var c := CorrelationsWith(seq1, seq2, n);
    for i := 0 to n
      invariant forall j | off <= j < off + i :: corr[j] == c[j - off]
      invariant forall j | 0 <= j < corr.Length && !(off <= j < off + n) :: corr[j] == old(corr[j])
    {
      var sum := DotProduct(seq1[i..i + |seq2|], seq2);
      corr[off + i] := sum;
    }
  }

  /** Estimates that the search accepts: at least two samples into the history, and room for a block after it. */
  predicate Placeable(est: int) {
    8 <= est < 4 * (HISTORY - BLOCK - 2)
  }

  /** Where the search around an estimate begins, and how many whole positions it tries. */
  function SearchStart(est: int): nat
    requires Placeable(est)
  {
    var rounded := (est - 2) / 4;
    if rounded < 2 then 0 else rounded - 2
  }

  /** Five positions; only an estimate below two and a half samples leaves four. */
  function Tried(est: int): nat
    requires Placeable(est)
  {
    if est < 10 then 4 else 5
  }

  /** The correlations of the centre block with the history around an estimate; a fifth position that is not tried
      counts as zero. */
  function Tries(idata: seq<real>, centre: nat, est: int): (c: seq<real>)
    requires |idata| == HISTORY && centre + BLOCK <= HISTORY && Placeable(est)
    ensures |c| == 5
  {
    var start, n := SearchStart(est), Tried(est);
    CorrelationsWith(idata[start..start + n + BLOCK - 1], idata[centre..centre + BLOCK], n)
    + (if n == 5 then [] else [0.0])
  }

  /** The correlations at quarter samples. */
  function Fine(table: seq<real>, c: seq<real>, dim: nat): (ups: seq<real>)
    requires |table| == TABLE && |c| == 5 && 4 <= dim <= 5
    ensures |ups| == 4 * dim
  {
    seq(4 * dim, i requires 0 <= i < 4 * dim => R.BlockValue(table, c, dim, 3, i / 4, i % 4))
  }

  /** The whole sample after a quarter position, and the distance back to it. */
  function Whole(tloc: nat): nat {
    (tloc + 3) / 4
  }

  /** Sample i of the history delayed by a fraction of a sample. */
  function Delayed(idata: seq<real>, table: seq<real>, st: int, fraction: nat): (seg: seq<real>)
    requires |table| == TABLE && fraction < 4
    ensures |seg| == BLOCK
  {
    seq(BLOCK, i requires 0 <= i < BLOCK => Dot(seq(7, j requires 0 <= j < 7 => At(idata, st + i + j)),
                                                table[7 * fraction..7 * fraction + 7], 7))
  }

  /** The segment found around an estimate: at the first of the best quarter positions. */
  ghost predicate IsPlaced(idata: seq<real>, table: seq<real>, centre: nat, est: int, seg: seq<real>, pos: int)
    requires |idata| == HISTORY && |table| == TABLE && centre + BLOCK <= HISTORY && Placeable(est)
  {
    exists tloc: nat :: IsPlacedAt(idata, table, centre, est, seg, pos, tloc)
  }

  ghost predicate IsPlacedAt(idata: seq<real>, table: seq<real>, centre: nat, est: int, seg: seq<real>, pos: int,
                             tloc: nat)
    requires |idata| == HISTORY && |table| == TABLE && centre + BLOCK <= HISTORY && Placeable(est)
  {
    var start, n := SearchStart(est), Tried(est);
    && IsGreatest(Fine(table, Tries(idata, centre, est), n), 0, 4 * n, tloc)
    && pos == 4 * start + tloc + 4
    && seg == Delayed(idata, table, start + Whole(tloc) - 3, 4 * Whole(tloc) - tloc)
  }

  /** A placed segment lies near its estimate. */
  lemma PlacedIsNear(idata: seq<real>, table: seq<real>, centre: nat, est: int, seg: seq<real>, pos: int)
    requires |idata| == HISTORY && |table| == TABLE && centre + BLOCK <= HISTORY && Placeable(est)
    requires IsPlaced(idata, table, centre, est, seg, pos)
    ensures est - 9 <= pos <= est + 13
  {
  }

  // ---- The interpolation at the lengths in use ----

  lemma FineAnswersFor(table: seq<real>, c: seq<real>, dim: nat, b: nat, j: nat)
    requires |table| == TABLE && |c| == 5 && 4 <= dim <= 5 && (dim == 4 ==> c[4] == 0.0) && b < dim && j < 4
    ensures Fine(table, c, dim)[4 * b + j]
            == R.Convolve(R.Phase(table, dim, 3, j), c[..dim], (if dim == 4 && b == 3 then 2 else b) + 2, 5)
  {
    R.AnswersBehindZero(table, c, dim, 3, b, j);
    hide R.Convolve, R.BlockValue, R.Phase;
    assert (4 * b + j) / 4 == b && (4 * b + j) % 4 == j;
  }

  /** Each quarter position is interpolated around its own whole position, except that an estimate below two and a half
      samples, whose four positions make a short even length, has the fourth repeat the third. */
  lemma QuarterAnswersFor(idata: seq<real>, table: seq<real>, centre: nat, est: int, b: nat, j: nat)
    requires |idata| == HISTORY && |table| == TABLE && centre + BLOCK <= HISTORY && Placeable(est)
    requires b < Tried(est) && j < 4
    ensures var n, own := Tried(est), if est < 10 && b == 3 then 2 else b;
            Fine(table, Tries(idata, centre, est), n)[4 * b + j]
              == R.Convolve(R.Phase(table, n, 3, j), Tries(idata, centre, est)[..n], own + 2, 5)
  {
    var c := Tries(idata, centre, est);
    assert est < 10 ==> c[4] == 0.0;
    hide Tries, Fine, R.Convolve, R.Phase;
    FineAnswersFor(table, c, Tried(est), b, j);
  }

  /** So below two and a half samples no quarter behind the third position is ever the first best. */
  lemma FourthIsNeverFound(idata: seq<real>, table: seq<real>, centre: nat, est: int, tloc: nat)
    requires |idata| == HISTORY && |table| == TABLE && centre + BLOCK <= HISTORY && 8 <= est < 10
    requires IsGreatest(Fine(table, Tries(idata, centre, est), 4), 0, 16, tloc)
    ensures tloc < 12
  {
    if tloc >= 12 {
      var j := tloc - 12;
      QuarterAnswersFor(idata, table, centre, est, 2, j);
      QuarterAnswersFor(idata, table, centre, est, 3, j);
    }
  }

  /** polyphaserTbl. */
  const POLYPHASE: seq<real> := [
    0.0, 0.0, 0.0, 1.0, 0.0, 0.0, 0.0,
    0.015625, -0.076904, 0.28833, 0.862061, -0.106445, 0.018799, -0.015625,
    0.023682, -0.124268, 0.601563, 0.601563, -0.124268, 0.023682, -0.023682,
    0.018799, -0.106445, 0.862061, 0.28833, -0.076904, 0.015625, -0.018799]

  /** A history of two clicks, 317 samples apart. */
  function Clicks(): (idata: seq<real>)
    ensures |idata| == HISTORY
  {
    seq(HISTORY, i => if i == 3 || i == 320 then 1.0 else 0.0)
  }

  lemma {:induction false} DotWithClick(u: seq<real>, t: seq<real>, n: nat)
    requires n <= |u| && n <= |t| && forall i | 0 <= i < |t| :: t[i] == if i == 0 then 1.0 else 0.0
    ensures Dot(u, t, n) == if n == 0 then 0.0 else u[0]
  {
    if n > 0 {
      DotWithClick(u, t, n - 1);
    }
  }

  lemma ClicksCorrelate(est: int)
    requires 8 <= est < 10
    ensures Tries(Clicks(), 320, est) == [0.0, 0.0, 0.0, 1.0, 0.0]
  {
    var s, t := Clicks()[0..0 + 4 + BLOCK - 1], Clicks()[320..320 + BLOCK];
    forall i | 0 <= i < 4
      ensures CorrelationsWith(s, t, 4)[i] == Clicks()[i]
    {
      DotWithClick(s[i..i + BLOCK], t, BLOCK);
    }
  }

  /** The entry of the table that a single correlation at the last position shows. */
  function Shown(table: seq<real>, b: nat, j: nat): real
    requires |table| == TABLE && b < 4 && j < 4
  {
    if b == 0 then 0.0 else table[7 * j + (if b == 1 then 1 else 2)]
  }

  lemma PhaseTap(table: seq<real>, j: nat, i: nat)
    requires |table| == TABLE && j < 4 && i < 5
    ensures R.Phase(table, 4, 3, j)[i] == table[7 * j + 1 + i]
  {
  }

  lemma ClickQuarters(table: seq<real>, est: int, b: nat, j: nat)
    requires |table| == TABLE && 8 <= est < 10 && b < 4 && j < 4
    ensures Fine(table, Tries(Clicks(), 320, est), 4)[4 * b + j] == Shown(table, b, j)
  {
    hide Fine, Tries, Clicks, R.Phase, R.Convolve;
    ClicksCorrelate(est);
    QuarterAnswersFor(Clicks(), table, 320, est, b, j);
    var f, own: nat := R.Phase(table, 4, 3, j), if b == 3 then 2 else b;
    assert Tries(Clicks(), 320, est)[..4] == [0.0, 0.0, 0.0, 1.0];
    R.OneSample(f, [0.0, 0.0, 0.0, 1.0], 3, own + 2, 5);
    if b > 0 {
      PhaseTap(table, j, own - 1);
    }
  }

  lemma ShownValues()
    ensures forall b: nat, j: nat | b < 4 && j < 4 :: Shown(POLYPHASE, b, j) <= 0.862061
    ensures forall b: nat, j: nat | b < 4 && j < 4 && 4 * b + j < 11 :: Shown(POLYPHASE, b, j) < 0.862061
    ensures Shown(POLYPHASE, 2, 3) == 0.862061
  {
  }

  /** With the code's own table: the fourth position correlates best, with 1, but the search ends a quarter before it,
      at a smaller value, because the fourth position's own entry is the third's. */
  lemma FourthIsMissed(est: int)
    requires 8 <= est < 10
    ensures var c := Tries(Clicks(), 320, est); var ups := Fine(POLYPHASE, c, 4);
            && IsGreatest(ups, 0, 16, 11) && ups[11] == 0.862061
            && R.Convolve(R.Phase(POLYPHASE, 4, 3, 0), c[..4], 3 + 2, 5) == 1.0
  {
    var c, f := Tries(Clicks(), 320, est), R.Phase(POLYPHASE, 4, 3, 0);
    ClicksCorrelate(est);
    assert c[..4] == [0.0, 0.0, 0.0, 1.0];
    assert f == POLYPHASE[1..6] && f[2] == POLYPHASE[3] == 1.0;
    R.OneSample(f, [0.0, 0.0, 0.0, 1.0], 3, 5, 5);
    BestClick(est);
  }

  lemma BestClick(est: int)
    requires 8 <= est < 10
    ensures var ups := Fine(POLYPHASE, Tries(Clicks(), 320, est), 4); IsGreatest(ups, 0, 16, 11) && ups[11] == 0.862061
  {
    hide Fine, Tries, Clicks, Shown;
    ShownValues();
    var ups := Fine(POLYPHASE, Tries(Clicks(), 320, est), 4);
    ClickQuarters(POLYPHASE, est, 2, 3);
    forall i: nat | i < 16
      ensures i < 11 ==> ups[i] < 0.862061
      ensures ups[i] <= 0.862061
    {
      var b, j := i / 4, i % 4;
      assert i == 4 * b + j;
      ClickQuarters(POLYPHASE, est, b, j);
    }
  }

  /** The correlation stage of refiner. */
  method FindQuarter(idata: seq<real>, table: seq<real>, centre: nat, est: int)
    returns (searchSegStartPos: nat, tloc: nat)
    requires |idata| == HISTORY && |table| == TABLE && centre + BLOCK <= HISTORY && Placeable(est)
    ensures searchSegStartPos == SearchStart(est)
    ensures IsGreatest(Fine(table, Tries(idata, centre, est), Tried(est)), 0, 4 * Tried(est), tloc)
  {
    var estSegPosRounded := (est - 2) / 4;
    var start := estSegPosRounded - 2;
    if start < 0 {
      start := 0;
    }
    var searchSegEndPos := estSegPosRounded + 2;
    if searchSegEndPos + 80 >= HISTORY {
      searchSegEndPos := HISTORY - 80 - 1;
    }
    var corrdim: nat := searchSegEndPos - start + 1;
    assert start == SearchStart(est) && corrdim == Tried(est);
    searchSegStartPos := start;
    var corrVec, corrVecUps := new real[5](i => 0.0), new real[20](i => 0.0);
    MyCorr1(corrVec, 0, idata[start..start + corrdim + 80 - 1], idata[centre..centre + 80]);
    ghost var c := Tries(idata, centre, est);
    assert corrVec[..] == c by {
      assert corrVec[0..0 + corrdim] == c[..corrdim];
    }
    R.UpsampleEnhancement(corrVecUps, corrVec[..], corrdim, 3, table);
    var ups := corrVecUps[..];
    FineIs(table, c, corrdim, ups);
    tloc := FirstGreatest((i: nat) requires i < 4 * corrdim => ups[i], 0, 4 * corrdim, Fine(table, c, corrdim));
  }

  lemma FineIs(table: seq<real>, c: seq<real>, dim: nat, ups: seq<real>)
    requires |table| == TABLE && |c| == 5 && 4 <= dim <= 5 && |ups| == 20
    requires R.BlocksDone(ups, table, c, dim, 3, R.Blocks(dim, 3))
    ensures ups[..4 * dim] == Fine(table, c, dim)
  {
    forall i | 0 <= i < 4 * dim
      ensures ups[i] == Fine(table, c, dim)[i]
    {
      var b: nat := i / 4;
      assert R.BlockDone(ups, table, c, dim, 3, b);
      assert i == 4 * b + i % 4;
    }
  }

  /** The 86 samples around a whole position, zero beyond the history. */
  method Window(idata: seq<real>, st: int) returns (vect: seq<real>)
    requires |idata| == HISTORY && -3 <= st <= HISTORY
    ensures |vect| == 86 && forall i | 0 <= i < 86 :: vect[i] == At(idata, st + i)
  {
    if st < 0 {
      vect := seq(-st, i => 0.0) + idata[..86 + st];
    } else {
      var en := st + 86;
      if en > HISTORY {
        vect := idata[st..st + 86 - (en - HISTORY)] + seq(en - HISTORY, i => 0.0);
      } else {
        vect := idata[st..st + 86];
      }
    }
  }

  lemma DelayedIs(idata: seq<real>, table: seq<real>, st: int, fraction: nat, vect: seq<real>)
    requires |table| == TABLE && fraction < 4 && |vect| == 86 && forall i | 0 <= i < 86 :: vect[i] == At(idata, st + i)
    ensures CorrelationsWith(vect, table[7 * fraction..7 * fraction + 7], 80) == Delayed(idata, table, st, fraction)
  {
    var f := table[7 * fraction..7 * fraction + 7];
    forall i | 0 <= i < 80
      ensures CorrelationsWith(vect, f, 80)[i] == Delayed(idata, table, st, fraction)[i]
    {
      assert vect[i..i + 7] == seq(7, j requires 0 <= j < 7 => At(idata, st + i + j));
    }
  }

  /** refiner. */
  method Refiner(seg: array<real>, off: nat, idata: seq<real>, table: seq<real>, centre: nat, est: int)
    returns (pos: int)
    requires |idata| == HISTORY && |table| == TABLE && centre + BLOCK <= HISTORY && Placeable(est)
             && off + BLOCK <= seg.Length
    modifies seg
    ensures IsPlaced(idata, table, centre, est, seg[off..off + BLOCK], pos)
    ensures forall i | 0 <= i < seg.Length && !(off <= i < off + BLOCK) :: seg[i] == old(seg[i])
  {
    var start, tloc := FindQuarter(idata, table, centre, est);
    pos := 4 * start + tloc + 4;
    var tloc2 := tloc / 4;
    if tloc > tloc2 * 4 {
      tloc2 := tloc2 + 1;
    }
    assert tloc2 == Whole(tloc);
    var st: int := start as int + tloc2 as int - 3;
    var vect := Window(idata, st);
    var fraction: nat := tloc2 * 4 - tloc;
    DelayedIs(idata, table, st, fraction, vect);
    MyCorr1(seg, off, vect, table[7 * fraction..7 * fraction + 7]);
    assert IsPlacedAt(idata, table, centre, est, seg[off..off + BLOCK], pos, tloc);
  }

  // ---- The seven segments ----

  function Quarters(samples: seq<int>): (q: seq<int>)
    ensures |q| == |samples|
  {
    seq(|samples|, i requires 0 <= i < |samples| => 4 * samples[i])
  }

  /** The pitch of the block that a segment starts or ends in. */
  predicate ValidPeriods(period: seq<int>) {
    |period| == PERIODS && forall i | 0 <= i < PERIODS :: 19 <= period[i] <= 119
  }

  /** The block centres, and the same minus each block's period. */
  function Shifted(plocs: seq<int>, period: seq<int>): (p: seq<int>)
    requires |plocs| == |period| == PERIODS
    ensures |p| == PERIODS
  {
    seq(PERIODS, i requires 0 <= i < PERIODS => plocs[i] - period[i])
  }

  /** The frame-independent inputs of the search. */
  datatype Setting = Setting(idata: seq<real>, table: seq<real>, plocs: seq<int>, period: seq<int>, centre: nat)

  predicate ValidSetting(g: Setting) {
    && |g.idata| == HISTORY && |g.table| == TABLE && |g.plocs| == PERIODS && ValidPeriods(g.period)
    && 320 <= g.centre <= 520
  }

  /** A segment is placed around its estimate, or silent at it if the history does not reach. */
  ghost predicate Segment(g: Setting, est: int, seg: seq<real>, pos: int)
    requires ValidSetting(g)
  {
    if Placeable(est) then IsPlaced(g.idata, g.table, g.centre, est, seg, pos)
    else pos == est && |seg| == BLOCK && forall i | 0 <= i < BLOCK :: seg[i] == 0.0
  }

  /** Blocks whose pitch is used: the one whose centre is nearest. */
  ghost predicate Nearby(places: seq<int>, value: int, block: nat)
    requires |places| == PERIODS
  {
    block < PERIODS && IsLeast(Gaps(Quarters(places), value), block)
  }

  /** One step into the past: a period of the later segment's block before it. */
  ghost predicate BackStep(g: Setting, later: int, laterBlock: nat, seg: seq<real>, pos: int, block: nat)
    requires ValidSetting(g) && laterBlock < PERIODS
  {
    var est := later - 4 * g.period[laterBlock];
    && Nearby(g.plocs, est + 160 - 4 * g.period[laterBlock], block)
    && Segment(g, est, seg, pos)
  }

  /** One step into the future: a period of the new segment's block after the earlier one. */
  ghost predicate ForwardStep(g: Setting, earlier: int, seg: seq<real>, pos: int, block: nat)
    requires ValidSetting(g)
  {
    && Nearby(Shifted(g.plocs, g.period), earlier + 160, block)
    && Segment(g, earlier + 4 * g.period[block], seg, pos)
  }

  function SegmentOf(sseq: seq<real>, q: nat): (seg: seq<real>)
    requires |sseq| == BLOCK * SEGMENTS && q < SEGMENTS
    ensures |seg| == BLOCK
  {
    sseq[BLOCK * q..BLOCK * q + BLOCK]
  }

  /** The whole search: three steps each way from the centre block. */
  ghost predicate IsSearch(g: Setting, sseq: seq<real>, pos: seq<int>, blocks: seq<nat>)
    requires ValidSetting(g)
  {
    && |sseq| == BLOCK * SEGMENTS && |pos| == |blocks| == SEGMENTS
         && (forall q | 0 <= q < SEGMENTS :: blocks[q] < PERIODS)
    && SegmentOf(sseq, HALF) == g.idata[g.centre..g.centre + BLOCK] && pos[HALF] == 4 * g.centre
    && Nearby(g.plocs, 4 * g.centre + 158, blocks[HALF])
    && (forall q: nat | q < HALF :: BackStep(g, pos[q + 1], blocks[q + 1], SegmentOf(sseq, q), pos[q], blocks[q]))
    && (forall q: nat | HALF < q < SEGMENTS :: ForwardStep(g, pos[q - 1], SegmentOf(sseq, q), pos[q], blocks[q]))
  }

  /** A segment written at its place: refined if the history reaches, silent otherwise. */
  method PlaceSegment(g: Setting, sseq: array<real>, q: nat, est: int, reaches: bool) returns (pos: int)
    requires ValidSetting(g) && sseq.Length == BLOCK * SEGMENTS && q < SEGMENTS && (reaches <==> Placeable(est))
    modifies sseq
    ensures Segment(g, est, SegmentOf(sseq[..], q), pos)
    ensures forall i | 0 <= i < sseq.Length && !(BLOCK * q <= i < BLOCK * q + BLOCK) :: sseq[i] == old(sseq[i])
  {
    if reaches {
      pos := Refiner(sseq, BLOCK * q, g.idata, g.table, g.centre, est);
    } else {
      pos := est;
      forall i | BLOCK * q <= i < BLOCK * q + BLOCK { sseq[i] := 0.0; }
    }
  }

  lemma SegmentKept(a: seq<real>, b: seq<real>, q: nat, j: nat)
    requires |a| == |b| == BLOCK * SEGMENTS && q < SEGMENTS && j < SEGMENTS && j != q
    requires forall i | 0 <= i < |a| && !(BLOCK * q <= i < BLOCK * q + BLOCK) :: a[i] == b[i]
    ensures SegmentOf(a, j) == SegmentOf(b, j)
  {
    assert forall i | BLOCK * j <= i < BLOCK * j + BLOCK :: a[i] == b[i];
  }

  /** The segments found so far stay as they are while another is written. */
  ghost predicate PastDone(g: Setting, sseq: seq<real>, pos: seq<int>, blocks: seq<nat>, lo: nat)
    requires ValidSetting(g)
  {
    && |sseq| == BLOCK * SEGMENTS && |pos| == |blocks| == SEGMENTS
         && (forall q | 0 <= q < SEGMENTS :: blocks[q] < PERIODS)
    && SegmentOf(sseq, HALF) == g.idata[g.centre..g.centre + BLOCK] && pos[HALF] == 4 * g.centre
    && Nearby(g.plocs, 4 * g.centre + 158, blocks[HALF])
    && (forall q: nat {:trigger SegmentOf(sseq, q)} | lo <= q < HALF ::
          BackStep(g, pos[q + 1], blocks[q + 1], SegmentOf(sseq, q), pos[q], blocks[q]))
  }

  lemma PastStays(g: Setting, a: seq<real>, b: seq<real>, pos: seq<int>, pos': seq<int>, blocks: seq<nat>,
                  blocks': seq<nat>, lo: nat, q: nat)
    requires ValidSetting(g) && PastDone(g, a, pos, blocks, lo) && |b| == BLOCK * SEGMENTS
             && (q < lo || HALF < q < SEGMENTS) && lo <= HALF
    requires forall i | 0 <= i < |a| && !(BLOCK * q <= i < BLOCK * q + BLOCK) :: a[i] == b[i]
    requires |pos'| == |blocks'| == SEGMENTS && forall j | 0 <= j < SEGMENTS && j != q ::
               pos'[j] == pos[j] && blocks'[j] == blocks[j]
    requires blocks'[q] < PERIODS
    ensures PastDone(g, b, pos', blocks', lo)
  {
    SegmentKept(a, b, q, HALF);
    forall j: nat | lo <= j < HALF
      ensures BackStep(g, pos'[j + 1], blocks'[j + 1], SegmentOf(b, j), pos'[j], blocks'[j])
    {
      SegmentKept(a, b, q, j);
      assert BackStep(g, pos[j + 1], blocks[j + 1], SegmentOf(a, j), pos[j], blocks[j]);
    }
  }

  /** The steps into the past. */
  method SearchPast(g: Setting, sseq: array<real>, pos0: seq<int>, blocks0: seq<nat>)
    returns (pos: seq<int>, blocks: seq<nat>)
    requires ValidSetting(g) && sseq.Length == BLOCK * SEGMENTS && PastDone(g, sseq[..], pos0, blocks0, HALF)
    modifies sseq
    ensures PastDone(g, sseq[..], pos, blocks, 0)
  {
    hide Segment, IsLeast, Gaps;
    pos, blocks := pos0, blocks0;
    for n := 0 to HALF
      invariant PastDone(g, sseq[..], pos, blocks, HALF - n)
      invariant pos[HALF - n] <= 4 * g.centre
    {
      var q: nat := HALF - 1 - n;
      ghost var before, pos1, blocks1 := sseq[..], pos, blocks;
      var lag := 4 * g.period[blocks[q + 1]];
      var est := pos[q + 1] - lag;
      var block := NearestNeighbor(Quarters(g.plocs), est + 160 - lag);
      var p := PlaceSegment(g, sseq, q, est, est >= 8);
      NotFarther(g, est, SegmentOf(sseq[..], q), p);
      pos, blocks := pos[q := p], blocks[q := block];
      PastStays(g, before, sseq[..], pos1, pos, blocks1, blocks, HALF - n, q);
      assert BackStep(g, pos[q + 1], blocks[q + 1], SegmentOf(sseq[..], q), pos[q], blocks[q]);
    }
  }

  lemma NotFarther(g: Setting, est: int, seg: seq<real>, pos: int)
    requires ValidSetting(g) && Segment(g, est, seg, pos)
    ensures est - 9 <= pos <= est + 13
  {
    if Placeable(est) {
      PlacedIsNear(g.idata, g.table, g.centre, est, seg, pos);
    }
  }

  ghost predicate FutureDone(g: Setting, sseq: seq<real>, pos: seq<int>, blocks: seq<nat>, hi: nat)
    requires ValidSetting(g)
  {
    && |sseq| == BLOCK * SEGMENTS && |pos| == |blocks| == SEGMENTS && hi <= SEGMENTS
    && (forall q: nat {:trigger SegmentOf(sseq, q)} | HALF < q < hi ::
        ForwardStep(g, pos[q - 1], SegmentOf(sseq, q), pos[q], blocks[q]))
  }

  lemma FutureStays(g: Setting, a: seq<real>, b: seq<real>, pos: seq<int>, pos': seq<int>, blocks: seq<nat>,
                    blocks': seq<nat>, hi: nat)
    requires ValidSetting(g) && FutureDone(g, a, pos, blocks, hi) && |b| == BLOCK * SEGMENTS && HALF < hi < SEGMENTS
    requires forall i | 0 <= i < |a| && !(BLOCK * hi <= i < BLOCK * hi + BLOCK) :: a[i] == b[i]
    requires |pos'| == |blocks'| == SEGMENTS && forall j | 0 <= j < SEGMENTS && j != hi ::
               pos'[j] == pos[j] && blocks'[j] == blocks[j]
    ensures FutureDone(g, b, pos', blocks', hi)
  {
    forall j: nat | HALF < j < hi
      ensures ForwardStep(g, pos'[j - 1], SegmentOf(b, j), pos'[j], blocks'[j])
    {
      SegmentKept(a, b, hi, j);
      assert ForwardStep(g, pos[j - 1], SegmentOf(a, j), pos[j], blocks[j]);
    }
  }

  /** The steps into the future. */
  method SearchFuture(g: Setting, sseq: array<real>, pos0: seq<int>, blocks0: seq<nat>)
    returns (pos: seq<int>, blocks: seq<nat>)
    requires ValidSetting(g) && sseq.Length == BLOCK * SEGMENTS && PastDone(g, sseq[..], pos0, blocks0, 0)
    modifies sseq
    ensures PastDone(g, sseq[..], pos, blocks, 0) && FutureDone(g, sseq[..], pos, blocks, SEGMENTS)
  {
    hide Segment, IsLeast, Gaps;
    pos, blocks := pos0, blocks0;
    var plocs2 := Shifted(g.plocs, g.period);
    for q := HALF + 1 to SEGMENTS
      invariant PastDone(g, sseq[..], pos, blocks, 0) && FutureDone(g, sseq[..], pos, blocks, q)
      invariant pos[q - 1] >= 4 * g.centre
    {
      ghost var before, pos1, blocks1 := sseq[..], pos, blocks;
      var block := NearestNeighbor(Quarters(plocs2), pos[q - 1] + 160);
      var est := pos[q - 1] + 4 * g.period[block];
      var p := PlaceSegment(g, sseq, q, est, est + 4 * 80 + 8 < 4 * HISTORY);
      NotFarther(g, est, SegmentOf(sseq[..], q), p);
      pos, blocks := pos[q := p], blocks[q := block];
      PastStays(g, before, sseq[..], pos1, pos, blocks1, blocks, 0, q);
      FutureStays(g, before, sseq[..], pos1, pos, blocks1, blocks, q);
      assert ForwardStep(g, pos[q - 1], SegmentOf(sseq[..], q), pos[q], blocks[q]);
    }
  }

  /** getsseq: whatever the history holds and whatever periods in range the blocks have, every index stays in its buffer
      and the seven segments are found step by step from the centre. */
  method GetSSeq(g: Setting, sseq: array<real>) returns (ghost pos: seq<int>, ghost blocks: seq<nat>)
    requires ValidSetting(g) && sseq.Length == BLOCK * SEGMENTS
    modifies sseq
    ensures IsSearch(g, sseq[..], pos, blocks)
  {
    var block := NearestNeighbor(Quarters(g.plocs), 2 * (g.centre + (g.centre + 80 - 1)));
    forall i | 0 <= i < BLOCK { sseq[BLOCK * HALF + i] := g.idata[g.centre + i]; }
    var p, b := seq(SEGMENTS, i => 4 * g.centre), seq(SEGMENTS, i => block);
    p, b := SearchPast(g, sseq, p, b);
    p, b := SearchFuture(g, sseq, p, b);
    pos, blocks := p, b;
    ghost var s := sseq[..];
    forall q: nat | q < HALF
      ensures BackStep(g, pos[q + 1], blocks[q + 1], SegmentOf(s, q), pos[q], blocks[q])
    {
    }
  }

  /** enhancer: the found segments, smoothed under the energy constraint. */
  method Enhance(g: Setting, odata: array<real>, off: nat, alpha0: real, cos: real -> real, sqrt: real -> real)
    returns (ghost segments: seq<real>, ghost pos: seq<int>, ghost blocks: seq<nat>)
    requires ValidSetting(g) && off + BLOCK <= odata.Length && S.IsSqrt(sqrt) && 0.0 <= alpha0 <= 4.0
    modifies odata
    ensures IsSearch(g, segments, pos, blocks)
    ensures S.Smoothed(odata[off..off + BLOCK], S.Surround(segments, S.NeighbourWeights(cos, HALF), HALF),
                       S.Centre(segments, HALF), alpha0)
    ensures forall i | 0 <= i < odata.Length && !(off <= i < off + BLOCK) :: odata[i] == old(odata[i])
  {
    var sseq := new real[BLOCK * SEGMENTS](i => 0.0);
    pos, blocks := GetSSeq(g, sseq);
    segments := sseq[..];
    S.Smath(odata, off, sseq[..], HALF, alpha0, cos, sqrt);
  }
}
