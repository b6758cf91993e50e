/** What the enhancer's search promises of the segment it cuts out: its correlation with the centre block is the one
    that the search found greatest, up to the positions that the search leaves out of its interpolation. */
module SegmentCorrelation {
  import opened Basics
  import opened Vectors
  import opened Nearest
  import opened Enhancer
  import R = Resampling

  // ---- Correlations of the history with the centre block ----

  /** A block of the history at any position, zero beyond its ends. */
  function BlockAt(idata: seq<real>, p: int): (v: seq<real>)
    ensures |v| == BLOCK
  {
    seq(BLOCK, i requires 0 <= i < BLOCK => At(idata, p + i))
  }

  function CorrelationAt(idata: seq<real>, t: seq<real>, p: int): real
    requires |t| == BLOCK
  {
    Dot(BlockAt(idata, p), t, BLOCK)
  }

  function Row(table: seq<real>, q: nat): (row: seq<real>)
    requires |table| == TABLE && q < 4
    ensures |row| == 7
  {
    table[7 * q..7 * q + 7]
  }

  /** The first m taps of a row, applied to the correlations of the first n samples from position p on. */
  function Combined(idata: seq<real>, t: seq<real>, row: seq<real>, p: int, m: nat, n: nat): real
    requires |t| == BLOCK && |row| == 7 && m <= 7 && n <= BLOCK
  {
    if m == 0 then 0.0
    else Combined(idata, t, row, p, m - 1, n) + row[m - 1] * Dot(BlockAt(idata, p + (m - 1)), t, n)
  }

  lemma OneSampleMore(x: real, sum: real, u: real, v: real, d: real)
    ensures d * v + x * (sum + u * v) == x * sum + (d + u * x) * v
  {
  }

  /** One sample more: the tap sum of that sample times the centre's. */
  lemma {:induction false} CombinedNext(idata: seq<real>, t: seq<real>, row: seq<real>, p: int, m: nat, n: nat,
                                        around: seq<real>)
    requires |t| == BLOCK && |row| == |around| == 7 && m <= 7 && n < BLOCK
    requires forall j | 0 <= j < 7 :: around[j] == At(idata, p + n + j)
    ensures Combined(idata, t, row, p, m, n + 1) == Combined(idata, t, row, p, m, n) + Dot(around, row, m) * t[n]
  {
    if m > 0 {
      CombinedNext(idata, t, row, p, m - 1, n, around);
      var x, u, v, next := row[m - 1], around[m - 1], t[n], BlockAt(idata, p + (m - 1));
      assert next[n] == u;
      hide BlockAt;
      OneSampleMore(x, Dot(next, t, n), u, v, Dot(around, row, m - 1));
    }
  }

  lemma {:induction false} NothingCombined(idata: seq<real>, t: seq<real>, row: seq<real>, p: int, m: nat)
    requires |t| == BLOCK && |row| == 7 && m <= 7
    ensures Combined(idata, t, row, p, m, 0) == 0.0
  {
    if m > 0 {
      NothingCombined(idata, t, row, p, m - 1);
    }
  }

  lemma {:induction false} DelayedCombines(idata: seq<real>, table: seq<real>, t: seq<real>, st: int, fraction: nat,
                                           n: nat)
    requires |table| == TABLE && fraction < 4 && |t| == BLOCK && n <= BLOCK
    ensures Dot(Delayed(idata, table, st, fraction), t, n) == Combined(idata, t, Row(table, fraction), st, 7, n)
  {
    if n == 0 {
      NothingCombined(idata, t, Row(table, fraction), st, 7);
    } else {
      DelayedCombines(idata, table, t, st, fraction, n - 1);
      var around := seq(7, j requires 0 <= j < 7 => At(idata, st + (n - 1) + j));
      var row, v := Row(table, fraction), Delayed(idata, table, st, fraction);
      assert v[n - 1] == Dot(around, row, 7);
      hide Delayed, Row, BlockAt, At, Combined;
      CombinedNext(idata, t, row, st, 7, n - 1, around);
    }
  }

  /** A segment's correlation with the centre block is its row's combination of seven whole-sample correlations. */
  lemma SegmentCombines(idata: seq<real>, table: seq<real>, t: seq<real>, st: int, fraction: nat)
    requires |table| == TABLE && fraction < 4 && |t| == BLOCK
    ensures Dot(Delayed(idata, table, st, fraction), t, BLOCK)
            == Combined(idata, t, Row(table, fraction), st, 7, BLOCK)
  {
    DelayedCombines(idata, table, t, st, fraction, BLOCK);
  }

  // ---- Whole positions ----

  predicate StartsWithUnit(table: seq<real>) {
    |table| == TABLE && Row(table, 0) == [0.0, 0.0, 0.0, 1.0, 0.0, 0.0, 0.0]
  }

  /** The centre block. */
  function CentreBlock(idata: seq<real>, centre: nat): (t: seq<real>)
    requires |idata| == HISTORY && centre + BLOCK <= HISTORY
    ensures |t| == BLOCK
  {
    idata[centre..centre + BLOCK]
  }

  lemma InsideIsSlice(idata: seq<real>, p: nat)
    requires p + BLOCK <= |idata|
    ensures BlockAt(idata, p) == idata[p..p + BLOCK]
  {
    var v, w := BlockAt(idata, p), idata[p..p + BLOCK];
    forall i | 0 <= i < BLOCK
      ensures v[i] == w[i]
    {
    }
  }

  lemma TriesAre(idata: seq<real>, centre: nat, est: int, i: nat)
    requires |idata| == HISTORY && centre + BLOCK <= HISTORY && Placeable(est) && i < Tried(est)
    ensures SearchStart(est) + i + BLOCK <= HISTORY
    ensures Tries(idata, centre, est)[i] == CorrelationAt(idata, CentreBlock(idata, centre), SearchStart(est) + i)
  {
    var start, n := SearchStart(est), Tried(est);
    var whole := idata[start..start + n + BLOCK - 1];
    SliceOfSlice(idata, start, n + BLOCK - 1, i, BLOCK);
    InsideIsSlice(idata, start + i);
  }

  lemma {:induction false} DotUnit(u: seq<real>, row: seq<real>, n: nat)
    requires |u| == 7 && row == [0.0, 0.0, 0.0, 1.0, 0.0, 0.0, 0.0] && n <= 7
    ensures Dot(u, row, n) == if n > 3 then u[3] else 0.0
  {
    if n > 0 {
      DotUnit(u, row, n - 1);
    }
  }

  lemma UndelayedIsBlock(idata: seq<real>, table: seq<real>, p: int)
    requires StartsWithUnit(table)
    ensures Delayed(idata, table, p - 3, 0) == BlockAt(idata, p)
  {
    var v, w := Delayed(idata, table, p - 3, 0), BlockAt(idata, p);
    forall i | 0 <= i < BLOCK
      ensures v[i] == w[i]
    {
      DotUnit(seq(7, j requires 0 <= j < 7 => At(idata, p - 3 + i + j)), Row(table, 0), 7);
    }
  }

  /** At a whole position the interpolation returns the correlation there. */
  lemma WholeIsTried(idata: seq<real>, table: seq<real>, centre: nat, est: int, b: nat)
    requires |idata| == HISTORY && StartsWithUnit(table) && centre + BLOCK <= HISTORY && Placeable(est)
    requires b < Tried(est) && (est < 10 ==> b < 3)
    ensures Fine(table, Tries(idata, centre, est), Tried(est))[4 * b] == Tries(idata, centre, est)[b]
  {
    var n, c := Tried(est), Tries(idata, centre, est);
    QuarterAnswersFor(idata, table, centre, est, b, 0);
    var f := R.Phase(table, n, 3, 0);
    assert f == Row(table, 0)[1..6];
    R.OneTap(f, c[..n], b + 2, 5, 2);
  }

  /** A segment placed at a whole position is that part of the history itself, and it correlates with the centre block
      as well as the best quarter that the search saw. */
  lemma WholeSegmentIsHistory(idata: seq<real>, table: seq<real>, centre: nat, est: int, seg: seq<real>, pos: int,
                              tloc: nat)
    requires |idata| == HISTORY && StartsWithUnit(table) && centre + BLOCK <= HISTORY && Placeable(est)
    requires IsPlacedAt(idata, table, centre, est, seg, pos, tloc) && tloc % 4 == 0
    ensures var at := SearchStart(est) + tloc / 4; var ups := Fine(table, Tries(idata, centre, est), Tried(est));
            && at + BLOCK <= HISTORY && seg == idata[at..at + BLOCK] && tloc < |ups|
            && Dot(seg, CentreBlock(idata, centre), BLOCK) == ups[tloc]
            && forall i | 0 <= i < |ups| :: ups[i] <= Dot(seg, CentreBlock(idata, centre), BLOCK)
  {
    var b, at := tloc / 4, SearchStart(est) + tloc / 4;
    if est < 10 {
      FourthIsNeverFound(idata, table, centre, est, tloc);
    }
    WholeIsTried(idata, table, centre, est, b);
    TriesAre(idata, centre, est, b);
    UndelayedIsBlock(idata, table, at);
    InsideIsSlice(idata, at);
    assert tloc == 4 * b;
  }

  // ---- Quarter positions ----

  /** Delaying by the rest of a sample uses the taps that interpolating up to it uses, in reverse. */
  predicate Mirrored(table: seq<real>) {
    && StartsWithUnit(table)
    && forall q: nat, j: nat | 1 <= q < 4 && j < 5 :: MirroredAt(table, q, j)
  }

  predicate MirroredAt(table: seq<real>, q: nat, j: nat)
    requires |table| == TABLE && 1 <= q < 4 && j < 5
  {
    Row(table, 4 - q)[j] == Row(table, q)[5 - j]
  }

  /** The code's table is of that kind. */
  lemma PolyphaseIsMirrored()
    ensures Mirrored(POLYPHASE)
  {
    assert StartsWithUnit(POLYPHASE);
    FirstAndThirdRow();
    SecondRow();
    forall q: nat, j: nat | 1 <= q < 4 && j < 5
      ensures MirroredAt(POLYPHASE, q, j)
    {
    }
  }

  lemma FirstAndThirdRow()
    ensures forall j: nat | j < 5 :: MirroredAt(POLYPHASE, 1, j) && MirroredAt(POLYPHASE, 3, j)
  {
    assert POLYPHASE[7] == 0.015625 && POLYPHASE[8] == -0.076904 && POLYPHASE[9] == 0.28833;
    assert POLYPHASE[10] == 0.862061 && POLYPHASE[11] == -0.106445 && POLYPHASE[12] == 0.018799;
    assert POLYPHASE[21] == 0.018799 && POLYPHASE[22] == -0.106445 && POLYPHASE[23] == 0.862061;
    assert POLYPHASE[24] == 0.28833 && POLYPHASE[25] == -0.076904 && POLYPHASE[26] == 0.015625;
  }

  lemma SecondRow()
    ensures forall j: nat | j < 5 :: MirroredAt(POLYPHASE, 2, j)
  {
    assert POLYPHASE[14] == 0.023682 && POLYPHASE[15] == -0.124268 && POLYPHASE[16] == 0.601563;
    assert POLYPHASE[17] == 0.601563 && POLYPHASE[18] == -0.124268 && POLYPHASE[19] == 0.023682;
  }

  /** The first m taps, applied to the positions that were tried. */
  function TriedSum(row: seq<real>, c: seq<real>, from: int, m: nat): real
    requires |row| == 7 && m <= 5
  {
    if m == 0 then 0.0 else TriedSum(row, c, from, m - 1) + row[m - 1] * R.At(c, from + (m - 1))
  }

  lemma ConvolveIsTriedSum(f: seq<real>, row: seq<real>, c: seq<real>, p: int)
    requires |f| == 5 && |row| == 7 && forall j: nat | j < 5 :: f[4 - j] == row[j]
    ensures R.Convolve(f, c, p, 5) == TriedSum(row, c, p - 4, 5)
  {
    assert f[0] == row[4] && f[1] == row[3] && f[2] == row[2] && f[3] == row[1] && f[4] == row[0] by {
      assert f[4 - 0] == row[0] && f[4 - 1] == row[1] && f[4 - 2] == row[2] && f[4 - 3] == row[3];
      assert f[4 - 4] == row[4];
    }
    ConvolveFive(f, c, p);
    SumFive(row, c, p - 4);
  }

  lemma ConvolveFive(f: seq<real>, c: seq<real>, p: int)
    requires |f| == 5
    ensures R.Convolve(f, c, p, 5)
            == f[0] * R.At(c, p) + f[1] * R.At(c, p - 1) + f[2] * R.At(c, p - 2) + f[3] * R.At(c, p - 3)
               + f[4] * R.At(c, p - 4)
  {
    assert R.Convolve(f, c, p, 1) == f[0] * R.At(c, p);
    assert R.Convolve(f, c, p, 2) == R.Convolve(f, c, p, 1) + f[1] * R.At(c, p - 1);
    assert R.Convolve(f, c, p, 3) == R.Convolve(f, c, p, 2) + f[2] * R.At(c, p - 2);
    assert R.Convolve(f, c, p, 4) == R.Convolve(f, c, p, 3) + f[3] * R.At(c, p - 3);
  }

  lemma SumFive(row: seq<real>, c: seq<real>, from: int)
    requires |row| == 7
    ensures TriedSum(row, c, from, 5)
            == row[0] * R.At(c, from) + row[1] * R.At(c, from + 1) + row[2] * R.At(c, from + 2)
               + row[3] * R.At(c, from + 3) + row[4] * R.At(c, from + 4)
  {
    assert TriedSum(row, c, from, 1) == row[0] * R.At(c, from);
    assert TriedSum(row, c, from, 2) == TriedSum(row, c, from, 1) + row[1] * R.At(c, from + 1);
    assert TriedSum(row, c, from, 3) == TriedSum(row, c, from, 2) + row[2] * R.At(c, from + 2);
    assert TriedSum(row, c, from, 4) == TriedSum(row, c, from, 3) + row[3] * R.At(c, from + 3);
  }

  /** What the first m taps add from positions that the search does not look at. */
  function Unseen(idata: seq<real>, t: seq<real>, row: seq<real>, start: nat, n: nat, p: int, m: nat): real
    requires |t| == BLOCK && |row| == 7 && m <= 7
  {
    if m == 0 then 0.0
    else
      var at := p + (m - 1);
      Unseen(idata, t, row, start, n, p, m - 1)
      + if m <= 5 && start <= at < start + n then 0.0 else row[m - 1] * CorrelationAt(idata, t, at)
  }

  lemma OneTapMore(w: real, tried: real, whole: real)
    ensures tried == whole ==> w * tried == w * whole
    ensures tried == 0.0 ==> w * tried == 0.0
  {
  }

  lemma {:induction false} SeenAndUnseen(idata: seq<real>, t: seq<real>, row: seq<real>, start: nat, c: seq<real>,
                                         p: int, m: nat)
    requires |t| == BLOCK && |row| == 7 && m <= 5
    requires forall i: nat {:trigger c[i]} | i < |c| :: c[i] == CorrelationAt(idata, t, start + i)
    ensures Combined(idata, t, row, p, m, BLOCK)
            == TriedSum(row, c, p - start, m) + Unseen(idata, t, row, start, |c|, p, m)
  {
    if m > 0 {
      SeenAndUnseen(idata, t, row, start, c, p, m - 1);
      var at, w := p + (m - 1), row[m - 1];
      var tried, whole := R.At(c, at - start), CorrelationAt(idata, t, at);
      assert tried == if start <= at < start + |c| then whole else 0.0 by {
        if start <= at < start + |c| {
          assert c[at - start] == whole;
        }
      }
      hide R.At, CorrelationAt;
      OneTapMore(w, tried, whole);
    }
  }

  lemma LastTwoUnseen(idata: seq<real>, t: seq<real>, row: seq<real>, start: nat, n: nat, p: int)
    requires |t| == BLOCK && |row| == 7
    ensures Combined(idata, t, row, p, 7, BLOCK) - Combined(idata, t, row, p, 5, BLOCK)
            == Unseen(idata, t, row, start, n, p, 7) - Unseen(idata, t, row, start, n, p, 5)
  {
  }

  lemma QuarterIsTriedSum(table: seq<real>, idata: seq<real>, centre: nat, est: int, b: nat, q: nat)
    requires |idata| == HISTORY && Mirrored(table) && centre + BLOCK <= HISTORY && Placeable(est)
    requires b < Tried(est) && 1 <= q < 4 && (est < 10 ==> b < 3)
    ensures Fine(table, Tries(idata, centre, est), Tried(est))[4 * b + q]
            == TriedSum(Row(table, 4 - q), Tries(idata, centre, est)[..Tried(est)], b - 2, 5)
  {
    var n := Tried(est);
    var c, row, f := Tries(idata, centre, est)[..n], Row(table, 4 - q), R.Phase(table, n, 3, q);
    QuarterAnswersFor(idata, table, centre, est, b, q);
    PhaseIsReversed(table, n, q, f, row);
    ConvolveIsTriedSum(f, row, c, b + 2);
  }

  /** A segment placed q quarters behind whole position b correlates with the centre block as well as the best quarter
      that the search saw, plus what the row's taps add from positions that were not tried. */
  lemma SegmentCorrelatesAsFound(idata: seq<real>, table: seq<real>, centre: nat, est: int, seg: seq<real>, pos: int,
                                 b: nat, q: nat)
    requires |idata| == HISTORY && Mirrored(table) && centre + BLOCK <= HISTORY && Placeable(est) && 1 <= q < 4
    requires IsPlacedAt(idata, table, centre, est, seg, pos, 4 * b + q)
    ensures var start, n, t := SearchStart(est), Tried(est), CentreBlock(idata, centre);
            var ups := Fine(table, Tries(idata, centre, est), n);
            && 4 * b + q < |ups| && (forall i | 0 <= i < |ups| :: ups[i] <= ups[4 * b + q])
            && Dot(seg, t, BLOCK) == ups[4 * b + q] + Unseen(idata, t, Row(table, 4 - q), start, n, start + b - 2, 7)
  {
    PlacedBetween(idata, table, centre, est, seg, pos, b, q);
    hide IsPlacedAt, Fine, Tries, Delayed, Unseen, Row, Mirrored, Dot, CentreBlock, Tried, SearchStart;
    QuarterSegment(idata, table, centre, est, b, q);
  }

  /** What placing at a quarter between whole positions means. */
  lemma PlacedBetween(idata: seq<real>, table: seq<real>, centre: nat, est: int, seg: seq<real>, pos: int, b: nat,
                      q: nat)
    requires |idata| == HISTORY && |table| == TABLE && centre + BLOCK <= HISTORY && Placeable(est) && 1 <= q < 4
    requires IsPlacedAt(idata, table, centre, est, seg, pos, 4 * b + q)
    ensures b < Tried(est) && (est < 10 ==> b < 3)
    ensures seg == Delayed(idata, table, SearchStart(est) + b - 2, 4 - q)
    ensures var ups := Fine(table, Tries(idata, centre, est), Tried(est));
            4 * b + q < |ups| && forall i | 0 <= i < |ups| :: ups[i] <= ups[4 * b + q]
  {
    if est < 10 {
      FourthIsNeverFound(idata, table, centre, est, 4 * b + q);
    }
    assert Whole(4 * b + q) == b + 1;
  }

  lemma QuarterSegment(idata: seq<real>, table: seq<real>, centre: nat, est: int, b: nat, q: nat)
    requires |idata| == HISTORY && Mirrored(table) && centre + BLOCK <= HISTORY && Placeable(est)
    requires b < Tried(est) && 1 <= q < 4 && (est < 10 ==> b < 3)
    ensures var start, n, t := SearchStart(est), Tried(est), CentreBlock(idata, centre);
            Dot(Delayed(idata, table, start + b - 2, 4 - q), t, BLOCK)
            == Fine(table, Tries(idata, centre, est), n)[4 * b + q]
               + Unseen(idata, t, Row(table, 4 - q), start, n, start + b - 2, 7)
  {
    var start, n, t := SearchStart(est), Tried(est), CentreBlock(idata, centre);
    var c, row, p := Tries(idata, centre, est)[..n], Row(table, 4 - q), start + b - 2;
    QuarterIsTriedSum(table, idata, centre, est, b, q);
    SegmentCombines(idata, table, t, p, 4 - q);
    forall i: nat | i < |c|
      ensures c[i] == CorrelationAt(idata, t, start + i)
    {
      TriesAre(idata, centre, est, i);
    }
    hide Fine, Tries, Delayed, Combined, Unseen, TriedSum, CorrelationAt, Row, Mirrored, Dot, CentreBlock;
    SeenAndUnseen(idata, t, row, start, c, p, 5);
    LastTwoUnseen(idata, t, row, start, n, p);
  }

  lemma PhaseIsReversed(table: seq<real>, n: nat, q: nat, f: seq<real>, row: seq<real>)
    requires Mirrored(table) && 1 <= q < 4 && 4 <= n <= 5 && f == R.Phase(table, n, 3, q) && row == Row(table, 4 - q)
    ensures |f| == 5 && forall j: nat | j < 5 :: f[4 - j] == row[j]
  {
    forall j: nat | j < 5
      ensures f[4 - j] == row[j]
    {
      assert MirroredAt(table, q, j);
      assert f[4 - j] == Row(table, q)[5 - j];
    }
  }
}
