/** The line spectral frequencies on both sides: split vector quantisation and
    its inverse, and the interpolation into one predictor for each subframe. */
module LsfCoding {
  import opened Basics
  import opened Arithmetic
  import opened FrameFormat
  import opened Codebook
  import opened ResidualSpec
  import opened RealArithmetic
  import opened CodebookEnergies

  const SPLITS: nat := 3

  /** Vector dimension, codebook size and table position of each split. */
  function Dim(i: nat): nat
    requires i < SPLITS
  {
    [3, 3, 4][i]
  }

  function Size(i: nat): nat
    requires i < SPLITS
  {
    [64, 128, 128][i]
  }

  function Position(i: nat): nat
    requires i < SPLITS
  {
    [0, 3, 6][i]
  }

  function TablePosition(i: nat): nat
    requires i < SPLITS
  {
    [0, 192, 576][i]
  }

  /** One split's codebook. */
  function Split<F>(table: seq<F>, i: nat): (cb: seq<F>)
    requires |table| == LSF_TABLE && i < SPLITS
    ensures |cb| == Dim(i) * Size(i)
  {
    table[TablePosition(i)..TablePosition(i) + Dim(i) * Size(i)]
  }

  function Row<F>(cb: seq<F>, dim: nat, j: nat): (r: seq<F>)
    requires dim * j + dim <= |cb|
    ensures |r| == dim
  {
    cb[dim * j..dim * j + dim]
  }

  // ---- Vector quantisation ----

  /** The squared distance over the first n components. */
  function Distance<F>(ar: Arith<F>, x: seq<F>, c: seq<F>, n: nat): F
    requires 1 <= n <= |x| && n <= |c|
  {
    var d := ar.sub(x[n - 1], c[n - 1]);
    if n == 1 then ar.mul(d, d) else ar.add(Distance(ar, x, c, n - 1), ar.mul(d, d))
  }

  datatype Running<F> = Running(index: nat, least: F)

  /** A scan over n candidates that keeps the first of the smallest below a limit, for any comparison. */
  function Scan<F>(less: (F, F) -> bool, limit: F, ds: seq<F>): (r: Running<F>)
    ensures r.index < |ds| || r.index == 0
  {
    if ds == [] then Running(0, limit)
    else
      var r, d := Scan(less, limit, ds[..|ds| - 1]), ds[|ds| - 1];
      if less(d, r.least) then Running(|ds| - 1, d) else r
  }

  /** Over the reals the scan finds a nearest codeword, the first of them. */
  lemma {:induction false} ScanFindsNearest(less: (real, real) -> bool, limit: real, ds: seq<real>)
    requires forall x, y :: less(x, y) <==> x < y
    ensures var r := Scan(less, limit, ds);
            && r.least <= limit && (r.least < limit ==> r.index < |ds| && ds[r.index] == r.least)
            && (forall i | 0 <= i < |ds| :: r.least <= ds[i])
            && (forall i | 0 <= i < r.index :: r.least < ds[i])
  {
    if ds != [] {
      ScanFindsNearest(less, limit, ds[..|ds| - 1]);
    }
  }

  lemma RowFits(dim: nat, j: nat, n: nat)
    requires j < n
    ensures dim * j + dim <= dim * n
  {
    MulDistribute(dim, n, j);
    MulAtLeast(dim, n - j);
  }

  /** Codeword j of a codebook of n. */
  function Codeword<F>(cb: seq<F>, dim: nat, n: nat, j: nat): (r: seq<F>)
    requires |cb| == dim * n && j < n
    ensures |r| == dim
  {
    RowFits(dim, j, n);
    Row(cb, dim, j)
  }

  /** The distances of x from all codewords. */
  function Distances<F>(ar: Arith<F>, x: seq<F>, cb: seq<F>, dim: nat, n: nat): (ds: seq<F>)
    requires 1 <= dim == |x| && |cb| == dim * n
    ensures |ds| == n
  {
    seq(n, j requires 0 <= j < n => Distance(ar, x, Codeword(cb, dim, n, j), dim))
  }

  /** vq: the index that the scan over all distances ends at, and its codeword. */
  method Vq<F(0)>(ar: Arith<F>, less: (F, F) -> bool, huge: F, x: seq<F>, cb: seq<F>, dim: nat, nCb: nat)
    returns (index: nat, xq: seq<F>)
    requires 1 <= dim == |x| && 0 < nCb && |cb| == dim * nCb
    ensures index < nCb && index == Scan(less, huge, Distances(ar, x, cb, dim, nCb)).index
    ensures xq == Codeword(cb, dim, nCb, index)
  {
    hide Distance;
    ghost var ds := Distances(ar, x, cb, dim, nCb);
    var mindist := huge;
    index := 0;
    for j := 0 to nCb
      invariant index == 0 || index < nCb
      invariant Running(index, mindist) == Scan(less, huge, ds[..j])
    {
      var dist := CodewordDistance(ar, x, Codeword(cb, dim, nCb, j), dim);
      assert ds[..j + 1][..j] == ds[..j];
      if less(dist, mindist) {
        index, mindist := j, dist;
      }
    }
    assert ds[..nCb] == ds;
    xq := Codeword(cb, dim, nCb, index);
  }

  method CodewordDistance<F(0)>(ar: Arith<F>, x: seq<F>, c: seq<F>, dim: nat) returns (dist: F)
    requires 1 <= dim == |x| == |c|
    ensures dist == Distance(ar, x, c, dim)
  {
    dist := ar.sub(x[0], c[0]);
    dist := ar.mul(dist, dist);
    for i := 1 to dim
      invariant dist == Distance(ar, x, c, i)
    {
      var tmp := ar.sub(x[i], c[i]);
      dist := ar.add(dist, ar.mul(tmp, tmp));
    }
  }

  // ---- All splits ----

  predicate LsfIndicesFit(idx: seq<nat>, n: nat) {
    |idx| >= 3 * n && forall a: nat | a < n :: TripleBelow(idx, a, 64, 128, 128)
  }

  function SplitRow<F>(table: seq<F>, i: nat, j: nat): (r: seq<F>)
    requires |table| == LSF_TABLE && i < SPLITS && j < Size(i)
    ensures |r| == Dim(i)
  {
    Codeword(Split(table, i), Dim(i), Size(i), j)
  }

  /** Split i of x is quantised to index j. */
  ghost predicate SplitQuantised<F>(ar: Arith<F>, less: (F, F) -> bool, huge: F, x: seq<F>, table: seq<F>, i: nat,
                                    j: nat)
    requires |x| == ORDER && |table| == LSF_TABLE && i < SPLITS
  {
    && j < Size(i)
    && j == Scan(less, huge, Distances(ar, x[Position(i)..Position(i) + Dim(i)], Split(table, i), Dim(i),
                                       Size(i))).index
  }

  /** The ten frequencies that three indices denote. */
  function Ten<F>(table: seq<F>, a: nat, b: nat, c: nat): (r: seq<F>)
    requires |table| == LSF_TABLE && a < 64 && b < 128 && c < 128
    ensures |r| == ORDER
  {
    SplitRow(table, 0, a) + SplitRow(table, 1, b) + SplitRow(table, 2, c)
  }

  /** The frequencies of one analysis. */
  function TenAt<F>(table: seq<F>, idx: seq<nat>, a: nat): (r: seq<F>)
    requires |table| == LSF_TABLE && 3 * a + 3 <= |idx| && TripleBelow(idx, a, 64, 128, 128)
    ensures |r| == ORDER
  {
    Ten(table, idx[3 * a], idx[3 * a + 1], idx[3 * a + 2])
  }

  /** The frequencies of the one or two analyses of a frame. */
  function Dequantised<F>(table: seq<F>, idx: seq<nat>, n: nat): (r: seq<F>)
    requires 1 <= n <= 2 && |table| == LSF_TABLE && LsfIndicesFit(idx, n)
    ensures |r| == ORDER * n
  {
    assert TripleBelow(idx, 0, 64, 128, 128) && (n == 2 ==> TripleBelow(idx, 1, 64, 128, 128));
    if n == 1 then TenAt(table, idx, 0) else TenAt(table, idx, 0) + TenAt(table, idx, 1)
  }

  /** The first n splits' frequencies. */
  function FirstSplits<F>(table: seq<F>, idx: seq<nat>, n: nat): (r: seq<F>)
    requires |table| == LSF_TABLE && n <= SPLITS && n <= |idx| && forall i: nat | i < n :: idx[i] < Size(i)
    ensures |r| == if n < SPLITS then Position(n) else ORDER
  {
    if n == 0 then [] else FirstSplits(table, idx, n - 1) + SplitRow(table, n - 1, idx[n - 1])
  }

  lemma {:induction false} FirstSplitsAppend<F>(table: seq<F>, idx: seq<nat>, j: nat, n: nat)
    requires |table| == LSF_TABLE && n <= SPLITS && n <= |idx| && forall i: nat | i < n :: idx[i] < Size(i)
    ensures FirstSplits(table, idx + [j], n) == FirstSplits(table, idx, n)
  {
    if n > 0 {
      FirstSplitsAppend(table, idx, j, n - 1);
    }
  }

  lemma TenIsAllSplits<F>(table: seq<F>, idx: seq<nat>)
    requires |table| == LSF_TABLE && |idx| == SPLITS && forall i: nat | i < SPLITS :: idx[i] < Size(i)
    ensures idx[0] < 64 && idx[1] < 128 && idx[2] < 128
    ensures FirstSplits(table, idx, SPLITS) == Ten(table, idx[0], idx[1], idx[2])
  {
    assert idx[0] < Size(0) && idx[1] < Size(1) && idx[2] < Size(2);
    assert FirstSplits(table, idx, 1) == SplitRow(table, 0, idx[0]);
  }

  /** All splits of x are quantised. */
  ghost predicate AllSplits<F>(ar: Arith<F>, less: (F, F) -> bool, huge: F, x: seq<F>, table: seq<F>, idx: seq<nat>)
    requires |x| == ORDER && |table| == LSF_TABLE
  {
    |idx| == SPLITS && forall i: nat {:trigger SplitQuantised(ar, less, huge, x, table, i, idx[i])} | i < SPLITS ::
                         SplitQuantised(ar, less, huge, x, table, i, idx[i])
  }

  method OneSplit<F(0)>(ar: Arith<F>, less: (F, F) -> bool, huge: F, x: seq<F>, table: seq<F>, i: nat, cbPos: nat,
                        xPos: nat)
    returns (j: nat, xq: seq<F>)
    requires |x| == ORDER && |table| == LSF_TABLE && i < SPLITS && cbPos == TablePosition(i) && xPos == Position(i)
    ensures SplitQuantised(ar, less, huge, x, table, i, j) && j < Size(i) && xq == SplitRow(table, i, j)
  {
    var cb := table[cbPos..cbPos + Dim(i) * Size(i)];
    assert cb == Split(table, i);
    j, xq := Vq(ar, less, huge, x[xPos..xPos + Dim(i)], cb, Dim(i), Size(i));
  }

  /** splitVQ. */
  method SplitVq<F(0)>(ar: Arith<F>, less: (F, F) -> bool, huge: F, x: seq<F>, table: seq<F>)
    returns (idx: seq<nat>, qX: seq<F>)
    requires |x| == ORDER && |table| == LSF_TABLE
    ensures AllSplits(ar, less, huge, x, table, idx)
    ensures TripleBelow(idx, 0, 64, 128, 128) && qX == TenAt(table, idx, 0)
  {
    hide SplitQuantised, SplitRow;
    idx, qX := [], [];
    var cbPos, xPos := 0, 0;
    for i := 0 to SPLITS
      invariant |idx| == i && xPos == (if i < SPLITS then Position(i) else ORDER)
      invariant cbPos == if i < SPLITS then TablePosition(i) else LSF_TABLE
      invariant forall j: nat {:trigger SplitQuantised(ar, less, huge, x, table, j, idx[j])} | j < i ::
                  SplitQuantised(ar, less, huge, x, table, j, idx[j])
      invariant forall j: nat | j < i :: idx[j] < Size(j)
      invariant qX == FirstSplits(table, idx, i)
    {
      var j, xq := OneSplit(ar, less, huge, x, table, i, cbPos, xPos);
      FirstSplitsAppend(table, idx, j, i);
      forall m: nat | m < i
        ensures SplitQuantised(ar, less, huge, x, table, m, (idx + [j])[m])
      {
        assert SplitQuantised(ar, less, huge, x, table, m, idx[m]);
      }
      idx, qX := idx + [j], qX + xq;
      xPos, cbPos := xPos + Dim(i), cbPos + Dim(i) * Size(i);
    }
    TenIsAllSplits(table, idx);
  }

  /** quantizeLSF: one split quantisation for each analysis. */
  method QuantizeLsf<F(0)>(ar: Arith<F>, less: (F, F) -> bool, huge: F, lsf: seq<F>, table: seq<F>, lpcAnalyses: nat)
    returns (idx: seq<nat>, lsfdeq: seq<F>)
    requires 1 <= lpcAnalyses <= 2 && |lsf| == ORDER * lpcAnalyses && |table| == LSF_TABLE
    ensures |idx| == 3 * lpcAnalyses && LsfIndicesFit(idx, lpcAnalyses)
            && lsfdeq == Dequantised(table, idx, lpcAnalyses)
    ensures AllSplits(ar, less, huge, lsf[..ORDER], table, idx[..3])
    ensures lpcAnalyses == 2 ==> AllSplits(ar, less, huge, lsf[ORDER..], table, idx[3..])
  {
    idx, lsfdeq := SplitVq(ar, less, huge, lsf[..ORDER], table);
    assert idx[..3] == idx;
    if lpcAnalyses == 2 {
      var idx2, lsfdeq2 := SplitVq(ar, less, huge, lsf[ORDER..], table);
      AppendedIndices(table, idx, idx2);
      assert (idx + idx2)[..3] == idx && (idx + idx2)[3..] == idx2;
      idx, lsfdeq := idx + idx2, lsfdeq + lsfdeq2;
    }
  }

  lemma AppendedIndices<F>(table: seq<F>, a: seq<nat>, b: seq<nat>)
    requires |table| == LSF_TABLE && |a| == |b| == 3 && TripleBelow(a, 0, 64, 128, 128)
             && TripleBelow(b, 0, 64, 128, 128)
    ensures LsfIndicesFit(a + b, 2)
    ensures Dequantised(table, a + b, 2) == TenAt(table, a, 0) + TenAt(table, b, 0)
  {
    var c := a + b;
    assert c[0] == a[0] && c[1] == a[1] && c[2] == a[2] && c[3] == b[0] && c[4] == b[1] && c[5] == b[2];
  }

  // ---- Dequantisation ----

  /** One table row, entry by entry. */
  method CopyRow<F(0)>(table: seq<F>, cbPos: nat, dim: nat, index: nat, lsfdeq: array<F>, pos: nat, ghost cb: seq<F>,
                       ghost n: nat)
    requires |cb| == dim * n && index < n && cbPos + |cb| <= |table| && cb == table[cbPos..cbPos + |cb|]
    requires pos + dim <= lsfdeq.Length
    modifies lsfdeq
    ensures lsfdeq[pos..pos + dim] == Codeword(cb, dim, n, index)
    ensures forall i | 0 <= i < lsfdeq.Length && !(pos <= i < pos + dim) :: lsfdeq[i] == old(lsfdeq[i])
  {
    RowFits(dim, index, n);
    var row := dim * index;
    ghost var word := Codeword(cb, dim, n, index);
    SliceOfSlice(table, cbPos, |cb|, row, dim);
    assert word == table[cbPos + row..cbPos + row + dim];
    forall j | 0 <= j < dim { lsfdeq[pos + j] := table[cbPos + row + j]; }
    assert forall j | pos <= j < pos + dim :: lsfdeq[j] == word[j - pos];
  }

  /** Three rows make the frequencies of one analysis. */
  method DequantizeOne<F(0)>(table: seq<F>, lsfdeq: array<F>, off: nat, index: seq<nat>)
    requires |table| == LSF_TABLE && |index| == SPLITS && TripleBelow(index, 0, 64, 128, 128)
             && off + ORDER <= lsfdeq.Length
    modifies lsfdeq
    ensures lsfdeq[off..off + ORDER] == TenAt(table, index, 0)
    ensures forall i | 0 <= i < lsfdeq.Length && !(off <= i < off + ORDER) :: lsfdeq[i] == old(lsfdeq[i])
  {
    hide Codeword;
    var pos, cbPos := 0, 0;
    for i := 0 to SPLITS
      invariant pos == (if i < SPLITS then Position(i) else ORDER)
      invariant cbPos == if i < SPLITS then TablePosition(i) else LSF_TABLE
      invariant forall s: nat | s < i :: index[s] < Size(s)
      invariant lsfdeq[off..off + pos] == FirstSplits(table, index, i)
      invariant forall j | 0 <= j < lsfdeq.Length && !(off <= j < off + ORDER) :: lsfdeq[j] == old(lsfdeq[j])
    {
      assert index[i] < Size(i);
      ghost var front := lsfdeq[off..off + pos];
      CopyRow(table, cbPos, Dim(i), index[i], lsfdeq, off + pos, Split(table, i), Size(i));
      assert lsfdeq[off..off + pos] == front;
      assert lsfdeq[off..off + pos + Dim(i)] == front + lsfdeq[off + pos..off + pos + Dim(i)];
      pos, cbPos := pos + Dim(i), cbPos + Dim(i) * Size(i);
    }
    TenIsAllSplits(table, index);
  }

  /** dequantizeLSF: the decoder looks up what the encoder's quantiser chose. */
  method DequantizeLsf<F(0)>(table: seq<F>, lsfdeq: array<F>, index: seq<nat>, lpcAnalyses: nat)
    requires 1 <= lpcAnalyses <= 2 && |table| == LSF_TABLE && LsfIndicesFit(index, lpcAnalyses)
    requires lsfdeq.Length == 2 * ORDER
    modifies lsfdeq
    ensures lsfdeq[..ORDER * lpcAnalyses] == Dequantised(table, index, lpcAnalyses)
  {
    assert TripleBelow(index, 0, 64, 128, 128) && (lpcAnalyses == 2 ==> TripleBelow(index, 1, 64, 128, 128));
    DequantizeOne(table, lsfdeq, 0, index[..3]);
    assert lsfdeq[0..0 + ORDER] == lsfdeq[..ORDER] == TenAt(table, index, 0);
    if lpcAnalyses > 1 {
      ghost var first := lsfdeq[..ORDER];
      DequantizeOne(table, lsfdeq, ORDER, index[3..6]);
      assert lsfdeq[..ORDER] == first && lsfdeq[ORDER..ORDER + ORDER] == TenAt(table, index, 1);
      assert lsfdeq[..2 * ORDER] == lsfdeq[..ORDER] + lsfdeq[ORDER..ORDER + ORDER];
    }
  }

  // ---- Interpolation ----

  /** checkLSF's result. */
  function Stable<F>(k: Kernel<F>, lsf: seq<F>, n: nat): (r: seq<F>)
    ensures |r| == ORDER * n
  {
    seq(ORDER * n, i requires 0 <= i < ORDER * n => k.stable(lsf, n, i))
  }

  function Interpolated<F>(k: Kernel<F>, a: seq<F>, b: seq<F>, coef: F): (r: seq<F>)
    requires |a| == |b| == ORDER
    ensures |r| == ORDER
  {
    seq(ORDER, i requires 0 <= i < ORDER => k.ar.add(k.ar.mul(coef, a[i]), k.ar.mul(k.ar.sub(k.ar.one, coef), b[i])))
  }

  /** Over the reals a weight of one gives the first frequencies, of zero the second, and between lies between. */
  lemma InterpolationEnds(k: Kernel<real>, a: seq<real>, b: seq<real>, coef: real)
    requires k.ar == Reals(k.ar.taps) && |a| == |b| == ORDER && 0.0 <= coef <= 1.0
    ensures coef == 1.0 ==> Interpolated(k, a, b, coef) == a
    ensures coef == 0.0 ==> Interpolated(k, a, b, coef) == b
    ensures forall i | 0 <= i < ORDER :: Between(a[i], b[i], Interpolated(k, a, b, coef)[i])
  {
    forall i | 0 <= i < ORDER
      ensures Interpolated(k, a, b, coef)[i] == coef * a[i] + (1.0 - coef) * b[i]
      ensures Between(a[i], b[i], Interpolated(k, a, b, coef)[i])
    {
      MeanIsBetween(coef, a[i], b[i]);
    }
  }

  predicate Between(x: real, y: real, z: real) {
    x <= z <= y || y <= z <= x
  }

  lemma MeanIsBetween(f: real, x: real, y: real)
    requires 0.0 <= f <= 1.0
    ensures Between(x, y, f * x + (1.0 - f) * y)
  {
    var z := f * x + (1.0 - f) * y;
    if x <= y {
      var p := NonNegativeProduct(f, y - x);
      var q := NonNegativeProduct(1.0 - f, y - x);
    } else {
      var p := NonNegativeProduct(f, x - y);
      var q := NonNegativeProduct(1.0 - f, x - y);
    }
  }

  /** With the weights' end values a frame's last subframes use its own last frequencies alone, the second one of a 30
      ms frame those of its first analysis, and no subframe of a 30 ms frame but the first those of the frame before. */
  lemma SubframesFollowAnalyses(k: Kernel<real>, mode: Mode, previous: seq<real>, other: seq<real>, lsf: seq<real>,
                                i: nat)
    requires ValidKernel(k) && k.ar == Reals(k.ar.taps) && |previous| == |other| == ORDER
    requires |lsf| == ORDER * mode.Analyses() && i < mode.Subframes()
    requires k.weights20[3] == 0.0 && k.weights30[1] == 1.0 && k.weights30[4] == k.weights30[5] == 0.0
    ensures i + 1 == mode.Subframes() || (mode.Mode30? && i == 4) ==>
              PredictorAt(k, mode, previous, lsf, i) == Predictor(k, Last(mode, lsf))
    ensures mode.Mode30? && i == 1 ==> PredictorAt(k, mode, previous, lsf, i) == Predictor(k, lsf[..ORDER])
    ensures mode.Mode30? && i > 0 ==> PredictorAt(k, mode, previous, lsf, i) == PredictorAt(k, mode, other, lsf, i)
  {
    if mode.Mode20? {
      InterpolationEnds(k, previous, lsf, 0.0);
      assert Last(mode, lsf) == lsf;
    } else {
      InterpolationEnds(k, lsf[..ORDER], lsf[ORDER..], 1.0);
      InterpolationEnds(k, lsf[..ORDER], lsf[ORDER..], 0.0);
    }
  }

  function Predictor<F>(k: Kernel<F>, lsf: seq<F>): (lp: seq<F>)
    ensures |lp| == COEFFICIENTS
  {
    seq(COEFFICIENTS, i requires 0 <= i < COEFFICIENTS => k.predictor(lsf, i))
  }

  /** The predictor of subframe i, between the previous frame's frequencies and this frame's. */
  function PredictorAt<F>(k: Kernel<F>, mode: Mode, previous: seq<F>, lsf: seq<F>, i: nat): (lp: seq<F>)
    requires ValidKernel(k) && |previous| == ORDER && |lsf| == ORDER * mode.Analyses() && i < mode.Subframes()
    ensures |lp| == COEFFICIENTS
  {
    Predictor(k,
      if mode.Mode20? then Interpolated(k, previous, lsf, k.weights20[i])
      else if i == 0 then Interpolated(k, previous, lsf[..ORDER], k.weights30[0])
      else Interpolated(k, lsf[..ORDER], lsf[ORDER..], k.weights30[i]))
  }

  /** The predictors of the first n subframes. */
  function Predictors<F>(k: Kernel<F>, mode: Mode, previous: seq<F>, lsf: seq<F>, n: nat): (s: seq<F>)
    requires ValidKernel(k) && |previous| == ORDER && |lsf| == ORDER * mode.Analyses() && n <= mode.Subframes()
    ensures |s| == COEFFICIENTS * n
  {
    if n == 0 then [] else Predictors(k, mode, previous, lsf, n - 1) + PredictorAt(k, mode, previous, lsf, n - 1)
  }

  /** The frequencies that the next frame interpolates from. */
  function Last<F>(mode: Mode, lsf: seq<F>): (r: seq<F>)
    requires |lsf| == ORDER * mode.Analyses()
    ensures |r| == ORDER
  {
    lsf[ORDER * (mode.Analyses() - 1)..]
  }

  /** bwexpand: coefficient i times the i-th power of the bandwidth factor, accumulated step by step. */
  function Chirp<F>(ar: Arith<F>, coef: F, i: nat): F
    requires i > 0
  {
    if i == 1 then coef else ar.mul(Chirp(ar, coef, i - 1), coef)
  }

  function Expanded<F>(ar: Arith<F>, lp: seq<F>, coef: F): (r: seq<F>)
    ensures |r| == |lp|
  {
    seq(|lp|, i requires 0 <= i < |lp| => if i == 0 then lp[0] else ar.mul(Chirp(ar, coef, i), lp[i]))
  }

  method BwExpand<F(0)>(ar: Arith<F>, lp: seq<F>, coef: F) returns (r: seq<F>)
    requires |lp| > 0
    ensures r == Expanded(ar, lp, coef)
  {
    var chirp := coef;
    r := [lp[0]];
    for i := 1 to |lp|
      invariant chirp == Chirp(ar, coef, i)
      invariant r == Expanded(ar, lp, coef)[..i]
    {
      r := r + [ar.mul(chirp, lp[i])];
      chirp := ar.mul(chirp, coef);
    }
  }

  /** The weighting filters of the first n subframes. */
  function Weights<F>(k: Kernel<F>, mode: Mode, previous: seq<F>, lsf: seq<F>, n: nat): (s: seq<F>)
    requires ValidKernel(k) && |previous| == ORDER && |lsf| == ORDER * mode.Analyses() && n <= mode.Subframes()
    ensures |s| == COEFFICIENTS * n
  {
    if n == 0 then []
    else
      Weights(k, mode, previous, lsf, n - 1)
      + Expanded(k.ar, PredictorAt(k, mode, previous, lsf, n - 1), k.bandwidth)
  }

  /** simpleInterpolateLSF: the synthesis filters come from the quantised frequencies and the weighting filters from the
      unquantised ones; both histories move on. */
  method SimpleInterpolate<F(0)>(k: Kernel<F>, mode: Mode, lsf: seq<F>, lsfdeq: seq<F>,
                                 lsfold: array<F>, lsfdeqold: array<F>)
    returns (syntdenum: seq<F>, weightdenum: seq<F>)
    requires ValidKernel(k) && |lsf| == |lsfdeq| == ORDER * mode.Analyses()
    requires lsfold.Length == lsfdeqold.Length == ORDER && lsfold != lsfdeqold
    modifies lsfold, lsfdeqold
    ensures syntdenum == Predictors(k, mode, old(lsfdeqold[..]), lsfdeq, mode.Subframes())
    ensures weightdenum == Weights(k, mode, old(lsfold[..]), lsf, mode.Subframes())
    ensures lsfdeqold[..] == Last(mode, lsfdeq) && lsfold[..] == Last(mode, lsf)
  {
    hide Predictor, Interpolated, Expanded;
    syntdenum, weightdenum := [], [];
    var oldDeq, oldLsf := lsfdeqold[..], lsfold[..];
    for i := 0 to mode.Subframes()
      invariant syntdenum == Predictors(k, mode, oldDeq, lsfdeq, i)
      invariant weightdenum == Weights(k, mode, oldLsf, lsf, i)
    {
      var lp, lw;
      if mode.Mode20? {
        lp := Predictor(k, Interpolated(k, oldDeq, lsfdeq, k.weights20[i]));
        lw := Predictor(k, Interpolated(k, oldLsf, lsf, k.weights20[i]));
      } else if i == 0 {
        lp := Predictor(k, Interpolated(k, oldDeq, lsfdeq[..ORDER], k.weights30[0]));
        lw := Predictor(k, Interpolated(k, oldLsf, lsf[..ORDER], k.weights30[0]));
      } else {
        lp := Predictor(k, Interpolated(k, lsfdeq[..ORDER], lsfdeq[ORDER..], k.weights30[i]));
        lw := Predictor(k, Interpolated(k, lsf[..ORDER], lsf[ORDER..], k.weights30[i]));
      }
      syntdenum := syntdenum + lp;
      var w := BwExpand(k.ar, lw, k.bandwidth);
      weightdenum := weightdenum + w;
    }
    var off := if mode.Mode30? then ORDER else 0;
    forall i | 0 <= i < ORDER { lsfold[i] := lsf[off + i]; }
    forall i | 0 <= i < ORDER { lsfdeqold[i] := lsfdeq[off + i]; }
  }

  /** decoderInterpolateLSF: the decoder's synthesis filters, weighting filters from the same predictors, and its
      history moved on. */
  method DecoderInterpolate<F(0)>(k: Kernel<F>, mode: Mode, lsfdeq: seq<F>, lsfdeqold: array<F>)
    returns (syntdenum: seq<F>, weightdenum: seq<F>)
    requires ValidKernel(k) && |lsfdeq| == ORDER * mode.Analyses() && lsfdeqold.Length == ORDER
    modifies lsfdeqold
    ensures syntdenum == Predictors(k, mode, old(lsfdeqold[..]), lsfdeq, mode.Subframes())
    ensures weightdenum == Weights(k, mode, old(lsfdeqold[..]), lsfdeq, mode.Subframes())
    ensures lsfdeqold[..] == Last(mode, lsfdeq)
  {
    hide Predictor, Interpolated, Expanded;
    syntdenum, weightdenum := [], [];
    var before := lsfdeqold[..];
    for i := 0 to mode.Subframes()
      invariant syntdenum == Predictors(k, mode, before, lsfdeq, i)
      invariant weightdenum == Weights(k, mode, before, lsfdeq, i)
    {
      var lp;
      if mode.Mode20? {
        lp := Predictor(k, Interpolated(k, before, lsfdeq, k.weights20[i]));
      } else if i == 0 {
        lp := Predictor(k, Interpolated(k, before, lsfdeq[..ORDER], k.weights30[0]));
      } else {
        lp := Predictor(k, Interpolated(k, lsfdeq[..ORDER], lsfdeq[ORDER..], k.weights30[i]));
      }
      syntdenum := syntdenum + lp;
      var w := BwExpand(k.ar, lp, k.bandwidth);
      weightdenum := weightdenum + w;
    }
    var off := if mode.Mode30? then ORDER else 0;
    forall i | 0 <= i < ORDER { lsfdeqold[i] := lsfdeq[off + i]; }
  }
}
