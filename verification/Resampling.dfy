/** The two rate changers of the enhancer: the polyphase interpolator that turns
    a short correlation into quarter-sample resolution, and the low-pass
    decimation by two ahead of the pitch search. */
module Resampling {

  /** A sequence extended by zeros on both sides. */
  function At(s: seq<real>, i: int): real {
    if 0 <= i < |s| then s[i] else 0.0
  }

  /** The first n taps of the convolution of f with the zero-extended s at position p. */
  function Convolve(f: seq<real>, s: seq<real>, p: int, n: nat): real
    requires n <= |f|
  {
    if n == 0 then 0.0 else Convolve(f, s, p, n - 1) + f[n - 1] * At(s, p - (n - 1))
  }

  /** What an inner loop accumulates: taps from..from + count against samples start, start - 1, ... */
  function Taps(f: seq<real>, from: nat, s: seq<real>, start: nat, count: nat): real
    requires from + count <= |f| && count <= start + 1 && start < |s|
  {
    if count == 0 then 0.0 else Taps(f, from, s, start, count - 1) + f[from + count - 1] * s[start - (count - 1)]
  }

  method Accumulate(f: seq<real>, from: nat, s: seq<real>, start: nat, count: nat) returns (sum: real)
    requires from + count <= |f| && count <= start + 1 && start < |s|
    ensures sum == Taps(f, from, s, start, count)
  {
    sum := 0.0;
    for k := 0 to count
      invariant sum == Taps(f, from, s, start, k)
    {
      sum := sum + s[start - k] * f[from + k];
    }
  }

  /** Skipping `from` leading taps is zero extension on the right, stopping early is zero extension on the left. */
  lemma {:induction false} TapsConvolve(f: seq<real>, from: nat, s: seq<real>, start: nat, count: nat, n: nat)
    requires from + count <= |f| && count <= start + 1 && start < |s|
    requires n <= |f|
    requires from > 0 ==> start == |s| - 1
    requires n == from + count || (n >= from + count && count == start + 1) || (count == 0 && n <= from)
    ensures Convolve(f, s, start + from, n) == Taps(f, from, s, start, count)
  {
    if n == 0 {
    } else if n > from && n == from + count {
      TapsConvolve(f, from, s, start, count - 1, n - 1);
    } else {
      TapsConvolve(f, from, s, start, count, n - 1);
    }
  }

  lemma {:induction false} TapsPrefix(f: seq<real>, from: nat, s: seq<real>, t: seq<real>, start: nat, count: nat)
    requires from + count <= |f| && count <= start + 1 && start < |t| <= |s|
    requires s[..|t|] == t
    ensures Taps(f, from, s, start, count) == Taps(f, from, t, start, count)
  {
    if count > 0 {
      TapsPrefix(f, from, s, t, start, count - 1);
      assert s[..|t|][start - (count - 1)] == t[start - (count - 1)];
    }
  }

  // ---- Interpolation by four ----

  const PHASES: nat := 4

  /** Half the number of taps in force: a sequence shorter than the filter is given a shorter filter. */
  function HalfLength(dim: nat, hfl: nat): nat {
    if 2 * hfl + 1 > dim then dim / 2 else hfl
  }

  function FilterLength(dim: nat, hfl: nat): nat {
    2 * HalfLength(dim, hfl) + 1
  }

  /** The taps of one phase that are in force: the middle ones of its row. */
  function Phase(table: seq<real>, dim: nat, hfl: nat, j: nat): (f: seq<real>)
    requires |table| == PHASES * (2 * hfl + 1) && j < PHASES
    ensures |f| == FilterLength(dim, hfl)
  {
    var row := j * (2 * hfl + 1);
    assert row + (2 * hfl + 1) <= |table| by { assert |table| == (2 * hfl + 1) * 4; }
    var skipped := hfl - HalfLength(dim, hfl);
    table[row + skipped..row + skipped + FilterLength(dim, hfl)]
  }

  /** Whether the loops' limits fit the sequence: its length is odd, or at least the full filter's. */
  predicate Aligned(dim: nat, hfl: nat) {
    dim % 2 == 1 || dim >= 2 * hfl + 1
  }

  /** Blocks of four that are written. */
  function Blocks(dim: nat, hfl: nat): nat {
    if Aligned(dim, hfl) then dim else dim + 1
  }

  /** The samples one block sees and where it is centred. */
  function BlockValue(table: seq<real>, s: seq<real>, dim: nat, hfl: nat, b: nat, j: nat): real
    requires |table| == PHASES * (2 * hfl + 1) && j < PHASES
    requires Blocks(dim, hfl) <= |s|
  {
    var f, h := Phase(table, dim, hfl, j), HalfLength(dim, hfl);
    if Aligned(dim, hfl) then Convolve(f, s[..dim], b + h, |f|)
    else if b <= h then Convolve(f, s[..dim + 1], b + h, |f|)
    else Convolve(f, s[..dim], b - 1 + h, |f|)
  }

  /** One block of four outputs, one for each phase. */
  method WriteBlock(useq: array<real>, table: seq<real>, s: seq<real>, dim: nat, hfl: nat,
                    b: nat, from: nat, start: nat, count: nat)
    requires |table| == PHASES * (2 * hfl + 1) && 4 * b + 4 <= useq.Length
    requires from + count <= FilterLength(dim, hfl) && count <= start + 1 && start < |s|
    modifies useq
    ensures forall j: nat | j < 4 :: useq[4 * b + j] == Taps(Phase(table, dim, hfl, j), from, s, start, count)
    ensures forall i | 0 <= i < useq.Length && !(4 * b <= i < 4 * b + 4) :: useq[i] == old(useq[i])
  {
    for j := 0 to PHASES
      invariant forall k: nat | k < j :: useq[4 * b + k] == Taps(Phase(table, dim, hfl, k), from, s, start, count)
      invariant forall i | 0 <= i < useq.Length && !(4 * b <= i < 4 * b + 4) :: useq[i] == old(useq[i])
    {
      useq[4 * b + j] := Accumulate(Phase(table, dim, hfl, j), from, s, start, count);
    }
  }

  ghost predicate BlockDone(useq: seq<real>, table: seq<real>, s: seq<real>, dim: nat, hfl: nat, b: nat)
    requires |table| == PHASES * (2 * hfl + 1) && Blocks(dim, hfl) <= |s| && 4 * b + 4 <= |useq|
  {
    forall j: nat | j < 4 :: useq[4 * b + j] == BlockValue(table, s, dim, hfl, b, j)
  }

  /** The leading and middle blocks: the taps run from sample b + h down to sample 0 or through the whole filter. */
  lemma LeadingBlock(table: seq<real>, s: seq<real>, dim: nat, hfl: nat, b: nat, j: nat)
    requires |table| == PHASES * (2 * hfl + 1) && j < PHASES && dim > 0
    requires Blocks(dim, hfl) <= |s|
    requires b + HalfLength(dim, hfl) < Blocks(dim, hfl)
    ensures var h, fl := HalfLength(dim, hfl), FilterLength(dim, hfl);
            var count := if b + h < fl then b + h + 1 else fl;
            Taps(Phase(table, dim, hfl, j), 0, s, b + h, count) == BlockValue(table, s, dim, hfl, b, j)
  {
    var f, h, fl := Phase(table, dim, hfl, j), HalfLength(dim, hfl), FilterLength(dim, hfl);
    var count := if b + h < fl then b + h + 1 else fl;
    var t := s[..Blocks(dim, hfl)];
    TapsPrefix(f, 0, s, t, b + h, count);
    TapsConvolve(f, 0, t, b + h, count, fl);
  }

  /** The trailing blocks: the first q taps fall beyond the last sample. */
  lemma TrailingBlock(table: seq<real>, s: seq<real>, dim: nat, hfl: nat, q: nat, j: nat)
    requires |table| == PHASES * (2 * hfl + 1) && j < PHASES && dim > 0
    requires Blocks(dim, hfl) <= |s|
    requires 1 <= q <= HalfLength(dim, hfl)
    ensures var h, fl := HalfLength(dim, hfl), FilterLength(dim, hfl);
            Taps(Phase(table, dim, hfl, j), q, s, dim - 1, fl - q)
            == BlockValue(table, s, dim, hfl, Blocks(dim, hfl) - h - 1 + q, j)
  {
    var f, h, fl := Phase(table, dim, hfl, j), HalfLength(dim, hfl), FilterLength(dim, hfl);
    TapsPrefix(f, q, s, s[..dim], dim - 1, fl - q);
    TapsConvolve(f, q, s[..dim], dim - 1, fl - q, fl);
  }

  ghost predicate BlocksDone(useq: seq<real>, table: seq<real>, s: seq<real>, dim: nat, hfl: nat, n: nat)
    requires |table| == PHASES * (2 * hfl + 1) && Blocks(dim, hfl) <= |s| && 4 * n <= |useq|
  {
    forall b: nat | b < n :: BlockDone(useq, table, s, dim, hfl, b)
  }

  /** Appends block b, which must be the value of its taps. */
  method AppendBlock(useq: array<real>, table: seq<real>, s: seq<real>, dim: nat, hfl: nat,
                     b: nat, from: nat, start: nat, count: nat)
    requires |table| == PHASES * (2 * hfl + 1) && Blocks(dim, hfl) <= |s| && 4 * b + 4 <= useq.Length
    requires from + count <= FilterLength(dim, hfl) && count <= start + 1 && start < |s|
    requires BlocksDone(useq[..], table, s, dim, hfl, b)
    requires forall j: nat | j < PHASES ::
               Taps(Phase(table, dim, hfl, j), from, s, start, count) == BlockValue(table, s, dim, hfl, b, j)
    modifies useq
    ensures BlocksDone(useq[..], table, s, dim, hfl, b + 1)
    ensures forall i | 4 * b + 4 <= i < useq.Length :: useq[i] == old(useq[i])
  {
    WriteBlock(useq, table, s, dim, hfl, b, from, start, count);
    forall c: nat | c < b + 1
      ensures BlockDone(useq[..], table, s, dim, hfl, c)
    {
      assert c < b ==> BlockDone(old(useq[..]), table, s, dim, hfl, c);
    }
  }

  /** The loops whose taps start at the first one: a growing number of them, then all. */
  method LeadingLoops(useq: array<real>, s: seq<real>, dim: nat, hfl: nat, table: seq<real>) returns (b: nat)
    requires |table| == PHASES * (2 * hfl + 1)
    requires dim > 0 && Blocks(dim, hfl) <= |s| && 4 * Blocks(dim, hfl) <= useq.Length
    modifies useq
    ensures b == Blocks(dim, hfl) - HalfLength(dim, hfl)
    ensures BlocksDone(useq[..], table, s, dim, hfl, b)
    ensures forall i | 4 * Blocks(dim, hfl) <= i < useq.Length :: useq[i] == old(useq[i])
  {
    hide BlockValue;
    var h, fl := HalfLength(dim, hfl), FilterLength(dim, hfl);
    ghost var n := Blocks(dim, hfl);
    b := 0;
    var i := h;
    while i < fl
      invariant h <= i <= fl && b == i - h
      invariant BlocksDone(useq[..], table, s, dim, hfl, b)
      invariant forall k | 4 * n <= k < useq.Length :: useq[k] == old(useq[k])
    {
      forall j: nat | j < 4 { LeadingBlock(table, s, dim, hfl, b, j); }
      AppendBlock(useq, table, s, dim, hfl, b, 0, i, i + 1);
      b, i := b + 1, i + 1;
    }
    while i < dim
      invariant fl <= i && (i <= dim || i == fl) && b == i - h
      invariant BlocksDone(useq[..], table, s, dim, hfl, b)
      invariant forall k | 4 * n <= k < useq.Length :: useq[k] == old(useq[k])
    {
      forall j: nat | j < 4 { LeadingBlock(table, s, dim, hfl, b, j); }
      AppendBlock(useq, table, s, dim, hfl, b, 0, i, fl);
      b, i := b + 1, i + 1;
    }
  }

  /** upsampleEnhancement writes one block of four phases for every sample of an odd or sufficiently long
      sequence, each the zero-extended convolution centred on that sample. */
  method UpsampleEnhancement(useq: array<real>, s: seq<real>, dim: nat, hfl: nat, table: seq<real>)
    requires |table| == PHASES * (2 * hfl + 1)
    requires dim > 0 && Blocks(dim, hfl) <= |s| && 4 * Blocks(dim, hfl) <= useq.Length
    modifies useq
    ensures BlocksDone(useq[..], table, s, dim, hfl, Blocks(dim, hfl))
    ensures forall i | 4 * Blocks(dim, hfl) <= i < useq.Length :: useq[i] == old(useq[i])
  {
    var h, fl := HalfLength(dim, hfl), FilterLength(dim, hfl);
    ghost var n := Blocks(dim, hfl);
    var b := LeadingLoops(useq, s, dim, hfl, table);
    var q := 1;
    while q <= h
      invariant 1 <= q <= h + 1 && b == n - h - 1 + q
      invariant BlocksDone(useq[..], table, s, dim, hfl, b)
      invariant forall k | 4 * n <= k < useq.Length :: useq[k] == old(useq[k])
    {
      forall j: nat | j < 4 { TrailingBlock(table, s, dim, hfl, q, j); }
      AppendBlock(useq, table, s, dim, hfl, b, q, dim - 1, fl - q);
      b, q := b + 1, q + 1;
    }
  }

  /** Block b holds the convolution of the sequence itself, centred on its own sample. */
  ghost predicate Centred(table: seq<real>, s: seq<real>, dim: nat, hfl: nat, b: nat, j: nat)
    requires |table| == PHASES * (2 * hfl + 1) && j < PHASES && |s| == Blocks(dim, hfl)
  {
    BlockValue(table, s, dim, hfl, b, j)
    == Convolve(Phase(table, dim, hfl, j), s[..dim], b + HalfLength(dim, hfl), FilterLength(dim, hfl))
  }

  /** The consumer's view: for every content of the sequence and the table a block is centred, exactly when the length
      is odd or at least the filter's, or the block comes before the middle of the sequence. */
  lemma AlignedExactly(dim: nat, hfl: nat, b: nat)
    requires b < dim
    ensures Aligned(dim, hfl) || b < HalfLength(dim, hfl) <==>
            forall table: seq<real>, s: seq<real>, j: nat |
              |table| == PHASES * (2 * hfl + 1) && |s| == Blocks(dim, hfl) && j < PHASES ::
              Centred(table, s, dim, hfl, b, j)
  {
    if !Aligned(dim, hfl) {
      if b < HalfLength(dim, hfl) {
        forall table: seq<real>, s: seq<real>, j: nat |
          |table| == PHASES * (2 * hfl + 1) && |s| == Blocks(dim, hfl) && j < PHASES
          ensures Centred(table, s, dim, hfl, b, j)
        {
          ConvolveBefore(Phase(table, dim, hfl, j), s, dim, b + HalfLength(dim, hfl), FilterLength(dim, hfl));
        }
      } else if b == HalfLength(dim, hfl) {
        MiddleReadsPastEnd(dim, hfl);
      } else {
        Misaligned(dim, hfl, b);
      }
    }
  }

  /** Outputs before the end do not see what lies behind it. */
  lemma {:induction false} ConvolveBefore(f: seq<real>, s: seq<real>, dim: nat, p: nat, n: nat)
    requires n <= |f| && p < dim && |s| == dim + 1
    ensures Convolve(f, s[..dim + 1], p, n) == Convolve(f, s[..dim], p, n)
  {
    if n > 0 {
      ConvolveBefore(f, s, dim, p, n - 1);
    }
  }

  /** An impulse behind the end of the sequence shows in its middle block. */
  lemma MiddleReadsPastEnd(dim: nat, hfl: nat)
    requires dim > 0 && !Aligned(dim, hfl)
    ensures exists table: seq<real>, s: seq<real>, j: nat ::
              |table| == PHASES * (2 * hfl + 1) && |s| == Blocks(dim, hfl) && j < PHASES
              && !Centred(table, s, dim, hfl, HalfLength(dim, hfl), j)
  {
    var h, fl := HalfLength(dim, hfl), FilterLength(dim, hfl);
    var table := seq(PHASES * (2 * hfl + 1), i => if i == hfl - h then 1.0 else 0.0);
    var s := seq(dim + 1, i => if i == dim then 1.0 else 0.0);
    var f := Phase(table, dim, hfl, 0);
    assert f[0] == 1.0;
    OneTap(f, s[..dim + 1], dim, fl, 0);
    OneTap(f, s[..dim], dim, fl, 0);
    assert !Centred(table, s, dim, hfl, h, 0);
  }

  /** An impulse in front of sample b shows the shift: the block answers for the sample before its own. */
  lemma Misaligned(dim: nat, hfl: nat, b: nat)
    requires dim > 0 && HalfLength(dim, hfl) < b < dim && !Aligned(dim, hfl)
    ensures exists table: seq<real>, s: seq<real>, j: nat ::
              |table| == PHASES * (2 * hfl + 1) && |s| == Blocks(dim, hfl) && j < PHASES && s[dim] == 0.0
              && !Centred(table, s, dim, hfl, b, j)
  {
    var h, fl := HalfLength(dim, hfl), FilterLength(dim, hfl);
    var table := seq(PHASES * (2 * hfl + 1), i => if i == hfl then 1.0 else 0.0);
    var s := seq(dim + 1, i => if i == b then 1.0 else 0.0);
    var f := Phase(table, dim, hfl, 0);
    assert f[h] == 1.0;
    OneTap(f, s[..dim], b + h, fl, h);
    OneTap(f, s[..dim], b - 1 + h, fl, h);
    assert BlockValue(table, s, dim, hfl, b, 0) == 0.0;
    assert Convolve(f, s[..dim], b + h, fl) == 1.0;
    assert s[dim] == 0.0 && !Centred(table, s, dim, hfl, b, 0);
  }

  /** A zero behind the end is not seen. */
  lemma {:induction false} ConvolveZeroEnd(f: seq<real>, s: seq<real>, dim: nat, p: int, n: nat)
    requires n <= |f| && dim < |s| && s[dim] == 0.0
    ensures Convolve(f, s[..dim + 1], p, n) == Convolve(f, s[..dim], p, n)
  {
    if n > 0 {
      ConvolveZeroEnd(f, s, dim, p, n - 1);
      assert At(s[..dim + 1], p - (n - 1)) == At(s[..dim], p - (n - 1));
    }
  }

  /** Sample that block b of a short even length answers for when a zero lies behind the end. */
  function Answered(dim: nat, hfl: nat, b: nat): nat {
    if Aligned(dim, hfl) || b <= HalfLength(dim, hfl) then b else b - 1
  }

  /** With a zero behind the end every block is a centred one: the blocks behind the middle repeat their
      predecessors. */
  lemma AnswersBehindZero(table: seq<real>, s: seq<real>, dim: nat, hfl: nat, b: nat, j: nat)
    requires |table| == PHASES * (2 * hfl + 1) && j < PHASES && b < dim && Blocks(dim, hfl) <= |s|
    requires Aligned(dim, hfl) || s[dim] == 0.0
    ensures BlockValue(table, s, dim, hfl, b, j)
            == Convolve(Phase(table, dim, hfl, j), s[..dim], Answered(dim, hfl, b) + HalfLength(dim, hfl),
                        FilterLength(dim, hfl))
  {
    if !Aligned(dim, hfl) && b <= HalfLength(dim, hfl) {
      ConvolveZeroEnd(Phase(table, dim, hfl, j), s, dim, b + HalfLength(dim, hfl), FilterLength(dim, hfl));
    }
  }

  /** With a zero behind the end, as in its only use, a block is centred for all contents exactly when the length is odd
      or at least the filter's, or the block does not come after the middle. */
  lemma AlignedExactlyBehindZero(dim: nat, hfl: nat, b: nat)
    requires b < dim
    ensures Aligned(dim, hfl) || b <= HalfLength(dim, hfl) <==>
            forall table: seq<real>, s: seq<real>, j: nat |
              |table| == PHASES * (2 * hfl + 1) && |s| == Blocks(dim, hfl) && j < PHASES
              && (Aligned(dim, hfl) || s[dim] == 0.0) :: Centred(table, s, dim, hfl, b, j)
  {
    if Aligned(dim, hfl) || b <= HalfLength(dim, hfl) {
      forall table: seq<real>, s: seq<real>, j: nat |
        |table| == PHASES * (2 * hfl + 1) && |s| == Blocks(dim, hfl) && j < PHASES
        && (Aligned(dim, hfl) || s[dim] == 0.0)
        ensures Centred(table, s, dim, hfl, b, j)
      {
        AnswersBehindZero(table, s, dim, hfl, b, j);
      }
    } else {
      Misaligned(dim, hfl, b);
    }
  }

  lemma {:induction false} OneTap(f: seq<real>, s: seq<real>, p: int, n: nat, h: nat)
    requires h < |f| && n <= |f|
    requires forall i | 0 <= i < |f| :: f[i] == if i == h then 1.0 else 0.0
    ensures Convolve(f, s, p, n) == if n > h then At(s, p - h) else 0.0
  {
    if n > 0 {
      OneTap(f, s, p, n - 1, h);
    }
  }

  /** The other way round: one sample picks one tap. */
  lemma {:induction false} OneSample(f: seq<real>, s: seq<real>, at: nat, p: nat, n: nat)
    requires at < |s| && n <= |f|
    requires forall i | 0 <= i < |s| :: s[i] == if i == at then 1.0 else 0.0
    ensures Convolve(f, s, p, n) == if at <= p < at + n then f[p - at] else 0.0
  {
    if n > 0 {
      OneSample(f, s, at, p, n - 1);
    }
  }

  // ---- Decimation by two ----

  const TAPS: nat := 7

  /** The input preceded by six samples of history and followed by zeros. */
  function Extended(state: seq<real>, s: seq<real>, i: int): real
    requires |state| == 6 && i >= -6
  {
    if i < 0 then state[6 + i] else if i < |s| then s[i] else 0.0
  }

  function LowPass(coef: seq<real>, state: seq<real>, s: seq<real>, p: nat, n: nat): real
    requires |coef| == TAPS && |state| == 6 && n <= TAPS
  {
    if n == 0 then 0.0 else LowPass(coef, state, s, p, n - 1) + coef[n - 1] * Extended(state, s, p - (n - 1))
  }

  /** The seven taps at one output position, the latest of which may reach into the history. */
  method LowPassSample(coef: seq<real>, state: seq<real>, s: seq<real>, i: nat) returns (o: real)
    requires |coef| == TAPS && |state| == 6 && i < |s|
    ensures o == LowPass(coef, state, s, i, TAPS)
  {
    o := 0.0;
    var stop := if i < 7 then i + 1 else 7;
    var j := 0;
    while j < stop
      invariant 0 <= j <= stop
      invariant o == LowPass(coef, state, s, i, j)
    {
      o := o + coef[j] * s[i - j];
      j := j + 1;
    }
    j := i + 1;
    while j < 7
      invariant i + 1 <= j && (j <= 7 || j == i + 1)
      invariant o == LowPass(coef, state, s, i, if j <= 7 then j else 7)
    {
      o := o + coef[j] * state[5 - (j - i - 1)];
      j := j + 1;
    }
  }

  /** The last output, two samples past the end, where only zero extension is possible. */
  method TailSample(coef: seq<real>, state: seq<real>, s: seq<real>) returns (o: real)
    requires |coef| == TAPS && |state| == 6 && |s| >= 5
    ensures o == LowPass(coef, state, s, |s| + 1, TAPS)
  {
    o := 0.0;
    assert LowPass(coef, state, s, |s| + 1, 1) == 0.0;
    assert LowPass(coef, state, s, |s| + 1, 2) == 0.0;
    for j := 0 to 5
      invariant o == LowPass(coef, state, s, |s| + 1, j + 2)
    {
      o := o + coef[2 + j] * s[|s| - 1 - j];
    }
  }

  function Decimated(coef: seq<real>, state: seq<real>, s: seq<real>, t: nat): real
    requires |coef| == TAPS && |state| == 6
  {
    LowPass(coef, state, s, 3 + 2 * t, TAPS)
  }

  /** downSample: for an even length, every second sample of the low-pass output with a delay of three, the
      history on the left and zeros on the right. (For an odd length the last output skips one position.) */
  method DownSample(s: seq<real>, coef: seq<real>, state: seq<real>, out: array<real>)
    requires |coef| == TAPS && |state| == 6 && |s| >= 5
    requires |s| / 2 <= out.Length
    modifies out
    ensures forall t: nat | t < |s| / 2 - 1 :: out[t] == Decimated(coef, state, s, t)
    ensures |s| % 2 == 0 ==> out[|s| / 2 - 1] == Decimated(coef, state, s, |s| / 2 - 1)
    ensures |s| % 2 == 1 ==> out[|s| / 2 - 1] == LowPass(coef, state, s, |s| + 1, TAPS)
    ensures forall i | |s| / 2 <= i < out.Length :: out[i] == old(out[i])
  {
    var i, o := 3, 0;
    while i < |s|
      invariant i == 3 + 2 * o && i <= |s| + 1
      invariant forall t: nat | t < o :: out[t] == Decimated(coef, state, s, t)
      invariant forall k | o <= k < out.Length :: out[k] == old(out[k])
    {
      out[o] := LowPassSample(coef, state, s, i);
      o, i := o + 1, i + 2;
    }
    out[o] := TailSample(coef, state, s);
  }
}
