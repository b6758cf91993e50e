/** The choice of the two subframes that hold the start state. */
module FrameClassify {
  import opened Basics
  import opened FrameFormat

  const TAPER: seq<real> := [0.16666667, 0.33333334, 0.5, 0.6666667, 0.8333333]
  const WINDOW: seq<real> := [0.8, 0.9, 1.0, 0.9, 0.8]

  /** One weighted square. */
  function Square(weight: real, x: real): real {
    weight * x * x
  }

  /** The taper of a subframe's first five samples, or of its last five. */
  function Weight(front: bool, l: nat): real
    requires l < SUBFRAME
  {
    if front then (if l < 5 then TAPER[l] else 1.0)
    else (if l < 35 then 1.0 else TAPER[39 - l])
  }

  /** The tapered energy of the first n samples of a subframe. */
  function Tapered(s: seq<real>, front: bool, n: nat): real
    requires |s| == SUBFRAME && n <= SUBFRAME
  {
    if n == 0 then 0.0 else Tapered(s, front, n - 1) + Square(Weight(front, n - 1), s[n - 1])
  }

  function Subframe(residual: seq<real>, n: nat): (s: seq<real>)
    requires SUBFRAME * (n + 1) <= |residual|
    ensures |s| == SUBFRAME
  {
    residual[SUBFRAME * n..SUBFRAME * n + SUBFRAME]
  }

  /** The windowed energy of the pair of subframes n - 1 and n, tapered at the pair's ends. */
  function PairEnergy(mode: Mode, residual: seq<real>, n: nat): real
    requires |residual| >= mode.FrameSamples() && 1 <= n < mode.Subframes()
  {
    (Tapered(Subframe(residual, n - 1), true, SUBFRAME) + Tapered(Subframe(residual, n), false, SUBFRAME))
    * WINDOW[n - 1 + (if mode.Mode20? then 1 else 0)]
  }

  /** The first pair with the greatest windowed energy, which is a start index that the decoder accepts. */
  predicate IsStart(mode: Mode, residual: seq<real>, start: nat)
    requires |residual| >= mode.FrameSamples()
  {
    && EncoderStart(mode, start)
    && (forall n: nat | 1 <= n < mode.Subframes() :: PairEnergy(mode, residual, n) <= PairEnergy(mode, residual, start))
    && (forall n: nat | 1 <= n < start :: PairEnergy(mode, residual, n) < PairEnergy(mode, residual, start))
  }

  lemma PlainSquare(x: real)
    ensures Square(1.0, x) == x * x
  {
  }

  /** The loops over one subframe: both energies, tapered at the front and at the back. */
  method SubframeEnergies(s: seq<real>) returns (front: real, back: real)
    requires |s| == SUBFRAME
    ensures front == Tapered(s, true, SUBFRAME) && back == Tapered(s, false, SUBFRAME)
  {
    front, back := 0.0, 0.0;
    for l := 0 to 5
      invariant front == Tapered(s, true, l) && back == Tapered(s, false, l)
    {
      PlainSquare(s[l]);
      front := front + Square(TAPER[l], s[l]);
      back := back + s[l] * s[l];
    }
    for l := 5 to 35
      invariant front == Tapered(s, true, l) && back == Tapered(s, false, l)
    {
      PlainSquare(s[l]);
      front := front + s[l] * s[l];
      back := back + s[l] * s[l];
    }
    for l := 35 to 40
      invariant front == Tapered(s, true, l) && back == Tapered(s, false, l)
    {
      PlainSquare(s[l]);
      front := front + s[l] * s[l];
      back := back + Square(TAPER[40 - l - 1], s[l]);
    }
  }

  /** frameClassify. */
  method Classify(mode: Mode, residual: seq<real>) returns (start: nat)
    requires |residual| >= mode.FrameSamples()
    ensures IsStart(mode, residual, start)
  {
    var fssqEn, bssqEn := new real[6](i => 0.0), new real[6](i => 0.0);
    for n := 0 to mode.Subframes()
      invariant forall i: nat | i < n && i < mode.Subframes() - 1 ::
                  fssqEn[i] == Tapered(Subframe(residual, i), true, SUBFRAME)
      invariant forall i: nat | 1 <= i < n :: bssqEn[i] == Tapered(Subframe(residual, i), false, SUBFRAME)
    {
      var f, b := SubframeEnergies(Subframe(residual, n));
      if n < mode.Subframes() - 1 {
        fssqEn[n] := f;
      }
      if n > 0 {
        bssqEn[n] := b;
      }
    }
    start := ArgMax(mode, residual, fssqEn, bssqEn);
  }

  method ArgMax(mode: Mode, residual: seq<real>, fssqEn: array<real>, bssqEn: array<real>) returns (start: nat)
    requires |residual| >= mode.FrameSamples() && fssqEn.Length == bssqEn.Length == 6
    requires forall i: nat | i < mode.Subframes() - 1 :: fssqEn[i] == Tapered(Subframe(residual, i), true, SUBFRAME)
    requires forall i: nat | 1 <= i < mode.Subframes() :: bssqEn[i] == Tapered(Subframe(residual, i), false, SUBFRAME)
    ensures IsStart(mode, residual, start)
  {
    var l: nat := if mode.Mode20? then 1 else 0;
    var maxSsqEn := (fssqEn[0] + bssqEn[1]) * WINDOW[l];
    start := 1;
    for n := 2 to mode.Subframes()
      invariant l == n - 2 + (if mode.Mode20? then 1 else 0)
      invariant 1 <= start < n && maxSsqEn == PairEnergy(mode, residual, start)
      invariant forall i: nat | 1 <= i < n :: PairEnergy(mode, residual, i) <= maxSsqEn
      invariant forall i: nat | 1 <= i < start :: PairEnergy(mode, residual, i) < maxSsqEn
    {
      l := l + 1;
      var pair := (fssqEn[n - 1] + bssqEn[n]) * WINDOW[l];
      assert pair == PairEnergy(mode, residual, n);
      if pair > maxSsqEn {
        maxSsqEn, start := pair, n;
      }
    }
  }
}
