/** The two frame layouts of section 3.8 of RFC 3951: which fields a frame has,
    how wide their pieces are, and when a frame counts as lost. */
module FrameFormat {
  import opened Basics
  import opened Bits
  import opened Packing
  import opened Bitstream

  datatype Mode = Mode20 | Mode30 {
    function Subframes(): nat { if Mode20? then 4 else 6 }
    function FrameSamples(): nat { if Mode20? then 160 else 240 }
    function FrameBytes(): nat { if Mode20? then 38 else 50 }
    function Analyses(): nat { if Mode20? then 1 else 2 }
    function AdaptiveSubframes(): nat { if Mode20? then 2 else 4 }
    function StateSamples(): nat { if Mode20? then 57 else 58 }
    /** The bytes at which the three importance classes end. */
    function ClassEnd(c: nat): nat
      requires c < CLASSES
    {
      if Mode20? then [6, 14, 38][c] else [8, 20, 50][c]
    }
  }

  /** The fields of a frame, in the order in which they are packed. */
  datatype Fields = Fields(
    lsf: seq<nat>, start: nat, stateFirst: nat, scale: nat, state: seq<nat>,
    extraCb: seq<nat>, extraGain: seq<nat>, cb: seq<nat>, gain: seq<nat>)

  // ---- The bit allocation tables ----

  function W(a: nat, b: nat, c: nat): Widths {
    [a, b, c, 0, 0]
  }

  /** Three table rows, one for each stage or split. */
  datatype Triple = Triple(a: Widths, b: Widths, c: Widths)

  function Rows(triples: seq<Triple>): (ws: seq<Widths>)
    ensures |ws| == 3 * |triples|
  {
    if triples == [] then [] else [triples[0].a, triples[0].b, triples[0].c] + Rows(triples[1..])
  }

  function Repeat(w: Widths, n: nat): (ws: seq<Widths>)
    ensures |ws| == n
  {
    if n == 0 then [] else [w] + Repeat(w, n - 1)
  }

  function LsfRows(mode: Mode): (t: seq<Triple>)
    ensures |t| == mode.Analyses()
  {
    var one := Triple(W(6, 0, 0), W(7, 0, 0), W(7, 0, 0));
    if mode.Mode20? then [one] else [one, one]
  }

  function StartRows(mode: Mode): Triple {
    Triple(W(if mode.Mode20? then 2 else 3, 0, 0), W(1, 0, 0), W(6, 0, 0))
  }

  const STATE_ROW: Widths := [0, 1, 2, 0, 0]

  function ExtraCbRows(mode: Mode): Triple {
    Triple(if mode.Mode20? then W(6, 0, 1) else W(4, 2, 1), W(0, 0, 7), W(0, 0, 7))
  }

  function ExtraGainRows(mode: Mode): Triple {
    Triple(if mode.Mode20? then W(2, 0, 3) else W(1, 1, 3), W(1, 1, 2), W(0, 0, 3))
  }

  function CbRows(mode: Mode): (t: seq<Triple>)
    ensures |t| == mode.AdaptiveSubframes()
  {
    if mode.Mode20? then
      [Triple(W(7, 0, 1), W(0, 0, 7), W(0, 0, 7)), Triple(W(0, 0, 8), W(0, 0, 8), W(0, 0, 8))]
    else
      var later := Triple(W(0, 7, 1), W(0, 0, 8), W(0, 0, 8));
      [Triple(W(6, 1, 1), W(0, 0, 7), W(0, 0, 7)), later, later, later]
  }

  function GainRows(mode: Mode): (t: seq<Triple>)
    ensures |t| == mode.AdaptiveSubframes()
  {
    if mode.Mode20? then
      [Triple(W(1, 2, 2), W(1, 1, 2), W(0, 0, 3)), Triple(W(1, 1, 3), W(0, 2, 2), W(0, 0, 3))]
    else
      var late := Triple(W(0, 1, 4), W(0, 1, 3), W(0, 0, 3));
      [Triple(W(1, 2, 2), W(1, 2, 1), W(0, 0, 3)), Triple(W(0, 2, 3), W(0, 2, 2), W(0, 0, 3)), late, late]
  }

  /** All fields' rows in packing order. */
  function Layout(mode: Mode): (ws: seq<Widths>)
    ensures |ws| == FieldCount(mode)
  {
    Rows(LsfRows(mode)) + Rows([StartRows(mode)]) + Repeat(STATE_ROW, mode.StateSamples())
    + Rows([ExtraCbRows(mode)]) + Rows([ExtraGainRows(mode)]) + Rows(CbRows(mode)) + Rows(GainRows(mode))
  }

  function FieldCount(mode: Mode): nat {
    3 * mode.Analyses() + 3 + mode.StateSamples() + 6 + 6 * mode.AdaptiveSubframes()
  }

  predicate HasShape(mode: Mode, f: Fields) {
    && |f.lsf| == 3 * mode.Analyses() && |f.state| == mode.StateSamples()
    && |f.extraCb| == 3 && |f.extraGain| == 3
    && |f.cb| == 3 * mode.AdaptiveSubframes() && |f.gain| == 3 * mode.AdaptiveSubframes()
  }

  function Flatten(f: Fields): seq<nat> {
    f.lsf + [f.start, f.stateFirst, f.scale] + f.state + f.extraCb + f.extraGain + f.cb + f.gain
  }

  function Rebuild(mode: Mode, vs: seq<nat>): (f: Fields)
    requires |vs| == FieldCount(mode)
    ensures HasShape(mode, f)
  {
    var a := 3 * mode.Analyses();
    var b := a + 3 + mode.StateSamples();
    var c := b + 6 + 3 * mode.AdaptiveSubframes();
    Fields(vs[..a], vs[a], vs[a + 1], vs[a + 2], vs[a + 3..b], vs[b..b + 3], vs[b + 3..b + 6], vs[b + 6..c], vs[c..])
  }

  lemma FlattenRebuild(mode: Mode, vs: seq<nat>)
    requires |vs| == FieldCount(mode)
    ensures Flatten(Rebuild(mode, vs)) == vs
  {
  }

  lemma RebuildFlatten(mode: Mode, f: Fields)
    requires HasShape(mode, f)
    ensures |Flatten(f)| == FieldCount(mode) && Rebuild(mode, Flatten(f)) == f
  {
  }

  // ---- The classes fill the bytes ----

  function ClassSum(ws: seq<Widths>, c: nat): nat
    requires c < CLASSES
  {
    if ws == [] then 0 else ws[0][c] + ClassSum(ws[1..], c)
  }

  lemma {:induction false} ClassSumAppend(a: seq<Widths>, b: seq<Widths>, c: nat)
    requires c < CLASSES
    ensures ClassSum(a + b, c) == ClassSum(a, c) + ClassSum(b, c)
  {
    if a == [] {
      assert a + b == b;
    } else {
      assert (a + b)[1..] == a[1..] + b;
      ClassSumAppend(a[1..], b, c);
    }
  }

  lemma {:induction false} ClassSumRepeat(w: Widths, n: nat, c: nat)
    requires c < CLASSES
    ensures ClassSum(Repeat(w, n), c) == n * w[c]
  {
    if n > 0 {
      ClassSumRepeat(w, n - 1, c);
      assert Repeat(w, n)[1..] == Repeat(w, n - 1);
    }
  }

  function TripleSum(t: Triple, c: nat): nat
    requires c < CLASSES
  {
    t.a[c] + t.b[c] + t.c[c]
  }

  lemma ClassSumThree(t: Triple, c: nat)
    requires c < CLASSES
    ensures ClassSum([t.a, t.b, t.c], c) == TripleSum(t, c)
  {
    assert [t.a, t.b, t.c][1..] == [t.b, t.c];
    assert [t.b, t.c][1..] == [t.c];
    assert ClassSum([t.b, t.c], c) == t.b[c] + ClassSum([t.c], c);
    assert ClassSum([t.c], c) == t.c[c] + ClassSum([], c);
  }

  lemma {:induction false} ClassSumRows(ts: seq<Triple>, c: nat)
    requires c < CLASSES && ts != []
    ensures ClassSum(Rows(ts), c) == TripleSum(ts[0], c) + ClassSum(Rows(ts[1..]), c)
  {
    ClassSumAppend([ts[0].a, ts[0].b, ts[0].c], Rows(ts[1..]), c);
    ClassSumThree(ts[0], c);
  }

  lemma RowsOfOne(t: Triple, c: nat)
    requires c < CLASSES
    ensures ClassSum(Rows([t]), c) == TripleSum(t, c)
  {
    ClassSumRows([t], c);
    assert [t][1..] == [];
  }

  lemma RowsOfTwo(t: Triple, u: Triple, c: nat)
    requires c < CLASSES
    ensures ClassSum(Rows([t, u]), c) == TripleSum(t, c) + TripleSum(u, c)
  {
    ClassSumRows([t, u], c);
    RowsOfOne(u, c);
    assert [t, u][1..] == [u];
  }

  lemma RowsOfFour(t: Triple, u: Triple, v: Triple, w: Triple, c: nat)
    requires c < CLASSES
    ensures ClassSum(Rows([t, u, v, w]), c) == TripleSum(t, c) + TripleSum(u, c) + TripleSum(v, c) + TripleSum(w, c)
  {
    ClassSumRows([t, u, v, w], c);
    ClassSumRows([u, v, w], c);
    RowsOfTwo(v, w, c);
    assert [t, u, v, w][1..] == [u, v, w] && [u, v, w][1..] == [v, w];
  }

  function PartSum(ts: seq<Triple>, c: nat): nat
    requires c < CLASSES
  {
    ClassSum(Rows(ts), c)
  }

  lemma LayoutSum(mode: Mode, c: nat)
    requires c < CLASSES
    ensures ClassSum(Layout(mode), c)
            == PartSum(LsfRows(mode), c) + PartSum([StartRows(mode)], c)
               + ClassSum(Repeat(STATE_ROW, mode.StateSamples()), c)
               + PartSum([ExtraCbRows(mode)], c) + PartSum([ExtraGainRows(mode)], c)
               + PartSum(CbRows(mode), c) + PartSum(GainRows(mode), c)
  {
    var a, b, s := Rows(LsfRows(mode)), Rows([StartRows(mode)]), Repeat(STATE_ROW, mode.StateSamples());
    var x, y := Rows([ExtraCbRows(mode)]), Rows([ExtraGainRows(mode)]);
    var d, g := Rows(CbRows(mode)), Rows(GainRows(mode));
    ClassSumAppend(a, b, c);
    ClassSumAppend(a + b, s, c);
    ClassSumAppend(a + b + s, x, c);
    ClassSumAppend(a + b + s + x, y, c);
    ClassSumAppend(a + b + s + x + y, d, c);
    ClassSumAppend(a + b + s + x + y + d, g, c);
  }

  lemma LsfSum(mode: Mode, c: nat)
    requires c < CLASSES
    ensures PartSum(LsfRows(mode), c) == if c == 0 then 20 * mode.Analyses() else 0
  {
    var t := LsfRows(mode);
    if mode.Mode20? { RowsOfOne(t[0], c); } else { RowsOfTwo(t[0], t[1], c); }
  }

  lemma StartSum(mode: Mode, c: nat)
    requires c < CLASSES
    ensures PartSum([StartRows(mode)], c) == if c > 0 then 0 else if mode.Mode20? then 9 else 10
  {
    RowsOfOne(StartRows(mode), c);
  }

  lemma StateSum(mode: Mode, c: nat)
    requires c < CLASSES
    ensures ClassSum(Repeat(STATE_ROW, mode.StateSamples()), c)
            == if mode.Mode20? then [0, 57, 114][c] else [0, 58, 116][c]
  {
    ClassSumRepeat(STATE_ROW, mode.StateSamples(), c);
    if mode.Mode20? {
      assert 57 * STATE_ROW[c] == [0, 57, 114][c];
    } else {
      assert 58 * STATE_ROW[c] == [0, 58, 116][c];
    }
  }

  lemma ExtraSum(mode: Mode, c: nat)
    requires c < CLASSES
    ensures PartSum([ExtraCbRows(mode)], c) + PartSum([ExtraGainRows(mode)], c)
            == if mode.Mode20? then [9, 1, 23][c] else [6, 4, 23][c]
  {
    RowsOfOne(ExtraCbRows(mode), c);
    RowsOfOne(ExtraGainRows(mode), c);
  }

  lemma CbSum(mode: Mode, c: nat)
    requires c < CLASSES
    ensures PartSum(CbRows(mode), c) == if mode.Mode20? then [7, 0, 39][c] else [6, 22, 66][c]
  {
    var t := CbRows(mode);
    if mode.Mode20? { RowsOfTwo(t[0], t[1], c); } else { RowsOfFour(t[0], t[1], t[2], t[3], c); }
  }

  lemma GainSum(mode: Mode, c: nat)
    requires c < CLASSES
    ensures PartSum(GainRows(mode), c) == if mode.Mode20? then [3, 6, 15][c] else [2, 12, 34][c]
  {
    var t := GainRows(mode);
    if mode.Mode20? { RowsOfTwo(t[0], t[1], c); } else { RowsOfFour(t[0], t[1], t[2], t[3], c); }
  }

  /** The bits of each class. */
  function ClassSize(mode: Mode, c: nat): nat
    requires c < CLASSES
  {
    if mode.Mode20? then [48, 64, 191][c] else [64, 96, 239][c]
  }

  lemma LayoutFillsClass(mode: Mode, c: nat)
    requires c < CLASSES
    ensures ClassSum(Layout(mode), c) == ClassSize(mode, c)
  {
    hide ClassSum, PartSum, Layout, LsfRows, StartRows, Repeat, ExtraCbRows, ExtraGainRows, CbRows, GainRows;
    LayoutSum(mode, c);
    LsfSum(mode, c);
    StartSum(mode, c);
    StateSum(mode, c);
    ExtraSum(mode, c);
    CbSum(mode, c);
    GainSum(mode, c);
  }

  lemma {:induction false} WidthIsSum(ws: seq<Widths>, c: nat, k: nat)
    requires c < CLASSES && k <= |ws|
    ensures Width(ws, c, k) == ClassSum(ws[k..], c) + Width(ws, c + 1, 0)
    decreases |ws| - k
  {
    if k < |ws| {
      WidthIsSum(ws, c, k + 1);
      assert ws[k..][1..] == ws[k + 1..];
    }
  }

  lemma WidthIsSums(ws: seq<Widths>)
    ensures Width(ws, 3, 0) == 0 && Width(ws, 2, 0) == ClassSum(ws, 2)
    ensures Width(ws, 1, 0) == ClassSum(ws, 1) + ClassSum(ws, 2)
    ensures Width(ws, 0, 0) == ClassSum(ws, 0) + ClassSum(ws, 1) + ClassSum(ws, 2)
  {
    assert ws[0..] == ws;
    WidthIsSum(ws, 0, 0);
    WidthIsSum(ws, 1, 0);
    WidthIsSum(ws, 2, 0);
  }

  /** The three classes end exactly at bytes 6, 14 and 38, or 8, 20 and 50; the last one includes the clear bit. */
  lemma ClassesEndAtBytes(mode: Mode)
    ensures Width(Layout(mode), 0, 0) + 1 == 8 * mode.FrameBytes()
    ensures forall c: nat | c < CLASSES ::
              Width(Layout(mode), 0, 0) - Width(Layout(mode), c + 1, 0) + (if c == 2 then 1 else 0)
                == 8 * mode.ClassEnd(c)
  {
    hide ClassSum, Layout;
    WidthIsSums(Layout(mode));
    LayoutFillsClass(mode, 0);
    LayoutFillsClass(mode, 1);
    LayoutFillsClass(mode, 2);
  }

  // ---- The ranges of the fields ----

  predicate Below(vs: seq<nat>, bound: nat) {
    forall i | 0 <= i < |vs| :: vs[i] < bound
  }

  predicate TripleBelow(vs: seq<nat>, i: nat, x: nat, y: nat, z: nat)
    requires 3 * i + 3 <= |vs|
  {
    vs[3 * i] < x && vs[3 * i + 1] < y && vs[3 * i + 2] < z
  }

  /** Only the first adaptive subframe has narrower second and third stage indices. */
  function CbBound(i: nat): nat {
    if i == 0 then 128 else 256
  }

  predicate LsfFits(mode: Mode, vs: seq<nat>)
    requires |vs| == 3 * mode.Analyses()
  {
    forall i: nat | i < mode.Analyses() :: TripleBelow(vs, i, 64, 128, 128)
  }

  predicate CbFits(mode: Mode, vs: seq<nat>)
    requires |vs| == 3 * mode.AdaptiveSubframes()
  {
    forall i: nat | i < mode.AdaptiveSubframes() :: TripleBelow(vs, i, 256, CbBound(i), CbBound(i))
  }

  predicate GainFits(mode: Mode, vs: seq<nat>)
    requires |vs| == 3 * mode.AdaptiveSubframes()
  {
    forall i: nat | i < mode.AdaptiveSubframes() :: TripleBelow(vs, i, 32, 16, 8)
  }

  /** Fields that their widths can represent. */
  predicate InFormat(mode: Mode, f: Fields) {
    && HasShape(mode, f)
    && LsfFits(mode, f.lsf)
    && f.start < (if mode.Mode20? then 4 else 8) && f.stateFirst < 2 && f.scale < 64
    && Below(f.state, 8)
    && TripleBelow(f.extraCb, 0, 128, 128, 128) && TripleBelow(f.extraGain, 0, 32, 16, 8)
    && CbFits(mode, f.cb)
    && GainFits(mode, f.gain)
  }

  lemma {:induction false} RowsAt(ts: seq<Triple>, i: nat)
    requires i < |ts|
    ensures Rows(ts)[3 * i] == ts[i].a && Rows(ts)[3 * i + 1] == ts[i].b && Rows(ts)[3 * i + 2] == ts[i].c
  {
    if i > 0 {
      RowsAt(ts[1..], i - 1);
    }
  }

  lemma {:induction false} RepeatAt(w: Widths, n: nat, i: nat)
    requires i < n
    ensures Repeat(w, n)[i] == w
  {
    if i > 0 {
      RepeatAt(w, n - 1, i - 1);
    }
  }

  lemma Powers()
    ensures Pow2(1) == 2 && Pow2(2) == 4 && Pow2(3) == 8 && Pow2(4) == 16 && Pow2(5) == 32 && Pow2(6) == 64
    ensures Pow2(7) == 128 && Pow2(8) == 256
  {
  }

  /** The number of values of a field of given widths. */
  function Limit(w: Widths): nat {
    Pow2(Total(w))
  }

  lemma LimitIs(w: Widths)
    requires 1 <= Total(w) <= 8
    ensures Limit(w) == [1, 2, 4, 8, 16, 32, 64, 128, 256][Total(w)]
  {
    Powers();
  }

  lemma TripleLimits(t: Triple)
    requires 1 <= Total(t.a) <= 8 && 1 <= Total(t.b) <= 8 && 1 <= Total(t.c) <= 8
    ensures Limit(t.a) == [1, 2, 4, 8, 16, 32, 64, 128, 256][Total(t.a)]
    ensures Limit(t.b) == [1, 2, 4, 8, 16, 32, 64, 128, 256][Total(t.b)]
    ensures Limit(t.c) == [1, 2, 4, 8, 16, 32, 64, 128, 256][Total(t.c)]
  {
    LimitIs(t.a);
    LimitIs(t.b);
    LimitIs(t.c);
  }

  predicate TripleInRange(t: Triple, vs: seq<nat>, i: nat)
    requires 3 * i + 3 <= |vs|
  {
    TripleBelow(vs, i, Limit(t.a), Limit(t.b), Limit(t.c))
  }

  predicate HasLimits(t: Triple, x: nat, y: nat, z: nat) {
    Limit(t.a) == x && Limit(t.b) == y && Limit(t.c) == z
  }

  /** Row k of the flattened table belongs to triple k / 3. */
  lemma RowLimit(ts: seq<Triple>, vs: seq<nat>, i: nat)
    requires |vs| == 3 * |ts| && i < |ts|
    ensures TripleInRange(ts[i], vs, i) <==>
              vs[3 * i] < Limit(Rows(ts)[3 * i]) && vs[3 * i + 1] < Limit(Rows(ts)[3 * i + 1])
              && vs[3 * i + 2] < Limit(Rows(ts)[3 * i + 2])
  {
    RowsAt(ts, i);
  }

  lemma TriplesInRange(ts: seq<Triple>, vs: seq<nat>)
    requires |vs| == 3 * |ts|
    ensures InRange(Rows(ts), vs) <==> forall i: nat | i < |ts| :: TripleInRange(ts[i], vs, i)
  {
    if InRange(Rows(ts), vs) {
      forall i: nat | i < |ts|
        ensures TripleInRange(ts[i], vs, i)
      {
        RowLimit(ts, vs, i);
      }
    } else {
      var k :| 0 <= k < |vs| && vs[k] >= Pow2(Total(Rows(ts)[k]));
      var i: nat := k / 3;
      RowLimit(ts, vs, i);
      hide Rows, TripleInRange, Total;
      assert k == 3 * i || k == 3 * i + 1 || k == 3 * i + 2;
      assert !TripleInRange(ts[i], vs, i);
    }
  }

  lemma StateLimit()
    ensures Pow2(Total(STATE_ROW)) == 8
  {
    LimitIs(STATE_ROW);
  }

  lemma StatesInRange(vs: seq<nat>)
    ensures InRange(Repeat(STATE_ROW, |vs|), vs) <==> Below(vs, 8)
  {
    hide Pow2, Total, Repeat;
    StateLimit();
    var ws := Repeat(STATE_ROW, |vs|);
    forall i | 0 <= i < |vs|
      ensures ws[i] == STATE_ROW
    {
      RepeatAt(STATE_ROW, |vs|, i);
    }
    SameRows(ws, vs, STATE_ROW, 8);
  }

  lemma SameRows(ws: seq<Widths>, vs: seq<nat>, row: Widths, limit: nat)
    requires |ws| == |vs| && Pow2(Total(row)) == limit && forall i | 0 <= i < |ws| :: ws[i] == row
    ensures InRange(ws, vs) <==> Below(vs, limit)
  {
    hide Pow2, Total;
  }

  lemma InRangeAppend(a: seq<Widths>, b: seq<Widths>, x: seq<nat>, y: seq<nat>)
    requires |a| == |x| && |b| == |y|
    ensures InRange(a + b, x + y) <==> InRange(a, x) && InRange(b, y)
  {
    if InRange(a + b, x + y) {
      assert forall i | 0 <= i < |a| :: (a + b)[i] == a[i] && (x + y)[i] == x[i];
      assert forall i | 0 <= i < |b| :: (a + b)[|a| + i] == b[i] && (x + y)[|a| + i] == y[i];
    }
  }

  lemma LayoutInRange(mode: Mode, f: Fields)
    requires HasShape(mode, f)
    ensures InRange(Layout(mode), Flatten(f)) <==>
              && InRange(Rows(LsfRows(mode)), f.lsf)
              && InRange(Rows([StartRows(mode)]), [f.start, f.stateFirst, f.scale])
              && InRange(Repeat(STATE_ROW, mode.StateSamples()), f.state)
              && InRange(Rows([ExtraCbRows(mode)]), f.extraCb) && InRange(Rows([ExtraGainRows(mode)]), f.extraGain)
              && InRange(Rows(CbRows(mode)), f.cb) && InRange(Rows(GainRows(mode)), f.gain)
  {
    var a, b, s := Rows(LsfRows(mode)), Rows([StartRows(mode)]), Repeat(STATE_ROW, mode.StateSamples());
    var x, y := Rows([ExtraCbRows(mode)]), Rows([ExtraGainRows(mode)]);
    var d, g := Rows(CbRows(mode)), Rows(GainRows(mode));
    var v1 := f.lsf + [f.start, f.stateFirst, f.scale];
    var v2 := v1 + f.state;
    var v3 := v2 + f.extraCb;
    var v4 := v3 + f.extraGain;
    InRangeAppend(a, b, f.lsf, [f.start, f.stateFirst, f.scale]);
    InRangeAppend(a + b, s, v1, f.state);
    InRangeAppend(a + b + s, x, v2, f.extraCb);
    InRangeAppend(a + b + s + x, y, v3, f.extraGain);
    InRangeAppend(a + b + s + x + y, d, v4, f.cb);
    InRangeAppend(a + b + s + x + y + d, g, v4 + f.cb, f.gain);
  }

  /** Rows that all have the same limits. */
  lemma SameLimits(ts: seq<Triple>, vs: seq<nat>, x: nat, y: nat, z: nat)
    requires |vs| == 3 * |ts|
    requires forall i: nat | i < |ts| :: HasLimits(ts[i], x, y, z)
    ensures InRange(Rows(ts), vs) <==> forall i: nat | i < |ts| :: TripleBelow(vs, i, x, y, z)
  {
    TriplesInRange(ts, vs);
    assert forall i: nat | i < |ts| :: TripleInRange(ts[i], vs, i) <==> TripleBelow(vs, i, x, y, z);
  }

  lemma OneTriple(t: Triple, vs: seq<nat>, x: nat, y: nat, z: nat)
    requires |vs| == 3 && HasLimits(t, x, y, z)
    ensures InRange(Rows([t]), vs) <==> TripleBelow(vs, 0, x, y, z)
  {
    SameLimits([t], vs, x, y, z);
  }

  lemma LsfInRange(mode: Mode, vs: seq<nat>)
    requires |vs| == 3 * mode.Analyses()
    ensures InRange(Rows(LsfRows(mode)), vs) <==> LsfFits(mode, vs)
  {
    var ts := LsfRows(mode);
    forall i: nat | i < |ts|
      ensures HasLimits(ts[i], 64, 128, 128)
    {
      TripleLimits(ts[i]);
    }
    SameLimits(ts, vs, 64, 128, 128);
  }

  lemma StartInRange(mode: Mode, start: nat, stateFirst: nat, scale: nat)
    ensures InRange(Rows([StartRows(mode)]), [start, stateFirst, scale]) <==>
            start < (if mode.Mode20? then 4 else 8) && stateFirst < 2 && scale < 64
  {
    var t := StartRows(mode);
    TripleLimits(t);
    OneTriple(t, [start, stateFirst, scale], if mode.Mode20? then 4 else 8, 2, 64);
  }

  lemma ExtraInRange(mode: Mode, cb: seq<nat>, gain: seq<nat>)
    requires |cb| == |gain| == 3
    ensures InRange(Rows([ExtraCbRows(mode)]), cb) <==> TripleBelow(cb, 0, 128, 128, 128)
    ensures InRange(Rows([ExtraGainRows(mode)]), gain) <==> TripleBelow(gain, 0, 32, 16, 8)
  {
    hide Limit, Pow2;
    TripleLimits(ExtraCbRows(mode));
    TripleLimits(ExtraGainRows(mode));
    OneTriple(ExtraCbRows(mode), cb, 128, 128, 128);
    OneTriple(ExtraGainRows(mode), gain, 32, 16, 8);
  }

  lemma CbLimits(mode: Mode, i: nat)
    requires i < mode.AdaptiveSubframes()
    ensures HasLimits(CbRows(mode)[i], 256, CbBound(i), CbBound(i))
  {
    hide Limit, Pow2;
    TripleLimits(CbRows(mode)[i]);
    if mode.Mode20? {
      assert i == 0 || i == 1;
    } else {
      assert i == 0 || i == 1 || i == 2 || i == 3;
    }
  }

  lemma CbRowsFit(ts: seq<Triple>, vs: seq<nat>)
    requires |vs| == 3 * |ts|
    requires forall i: nat | i < |ts| :: HasLimits(ts[i], 256, CbBound(i), CbBound(i))
    ensures InRange(Rows(ts), vs) <==> forall i: nat | i < |ts| :: TripleBelow(vs, i, 256, CbBound(i), CbBound(i))
  {
    TriplesInRange(ts, vs);
    assert forall i: nat | i < |ts| :: TripleInRange(ts[i], vs, i) <==> TripleBelow(vs, i, 256, CbBound(i), CbBound(i));
  }

  lemma CbInRange(mode: Mode, vs: seq<nat>)
    requires |vs| == 3 * mode.AdaptiveSubframes()
    ensures InRange(Rows(CbRows(mode)), vs) <==> CbFits(mode, vs)
  {
    var ts := CbRows(mode);
    forall i: nat | i < |ts|
      ensures HasLimits(ts[i], 256, CbBound(i), CbBound(i))
    {
      CbLimits(mode, i);
    }
    CbRowsFit(ts, vs);
  }

  lemma GainLimits(mode: Mode, i: nat)
    requires i < mode.AdaptiveSubframes()
    ensures HasLimits(GainRows(mode)[i], 32, 16, 8)
  {
    hide Limit, Pow2;
    TripleLimits(GainRows(mode)[i]);
    if mode.Mode20? {
      assert i == 0 || i == 1;
    } else {
      assert i == 0 || i == 1 || i == 2 || i == 3;
    }
  }

  lemma GainInRange(mode: Mode, vs: seq<nat>)
    requires |vs| == 3 * mode.AdaptiveSubframes()
    ensures InRange(Rows(GainRows(mode)), vs) <==> GainFits(mode, vs)
  {
    var ts := GainRows(mode);
    forall i: nat | i < |ts|
      ensures HasLimits(ts[i], 32, 16, 8)
    {
      GainLimits(mode, i);
    }
    SameLimits(ts, vs, 32, 16, 8);
  }

  /** The ranges in numbers are exactly what the widths allow. */
  lemma InFormatIsInRange(mode: Mode, f: Fields)
    requires HasShape(mode, f)
    ensures InFormat(mode, f) <==> InRange(Layout(mode), Flatten(f))
  {
    LayoutInRange(mode, f);
    LsfInRange(mode, f.lsf);
    StartInRange(mode, f.start, f.stateFirst, f.scale);
    StatesInRange(f.state);
    ExtraInRange(mode, f.extraCb, f.extraGain);
    CbInRange(mode, f.cb);
    GainInRange(mode, f.gain);
  }

  // ---- Frames ----

  /** A byte string is the encoder's frame for some fields. */
  ghost predicate IsFrameOf(mode: Mode, bytes: seq<Byte>, f: Fields) {
    HasShape(mode, f) && |Flatten(f)| == FieldCount(mode) && Carries(bytes, Layout(mode), Flatten(f))
  }

  /** The fields and the last bit that the decoder sees in a byte string. */
  ghost function FieldsOf(mode: Mode, bytes: seq<Byte>): (f: Fields)
    requires |bytes| == mode.FrameBytes()
    ensures HasShape(mode, f)
  {
    ClassesEndAtBytes(mode);
    Rebuild(mode, Unpacked(Layout(mode), BytesToBits(bytes)))
  }

  ghost function LastBitOf(bytes: seq<Byte>): nat
    requires bytes != []
  {
    if BytesToBits(bytes)[8 * |bytes| - 1] then 1 else 0
  }

  /** The decoder's test for a frame it must conceal. */
  predicate Lost(mode: Mode, start: nat, lastBit: nat) {
    start < 1 || (mode.Mode30? && start > 5) || lastBit == 1
  }

  /** The packing loop of encodeFrame. */
  method PackFields(mode: Mode, f: Fields, buf: array<Byte>)
    requires InFormat(mode, f) && buf.Length == mode.FrameBytes()
    modifies buf
    ensures IsFrameOf(mode, buf[..], f)
  {
    InFormatIsInRange(mode, f);
    ClassesEndAtBytes(mode);
    RebuildFlatten(mode, f);
    PackFrame(buf, Layout(mode), Flatten(f));
  }

  /** The unpacking loop of decodeFrame, for arbitrary bytes. */
  method UnpackFields(mode: Mode, bytes: seq<Byte>) returns (f: Fields, lastBit: nat)
    requires |bytes| == mode.FrameBytes()
    ensures f == FieldsOf(mode, bytes) && lastBit == LastBitOf(bytes)
    ensures InFormat(mode, f)
  {
    ClassesEndAtBytes(mode);
    var vs;
    vs, lastBit := UnpackFrame(bytes, Layout(mode));
    f := Rebuild(mode, vs);
    RepackingReproduces(Layout(mode), bytes);
    FlattenRebuild(mode, vs);
    InFormatIsInRange(mode, f);
  }

  /** Frames and in-range fields correspond one to one: the fields come back from any frame that carries them, and
      every byte string with a clear last bit is the frame of the fields it unpacks to, and of no others. */
  lemma FramesAreFields(mode: Mode, bytes: seq<Byte>, f: Fields)
    requires |bytes| == mode.FrameBytes()
    ensures InFormat(mode, FieldsOf(mode, bytes))
    ensures InFormat(mode, f) ==>
              (IsFrameOf(mode, bytes, f) <==> FieldsOf(mode, bytes) == f && LastBitOf(bytes) == 0)
  {
    var ws, s := Layout(mode), BytesToBits(bytes);
    ClassesEndAtBytes(mode);
    var vs := Unpacked(ws, s);
    RepackingReproduces(ws, bytes);
    FlattenRebuild(mode, vs);
    InFormatIsInRange(mode, FieldsOf(mode, bytes));
    if InFormat(mode, f) && IsFrameOf(mode, bytes, f) {
      InFormatIsInRange(mode, f);
      UnpackedInvertsFrame(ws, Flatten(f), [false]);
      RebuildFlatten(mode, f);
      assert s[|s| - 1] == false;
    }
  }

  /** Different frames carry different fields. */
  lemma FramesDiffer(mode: Mode, a: seq<Byte>, b: seq<Byte>, f: Fields)
    requires IsFrameOf(mode, a, f) && IsFrameOf(mode, b, f)
    ensures a == b
  {
    CarriesDeterminesBytes(a, b, Layout(mode), Flatten(f));
  }

  /** The start indices that frame classification can choose. */
  predicate EncoderStart(mode: Mode, start: nat) {
    1 <= start < mode.Subframes()
  }

  /** A frame produced by the encoder is never treated as lost; any other start index or a set last bit is. */
  lemma EncodedFramesAreReceived(mode: Mode, bytes: seq<Byte>, f: Fields)
    requires |bytes| == mode.FrameBytes() && InFormat(mode, f) && IsFrameOf(mode, bytes, f)
    ensures !Lost(mode, FieldsOf(mode, bytes).start, LastBitOf(bytes)) <==> EncoderStart(mode, f.start)
  {
    FramesAreFields(mode, bytes, f);
  }
}
