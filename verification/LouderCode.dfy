/** A code that the final gain correction makes louder than its target: the later gains are quantised above their
    floor's steps, so they do not rise with the first one and no longer cancel it. */
module LouderCode {
  import opened Basics
  import opened RealArithmetic
  import opened Vectors
  import opened Codebook
  import opened CodebookEnergies
  import opened SearchWindow
  import opened Nearest
  import opened GainQuantisation
  import opened CodebookSearch
  import opened StagedSearch
  import opened GainCorrection

  // ---- The code's own tables ----

  const LEVELS3: seq<real> := [-1.0, -0.659973, -0.330017, 0.0, 0.25, 0.5, 0.75, 1.0]

  const LEVELS4: seq<real> := [
    -1.049988, -0.900024, -0.75, -0.599976, -0.450012, -0.299988, -0.150024, 0.0, 0.150024, 0.299988, 0.450012,
    0.599976, 0.75, 0.900024, 1.049988, 1.200012]

  const LEVELS5: seq<real> := [
    0.037476, 0.075012, 0.112488, 0.150024, 0.1875, 0.224976, 0.262512, 0.299988, 0.337524, 0.375, 0.412476, 0.450012,
    0.487488, 0.525024, 0.5625, 0.599976, 0.637512, 0.674988, 0.712524, 0.75, 0.787476, 0.825012, 0.862488, 0.900024,
    0.9375, 0.974976, 1.012512, 1.049988, 1.087524, 1.125, 1.162476, 1.200012]

  function CodeTables(): (t: Tables)
    ensures ValidTables(t)
  {
    Tables(LEVELS3, LEVELS4, LEVELS5)
  }

  const FILTER: seq<real> := [-0.03418, 0.108887, -0.184326, 0.806152, 0.713379, -0.144043, 0.08374, -0.033691]

  predicate Steps(table: seq<real>) {
    forall i: nat {:trigger table[i]} | i + 1 < |table| :: table[i] < table[i + 1]
  }

  lemma {:induction false} StepsRise(table: seq<real>, i: nat, j: nat)
    requires Steps(table) && i < j < |table|
    ensures table[i] < table[j]
  {
    if i + 1 < j {
      StepsRise(table, i, j - 1);
    }
    var last := j - 1;
    assert table[last] < table[last + 1];
  }

  lemma StepsFromPositive(table: seq<real>)
    requires Steps(table) && |table| > 0 && table[0] > 0.0
    ensures PositiveRising(table)
  {
    forall i, j | 0 <= i < j < |table|
      ensures table[i] < table[j]
    {
      StepsRise(table, i, j);
    }
    forall i | 0 <= i < |table|
      ensures table[i] > 0.0
    {
      if i > 0 {
        StepsRise(table, 0, i);
      }
    }
  }

  lemma Steps3()
    ensures Steps(LEVELS3)
  {
  }

  lemma Steps4()
    ensures Steps(LEVELS4)
  {
  }

  lemma Steps5()
    ensures Steps(LEVELS5) && LEVELS5[0] > 0.0
  {
  }

  lemma LevelsRise()
    ensures Steps(CodeTables().sq3) && Steps(CodeTables().sq4) && Steps(CodeTables().sq5)
    ensures PositiveRising(CodeTables().sq5)
  {
    Steps3();
    Steps4();
    Steps5();
    StepsFromPositive(CodeTables().sq5);
  }

  lemma CloserThan(x: real, near: real, far: real)
    requires if near < far then 2.0 * x <= near + far else far < near && near + far < 2.0 * x
    ensures Distance(x, near) <= Distance(x, far)
    ensures far < near ==> Distance(x, near) < Distance(x, far)
  {
    if far < near {
      var p := PositiveProduct(near - far, 2.0 * x - near - far);
    } else {
      var p := NonNegativeProduct(far - near, near + far - 2.0 * x);
    }
    DistanceGap(x, near, far);
  }

  lemma DistanceGap(x: real, near: real, far: real)
    ensures Distance(x, far) - Distance(x, near) == (far - near) * (far + near - 2.0 * x)
    ensures (near - far) * (2.0 * x - near - far) == (far - near) * (far + near - 2.0 * x)
  {
  }

  /** Among rising values the one whose neighbours' midpoints enclose x is the nearest. */
  lemma NearestValue(values: seq<real>, x: real, g: nat, i: nat)
    requires Steps(values) && g < |values| && i < |values|
    requires g > 0 ==> values[g - 1] + values[g] < 2.0 * x
    requires g + 1 < |values| ==> 2.0 * x <= values[g] + values[g + 1]
    ensures Distance(x, values[g]) <= Distance(x, values[i])
    ensures i < g ==> Distance(x, values[g]) < Distance(x, values[i])
  {
    hide Distance;
    if i < g {
      StepsRise(values, i, g);
      if i < g - 1 {
        StepsRise(values, i, g - 1);
      }
      CloserThan(x, values[g], values[i]);
    } else if i > g {
      StepsRise(values, g, i);
      if i > g + 1 {
        StepsRise(values, g + 1, i);
      }
      CloserThan(x, values[g], values[i]);
    }
  }

  lemma ScaledStep(scale: real, x: real, y: real) returns (low: real, high: real)
    requires scale > 0.0 && x < y
    ensures low == scale * x && high == scale * y && low < high
  {
    low, high := scale * x, scale * y;
    var p := PositiveProduct(scale, y - x);
  }

  /** The values that a gain index can denote. */
  function Values(t: Tables, previous: real, cblen: nat): (values: seq<real>)
    requires ValidTables(t) && cblen in {8, 16, 32}
    ensures |values| == cblen
  {
    seq(cblen, i requires 0 <= i < cblen => GainDequant(t, i, previous, cblen))
  }

  lemma ValuesRise(t: Tables, previous: real, cblen: nat)
    requires ValidTables(t) && cblen in {8, 16, 32} && Steps(Table(t, cblen))
    ensures Steps(Values(t, previous, cblen))
  {
    var values, tb, scale := Values(t, previous, cblen), Table(t, cblen), Scale(Abs(previous));
    forall i: nat | i + 1 < cblen
      ensures values[i] < values[i + 1]
    {
      var low, high := ScaledStep(scale, tb[i], tb[i + 1]);
      assert values[i] == low && values[i + 1] == high;
    }
  }

  lemma NearestLevel(t: Tables, x: real, previous: real, cblen: nat, g: nat)
    requires ValidTables(t) && cblen in {8, 16, 32} && Steps(Table(t, cblen)) && g < cblen
    requires g > 0 ==> Values(t, previous, cblen)[g - 1] + Values(t, previous, cblen)[g] < 2.0 * x
    requires g + 1 < cblen ==> 2.0 * x <= Values(t, previous, cblen)[g] + Values(t, previous, cblen)[g + 1]
    ensures IsNearest(Measures(t, x, previous, cblen), NO_MATCH, g)
  {
    hide GainDequant, Distance;
    ValuesRise(t, previous, cblen);
    forall i: nat | i < cblen
      ensures Measures(t, x, previous, cblen)[g] <= Measures(t, x, previous, cblen)[i]
      ensures i < g ==> Measures(t, x, previous, cblen)[g] < Measures(t, x, previous, cblen)[i]
    {
      NearestValue(Values(t, previous, cblen), x, g, i);
    }
  }

  // ---- The codebook: a single sample at its far end ----

  function PulseMemory(): (m: seq<real>)
    ensures |m| == 147
  {
    seq(147, i => if i == 0 then 1000.0 else 0.0)
  }

  function PulseBook(): (k: Book)
    ensures ValidBook(k) && k.Base() == 128
  {
    Book(FILTER, PulseMemory(), SUBFRAME)
  }

  /** A vector whose only sample may be its first. */
  function Pulse(a: real): (v: seq<real>)
    ensures |v| == SUBFRAME
  {
    seq(SUBFRAME, j => if j == 0 then a else 0.0)
  }

  /** The target, and what each stage leaves of it. */
  function Remaining(x: real): (u: seq<real>)
    ensures |u| == SUBFRAME
  {
    seq(SUBFRAME, j => if j == 0 then x else if j == 20 then 31.62 else 0.0)
  }

  /** No vector of the codebook has a sample 20 that could answer the target's. */
  predicate Tame(v: seq<real>) {
    |v| == SUBFRAME && v[20] == 0.0 && -1000.0 <= v[0] <= 1000.0
  }

  lemma {:induction false} FilterOfPulse(p: nat, n: nat)
    requires n <= TAPS
    ensures FilterSum(Reals(FILTER), PulseMemory(), p, n)
              == if p <= 3 && 3 - p < n then 1000.0 * FILTER[4 + p] else 0.0
  {
    if n > 0 {
      FilterOfPulse(p, n - 1);
      var i := p - 3 + (n - 1);
      assert At(Reals(FILTER), PulseMemory(), i) == if i == 0 then 1000.0 else 0.0;
    }
  }

  lemma FilteredPulse(p: nat)
    requires p < 147
    ensures var c := Filtered(Reals(FILTER), PulseMemory());
            -1000.0 <= c[p] <= 1000.0 && (p >= 4 ==> c[p] == 0.0)
  {
    FilterOfPulse(p, TAPS);
  }

  lemma FirstVectors(i: nat)
    requires i < 128
    ensures Vector(PulseBook(), i) == Pulse(if i == 107 then 1000.0 else 0.0)
  {
    var v := Vector(PulseBook(), i);
    forall j | 0 <= j < SUBFRAME
      ensures v[j] == if i == 107 && j == 0 then 1000.0 else 0.0
    {
      if i >= 108 {
        assert v[j] == AugmentedAt(Reals(FILTER), PulseMemory(), 2 * (i - 108) + SUBFRAME, j);
      }
    }
  }

  lemma SecondVectors(i: nat)
    requires 128 <= i < 236
    ensures Tame(Vector(PulseBook(), i))
  {
    var v, c := Vector(PulseBook(), i), Filtered(Reals(FILTER), PulseMemory());
    assert v == Section(c, i - 128, SUBFRAME);
    FilteredPulse(235 - i);
    FilteredPulse(255 - i);
    assert v[0] == c[235 - i] && v[20] == c[255 - i];
  }

  // ---- Scores ----

  lemma {:induction false} DotOfRemaining(x: real, v: seq<real>, n: nat)
    requires |v| == SUBFRAME && v[20] == 0.0 && n <= SUBFRAME
    ensures Dot(Remaining(x), v, n) == if n == 0 then 0.0 else x * v[0]
  {
    if n > 0 {
      DotOfRemaining(x, v, n - 1);
    }
  }

  lemma {:induction false} EnergyOfPulse(a: real, n: nat)
    requires n <= SUBFRAME
    ensures Dot(Pulse(a), Pulse(a), n) == if n == 0 then 0.0 else a * a
  {
    if n > 0 {
      EnergyOfPulse(a, n - 1);
    }
  }

  lemma {:induction false} EnergyAtLeastFirst(v: seq<real>, n: nat)
    requires 0 < n <= |v|
    ensures Dot(v, v, n) >= v[0] * v[0]
  {
    if n > 1 {
      EnergyAtLeastFirst(v, n - 1);
      var s := NonNegativeSquare(v[n - 1]);
    } else {
      assert Dot(v, v, 0) == 0.0;
    }
  }

  /** The measure of the one vector that matters, when x is left of the target's first sample. */
  function Peak(x: real): real {
    x * x * Share()
  }

  function Share(): (r: real)
    ensures r > 0.0
  {
    1000000.0 * Inverse(1000000.0)
  }

  /** a^2 / (e + EPSILON) is at most 10^6 / (10^6 + EPSILON) for a^2 <= e and a^2 <= 10^6. */
  lemma ShareIsLess(a: real, e: real)
    requires -1000.0 <= a <= 1000.0 && e >= a * a && e > 0.0
    ensures a * a * Inverse(e) <= Share()
  {
    var s, d, share := a * a, e + EPSILON, Share();
    var below := NonNegativeProduct(1000.0 - a, 1000.0 + a);
    assert s == 1000000.0 - below;
    assert share * d >= s;
    var y := 1.0 / d;
    var p := NonNegativeProduct(share * d - s, y);
    Expand(share, d, s, y, p);
  }

  lemma Expand(share: real, d: real, s: real, y: real, p: real)
    requires d > 0.0 && y == 1.0 / d && p == (share * d - s) * y
    ensures p == share - s * y
  {
  }

  lemma MeasureScales(x: real, a: real, cross: real, inverse: real, bound: real)
    requires a * a * inverse <= bound && cross == x * a
    ensures cross * cross * inverse <= x * x * bound
  {
    var s := NonNegativeSquare(x);
    var p := NonNegativeProduct(s, bound - a * a * inverse);
    assert p == s * bound - s * (a * a * inverse);
    assert s * (a * a * inverse) == cross * cross * inverse;
  }

  /** No vector without an answer to sample 20 measures more than the pulse. */
  lemma TameScore(stage: nat, x: real, v: seq<real>)
    requires Tame(v)
    ensures var s := ScoreOf(stage, Dot(Remaining(x), v, |v|), Inverse(Energy(v)));
            s.measure == FLOOR || s.measure <= Peak(x)
  {
    DotOfRemaining(x, v, SUBFRAME);
    EnergyAtLeastFirst(v, SUBFRAME);
    var a, e, bound := v[0], Energy(v), Share();
    var cross := Dot(Remaining(x), v, |v|);
    hide Energy, Dot, Share;
    var square := NonNegativeSquare(a);
    if e > 0.0 {
      ShareIsLess(a, e);
    }
    var inverse := Inverse(e);
    hide Inverse;
    MeasureScales(x, a, cross, inverse, bound);
  }

  /** One stage's task. */
  function StageTask(stage: nat, x: real): (t: Task)
    ensures ValidTask(t)
  {
    Task(PulseBook(), stage, Remaining(x))
  }

  lemma PulseScore(stage: nat, x: real, a: real)
    requires -100.0 <= x <= 100.0 && (stage == 0 ==> x > 0.0) && a in {0.0, 1000.0}
    ensures ScoreOf(stage, Dot(Remaining(x), Pulse(a), SUBFRAME), Inverse(Energy(Pulse(a))))
              == if a == 0.0 then Score(if stage == 0 then FLOOR else 0.0, 0.0)
                 else Score(Peak(x), x * 1000.0 * Inverse(1000000.0))
  {
    DotOfRemaining(x, Pulse(a), SUBFRAME);
    EnergyOfPulse(a, SUBFRAME);
  }

  // ---- The three stages ----

  /** The candidate that wins: the pulse. */
  function PulseBest(x: real): Best {
    Best(107, Peak(x), x * 1000.0 * Inverse(1000000.0))
  }

  /** What the first section and the window leave: the pulse is the best. */
  lemma PulseIsBest(stage: nat, x: real)
    requires -100.0 <= x <= 100.0 && x != 0.0 && (stage == 0 ==> x > 0.0)
    ensures Searchable(SUBFRAME, 128, 108)
    ensures Chosen(StageTask(stage, x), 108, PulseBest(x))
  {
    var t, b := StageTask(stage, x), PulseBest(x);
    var scores := DirectSheet(t).scores;
    BestAmong(stage, x, FirstSection(t.book, 108));
    var w := WindowFor(t.book, 108, 107);
    assert w == Window(74, 108, 0, 0);
    BestAmong(stage, x, FirstSection(t.book, 108) + SecondSection(t.book, w));
    assert ChosenAfter(t, 108, b, b);
  }

  /** Among candidates that start with the whole first section. */
  lemma BestAmong(stage: nat, x: real, visited: seq<nat>)
    requires -100.0 <= x <= 100.0 && x != 0.0 && (stage == 0 ==> x > 0.0)
    requires |visited| > 107 && (forall i | 0 <= i <= 107 :: visited[i] == i)
             && forall i | 0 <= i < |visited| :: visited[i] < 236
    ensures IsBest(DirectSheet(StageTask(stage, x)).scores, visited,
                   PulseBest(x))
  {
    var t, b := StageTask(stage, x), PulseBest(x);
    var scores := DirectSheet(t).scores;
    var square := PositiveSquare(x);
    var p := PositiveProduct(square, Share());
    forall i | 0 <= i < |visited|
      ensures Beaten(scores, visited[i], b)
    {
      CandidateScore(stage, x, visited[i]);
    }
    forall i | 0 <= i < 107
      ensures Surpassed(scores, visited[i], b)
    {
      CandidateScore(stage, x, i);
    }
    CandidateScore(stage, x, 107);
    assert IsFirst(scores, visited, 107, b);
  }

  lemma CandidateScore(stage: nat, x: real, i: nat)
    requires -100.0 <= x <= 100.0 && x != 0.0 && (stage == 0 ==> x > 0.0) && i < 236
    ensures var s, peak := ScoreAt(StageTask(stage, x), i), Score(Peak(x), x * 1000.0 * Inverse(1000000.0));
            && (i == 107 ==> s == peak && Eligible(s))
            && (i < 107 ==> s.measure == FLOOR || s.measure == 0.0)
            && (s.measure == FLOOR || s.measure <= Peak(x))
  {
    var k := PulseBook();
    if i < 128 {
      FirstVectors(i);
      PulseScore(stage, x, if i == 107 then 1000.0 else 0.0);
    } else {
      SecondVectors(i);
      TameScore(stage, x, Vector(k, i));
    }
  }

  // ---- The whole search ----

  const INDEX: seq<nat> := [107, 107, 107]
  const CHOSEN: seq<nat> := [0, 5, 3]
  const RAISED: seq<nat> := [1, 5, 3]

  /** What is left of the target's first sample before each stage. */
  function LeftOver(s: nat): (x: real)
    ensures -100.0 <= x <= 100.0 && x != 0.0 && (s == 0 ==> x > 0.0)
  {
    if s == 0 then 1.0 else if s == 1 then -36.476 else -6.4772
  }

  lemma ChosenGains()
    ensures Coded(CHOSEN) && Coded(RAISED)
    ensures GainOf(CodeTables(), CHOSEN, 0) == 0.037476 && GainOf(CodeTables(), RAISED, 0) == 0.075012
    ensures GainOf(CodeTables(), CHOSEN, 1) == GainOf(CodeTables(), RAISED, 1) == -0.0299988
    ensures GainOf(CodeTables(), CHOSEN, 2) == GainOf(CodeTables(), RAISED, 2) == 0.0
  {
    GainsAreTabled(CodeTables(), CHOSEN);
    GainsAreTabled(CodeTables(), RAISED);
  }

  /** The gain before quantisation. */
  function PulseGain(s: nat): real {
    PulseBest(LeftOver(s)).gain
  }

  lemma PulseGains()
    ensures 0.0009 < PulseGain(0) < 0.0011
    ensures -0.0365 < PulseGain(1) < -0.0364
    ensures -0.0065 < PulseGain(2) < -0.0064
  {
  }

  /** The entries that the example meets. */
  lemma SomeLevels()
    ensures var t := CodeTables();
            && t.sq5[0] == 0.037476 && t.sq5[1] == 0.075012
            && t.sq4[4] == -0.450012 && t.sq4[5] == -0.299988 && t.sq4[6] == -0.150024
            && t.sq3[2] == -0.330017 && t.sq3[3] == 0.0 && t.sq3[4] == 0.25
  {
    SomeLevels3();
    SomeLevels4();
    SomeLevels5();
  }

  lemma SomeLevels3()
    ensures LEVELS3[2] == -0.330017 && LEVELS3[3] == 0.0 && LEVELS3[4] == 0.25
  {
  }

  lemma SomeLevels4()
    ensures LEVELS4[4] == -0.450012 && LEVELS4[5] == -0.299988 && LEVELS4[6] == -0.150024
  {
  }

  lemma SomeLevels5()
    ensures LEVELS5[0] == 0.037476 && LEVELS5[1] == 0.075012
  {
  }

  lemma FirstNearest(t: Tables, x: real)
    requires ValidTables(t) && Steps(t.sq5) && t.sq5[0] == 0.037476 && t.sq5[1] == 0.075012 && 0.0009 < x < 0.0011
    ensures IsNearest(Measures(t, Clamp(x, 0.0, 1.3), 1.0, 32), NO_MATCH, 0)
  {
    assert Values(t, 1.0, 32)[0] == t.sq5[0] && Values(t, 1.0, 32)[1] == t.sq5[1];
    assert Clamp(x, 0.0, 1.3) == x;
    hide Values, Measures, IsNearest, Steps, Clamp;
    NearestLevel(t, x, 1.0, 32, 0);
  }

  lemma SecondNearest(t: Tables, x: real)
    requires ValidTables(t) && Steps(t.sq4) && -0.0365 < x < -0.0364
    requires t.sq4[4] == -0.450012 && t.sq4[5] == -0.299988 && t.sq4[6] == -0.150024
    ensures IsNearest(Measures(t, x, 0.037476, 16), NO_MATCH, 5)
  {
    var values := Values(t, 0.037476, 16);
    assert values[4] == 0.1 * t.sq4[4] && values[5] == 0.1 * t.sq4[5] && values[6] == 0.1 * t.sq4[6];
    hide Values, Measures, IsNearest, Steps;
    NearestLevel(t, x, 0.037476, 16, 5);
  }

  lemma ThirdNearest(t: Tables, x: real)
    requires ValidTables(t) && Steps(t.sq3) && -0.0065 < x < -0.0064
    requires t.sq3[2] == -0.330017 && t.sq3[3] == 0.0 && t.sq3[4] == 0.25
    ensures IsNearest(Measures(t, x, 0.0299988, 8), NO_MATCH, 3)
  {
    var values := Values(t, 0.0299988, 8);
    assert values[2] == 0.1 * t.sq3[2] && values[3] == 0.1 * t.sq3[3] && values[4] == 0.1 * t.sq3[4];
    hide Values, Measures, IsNearest, Steps;
    NearestLevel(t, x, 0.0299988, 8, 3);
  }

  lemma ChosenPrevious(s: nat)
    requires s < STAGES
    ensures Coded(CHOSEN)
    ensures PreviousGain(CodeTables(), CHOSEN, s) == if s == 0 then 1.0 else if s == 1 then 0.037476 else 0.0299988
  {
    ChosenGains();
    hide CodeTables, GainOf;
  }

  lemma GainsAreNearest(s: nat)
    requires s < STAGES
    ensures Coded(CHOSEN)
    ensures IsNearest(Measures(CodeTables(), if s == 0 then Clamp(PulseGain(s), 0.0, 1.3) else PulseGain(s),
                               PreviousGain(CodeTables(), CHOSEN, s), LEVELS[s]), NO_MATCH, CHOSEN[s])
  {
    hide CodeTables, PulseGain, Measures, IsNearest, GainOf, PreviousGain, Steps, PositiveRising, Clamp;
    SomeLevels();
    LevelsRise();
    ChosenPrevious(s);
    PulseGains();
    var t, x := CodeTables(), PulseGain(s);
    if s == 0 {
      FirstNearest(t, x);
    } else if s == 1 {
      SecondNearest(t, x);
    } else {
      ThirdNearest(t, x);
    }
  }

  lemma StageLeaves(x: real, g: real, y: real)
    requires y == x - g * 1000.0
    ensures MinusScaled(Remaining(x), g, Pulse(1000.0)) == Remaining(y)
  {
  }

  lemma StageBuilds(a: real, g: real, b: real)
    requires b == a + g * 1000.0
    ensures PlusScaled(Pulse(a), g, Pulse(1000.0)) == Pulse(b)
  {
  }

  lemma ChainsHold(n: nat)
    requires n <= STAGES
    ensures Chain(PulseBook(), INDEX, CHOSEN, n) && Chain(PulseBook(), INDEX, RAISED, n)
  {
  }

  lemma TargetsLeft(s: nat)
    requires s < STAGES
    ensures Chain(PulseBook(), INDEX, CHOSEN, s)
    ensures TargetAfter(PulseBook(), CodeTables(), Remaining(1.0), INDEX, CHOSEN, s) == Remaining(LeftOver(s))
  {
    ChosenGains();
    ChainsHold(s);
    if s > 0 {
      TargetsLeft(s - 1);
      FirstVectors(107);
      StageLeaves(LeftOver(s - 1), GainOf(CodeTables(), CHOSEN, s - 1), LeftOver(s));
    }
  }

  lemma BuiltPulses(f: seq<nat>)
    requires f == CHOSEN || f == RAISED
    ensures Chain(PulseBook(), INDEX, f, STAGES)
    ensures Built(PulseBook(), CodeTables(), INDEX, f, STAGES) == Pulse(if f == CHOSEN then 7.4772 else 45.0132)
  {
    ChosenGains();
    var k, g := PulseBook(), GainOf(CodeTables(), f, 0) * 1000.0;
    ChainsHold(0); ChainsHold(1); ChainsHold(2); ChainsHold(3);
    FirstVectors(107);
    assert Built(k, CodeTables(), INDEX, f, 0) == Pulse(0.0);
    StageBuilds(0.0, GainOf(CodeTables(), f, 0), g);
    StageBuilds(g, GainOf(CodeTables(), f, 1), g - 29.9988);
    StageBuilds(g - 29.9988, GainOf(CodeTables(), f, 2), g - 29.9988);
    assert Built(k, CodeTables(), INDEX, f, 1) == Pulse(g);
    assert Built(k, CodeTables(), INDEX, f, 2) == Pulse(g - 29.9988);
  }

  lemma StageFrom(k: Book, t: Tables, ranges: seq<nat>, target: seq<real>, index: seq<nat>, f: seq<nat>, s: nat,
                  u: seq<real>, b: Best)
    requires ValidBook(k) && ValidTables(t) && |target| == |u| == k.veclen && ValidRanges(k, ranges)
    requires s < STAGES && Chain(k, index, f, s + 1) && TargetAfter(k, t, target, index, f, s) == u
    requires Chosen(Task(k, s, u), ranges[s], b) && index[s] == b.index && InSpace(k, ranges[s], b.index)
    requires IsNearest(Measures(t, if s == 0 then Clamp(b.gain, 0.0, 1.3) else b.gain, PreviousGain(t, f, s),
                                LEVELS[s]), NO_MATCH, f[s])
    ensures StageDone(k, t, ranges, target, index, f, s)
  {
    hide Chosen, TargetAfter, PreviousGain, Measures, IsNearest, InSpace;
    assert StageGives(k, t, ranges, target, index, f, s, b);
  }

  lemma PulseRanges()
    ensures var k, ranges := PulseBook(), SearchRange(2);
            ValidRanges(k, ranges) && forall s: nat | s < STAGES :: ranges[s] == 108 && InSpace(k, ranges[s], 107)
  {
  }

  lemma EveryStage(s: nat)
    requires s < STAGES
    ensures ValidRanges(PulseBook(), SearchRange(2)) && Chain(PulseBook(), INDEX, CHOSEN, s + 1)
    ensures StageDone(PulseBook(), CodeTables(), SearchRange(2), Remaining(1.0), INDEX, CHOSEN, s)
  {
    hide CodeTables, Chosen, TargetAfter, PreviousGain, Measures, IsNearest, InSpace, LeftOver, PulseBook, Remaining,
         SearchRange, ValidRanges;
    PulseRanges();
    ChainsHold(s + 1);
    PulseIsBest(s, LeftOver(s));
    TargetsLeft(s);
    GainsAreNearest(s);
    StageFrom(PulseBook(), CodeTables(), SearchRange(2), Remaining(1.0), INDEX, CHOSEN, s, Remaining(LeftOver(s)),
              PulseBest(LeftOver(s)));
  }

  lemma {:induction false} EnergyOfRemaining(x: real, n: nat)
    requires n <= SUBFRAME
    ensures Dot(Remaining(x), Remaining(x), n)
         == if n == 0 then 0.0 else if n <= 20 then x * x else x * x + 999.8244
  {
    if n > 0 {
      EnergyOfRemaining(x, n - 1);
    }
  }

  lemma QuieterAtOne(sq5: seq<real>, cene: real)
    requires |sq5| == 32 && sq5[1] == 0.075012 && cene == 7.4772 * 7.4772
    ensures Quieter(sq5, cene, 1000.8244, 0.037476, 1)
  {
  }

  lemma RaisedByOne(sq5: seq<real>, cene: real)
    requires |sq5| == 32 && PositiveRising(sq5) && sq5[0] == 0.037476 && sq5[1] == 0.075012 && cene == 7.4772 * 7.4772
    ensures Corrected(sq5, 0, cene, 1000.8244, 1)
  {
    QuieterAtOne(sq5, cene);
    hide Quieter;
    forall i {:trigger sq5[i - 1]} | 1 < i < 32
      ensures sq5[i - 1] >= sq5[1]
    {
    }
  }

  lemma PulseSearched()
    ensures ValidRanges(PulseBook(), SearchRange(2))
    ensures SearchedUpTo(PulseBook(), CodeTables(), SearchRange(2), Remaining(1.0), INDEX, CHOSEN, STAGES)
  {
    hide StageDone, CodeTables, PulseBook, Remaining, SearchRange, ValidRanges;
    PulseRanges();
    ChainsHold(STAGES);
    forall s: nat | s < STAGES
      ensures StageDone(PulseBook(), CodeTables(), SearchRange(2), Remaining(1.0), INDEX, CHOSEN, s)
    {
      EveryStage(s);
    }
  }

  lemma PulseEnergies()
    ensures Coded(CHOSEN) && Chain(PulseBook(), INDEX, CHOSEN, STAGES) && Chain(PulseBook(), INDEX, RAISED, STAGES)
    ensures Energy(Built(PulseBook(), CodeTables(), INDEX, CHOSEN, STAGES)) == 7.4772 * 7.4772
    ensures Energy(Built(PulseBook(), CodeTables(), INDEX, RAISED, STAGES)) > 2026.0
    ensures Energy(Remaining(1.0)) == 1000.8244
  {
    hide Built, CodeTables, PulseBook;
    ChosenGains();
    BuiltPulses(CHOSEN);
    BuiltPulses(RAISED);
    EnergyOfPulse(7.4772, SUBFRAME);
    EnergyOfPulse(45.0132, SUBFRAME);
    EnergyOfRemaining(1.0, SUBFRAME);
  }

  /** With the code's own gain tables and filter, a memory with one sample and a target with two, the correction returns
      a code that is more than twice as loud as the target, although the built vector was far quieter: the second gain,
      held by its floor, cancels the first one only as it was before. */
  lemma RaisedCodeCanBeLouder()
    ensures var k, t, ranges, target := PulseBook(), CodeTables(), SearchRange(2), Remaining(1.0);
            && PositiveRising(t.sq5) && ValidRanges(k, ranges)
            && SearchedUpTo(k, t, ranges, target, INDEX, CHOSEN, STAGES) && RAISED == CHOSEN[0 := 1]
            && Corrected(t.sq5, 0, Energy(Built(k, t, INDEX, CHOSEN, STAGES)), Energy(target), 1)
            && Chain(k, INDEX, RAISED, STAGES)
            && Energy(Built(k, t, INDEX, RAISED, STAGES)) > 2.0 * Energy(target)
  {
    hide Built, CodeTables, PulseBook, Remaining, SearchRange, ValidRanges, SearchedUpTo, Corrected, PositiveRising;
    PulseSearched();
    PulseEnergies();
    LevelsRise();
    SomeLevels();
    RaisedByOne(CodeTables().sq5, 7.4772 * 7.4772);
  }
}
