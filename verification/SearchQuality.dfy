/** What the search's measure is worth: the energy that a candidate takes out of the target with its own gain. */
module SearchQuality {
  import opened RealArithmetic
  import opened Vectors
  import opened CodebookSearch
  import opened StagedSearch
  import S = Smoothing

  /** What taking away g times a vector of energy e and correlation c takes out of a target's energy. */
  function Taken(g: real, c: real, e: real): real {
    2.0 * g * c - g * g * e
  }

  lemma DifferenceIsMix(u: seq<real>, g: real, v: seq<real>)
    requires |u| == |v|
    ensures S.IsMix(MinusScaled(u, g, v), 1.0, u, -g, v)
  {
    var w := MinusScaled(u, g, v);
    forall i | 0 <= i < |w|
      ensures w[i] == 1.0 * u[i] + (-g) * v[i]
    {
      Negated(u[i], g, v[i]);
    }
  }

  lemma EnergyLeft(u: seq<real>, g: real, v: seq<real>)
    requires |u| == |v|
    ensures Energy(MinusScaled(u, g, v)) == Energy(u) - Taken(g, Dot(u, v, |u|), Energy(v))
  {
    hide Dot, Taken, S.MixEnergy, MinusScaled, S.IsMix;
    DifferenceIsMix(u, g, v);
    S.EnergyOfMix(MinusScaled(u, g, v), 1.0, u, -g, v, |u|);
    MixOfDifference(g, Energy(u), Dot(u, v, |u|), Energy(v));
  }

  lemma Negated(u: real, g: real, v: real)
    ensures u - g * v == 1.0 * u + (-g) * v
  {
  }

  lemma MixOfDifference(g: real, uu: real, uv: real, vv: real)
    ensures S.MixEnergy(1.0, -g, uu, uv, vv) == uu - Taken(g, uv, vv)
  {
  }

  /** A correlation's own gain takes at least its measure. */
  lemma GainTakes(c: real, e: real, y: real)
    requires e > 0.0 && y == 1.0 / (e + EPSILON)
    ensures Taken(c * y, c, e) >= c * c * y
  {
    var z := e * y;
    var square := NonNegativeSquare(c);
    assert y * (e + EPSILON) == 1.0 && y > 0.0;
    var m := NonNegativeProduct(square, y);
    assert z == 1.0 - EPSILON * y;
    var rest := NonNegativeProduct(m, 1.0 - z);
    assert (c * y) * (c * y) * e == m * z;
  }

  /** No gain takes more than the squared correlation over the energy. */
  lemma NoGainTakesMore(c: real, e: real, x: real)
    requires e > 0.0
    ensures Taken(x, c, e) * e <= c * c
  {
    var s := NonNegativeSquare(x * e - c);
    assert s == (x * e) * (x * e) - 2.0 * (x * e) * c + c * c;
    assert (2.0 * x * c - x * x * e) * e == 2.0 * (x * e) * c - (x * e) * (x * e);
  }

  /** A vector with energy, and a correlation that the stage does not reject. */
  predicate Counts(t: Task, i: nat)
    requires ValidTask(t) && i < 2 * t.book.Base()
  {
    var v := Vector(t.book, i);
    Energy(v) > 0.0 && (t.stage > 0 || Dot(t.target, v, |v|) > 0.0)
  }

  function LeftBy(t: Task, i: nat, x: real): real
    requires ValidTask(t) && i < 2 * t.book.Base()
  {
    Energy(MinusScaled(t.target, x, Vector(t.book, i)))
  }

  /** With its own gain a candidate takes at least its measure out of the target's energy. */
  lemma MeasureIsTaken(t: Task, i: nat)
    requires ValidTask(t) && i < 2 * t.book.Base() && Counts(t, i)
    ensures LeftBy(t, i, ScoreAt(t, i).gain) <= Energy(t.target) - ScoreAt(t, i).measure
  {
    var v, s := Vector(t.book, i), ScoreAt(t, i);
    var c, e := Dot(t.target, v, |v|), Energy(v);
    assert s.gain == c * Inverse(e) && s.measure == c * c * Inverse(e);
    hide ScoreAt, Vector, Energy, Dot, Taken;
    EnergyLeft(t.target, s.gain, v);
    GainTakes(c, e, Inverse(e));
  }

  /** What EPSILON costs a measure. */
  function Sliver(m: real, e: real): real
    requires e > 0.0
  {
    m * EPSILON / e
  }

  /** Whatever its gain, it takes hardly more: its measure, and EPSILON / energy of that. */
  lemma HardlyMoreIsTaken(t: Task, i: nat, x: real)
    requires ValidTask(t) && i < 2 * t.book.Base() && Counts(t, i)
    ensures var m, e := ScoreAt(t, i).measure, Energy(Vector(t.book, i));
            LeftBy(t, i, x) >= Energy(t.target) - (m + Sliver(m, e))
  {
    var v, s := Vector(t.book, i), ScoreAt(t, i);
    var c, e := Dot(t.target, v, |v|), Energy(v);
    assert s.measure == c * c * Inverse(e);
    hide ScoreAt, Vector, Energy, Dot, Taken, Sliver, Inverse;
    EnergyLeft(t.target, x, v);
    NoGainTakesMore(c, e, x);
    TakenAtMost(c, e, Taken(x, c, e), s.measure);
  }

  lemma TakenAtMost(c: real, e: real, taken: real, m: real)
    requires e > 0.0 && taken * e <= c * c && m == c * c * Inverse(e)
    ensures taken <= m + Sliver(m, e)
  {
    var d, q := e + EPSILON, m * EPSILON / e;
    assert m * d == c * c;
    assert (m + q) * e == m * e + m * EPSILON;
    if taken > m + q {
      var p := PositiveProduct(taken - (m + q), e);
    }
  }

  /** So the best candidate, with its gain, leaves less of the target than any other examined one with any gain, but for
      that sliver. */
  lemma BestLeavesLeast(t: Task, visited: seq<nat>, b: Best, j: nat, x: real)
    requires ValidTask(t) && IsBest(DirectSheet(t).scores, visited, b) && b.measure > FLOOR
    requires b.index < 2 * t.book.Base() && Counts(t, b.index)
    requires j < |visited| && visited[j] < 2 * t.book.Base() && Counts(t, visited[j])
             && Eligible(ScoreAt(t, visited[j]))
    ensures var m, e := ScoreAt(t, visited[j]).measure, Energy(Vector(t.book, visited[j]));
            LeftBy(t, b.index, b.gain) <= LeftBy(t, visited[j], x) + Sliver(m, e)
  {
    var scores := DirectSheet(t).scores;
    assert Beaten(scores, visited[j], b);
    var k :| 0 <= k < |visited| && IsFirst(scores, visited, k, b);
    assert scores[b.index] == ScoreAt(t, b.index) && scores[visited[j]] == ScoreAt(t, visited[j]);
    hide ScoreAt, Vector, Energy, LeftBy, Counts, Sliver;
    MeasureIsTaken(t, b.index);
    HardlyMoreIsTaken(t, visited[j], x);
  }
}
