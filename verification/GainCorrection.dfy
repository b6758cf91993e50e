/** What searchCodebook's final correction of the first gain does to the vector that the decoder will build: the later
    gains were quantised relative to the first one, and follow it only where their floor of 0.1 does not act. */
module GainCorrection {
  import opened Basics
  import opened RealArithmetic
  import opened Vectors
  import opened GainQuantisation
  import opened CodebookSearch
  import opened StagedSearch

  // ---- When the first gain index is raised ----

  /** The correction raises the index exactly if the next entry already keeps the built vector below the target. */
  lemma RaisedExactly(sq5: seq<real>, g0: nat, cene: real, tene: real, j: nat)
    requires |sq5| == 32 && PositiveRising(sq5) && g0 < 32 && cene >= 0.0 && Corrected(sq5, g0, cene, tene, j)
    ensures j > g0 <==> g0 < 31 && Quieter(sq5, cene, tene, sq5[g0], g0 + 1)
  {
    if j > g0 {
      QuieterBelow(sq5, cene, tene, sq5[g0], g0 + 1, j);
    } else if g0 < 31 {
      assert sq5[g0] < 2.0 * sq5[g0];
    }
  }

  // ---- When the later gains follow ----

  /** A code's gain indices fit the tables. */
  predicate Coded(f: seq<nat>) {
    |f| == STAGES && forall s: nat | s < STAGES :: f[s] < LEVELS[s]
  }

  function Ratio(t: Tables, f: seq<nat>, j: nat): real
    requires ValidTables(t) && PositiveRising(t.sq5) && Coded(f) && j < 32
  {
    t.sq5[j] / t.sq5[f[0]]
  }

  /** Raising the first gain index to j multiplies every gain by the same ratio. */
  predicate GainsFollow(t: Tables, f: seq<nat>, j: nat)
    requires ValidTables(t) && PositiveRising(t.sq5) && Coded(f) && j < 32
  {
    forall s: nat | s < STAGES :: GainOf(t, f[0 := j], s) == Ratio(t, f, j) * GainOf(t, f, s)
  }

  /** The floor of 0.1 does not act on any gain that matters. */
  predicate NoFloor(t: Tables, f: seq<nat>)
    requires ValidTables(t) && Coded(f)
  {
    && (t.sq5[f[0]] >= 0.1 || t.sq4[f[1]] == 0.0)
    && (Abs(GainOf(t, f, 1)) >= 0.1 || t.sq3[f[2]] == 0.0)
  }

  /** A gain: a level relative to the gain before. */
  function Relative(previous: real, level: real): real {
    Scale(Abs(previous)) * level
  }

  lemma RatioIs(x: real, y: real) returns (rho: real)
    requires 0.0 < x < y
    ensures rho == y / x && rho > 1.0 && rho * x == y
  {
    rho := y / x;
    if rho <= 1.0 {
      var p := NonNegativeProduct(1.0 - rho, x);
    }
  }

  /** One gain relative to another that has been multiplied by rho. */
  lemma RelativeFollows(rho: real, previous: real, raised: real, level: real)
    requires rho > 1.0 && raised == rho * previous
    ensures Relative(raised, level) == rho * Relative(previous, level)
            <==> Abs(previous) >= 0.1 || level == 0.0
  {
    var a := Abs(previous);
    assert Abs(raised) == rho * a by {
      var p := NonNegativeProduct(rho, a);
      assert previous < 0.0 ==> raised == -p;
    }
    var step, above := Scale(a), Scale(rho * a);
    if a >= 0.1 {
      var p := NonNegativeProduct(rho - 1.0, a);
      assert p == rho * a - a;
      assert above == rho * step;
      Regroup(rho, step, above, level);
    } else {
      var p := PositiveProduct(rho, 0.1 - a);
      assert p == rho * 0.1 - rho * a;
      assert step == 0.1 && above < rho * step;
      Differs(rho, step, above, level);
    }
  }

  lemma Regroup(rho: real, step: real, above: real, level: real)
    requires above == rho * step
    ensures above * level == rho * (step * level)
  {
  }

  lemma Differs(rho: real, step: real, above: real, level: real)
    requires above < rho * step
    ensures above * level == rho * (step * level) <==> level == 0.0
  {
    var gap := rho * step - above;
    assert rho * (step * level) - above * level == gap * level;
    if level > 0.0 {
      var p := PositiveProduct(gap, level);
    } else if level < 0.0 {
      var p := PositiveProduct(gap, -level);
      assert gap * level == -p;
    }
  }

  /** The three gains of a code. */
  lemma GainsAreTabled(t: Tables, f: seq<nat>)
    requires ValidTables(t) && Coded(f)
    ensures GainOf(t, f, 0) == t.sq5[f[0]]
    ensures GainOf(t, f, 1) == Relative(GainOf(t, f, 0), t.sq4[f[1]])
    ensures GainOf(t, f, 2) == Relative(GainOf(t, f, 1), t.sq3[f[2]])
  {
  }

  /** The scalar core: three gains, each a level relative to the one before. */
  lemma ThreeFollow(rho: real, g: seq<real>, r: seq<real>, level1: real, level2: real)
    requires |g| == |r| == 3 && rho > 1.0 && r[0] == rho * g[0]
    requires g[1] == Relative(g[0], level1) && r[1] == Relative(r[0], level1)
    requires g[2] == Relative(g[1], level2) && r[2] == Relative(r[1], level2)
    ensures r[1] == rho * g[1] && r[2] == rho * g[2]
            <==> (Abs(g[0]) >= 0.1 || level1 == 0.0) && (Abs(g[1]) >= 0.1 || level2 == 0.0)
  {
    hide Relative, Abs;
    RelativeFollows(rho, g[0], r[0], level1);
    if r[1] == rho * g[1] {
      RelativeFollows(rho, g[1], r[1], level2);
    }
  }

  lemma FirstGains(t: Tables, f: seq<nat>, j: nat) returns (rho: real)
    requires ValidTables(t) && PositiveRising(t.sq5) && Coded(f) && f[0] < j < 32
    ensures rho == Ratio(t, f, j) && rho > 1.0
    ensures GainOf(t, f[0 := j], 0) == rho * GainOf(t, f, 0) && Abs(GainOf(t, f, 0)) == t.sq5[f[0]]
  {
    FirstGain(t, f);
    FirstGain(t, f[0 := j]);
    assert 0.0 < t.sq5[f[0]] < t.sq5[j];
    hide GainOf, PositiveRising;
    rho := RatioIs(t.sq5[f[0]], t.sq5[j]);
  }

  /** Raising the first gain multiplies all three gains alike exactly if no floor acts. */
  lemma FollowsExactly(t: Tables, f: seq<nat>, j: nat)
    requires ValidTables(t) && PositiveRising(t.sq5) && Coded(f) && f[0] < j < 32
    ensures GainsFollow(t, f, j) <==> NoFloor(t, f)
  {
    hide GainOf, Ratio, Scale, Abs, Relative, PositiveRising;
    var r := f[0 := j];
    GainsAreTabled(t, f);
    GainsAreTabled(t, r);
    var rho := FirstGains(t, f, j);
    ThreeFollow(rho, [GainOf(t, f, 0), GainOf(t, f, 1), GainOf(t, f, 2)],
                [GainOf(t, r, 0), GainOf(t, r, 1), GainOf(t, r, 2)], t.sq4[f[1]], t.sq3[f[2]]);
  }

  // ---- What the raised code decodes to ----

  function Scaled(rho: real, u: seq<real>): (v: seq<real>)
    ensures |v| == |u|
  {
    seq(|u|, i requires 0 <= i < |u| => rho * u[i])
  }

  lemma StepScales(rho: real, u: real, g: real, v: real)
    ensures rho * u + (rho * g) * v == rho * (u + g * v)
  {
  }

  lemma PlusScales(rho: real, u: seq<real>, g: real, v: seq<real>)
    requires |u| == |v|
    ensures PlusScaled(Scaled(rho, u), rho * g, v) == Scaled(rho, PlusScaled(u, g, v))
  {
    forall i | 0 <= i < |u|
      ensures PlusScaled(Scaled(rho, u), rho * g, v)[i] == Scaled(rho, PlusScaled(u, g, v))[i]
    {
      StepScales(rho, u[i], g, v[i]);
    }
  }

  lemma {:induction false} BuiltScales(k: Book, t: Tables, index: seq<nat>, f: seq<nat>, j: nat, n: nat)
    requires ValidBook(k) && ValidTables(t) && PositiveRising(t.sq5) && Coded(f) && j < 32 && GainsFollow(t, f, j)
    requires Chain(k, index, f, n) && Chain(k, index, f[0 := j], n)
    ensures Built(k, t, index, f[0 := j], n) == Scaled(Ratio(t, f, j), Built(k, t, index, f, n))
  {
    hide Ratio, GainOf, PositiveRising, Vector;
    if n == 0 {
      assert Built(k, t, index, f[0 := j], 0) == Scaled(Ratio(t, f, j), Built(k, t, index, f, 0));
    } else {
      BuiltScales(k, t, index, f, j, n - 1);
      var rho, r, v := Ratio(t, f, j), f[0 := j], Vector(k, index[n - 1]);
      var u, g := Built(k, t, index, f, n - 1), GainOf(t, f, n - 1);
      assert GainOf(t, r, n - 1) == rho * g;
      assert Built(k, t, index, r, n) == PlusScaled(Scaled(rho, u), rho * g, v);
      assert Built(k, t, index, f, n) == PlusScaled(u, g, v);
      PlusScales(rho, u, g, v);
    }
  }

  lemma {:induction false} DotScales(rho: real, u: seq<real>, n: nat)
    requires n <= |u|
    ensures Dot(Scaled(rho, u), Scaled(rho, u), n) == rho * rho * Dot(u, u, n)
  {
    if n > 0 {
      DotScales(rho, u, n - 1);
      SquareScales(rho, u[n - 1], Dot(u, u, n - 1));
    }
  }

  lemma SquareScales(rho: real, x: real, sum: real)
    ensures rho * rho * sum + (rho * x) * (rho * x) == rho * rho * (sum + x * x)
  {
  }

  lemma QuieterByRatio(x: real, y: real, rho: real, cene: real, tene: real)
    requires 0.0 < x && rho * x == y && cene * y * y < tene * x * x
    ensures rho * rho * cene < tene
  {
    var loud := rho * rho * cene;
    var square := PositiveSquare(x);
    assert cene * y * y == loud * square && tene * x * x == tene * square;
    if loud >= tene {
      var p := NonNegativeProduct(loud - tene, square);
    }
  }

  lemma RaisedEnergy(u: seq<real>, sq5: seq<real>, g0: nat, j: nat, tene: real)
    requires |sq5| == 32 && PositiveRising(sq5) && g0 < j < 32 && Corrected(sq5, g0, Energy(u), tene, j)
    ensures Energy(u) <= Energy(Scaled(sq5[j] / sq5[g0], u)) < tene
  {
    var x, y := sq5[g0], sq5[j];
    var rho := RatioIs(x, y);
    DotScales(rho, u, |u|);
    EnergyNonNegative(u, |u|);
    QuieterByRatio(x, y, rho, Energy(u), tene);
    ScaledSquares(Energy(u), 1.0, rho);
  }

  /** Where the gains follow, the correction keeps its word: the vector that the raised code decodes to is the built
      one, multiplied by the ratio of the levels, and still has less energy than the target. */
  lemma RaisedStaysQuieter(k: Book, t: Tables, index: seq<nat>, f: seq<nat>, target: seq<real>, j: nat)
    requires ValidBook(k) && ValidTables(t) && PositiveRising(t.sq5) && Coded(f) && j > f[0]
    requires Chain(k, index, f, STAGES) && Chain(k, index, f[0 := j], STAGES)
    requires Corrected(t.sq5, f[0], Energy(Built(k, t, index, f, STAGES)), Energy(target), j) && NoFloor(t, f)
    ensures Built(k, t, index, f[0 := j], STAGES) == Scaled(Ratio(t, f, j), Built(k, t, index, f, STAGES))
    ensures Energy(Built(k, t, index, f, STAGES)) <= Energy(Built(k, t, index, f[0 := j], STAGES)) < Energy(target)
  {
    FollowsExactly(t, f, j);
    BuiltScales(k, t, index, f, j, STAGES);
    hide Built, Vector, NoFloor, GainsFollow, Energy, Scaled, Corrected;
    RaisedEnergy(Built(k, t, index, f, STAGES), t.sq5, f[0], j, Energy(target));
  }
}
