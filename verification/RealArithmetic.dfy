/** Facts about products and quotients of reals, each used by name where a proof needs it. */
module RealArithmetic {

  function Abs(x: real): real {
    if x < 0.0 then -x else x
  }

  /** Stands in for a quotient whose divisor is zero; no result depends on that value except where a caller says so. */
  function Quotient(x: real, y: real): real {
    if y == 0.0 then 0.0 else x / y
  }

  lemma PositiveProduct(x: real, y: real) returns (p: real)
    requires x > 0.0 && y > 0.0
    ensures p == x * y && p > 0.0
  {
    p := x * y;
  }

  lemma PositiveSquare(v: real) returns (s: real)
    requires v != 0.0
    ensures s == v * v && s > 0.0
  {
    var magnitude := if v > 0.0 then v else -v;
    s := PositiveProduct(magnitude, magnitude);
  }

  lemma NonNegativeSquare(v: real) returns (s: real)
    ensures s == v * v && s >= 0.0
  {
    if v == 0.0 {
      s := 0.0;
    } else {
      s := PositiveSquare(v);
    }
  }

  lemma NonNegativeProduct(x: real, y: real) returns (p: real)
    requires x >= 0.0 && y >= 0.0
    ensures p == x * y && p >= 0.0
  {
    if x == 0.0 || y == 0.0 {
      p := 0.0;
    } else {
      p := PositiveProduct(x, y);
    }
  }

  lemma ZeroProduct(x: real, y: real)
    requires x * y == 0.0 && y > 0.0
    ensures x == 0.0
  {
    if x > 0.0 {
      var p := PositiveProduct(x, y);
    } else if x < 0.0 {
      var p := PositiveProduct(-x, y);
    }
  }

  /** A non-negative factor scales bounds. */
  lemma ScaleWithin(f: real, x: real, peak: real)
    requires 0.0 <= f && -peak <= x <= peak
    ensures -(f * peak) <= f * x <= f * peak
  {
    var p := NonNegativeProduct(f, peak - x);
    var q := NonNegativeProduct(f, peak + x);
    assert f * (peak - x) == f * peak - f * x && f * (peak + x) == f * peak + f * x;
  }
}
