/** Inner products and energies of blocks of samples. */
module Vectors {
  import opened RealArithmetic

  function Dot(u: seq<real>, v: seq<real>, n: nat): real
    requires n <= |u| && n <= |v|
  {
    if n == 0 then 0.0 else Dot(u, v, n - 1) + u[n - 1] * v[n - 1]
  }

  function Energy(u: seq<real>): real {
    Dot(u, u, |u|)
  }

  lemma {:induction false} EnergyNonNegative(u: seq<real>, n: nat)
    requires n <= |u|
    ensures Dot(u, u, n) >= 0.0
  {
    if n > 0 {
      EnergyNonNegative(u, n - 1);
      var s := NonNegativeSquare(u[n - 1]);
    }
  }

  /** Only the samples under the sum matter. */
  lemma {:induction false} DotPrefix(u: seq<real>, v: seq<real>, u': seq<real>, v': seq<real>, n: nat)
    requires n <= |u| && n <= |v| && n <= |u'| && n <= |v'|
    requires forall i: nat | i < n :: u[i] == u'[i] && v[i] == v'[i]
    ensures Dot(u, v, n) == Dot(u', v', n)
  {
    if n > 0 {
      DotPrefix(u, v, u', v', n - 1);
    }
  }

  method DotProduct(u: seq<real>, v: seq<real>) returns (sum: real)
    requires |u| == |v|
    ensures sum == Dot(u, v, |u|)
  {
    sum := 0.0;
    for i := 0 to |u|
      invariant sum == Dot(u, v, i)
    {
      sum := sum + u[i] * v[i];
    }
  }
}
