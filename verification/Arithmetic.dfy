/** Facts about integer products and Euclidean remainders, each small enough
    to be used by name where a proof needs exactly one of them. */
module Arithmetic {

  /** One more than the greatest 32-bit unsigned number. */
  const WORD: nat := 0x1_0000_0000

  lemma ModUnique(x: int, d: nat, q: int, r: nat)
    requires x == d * q + r && r < d
    ensures x % d == r
  {
    var q', r' := x / d, x % d;
    DivRem(x, d);
    if q != q' {
      MulDistribute(d, q, q');
      MulAtLeast(d, q - q');
      assert false;
    }
  }

  lemma DivRem(x: int, d: nat)
    requires d > 0
    ensures x == d * (x / d) + x % d && 0 <= x % d < d
  {
  }

  lemma MulDistribute(d: int, a: int, b: int)
    ensures d * (a - b) == d * a - d * b
  {
  }

  lemma MulAtLeast(d: int, k: int)
    requires d >= 0
    ensures k > 0 ==> d * k >= d
    ensures k < 0 ==> d * k <= -d
  {
    if k > 0 {
      MulDistribute(d, k, 1);
      MulSign(d, k - 1);
    } else if k < 0 {
      MulDistribute(d, k, -1);
      MulSign(d, -(k + 1));
    }
  }

  lemma MulSign(d: int, k: int)
    requires d >= 0 && k >= 0
    ensures d * k >= 0 && d * -k <= 0
  {
  }

  lemma MulAssoc(a: int, b: int, c: int)
    ensures (a * b) * c == a * (b * c)
  {
  }

  lemma MulSwap(a: int, b: int, c: int)
    ensures a * (b * c) == b * (a * c)
  {
  }

  lemma ModAddMultiple(x: int, d: nat, q: int)
    requires d > 0
    ensures (x + d * q) % d == x % d
  {
    DivRem(x, d);
    MulDistribute(d, x / d, -q);
    ModUnique(x + d * q, d, x / d + q, x % d);
  }

  function Pow(b: nat, n: nat): nat {
    if n == 0 then 1 else b * Pow(b, n - 1)
  }

  lemma {:induction false} Pow2Positive(k: nat)
    ensures Pow(2, k) > 0
  {
    if k > 0 {
      Pow2Positive(k - 1);
    }
  }
}
