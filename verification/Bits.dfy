/** Bit strings, most significant bit first, the numbers they denote, and the
    shifts and masks of the packing code in terms of them. */
module Bits {
  import opened Basics

  function Pow2(n: nat): (p: nat)
    ensures p > 0
  {
    if n == 0 then 1 else 2 * Pow2(n - 1)
  }

  /** The low n bits of v. */
  function ToBits(v: nat, n: nat): (b: seq<bool>)
    ensures |b| == n
  {
    if n == 0 then [] else ToBits(v / 2, n - 1) + [v % 2 == 1]
  }

  function FromBits(b: seq<bool>): nat {
    if b == [] then 0 else 2 * FromBits(b[..|b| - 1]) + (if b[|b| - 1] then 1 else 0)
  }

  function Zeros(n: nat): (b: seq<bool>)
    ensures |b| == n
  {
    seq(n, i => false)
  }

  /** v << n. */
  function ShiftLeft(v: nat, n: nat): nat {
    if n == 0 then v else 2 * ShiftLeft(v, n - 1)
  }

  /** v >> n. */
  function ShiftRight(v: nat, n: nat): nat {
    if n == 0 then v else ShiftRight(v / 2, n - 1)
  }

  /** v & (2^n - 1). */
  function LowBits(v: nat, n: nat): (r: nat)
    ensures r < Pow2(n)
  {
    if n == 0 then 0 else 2 * LowBits(v / 2, n - 1) + v % 2
  }

  /** x | y. */
  function Or(x: nat, y: nat): nat {
    if x == 0 then y else if y == 0 then x
    else 2 * Or(x / 2, y / 2) + (if x % 2 == 1 || y % 2 == 1 then 1 else 0)
  }

  // ---- Numbers and bits ----

  lemma {:induction false} FromToBits(v: nat, n: nat)
    requires v < Pow2(n)
    ensures FromBits(ToBits(v, n)) == v
  {
    if n > 0 {
      FromToBits(v / 2, n - 1);
      assert ToBits(v, n)[..n - 1] == ToBits(v / 2, n - 1);
    }
  }

  lemma {:induction false} ToFromBits(b: seq<bool>)
    ensures FromBits(b) < Pow2(|b|)
    ensures ToBits(FromBits(b), |b|) == b
  {
    if b != [] {
      ToFromBits(b[..|b| - 1]);
    }
  }

  lemma {:induction false} BitsDetermine(x: nat, y: nat, n: nat)
    requires x < Pow2(n) && y < Pow2(n) && ToBits(x, n) == ToBits(y, n)
    ensures x == y
  {
    FromToBits(x, n);
    FromToBits(y, n);
  }

  lemma {:induction false} BitsOfZero(n: nat)
    ensures ToBits(0, n) == Zeros(n)
  {
    if n > 0 {
      BitsOfZero(n - 1);
    }
  }

  lemma {:induction false} BitsOfShiftRight(v: nat, m: nat, k: nat)
    ensures ToBits(v, m + k) == ToBits(ShiftRight(v, k), m) + ToBits(v, k)
    ensures ToBits(v, m + k)[..m] == ToBits(ShiftRight(v, k), m)
    ensures ToBits(v, m + k)[m..] == ToBits(v, k)
  {
    if k > 0 {
      BitsOfShiftRight(v / 2, m, k - 1);
      assert m + k - 1 == m + (k - 1);
      assert ToBits(v, m + k) == ToBits(ShiftRight(v, k), m) + (ToBits(v / 2, k - 1) + [v % 2 == 1]);
    } else {
      assert ToBits(v, m + 0) == ToBits(v, m) + [];
    }
  }

  lemma {:induction false} ShiftRightBelow(v: nat, m: nat, k: nat)
    requires v < Pow2(m + k)
    ensures ShiftRight(v, k) < Pow2(m)
  {
    if k > 0 {
      assert m + k - 1 == m + (k - 1);
      ShiftRightBelow(v / 2, m, k - 1);
    }
  }

  /** A number with n appended bits: its bits, then theirs. */
  lemma {:induction false} BitsOfAppend(x: nat, m: nat, y: nat, n: nat)
    requires y < Pow2(n)
    ensures ToBits(ShiftLeft(x, n) + y, m + n) == ToBits(x, m) + ToBits(y, n)
    ensures x < Pow2(m) ==> ShiftLeft(x, n) + y < Pow2(m + n)
  {
    if n > 0 {
      BitsOfAppend(x, m, y / 2, n - 1);
      var z := ShiftLeft(x, n - 1) + y / 2;
      assert ShiftLeft(x, n) + y == 2 * z + y % 2;
      assert m + n - 1 == m + (n - 1);
      assert ToBits(x, m) + ToBits(y, n) == (ToBits(x, m) + ToBits(y / 2, n - 1)) + [y % 2 == 1];
    } else {
      assert ToBits(x, m) + [] == ToBits(x, m);
    }
  }

  lemma BitsOfShiftLeft(x: nat, m: nat, n: nat)
    ensures ToBits(ShiftLeft(x, n), m + n) == ToBits(x, m) + Zeros(n)
    ensures x < Pow2(m) ==> ShiftLeft(x, n) < Pow2(m + n)
  {
    BitsOfAppend(x, m, 0, n);
    BitsOfZero(n);
  }

  lemma {:induction false} BitsOfLowBits(v: nat, n: nat)
    ensures ToBits(LowBits(v, n), n) == ToBits(v, n)
  {
    if n > 0 {
      BitsOfLowBits(v / 2, n - 1);
    }
  }

  /** What is left of v when its upper part is taken away. */
  lemma {:induction false} UpperAndLower(v: nat, n: nat)
    ensures v == ShiftLeft(ShiftRight(v, n), n) + LowBits(v, n)
  {
    if n > 0 {
      UpperAndLower(v / 2, n - 1);
    }
  }

  lemma {:induction false} BitsOfOr(x: nat, y: nat, n: nat)
    ensures forall i | 0 <= i < n :: ToBits(Or(x, y), n)[i] == (ToBits(x, n)[i] || ToBits(y, n)[i])
  {
    if n > 0 {
      if x == 0 || y == 0 {
        BitsOfZero(n);
      } else {
        BitsOfOr(x / 2, y / 2, n - 1);
      }
    }
  }

  lemma {:induction false} OrBelow(x: nat, y: nat, n: nat)
    requires x < Pow2(n) && y < Pow2(n)
    ensures Or(x, y) < Pow2(n)
  {
    if n > 0 && x > 0 && y > 0 {
      OrBelow(x / 2, y / 2, n - 1);
    }
  }

  // ---- Bytes ----

  function BytesToBits(s: seq<Byte>): (b: seq<bool>)
    ensures |b| == 8 * |s|
  {
    if s == [] then [] else BytesToBits(s[..|s| - 1]) + ToBits(s[|s| - 1], 8)
  }

  lemma {:induction false} BytesToBitsAt(s: seq<Byte>, i: nat)
    requires i < |s|
    ensures BytesToBits(s)[..8 * i] == BytesToBits(s[..i])
    ensures BytesToBits(s)[8 * i..8 * i + 8] == ToBits(s[i], 8)
  {
    if i == |s| - 1 {
      assert s[..i] == s[..|s| - 1];
    } else {
      var front := s[..|s| - 1];
      BytesToBitsAt(front, i);
      assert front[..i] == s[..i];
      assert BytesToBits(s)[..8 * |front|] == BytesToBits(front);
      assert BytesToBits(s)[..8 * i] == BytesToBits(s)[..8 * |front|][..8 * i];
      assert BytesToBits(s)[8 * i..8 * i + 8] == BytesToBits(s)[..8 * |front|][8 * i..8 * i + 8];
    }
  }

  lemma ByteIsEightBits()
    ensures Pow2(8) == 256
  {
  }

  lemma {:induction false} BytesToBitsInjective(s: seq<Byte>, t: seq<Byte>)
    requires BytesToBits(s) == BytesToBits(t)
    ensures s == t
  {
    if s != [] {
      var n := |s| - 1;
      assert |t| == |s|;
      BytesToBitsAt(s, n);
      BytesToBitsAt(t, n);
      BytesToBitsInjective(s[..n], t[..n]);
      ByteIsEightBits();
      BitsDetermine(s[n], t[n], 8);
      assert s == s[..n] + [s[n]];
      assert t == t[..n] + [t[n]];
    }
  }
}
