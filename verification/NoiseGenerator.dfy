/** The packet loss concealer's noise source: a 32-bit linear congruential
    generator whose state is masked to 31 bits after every draw. */
module NoiseGenerator {
  import opened Arithmetic

  const MULTIPLIER: nat := 69069
  const MASKED: nat := 0x8000_0000

  /** One draw: the product and the increment both wrap modulo 2^32, then bit 31 is cleared. */
  function NextSeed(seed: nat): (next: nat)
    ensures next < MASKED
  {
    (seed * MULTIPLIER % WORD + 1) % WORD % MASKED
  }

  /** The noise lag taken from a seed. */
  function NoiseLag(seed: nat): (lag: nat)
    ensures 50 <= lag <= 119
  {
    50 + seed % 70
  }

  /** The seed after n draws. */
  function Seeds(seed: nat, n: nat): nat {
    if n == 0 then seed else NextSeed(Seeds(seed, n - 1))
  }

  /** 1 + a + ... + a^(n-1) for the generator's multiplier a. */
  function Geometric(n: nat): nat {
    if n == 0 then 0 else MULTIPLIER * Geometric(n - 1) + 1
  }

  lemma MaskAfterWrap(x: nat)
    ensures x % WORD % MASKED == x % MASKED
  {
    DivRem(x, WORD);
    ModAddMultiple(x % WORD, MASKED, 2 * (x / WORD));
  }

  lemma NextSeedIsAffine(seed: nat)
    ensures NextSeed(seed) == (MULTIPLIER * seed + 1) % MASKED
  {
    var x := seed * MULTIPLIER;
    MaskAfterWrap(x % WORD + 1);
    DivRem(x, WORD);
    ModAddMultiple(x % WORD + 1, MASKED, 2 * (x / WORD));
  }

  lemma {:induction false} GeometricClosed(n: nat)
    ensures (MULTIPLIER - 1) * Geometric(n) == Pow(MULTIPLIER, n) - 1
  {
    if n > 0 {
      GeometricClosed(n - 1);
    }
  }

  /** n draws are one affine map modulo 2^31. */
  lemma {:induction false} SeedsAreAffine(seed: nat, n: nat)
    requires seed < MASKED
    ensures Seeds(seed, n) == (Pow(MULTIPLIER, n) * seed + Geometric(n)) % MASKED
  {
    if n > 0 {
      var p, g := Pow(MULTIPLIER, n - 1), Geometric(n - 1);
      SeedsAreAffine(seed, n - 1);
      NextSeedIsAffine(Seeds(seed, n - 1));
      assert MULTIPLIER * (p * seed + g) + 1 == Pow(MULTIPLIER, n) * seed + Geometric(n) by {
        assert Pow(MULTIPLIER, n) * seed == MULTIPLIER * (p * seed) by {
          MulAssoc(MULTIPLIER, p, seed);
        }
      }
      AffineMod(p * seed + g);
    }
  }

  lemma AffineMod(x: nat)
    ensures (MULTIPLIER * (x % MASKED) + 1) % MASKED == (MULTIPLIER * x + 1) % MASKED
  {
    DivRem(x, MASKED);
    ModAddMultiple(MULTIPLIER * (x % MASKED) + 1, MASKED, MULTIPLIER * (x / MASKED));
  }

  lemma {:induction false} PowSplit(m: nat, n: nat)
    ensures Pow(MULTIPLIER, m + n) == Pow(MULTIPLIER, m) * Pow(MULTIPLIER, n)
  {
    if n > 0 {
      PowSplit(m, n - 1);
      assert m + n - 1 == m + (n - 1);
      MulSwap(MULTIPLIER, Pow(MULTIPLIER, m), Pow(MULTIPLIER, n - 1));
    }
  }

  lemma {:induction false} GeometricSplit(m: nat, n: nat)
    ensures Geometric(m + n) == Pow(MULTIPLIER, n) * Geometric(m) + Geometric(n)
  {
    if n > 0 {
      GeometricSplit(m, n - 1);
      assert m + n - 1 == m + (n - 1);
      MulAssoc(MULTIPLIER, Pow(MULTIPLIER, n - 1), Geometric(m));
    }
  }

  /** Powers of the multiplier are 1 modulo 4. */
  lemma {:induction false} PowModFour(n: nat)
    ensures Pow(MULTIPLIER, n) % 4 == 1
  {
    if n > 0 {
      var p := Pow(MULTIPLIER, n - 1);
      PowModFour(n - 1);
      ModAddMultiple(p, 4, 17267 * p);
    }
  }

  lemma OddStep(g: nat, next: nat)
    requires next == 69069 * g + 1
    ensures next % 2 == (g + 1) % 2
  {
    ModAddMultiple(g + 1, 2, 34534 * g);
  }

  lemma {:induction false} GeometricParity(n: nat)
    ensures Geometric(n) % 2 == n % 2
  {
    if n > 0 {
      GeometricParity(n - 1);
      OddStep(Geometric(n - 1), Geometric(n));
    }
  }

  predicate Divides(d: nat, x: int)
    requires d > 0
  {
    x % d == 0
  }

  /** 2^k divides 2x exactly when 2^(k-1) divides x. */
  lemma HalveDivides(k: nat, x: int)
    requires k > 0
    requires Pow(2, k - 1) > 0 && Pow(2, k) > 0
    ensures Divides(Pow(2, k), 2 * x) <==> Divides(Pow(2, k - 1), x)
  {
    var d := Pow(2, k - 1);
    var q, r := x / d, x % d;
    assert 2 * x == (2 * d) * q + 2 * r;
    ModUnique(2 * x, 2 * d, q, 2 * r);
  }

  /** An odd factor never helps a power of two to divide. */
  lemma {:induction false} OddFactor(k: nat, x: int, u: int)
    requires u % 2 == 1
    requires Pow(2, k) > 0
    ensures Divides(Pow(2, k), x * u) <==> Divides(Pow(2, k), x)
  {
    if k == 0 {
    } else if x % 2 == 0 {
      var y := x / 2;
      Pow2Positive(k - 1);
      MulAssoc(2, y, u);
      OddFactor(k - 1, y, u);
      HalveDivides(k, y);
      HalveDivides(k, y * u);
      assert x == 2 * y && x * u == 2 * (y * u);
    } else {
      OddTimesOdd(x, u);
      OddIsNotDivisible(k, x);
      OddIsNotDivisible(k, x * u);
    }
  }

  lemma OddTimesOdd(x: int, u: int)
    requires x % 2 == 1 && u % 2 == 1
    ensures (x * u) % 2 == 1
  {
    var h := u / 2;
    DivRem(u, 2);
    MulSwap(x, 2, h);
    MulDistribute(x, 2 * h, -1);
    ModAddMultiple(x, 2, x * h);
  }

  lemma OddIsNotDivisible(k: nat, x: int)
    requires k > 0 && x % 2 == 1 && Pow(2, k) > 0
    ensures !Divides(Pow(2, k), x)
  {
    var d := Pow(2, k);
    if x % d == 0 {
      var q := x / d;
      assert x == d * q;
      assert d == 2 * Pow(2, k - 1);
      assert x == 2 * (Pow(2, k - 1) * q) by { MulAssoc(2, Pow(2, k - 1), q); }
      assert false;
    }
  }

  lemma DoubleFactor(g: int, p: int, u: int)
    requires p + 1 == 2 * u
    ensures p * g + g == 2 * (g * u)
  {
    assert p * g + g == (p + 1) * g;
    MulAssoc(2, u, g);
  }

  /** Doubling the length multiplies the geometric sum by twice an odd number. */
  lemma GeometricDouble(m: nat) returns (u: int)
    ensures u % 2 == 1
    ensures Geometric(2 * m) == 2 * (Geometric(m) * u)
  {
    var p := Pow(MULTIPLIER, m);
    PowModFour(m);
    DivRem(p, 4);
    u := 2 * (p / 4) + 1;
    ModAddMultiple(1, 2, p / 4);
    GeometricSplit(m, m);
    assert m + m == 2 * m;
    DoubleFactor(Geometric(m), p, u);
  }

  /** The geometric sum carries exactly the factors of two of its length. */
  lemma {:induction false} GeometricValuation(k: nat, n: nat)
    requires Pow(2, k) > 0
    ensures Divides(Pow(2, k), Geometric(n)) <==> Divides(Pow(2, k), n)
  {
    if k == 0 {
    } else if n % 2 == 1 {
      GeometricParity(n);
      OddIsNotDivisible(k, n);
      OddIsNotDivisible(k, Geometric(n));
    } else {
      var m := n / 2;
      Pow2Positive(k - 1);
      var u := GeometricDouble(m);
      GeometricValuation(k - 1, m);
      OddFactor(k - 1, Geometric(m), u);
      HalveDivides(k, Geometric(m) * u);
      HalveDivides(k, m);
      assert n == 2 * m;
    }
  }

  lemma MaskedIsPow2()
    ensures Pow(2, 31) == MASKED
  {
    assert Pow(2, 7) == 128;
    assert Pow(2, 14) == 128 * 128;
    assert Pow(2, 21) == 128 * 128 * 128;
    assert Pow(2, 28) == 128 * 128 * 128 * 128;
  }

  lemma SameResidue(total: nat, seed: nat)
    requires seed < MASKED
    ensures total % MASKED == seed <==> (total - seed) % MASKED == 0
  {
  }

  /** The distance from a seed to its n-th successor, before reduction, is the geometric sum times an odd number. */
  lemma DriftFactors(seed: nat, n: nat)
    ensures Pow(MULTIPLIER, n) * seed + Geometric(n) - seed == Geometric(n) * ((MULTIPLIER - 1) * seed + 1)
  {
    var p, g, c := Pow(MULTIPLIER, n), Geometric(n), MULTIPLIER - 1;
    GeometricClosed(n);
    calc {
      p * seed + g - seed;
      (p - 1) * seed + g;
      (c * g) * seed + g;
      { MulAssoc(c, g, seed); MulSwap(c, g, seed); }
      g * (c * seed) + g;
      g * (c * seed + 1);
    }
  }

  lemma OddMultipleOfGeometric(n: nat, u: int)
    requires u % 2 == 1
    ensures (Geometric(n) * u) % MASKED == 0 <==> n % MASKED == 0
  {
    MaskedIsPow2();
    var d := Pow(2, 31);
    OddFactor(31, Geometric(n), u);
    GeometricValuation(31, n);
    assert Divides(d, Geometric(n) * u) <==> Divides(d, n);
  }

  lemma OddIncrement(seed: nat)
    ensures ((MULTIPLIER - 1) * seed + 1) % 2 == 1
  {
    ModAddMultiple(1, 2, 34534 * seed);
  }

  lemma SmallResidue(x: nat)
    requires x < MASKED
    ensures x % MASKED == x
  {
  }

  /** A seed comes back after n draws exactly when n is a multiple of 2^31. */
  lemma ReturnTime(seed: nat, n: nat)
    requires seed < MASKED
    ensures Seeds(seed, n) == seed <==> n % MASKED == 0
  {
    var total := Pow(MULTIPLIER, n) * seed + Geometric(n);
    var u := (MULTIPLIER - 1) * seed + 1;
    OddIncrement(seed);
    SeedsAreAffine(seed, n);
    SameResidue(total, seed);
    DriftFactors(seed, n);
    OddMultipleOfGeometric(n, u);
  }

  lemma {:induction false} SeedsCompose(seed: nat, i: nat, n: nat)
    ensures Seeds(seed, i + n) == Seeds(Seeds(seed, i), n)
  {
    if n > 0 {
      SeedsCompose(seed, i, n - 1);
      assert i + n - 1 == i + (n - 1);
    }
  }

  lemma {:induction false} SeedsBelow(seed: nat, n: nat)
    requires seed < MASKED
    ensures Seeds(seed, n) < MASKED
  {
    if n > 0 {
      SeedsBelow(seed, n - 1);
    }
  }

  /** Two draws of one stream agree exactly when they lie a multiple of 2^31 apart. */
  lemma DrawsRepeatOnlyAfterFullPeriod(seed: nat, i: nat, j: nat)
    requires seed < MASKED
    requires i <= j
    ensures Seeds(seed, i) == Seeds(seed, j) <==> (j - i) % MASKED == 0
  {
    SeedsBelow(seed, i);
    SeedsCompose(seed, i, j - i);
    ReturnTime(Seeds(seed, i), j - i);
  }

  ghost function Visited(seed: nat, n: nat): set<nat> {
    if n == 0 then {} else Visited(seed, n - 1) + {Seeds(seed, n - 1)}
  }

  ghost function Below(n: nat): set<nat> {
    if n == 0 then {} else Below(n - 1) + {n - 1}
  }

  lemma {:induction false} BelowSize(n: nat)
    ensures |Below(n)| == n
    ensures forall x: nat :: x in Below(n) <==> x < n
  {
    if n > 0 {
      BelowSize(n - 1);
    }
  }

  lemma {:induction false} VisitedMembers(seed: nat, n: nat, x: nat)
    requires x in Visited(seed, n)
    ensures exists i: nat :: i < n && Seeds(seed, i) == x
  {
    if x != Seeds(seed, n - 1) {
      VisitedMembers(seed, n - 1, x);
    }
  }

  lemma EarlyDrawsDiffer(seed: nat, i: nat, n: nat)
    requires seed < MASKED && i < n < MASKED
    ensures Seeds(seed, i) != Seeds(seed, n)
  {
    DrawsRepeatOnlyAfterFullPeriod(seed, i, n);
    SmallResidue(n - i);
  }

  lemma NeverVisitedTwice(seed: nat, n: nat)
    requires seed < MASKED && n < MASKED
    ensures Seeds(seed, n) !in Visited(seed, n)
  {
    if Seeds(seed, n) in Visited(seed, n) {
      VisitedMembers(seed, n, Seeds(seed, n));
      var i: nat :| i < n && Seeds(seed, i) == Seeds(seed, n);
      EarlyDrawsDiffer(seed, i, n);
    }
  }

  lemma {:induction false} VisitedSize(seed: nat, n: nat)
    requires seed < MASKED && n <= MASKED
    ensures |Visited(seed, n)| == n
    ensures forall x <- Visited(seed, n) :: x < MASKED
  {
    if n > 0 {
      VisitedSize(seed, n - 1);
      SeedsBelow(seed, n - 1);
      NeverVisitedTwice(seed, n - 1);
    }
  }

  lemma SubsetOfSameSize(a: set<nat>, b: set<nat>)
    requires a <= b && |a| == |b|
    ensures a == b
  {
    if x :| x in b && x !in a {
      assert a <= b - {x};
      SubsetSize(a, b - {x});
      assert false;
    }
  }

  lemma {:induction false} SubsetSize(a: set<nat>, b: set<nat>)
    requires a <= b
    ensures |a| <= |b|
  {
    if a != {} {
      var x :| x in a;
      SubsetSize(a - {x}, b - {x});
    }
  }

  /** One cycle: from any masked seed every 31-bit value is drawn within 2^31 draws. */
  lemma EveryValueIsDrawn(seed: nat, value: nat)
    requires seed < MASKED && value < MASKED
    ensures exists n: nat :: n < MASKED && Seeds(seed, n) == value
  {
    VisitedSize(seed, MASKED);
    BelowSize(MASKED);
    SubsetOfSameSize(Visited(seed, MASKED), Below(MASKED));
    VisitedMembers(seed, MASKED, value);
  }
}
