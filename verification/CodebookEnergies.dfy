/** Energies of codebook vectors: the running updates of the search against the
    direct sums of squares. */
module CodebookEnergies {
  import opened Basics
  import opened Vectors
  import opened Codebook

  /** The codebook over exact reals, for given filter taps. */
  function Reals(taps: seq<real>): Arith<real> {
    Arith(0.0, 1.0, 0.2, (x: real, y: real) => x + y, (x: real, y: real) => x - y, (x: real, y: real) => x * y, taps)
  }

  function Squares(s: seq<real>, lo: nat, hi: nat): real
    requires lo <= hi <= |s|
  {
    if lo == hi then 0.0 else Squares(s, lo, hi - 1) + s[hi - 1] * s[hi - 1]
  }

  lemma {:induction false} SquaresFront(s: seq<real>, lo: nat, hi: nat)
    requires lo < hi <= |s|
    ensures Squares(s, lo, hi) == s[lo] * s[lo] + Squares(s, lo + 1, hi)
  {
    if lo + 1 < hi {
      SquaresFront(s, lo, hi - 1);
    }
  }

  lemma {:induction false} DotIsSquares(s: seq<real>, lo: nat, v: seq<real>, n: nat)
    requires lo + n <= |s| && n <= |v|
    requires forall i: nat | i < n :: v[i] == s[lo + i]
    ensures Dot(v, v, n) == Squares(s, lo, lo + n)
  {
    if n > 0 {
      DotIsSquares(s, lo, v, n - 1);
    }
  }

  lemma SectionEnergy(s: seq<real>, back: nat, veclen: nat)
    requires veclen + back <= |s|
    ensures Energy(Section(s, back, veclen)) == Squares(s, |s| - veclen - back, |s| - back)
  {
    DotIsSquares(s, |s| - veclen - back, Section(s, back, veclen), veclen);
  }

  /** One delay further: a sample enters at the front and one leaves at the end. */
  lemma Slide(s: seq<real>, back: nat, veclen: nat, entering: real, leaving: real)
    requires 0 < back && 0 < veclen && veclen + back <= |s|
    requires entering == s[|s| - veclen - back] && leaving == s[|s| - back]
    ensures Energy(Section(s, back, veclen))
         == Energy(Section(s, back - 1, veclen)) + entering * entering - leaving * leaving
  {
    SectionEnergy(s, back, veclen);
    SectionEnergy(s, back - 1, veclen);
    SquaresFront(s, |s| - veclen - back, |s| - back + 1);
  }

  /** Up to the cross-fade, and at its first sample, an augmented vector repeats the end of the memory. */
  lemma AugmentedStart(taps: seq<real>, s: seq<real>, icount: nat)
    requires 20 <= icount <= 39 && 2 * icount <= |s|
    ensures var v := Augmented(Reals(taps), s, 2 * icount, SUBFRAME);
            && Dot(v, v, icount - 4) == Squares(s, |s| - icount, |s| - 4)
            && forall i: nat | i < icount - 4 :: v[i] == s[|s| - icount + i]
  {
    var v := Augmented(Reals(taps), s, 2 * icount, SUBFRAME);
    forall i: nat | i < icount - 4
      ensures v[i] == s[|s| - icount + i]
    {
      assert Alfa(Reals(taps), 0) == 0.0;
    }
    DotIsSquares(s, |s| - icount, v, icount - 4);
  }

  /** The four samples after that are faded. */
  lemma AugmentedFade(taps: seq<real>, s: seq<real>, icount: nat, j: nat, alfa: real)
    requires 20 <= icount <= 39 && 2 * icount <= |s| && icount - 4 <= j < icount
    requires alfa == Alfa(Reals(taps), j - (icount - 5))
    ensures Augmented(Reals(taps), s, 2 * icount, SUBFRAME)[j]
         == (1.0 - alfa) * s[|s| - icount + j] + alfa * s[|s| - 2 * icount + j]
  {
  }

  lemma NextAlfa(taps: seq<real>, k: nat)
    ensures Alfa(Reals(taps), 0) == 0.0 && Alfa(Reals(taps), k + 1) == Alfa(Reals(taps), k) + 0.2
  {
  }

  /** A sample joins both running sums. */
  lemma SumsGrow(target: seq<real>, v: seq<real>, j: nat, x: real)
    requires j < |v| && j < |target| && x == v[j]
    ensures Dot(v, v, j + 1) == Dot(v, v, j) + x * x
    ensures Dot(target, v, j + 1) == Dot(target, v, j) + target[j] * x
  {
  }

  /** The correlation with samples of the buffer that lie side by side in the vector too. */
  method PlainPart(s: seq<real>, off: nat, target: seq<real>, n: nat, ghost v: seq<real>) returns (crossDot: real)
    requires off + n <= |s| && n <= |target| && n <= |v|
    requires forall j: nat | j < n :: v[j] == s[off + j]
    ensures crossDot == Dot(target, v, n)
  {
    crossDot := 0.0;
    for j := 0 to n
      invariant crossDot == Dot(target, v, j)
    {
      crossDot := crossDot + target[j] * s[off + j];
    }
  }

  method FadedPart(taps: seq<real>, s: seq<real>, target: seq<real>, icount: nat, energy0: real, crossDot0: real,
                   ghost v: seq<real>)
    returns (energy: real, crossDot: real)
    requires 20 <= icount <= 39 && 2 * icount <= |s| && |target| == SUBFRAME
    requires v == Augmented(Reals(taps), s, 2 * icount, SUBFRAME)
    requires energy0 == Dot(v, v, icount - 4) && crossDot0 == Dot(target, v, icount - 4)
    ensures energy == Dot(v, v, icount) && crossDot == Dot(target, v, icount)
  {
    energy, crossDot := energy0, crossDot0;
    var alfa := 0.2;
    NextAlfa(taps, 0);
    for j := icount - 4 to icount
      invariant energy == Dot(v, v, j) && crossDot == Dot(target, v, j)
      invariant alfa == Alfa(Reals(taps), j - (icount - 5))
    {
      var weighted := (1.0 - alfa) * s[|s| - icount + j] + alfa * s[|s| - 2 * icount + j];
      AugmentedFade(taps, s, icount, j, alfa);
      SumsGrow(target, v, j, weighted);
      NextAlfa(taps, j - (icount - 5));
      energy := energy + weighted * weighted;
      crossDot := crossDot + target[j] * weighted;
      alfa := alfa + 0.2;
    }
  }

  method RepeatedPart(taps: seq<real>, s: seq<real>, target: seq<real>, icount: nat, energy0: real, crossDot0: real,
                      ghost v: seq<real>)
    returns (energy: real, crossDot: real)
    requires 20 <= icount <= 39 && 2 * icount <= |s| && |target| == SUBFRAME
    requires v == Augmented(Reals(taps), s, 2 * icount, SUBFRAME)
    requires energy0 == Dot(v, v, icount) && crossDot0 == Dot(target, v, icount)
    ensures energy == Dot(v, v, SUBFRAME) && crossDot == Dot(target, v, SUBFRAME)
  {
    energy, crossDot := energy0, crossDot0;
    for j := icount to SUBFRAME
      invariant energy == Dot(v, v, j) && crossDot == Dot(target, v, j)
    {
      var x := s[|s| - 2 * icount + j];
      SumsGrow(target, v, j, x);
      energy := energy + x * x;
      crossDot := crossDot + target[j] * x;
    }
  }

  /** searchAugmentedCB's sums for one delay, continued from the recursively kept energy of the unfaded part. */
  method AugmentedSums(taps: seq<real>, s: seq<real>, target: seq<real>, icount: nat, nrj: real)
    returns (energy: real, crossDot: real)
    requires 20 <= icount <= 39 && 2 * icount <= |s| && |target| == SUBFRAME
    requires nrj == Squares(s, |s| - icount, |s| - 4)
    ensures var v := Augmented(Reals(taps), s, 2 * icount, SUBFRAME);
            energy == Energy(v) && crossDot == Dot(target, v, SUBFRAME)
  {
    ghost var v := Augmented(Reals(taps), s, 2 * icount, SUBFRAME);
    AugmentedStart(taps, s, icount);
    crossDot := PlainPart(s, |s| - icount, target, icount - 4, v);
    energy, crossDot := FadedPart(taps, s, target, icount, nrj, crossDot, v);
    energy, crossDot := RepeatedPart(taps, s, target, icount, energy, crossDot, v);
  }

  /** Over the reals the cross-fade begins with the memory's own end, and where that end repeats itself after k / 2
      samples the whole vector is the continuation of the repetition. */
  lemma AugmentedContinues(taps: seq<real>, m: seq<real>, k: nat, j: nat)
    requires 10 <= k <= |m| && k % 2 == 0 && j < k
    ensures j <= k / 2 - 5 ==> AugmentedAt(Reals(taps), m, k, j) == m[|m| - k / 2 + j]
    ensures j >= k / 2 || m[|m| - k + j] == m[|m| - k / 2 + j] ==>
              AugmentedAt(Reals(taps), m, k, j) == m[|m| - k / 2 + if j < k / 2 then j else j - k / 2]
  {
    var ar, high := Reals(taps), k / 2;
    if high - 5 <= j < high {
      FadeEnds(taps, Alfa(ar, j - (high - 5)), m[|m| - high + j], m[|m| - k + j]);
    }
  }

  lemma FadeEnds(taps: seq<real>, alfa: real, x: real, y: real)
    ensures alfa == 0.0 ==> Fade(Reals(taps), alfa, x, y) == x
    ensures x == y ==> Fade(Reals(taps), alfa, x, y) == x
  {
  }
}
