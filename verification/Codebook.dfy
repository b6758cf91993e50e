/** The adaptive codebook over any arithmetic: the vectors that an index denotes,
    the decoder's reconstruction of one of them, and the encoder's extraction
    from its filtered copy of the memory. Sums and products are taken in the order
    of the code, so results agree bit for bit whatever the rounding. */
module Codebook {
  import opened Basics

  /** The operations of a number type, and the constants the codebook needs. */
  datatype Arith<!F> = Arith(zero: F, one: F, fifth: F, add: (F, F) -> F, sub: (F, F) -> F, mul: (F, F) -> F,
                             taps: seq<F>)

  const TAPS: nat := 8

  ghost predicate Valid<F>(ar: Arith<F>) {
    |ar.taps| == TAPS
  }

  /** Number of base vectors without augmentation. */
  function Plain(lMem: nat, veclen: nat): nat
    requires veclen <= lMem
  {
    lMem - veclen + 1
  }

  /** Number of vectors of the base codebook; only full subframes have augmented vectors. */
  function BaseSize(lMem: nat, veclen: nat): nat
    requires veclen <= lMem
  {
    if veclen == SUBFRAME then Plain(lMem, veclen) + veclen / 2 else Plain(lMem, veclen)
  }

  /** The memory extended by zeros. */
  function At<F>(ar: Arith<F>, m: seq<F>, i: int): F {
    if 0 <= i < |m| then m[i] else ar.zero
  }

  /** The first n taps of the codebook filter at position p. */
  function FilterSum<F>(ar: Arith<F>, m: seq<F>, p: int, n: nat): F
    requires Valid(ar) && n <= TAPS
  {
    if n == 0 then ar.zero
    else ar.add(FilterSum(ar, m, p, n - 1), ar.mul(At(ar, m, p - 3 + (n - 1)), ar.taps[TAPS - n]))
  }

  /** The whole memory filtered. */
  function Filtered<F>(ar: Arith<F>, m: seq<F>): (c: seq<F>)
    requires Valid(ar)
    ensures |c| == |m|
  {
    seq(|m|, p requires 0 <= p < |m| => FilterSum(ar, m, p, TAPS))
  }

  /** The cross-fade weight after k steps. */
  function Alfa<F>(ar: Arith<F>, k: nat): F {
    if k == 0 then ar.zero else ar.add(Alfa(ar, k - 1), ar.fifth)
  }

  function Fade<F>(ar: Arith<F>, alfa: F, x: F, y: F): F {
    ar.add(ar.mul(ar.sub(ar.one, alfa), x), ar.mul(alfa, y))
  }

  predicate AugmentedFits(lMem: nat, k: nat, veclen: nat) {
    10 <= k <= lMem && k / 2 <= veclen <= k
  }

  /** Sample j of the vector that ends the memory and continues with its own beginning, cross-faded over five samples:
      the last k / 2 samples, then the k / 2 before them again. */
  function AugmentedAt<F>(ar: Arith<F>, m: seq<F>, k: nat, j: nat): F
    requires 10 <= k <= |m| && j < k
  {
    var high := k / 2;
    if j < high - 5 then m[|m| - high + j]
    else if j < high then Fade(ar, Alfa(ar, j - (high - 5)), m[|m| - high + j], m[|m| - k + j])
    else m[|m| - k + j]
  }

  function Augmented<F>(ar: Arith<F>, m: seq<F>, k: nat, veclen: nat): (v: seq<F>)
    requires AugmentedFits(|m|, k, veclen)
    ensures |v| == veclen
  {
    seq(veclen, j requires 0 <= j < veclen => AugmentedAt(ar, m, k, j))
  }

  /** veclen samples of s, `back` samples before its end. */
  function Section<F>(s: seq<F>, back: nat, veclen: nat): (v: seq<F>)
    requires veclen + back <= |s|
    ensures |v| == veclen
  {
    s[|s| - veclen - back..|s| - back]
  }

  /** Positions for which the reconstruction stays inside one section's memory. */
  predicate PositionFits(lMem: nat, veclen: nat, position: nat) {
    && 10 <= veclen <= SUBFRAME && veclen <= lMem
    && (position >= Plain(lMem, veclen) ==>
          AugmentedFits(lMem, 2 * (position - Plain(lMem, veclen)) + veclen, veclen))
  }

  /** The vector at a position of one section: a delay, or an augmented vector. */
  function SectionVector<F>(ar: Arith<F>, s: seq<F>, position: nat, veclen: nat): (v: seq<F>)
    requires PositionFits(|s|, veclen, position)
    ensures |v| == veclen
  {
    var plain := Plain(|s|, veclen);
    if position < plain then Section(s, position, veclen)
    else Augmented(ar, s, 2 * (position - plain) + veclen, veclen)
  }

  /** Indices for which the reconstruction stays inside the memory. */
  predicate IndexFits(lMem: nat, veclen: nat, index: nat) {
    && veclen <= lMem
    && PositionFits(lMem, veclen, if index < BaseSize(lMem, veclen) then index else index - BaseSize(lMem, veclen))
  }

  /** The vector that an index denotes: the base codebook's delays and augmented vectors, and the same again over the
      filtered memory. */
  function CodeVector<F>(ar: Arith<F>, m: seq<F>, index: nat, veclen: nat): (v: seq<F>)
    requires Valid(ar) && IndexFits(|m|, veclen, index)
    ensures |v| == veclen
  {
    var base := BaseSize(|m|, veclen);
    if index < base then SectionVector(ar, m, index, veclen)
      else SectionVector(ar, Filtered(ar, m), index - base, veclen)
  }

  // ---- The encoder's side ----

  /** The tap loop at one position of a zero-padded copy of the memory with `left` zeros in front. */
  method TapLoop<F(0)>(ar: Arith<F>, padded: seq<F>, left: nat, ghost m: seq<F>, at: nat) returns (sum: F)
    requires Valid(ar) && at + TAPS <= |padded| && left >= 3
    requires forall i | 0 <= i < |padded| :: padded[i] == At(ar, m, i - left)
    ensures sum == FilterSum(ar, m, at - left + 3, TAPS)
  {
    sum := ar.zero;
    for j := 0 to TAPS
      invariant sum == FilterSum(ar, m, at - left + 3, j)
    {
      sum := ar.add(sum, ar.mul(padded[at + j], ar.taps[7 - j]));
    }
  }

  function Padded<F>(ar: Arith<F>, m: seq<F>, left: nat, right: nat): (s: seq<F>)
    ensures |s| == left + |m| + right
    ensures forall i | 0 <= i < |s| :: s[i] == At(ar, m, i - left)
  {
    seq(left, i => ar.zero) + m + seq(right, i => ar.zero)
  }

  /** filteredCBvecs: the memory behind three zeros, filtered at every position. */
  method FilteredCBvecs<F(0)>(ar: Arith<F>, cbvectors: array<F>, m: seq<F>)
    requires Valid(ar) && |m| <= cbvectors.Length
    modifies cbvectors
    ensures cbvectors[..|m|] == Filtered(ar, m)
    ensures cbvectors[|m|..] == old(cbvectors[|m|..])
  {
    var tempbuff := Padded(ar, m, 3, 5);
    for k := 0 to |m|
      invariant cbvectors[..k] == Filtered(ar, m)[..k]
      invariant cbvectors[|m|..] == old(cbvectors[|m|..])
    {
      cbvectors[k] := TapLoop(ar, tempbuff, 3, m, k);
    }
  }

  /** createAugmentedVec: the augmented vector of a given lag, from the end of a buffer. */
  method CreateAugmentedVec<F(0)>(ar: Arith<F>, index: nat, buffer: seq<F>, cbVec: array<F>)
    requires SUBFRAME / 2 <= index <= SUBFRAME - 1 && 2 * index <= |buffer| && cbVec.Length >= SUBFRAME
    modifies cbVec
    ensures cbVec[..SUBFRAME] == Augmented(ar, buffer, 2 * index, SUBFRAME)
  {
    var n := |buffer|;
    forall j | 0 <= j < index { cbVec[j] := buffer[n - index + j]; }
    var alfa := ar.zero;
    for j := index - 5 to index
      invariant alfa == Alfa(ar, j - (index - 5))
      invariant forall i | 0 <= i < j :: cbVec[i] == AugmentedAt(ar, buffer, 2 * index, i)
    {
      cbVec[j] := Fade(ar, alfa, buffer[n - 5 + (j - (index - 5))], buffer[n - index - 5 + (j - (index - 5))]);
      alfa := ar.add(alfa, ar.fifth);
    }
    forall j | 0 <= j < SUBFRAME - index { cbVec[index + j] := buffer[n - index + j]; }
  }

  /** Full-length vector number `position` of one section: a slice, or an augmented vector. */
  method SliceOrAugment<F(0)>(ar: Arith<F>, s: seq<F>, position: nat, augVec: array<F>) returns (v: seq<F>)
    requires |s| >= 2 * SUBFRAME - 2 && position < BaseSize(|s|, SUBFRAME) && augVec.Length >= SUBFRAME
    modifies augVec
    ensures PositionFits(|s|, SUBFRAME, position) && v == SectionVector(ar, s, position, SUBFRAME)
  {
    var baseSize := BaseSize(|s|, SUBFRAME);
    if position < baseSize - 20 {
      v := s[|s| - SUBFRAME - position..|s| - SUBFRAME - position + SUBFRAME];
    } else {
      CreateAugmentedVec(ar, position - baseSize + 40, s, augVec);
      v := augVec[..SUBFRAME];
    }
  }

  lemma FilterNumber(index: nat, baseSize: nat)
    requires 0 < baseSize <= index < 2 * baseSize
    ensures index / baseSize == 1
  {
  }

  /** Short vectors are slices. */
  method Slice<F(0)>(ar: Arith<F>, s: seq<F>, position: nat, lTarget: nat) returns (v: seq<F>)
    requires 10 <= lTarget < SUBFRAME && lTarget + position <= |s|
    ensures PositionFits(|s|, lTarget, position) && v == SectionVector(ar, s, position, lTarget)
  {
    v := s[|s| - lTarget - position..|s| - lTarget - position + lTarget];
  }

  /** The search's extraction of its chosen vector: a slice of the memory, a slice of the filtered memory, or an
      augmented vector made from one of them. */
  method ExtractVector<F(0)>(ar: Arith<F>, m: seq<F>, c: seq<F>, index: nat, lTarget: nat, augVec: array<F>)
    returns (v: seq<F>)
    requires Valid(ar) && c == Filtered(ar, m)
    requires 10 <= lTarget <= SUBFRAME && lTarget <= |m| && (lTarget == SUBFRAME ==> |m| >= 2 * SUBFRAME - 2)
    requires index < 2 * BaseSize(|m|, lTarget) && augVec.Length >= SUBFRAME
    modifies augVec
    ensures IndexFits(|m|, lTarget, index)
    ensures v == CodeVector(ar, m, index, lTarget)
  {
    var baseSize := BaseSize(|m|, lTarget);
    if lTarget != SUBFRAME {
      if index < baseSize {
        v := Slice(ar, m, index, lTarget);
      } else {
        v := Slice(ar, c, index - baseSize, lTarget);
      }
    } else if index < baseSize {
      v := SliceOrAugment(ar, m, index, augVec);
    } else {
      FilterNumber(index, baseSize);
      var filterno := index / baseSize;
      v := SliceOrAugment(ar, c, index - filterno * baseSize, augVec);
    }
  }

  // ---- The decoder's side ----

  /** getCBvec's interpolated branches: from the memory, or from its filtered end part. */
  method Interpolate<F(0)>(ar: Arith<F>, cbvec: array<F>, m: seq<F>, k: nat, veclen: nat)
    requires AugmentedFits(|m|, k, veclen) && veclen <= cbvec.Length
    modifies cbvec
    ensures cbvec[..veclen] == Augmented(ar, m, k, veclen)
  {
    var lMem := |m|;
    var ihigh := k / 2;
    var ilow := ihigh - 5;
    forall j | 0 <= j < ilow { cbvec[j] := m[lMem - k / 2 + j]; }
    var alfa := ar.zero;
    for j := ilow to ihigh
      invariant alfa == Alfa(ar, j - ilow)
      invariant forall i | 0 <= i < j :: cbvec[i] == AugmentedAt(ar, m, k, i)
    {
      cbvec[j] := Fade(ar, alfa, m[lMem - k / 2 + j], m[lMem - k + j]);
      alfa := ar.add(alfa, ar.fifth);
    }
    forall j | ihigh <= j < veclen { cbvec[j] := m[lMem - k + j]; }
  }

  /** The filter loop over k positions that end the memory, from a copy with four zeros in front. */
  method FilterTail<F(0)>(ar: Arith<F>, out: array<F>, off: nat, m: seq<F>, first: nat, count: nat)
    requires Valid(ar) && first + count <= |m| && off + count <= out.Length
    modifies out
    ensures out[off..off + count] == Filtered(ar, m)[first..first + count]
    ensures forall i | 0 <= i < out.Length && !(off <= i < off + count) :: out[i] == old(out[i])
  {
    var tempbuff := Padded(ar, m, 4, 5);
    var memInd: int := first + 1 - 4;
    for n := 0 to count
      invariant forall i | off <= i < off + n :: out[i] == FilterSum(ar, m, first + (i - off), TAPS)
      invariant forall i | 0 <= i < out.Length && !(off <= i < off + count) :: out[i] == old(out[i])
    {
      out[off + n] := TapLoop(ar, tempbuff, 4, m, memInd + n + 4);
    }
  }

  /** getCBvec's plain branch. */
  method CopySection<F>(cbvec: array<F>, m: seq<F>, back: nat, veclen: nat)
    requires veclen + back <= |m| && veclen <= cbvec.Length
    modifies cbvec
    ensures cbvec[..veclen] == Section(m, back, veclen)
  {
    var k := back + veclen;
    forall j | 0 <= j < veclen { cbvec[j] := m[|m| - k + j]; }
  }

  /** getCBvec's filtered branch: no more of the memory is filtered than the vector needs. */
  method FilterSection<F(0)>(ar: Arith<F>, cbvec: array<F>, m: seq<F>, back: nat, veclen: nat)
    requires Valid(ar) && veclen + back <= |m| && veclen <= cbvec.Length
    modifies cbvec
    ensures cbvec[..veclen] == Section(Filtered(ar, m), back, veclen)
  {
    FilterTail(ar, cbvec, 0, m, |m| - back - veclen, veclen);
    assert cbvec[..veclen] == cbvec[0..0 + veclen];
  }

  /** getCBvec: the decoder rebuilds the vector that an index denotes, filtering no more than it needs. */
  method GetCBvec<F(0)>(ar: Arith<F>, cbvec: array<F>, m: seq<F>, index: nat, veclen: nat)
    requires Valid(ar) && IndexFits(|m|, veclen, index) && veclen <= cbvec.Length
    modifies cbvec
    ensures cbvec[..veclen] == CodeVector(ar, m, index, veclen)
  {
    var lMem := |m|;
    var baseSize := lMem - veclen + 1;
    if veclen == 40 {
      baseSize := baseSize + veclen / 2;
    }
    if index < lMem - veclen + 1 {
      CopySection(cbvec, m, index, veclen);
    } else if index < baseSize {
      Interpolate(ar, cbvec, m, 2 * (index - (lMem - veclen + 1)) + veclen, veclen);
    } else if index - baseSize < lMem - veclen + 1 {
      FilterSection(ar, cbvec, m, index - baseSize, veclen);
    } else {
      var k := 2 * (index - baseSize - (lMem - veclen + 1)) + veclen;
      InterpolateFiltered(ar, cbvec, m, k, veclen);
    }
  }

  method InterpolateFiltered<F(0)>(ar: Arith<F>, cbvec: array<F>, m: seq<F>, k: nat, veclen: nat)
    requires Valid(ar) && AugmentedFits(|m|, k, veclen) && veclen <= cbvec.Length
    modifies cbvec
    ensures cbvec[..veclen] == Augmented(ar, Filtered(ar, m), k, veclen)
  {
    var lMem := |m|;
    var tmpbuf := new F[lMem](i => ar.zero);
    FilterTail(ar, tmpbuf, lMem - k, m, lMem - k, k);
    var tmp := tmpbuf[..];
    assert tmp[lMem - k..] == Filtered(ar, m)[lMem - k..] by {
      assert tmpbuf[lMem - k..lMem - k + k] == tmp[lMem - k..];
      assert Filtered(ar, m)[lMem - k..lMem - k + k] == Filtered(ar, m)[lMem - k..];
    }
    AugmentedFromTail(ar, tmp, Filtered(ar, m), k, veclen);
    Interpolate(ar, cbvec, tmp, k, veclen);
  }

  /** Only the last k samples matter to an augmented vector. */
  lemma AugmentedFromTail<F>(ar: Arith<F>, a: seq<F>, b: seq<F>, k: nat, veclen: nat)
    requires AugmentedFits(|a|, k, veclen) && |a| == |b|
    requires a[|a| - k..] == b[|b| - k..]
    ensures Augmented(ar, a, k, veclen) == Augmented(ar, b, k, veclen)
  {
    forall j | 0 <= j < veclen
      ensures AugmentedAt(ar, a, k, j) == AugmentedAt(ar, b, k, j)
    {
      assert a[|a| - k + j] == a[|a| - k..][j] && b[|b| - k + j] == b[|b| - k..][j];
      if j < k / 2 {
        assert a[|a| - k / 2 + j] == a[|a| - k..][k - k / 2 + j];
        assert b[|b| - k / 2 + j] == b[|b| - k..][k - k / 2 + j];
      }
    }
  }

  /** Two codebooks are one: for every memory and every index the encoder can choose, the vector it extracts is the one
      the decoder rebuilds. */
  method BothSidesAgree<F(0)>(ar: Arith<F>, m: seq<F>, index: nat, veclen: nat)
    returns (encoder: seq<F>, decoder: seq<F>)
    requires Valid(ar) && |m| == (if veclen == 40 then 147 else 85) && veclen in {22, 23, 40}
    requires index < 2 * BaseSize(|m|, veclen)
    ensures encoder == decoder == CodeVector(ar, m, index, veclen)
  {
    var cbvectors := new F[147](i => ar.zero);
    var augVec := new F[SUBFRAME](i => ar.zero);
    var cbvec := new F[SUBFRAME](i => ar.zero);
    FilteredCBvecs(ar, cbvectors, m);
    encoder := ExtractVector(ar, m, cbvectors[..|m|], index, veclen, augVec);
    GetCBvec(ar, cbvec, m, index, veclen);
    decoder := cbvec[..veclen];
  }
}
