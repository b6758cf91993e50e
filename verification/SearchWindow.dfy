/** Where the second section of a codebook is searched: a window of 34 delays
    around the best vector of the first section. */
module SearchWindow {
  import opened Basics
  import opened Codebook

  const WINDOW: nat := 34
  const AUGMENTED: nat := 20

  /** What the search loops over: delays sInd..eInd, then lags sAug..eAug of augmented vectors if sAug is not zero. */
  datatype Window = Window(sInd: nat, eInd: nat, sAug: nat, eAug: nat)

  /** The codebook in the order of its delays; augmented vectors lie before delay 0. */
  function Position(veclen: nat, base: nat, index: nat): int {
    if veclen == SUBFRAME && index + AUGMENTED >= base then index - base else index
  }

  /** The second-section index of a position. */
  function SecondIndex(base: nat, position: int): int {
    if position < 0 then 2 * base + position else base + position
  }

  /** The window starts 17 positions before the best one, moved to stay inside the codebook. */
  function WindowStart(veclen: nat, range: nat, position: int): int {
    var lowest: int := if veclen == SUBFRAME then -20 else 0;
    if position - 17 < lowest then lowest
    else if position + 17 > range then range - WINDOW
    else position - 17
  }

  function WindowAt(start: int): Window
    requires -20 <= start
  {
    if start < 0 then Window(0, start + WINDOW, 40 + start, 39) else Window(start, start + WINDOW, 0, 0)
  }

  predicate Searchable(veclen: nat, base: nat, range: nat) {
    && WINDOW <= range && (if veclen == SUBFRAME then range + AUGMENTED <= base else range <= base)
  }

  /** Indices of the first section that are searched. */
  predicate InFirst(veclen: nat, base: nat, range: nat, index: nat) {
    index < range || (veclen == SUBFRAME && base - 20 <= index < base)
  }

  predicate InWindow(base: nat, w: Window, index: nat) {
    || base + w.sInd <= index < base + w.eInd
    || (w.sAug != 0 && 2 * base - 40 + w.sAug <= index <= 2 * base - 40 + w.eAug)
  }

  /** The search's case analysis for the window. */
  method Restrict(lTarget: nat, baseSize: nat, valueRange: nat, baseIndex: nat) returns (w: Window)
    requires Searchable(lTarget, baseSize, valueRange) && InFirst(lTarget, baseSize, valueRange, baseIndex)
    ensures w == WindowAt(WindowStart(lTarget, valueRange, Position(lTarget, baseSize, baseIndex)))
  {
    var sIndAug, eIndAug := 0, 0;
    var sInd := baseIndex - 17;
    var eInd := sInd + 34;
    if lTarget == SUBFRAME {
      if sInd < 0 {
        sIndAug, eIndAug := 40 + sInd, 39;
        sInd := 0;
      } else if baseIndex < baseSize - 20 {
        if eInd > valueRange {
          sInd := sInd - (eInd - valueRange);
          eInd := valueRange;
        }
      } else if sInd < baseSize - 20 {
        sIndAug := 20;
        sInd, eInd := 0, 0;
        eIndAug := 53;
        if eIndAug > 39 {
          eInd := eIndAug - 39;
          eIndAug := 39;
        }
      } else {
        sIndAug := 20 + sInd - (baseSize - 20);
        eIndAug := 39;
        sInd := 0;
        eInd := 34 - (eIndAug - sIndAug + 1);
      }
    } else {
      if sInd < 0 {
        eInd := eInd - sInd;
        sInd := 0;
      }
      if eInd > valueRange {
        sInd := sInd - (eInd - valueRange);
        eInd := valueRange;
      }
    }
    w := Window(sInd, eInd, sIndAug, eIndAug);
  }

  /** Whatever the best first-section index, exactly 34 second-section vectors are examined: those of 34 consecutive
      positions, the best one's own position among them. */
  lemma WindowIsAround(veclen: nat, base: nat, range: nat, best: nat)
    requires Searchable(veclen, base, range) && InFirst(veclen, base, range, best)
    ensures var p := Position(veclen, base, best); var start := WindowStart(veclen, range, p);
            var w := WindowAt(start);
            && start <= p < start + WINDOW
            && (w.eInd - w.sInd) + (if w.sAug == 0 then 0 else w.eAug - w.sAug + 1) == WINDOW
            && (forall i: nat :: InWindow(base, w, i) <==> exists q: int ::
                start <= q < start + WINDOW && i == SecondIndex(base, q))
            && InWindow(base, w, SecondIndex(base, p))
  {
    var p := Position(veclen, base, best);
    var start := WindowStart(veclen, range, p);
    var w := WindowAt(start);
    forall i: nat
      ensures InWindow(base, w, i) <==> exists q: int :: start <= q < start + WINDOW && i == SecondIndex(base, q)
    {
      if InWindow(base, w, i) {
        var q: int := if i < base + range then i - base else i - 2 * base;
        assert start <= q < start + WINDOW && i == SecondIndex(base, q);
      }
    }
    assert InWindow(base, w, SecondIndex(base, p)) by {
      assert start <= p < start + WINDOW;
    }
  }
}
