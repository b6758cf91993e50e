/** searchCodebook: three stages, each choosing a vector in two sections and
    quantising its gain, over energies that the first stage caches. */
module StagedSearch {
  import opened Basics
  import opened RealArithmetic
  import opened Vectors
  import opened Codebook
  import opened CodebookEnergies
  import opened SearchWindow
  import opened Nearest
  import opened GainQuantisation
  import opened CodebookSearch
  import IndexConversion

  // ---- One stage ----

  function FirstSection(k: Book, range: nat): seq<nat>
    requires ValidBook(k)
  {
    Run(0, range) + if k.veclen == SUBFRAME then Run(k.Base() - 20, k.Base()) else []
  }

  function SecondSection(k: Book, w: Window): seq<nat>
    requires ValidBook(k) && w.sInd <= w.eInd && (w.sAug != 0 ==> 20 <= w.sAug <= w.eAug + 1)
  {
    Run(k.Base() + w.sInd, k.Base() + w.eInd)
    + if w.sAug != 0 then Run(2 * k.Base() - 40 + w.sAug, 2 * k.Base() - 40 + w.eAug + 1) else []
  }

  /** The window that a first-section index leads to. */
  function WindowFor(k: Book, range: nat, baseIndex: nat): Window
    requires ValidBook(k) && Searchable(k.veclen, k.Base(), range) && InFirst(k.veclen, k.Base(), range, baseIndex)
  {
    WindowAt(WindowStart(k.veclen, range, Position(k.veclen, k.Base(), baseIndex)))
  }

  /** The indices a search of a given range can return. */
  predicate InSpace(k: Book, range: nat, i: nat)
    requires ValidBook(k)
  {
    || InFirst(k.veclen, k.Base(), range, i)
    || (k.Base() <= i && InFirst(k.veclen, k.Base(), range, i - k.Base()))
  }

  /** b is the best of the first section and of the window around the first section's own best vector, all scored by
      directly computed energies. */
  ghost predicate Chosen(t: Task, range: nat, b: Best)
    requires ValidTask(t) && Searchable(t.book.veclen, t.book.Base(), range)
  {
    exists first :: ChosenAfter(t, range, first, b)
  }

  ghost predicate ChosenAfter(t: Task, range: nat, first: Best, b: Best)
    requires ValidTask(t) && Searchable(t.book.veclen, t.book.Base(), range)
  {
    var scores, one := DirectSheet(t).scores, FirstSection(t.book, range);
    && IsBest(scores, one, first)
    && InFirst(t.book.veclen, t.book.Base(), range, first.index)
    && IsBest(scores, one + SecondSection(t.book, WindowFor(t.book, range, first.index)), b)
  }

  lemma FirstBestInFirst(k: Book, range: nat, scores: seq<Score>, b: Best)
    requires ValidBook(k) && Searchable(k.veclen, k.Base(), range) && IsBest(scores, FirstSection(k, range), b)
    ensures InFirst(k.veclen, k.Base(), range, b.index)
  {
    if b.measure > FLOOR {
      var visited := FirstSection(k, range);
      var i :| 0 <= i < |visited| && IsFirst(scores, visited, i, b);
      assert b.index == visited[i];
    }
  }

  lemma BestInSpace(k: Book, range: nat, scores: seq<Score>, w: Window, baseIndex: nat, b: Best)
    requires ValidBook(k) && Searchable(k.veclen, k.Base(), range) && InFirst(k.veclen, k.Base(), range, baseIndex)
    requires w == WindowFor(k, range, baseIndex)
    requires IsBest(scores, FirstSection(k, range) + SecondSection(k, w), b)
    ensures InSpace(k, range, b.index)
  {
    if b.measure > FLOOR {
      var one, two := FirstSection(k, range), SecondSection(k, w);
      var i :| 0 <= i < |one + two| && IsFirst(scores, one + two, i, b);
      assert b.index == (one + two)[i];
      if i >= |one| {
        assert b.index == two[i - |one|];
      }
    }
  }

  /** The caches hold the energies of both sections' delays, and the first section's inverses. */
  ghost predicate Cached(f: Sheet, base: nat, range: nat, energy: array<real>, inverse: array<real>)
    reads energy, inverse
  {
    && energy.Length == inverse.Length == 256 && |f.energies| == |f.inverses| == 2 * base && range <= base <= 128
    && (forall i | 0 <= i < range :: energy[i] == f.energies[i] && inverse[i] == f.inverses[i])
    && (forall i | base <= i < base + range :: energy[i] == f.energies[i])
  }

  /** The first section, augmented vectors included. */
  method SearchFirst(t: Task, ghost f: Sheet, range: nat, ghost range0: nat, energy: array<real>,
                     inverse: array<real>) returns (b: Best)
    requires Describes(t, f) && Searchable(t.book.veclen, t.book.Base(), range) && Buffers(energy, inverse)
    requires range <= range0 && Searchable(t.book.veclen, t.book.Base(), range0)
             && range <= Plain(|t.book.m|, t.book.veclen)
    requires if t.stage == 0 then range0 == range else Cached(f, t.book.Base(), range0, energy, inverse)
    modifies energy, inverse
    ensures IsBest(f.scores, FirstSection(t.book, range), b)
    ensures forall i | 0 <= i < range0 :: energy[i] == f.energies[i] && inverse[i] == f.inverses[i]
    ensures forall i | t.book.Base() <= i < 256 :: energy[i] == old(energy[i])
  {
    b := FirstDelays(t, f, range, energy, inverse);
    if t.book.veclen == SUBFRAME {
      b := SearchAugmented(t, f, false, t.book.m, 20, 39, t.book.Base() - 20, energy, inverse, b, Run(0, range));
    } else {
      assert FirstSection(t.book, range) == Run(0, range);
    }
  }

  /** The window in the second section, augmented vectors included. */
  method SearchSecond(t: Task, ghost f: Sheet, c: seq<real>, w: Window, energy: array<real>, inverse: array<real>,
                      b0: Best, ghost visited: seq<nat>, ghost range0: nat) returns (b: Best)
    requires Describes(t, f) && c == Memory(t.book, true) && Buffers(energy, inverse) && IsBest(f.scores, visited, b0)
    requires Cached(f, t.book.Base(), range0, energy, inverse)
    requires range0 <= Plain(|t.book.m|, t.book.veclen)
    requires w.sInd <= w.eInd <= range0
    requires w.sAug != 0 ==> t.book.veclen == SUBFRAME && 20 <= w.sAug <= w.eAug == 39
    modifies energy, inverse
    ensures IsBest(f.scores, visited + SecondSection(t.book, w), b)
    ensures Cached(f, t.book.Base(), range0, energy, inverse)
  {
    var base := t.book.Base();
    b := SecondDelays(t, f, c, w.sInd, w.eInd, energy, inverse, b0, visited);
    ghost var seen := visited + Run(base + w.sInd, base + w.eInd);
    if t.book.veclen == SUBFRAME && w.sAug != 0 {
      b := SearchAugmented(t, f, true, c, w.sAug, w.eAug, 2 * base - 20, energy, inverse, b, seen);
      assert seen + Run(2 * base - 40 + w.sAug, 2 * base - 40 + w.eAug + 1) == visited + SecondSection(t.book, w);
    } else {
      assert seen == visited + SecondSection(t.book, w);
    }
  }

  /** One stage of the search. */
  method SearchStage(t: Task, ghost f: Sheet, range: nat, ghost range0: nat, c: seq<real>, energy: array<real>,
                     inverse: array<real>)
    returns (b: Best)
    requires ValidTask(t) && f == DirectSheet(t) && c == Memory(t.book, true) && Buffers(energy, inverse)
    requires Searchable(t.book.veclen, t.book.Base(), range) && Searchable(t.book.veclen, t.book.Base(), range0)
    requires range <= range0 <= Plain(|t.book.m|, t.book.veclen)
    requires if t.stage == 0 then range0 == range else Cached(f, t.book.Base(), range0, energy, inverse)
    modifies energy, inverse
    ensures Chosen(t, range, b) && InSpace(t.book, range, b.index)
    ensures Cached(f, t.book.Base(), range0, energy, inverse)
  {
    var base := t.book.Base();
    var first := SearchFirst(t, f, range, range0, energy, inverse);
    FirstBestInFirst(t.book, range, f.scores, first);
    var w := Restrict(t.book.veclen, base, range, first.index);
    if t.stage == 0 {
      SecondEnergies(t, f, c, range, energy);
    }
    b := SearchSecond(t, f, c, w, energy, inverse, first, FirstSection(t.book, range), range0);
    BestInSpace(t.book, range, f.scores, w, first.index, b);
    assert ChosenAfter(t, range, first, b);
  }

  // ---- Three stages ----

  function Clamp(x: real, lo: real, hi: real): real {
    if x < lo then lo else if x > hi then hi else x
  }

  /** The gain that a stage's gain index denotes, each stage relative to the one before. */
  function GainOf(tables: Tables, gainIndex: seq<nat>, stage: nat): real
    requires ValidTables(tables) && stage < |gainIndex| && stage < STAGES
    requires forall s: nat | s <= stage :: gainIndex[s] < LEVELS[s]
    decreases stage, 1
  {
    GainDequant(tables, gainIndex[stage], PreviousGain(tables, gainIndex, stage), LEVELS[stage])
  }

  function PreviousGain(tables: Tables, gainIndex: seq<nat>, stage: nat): (g: real)
    requires ValidTables(tables) && stage <= |gainIndex| && stage < STAGES
    requires forall s: nat | s < stage :: gainIndex[s] < LEVELS[s]
    ensures g >= 0.0
    decreases stage, 0
  {
    if stage == 0 then 1.0 else Abs(GainOf(tables, gainIndex, stage - 1))
  }

  /** target minus (or plus) a scaled vector. */
  function PlusScaled(u: seq<real>, g: real, v: seq<real>): (w: seq<real>)
    requires |u| == |v|
    ensures |w| == |u|
  {
    seq(|u|, j requires 0 <= j < |u| => u[j] + g * v[j])
  }

  function MinusScaled(u: seq<real>, g: real, v: seq<real>): (w: seq<real>)
    requires |u| == |v|
    ensures |w| == |u|
  {
    seq(|u|, j requires 0 <= j < |u| => u[j] - g * v[j])
  }

  /** Indices and gain indices of some first stages, all within their limits. */
  predicate Chain(k: Book, index: seq<nat>, gainIndex: seq<nat>, n: nat)
    requires ValidBook(k)
  {
    && n <= STAGES && n <= |index| && n <= |gainIndex|
    && forall s: nat | s < n :: index[s] < 2 * k.Base() && gainIndex[s] < LEVELS[s]
  }

  /** What is left of the target after n stages. */
  function TargetAfter(k: Book, tables: Tables, target: seq<real>, index: seq<nat>, gainIndex: seq<nat>,
                       n: nat): (r: seq<real>)
    requires ValidBook(k) && ValidTables(tables) && |target| == k.veclen && Chain(k, index, gainIndex, n)
    ensures |r| == k.veclen
  {
    if n == 0 then target
    else MinusScaled(TargetAfter(k, tables, target, index, gainIndex, n - 1), GainOf(tables, gainIndex, n - 1),
                     Vector(k, index[n - 1]))
  }

  /** What n stages have built. */
  function Built(k: Book, tables: Tables, index: seq<nat>, gainIndex: seq<nat>, n: nat): (r: seq<real>)
    requires ValidBook(k) && ValidTables(tables) && Chain(k, index, gainIndex, n)
    ensures |r| == k.veclen
  {
    if n == 0 then seq(k.veclen, j => 0.0)
    else PlusScaled(Built(k, tables, index, gainIndex, n - 1), GainOf(tables, gainIndex, n - 1),
                    Vector(k, index[n - 1]))
  }

  lemma StepBalances(u: seq<real>, w: seq<real>, g: real, v: seq<real>, j: nat)
    requires |u| == |w| == |v| && j < |v|
    ensures PlusScaled(u, g, v)[j] + MinusScaled(w, g, v)[j] == u[j] + w[j]
  {
  }

  /** What was built and what is left always add up to the target. */
  lemma {:induction false} BuiltPlusLeft(k: Book, tables: Tables, target: seq<real>, index: seq<nat>,
                                         gainIndex: seq<nat>, n: nat, j: nat)
    requires ValidBook(k) && ValidTables(tables) && |target| == k.veclen && Chain(k, index, gainIndex, n)
             && j < k.veclen
    ensures Built(k, tables, index, gainIndex, n)[j] + TargetAfter(k, tables, target, index, gainIndex, n)[j]
              == target[j]
  {
    if n > 0 {
      BuiltPlusLeft(k, tables, target, index, gainIndex, n - 1, j);
      StepBalances(Built(k, tables, index, gainIndex, n - 1), TargetAfter(k, tables, target, index, gainIndex, n - 1),
                   GainOf(tables, gainIndex, n - 1), Vector(k, index[n - 1]), j);
    }
  }

  lemma {:induction false} PrefixGain(tables: Tables, a: seq<nat>, b: seq<nat>, stage: nat)
    requires ValidTables(tables) && stage < |a| && stage < |b| && stage < STAGES
    requires forall s: nat | s <= stage :: a[s] == b[s] < LEVELS[s]
    ensures GainOf(tables, a, stage) == GainOf(tables, b, stage)
  {
    if stage > 0 {
      PrefixGain(tables, a, b, stage - 1);
    }
  }

  predicate SamePrefix(a: seq<nat>, b: seq<nat>, n: nat) {
    n <= |a| && n <= |b| && forall s | 0 <= s < n :: a[s] == b[s]
  }

  lemma {:induction false} PrefixTarget(k: Book, tables: Tables, target: seq<real>, a: seq<nat>, b: seq<nat>,
                                        c: seq<nat>, d: seq<nat>, n: nat)
    requires ValidBook(k) && ValidTables(tables) && |target| == k.veclen && Chain(k, a, b, n) && Chain(k, c, d, n)
    requires SamePrefix(a, c, n) && SamePrefix(b, d, n)
    ensures TargetAfter(k, tables, target, a, b, n) == TargetAfter(k, tables, target, c, d, n)
  {
    if n > 0 {
      PrefixTarget(k, tables, target, a, b, c, d, n - 1);
      PrefixGain(tables, b, d, n - 1);
    }
  }

  lemma {:induction false} PrefixBuilt(k: Book, tables: Tables, a: seq<nat>, b: seq<nat>, c: seq<nat>, d: seq<nat>,
                                       n: nat)
    requires ValidBook(k) && ValidTables(tables) && Chain(k, a, b, n) && Chain(k, c, d, n)
    requires SamePrefix(a, c, n) && SamePrefix(b, d, n)
    ensures Built(k, tables, a, b, n) == Built(k, tables, c, d, n)
  {
    if n > 0 {
      PrefixBuilt(k, tables, a, b, c, d, n - 1);
      PrefixGain(tables, b, d, n - 1);
    }
  }

  /** What one stage promises: the best vector for what the stages before left over, and the nearest gain. */
  ghost predicate StageDone(k: Book, tables: Tables, ranges: seq<nat>, target: seq<real>, index: seq<nat>,
                            gainIndex: seq<nat>, s: nat)
    requires ValidBook(k) && ValidTables(tables) && |target| == k.veclen && ValidRanges(k, ranges)
    requires s < STAGES && Chain(k, index, gainIndex, s + 1)
  {
    exists b: Best :: StageGives(k, tables, ranges, target, index, gainIndex, s, b)
  }

  ghost predicate StageGives(k: Book, tables: Tables, ranges: seq<nat>, target: seq<real>, index: seq<nat>,
                             gainIndex: seq<nat>, s: nat, b: Best)
    requires ValidBook(k) && ValidTables(tables) && |target| == k.veclen && ValidRanges(k, ranges)
    requires s < STAGES && Chain(k, index, gainIndex, s + 1)
  {
    && Chosen(Task(k, s, TargetAfter(k, tables, target, index, gainIndex, s)), ranges[s], b) && index[s] == b.index
    && InSpace(k, ranges[s], b.index)
    && IsNearest(Measures(tables, if s == 0 then Clamp(b.gain, 0.0, 1.3) else b.gain,
                          PreviousGain(tables, gainIndex, s), LEVELS[s]), NO_MATCH, gainIndex[s])
  }

  /** searchRangeTbl's shape: no stage searches further than the first. */
  predicate ValidRanges(k: Book, ranges: seq<nat>)
    requires ValidBook(k)
  {
    && |ranges| == STAGES && ranges[0] <= Plain(|k.m|, k.veclen)
    && forall s: nat | s < STAGES :: ranges[s] <= ranges[0] && Searchable(k.veclen, k.Base(), ranges[s])
  }

  /** searchRangeTbl. */
  function SearchRange(block: nat): (ranges: seq<nat>) {
    if block == 0 then [58, 58, 58] else if block == 1 then [108, 44, 44] else [108, 108, 108]
  }

  /** Every returned index fits its field: seven bits for the extra vector, the seven-bit renumbering for the first
      subframe's later stages, eight bits otherwise. */
  lemma IndexSpace(k: Book, block: nat, stage: nat, i: nat)
    requires ValidBook(k) && (block == 0 <==> k.veclen < SUBFRAME) && stage < STAGES
    ensures ValidRanges(k, SearchRange(block))
    ensures InSpace(k, SearchRange(block)[stage], i) ==>
              && i < 2 * k.Base() <= 256
              && (block == 0 ==> i < 128)
              && (block == 1 && stage > 0 ==> IndexConversion.Restricted(i))
    ensures block == 1 && stage > 0 && IndexConversion.Restricted(i) ==> InSpace(k, SearchRange(block)[stage], i)
  {
  }

  /** The caches do not depend on stage or target. */
  lemma SheetsShareEnergies(t: Task, u: Task)
    requires ValidTask(t) && ValidTask(u) && t.book == u.book
    ensures DirectSheet(t).energies == DirectSheet(u).energies && DirectSheet(t).inverses == DirectSheet(u).inverses
  {
  }

  lemma LongerChain(k: Book, tables: Tables, target: seq<real>, index: seq<nat>, gainIndex: seq<nat>, i: nat, g: nat)
    requires ValidBook(k) && ValidTables(tables) && |target| == k.veclen
    requires |index| == |gainIndex| < STAGES && Chain(k, index, gainIndex, |index|)
    requires i < 2 * k.Base() && g < LEVELS[|index|]
    ensures var n := |index|;
            && Chain(k, index + [i], gainIndex + [g], n + 1) && Chain(k, index + [i], gainIndex + [g], n)
            && TargetAfter(k, tables, target, index + [i], gainIndex + [g], n)
                 == TargetAfter(k, tables, target, index, gainIndex, n)
            && Built(k, tables, index + [i], gainIndex + [g], n) == Built(k, tables, index, gainIndex, n)
            && PreviousGain(tables, gainIndex + [g], n) == PreviousGain(tables, gainIndex, n)
  {
    var n := |index|;
    PrefixTarget(k, tables, target, index, gainIndex, index + [i], gainIndex + [g], n);
    PrefixBuilt(k, tables, index, gainIndex, index + [i], gainIndex + [g], n);
    if n > 0 {
      PrefixGain(tables, gainIndex, gainIndex + [g], n - 1);
    }
  }

  /** Stages stay done when later ones are added. */
  lemma StageStaysDone(k: Book, tables: Tables, ranges: seq<nat>, target: seq<real>,
                       a: seq<nat>, b: seq<nat>, c: seq<nat>, d: seq<nat>, s: nat)
    requires ValidBook(k) && ValidTables(tables) && |target| == k.veclen && ValidRanges(k, ranges)
    requires s < STAGES && Chain(k, a, b, s + 1) && Chain(k, c, d, s + 1)
    requires SamePrefix(a, c, s + 1) && SamePrefix(b, d, s + 1)
    requires StageDone(k, tables, ranges, target, a, b, s)
    ensures StageDone(k, tables, ranges, target, c, d, s)
  {
    PrefixTarget(k, tables, target, a, b, c, d, s);
    if s > 0 {
      PrefixGain(tables, b, d, s - 1);
    }
    var best: Best :| StageGives(k, tables, ranges, target, a, b, s, best);
    assert StageGives(k, tables, ranges, target, c, d, s, best);
  }

  /** The update of the remaining target and of the sum built so far. */
  method Update(cvec: array<real>, target: array<real>, gain: real, v: seq<real>)
    requires cvec != target && cvec.Length == target.Length == |v|
    modifies cvec, target
    ensures cvec[..] == PlusScaled(old(cvec[..]), gain, v)
    ensures target[..] == MinusScaled(old(target[..]), gain, v)
  {
    ghost var plus, minus := PlusScaled(cvec[..], gain, v), MinusScaled(target[..], gain, v);
    for j := 0 to |v|
      invariant forall i | 0 <= i < j :: cvec[i] == plus[i] && target[i] == minus[i]
      invariant forall i | j <= i < |v| :: cvec[i] == old(cvec[i]) && target[i] == old(target[i])
    {
      var step := gain * v[j];
      cvec[j] := cvec[j] + step;
      target[j] := target[j] - step;
    }
  }

  /** The gain of one stage, quantised. */
  method QuantiseGain(tables: Tables, s: nat, gain: real, last: real, ghost gainIndex: seq<nat>)
    returns (g: nat, value: real)
    requires ValidTables(tables) && s < STAGES && |gainIndex| == s && forall i: nat | i < s :: gainIndex[i] < LEVELS[i]
    requires s > 0 ==> last == GainOf(tables, gainIndex, s - 1)
    ensures g < LEVELS[s] && value == GainOf(tables, gainIndex + [g], s)
    ensures IsNearest(Measures(tables, if s == 0 then Clamp(gain, 0.0, 1.3) else gain,
                               PreviousGain(tables, gainIndex, s), LEVELS[s]), NO_MATCH, g)
  {
    if s == 0 {
      g, value := GainQuant(tables, Clamp(gain, 0.0, 1.3), 1.0, 32);
    } else if s == 1 {
      g, value := GainQuant(tables, gain, Abs(last), 16);
    } else {
      g, value := GainQuant(tables, gain, Abs(last), 8);
    }
    assert (gainIndex + [g])[s] == g;
    if s > 0 {
      PrefixGain(tables, gainIndex, gainIndex + [g], s - 1);
    }
  }

  /** One pass of the stage loop. */
  method RunStage(k: Book, tables: Tables, ranges: seq<nat>, ghost target0: seq<real>, s: nat, c: seq<real>,
                  target: array<real>, cvec: array<real>, augVec: array<real>, energy: array<real>,
                  inverse: array<real>, index: seq<nat>, gainIndex: seq<nat>, last: real)
    returns (i: nat, g: nat, gain: real)
    requires ValidBook(k) && ValidTables(tables) && ValidRanges(k, ranges) && |target0| == k.veclen
             && c == Memory(k, true)
    requires s == |index| == |gainIndex| < STAGES && Chain(k, index, gainIndex, s)
    requires target.Length == cvec.Length == k.veclen && augVec.Length == SUBFRAME && Buffers(energy, inverse)
    requires target != cvec && target != augVec && target != energy && target != inverse
    requires cvec != augVec && cvec != energy && cvec != inverse && augVec != energy && augVec != inverse
    requires target[..] == TargetAfter(k, tables, target0, index, gainIndex, s)
             && cvec[..] == Built(k, tables, index, gainIndex, s)
    requires s > 0 ==> last == GainOf(tables, gainIndex, s - 1)
    requires s > 0 ==> Cached(DirectSheet(Task(k, 0, target0)), k.Base(), ranges[0], energy, inverse)
    modifies target, cvec, augVec, energy, inverse
    ensures Chain(k, index + [i], gainIndex + [g], s + 1) && gain == GainOf(tables, gainIndex + [g], s)
    ensures StageDone(k, tables, ranges, target0, index + [i], gainIndex + [g], s)
    ensures target[..] == TargetAfter(k, tables, target0, index + [i], gainIndex + [g], s + 1)
    ensures cvec[..] == Built(k, tables, index + [i], gainIndex + [g], s + 1)
    ensures Cached(DirectSheet(Task(k, 0, target0)), k.Base(), ranges[0], energy, inverse)
  {
    var t := Task(k, s, target[..]);
    SheetsShareEnergies(Task(k, 0, target0), t);
    var b := SearchStage(t, DirectSheet(t), ranges[s], ranges[0], c, energy, inverse);
    i := b.index;
    g, gain := QuantiseGain(tables, s, b.gain, last, gainIndex);
    LongerChain(k, tables, target0, index, gainIndex, i, g);
    assert StageGives(k, tables, ranges, target0, index + [i], gainIndex + [g], s, b);
    var v := ExtractVector(Reals(k.taps), k.m, c, i, k.veclen, augVec);
    Update(cvec, target, gain, v);
  }

  // ---- The final correction of the first gain ----

  ghost predicate PositiveRising(table: seq<real>) {
    && (forall i | 0 <= i < |table| :: table[i] > 0.0)
    && (forall i, j | 0 <= i < j < |table| :: table[i] < table[j])
  }

  /** The built vector's energy at table entry i stays below the target's energy at the chosen gain. */
  predicate Quieter(sq5: seq<real>, cene: real, tene: real, gain: real, i: nat)
    requires i < |sq5|
  {
    cene * sq5[i] * sq5[i] < tene * gain * gain
  }

  lemma QuieterBelow(sq5: seq<real>, cene: real, tene: real, gain: real, i: nat, j: nat)
    requires PositiveRising(sq5) && i <= j < |sq5| && cene >= 0.0 && Quieter(sq5, cene, tene, gain, j)
    ensures Quieter(sq5, cene, tene, gain, i)
  {
    if i < j {
      var x, y := sq5[i], sq5[j];
      ScaledSquares(cene, x, y);
    }
  }

  lemma ScaledSquares(c: real, x: real, y: real)
    requires c >= 0.0 && 0.0 < x < y
    ensures c * x * x <= c * y * y
  {
    var p := NonNegativeProduct(y - x, y + x);
    var q := NonNegativeProduct(c, p);
    ExpandedProduct(c, x, y, p, q);
  }

  lemma ExpandedProduct(c: real, x: real, y: real, p: real, q: real)
    requires p == (y - x) * (y + x) && q == c * p
    ensures q == c * y * y - c * x * x
  {
  }

  /** The last entry that is quieter than the target and comes right after an entry below twice the gain, if that is
      beyond the gain's own entry. */
  ghost predicate Corrected(sq5: seq<real>, g0: nat, cene: real, tene: real, j: nat)
    requires |sq5| == 32 && g0 < 32
  {
    var gain := sq5[g0];
    && g0 <= j < 32
    && (j > g0 ==> Quieter(sq5, cene, tene, gain, j) && sq5[j - 1] < 2.0 * gain)
    && forall i | j < i < 32 :: !(Quieter(sq5, cene, tene, gain, i) && sq5[i - 1] < 2.0 * gain)
  }

  /** The correction loop only ever raises the first gain index. */
  method CorrectGain(sq5: seq<real>, g0: nat, gain: real, cene: real, tene: real) returns (j: nat)
    requires |sq5| == 32 && PositiveRising(sq5) && g0 < 32 && gain == sq5[g0] && cene >= 0.0
    ensures Corrected(sq5, g0, cene, tene, j)
  {
    j := g0;
    for i := g0 to 32
      invariant g0 <= j < 32 && (j <= i - 1 || i == g0 == j)
      invariant j > g0 ==> Quieter(sq5, cene, tene, gain, j) && sq5[j - 1] < 2.0 * gain
      invariant j < i - 1 ==> !(Quieter(sq5, cene, tene, gain, j + 1) && sq5[j] < 2.0 * gain)
      invariant forall m | j < m < i :: !(Quieter(sq5, cene, tene, gain, m) && sq5[m - 1] < 2.0 * gain)
    {
      if Quieter(sq5, cene, tene, gain, i) && sq5[j] < 2.0 * gain {
        if j < i - 1 {
          QuieterBelow(sq5, cene, tene, gain, j + 1, i);
          assert false;
        }
        j := i;
      } else if Quieter(sq5, cene, tene, gain, i) && j < i - 1 {
        assert sq5[j] < sq5[i - 1];
      }
    }
  }

  // ---- The whole search ----

  /** The first n stages each found the best vector and nearest gain for what the stages before left over. */
  ghost predicate SearchedUpTo(k: Book, tables: Tables, ranges: seq<nat>, target: seq<real>, index: seq<nat>,
                               gainIndex: seq<nat>, n: nat)
    requires ValidBook(k) && ValidTables(tables) && |target| == k.veclen && ValidRanges(k, ranges)
  {
    && |index| == |gainIndex| == n && Chain(k, index, gainIndex, n)
    && forall s: nat {:trigger StageDone(k, tables, ranges, target, index, gainIndex, s)} | s < n ::
         StageDone(k, tables, ranges, target, index, gainIndex, s)
  }

  ghost predicate GainsAre(tables: Tables, gainIndex: seq<nat>, gains: seq<real>)
    requires ValidTables(tables) && |gainIndex| <= STAGES && forall s: nat | s < |gainIndex| :: gainIndex[s] < LEVELS[s]
  {
    |gains| == |gainIndex| && forall s: nat | s < |gains| :: gains[s] == GainOf(tables, gainIndex, s)
  }

  lemma OneMoreStage(k: Book, tables: Tables, ranges: seq<nat>, target: seq<real>, index: seq<nat>,
                     gainIndex: seq<nat>, gains: seq<real>, i: nat, g: nat)
    requires ValidBook(k) && ValidTables(tables) && |target| == k.veclen && ValidRanges(k, ranges) && |index| < STAGES
    requires SearchedUpTo(k, tables, ranges, target, index, gainIndex, |index|) && GainsAre(tables, gainIndex, gains)
    requires Chain(k, index + [i], gainIndex + [g], |index| + 1)
    requires StageDone(k, tables, ranges, target, index + [i], gainIndex + [g], |index|)
    ensures SearchedUpTo(k, tables, ranges, target, index + [i], gainIndex + [g], |index| + 1)
    ensures GainsAre(tables, gainIndex + [g], gains + [GainOf(tables, gainIndex + [g], |index|)])
  {
    forall s: nat | s < |index|
      ensures StageDone(k, tables, ranges, target, index + [i], gainIndex + [g], s)
      ensures gains[s] == GainOf(tables, gainIndex + [g], s)
    {
      StageStaysDone(k, tables, ranges, target, index, gainIndex, index + [i], gainIndex + [g], s);
      PrefixGain(tables, gainIndex, gainIndex + [g], s);
    }
  }

  lemma FirstGain(tables: Tables, gainIndex: seq<nat>)
    requires ValidTables(tables) && |gainIndex| == STAGES && gainIndex[0] < 32
    ensures GainOf(tables, gainIndex, 0) == tables.sq5[gainIndex[0]]
  {
  }

  /** One pass of the stage loop, added to the passes before it. */
  method NextStage(k: Book, tables: Tables, ranges: seq<nat>, ghost target0: seq<real>, s: nat, c: seq<real>,
                   target: array<real>, cvec: array<real>, augVec: array<real>, energy: array<real>,
                   inverse: array<real>, index: seq<nat>, gainIndex: seq<nat>, gains: seq<real>)
    returns (index': seq<nat>, gainIndex': seq<nat>, gains': seq<real>)
    requires ValidBook(k) && ValidTables(tables) && ValidRanges(k, ranges) && |target0| == k.veclen
             && c == Memory(k, true)
    requires s < STAGES && SearchedUpTo(k, tables, ranges, target0, index, gainIndex, s)
             && GainsAre(tables, gainIndex, gains)
    requires target.Length == cvec.Length == k.veclen && augVec.Length == SUBFRAME && Buffers(energy, inverse)
    requires target != cvec && target != augVec && target != energy && target != inverse
    requires cvec != augVec && cvec != energy && cvec != inverse && augVec != energy && augVec != inverse
    requires target[..] == TargetAfter(k, tables, target0, index, gainIndex, s)
             && cvec[..] == Built(k, tables, index, gainIndex, s)
    requires s > 0 ==> Cached(DirectSheet(Task(k, 0, target0)), k.Base(), ranges[0], energy, inverse)
    modifies target, cvec, augVec, energy, inverse
    ensures SearchedUpTo(k, tables, ranges, target0, index', gainIndex', s + 1)
    ensures |gainIndex'| == s + 1 && Chain(k, index', gainIndex', s + 1) && GainsAre(tables, gainIndex', gains')
    ensures target[..] == TargetAfter(k, tables, target0, index', gainIndex', s + 1)
    ensures cvec[..] == Built(k, tables, index', gainIndex', s + 1)
    ensures Cached(DirectSheet(Task(k, 0, target0)), k.Base(), ranges[0], energy, inverse)
  {
    var last := if s == 0 then 1.0 else gains[s - 1];
    var i, g, gain := RunStage(k, tables, ranges, target0, s, c, target, cvec, augVec, energy, inverse, index,
                               gainIndex, last);
    OneMoreStage(k, tables, ranges, target0, index, gainIndex, gains, i, g);
    index', gainIndex', gains' := index + [i], gainIndex + [g], gains + [gain];
  }

  /** The stage loop, in its buffers. */
  method StageLoop(k: Book, tables: Tables, ranges: seq<nat>, ghost target0: seq<real>, c: seq<real>,
                   target: array<real>, cvec: array<real>, augVec: array<real>, energy: array<real>,
                   inverse: array<real>) returns (index: seq<nat>, gainIndex: seq<nat>, gain0: real)
    requires ValidBook(k) && ValidTables(tables) && ValidRanges(k, ranges) && |target0| == k.veclen
    requires c == Memory(k, true)
    requires target.Length == cvec.Length == k.veclen && augVec.Length == SUBFRAME && Buffers(energy, inverse)
    requires target != cvec && target != augVec && target != energy && target != inverse
    requires cvec != augVec && cvec != energy && cvec != inverse && augVec != energy && augVec != inverse
    requires target[..] == TargetAfter(k, tables, target0, [], [], 0) && cvec[..] == Built(k, tables, [], [], 0)
    modifies target, cvec, augVec, energy, inverse
    ensures SearchedUpTo(k, tables, ranges, target0, index, gainIndex, STAGES)
    ensures gain0 == GainOf(tables, gainIndex, 0) && cvec[..] == Built(k, tables, index, gainIndex, STAGES)
  {
    index, gainIndex := [], [];
    var gains := [];
    assert SearchedUpTo(k, tables, ranges, target0, index, gainIndex, 0);
    hide SearchedUpTo, TargetAfter, Built, Cached, DirectSheet, Memory, ValidRanges;
    for s := 0 to STAGES
      invariant SearchedUpTo(k, tables, ranges, target0, index, gainIndex, s)
      invariant |gainIndex| == s && Chain(k, index, gainIndex, s) && GainsAre(tables, gainIndex, gains)
      invariant target[..] == TargetAfter(k, tables, target0, index, gainIndex, s)
      invariant cvec[..] == Built(k, tables, index, gainIndex, s)
      invariant s > 0 ==> Cached(DirectSheet(Task(k, 0, target0)), k.Base(), ranges[0], energy, inverse)
    {
      index, gainIndex, gains := NextStage(k, tables, ranges, target0, s, c, target, cvec, augVec, energy, inverse,
                                           index, gainIndex, gains);
    }
    gain0 := gains[0];
  }

  method RunStages(k: Book, tables: Tables, ranges: seq<nat>, target0: seq<real>, c: seq<real>)
    returns (index: seq<nat>, gainIndex: seq<nat>, gain0: real, built: seq<real>)
    requires ValidBook(k) && ValidTables(tables) && ValidRanges(k, ranges) && |target0| == k.veclen
    requires c == Memory(k, true)
    ensures SearchedUpTo(k, tables, ranges, target0, index, gainIndex, STAGES)
    ensures gain0 == GainOf(tables, gainIndex, 0) && built == Built(k, tables, index, gainIndex, STAGES)
  {
    hide SearchedUpTo, Memory;
    var energy, inverse := new real[256](i => 0.0), new real[256](i => 0.0);
    var target := new real[k.veclen](i requires 0 <= i < k.veclen => target0[i]);
    var cvec, augVec := new real[k.veclen](i => 0.0), new real[SUBFRAME](i => 0.0);
    assert target[..] == target0;
    assert cvec[..] == Built(k, tables, [], [], 0);
    index, gainIndex, gain0 := StageLoop(k, tables, ranges, target0, c, target, cvec, augVec, energy, inverse);
    built := cvec[..];
  }

  /** searchCodebook, for the weighted memory and target. The first gain index is corrected at the end. */
  method SearchCodebook(k: Book, tables: Tables, ranges: seq<nat>, target0: seq<real>)
    returns (index: seq<nat>, gainIndex: seq<nat>, ghost g0: nat)
    requires ValidBook(k) && ValidTables(tables) && PositiveRising(tables.sq5) && ValidRanges(k, ranges)
             && |target0| == k.veclen
    ensures |gainIndex| == STAGES && SearchedUpTo(k, tables, ranges, target0, index, gainIndex[0 := g0], STAGES)
    ensures Corrected(tables.sq5, g0, Energy(Built(k, tables, index, gainIndex[0 := g0], STAGES)), Energy(target0),
                      gainIndex[0])
  {
    var tene := DotProduct(target0, target0);
    var filtered := new real[|k.m|](i => 0.0);
    FilteredCBvecs(Reals(k.taps), filtered, k.m);
    var found, gain0, built;
    index, found, gain0, built := RunStages(k, tables, ranges, target0, filtered[..|k.m|]);
    var cene := DotProduct(built, built);
    EnergyNonNegative(built, |built|);
    FirstGain(tables, found);
    var j := CorrectGain(tables.sq5, found[0], gain0, cene, tene);
    gainIndex, g0 := found[0 := j], found[0];
    assert gainIndex[0 := g0] == found;
  }
}
