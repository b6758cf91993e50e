/** The encoder's search of the adaptive codebook: cached and recursively
    updated energies, the restricted second section, and three stages of gains. */
module CodebookSearch {
  import opened Basics
  import opened RealArithmetic
  import opened Vectors
  import opened Codebook
  import opened CodebookEnergies
  import opened SearchWindow
  import opened GainQuantisation

  const EPSILON: real := 0.0000000000000002220446
  const FLOOR: real := -10000000.0
  const GAIN_LIMIT: real := 1.2999999523162842

  /** A codebook: the filter taps, the weighted memory and the vector length. */
  datatype Book = Book(taps: seq<real>, m: seq<real>, veclen: nat) {
    function Base(): nat
      requires veclen <= |m|
    {
      BaseSize(|m|, veclen)
    }
  }

  /** The three geometries in use. */
  predicate ValidBook(k: Book) {
    |k.taps| == TAPS && (if k.veclen == SUBFRAME then |k.m| == 147 else |k.m| == 85 && 22 <= k.veclen <= 23)
  }

  function Vector(k: Book, i: nat): (v: seq<real>)
    requires ValidBook(k) && i < 2 * k.Base()
    ensures |v| == k.veclen
  {
    CodeVector(Reals(k.taps), k.m, i, k.veclen)
  }

  function Inverse(energy: real): real {
    if energy > 0.0 then 1.0 / (energy + EPSILON) else 0.0
  }

  // ---- Scores ----

  datatype Score = Score(measure: real, gain: real)

  /** A candidate's measure and gain; the first stage rejects negative correlations. */
  function ScoreOf(stage: nat, crossDot: real, inverse: real): Score {
    Score(if stage == 0 && crossDot <= 0.0 then FLOOR else crossDot * crossDot * inverse, crossDot * inverse)
  }

  /** One stage's task: what to approximate, with which codebook. */
  datatype Task = Task(book: Book, stage: nat, target: seq<real>)

  predicate ValidTask(t: Task) {
    ValidBook(t.book) && |t.target| == t.book.veclen
  }

  /** The score computed directly from the vector that an index denotes. */
  function ScoreAt(t: Task, i: nat): Score
    requires ValidTask(t) && i < 2 * t.book.Base()
  {
    var v := Vector(t.book, i);
    ScoreOf(t.stage, Dot(t.target, v, |v|), Inverse(Energy(v)))
  }

  predicate Eligible(s: Score) {
    s.measure > FLOOR && Abs(s.gain) < GAIN_LIMIT
  }

  datatype Best = Best(index: nat, measure: real, gain: real)

  const NONE: Best := Best(0, FLOOR, 0.0)

  /** The search's update of its best candidate. */
  function Examine(b: Best, i: nat, s: Score): Best {
    if s.measure > b.measure && Abs(s.gain) < GAIN_LIMIT then Best(i, s.measure, s.gain) else b
  }

  /** What the caches should hold and what the candidates score, index by index. */
  datatype Sheet = Sheet(energies: seq<real>, inverses: seq<real>, scores: seq<Score>)

  predicate SheetSize(k: Book, f: Sheet)
    requires ValidBook(k)
  {
    |f.energies| == |f.inverses| == |f.scores| == 2 * k.Base()
  }

  /** Every entry is computed directly from the vector that its index denotes. */
  ghost predicate Describes(t: Task, f: Sheet) {
    && ValidTask(t) && SheetSize(t.book, f)
    && forall i: nat {:trigger Vector(t.book, i)} | i < 2 * t.book.Base() ::
         && f.energies[i] == Energy(Vector(t.book, i))
         && f.inverses[i] == Inverse(Energy(Vector(t.book, i)))
         && f.scores[i] == ScoreAt(t, i)
  }

  function DirectSheet(t: Task): (f: Sheet)
    requires ValidTask(t)
    ensures Describes(t, f)
  {
    var n := 2 * t.book.Base();
    Sheet(seq(n, i requires 0 <= i < n => Energy(Vector(t.book, i))),
          seq(n, i requires 0 <= i < n => Inverse(Energy(Vector(t.book, i)))),
          seq(n, i requires 0 <= i < n => ScoreAt(t, i)))
  }

  /** A candidate is not eligible, or measures no more than b. */
  predicate Beaten(scores: seq<Score>, i: nat, b: Best) {
    i < |scores| && (Eligible(scores[i]) ==> scores[i].measure <= b.measure)
  }

  /** b is the first of the visited candidates with the greatest measure among the eligible ones, or none is
      eligible. */
  predicate IsBest(scores: seq<Score>, visited: seq<nat>, b: Best) {
    && b.measure >= FLOOR
    && (forall k {:trigger Beaten(scores, visited[k], b)} | 0 <= k < |visited| :: Beaten(scores, visited[k], b))
    && (b.measure == FLOOR ==> b == NONE)
    && (b.measure > FLOOR ==> exists k {:trigger IsFirst(scores, visited, k, b)} ::
                                0 <= k < |visited| && IsFirst(scores, visited, k, b))
  }

  predicate IsFirst(scores: seq<Score>, visited: seq<nat>, k: nat, b: Best)
    requires k < |visited|
  {
    && visited[k] < |scores| && Eligible(scores[visited[k]])
    && b == Best(visited[k], scores[visited[k]].measure, scores[visited[k]].gain)
    && forall j {:trigger Surpassed(scores, visited[j], b)} | 0 <= j < k :: Surpassed(scores, visited[j], b)
  }

  predicate Surpassed(scores: seq<Score>, i: nat, b: Best) {
    i < |scores| && (Eligible(scores[i]) ==> scores[i].measure < b.measure)
  }

  lemma ExamineKeepsBest(scores: seq<Score>, visited: seq<nat>, b: Best, i: nat)
    requires IsBest(scores, visited, b) && i < |scores|
    ensures IsBest(scores, visited + [i], Examine(b, i, scores[i]))
  {
    var longer, b' := visited + [i], Examine(b, i, scores[i]);
    forall k | 0 <= k < |longer|
      ensures Beaten(scores, longer[k], b')
    {
      if k < |visited| {
        assert longer[k] == visited[k];
        assert Beaten(scores, visited[k], b);
      }
    }
    if b' != b {
      forall j | 0 <= j < |visited|
        ensures Surpassed(scores, longer[j], b')
      {
        assert Beaten(scores, visited[j], b);
      }
      assert IsFirst(scores, longer, |visited|, b');
    } else if b.measure > FLOOR {
      var k :| 0 <= k < |visited| && IsFirst(scores, visited, k, b);
      forall j | 0 <= j < k
        ensures Surpassed(scores, longer[j], b)
      {
        assert Surpassed(scores, visited[j], b);
      }
      assert IsFirst(scores, longer, k, b);
    }
  }

  /** The numbers lo..hi. */
  function Run(lo: nat, hi: nat): (r: seq<nat>)
    requires lo <= hi
    ensures |r| == hi - lo && forall k | 0 <= k < |r| :: r[k] == lo + k
  {
    seq(hi - lo, k requires 0 <= k < hi - lo => lo + k)
  }

  /** One more candidate of a run. */
  lemma VisitNext(scores: seq<Score>, visited: seq<nat>, lo: nat, i: nat, b: Best)
    requires lo <= i < |scores| && IsBest(scores, visited + Run(lo, i), b)
    ensures IsBest(scores, visited + Run(lo, i + 1), Examine(b, i, scores[i]))
  {
    ExamineKeepsBest(scores, visited + Run(lo, i), b, i);
    assert visited + Run(lo, i + 1) == visited + Run(lo, i) + [i];
  }

  // ---- Energies ----

  predicate Buffers(energy: array<real>, inverse: array<real>) {
    energy.Length == inverse.Length == 256 && energy != inverse
  }

  /** A section's memory: the weighted memory, or the filtered one. */
  function Memory(k: Book, second: bool): (s: seq<real>)
    requires ValidBook(k)
    ensures |s| == |k.m|
  {
    if second then Filtered(Reals(k.taps), k.m) else k.m
  }

  function First(k: Book, second: bool): nat
    requires ValidBook(k)
  {
    if second then k.Base() else 0
  }

  /** A delay's vector in either section is a slice. */
  lemma DelayVector(k: Book, second: bool, i: nat)
    requires ValidBook(k) && i < Plain(|k.m|, k.veclen)
    ensures Vector(k, First(k, second) + i) == Section(Memory(k, second), i, k.veclen)
  {
  }

  lemma DelaySlides(k: Book, second: bool, i: nat, entering: real, leaving: real)
    requires ValidBook(k) && 0 < i < Plain(|k.m|, k.veclen)
    requires entering == Memory(k, second)[|k.m| - k.veclen - i] && leaving == Memory(k, second)[|k.m| - i]
    ensures Energy(Vector(k, First(k, second) + i))
         == Energy(Vector(k, First(k, second) + i - 1)) + entering * entering - leaving * leaving
  {
    var s, at := Memory(k, second), First(k, second) + i;
    assert Vector(k, at) == Section(s, i, k.veclen) by {
      DelayVector(k, second, i);
    }
    assert Vector(k, at - 1) == Section(s, i - 1, k.veclen) by {
      DelayVector(k, second, i - 1);
    }
    Slide(s, i, k.veclen, entering, leaving);
  }

  /** The running update of a delay's energy: it gives the direct sum of squares. */
  method NextEnergy(k: Book, second: bool, s: seq<real>, i: nat, previous: real) returns (e: real)
    requires ValidBook(k) && s == Memory(k, second) && i < Plain(|k.m|, k.veclen)
    requires i > 0 ==> previous == Energy(Vector(k, First(k, second) + i - 1))
    ensures e == Energy(Vector(k, First(k, second) + i))
  {
    var n := |s|;
    if i == 0 {
      var v := s[n - k.veclen..n];
      e := DotProduct(v, v);
      DelayVector(k, second, 0);
      assert v == Section(s, 0, k.veclen);
    } else {
      var entering, leaving := s[n - k.veclen - i], s[n - i];
      DelaySlides(k, second, i, entering, leaving);
      e := previous + entering * entering - leaving * leaving;
    }
  }

  method DelayEnergy(t: Task, ghost f: Sheet, second: bool, s: seq<real>, i: nat, energy: array<real>)
    requires Describes(t, f) && s == Memory(t.book, second) && i < Plain(|t.book.m|, t.book.veclen)
    requires energy.Length == 256
    requires i > 0 ==> energy[First(t.book, second) + i - 1] == f.energies[First(t.book, second) + i - 1]
    modifies energy
    ensures energy[..] == old(energy[..])[First(t.book, second) + i := f.energies[First(t.book, second) + i]]
  {
    hide ScoreAt, CodeVector, Energy;
    var at := First(t.book, second) + i;
    var previous := if i == 0 then 0.0 else energy[at - 1];
    assert i > 0 ==> previous == Energy(Vector(t.book, at - 1));
    var e := NextEnergy(t.book, second, s, i, previous);
    energy[at] := e;
  }

  /** The score of a vector from its kept energy; `renew` recomputes the inverse. */
  method ScoreKept(t: Task, ghost f: Sheet, i: nat, v: seq<real>, renew: bool, energy: array<real>,
                   inverse: array<real>)
    returns (s: Score)
    requires Describes(t, f) && i < 2 * t.book.Base() && Buffers(energy, inverse) && v == Vector(t.book, i)
    requires energy[i] == f.energies[i] && (!renew ==> inverse[i] == f.inverses[i])
    modifies inverse
    ensures s == f.scores[i] && inverse[..] == old(inverse[..])[i := f.inverses[i]]
  {
    var crossDot := DotProduct(t.target, v);
    if renew {
      inverse[i] := Inverse(energy[i]);
    }
    s := ScoreOf(t.stage, crossDot, inverse[i]);
  }

  // ---- The sections ----

  /** The caches agree with the sheet on lo..hi. */
  ghost predicate Kept(f: Sheet, lo: nat, hi: nat, energy: seq<real>, inverse: seq<real>) {
    && hi <= |energy| && hi <= |inverse| && hi <= |f.energies| && hi <= |f.inverses|
    && forall i | lo <= i < hi :: energy[i] == f.energies[i] && inverse[i] == f.inverses[i]
  }

  /** One delay of the first section: its energy is updated in the first stage and reused in the others. */
  method FirstDelay(t: Task, ghost f: Sheet, icount: nat, energy: array<real>, inverse: array<real>, b: Best)
    returns (b': Best)
    requires Describes(t, f) && icount < Plain(|t.book.m|, t.book.veclen) && Buffers(energy, inverse)
    requires if t.stage == 0 then icount > 0 ==> energy[icount - 1] == f.energies[icount - 1]
             else energy[icount] == f.energies[icount] && inverse[icount] == f.inverses[icount]
    modifies energy, inverse
    ensures b' == Examine(b, icount, f.scores[icount])
    ensures energy[..] == old(energy[..])[icount := f.energies[icount]]
    ensures inverse[..] == old(inverse[..])[icount := f.inverses[icount]]
  {
    var m, n := t.book.m, |t.book.m|;
    var v := m[n - t.book.veclen - icount..n - icount];
    DelayVector(t.book, false, icount);
    assert v == Section(m, icount, t.book.veclen);
    if t.stage == 0 {
      DelayEnergy(t, f, false, m, icount, energy);
    }
    var s := ScoreKept(t, f, icount, v, t.stage == 0, energy, inverse);
    b' := Examine(b, icount, s);
  }

  method FirstDelays(t: Task, ghost f: Sheet, range: nat, energy: array<real>, inverse: array<real>) returns (b: Best)
    requires Describes(t, f) && range <= Plain(|t.book.m|, t.book.veclen) && Buffers(energy, inverse)
    requires t.stage > 0 ==> Kept(f, 0, range, energy[..], inverse[..])
    modifies energy, inverse
    ensures Kept(f, 0, range, energy[..], inverse[..]) && IsBest(f.scores, Run(0, range), b)
    ensures forall j | range <= j < 256 :: energy[j] == old(energy[j]) && inverse[j] == old(inverse[j])
  {
    hide Vector, ScoreAt;
    b := NONE;
    for icount := 0 to range
      invariant Kept(f, 0, icount, energy[..], inverse[..]) && IsBest(f.scores, Run(0, icount), b)
      invariant forall j | icount <= j < 256 :: energy[j] == old(energy[j]) && inverse[j] == old(inverse[j])
    {
      assert t.stage > 0 ==> old(energy[..])[icount] == f.energies[icount];
      assert t.stage > 0 ==> old(inverse[..])[icount] == f.inverses[icount];
      assert [] + Run(0, icount) == Run(0, icount) && [] + Run(0, icount + 1) == Run(0, icount + 1);
      VisitNext(f.scores, [], 0, icount, b);
      b := FirstDelay(t, f, icount, energy, inverse, b);
    }
  }

  /** An augmented vector's index and lag. */
  lemma AugmentedVector(k: Book, second: bool, icount: nat)
    requires ValidBook(k) && k.veclen == SUBFRAME && 20 <= icount <= 39
    ensures AugmentedFirst(k, second) + icount < 2 * k.Base()
    ensures Vector(k, AugmentedFirst(k, second) + icount)
         == Augmented(Reals(k.taps), Memory(k, second), 2 * icount, SUBFRAME)
  {
  }

  /** What is added to a lag for its index. */
  function AugmentedFirst(k: Book, second: bool): (i: nat)
    requires ValidBook(k) && k.veclen == SUBFRAME
  {
    First(k, second) + k.Base() - 40
  }

  /** One lag of searchAugmentedCB. */
  method AugmentedLag(t: Task, ghost f: Sheet, second: bool, s: seq<real>, icount: nat, at: nat, nrj: real,
                      energy: array<real>, inverse: array<real>, b: Best) returns (b': Best)
    requires Describes(t, f) && t.book.veclen == SUBFRAME && s == Memory(t.book, second) && Buffers(energy, inverse)
    requires 20 <= icount <= 39 && at == AugmentedFirst(t.book, second) + icount
    requires nrj == Squares(s, |s| - icount, |s| - 4)
    modifies energy, inverse
    ensures b' == Examine(b, at, f.scores[at])
    ensures energy[..] == old(energy[..])[at := f.energies[at]]
    ensures inverse[..] == old(inverse[..])[at := f.inverses[at]]
  {
    AugmentedVector(t.book, second, icount);
    ghost var v := Vector(t.book, at);
    var e, crossDot := AugmentedSums(t.book.taps, s, t.target, icount, nrj);
    energy[at] := e;
    inverse[at] := Inverse(e);
    b' := Examine(b, at, ScoreOf(t.stage, crossDot, inverse[at]));
  }

  method SquareSum(s: seq<real>, lo: nat, hi: nat) returns (sum: real)
    requires lo <= hi <= |s|
    ensures sum == Squares(s, lo, hi)
  {
    sum := 0.0;
    for j := lo to hi
      invariant sum == Squares(s, lo, j)
    {
      sum := sum + s[j] * s[j];
    }
  }

  lemma SquareEnters(s: seq<real>, lo: nat, hi: nat, x: real, sum: real)
    requires lo < hi <= |s| && x == s[lo] && sum == Squares(s, lo + 1, hi)
    ensures Squares(s, lo, hi) == sum + x * x
  {
    SquaresFront(s, lo, hi);
  }

  /** searchAugmentedCB: lags low..high, with a recursively updated energy of their unfaded part. */
  method SearchAugmented(t: Task, ghost f: Sheet, second: bool, s: seq<real>, low: nat, high: nat, startIndex: nat,
                         energy: array<real>, inverse: array<real>, b0: Best, ghost visited: seq<nat>) returns (b: Best)
    requires Describes(t, f) && t.book.veclen == SUBFRAME && s == Memory(t.book, second) && Buffers(energy, inverse)
    requires 20 <= low <= high <= 39 && startIndex - 20 == AugmentedFirst(t.book, second)
    requires IsBest(f.scores, visited, b0)
    modifies energy, inverse
    ensures IsBest(f.scores, visited + Run(startIndex - 20 + low, startIndex - 20 + high + 1), b)
    ensures forall j | 0 <= j < 256 && !(startIndex - 20 + low <= j <= startIndex - 20 + high) ::
              energy[j] == old(energy[j]) && inverse[j] == old(inverse[j])
  {
    var n, off := |s|, startIndex - 20;
    var nrj := SquareSum(s, n - low + 1, n - 4);
    b := b0;
    assert visited + Run(off + low, off + low) == visited;
    for icount := low to high + 1
      invariant nrj == Squares(s, n - icount + 1, n - 4)
      invariant IsBest(f.scores, visited + Run(off + low, off + icount), b)
      invariant forall j | 0 <= j < 256 && !(off + low <= j <= off + high) ::
                  energy[j] == old(energy[j]) && inverse[j] == old(inverse[j])
    {
      var x := s[n - icount];
      SquareEnters(s, n - icount, n - 4, x, nrj);
      nrj := nrj + x * x;
      VisitNext(f.scores, visited, off + low, off + icount, b);
      b := AugmentedLag(t, f, second, s, icount, off + icount, nrj, energy, inverse, b);
    }
  }

  /** The second section's energies, all computed in the first stage. */
  method SecondEnergies(t: Task, ghost f: Sheet, c: seq<real>, range: nat, energy: array<real>)
    requires Describes(t, f) && c == Memory(t.book, true) && range <= Plain(|t.book.m|, t.book.veclen)
    requires energy.Length == 256
    modifies energy
    ensures forall j | t.book.Base() <= j < t.book.Base() + range :: energy[j] == f.energies[j]
    ensures forall j | 0 <= j < 256 && !(t.book.Base() <= j < t.book.Base() + range) :: energy[j] == old(energy[j])
  {
    var base := t.book.Base();
    for j := 0 to range
      invariant forall i | base <= i < base + j :: energy[i] == f.energies[i]
      invariant forall i | 0 <= i < 256 && !(base <= i < base + range) :: energy[i] == old(energy[i])
    {
      DelayEnergy(t, f, true, c, j, energy);
    }
  }

  /** One delay of the second section. */
  method SecondDelay(t: Task, ghost f: Sheet, c: seq<real>, counter: nat, icount: nat, energy: array<real>,
                     inverse: array<real>, b: Best)
    returns (b': Best)
    requires Describes(t, f) && c == Memory(t.book, true) && counter < Plain(|t.book.m|, t.book.veclen)
             && Buffers(energy, inverse)
    requires icount == t.book.Base() + counter && energy[icount] == f.energies[icount]
    modifies inverse
    ensures b' == Examine(b, icount, f.scores[icount])
    ensures inverse[..] == old(inverse[..])[icount := f.inverses[icount]]
  {
    var n := |c|;
    var v := c[n - counter - t.book.veclen..n - counter];
    DelayVector(t.book, true, counter);
    assert v == Section(c, counter, t.book.veclen);
    var s := ScoreKept(t, f, icount, v, true, energy, inverse);
    b' := Examine(b, icount, s);
  }

  /** The delays sInd..eInd of the second section, whose energies were kept. */
  method SecondDelays(t: Task, ghost f: Sheet, c: seq<real>, sInd: nat, eInd: nat, energy: array<real>,
                      inverse: array<real>, b0: Best, ghost visited: seq<nat>) returns (b: Best)
    requires Describes(t, f) && c == Memory(t.book, true) && sInd <= eInd <= Plain(|t.book.m|, t.book.veclen)
    requires Buffers(energy, inverse) && IsBest(f.scores, visited, b0)
    requires forall j | t.book.Base() + sInd <= j < t.book.Base() + eInd :: energy[j] == f.energies[j]
    modifies inverse
    ensures IsBest(f.scores, visited + Run(t.book.Base() + sInd, t.book.Base() + eInd), b)
    ensures forall j | 0 <= j < t.book.Base() :: inverse[j] == old(inverse[j])
  {
    var base := t.book.Base();
    b := b0;
    assert visited + Run(base + sInd, base + sInd) == visited;
    for icount := base + sInd to base + eInd
      invariant IsBest(f.scores, visited + Run(base + sInd, icount), b)
      invariant forall j | 0 <= j < base :: inverse[j] == old(inverse[j])
    {
      VisitNext(f.scores, visited, base + sInd, icount, b);
      b := SecondDelay(t, f, c, icount - base, icount, energy, inverse, b);
    }
  }
}
