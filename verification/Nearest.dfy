/** The scans for a smallest or greatest measure that the quantisers and the pitch
    searches share. */
module Nearest {

  /** index is the first of the smallest measures among those below the limit. */
  predicate IsNearest(ms: seq<real>, limit: real, index: nat) {
    && (index < |ms| || index == 0)
    && (forall i | 0 <= i < |ms| && ms[i] < limit :: ms[index] <= ms[i])
    && (forall i | 0 <= i < index :: ms[index] < ms[i])
  }

  /** A running minimum, starting from the limit. */
  method FirstSmallest(measure: nat --> real, n: nat, limit: real, ghost ms: seq<real>) returns (index: nat)
    requires |ms| == n && forall i: nat | i < n :: measure.requires(i) && measure(i) == ms[i]
    ensures n > 0 ==> index < n
    ensures IsNearest(ms, limit, index)
  {
    var minmeasure := limit;
    index := 0;
    for i := 0 to n
      invariant index == 0 || index < i
      invariant minmeasure <= limit
      invariant minmeasure == limit ==> index == 0
      invariant minmeasure < limit ==> index < i && minmeasure == ms[index]
      invariant forall j | 0 <= j < i :: minmeasure <= ms[j]
      invariant forall j | 0 <= j < index :: minmeasure < ms[j]
    {
      var m := measure(i);
      if m < minmeasure {
        index, minmeasure := i, m;
      }
    }
  }

  /** best is the first of the greatest entries among lo..hi. */
  predicate IsGreatest(ms: seq<real>, lo: nat, hi: nat, best: nat) {
    && lo <= best < hi <= |ms|
    && (forall i | lo <= i < hi :: ms[i] <= ms[best])
    && (forall i | lo <= i < best :: ms[i] < ms[best])
  }

  /** A running maximum, starting from the first candidate. */
  method FirstGreatest(measure: nat --> real, lo: nat, hi: nat, ghost ms: seq<real>) returns (best: nat)
    requires lo < hi <= |ms| && forall i: nat | lo <= i < hi :: measure.requires(i) && measure(i) == ms[i]
    ensures IsGreatest(ms, lo, hi, best)
  {
    best := lo;
    var maxv := measure(lo);
    for i := lo + 1 to hi
      invariant lo <= best < i && maxv == ms[best]
      invariant forall j | lo <= j < i :: ms[j] <= maxv
      invariant forall j | lo <= j < best :: ms[j] < maxv
    {
      var m := measure(i);
      if m > maxv {
        best, maxv := i, m;
      }
    }
  }

  /** best is the first of the smallest entries. */
  predicate IsLeast(ms: seq<int>, best: nat) {
    && best < |ms|
    && (forall i | 0 <= i < |ms| :: ms[best] <= ms[i])
    && (forall i | 0 <= i < best :: ms[best] < ms[i])
  }

  /** A running minimum, starting from the first candidate. */
  method FirstLeast(measure: nat --> int, n: nat, ghost ms: seq<int>) returns (best: nat)
    requires 0 < n == |ms| && forall i: nat | i < n :: measure.requires(i) && measure(i) == ms[i]
    ensures IsLeast(ms, best)
  {
    best := 0;
    var bestcrit := measure(0);
    for i := 1 to n
      invariant best < i && bestcrit == ms[best]
      invariant forall j | 0 <= j < i :: bestcrit <= ms[j]
      invariant forall j | 0 <= j < best :: bestcrit < ms[j]
    {
      var crit := measure(i);
      if crit < bestcrit {
        best, bestcrit := i, crit;
      }
    }
  }
}
