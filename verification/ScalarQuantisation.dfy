/** The scalar quantiser of the start state: the nearest of a rising list of
    levels. */
module ScalarQuantisation {
  import opened RealArithmetic

  ghost predicate Rising(cb: seq<real>) {
    forall i, j | 0 <= i < j < |cb| :: cb[i] < cb[j]
  }

  /** The level nearest to x, the lower one of two equally near. */
  ghost predicate IsNearestLevel(cb: seq<real>, x: real, index: nat) {
    && index < |cb|
    && (forall i | 0 <= i < |cb| :: Abs(x - cb[index]) <= Abs(x - cb[i]))
    && (forall i | 0 <= i < index :: Abs(x - cb[index]) < Abs(x - cb[i]))
  }

  /** sortSq. */
  method SortSq(x: real, cb: seq<real>) returns (index: nat, xq: real)
    requires |cb| >= 2 && Rising(cb)
    ensures IsNearestLevel(cb, x, index) && xq == cb[index]
  {
    if x <= cb[0] {
      index := 0;
    } else {
      var i := 0;
      while x > cb[i] && i < |cb| - 1
        invariant 0 <= i < |cb| && (i > 0 ==> x > cb[i - 1])
        decreases |cb| - i
      {
        i := i + 1;
      }
      index := if x > (cb[i] + cb[i - 1]) / 2.0 then i else i - 1;
    }
    xq := cb[index];
  }
}
