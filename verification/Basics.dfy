/** Types, dimensions and a fact about slices shared by several parts of the
    codec and the call program. */
module Basics {

  type Byte = b: nat | b < 256

  datatype Option<+T> = None | Some(value: T)

  /** Samples of a subframe, and of the blocks that the enhancer works on. */
  const SUBFRAME: nat := 40
  const BLOCK: nat := 80

  /** The prediction order, and the number of a predictor's coefficients. */
  const ORDER: nat := 10
  const COEFFICIENTS: nat := 11

  /** Codebook stages of a vector, and the gain levels of each. */
  const STAGES: nat := 3
  const LEVELS: seq<nat> := [32, 16, 8]

  lemma SliceOfSlice<T>(t: seq<T>, a: nat, n: nat, b: nat, m: nat)
    requires a + n <= |t| && b + m <= n
    ensures t[a..a + n][b..b + m] == t[a + b..a + b + m]
  {
    var left, right := t[a..a + n][b..b + m], t[a + b..a + b + m];
    forall i | 0 <= i < |left|
      ensures left[i] == right[i]
    {
      assert left[i] == t[a..a + n][b + i] == t[a + (b + i)];
    }
  }
}
