/** Scalar quantisation of the codebook gains and its inverse. */
module GainQuantisation {
  import opened RealArithmetic
  import opened Nearest

  const NO_MATCH: real := 10000000.0

  /** The step size: the previous gain's magnitude, but at least 0.1. */
  function Scale(maxIn: real): real {
    if maxIn < 0.1 then 0.1 else maxIn
  }

  /** The three gain tables, by size. */
  datatype Tables = Tables(sq3: seq<real>, sq4: seq<real>, sq5: seq<real>)

  predicate ValidTables(t: Tables) {
    |t.sq3| == 8 && |t.sq4| == 16 && |t.sq5| == 32
  }

  function Table(t: Tables, cblen: nat): (cb: seq<real>)
    requires ValidTables(t) && cblen in {8, 16, 32}
    ensures |cb| == cblen
  {
    if cblen == 8 then t.sq3 else if cblen == 16 then t.sq4 else t.sq5
  }

  /** gaindequant. */
  function GainDequant(t: Tables, index: nat, maxIn: real, cblen: nat): real
    requires ValidTables(t) && cblen in {8, 16, 32} && index < cblen
  {
    Scale(Abs(maxIn)) * Table(t, cblen)[index]
  }

  /** The squared distance of a gain from a table entry. */
  function Distance(input: real, value: real): real {
    (input - value) * (input - value)
  }

  function ScaledDistance(input: real, scale: real, value: real): real {
    Distance(input, scale * value)
  }

  /** The squared distances of a gain from all values that can be coded for it. */
  function Measures(t: Tables, input: real, maxIn: real, cblen: nat): (ms: seq<real>)
    requires ValidTables(t) && cblen in {8, 16, 32}
    ensures |ms| == cblen
  {
    seq(cblen, i requires 0 <= i < cblen => Distance(input, GainDequant(t, i, maxIn, cblen)))
  }

  lemma LevelIs(t: Tables, maxIn: real, cblen: nat, i: nat)
    requires ValidTables(t) && cblen in {8, 16, 32} && maxIn >= 0.0 && i < cblen
    ensures Scale(maxIn) * Table(t, cblen)[i] == GainDequant(t, i, maxIn, cblen)
  {
  }

  lemma MeasureIs(t: Tables, input: real, maxIn: real, cblen: nat, i: nat)
    requires ValidTables(t) && cblen in {8, 16, 32} && maxIn >= 0.0 && i < cblen
    ensures ScaledDistance(input, Scale(maxIn), Table(t, cblen)[i]) == Measures(t, input, maxIn, cblen)[i]
  {
    LevelIs(t, maxIn, cblen, i);
  }

  /** gainquant: the index of a nearest coded value, and that value as the decoder will compute it. */
  method GainQuant(t: Tables, input: real, maxIn: real, cblen: nat) returns (index: nat, value: real)
    requires ValidTables(t) && cblen in {8, 16, 32} && maxIn >= 0.0
    ensures index < cblen && IsNearest(Measures(t, input, maxIn, cblen), NO_MATCH, index)
    ensures value == GainDequant(t, index, maxIn, cblen)
  {
    var scale := Scale(maxIn);
    var cb := Table(t, cblen);
    var measure := (i: nat) requires i < cblen => ScaledDistance(input, scale, cb[i]);
    forall i: nat | i < cblen
      ensures measure(i) == Measures(t, input, maxIn, cblen)[i]
    {
      MeasureIs(t, input, maxIn, cblen, i);
    }
    index := FirstSmallest(measure, cblen, NO_MATCH, Measures(t, input, maxIn, cblen));
    value := scale * cb[index];
    LevelIs(t, maxIn, cblen, index);
  }
}
