/** Bit-level packing: numbers of given widths appended to, and read back from,
    a byte buffer through a byte cursor and a bit position. */
module Packing {
  import opened Basics
  import opened Bits

  /** packsplit: the leading bits of a number and what remains of it. */
  method PackSplit(index: nat, bitnoFirst: nat, bitnoTotal: nat) returns (first: nat, rest: nat)
    requires bitnoFirst <= bitnoTotal
    ensures ToBits(index, bitnoTotal) == ToBits(first, bitnoFirst) + ToBits(rest, bitnoTotal - bitnoFirst)
    ensures rest < Pow2(bitnoTotal - bitnoFirst)
    ensures index < Pow2(bitnoTotal) ==> first < Pow2(bitnoFirst)
  {
    var bitnoRest := bitnoTotal - bitnoFirst;
    first := ShiftRight(index, bitnoRest);
    UpperAndLower(index, bitnoRest);
    rest := index - ShiftLeft(first, bitnoRest);
    BitsOfShiftRight(index, bitnoFirst, bitnoRest);
    BitsOfLowBits(index, bitnoRest);
    if index < Pow2(bitnoTotal) {
      ShiftRightBelow(index, bitnoFirst, bitnoRest);
    }
  }

  /** packcombine: appends the bits of rest to an n-bit number. */
  method PackCombine(index: nat, rest: nat, bitnoRest: nat, ghost n: nat) returns (combined: nat)
    requires index < Pow2(n) && rest < Pow2(bitnoRest)
    ensures ToBits(combined, n + bitnoRest) == ToBits(index, n) + ToBits(rest, bitnoRest)
    ensures combined < Pow2(n + bitnoRest)
  {
    combined := ShiftLeft(index, bitnoRest);
    combined := combined + rest;
    BitsOfAppend(index, n, rest, bitnoRest);
  }

  /** Everything before a cursor. */
  function Before(s: seq<Byte>, at: nat, pos: nat): (b: seq<bool>)
    requires at < |s| && pos <= 8
    ensures |b| == 8 * at + pos
  {
    BytesToBits(s[..at]) + ToBits(s[at], 8)[..pos]
  }

  /** Nothing has been written behind position pos of a byte. */
  predicate ClearFrom(byte: Byte, pos: nat)
    requires pos <= 8
  {
    ToBits(byte, 8)[pos..] == Zeros(8 - pos)
  }

  /** A cursor that a chunk can be written behind: the first write into a byte clears it. */
  predicate Clean(s: seq<Byte>, at: nat, pos: nat)
    requires at < |s| && pos <= 8
  {
    pos > 0 ==> ClearFrom(s[at], pos)
  }

  lemma NextByte(s: seq<Byte>, at: nat)
    requires at + 1 < |s|
    ensures Before(s, at + 1, 0) == Before(s, at, 8)
  {
    assert s[..at + 1][..at] == s[..at];
  }

  lemma ChunkBits(c: nat, pos: nat, m: nat, r: nat)
    requires c < Pow2(m)
    ensures ToBits(ShiftLeft(c, r), pos + m + r) == Zeros(pos) + ToBits(c, m) + Zeros(r)
    ensures ShiftLeft(c, r) < Pow2(pos + m + r)
  {
    BitsOfShiftLeft(c, pos + m, r);
    Widened(c, m, pos);
  }

  lemma OrOfParts(x: seq<bool>, y: seq<bool>, z: seq<bool>, front: seq<bool>, middle: seq<bool>, r: nat)
    requires x == front + Zeros(|middle| + r) && y == Zeros(|front|) + middle + Zeros(r) && |z| == |x|
    requires forall i | 0 <= i < |z| :: z[i] == (x[i] || y[i])
    ensures z == front + middle + Zeros(r)
  {
  }

  /** Or-ing an m-bit chunk behind position pos of a clear byte appends its bits and leaves the rest clear. */
  lemma ChunkIntoByte(byte: Byte, pos: nat, c: nat, m: nat)
    requires pos + m <= 8 && ClearFrom(byte, pos) && c < Pow2(m)
    ensures var chunk := ShiftLeft(c, 8 - pos - m);
            && chunk < 256 && Or(byte, chunk) < 256
            && ToBits(Or(byte, chunk), 8) == ToBits(byte, 8)[..pos] + ToBits(c, m) + Zeros(8 - pos - m)
  {
    var r := 8 - pos - m;
    var chunk := ShiftLeft(c, r);
    ByteIsEightBits();
    ChunkBits(c, pos, m, r);
    OrBelow(byte, chunk, 8);
    BitsOfOr(byte, chunk, 8);
    OrOfParts(ToBits(byte, 8), ToBits(chunk, 8), ToBits(Or(byte, chunk), 8), ToBits(byte, 8)[..pos], ToBits(c, m), r);
  }

  /** A narrow number in a wider field starts with zeros. */
  lemma {:induction false} Widened(c: nat, m: nat, k: nat)
    requires c < Pow2(m)
    ensures c < Pow2(k + m)
    ensures ToBits(c, k + m) == Zeros(k) + ToBits(c, m)
  {
    BitsOfAppend(0, k, c, m);
    BitsOfZero(k);
    ShiftOfZero(m);
    ZeroBelow(k);
  }

  lemma {:induction false} ShiftOfZero(n: nat)
    ensures ShiftLeft(0, n) == 0
  {
    if n > 0 {
      ShiftOfZero(n - 1);
    }
  }

  lemma ZeroBelow(n: nat)
    ensures 0 < Pow2(n)
  {
  }

  lemma ChunkAppends(s: seq<Byte>, at: nat, pos: nat, c: nat, m: nat)
    requires at < |s| && pos + m <= 8 && c < Pow2(m) && ClearFrom(s[at], pos)
    ensures var byte := Or(s[at], ShiftLeft(c, 8 - pos - m));
            && ShiftLeft(c, 8 - pos - m) < 256 && byte < 256
            && Before(s[at := byte], at, pos + m) == Before(s, at, pos) + ToBits(c, m)
            && ClearFrom(byte, pos + m)
  {
    ChunkIntoByte(s[at], pos, c, m);
    var byte := Or(s[at], ShiftLeft(c, 8 - pos - m));
    assert s[at := byte][..at] == s[..at];
    assert ToBits(byte, 8)[..pos + m] == ToBits(s[at], 8)[..pos] + ToBits(c, m);
  }

  /** The conversion of a number to a byte. */
  function LowByte(x: nat): (b: Byte)
    ensures x < 256 ==> b == x
  {
    x % 256
  }

  /** Writes one chunk into the byte under the cursor. */
  method WriteChunk(buf: array<Byte>, at: nat, pos: nat, c: nat, m: nat)
    requires at < buf.Length && pos + m <= 8 && c < Pow2(m) && ClearFrom(buf[at], pos)
    modifies buf
    ensures Before(buf[..], at, pos + m) == old(Before(buf[..], at, pos)) + ToBits(c, m)
    ensures ClearFrom(buf[at], pos + m)
  {
    ghost var s := buf[..];
    ChunkAppends(s, at, pos, c, m);
    var chunk := ShiftLeft(c, 8 - pos - m);
    var byte: Byte := Or(buf[at], LowByte(chunk));
    buf[at] := byte;
    assert buf[..] == s[at := byte];
  }

  /** Clears the byte under a cursor that stands at its beginning. */
  method ClearByte(buf: array<Byte>, at: nat)
    requires at < buf.Length
    modifies buf
    ensures Before(buf[..], at, 0) == old(Before(buf[..], at, 0)) && ClearFrom(buf[at], 0)
    ensures forall i | 0 <= i < buf.Length && i != at :: buf[i] == old(buf[i])
  {
    ghost var front := buf[..at];
    buf[at] := 0;
    assert buf[..at] == front;
    BitsOfZero(8);
  }

  /** One pass of the loop: a chunk that ends the number or fills the byte. */
  method PackStep(buf: array<Byte>, at: nat, pos: nat, index: nat, bitno: nat)
    returns (pos': nat, index': nat, bitno': nat)
    requires at < buf.Length && pos < 8 && ClearFrom(buf[at], pos)
    requires bitno > 0 && index < Pow2(bitno)
    modifies buf
    ensures pos < pos' <= 8 && ClearFrom(buf[at], pos')
    ensures index' < Pow2(bitno') && pos' + bitno' == pos + bitno && (bitno' > 0 ==> pos' == 8)
    ensures Before(buf[..], at, pos') + ToBits(index', bitno') == old(Before(buf[..], at, pos)) + ToBits(index, bitno)
  {
    var posLeft := 8 - pos;
    if bitno <= posLeft {
      WriteChunk(buf, at, pos, index, bitno);
      pos' := pos + bitno;
      index', bitno' := 0, 0;
      assert ToBits(index', 0) == [];
    } else {
      bitno' := bitno - posLeft;
      var c := ShiftRight(index, bitno');
      ShiftRightBelow(index, posLeft, bitno');
      BitsOfShiftRight(index, posLeft, bitno');
      UpperAndLower(index, bitno');
      BitsOfLowBits(index, bitno');
      WriteChunk(buf, at, pos, c, posLeft);
      pos' := 8;
      index' := index - ShiftLeft(c, bitno');
    }
  }

  /** dopack: appends the low bitno bits of index. */
  method DoPack(buf: array<Byte>, at0: nat, index0: nat, bitno0: nat, pos0: nat) returns (at: nat, pos: nat)
    requires at0 < buf.Length && pos0 <= 8 && Clean(buf[..], at0, pos0)
    requires index0 < Pow2(bitno0)
    requires 8 * at0 + pos0 + bitno0 <= 8 * buf.Length
    modifies buf
    ensures at < buf.Length && pos <= 8 && Clean(buf[..], at, pos)
    ensures 8 * at + pos == 8 * at0 + pos0 + bitno0
    ensures Before(buf[..], at, pos) == old(Before(buf[..], at0, pos0)) + ToBits(index0, bitno0)
  {
    ghost var target := Before(buf[..], at0, pos0) + ToBits(index0, bitno0);
    at, pos := at0, pos0;
    var index: nat, bitno: nat := index0, bitno0;
    if pos == 0 {
      ClearByte(buf, at);
    }
    while bitno > 0
      invariant at0 <= at < buf.Length && pos <= 8 && ClearFrom(buf[at], pos)
      invariant index < Pow2(bitno)
      invariant 8 * at + pos + bitno == 8 * at0 + pos0 + bitno0
      invariant Before(buf[..], at, pos) + ToBits(index, bitno) == target
      decreases bitno
    {
      if pos == 8 {
        pos := 0;
        at := at + 1;
        NextByte(buf[..], at - 1);
        ClearByte(buf, at);
      }
      pos, index, bitno := PackStep(buf, at, pos, index, bitno);
    }
    assert ToBits(index, 0) == [];
  }

  // ---- Reading ----

  /** n bits of a byte string from bit position p on. */
  function BitsAt(s: seq<Byte>, p: nat, n: nat): (b: seq<bool>)
    requires p + n <= 8 * |s|
    ensures |b| == n
  {
    BytesToBits(s)[p..p + n]
  }

  lemma BitsAtSplit(s: seq<Byte>, p: nat, m: nat, n: nat)
    requires p + m + n <= 8 * |s|
    ensures BitsAt(s, p, m + n) == BitsAt(s, p, m) + BitsAt(s, p + m, n)
  {
  }

  /** m bits of one byte from position pos on. */
  lemma BitsInByte(s: seq<Byte>, at: nat, pos: nat, m: nat)
    requires at < |s| && pos + m <= 8
    ensures BitsAt(s, 8 * at + pos, m) == ToBits(s[at], 8)[pos..pos + m]
  {
    BytesToBitsAt(s, at);
    SliceOfSlice(BytesToBits(s), 8 * at, 8, pos, m);
  }

  /** int(byte) << pos & 255: the bits from pos on, moved to the top. */
  function ShiftedByte(byte: Byte, pos: nat): (r: nat)
    requires pos <= 8
    ensures r < Pow2(8)
  {
    LowBits(ShiftLeft(byte, pos), 8)
  }

  lemma BitsOfShiftedByte(byte: Byte, pos: nat)
    requires pos <= 8
    ensures ToBits(ShiftedByte(byte, pos), 8) == ToBits(byte, 8)[pos..] + Zeros(pos)
  {
    BitsOfLowBits(ShiftLeft(byte, pos), 8);
    BitsOfShiftLeft(byte, 8, pos);
    BitsOfShiftRight(ShiftLeft(byte, pos), pos, 8);
    assert pos + 8 == 8 + pos;
    assert (ToBits(byte, 8) + Zeros(pos))[pos..] == ToBits(byte, 8)[pos..] + Zeros(pos);
  }

  /** The value added when the byte holds all bits still wanted. */
  lemma ReadInside(byte: Byte, pos: nat, m: nat)
    requires pos + m <= 8
    ensures ToBits(ShiftRight(ShiftedByte(byte, pos), 8 - m), m) == ToBits(byte, 8)[pos..pos + m]
    ensures ShiftRight(ShiftedByte(byte, pos), 8 - m) < Pow2(m)
  {
    var v, b := ShiftedByte(byte, pos), ToBits(byte, 8);
    BitsOfShiftedByte(byte, pos);
    ShiftRightBelow(v, m, 8 - m);
    BitsOfShiftRight(v, m, 8 - m);
    TopOfShifted(b, pos, m);
  }

  lemma TopOfShifted(b: seq<bool>, pos: nat, m: nat)
    requires pos + m <= |b|
    ensures (b[pos..] + Zeros(pos))[..m] == b[pos..pos + m]
  {
  }

  /** The value added when more bits are wanted than the byte still holds. */
  function WholeRest(byte: Byte, pos: nat, bitno: nat): nat
    requires pos <= 8
  {
    if 8 > bitno then ShiftRight(ShiftedByte(byte, pos), 8 - bitno) else ShiftLeft(ShiftedByte(byte, pos), bitno - 8)
  }

  lemma ReadRest(byte: Byte, pos: nat, bitno: nat)
    requires pos <= 8 && 8 - pos < bitno
    ensures ToBits(WholeRest(byte, pos, bitno), bitno) == ToBits(byte, 8)[pos..] + Zeros(bitno - (8 - pos))
    ensures WholeRest(byte, pos, bitno) < Pow2(bitno)
  {
    var v, b := ShiftedByte(byte, pos), ToBits(byte, 8);
    BitsOfShiftedByte(byte, pos);
    if 8 > bitno {
      ShiftRightBelow(v, bitno, 8 - bitno);
      BitsOfShiftRight(v, bitno, 8 - bitno);
      ShortTail(b, pos, bitno);
    } else {
      BitsOfShiftLeft(v, 8, bitno - 8);
      LongTail(b, pos, bitno);
    }
  }

  lemma ShortTail(b: seq<bool>, pos: nat, n: nat)
    requires |b| == 8 && pos <= 8 && 8 - pos < n <= 8
    ensures (b[pos..] + Zeros(pos))[..n] == b[pos..] + Zeros(n - (8 - pos))
  {
  }

  lemma LongTail(b: seq<bool>, pos: nat, n: nat)
    requires |b| == 8 && pos <= 8 <= n
    ensures b[pos..] + Zeros(pos) + Zeros(n - 8) == b[pos..] + Zeros(n - (8 - pos))
  {
  }

  /** Adding a k-bit number to one that ends in k zeros replaces the zeros. */
  lemma AddIntoZeros(index: nat, front: seq<bool>, w: nat, k: nat)
    requires index < Pow2(|front| + k) && ToBits(index, |front| + k) == front + Zeros(k) && w < Pow2(k)
    ensures ToBits(index + w, |front| + k) == front + ToBits(w, k)
    ensures index + w < Pow2(|front| + k)
  {
    var h := ShiftRight(index, k);
    BitsOfShiftRight(index, |front|, k);
    ShiftRightBelow(index, |front|, k);
    UpperAndLower(index, k);
    BitsOfLowBits(index, k);
    BitsOfZero(k);
    ZeroBelow(k);
    BitsDetermine(LowBits(index, k), 0, k);
    BitsOfAppend(h, |front|, w, k);
  }

  /** The value that one pass of the loop adds, and the bits it takes. */
  method UnpackStep(byte: Byte, pos: nat, bitno: nat) returns (v: nat, taken: nat)
    requires pos < 8 && bitno > 0
    ensures taken == if 8 - pos >= bitno then bitno else 8 - pos
    ensures v < Pow2(bitno)
    ensures ToBits(v, bitno) == ToBits(byte, 8)[pos..pos + taken] + Zeros(bitno - taken)
  {
    var bitsLeft := 8 - pos;
    if bitsLeft >= bitno {
      v := ShiftRight(ShiftedByte(byte, pos), 8 - bitno);
      taken := bitno;
      ReadInside(byte, pos, bitno);
    } else {
      v := WholeRest(byte, pos, bitno);
      taken := bitsLeft;
      ReadRest(byte, pos, bitno);
    }
  }

  /** The first bitno0 - bitno of the wanted bits have been read into the top of index. */
  ghost predicate Reading(s: seq<Byte>, start: nat, bitno0: nat, bitno: nat, index: nat)
    requires bitno <= bitno0 && start + bitno0 <= 8 * |s|
  {
    && index < Pow2(bitno0)
    && ToBits(index, bitno0) == BitsAt(s, start, bitno0 - bitno) + Zeros(bitno)
  }

  lemma ReadingStep(s: seq<Byte>, start: nat, bitno0: nat, bitno: nat, index: nat, at: nat, pos: nat, v: nat,
                    taken: nat)
    requires bitno <= bitno0 && start + bitno0 <= 8 * |s| && Reading(s, start, bitno0, bitno, index)
    requires at < |s| && pos < 8 && 8 * at + pos == start + (bitno0 - bitno)
    requires taken <= bitno && pos + taken <= 8
    requires v < Pow2(bitno) && ToBits(v, bitno) == ToBits(s[at], 8)[pos..pos + taken] + Zeros(bitno - taken)
    ensures Reading(s, start, bitno0, bitno - taken, index + v)
  {
    var n := bitno0 - bitno;
    BitsInByte(s, at, pos, taken);
    BitsAtSplit(s, start, n, taken);
    AddIntoZeros(index, BitsAt(s, start, n), v, bitno);
    assert n + taken == bitno0 - (bitno - taken);
  }

  /** unpack: the next bitno bits as a number. */
  method Unpack(s: seq<Byte>, at0: nat, bitno0: nat, pos0: nat) returns (index: nat, at: nat, pos: nat)
    requires at0 < |s| && pos0 <= 8 && 8 * at0 + pos0 + bitno0 <= 8 * |s|
    ensures at < |s| && pos <= 8 && 8 * at + pos == 8 * at0 + pos0 + bitno0
    ensures ToBits(index, bitno0) == BitsAt(s, 8 * at0 + pos0, bitno0)
    ensures index < Pow2(bitno0)
  {
    index, at, pos := 0, at0, pos0;
    var bitno: nat := bitno0;
    ghost var start := 8 * at0 + pos0;
    BitsOfZero(bitno0);
    while bitno > 0
      invariant at0 <= at < |s| && pos <= 8 && bitno <= bitno0
      invariant 8 * at + pos + bitno == start + bitno0
      invariant Reading(s, start, bitno0, bitno, index)
      decreases bitno
    {
      if pos == 8 {
        pos := 0;
        at := at + 1;
      }
      var v, taken := UnpackStep(s[at], pos, bitno);
      ReadingStep(s, start, bitno0, bitno, index, at, pos, v, taken);
      index := index + v;
      pos := pos + taken;
      bitno := bitno - taken;
    }
  }

}
