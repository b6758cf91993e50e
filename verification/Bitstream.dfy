/** The frame format: every field is cut into the pieces of three importance
    classes, and a frame is the pieces of the first class, of the second and of
    the third, followed by one clear bit. */
module Bitstream {
  import opened Basics
  import opened Bits
  import opened Packing

  const CLASSES: nat := 3

  /** The widths of a field's pieces, class by class; a table row ends in two zeros. */
  type Widths = w: seq<nat> | |w| == 5 && w[3] == 0 && w[4] == 0 witness [0, 0, 0, 0, 0]

  /** The bits of a field from class c on, added up as the packing code does. */
  function TailWidth(w: Widths, c: nat): (n: nat)
    requires c <= CLASSES
    ensures c < CLASSES ==> n == w[c] + TailWidth(w, c + 1)
    decreases CLASSES - c
  {
    if c == CLASSES then 0 else w[c] + w[c + 1] + w[c + 2]
  }

  function Total(w: Widths): nat {
    TailWidth(w, 0)
  }

  predicate InRange(ws: seq<Widths>, vs: seq<nat>) {
    |vs| == |ws| && forall k | 0 <= k < |ws| :: vs[k] < Pow2(Total(ws[k]))
  }

  /** The bits that are still to come before field k of class c. */
  function Width(ws: seq<Widths>, c: nat, k: nat): nat
    requires c <= CLASSES && k <= |ws|
    decreases CLASSES - c, |ws| - k
  {
    if c == CLASSES then 0
    else if k == |ws| then Width(ws, c + 1, 0)
    else ws[k][c] + Width(ws, c, k + 1)
  }

  // ---- Packing and unpacking as functions on bits ----

  /** Fields before k hold their pieces after class c, the others those from class c on. */
  ghost predicate Shaped(ws: seq<Widths>, c: nat, k: nat, rems: seq<seq<bool>>)
    requires c <= CLASSES && k <= |ws|
  {
    && |rems| == |ws|
    && (c == CLASSES ==> forall j | 0 <= j < |ws| :: rems[j] == [])
    && (c < CLASSES ==> forall j | 0 <= j < |ws| :: |rems[j]| == TailWidth(ws[j], if j < k then c + 1 else c))
  }

  /** The rest of a frame: the pieces of the fields that are still to come, in order. */
  ghost function PackBits(ws: seq<Widths>, c: nat, k: nat, rems: seq<seq<bool>>): (b: seq<bool>)
    requires c <= CLASSES && k <= |ws| && Shaped(ws, c, k, rems)
    ensures |b| == Width(ws, c, k)
    decreases CLASSES - c, |ws| - k
  {
    if c == CLASSES then []
    else if k == |ws| then PackBits(ws, c + 1, 0, rems)
    else rems[k][..ws[k][c]] + PackBits(ws, c, k + 1, rems[k := rems[k][ws[k][c]..]])
  }

  /** The fields after appending to each the pieces that are still to come, read in order. */
  ghost function UnpackBits(ws: seq<Widths>, c: nat, k: nat, s: seq<bool>,
                            acc: seq<seq<bool>>): (fields: seq<seq<bool>>)
    requires c <= CLASSES && k <= |ws| == |acc| && |s| >= Width(ws, c, k)
    ensures |fields| == |ws|
    decreases CLASSES - c, |ws| - k
  {
    if c == CLASSES then acc
    else if k == |ws| then UnpackBits(ws, c + 1, 0, s, acc)
    else UnpackBits(ws, c, k + 1, s[ws[k][c]..], acc[k := acc[k] + s[..ws[k][c]]])
  }

  ghost predicate Joined(fields: seq<seq<bool>>, acc: seq<seq<bool>>, rems: seq<seq<bool>>) {
    && |fields| == |acc| == |rems|
    && forall j | 0 <= j < |fields| :: fields[j] == acc[j] + rems[j]
  }

  /** A piece moves from what is still to come to what was read. */
  lemma JoinMoves(fields: seq<seq<bool>>, acc: seq<seq<bool>>, rems: seq<seq<bool>>, k: nat, piece: seq<bool>,
                  rest: seq<bool>)
    requires k < |acc| == |rems| && rems[k] == piece + rest
    requires Joined(fields, acc[k := acc[k] + piece], rems[k := rest])
    ensures Joined(fields, acc, rems)
  {
    assert acc[k] + piece + rest == acc[k] + rems[k];
  }

  lemma {:induction false} UnpackingPacked(ws: seq<Widths>, c: nat, k: nat, rems: seq<seq<bool>>, tail: seq<bool>,
                                           acc: seq<seq<bool>>)
    requires c <= CLASSES && k <= |ws| == |acc| && Shaped(ws, c, k, rems)
    ensures Joined(UnpackBits(ws, c, k, PackBits(ws, c, k, rems) + tail, acc), acc, rems)
    decreases CLASSES - c, |ws| - k
  {
    if c == CLASSES {
      assert forall j | 0 <= j < |ws| :: acc[j] + rems[j] == acc[j];
    } else if k == |ws| {
      UnpackingPacked(ws, c + 1, 0, rems, tail, acc);
    } else {
      var w := ws[k][c];
      var piece, rems' := rems[k][..w], rems[k := rems[k][w..]];
      var rest := PackBits(ws, c, k + 1, rems');
      var s := PackBits(ws, c, k, rems) + tail;
      assert s == piece + (rest + tail);
      assert s[..w] == piece && s[w..] == rest + tail;
      UnpackingPacked(ws, c, k + 1, rems', tail, acc[k := acc[k] + piece]);
      hide Joined, PackBits;
      JoinMoves(UnpackBits(ws, c, k, s, acc), acc, rems, k, piece, rems[k][w..]);
    }
  }

  lemma {:induction false} PackingUnpacked(ws: seq<Widths>, c: nat, k: nat, s: seq<bool>, acc: seq<seq<bool>>)
    returns (rems: seq<seq<bool>>)
    requires c <= CLASSES && k <= |ws| == |acc| && |s| >= Width(ws, c, k)
    ensures Shaped(ws, c, k, rems)
    ensures Joined(UnpackBits(ws, c, k, s, acc), acc, rems)
    ensures PackBits(ws, c, k, rems) == s[..Width(ws, c, k)]
    decreases CLASSES - c, |ws| - k
  {
    if c == CLASSES {
      rems := seq(|ws|, i => []);
      assert forall j | 0 <= j < |ws| :: acc[j] + rems[j] == acc[j];
    } else if k == |ws| {
      rems := PackingUnpacked(ws, c + 1, 0, s, acc);
    } else {
      var w := ws[k][c];
      var piece := s[..w];
      var rest := PackingUnpacked(ws, c, k + 1, s[w..], acc[k := acc[k] + piece]);
      rems := rest[k := piece + rest[k]];
      assert rems[k][w..] == rest[k];
      assert rems[k := rest[k]] == rest;
      hide Joined;
      JoinMoves(UnpackBits(ws, c, k, s, acc), acc, rems, k, piece, rest[k]);
      assert s[..Width(ws, c, k)] == piece + s[w..][..Width(ws, c, k + 1)];
    }
  }

  // ---- Fields as numbers ----

  ghost function FieldBits(ws: seq<Widths>, vs: seq<nat>): (rems: seq<seq<bool>>)
    requires |vs| == |ws|
    ensures Shaped(ws, 0, 0, rems)
  {
    seq(|ws|, k requires 0 <= k < |ws| => ToBits(vs[k], Total(ws[k])))
  }

  ghost function FrameBits(ws: seq<Widths>, vs: seq<nat>): seq<bool>
    requires |vs| == |ws|
  {
    PackBits(ws, 0, 0, FieldBits(ws, vs))
  }

  ghost function NoBits(ws: seq<Widths>): (acc: seq<seq<bool>>)
    ensures |acc| == |ws|
  {
    seq(|ws|, k => [])
  }

  /** The fields that a frame's bits denote. */
  ghost function Unpacked(ws: seq<Widths>, s: seq<bool>): (vs: seq<nat>)
    requires |s| >= Width(ws, 0, 0)
    ensures |vs| == |ws|
  {
    var fields := UnpackBits(ws, 0, 0, s, NoBits(ws));
    seq(|ws|, k requires 0 <= k < |ws| => FromBits(fields[k]))
  }

  /** A frame of bytes carries the fields. */
  ghost predicate Carries(bytes: seq<Byte>, ws: seq<Widths>, vs: seq<nat>)
    requires |ws| == |vs|
  {
    BytesToBits(bytes) == FrameBits(ws, vs) + [false]
  }

  /** Unpacking returns the fields that were packed. */
  lemma UnpackedInvertsFrame(ws: seq<Widths>, vs: seq<nat>, tail: seq<bool>)
    requires InRange(ws, vs)
    ensures Unpacked(ws, FrameBits(ws, vs) + tail) == vs
  {
    var rems, acc := FieldBits(ws, vs), NoBits(ws);
    UnpackingPacked(ws, 0, 0, rems, tail, acc);
    forall k | 0 <= k < |ws|
      ensures Unpacked(ws, FrameBits(ws, vs) + tail)[k] == vs[k]
    {
      assert acc[k] + rems[k] == rems[k];
      FromToBits(vs[k], Total(ws[k]));
    }
  }

  /** Any bytes of the right length with a clear last bit are the packing of the fields they unpack to. */
  lemma RepackingReproduces(ws: seq<Widths>, bytes: seq<Byte>)
    requires 8 * |bytes| == Width(ws, 0, 0) + 1
    ensures InRange(ws, Unpacked(ws, BytesToBits(bytes)))
    ensures Carries(bytes, ws, Unpacked(ws, BytesToBits(bytes))) <==> !BytesToBits(bytes)[8 * |bytes| - 1]
  {
    var s, acc := BytesToBits(bytes), NoBits(ws);
    var vs := Unpacked(ws, s);
    var rems := PackingUnpacked(ws, 0, 0, s, acc);
    forall k | 0 <= k < |ws|
      ensures vs[k] < Pow2(Total(ws[k])) && FieldBits(ws, vs)[k] == rems[k]
    {
      assert acc[k] + rems[k] == rems[k];
      ToFromBits(rems[k]);
    }
    assert FieldBits(ws, vs) == rems;
    assert s == s[..Width(ws, 0, 0)] + [s[|s| - 1]];
  }

  /** Two frames that carry the same fields are the same bytes. */
  lemma CarriesDeterminesBytes(a: seq<Byte>, b: seq<Byte>, ws: seq<Widths>, vs: seq<nat>)
    requires |ws| == |vs| && Carries(a, ws, vs) && Carries(b, ws, vs)
    ensures a == b
  {
    BytesToBitsInjective(a, b);
  }

  // ---- The packing loops ----

  /** Numbers that hold given bits. */
  ghost predicate Hold(rests: seq<nat>, rems: seq<seq<bool>>) {
    && |rests| == |rems|
    && forall j | 0 <= j < |rests| :: rests[j] < Pow2(|rems[j]|) && ToBits(rests[j], |rems[j]|) == rems[j]
  }

  /** packsplit and dopack for one field: its piece is appended and taken from it. */
  method PackField(buf: array<Byte>, at0: nat, pos0: nat, w: Widths, c: nat, rest0: nat, ghost rem: seq<bool>)
    returns (at: nat, pos: nat, rest: nat)
    requires c < CLASSES && |rem| == TailWidth(w, c) && rest0 < Pow2(|rem|) && ToBits(rest0, |rem|) == rem
    requires at0 < buf.Length && pos0 <= 8 && Clean(buf[..], at0, pos0) && 8 * at0 + pos0 + w[c] <= 8 * buf.Length
    modifies buf
    ensures rest < Pow2(|rem| - w[c]) && ToBits(rest, |rem| - w[c]) == rem[w[c]..]
    ensures at < buf.Length && pos <= 8 && Clean(buf[..], at, pos) && 8 * at + pos == 8 * at0 + pos0 + w[c]
    ensures Before(buf[..], at, pos) == old(Before(buf[..], at0, pos0)) + rem[..w[c]]
  {
    var first;
    first, rest := PackSplit(rest0, w[c], w[c] + w[c + 1] + w[c + 2]);
    assert rem[..w[c]] == ToBits(first, w[c]);
    assert rem[w[c]..] == ToBits(rest, |rem| - w[c]);
    at, pos := DoPack(buf, at0, first, w[c], pos0);
  }

  /** Where a partly packed frame stands: what is written and what the fields still hold make up the frame. */
  ghost predicate Partway(s: seq<Byte>, at: nat, pos: nat, ws: seq<Widths>, c: nat, k: nat,
                          rests: seq<nat>, rems: seq<seq<bool>>, frame: seq<bool>)
    requires c <= CLASSES && k <= |ws|
  {
    && at < |s| && pos <= 8 && Clean(s, at, pos)
    && Shaped(ws, c, k, rems) && Hold(rests, rems)
    && Before(s, at, pos) + PackBits(ws, c, k, rems) == frame
  }

  /** The next field. */
  method PackNext(buf: array<Byte>, at0: nat, pos0: nat, ws: seq<Widths>, c: nat, k: nat,
                  rests: array<nat>, ghost rems0: seq<seq<bool>>, ghost frame: seq<bool>)
    returns (at: nat, pos: nat, ghost rems: seq<seq<bool>>)
    requires c < CLASSES && k < |ws| == rests.Length && |frame| <= 8 * buf.Length
    requires Partway(buf[..], at0, pos0, ws, c, k, rests[..], rems0, frame)
    modifies buf, rests
    ensures Partway(buf[..], at, pos, ws, c, k + 1, rests[..], rems, frame)
  {
    ghost var s0, values := buf[..], rests[..];
    rems := rems0[k := rems0[k][ws[k][c]..]];
    PieceFits(buf[..], at0, pos0, ws, c, k, values, rems0, frame);
    hide Partway;
    var rest;
    at, pos, rest := PackField(buf, at0, pos0, ws[k], c, rests[k], rems0[k]);
    PartwayNext(s0, at0, pos0, buf[..], at, pos, ws, c, k, values, rems0, rest, frame);
    assert rests[..] == values;
    rests[k] := rest;
    assert rests[..] == values[k := rest];
  }

  /** The next piece fits behind what is written. */
  lemma PieceFits(s: seq<Byte>, at: nat, pos: nat, ws: seq<Widths>, c: nat, k: nat, rests: seq<nat>,
                  rems: seq<seq<bool>>, frame: seq<bool>)
    requires c < CLASSES && k < |ws| && |frame| <= 8 * |s| && Partway(s, at, pos, ws, c, k, rests, rems, frame)
    ensures at < |s| && pos <= 8 && Clean(s, at, pos) && 8 * at + pos + ws[k][c] <= 8 * |s|
    ensures |rests| == |rems| == |ws| && |rems[k]| == TailWidth(ws[k], c) && ws[k][c] <= |rems[k]|
    ensures rests[k] < Pow2(|rems[k]|) && ToBits(rests[k], |rems[k]|) == rems[k]
  {
  }

  lemma PartwayNext(s0: seq<Byte>, at0: nat, pos0: nat, s: seq<Byte>, at: nat, pos: nat, ws: seq<Widths>, c: nat,
                    k: nat, rests: seq<nat>, rems: seq<seq<bool>>, rest: nat, frame: seq<bool>)
    requires c < CLASSES && k < |ws| && Partway(s0, at0, pos0, ws, c, k, rests, rems, frame)
    requires |rests| == |rems| == |ws| && ws[k][c] <= |rems[k]|
    requires at < |s| && pos <= 8 && Clean(s, at, pos)
    requires Before(s, at, pos) == Before(s0, at0, pos0) + rems[k][..ws[k][c]]
    requires rest < Pow2(|rems[k]| - ws[k][c]) && ToBits(rest, |rems[k]| - ws[k][c]) == rems[k][ws[k][c]..]
    ensures Partway(s, at, pos, ws, c, k + 1, rests[k := rest], rems[k := rems[k][ws[k][c]..]], frame)
  {
    var w, next := ws[k][c], rems[k := rems[k][ws[k][c]..]];
    NextHeld(ws, c, k, rests, rems, rest);
    PackStep(ws, c, k, rems);
    hide PackBits, Shaped, Hold, Before, Clean;
    Regroup(Before(s0, at0, pos0), rems[k][..w], PackBits(ws, c, k + 1, next));
  }

  lemma Regroup<T>(a: seq<T>, b: seq<T>, c: seq<T>)
    ensures a + (b + c) == (a + b) + c
  {
  }

  lemma PackStep(ws: seq<Widths>, c: nat, k: nat, rems: seq<seq<bool>>)
    requires c < CLASSES && k < |ws| && Shaped(ws, c, k, rems) && ws[k][c] <= |rems[k]|
    ensures var next := rems[k := rems[k][ws[k][c]..]];
            Shaped(ws, c, k + 1, next)
            && PackBits(ws, c, k, rems) == rems[k][..ws[k][c]] + PackBits(ws, c, k + 1, next)
  {
  }

  /** One field's piece less. */
  lemma NextHeld(ws: seq<Widths>, c: nat, k: nat, rests: seq<nat>, rems: seq<seq<bool>>, rest: nat)
    requires c < CLASSES && k < |ws| && Shaped(ws, c, k, rems) && Hold(rests, rems)
    requires var w := ws[k][c];
             w <= |rems[k]| && rest < Pow2(|rems[k]| - w) && ToBits(rest, |rems[k]| - w) == rems[k][w..]
    ensures var next := rems[k := rems[k][ws[k][c]..]];
            Shaped(ws, c, k + 1, next) && Hold(rests[k := rest], next)
  {
  }

  /** One importance class: a piece of every field. */
  method PackClass(buf: array<Byte>, at0: nat, pos0: nat, ws: seq<Widths>, c: nat, rests: array<nat>,
                   ghost rems0: seq<seq<bool>>, ghost frame: seq<bool>)
    returns (at: nat, pos: nat, ghost rems: seq<seq<bool>>)
    requires c < CLASSES && |ws| == rests.Length && |frame| <= 8 * buf.Length
    requires Partway(buf[..], at0, pos0, ws, c, 0, rests[..], rems0, frame)
    modifies buf, rests
    ensures Partway(buf[..], at, pos, ws, c + 1, 0, rests[..], rems, frame)
  {
    hide Partway;
    at, pos, rems := at0, pos0, rems0;
    for k := 0 to |ws|
      invariant Partway(buf[..], at, pos, ws, c, k, rests[..], rems, frame)
    {
      at, pos, rems := PackNext(buf, at, pos, ws, c, k, rests, rems, frame);
    }
    ClassDone(buf[..], at, pos, ws, c, rests[..], rems, frame);
  }

  lemma ClassDone(s: seq<Byte>, at: nat, pos: nat, ws: seq<Widths>, c: nat, rests: seq<nat>, rems: seq<seq<bool>>,
                  frame: seq<bool>)
    requires c < CLASSES && Partway(s, at, pos, ws, c, |ws|, rests, rems, frame)
    ensures Partway(s, at, pos, ws, c + 1, 0, rests, rems, frame)
  {
  }

  /** The packing part of encodeFrame: the fields over three classes, then a zero bit. It fills exactly the bytes
      of the frame when the widths add up to one bit less. */
  method PackFrame(buf: array<Byte>, ws: seq<Widths>, vs: seq<nat>)
    requires InRange(ws, vs) && 8 * buf.Length == Width(ws, 0, 0) + 1
    modifies buf
    ensures Carries(buf[..], ws, vs)
  {
    var rests := new nat[|ws|](i requires 0 <= i < |vs| => vs[i]);
    assert rests[..] == vs;
    var at, pos := 0, 0;
    ghost var rems, frame := FieldBits(ws, vs), FrameBits(ws, vs);
    assert Before(buf[..], 0, 0) + frame == frame;
    var c := 0;
    while c < CLASSES
      invariant 0 <= c <= CLASSES
      invariant Partway(buf[..], at, pos, ws, c, 0, rests[..], rems, frame)
    {
      at, pos, rems := PackClass(buf, at, pos, ws, c, rests, rems, frame);
      c := c + 1;
    }
    assert Before(buf[..], at, pos) == frame;
    at, pos := DoPack(buf, at, 0, 1, pos);
    FullBuffer(buf[..], at, pos);
    BitsOfZero(1);
    assert Zeros(1) == [false];
  }

  /** A cursor behind the last bit has everything before it. */
  lemma FullBuffer(s: seq<Byte>, at: nat, pos: nat)
    requires at < |s| && pos <= 8 && 8 * at + pos == 8 * |s|
    ensures Before(s, at, pos) == BytesToBits(s)
  {
    assert at == |s| - 1 && pos == 8;
    var last := ToBits(s[at], 8);
    assert last[..8] == last;
    assert s[..|s| - 1] == s[..at];
  }

  // ---- The unpacking loops ----

  /** Where a partly unpacked frame stands. */
  ghost predicate Reading(s: seq<bool>, p: nat, ws: seq<Widths>, c: nat, k: nat,
                          values: seq<nat>, acc: seq<seq<bool>>, fields: seq<seq<bool>>)
    requires c <= CLASSES && k <= |ws|
  {
    && |acc| == |ws| && Hold(values, acc)
    && p + Width(ws, c, k) < |s|
    && UnpackBits(ws, c, k, s[p..], acc) == fields
  }

  lemma ReadNext(s: seq<bool>, p: nat, ws: seq<Widths>, c: nat, k: nat,
                 values: seq<nat>, acc: seq<seq<bool>>, fields: seq<seq<bool>>, v: nat)
    requires c < CLASSES && k < |ws| && Reading(s, p, ws, c, k, values, acc, fields)
    requires var b := acc[k] + s[p..p + ws[k][c]]; v < Pow2(|b|) && ToBits(v, |b|) == b
    ensures Reading(s, p + ws[k][c], ws, c, k + 1, values[k := v], acc[k := acc[k] + s[p..p + ws[k][c]]], fields)
  {
    var w := ws[k][c];
    assert s[p..][..w] == s[p..p + w];
    assert s[p..][w..] == s[p + w..];
  }

  /** Where the cursor of a partly unpacked frame stands. */
  ghost predicate At(bytes: seq<Byte>, at: nat, pos: nat, ws: seq<Widths>, c: nat, k: nat)
    requires c <= CLASSES && k <= |ws|
  {
    at < |bytes| && pos <= 8 && 8 * at + pos + Width(ws, c, k) + 1 == 8 * |bytes|
  }

  /** unpack and packcombine for one field. */
  method UnpackNext(bytes: seq<Byte>, at0: nat, pos0: nat, ws: seq<Widths>, c: nat, k: nat, values: seq<nat>,
                    ghost acc0: seq<seq<bool>>, ghost fields: seq<seq<bool>>)
    returns (at: nat, pos: nat, vs: seq<nat>, ghost acc: seq<seq<bool>>)
    requires c < CLASSES && k < |ws| && At(bytes, at0, pos0, ws, c, k)
    requires Reading(BytesToBits(bytes), 8 * at0 + pos0, ws, c, k, values, acc0, fields)
    ensures At(bytes, at, pos, ws, c, k + 1)
    ensures Reading(BytesToBits(bytes), 8 * at + pos, ws, c, k + 1, vs, acc, fields)
  {
    ghost var p, s := 8 * at0 + pos0, BytesToBits(bytes);
    var w: nat := ws[k][c];
    var lastpart;
    lastpart, at, pos := Unpack(bytes, at0, w, pos0);
    var v := PackCombine(values[k], lastpart, w, |acc0[k]|);
    ReadNext(s, p, ws, c, k, values, acc0, fields, v);
    acc := acc0[k := acc0[k] + s[p..p + w]];
    vs := values[k := v];
  }

  /** The unpacking part of decodeFrame. */
  method UnpackFrame(bytes: seq<Byte>, ws: seq<Widths>) returns (vs: seq<nat>, lastBit: nat)
    requires 8 * |bytes| == Width(ws, 0, 0) + 1
    ensures vs == Unpacked(ws, BytesToBits(bytes))
    ensures lastBit == if BytesToBits(bytes)[8 * |bytes| - 1] then 1 else 0
  {
    vs := seq(|ws|, i => 0);
    var at: nat, pos: nat := 0, 0;
    ghost var s, acc := BytesToBits(bytes), NoBits(ws);
    ghost var fields := UnpackBits(ws, 0, 0, s, acc);
    assert s[0..] == s;
    var c := 0;
    while c < CLASSES
      invariant 0 <= c <= CLASSES
      invariant At(bytes, at, pos, ws, c, 0)
      invariant Reading(s, 8 * at + pos, ws, c, 0, vs, acc, fields)
    {
      for k := 0 to |ws|
        invariant At(bytes, at, pos, ws, c, k)
        invariant Reading(s, 8 * at + pos, ws, c, k, vs, acc, fields)
      {
        at, pos, vs, acc := UnpackNext(bytes, at, pos, ws, c, k, vs, acc, fields);
      }
      c := c + 1;
    }
    AllRead(ws, s, vs, acc, fields);
    lastBit, at, pos := Unpack(bytes, at, 1, pos);
    BitOfNumber(lastBit, BitsAt(bytes, |s| - 1, 1));
  }

  lemma AllRead(ws: seq<Widths>, s: seq<bool>, vs: seq<nat>, acc: seq<seq<bool>>, fields: seq<seq<bool>>)
    requires |s| >= Width(ws, 0, 0) && fields == UnpackBits(ws, 0, 0, s, NoBits(ws))
    requires Hold(vs, acc) && acc == fields
    ensures vs == Unpacked(ws, s)
  {
    forall k | 0 <= k < |ws|
      ensures vs[k] == Unpacked(ws, s)[k]
    {
      FromToBits(vs[k], |acc[k]|);
    }
  }

  lemma BitOfNumber(v: nat, b: seq<bool>)
    requires v < Pow2(1) && ToBits(v, 1) == b
    ensures v == if b[0] then 1 else 0
  {
    assert ToBits(v, 1) == ToBits(v / 2, 0) + [v % 2 == 1];
  }
}
