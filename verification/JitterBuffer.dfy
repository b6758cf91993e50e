/** The playout side's reorder window, addressed by 32-bit sequence numbers that
    wrap, and its refinement to a map over unbounded positions. */
module JitterBuffer {
  import opened Arithmetic
  import opened Basics
  import opened Protocol

  const SLOTS: nat := 64
  const PREFILL: nat := 3

  /** int32(seqNo - next): the signed distance of two wrapped counters. */
  function Distance(seqNo: nat, next: nat): (d: int)
    requires seqNo < WORD && next < WORD
    ensures -0x8000_0000 <= d < 0x8000_0000
    ensures (next + d) % WORD == seqNo
  {
    var u := (seqNo - next) % WORD;
    if u < 0x8000_0000 then u else u - WORD
  }

  /** The window as a reader sees it: the position of the next frame to play and what is held for each
      position of the 64 that follow. */
  datatype Window = Window(started: bool, wait: nat, position: nat, held: map<nat, Packet>) {

    ghost predicate Valid() {
      && (!started ==> held == map[])
      && forall pos <- held :: position <= pos < position + SLOTS && held[pos].seqNo == pos % WORD
    }

    function Start(p: Packet): Window
    {
      if started then this else Window(true, PREFILL, p.seqNo, map[])
    }

    /** The position that a packet's wrapped number stands for. */
    function Target(p: Packet): int
      requires p.seqNo < WORD
    {
      Start(p).position + Distance(p.seqNo, Start(p).position % WORD)
    }

    predicate IsJump(p: Packet)
      requires p.seqNo < WORD
    {
      Target(p) >= Start(p).position + SLOTS
    }

    function Insert(p: Packet): Window
      requires p.seqNo < WORD
    {
      var w, target := Start(p), Target(p);
      if target < w.position then w
      else if IsJump(p) then Window(true, PREFILL, target, map[target := p])
      else if target in w.held then w
      else w.(held := w.held[target := p])
    }

    function Take(): (Window, Output) {
      if !started then (this, Idle)
      else if wait > 0 then (this.(wait := wait - 1), Idle)
      else (this.(position := position + 1, held := held - {position}),
            Played(position, if position in held then Some(held[position]) else None))
    }
  }

  /** The window before the first packet. */
  function Empty(): Window {
    Window(false, 0, 0, map[])
  }

  datatype Output = Idle | Played(position: nat, frame: Option<Packet>)

  /** 64 divides 2^32, so a slot number survives the wrap. */
  lemma SlotOf(pos: nat)
    ensures pos % WORD % SLOTS == pos % SLOTS
  {
    DivRem(pos, WORD);
    ModAddMultiple(pos % WORD, SLOTS, 0x400_0000 * (pos / WORD));
  }

  /** Positions of one window occupy distinct slots. */
  lemma SlotsDiffer(p: nat, q: nat)
    requires p < q < p + SLOTS
    ensures p % SLOTS != q % SLOTS
  {
    DivRem(p, SLOTS);
    DivRem(q, SLOTS);
  }

  lemma NextPosition(pos: nat)
    ensures (pos + 1) % WORD == (pos % WORD + 1) % WORD
  {
    DivRem(pos, WORD);
    ModAddMultiple(pos % WORD + 1, WORD, pos / WORD);
  }

  lemma TargetHasItsNumber(position: nat, seqNo: nat)
    requires seqNo < WORD
    ensures (position + Distance(seqNo, position % WORD)) % WORD == seqNo
  {
    var d := Distance(seqNo, position % WORD);
    DivRem(position, WORD);
    ModAddMultiple(position % WORD + d, WORD, position / WORD);
  }

  class Buffer {
    const slots: array<Packet>
    const valid: array<bool>
    var next: nat
    var started: bool
    var wait: nat
    ghost var position: nat

    ghost predicate Valid()
      reads this, slots, valid
    {
      && slots.Length == valid.Length == SLOTS
      && next == position % WORD
      && (!started ==> forall i | 0 <= i < SLOTS :: !valid[i])
      && forall pos: nat | position <= pos < position + SLOTS ::
           valid[pos % SLOTS] ==> slots[pos % SLOTS].seqNo == pos % WORD
    }

    ghost function Held(): map<nat, Packet>
      requires slots.Length == valid.Length == SLOTS
      reads this, slots, valid
    {
      map pos: nat | position <= pos < position + SLOTS && valid[pos % SLOTS] :: slots[pos % SLOTS]
    }

    ghost function View(): (w: Window)
      requires slots.Length == valid.Length == SLOTS
      reads this, slots, valid
    {
      Window(started, wait, position, Held())
    }

    constructor ()
      ensures Valid() && fresh(slots) && fresh(valid)
      ensures View() == Empty()
    {
      slots := new Packet[SLOTS](i => Packet(0, 0, 0, Silence()));
      valid := new bool[SLOTS](i => false);
      next, started, wait := 0, false, 0;
      position := 0;
    }

    method Insert(p: Packet)
      requires Valid() && p.seqNo < WORD
      modifies this, slots, valid
      ensures Valid()
      ensures View() == old(View()).Insert(p)
    {
      if !started {
        next, started, wait := p.seqNo, true, PREFILL;
        position := p.seqNo;
      }
      assert View() == old(View()).Start(p);
      var delta := Distance(p.seqNo, next);
      if delta < 0 {
        return;
      }
      ghost var target := position + delta;
      TargetHasItsNumber(position, p.seqNo);
      if delta >= SLOTS {
        Restart(p, target);
      }
      Store(p, target);
    }

    /** A jump of a whole window or more: everything held is dropped. */
    method Restart(p: Packet, ghost target: nat)
      requires Valid() && started && p.seqNo == target % WORD
      modifies this, valid
      ensures Valid() && View() == Window(true, PREFILL, target, map[])
    {
      forall i | 0 <= i < SLOTS { valid[i] := false; }
      next, wait := p.seqNo, PREFILL;
      position := target;
      assert Held() == map[];
    }

    /** The first copy of a packet takes its slot. */
    method Store(p: Packet, ghost target: nat)
      requires Valid() && started && p.seqNo == target % WORD && position <= target < position + SLOTS
      modifies slots, valid
      ensures Valid()
      ensures View() == old(View()).(held := if target in old(Held()) then old(Held()) else old(Held())[target := p])
    {
      SlotOf(target);
      var i := p.seqNo % SLOTS;
      ghost var before := Held();
      assert target in before <==> valid[i];
      if !valid[i] {
        slots[i], valid[i] := p, true;
        forall pos: nat | position <= pos < position + SLOTS && pos != target
          ensures pos % SLOTS != i
        {
          if pos < target { SlotsDiffer(pos, target); } else { SlotsDiffer(target, pos); }
        }
        assert Held() == before[target := p];
      }
    }

    method Take() returns (p: Packet, received: bool, active: bool)
      requires Valid()
      modifies this, valid
      ensures Valid()
      ensures View() == old(View()).Take().0
      ensures active <==> old(View()).Take().1.Played?
      ensures active ==> old(View()).Take().1 == Played(old(position), if received then Some(p) else None)
    {
      p, received, active := Packet(0, 0, 0, Silence()), false, false;
      if !started {
        return;
      }
      if wait > 0 {
        wait := wait - 1;
        return;
      }
      SlotOf(position);
      var i := next % SLOTS;
      p := slots[i];
      received := valid[i] && p.seqNo == next;
      assert received <==> position in Held();
      MoveOn(i);
      active := true;
    }

    /** The next position is left behind, and its slot is free. */
    method MoveOn(i: nat)
      requires Valid() && started && i == position % SLOTS
      modifies this`next, this`position, valid
      ensures Valid() && next == (old(next) + 1) % WORD && position == old(position) + 1
      ensures Held() == old(Held()) - {old(position)}
    {
      NextPosition(position);
      valid[i] := false;
      next := (next + 1) % WORD;
      forall pos: nat | position < pos < position + SLOTS
        ensures pos % SLOTS != i
      {
        SlotsDiffer(position, pos);
      }
      assert (position + SLOTS) % SLOTS == i by { ModAddMultiple(position, SLOTS, 1); }
      position := position + 1;
      assert Held() == old(Held()) - {old(position)};
    }
  }

  // ---- Runs ----

  datatype Op = Arrive(packet: Packet) | Tick

  predicate ValidOps(ops: seq<Op>) {
    forall op <- ops :: op.Arrive? ==> op.packet.seqNo < WORD
  }

  function Step(w: Window, op: Op): (Window, Output)
    requires op.Arrive? ==> op.packet.seqNo < WORD
  {
    match op
    case Arrive(p) => (w.Insert(p), Idle)
    case Tick => w.Take()
  }

  function Run(w: Window, ops: seq<Op>): (Window, seq<Output>)
    requires ValidOps(ops)
    decreases |ops|
  {
    if ops == [] then (w, [])
    else
      var (w1, out) := Step(w, ops[0]);
      var (w2, rest) := Run(w1, ops[1..]);
      (w2, [out] + rest)
  }

  lemma StepKeepsValid(w: Window, op: Op)
    requires w.Valid()
    requires op.Arrive? ==> op.packet.seqNo < WORD
    ensures Step(w, op).0.Valid()
    ensures w.started ==> Step(w, op).0.position >= w.position
    ensures Step(w, op).1.Played? ==>
              w.started && Step(w, op).1.position == w.position && Step(w, op).0.position == w.position + 1
  {
    if op.Arrive? {
      var s := w.Start(op.packet);
      TargetHasItsNumber(s.position, op.packet.seqNo);
    }
  }

  /** Over any run, played positions strictly increase and every frame played carries the number of its position. */
  lemma {:induction false} PlayoutIsOrdered(w: Window, ops: seq<Op>)
    requires w.Valid() && ValidOps(ops)
    ensures var outs := Run(w, ops).1;
            && |outs| == |ops|
            && (forall i | 0 <= i < |outs| && outs[i].Played? ::
                  (w.started ==> outs[i].position >= w.position)
                  && (outs[i].frame.Some? ==> outs[i].frame.value.seqNo == outs[i].position % WORD))
            && (forall i, j | 0 <= i < j < |outs| && outs[i].Played? && outs[j].Played? ::
                  outs[i].position < outs[j].position)
    decreases |ops|
  {
    if ops != [] {
      StepKeepsValid(w, ops[0]);
      PlayoutIsOrdered(Step(w, ops[0]).0, ops[1..]);
    }
  }

  /** Whether an arrival moves the window past a position before that position is played. */
  predicate JumpedOver(w: Window, ops: seq<Op>, pos: nat)
    requires ValidOps(ops)
    decreases |ops|
  {
    if ops == [] || w.position > pos then false
    else if ops[0].Arrive? && w.IsJump(ops[0].packet) then true
    else JumpedOver(Step(w, ops[0]).0, ops[1..], pos)
  }

  /** An arrival that does not jump leaves everything already held in place, so the first copy stays. */
  lemma HeldStays(w: Window, op: Op, pos: nat)
    requires w.Valid() && pos in w.held
    requires op.Arrive? ==> op.packet.seqNo < WORD && !w.IsJump(op.packet)
    requires op.Tick? ==> w.wait > 0 || w.position < pos
    ensures var w' := Step(w, op).0;
            pos in w'.held && w'.held[pos] == w.held[pos] && w'.position <= pos
  {
  }

  /** Once the window has moved past a held position, the packet held for it has been played at exactly that
      position, unless a jump of 64 or more intervened, and then it is never played. */
  lemma {:induction false} HeldIsPlayedUnlessJumpedOver(w: Window, ops: seq<Op>, pos: nat)
    requires w.Valid() && ValidOps(ops)
    requires pos in w.held
    requires Run(w, ops).0.position > pos
    ensures !JumpedOver(w, ops, pos) <==> Played(pos, Some(w.held[pos])) in Run(w, ops).1
    ensures JumpedOver(w, ops, pos) ==> forall out <- Run(w, ops).1 :: out.Played? ==> out.position != pos
    decreases |ops|
  {
    var p := w.held[pos];
    var (w1, out) := Step(w, ops[0]);
    var rest := Run(w1, ops[1..]).1;
    assert Run(w, ops).1 == [out] + rest;
    StepKeepsValid(w, ops[0]);
    PlayoutIsOrdered(w1, ops[1..]);
    if ops[0].Arrive? && w.IsJump(ops[0].packet) {
      assert w1.position > pos;
    } else if ops[0].Tick? && w.wait == 0 && w.position == pos {
      assert out == Played(pos, Some(p));
      assert !JumpedOver(w1, ops[1..], pos);
    } else {
      HeldStays(w, ops[0], pos);
      HeldIsPlayedUnlessJumpedOver(w1, ops[1..], pos);
    }
  }

  /** What an arrival is accepted as: inside the window and not yet held. */
  lemma ArrivalIsHeld(w: Window, p: Packet)
    requires w.Valid() && p.seqNo < WORD
    requires w.Target(p) >= w.Start(p).position
    ensures var target := w.Target(p) as nat;
            && target in w.Insert(p).held
            && (w.IsJump(p) || target !in w.held ==> w.Insert(p).held[target] == p)
            && (!w.IsJump(p) && target in w.held ==> w.Insert(p).held[target] == w.held[target])
  {
  }

  lemma {:induction false} RunAppend(w: Window, a: seq<Op>, b: seq<Op>)
    requires ValidOps(a) && ValidOps(b)
    ensures ValidOps(a + b)
    ensures var first := Run(w, a); var second := Run(first.0, b);
            Run(w, a + b) == (second.0, first.1 + second.1)
    decreases |a|
  {
    hide Step;
    if a == [] {
      assert a + b == b;
      assert Run(w, a).1 + Run(w, b).1 == Run(w, b).1;
    } else {
      var (w1, out) := Step(w, a[0]);
      RunAppend(w1, a[1..], b);
      assert (a + b)[0] == a[0] && (a + b)[1..] == a[1..] + b;
      var first := Run(w1, a[1..]);
      assert [out] + (first.1 + Run(first.0, b).1) == [out] + first.1 + Run(first.0, b).1;
    }
  }

  lemma {:induction false} RunKeepsValid(w: Window, ops: seq<Op>)
    requires w.Valid() && ValidOps(ops)
    ensures Run(w, ops).0.Valid() && (w.started ==> Run(w, ops).0.position >= w.position)
    decreases |ops|
  {
    if ops != [] {
      StepKeepsValid(w, ops[0]);
      RunKeepsValid(Step(w, ops[0]).0, ops[1..]);
    }
  }

  /** An arrival is taken in: not behind the next position, and the first of its position unless it jumps. */
  predicate Accepted(w: Window, p: Packet)
    requires p.seqNo < WORD
  {
    w.Target(p) >= w.Start(p).position && (w.IsJump(p) || w.Target(p) as nat !in w.held)
  }

  /** What was played before an arrival lies behind the positions that are still open after it. */
  lemma {:induction false} PlayedIsBehind(w: Window, ops: seq<Op>)
    requires w.Valid() && ValidOps(ops)
    ensures forall out <- Run(w, ops).1 :: out.Played?
              ==> Run(w, ops).0.started && out.position < Run(w, ops).0.position
    decreases |ops|
  {
    if ops != [] {
      var (w1, out) := Step(w, ops[0]);
      StepKeepsValid(w, ops[0]);
      RunKeepsValid(w1, ops[1..]);
      PlayedIsBehind(w1, ops[1..]);
      if w1.started {
        StaysStarted(w1, ops[1..]);
      }
    }
  }

  lemma {:induction false} StaysStarted(w: Window, ops: seq<Op>)
    requires ValidOps(ops) && w.started
    ensures Run(w, ops).0.started
    decreases |ops|
  {
    if ops != [] {
      StaysStarted(Step(w, ops[0]).0, ops[1..]);
    }
  }

  /** An accepted packet is held at the position that its number stands for. */
  lemma AcceptedIsHeld(w: Window, p: Packet)
    requires w.Valid() && p.seqNo < WORD && Accepted(w, p)
    ensures var pos: nat, w1 := w.Target(p), w.Insert(p);
            && pos % WORD == p.seqNo && w1.Valid() && w1.started && w1.position <= pos
            && pos in w1.held && w1.held[pos] == p && (w.started ==> w.position <= pos)
  {
    ArrivalIsHeld(w, p);
    StepKeepsValid(w, Arrive(p));
    TargetHasItsNumber(w.Start(p).position, p.seqNo);
  }

  /** A position is played at most once. */
  lemma PlayedOnce(w: Window, ops: seq<Op>, pos: nat, frame: Option<Packet>)
    requires w.Valid() && ValidOps(ops) && Played(pos, frame) in Run(w, ops).1
    ensures forall out <- Run(w, ops).1 :: out.Played? && out.position == pos ==> out == Played(pos, frame)
  {
    PlayoutIsOrdered(w, ops);
  }

  lemma OneStep(w: Window, op: Op)
    requires ValidOps([op])
    ensures Run(w, [op]) == (Step(w, op).0, [Step(w, op).1])
  {
    var (w1, out) := Step(w, op);
    assert [op][1..] == [] && Run(w1, []) == (w1, []);
    assert [out] + Run(w1, []).1 == [out];
  }

  lemma RunAround(w0: Window, before: seq<Op>, p: Packet, after: seq<Op>)
    requires ValidOps(before) && ValidOps(after) && p.seqNo < WORD
    ensures var w, ops := Run(w0, before).0, before + [Arrive(p)] + after;
            ValidOps(ops) && Run(w0, ops).1 == Run(w0, before).1 + [Idle] + Run(w.Insert(p), after).1
  {
    var w := Run(w0, before).0;
    OneStep(w, Arrive(p));
    RunAppend(w0, before, [Arrive(p)]);
    RunAppend(w0, before + [Arrive(p)], after);
  }

  /** From the arrival on: in any run of a new buffer a packet that is accepted is played at the position that its
      number stands for, once the window is past it, exactly if no later arrival jumps over it; nothing else is played
      there. */
  lemma AcceptedIsPlayed(before: seq<Op>, p: Packet, after: seq<Op>)
    requires ValidOps(before) && ValidOps(after) && p.seqNo < WORD
    requires Accepted(Run(Empty(), before).0, p)
    requires Run(Run(Empty(), before).0.Insert(p), after).0.position > Run(Empty(), before).0.Target(p)
    ensures var w, ops := Run(Empty(), before).0, before + [Arrive(p)] + after;
            var pos: nat := w.Target(p);
            && ValidOps(ops) && pos % WORD == p.seqNo
            && (!JumpedOver(w.Insert(p), after, pos) <==> Played(pos, Some(p)) in Run(Empty(), ops).1)
            && forall out <- Run(Empty(), ops).1 :: out.Played? && out.position == pos ==> out == Played(pos, Some(p))
  {
    var w := Run(Empty(), before).0;
    RunKeepsValid(Empty(), before);
    AcceptedIsHeld(w, p);
    PlayedIsBehind(Empty(), before);
    RunAround(Empty(), before, p, after);
    var w1, pos: nat := w.Insert(p), w.Target(p);
    HeldIsPlayedUnlessJumpedOver(w1, after, pos);
    if !JumpedOver(w1, after, pos) {
      PlayedOnce(w1, after, pos, Some(p));
    }
    var first, second := Run(Empty(), before).1, Run(w1, after).1;
    hide Run, JumpedOver, Accepted;
    assert forall out <- first :: out.Played? ==> out.position != pos;
    AmongParts(first, second, pos, Some(p));
  }

  lemma AmongParts(first: seq<Output>, second: seq<Output>, pos: nat, frame: Option<Packet>)
    requires forall out <- first :: out.Played? ==> out.position != pos
    requires forall out <- second :: out.Played? && out.position == pos ==> out == Played(pos, frame)
    ensures Played(pos, frame) in first + [Idle] + second <==> Played(pos, frame) in second
    ensures forall out <- first + [Idle] + second :: out.Played? && out.position == pos ==> out == Played(pos, frame)
  {
  }

  // ---- The playout loop ----

  /** What a tick gives the decoder: nothing yet, a missing frame to conceal, or a packet to decode. */
  datatype Heard = Quiet | Missing | Received(packet: Packet)

  function HeardIn(out: Output): Heard {
    match out
    case Idle => Quiet
    case Played(_, None) => Missing
    case Played(_, Some(p)) => Received(p)
  }

  /** The playout loop over any interleaving of arrivals and ticks: the slots give exactly what the run of the map over
      unbounded positions gives. */
  method Playout(jitter: Buffer, ops: seq<Op>) returns (heard: seq<Heard>, ghost outs: seq<Output>)
    requires jitter.Valid() && ValidOps(ops)
    modifies jitter, jitter.slots, jitter.valid
    ensures jitter.Valid() && jitter.View() == Run(old(jitter.View()), ops).0
    ensures outs == Run(old(jitter.View()), ops).1
    ensures |heard| == |ops| == |outs| && forall i | 0 <= i < |ops| :: heard[i] == HeardIn(outs[i])
  {
    ghost var w0 := jitter.View();
    heard, outs := [], [];
    for i := 0 to |ops|
      invariant jitter.Valid() && ValidOps(ops[..i])
      invariant Run(w0, ops[..i]) == (jitter.View(), outs)
      invariant |heard| == |outs| == i && forall k | 0 <= k < i :: heard[k] == HeardIn(outs[k])
    {
      ghost var w := jitter.View();
      var one := Quiet;
      match ops[i] {
        case Arrive(p) =>
          jitter.Insert(p);
        case Tick =>
          var p, received, active := jitter.Take();
          if active {
            one := if received then Received(p) else Missing;
          }
      }
      ghost var out := Step(w, ops[i]).1;
      OneStep(w, ops[i]);
      RunAppend(w0, ops[..i], [ops[i]]);
      assert ops[..i + 1] == ops[..i] + [ops[i]];
      heard, outs := heard + [one], outs + [out];
    }
    assert ops[..|ops|] == ops;
  }
}
