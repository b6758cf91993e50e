/** The decoder's reconstruction of a frame's excitation, in the buffers it
    works with. */
module ResidualDecoding {
  import opened Basics
  import opened FrameFormat
  import opened Codebook
  import opened ResidualSpec

  /** A sequence with v written at an offset. */
  function Written<T>(s: seq<T>, off: nat, v: seq<T>): (r: seq<T>)
    requires off + |v| <= |s|
    ensures |r| == |s| && r[off..off + |v|] == v
  {
    s[..off] + v + s[off + |v|..]
  }

  lemma Overwritten<T>(s: seq<T>, off: nat, a: seq<T>, b: seq<T>)
    requires |a| == |b| && off + |a| <= |s|
    ensures Written(Written(s, off, a), off, b) == Written(s, off, b)
  {
  }

  lemma WrittenAfter<T>(s: seq<T>, off: nat, a: seq<T>, b: seq<T>)
    requires off + |a| + |b| <= |s|
    ensures Written(Written(s, off, a), off + |a|, b) == Written(s, off, a + b)
  {
  }

  lemma WrittenBefore<T>(s: seq<T>, off: nat, a: seq<T>, b: seq<T>)
    requires off + |a| + |b| <= |s| && s[off + |a|..][..|b|] == b
    ensures Written(s, off, a) == Written(s, off, a + b)
  {
    assert s[off + |a|..off + |a| + |b|] == s[off + |a|..][..|b|];
  }

  lemma AlreadyWritten<T>(s: seq<T>, off: nat, a: seq<T>)
    requires off + |a| <= |s| && s[off..][..|a|] == a
    ensures Written(s, off, a) == s
  {
    assert s[off..off + |a|] == s[off..][..|a|];
  }

  lemma WrittenThere<T>(s: seq<T>, off: nat, v: seq<T>)
    requires off + |v| <= |s|
    ensures Written(s, off, v)[off..][..|v|] == v
  {
    assert Written(s, off, v)[off..off + |v|] == v;
  }

  // ---- One vector ----

  method Scale<F(0)>(k: Kernel<F>, decvector: array<F>, off: nat, gain: F, v: seq<F>)
    requires off + |v| <= decvector.Length
    modifies decvector
    ensures decvector[..] == Written(old(decvector[..]), off, seq(|v|, j requires 0 <= j < |v| => k.ar.mul(gain, v[j])))
  {
    ghost var scaled := seq(|v|, j requires 0 <= j < |v| => k.ar.mul(gain, v[j]));
    for j := 0 to |v|
      invariant forall i | 0 <= i < j :: decvector[off + i] == scaled[i]
      invariant forall i | 0 <= i < decvector.Length && !(off <= i < off + j) :: decvector[i] == old(decvector[i])
    {
      decvector[off + j] := k.ar.mul(gain, v[j]);
    }
  }

  method AddScaled<F(0)>(k: Kernel<F>, decvector: array<F>, off: nat, gain: F, v: seq<F>)
    requires off + |v| <= decvector.Length
    modifies decvector
    ensures decvector[..] == Written(old(decvector[..]), off, seq(|v|, j requires 0 <= j < |v| =>
                                       k.ar.add(old(decvector[..])[off + j], k.ar.mul(gain, v[j]))))
  {
    ghost var before := decvector[..];
    ghost var sums := seq(|v|, j requires 0 <= j < |v| => k.ar.add(before[off + j], k.ar.mul(gain, v[j])));
    for j := 0 to |v|
      invariant forall i | 0 <= i < j :: decvector[off + i] == sums[i]
      invariant forall i | 0 <= i < decvector.Length && !(off <= i < off + j) :: decvector[i] == before[i]
    {
      decvector[off + j] := k.ar.add(decvector[off + j], k.ar.mul(gain, v[j]));
    }
  }

  /** One stage: rebuild its vector, scale it, and store or add it. */
  method AddStage<F(0)>(k: Kernel<F>, decvector: array<F>, off: nat, c: Code, mem: seq<F>, veclen: nat, s: nat,
                        gain: F, cbvec: array<F>)
    requires ValidKernel(k) && CodeFits(c, |mem|, veclen) && veclen <= SUBFRAME && off + veclen <= decvector.Length
    requires cbvec != decvector && cbvec.Length == SUBFRAME && s < STAGES && gain == Gain(k, c, s)
    requires s > 0 ==> decvector[off..off + veclen] == PartialVector(k, mem, c, veclen, s)
    modifies decvector, cbvec
    ensures decvector[..] == Written(old(decvector[..]), off, PartialVector(k, mem, c, veclen, s + 1))
  {
    hide CodeVector;
    ghost var before := decvector[..];
    GetCBvec(k.ar, cbvec, mem, c.index[s], veclen);
    var v := cbvec[..veclen];
    if s == 0 {
      Scale(k, decvector, off, gain, v);
    } else {
      AddScaled(k, decvector, off, gain, v);
      forall j: nat | j < veclen
        ensures k.ar.add(before[off + j], k.ar.mul(gain, v[j])) == StageSum(k, mem, c, veclen, s + 1, j)
      {
        assert before[off + j] == before[off..off + veclen][j];
      }
    }
  }

  /** constructCodebook. */
  method ConstructCodebook<F(0)>(k: Kernel<F>, decvector: array<F>, off: nat, c: Code, mem: seq<F>, veclen: nat)
    requires ValidKernel(k) && CodeFits(c, |mem|, veclen) && veclen <= SUBFRAME && off + veclen <= decvector.Length
    modifies decvector
    ensures decvector[..] == Written(old(decvector[..]), off, Constructed(k, mem, c, veclen))
  {
    ghost var before := decvector[..];
    var gain := GainAt(k, c.gain[0], k.ar.one, 32);
    var cbvec := new F[SUBFRAME](i => k.ar.zero);
    AddStage(k, decvector, off, c, mem, veclen, 0, gain, cbvec);
    for s := 1 to STAGES
      invariant gain == Gain(k, c, s - 1)
      invariant decvector[..] == Written(before, off, PartialVector(k, mem, c, veclen, s))
    {
      gain := GainAt(k, c.gain[s], k.abs(gain), LEVELS[s]);
      assert decvector[..][off..off + veclen] == PartialVector(k, mem, c, veclen, s);
      Overwritten(before, off, PartialVector(k, mem, c, veclen, s), PartialVector(k, mem, c, veclen, s + 1));
      AddStage(k, decvector, off, c, mem, veclen, s, gain, cbvec);
    }
  }

  // ---- The codebook memory ----

  /** The memory filled from the samples before a vector. */
  method FillForward<F(0)>(k: Kernel<F>, mem: array<F>, h: seq<F>)
    requires mem.Length == MEMORY && |h| <= MEMORY
    modifies mem
    ensures mem[..] == Recent(k, h, MEMORY)
  {
    forall i | 0 <= i < MEMORY - |h| { mem[i] := k.ar.zero; }
    forall i | 0 <= i < |h| { mem[MEMORY - |h| + i] := h[i]; }
  }

  /** The memory filled backwards in time, from the samples after a vector. */
  method FillBackward<F(0)>(k: Kernel<F>, mem: array<F>, s: seq<F>)
    requires mem.Length == MEMORY
    modifies mem
    ensures mem[..] == Recent(k, Reverse(s), MEMORY)
  {
    var memlGotten := if |s| > MEMORY then MEMORY else |s|;
    for i := 0 to memlGotten
      invariant forall j | 0 <= j < i :: mem[146 - j] == s[j]
    {
      mem[146 - i] := s[i];
    }
    forall i | 0 <= i < MEMORY - memlGotten { mem[i] := k.ar.zero; }
    forall i | 0 <= i < MEMORY
      ensures mem[i] == Recent(k, Reverse(s), MEMORY)[i]
    {
      if i >= MEMORY - memlGotten {
        assert mem[146 - (146 - i)] == s[146 - i];
      }
    }
  }

  /** The memory moved on by one subframe. */
  method Shift<F(0)>(k: Kernel<F>, mem: array<F>, v: seq<F>, ghost h: seq<F>)
    requires mem.Length == MEMORY && |v| == SUBFRAME && mem[..] == Recent(k, h, MEMORY)
    modifies mem
    ensures mem[..] == Recent(k, h + v, MEMORY)
  {
    ghost var before := mem[..];
    forall i | 0 <= i < 107 { mem[i] := mem[i + SUBFRAME]; }
    forall i | 0 <= i < SUBFRAME { mem[107 + i] := v[i]; }
    forall i | 0 <= i < MEMORY
      ensures mem[i] == Recent(k, h + v, MEMORY)[i]
    {
      if i < 107 {
        assert mem[i] == before[i + SUBFRAME];
      }
    }
  }

  /** The end of a long memory is the short memory. */
  lemma ShortMemory<F>(k: Kernel<F>, h: seq<F>)
    ensures Recent(k, h, MEMORY)[MEMORY - SHORT_MEMORY..] == Recent(k, h, SHORT_MEMORY)
  {
  }

  // ---- The start block ----

  /** Where the scalar part of the start block begins. */
  function StatePosition(mode: Mode, start: nat, stateFirst: bool): nat
    requires EncoderStart(mode, start)
  {
    SUBFRAME * (start - 1) + if stateFirst then 0 else Extra(mode)
  }

  /** stateConstructW, written into the frame. */
  method WriteState<F(0)>(k: Kernel<F>, mode: Mode, out: array<F>, off: nat, scale: nat, idx: seq<nat>, synt: seq<F>)
    requires off + mode.StateSamples() <= out.Length && StateFits(scale, idx) && |idx| == mode.StateSamples()
    modifies out
    ensures out[..] == Written(old(out[..]), off, State(k, mode, scale, idx, synt))
  {
    forall i | 0 <= i < mode.StateSamples() { out[off + i] := StateAt(k, scale, idx, synt, i); }
  }

  /** The continuation of the scalar part after its end. */
  method ExtraAfter<F(0)>(k: Kernel<F>, mode: Mode, decresidual: array<F>, mem: array<F>, start: nat,
                          ghost state: seq<F>, extra: Code)
    requires ValidKernel(k) && EncoderStart(mode, start) && CodeFits(extra, SHORT_MEMORY, Extra(mode))
    requires decresidual.Length >= mode.FrameSamples() && mem.Length == MEMORY && decresidual != mem
    requires |state| == mode.StateSamples() && mem[..] == Recent(k, state, MEMORY)
    requires decresidual[SUBFRAME * (start - 1)..][..|state|] == state
    modifies decresidual
    ensures decresidual[..] == Written(old(decresidual[..]), SUBFRAME * (start - 1), Block(k, mode, state, true, extra))
  {
    ghost var before := decresidual[..];
    ShortMemory(k, state);
    ConstructCodebook(k, decresidual, SUBFRAME * (start - 1) + mode.StateSamples(), extra,
                      mem[MEMORY - SHORT_MEMORY..], Extra(mode));
    AlreadyWritten(before, SUBFRAME * (start - 1), state);
    WrittenAfter(before, SUBFRAME * (start - 1), state,
                 Constructed(k, Recent(k, state, SHORT_MEMORY), extra, Extra(mode)));
  }

  /** Copies samples backwards in time. */
  method CopyBackward<F(0)>(to: array<F>, off: nat, from: seq<F>)
    requires off + |from| <= to.Length
    modifies to
    ensures to[..] == Written(old(to[..]), off, Reverse(from))
  {
    forall i | 0 <= i < |from| { to[off + |from| - 1 - i] := from[i]; }
    forall i | off <= i < off + |from|
      ensures to[i] == Reverse(from)[i - off]
    {
      assert to[off + |from| - 1 - (off + |from| - 1 - i)] == from[off + |from| - 1 - i];
    }
  }

  /** The continuation of the scalar part before its beginning, built in a separate buffer. */
  method ExtraBefore<F(0)>(k: Kernel<F>, mode: Mode, decresidual: array<F>, reverse: array<F>, mem: array<F>,
                           start: nat, ghost state: seq<F>, extra: Code)
    requires ValidKernel(k) && EncoderStart(mode, start) && CodeFits(extra, SHORT_MEMORY, Extra(mode))
    requires decresidual.Length >= mode.FrameSamples() && mem.Length == MEMORY && reverse.Length >= SUBFRAME
    requires decresidual != mem && reverse != mem && reverse != decresidual
    requires |state| == mode.StateSamples() && mem[..] == Recent(k, Reverse(state), MEMORY)
    requires decresidual[SUBFRAME * (start - 1) + Extra(mode)..][..|state|] == state
    modifies decresidual, reverse
    ensures decresidual[..] == Written(old(decresidual[..]), SUBFRAME * (start - 1),
                                       Block(k, mode, state, false, extra))
  {
    ghost var before := decresidual[..];
    var diff := Extra(mode);
    ShortMemory(k, Reverse(state));
    ConstructCodebook(k, reverse, 0, extra, mem[MEMORY - SHORT_MEMORY..], diff);
    ghost var v := Constructed(k, Recent(k, Reverse(state), SHORT_MEMORY), extra, diff);
    assert reverse[..diff] == v by { assert reverse[..][0..0 + diff] == v; }
    CopyBackward(decresidual, SUBFRAME * (start - 1), reverse[..diff]);
    ReverseBlock(state, v);
    WrittenBefore(before, SUBFRAME * (start - 1), Reverse(v), state);
  }

  lemma ReverseBlock<T>(state: seq<T>, v: seq<T>)
    ensures Reverse(Reverse(state) + v) == Reverse(v) + state
  {
  }

  // ---- The other subframes ----

  /** One code more is one vector more. */
  lemma GrownStep<F>(k: Kernel<F>, h: seq<F>, codes: seq<Code>, n: nat)
    requires ValidKernel(k) && CodesFit(codes) && n < |codes|
    ensures Grown(k, h, codes[..n + 1]) == Extended(k, Grown(k, h, codes[..n]), codes[n], MEMORY, SUBFRAME)
  {
    assert codes[..n + 1][..n] == codes[..n];
  }

  lemma {:induction false} GrownKeeps<F>(k: Kernel<F>, h: seq<F>, codes: seq<Code>)
    requires ValidKernel(k) && CodesFit(codes)
    ensures Grown(k, h, codes)[..|h|] == h
  {
    if codes != [] {
      GrownKeeps(k, h, codes[..|codes| - 1]);
    }
  }

  /** One subframe: its vector is written, and the memory moves on over it. */
  method NextSubframe<F(0)>(k: Kernel<F>, out: array<F>, at: nat, mem: array<F>, c: Code, ghost h: seq<F>)
    requires ValidKernel(k) && CodeFits(c, MEMORY, SUBFRAME) && at + SUBFRAME <= out.Length
    requires mem.Length == MEMORY && mem != out && mem[..] == Recent(k, h, MEMORY)
    modifies out, mem
    ensures out[..] == Written(old(out[..]), at, Constructed(k, Recent(k, h, MEMORY), c, SUBFRAME))
    ensures mem[..] == Recent(k, Extended(k, h, c, MEMORY, SUBFRAME), MEMORY)
  {
    ConstructCodebook(k, out, at, c, mem[..], SUBFRAME);
    ghost var v := Constructed(k, Recent(k, h, MEMORY), c, SUBFRAME);
    assert out[at..at + SUBFRAME] == v by { assert out[..][at..at + |v|] == v; }
    Shift(k, mem, out[at..at + SUBFRAME], h);
  }

  /** The subframes after the start block. */
  method LaterSubframes<F(0)>(k: Kernel<F>, decresidual: array<F>, mem: array<F>, off: nat, block: seq<F>,
                              codes: seq<Code>)
    requires ValidKernel(k) && CodesFit(codes) && |block| == 2 * SUBFRAME
    requires off + 2 * SUBFRAME + SUBFRAME * |codes| <= decresidual.Length && mem.Length == MEMORY && mem != decresidual
    requires decresidual[off..][..|block|] == block
    modifies decresidual, mem
    ensures decresidual[..] == Written(old(decresidual[..]), off, Grown(k, block, codes))
  {
    ghost var before := decresidual[..];
    AlreadyWritten(before, off, block);
    if |codes| > 0 {
      FillForward(k, mem, decresidual[off..][..|block|]);
      for i := 0 to |codes|
        invariant mem[..] == Recent(k, Grown(k, block, codes[..i]), MEMORY)
        invariant decresidual[..] == Written(before, off, Grown(k, block, codes[..i]))
      {
        ghost var h := Grown(k, block, codes[..i]);
        GrownStep(k, block, codes, i);
        WrittenAfter(before, off, h, Constructed(k, Recent(k, h, MEMORY), codes[i], SUBFRAME));
        NextSubframe(k, decresidual, off + 2 * SUBFRAME + SUBFRAME * i, mem, codes[i], h);
      }
      assert codes[..|codes|] == codes;
    }
  }

  /** A buffer that continues a history, and one vector more of both. */
  lemma Longer<T>(h: seq<T>, s: seq<T>, t: seq<T>, n: nat, v: seq<T>)
    requires n + |v| <= |s| && t == Written(s, n, v)
    ensures h + s[..n] + v == h + t[..n + |v|]
  {
    assert t[..n + |v|] == s[..n] + v;
  }

  /** The subframes before it, built backwards in time in a separate buffer. */
  method ReverseSubframes<F(0)>(k: Kernel<F>, reverse: array<F>, mem: array<F>, ghost h0: seq<F>, codes: seq<Code>)
    requires ValidKernel(k) && CodesFit(codes) && mem.Length == MEMORY && mem != reverse
    requires reverse.Length >= SUBFRAME * |codes| && mem[..] == Recent(k, h0, MEMORY)
    modifies reverse, mem
    ensures Grown(k, h0, codes) == h0 + reverse[..SUBFRAME * |codes|]
  {
    for i := 0 to |codes|
      invariant mem[..] == Recent(k, Grown(k, h0, codes[..i]), MEMORY)
      invariant Grown(k, h0, codes[..i]) == h0 + reverse[..SUBFRAME * i]
    {
      ghost var s, h := reverse[..], Grown(k, h0, codes[..i]);
      GrownStep(k, h0, codes, i);
      NextSubframe(k, reverse, SUBFRAME * i, mem, codes[i], h);
      Longer(h0, s, reverse[..], SUBFRAME * i, Constructed(k, Recent(k, h, MEMORY), codes[i], SUBFRAME));
    }
    assert codes[..|codes|] == codes;
  }

  method EarlierSubframes<F(0)>(k: Kernel<F>, decresidual: array<F>, reverse: array<F>, mem: array<F>, later: seq<F>,
                                codes: seq<Code>)
    requires ValidKernel(k) && CodesFit(codes)
    requires decresidual.Length >= SUBFRAME * |codes| + |later| && reverse.Length >= SUBFRAME * |codes|
             && mem.Length == MEMORY
    requires mem != decresidual && reverse != decresidual && reverse != mem
    requires decresidual[SUBFRAME * |codes|..][..|later|] == later
    modifies decresidual, reverse, mem
    ensures decresidual[..] == Written(old(decresidual[..]), 0, Reverse(Grown(k, Reverse(later), codes)))
  {
    ghost var before := decresidual[..];
    if |codes| > 0 {
      FillBackward(k, mem, decresidual[SUBFRAME * |codes|..][..|later|]);
      ReverseSubframes(k, reverse, mem, Reverse(later), codes);
      var r := reverse[..SUBFRAME * |codes|];
      CopyBackward(decresidual, 0, r);
      ReverseBlock(later, r);
      WrittenBefore(before, 0, Reverse(r), later);
    } else {
      assert Reverse(Reverse(later)) == later;
      AlreadyWritten(before, 0, later);
    }
  }

  // ---- The frame ----

  /** The scalar part of the start block, and the codebook memory made from it. */
  method BeginBlock<F(0)>(k: Kernel<F>, mode: Mode, decresidual: array<F>, mem: array<F>, start: nat, stateFirst: bool,
                          scale: nat, idx: seq<nat>, synt: seq<F>)
    requires EncoderStart(mode, start) && decresidual.Length >= mode.FrameSamples() && mem.Length == MEMORY
             && mem != decresidual
    requires StateFits(scale, idx) && |idx| == mode.StateSamples()
    modifies decresidual, mem
    ensures var state := State(k, mode, scale, idx, synt);
            && decresidual[StatePosition(mode, start, stateFirst)..][..|state|] == state
            && mem[..] == Recent(k, if stateFirst then state else Reverse(state), MEMORY)
  {
    var startPos := StatePosition(mode, start, stateFirst);
    WriteState(k, mode, decresidual, startPos, scale, idx, synt);
    var s := decresidual[startPos..][..mode.StateSamples()];
    assert s == decresidual[..][startPos..startPos + mode.StateSamples()];
    if stateFirst {
      FillForward(k, mem, s);
    } else {
      FillBackward(k, mem, s);
    }
  }

  /** The rest of the start block. */
  method EndBlock<F(0)>(k: Kernel<F>, mode: Mode, decresidual: array<F>, reverse: array<F>, mem: array<F>, start: nat,
                        stateFirst: bool, extra: Code, ghost state: seq<F>)
    requires ValidKernel(k) && EncoderStart(mode, start) && CodeFits(extra, SHORT_MEMORY, Extra(mode))
    requires decresidual.Length >= mode.FrameSamples() && mem.Length == MEMORY && reverse.Length >= SUBFRAME
    requires decresidual != mem && reverse != mem && reverse != decresidual
    requires |state| == mode.StateSamples()
             && mem[..] == Recent(k, if stateFirst then state else Reverse(state), MEMORY)
    requires decresidual[StatePosition(mode, start, stateFirst)..][..|state|] == state
    modifies decresidual, reverse
    ensures decresidual[SUBFRAME * (start - 1)..][..2 * SUBFRAME] == Block(k, mode, state, stateFirst, extra)
  {
    if stateFirst {
      ExtraAfter(k, mode, decresidual, mem, start, state, extra);
    } else {
      ExtraBefore(k, mode, decresidual, reverse, mem, start, state, extra);
    }
    ghost var block := Block(k, mode, state, stateFirst, extra);
    assert decresidual[..][SUBFRAME * (start - 1)..][..|block|] == block;
  }

  lemma CodesOfFields(mode: Mode, f: Fields)
    requires Playable(mode, f)
    ensures var nfor := mode.Subframes() - f.start - 1;
            && CodesFit(Codes(f.cb, f.gain, 0, nfor)) && CodesFit(Codes(f.cb, f.gain, nfor, mode.AdaptiveSubframes()))
  {
  }

  /** decode: the excitation that the fields denote, rebuilt in place. */
  method Decode<F(0)>(k: Kernel<F>, mode: Mode, f: Fields, syntdenum: seq<F>, decresidual: array<F>)
    requires ValidKernel(k) && Playable(mode, f) && |syntdenum| == COEFFICIENTS * mode.Subframes()
    requires decresidual.Length >= mode.FrameSamples()
    modifies decresidual
    ensures decresidual[..mode.FrameSamples()] == Residual(k, mode, f, syntdenum)
  {
    hide CodeFits, Around, Block, State;
    CodesOfFields(mode, f);
    var nfor := mode.Subframes() - f.start - 1;
    var later, earlier := Codes(f.cb, f.gain, 0, nfor), Codes(f.cb, f.gain, nfor, mode.AdaptiveSubframes());
    var synt := syntdenum[COEFFICIENTS * (f.start - 1)..COEFFICIENTS * f.start];
    DecodeAround(k, mode, f.start, f.stateFirst == 1, f.scale, f.state, synt, Code(f.extraCb, f.extraGain), later,
                 earlier, decresidual);
  }

  method DecodeAround<F(0)>(k: Kernel<F>, mode: Mode, start: nat, stateFirst: bool, scale: nat, idx: seq<nat>,
                            synt: seq<F>, extra: Code, later: seq<Code>, earlier: seq<Code>, decresidual: array<F>)
    requires ValidKernel(k) && EncoderStart(mode, start) && CodeFits(extra, SHORT_MEMORY, Extra(mode))
    requires CodesFit(later) && CodesFit(earlier) && |later| == mode.Subframes() - start - 1 && |earlier| == start - 1
    requires decresidual.Length >= mode.FrameSamples() && StateFits(scale, idx) && |idx| == mode.StateSamples()
    modifies decresidual
    ensures decresidual[..mode.FrameSamples()]
         == Around(k, Block(k, mode, State(k, mode, scale, idx, synt), stateFirst, extra), later, earlier)
  {
    var reverse, mem := new F[240](i => k.ar.zero), new F[MEMORY](i => k.ar.zero);
    ghost var state := State(k, mode, scale, idx, synt);
    BeginBlock(k, mode, decresidual, mem, start, stateFirst, scale, idx, synt);
    EndBlock(k, mode, decresidual, reverse, mem, start, stateFirst, extra, state);
    RestOfFrame(k, mode, start, later, earlier, Block(k, mode, state, stateFirst, extra), decresidual, reverse, mem);
  }

  method RestOfFrame<F(0)>(k: Kernel<F>, mode: Mode, start: nat, later: seq<Code>, earlier: seq<Code>,
                           ghost block: seq<F>, decresidual: array<F>, reverse: array<F>, mem: array<F>)
    requires ValidKernel(k) && EncoderStart(mode, start) && |block| == 2 * SUBFRAME
    requires CodesFit(later) && CodesFit(earlier) && |later| == mode.Subframes() - start - 1 && |earlier| == start - 1
    requires decresidual.Length >= mode.FrameSamples() && mem.Length == MEMORY && reverse.Length == 240
    requires decresidual != mem && reverse != mem && reverse != decresidual
    requires decresidual[SUBFRAME * (start - 1)..][..2 * SUBFRAME] == block
    modifies decresidual, reverse, mem
    ensures decresidual[..mode.FrameSamples()] == Around(k, block, later, earlier)
  {
    var off := SUBFRAME * (start - 1);
    ghost var grown, s := Grown(k, block, later), decresidual[..];
    WrittenThere(s, off, grown);
    LaterSubframes(k, decresidual, mem, off, decresidual[off..][..2 * SUBFRAME], later);
    ghost var t, whole := decresidual[..], Reverse(Grown(k, Reverse(grown), earlier));
    WrittenThere(t, 0, whole);
    EarlierSubframes(k, decresidual, reverse, mem, decresidual[off..][..2 * SUBFRAME + SUBFRAME * |later|], earlier);
    assert decresidual[..mode.FrameSamples()] == decresidual[..][0..][..mode.FrameSamples()];
  }
}
