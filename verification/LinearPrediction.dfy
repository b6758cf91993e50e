/** The linear prediction filters that run over a stream block by block: the
    analysis (whitening) filter, the synthesis filter, and the memories each
    keeps between blocks. */
module LinearPrediction {
  import opened Basics

  /** The sum of a[j] * h[p - j] over j < n. */
  function Fir(a: seq<real>, h: seq<real>, p: nat, n: nat): real
    requires n <= |a| && n <= p + 1 && p < |h|
  {
    if n == 0 then 0.0 else Fir(a, h, p, n - 1) + a[n - 1] * h[p - (n - 1)]
  }

  /** The sum of a[j] * h[p - j] over 1 <= j <= n: what synthesis feeds back. */
  function Feedback(a: seq<real>, h: seq<real>, p: nat, n: nat): real
    requires n < |a| && n <= p <= |h|
  {
    if n == 0 then 0.0 else Feedback(a, h, p, n - 1) + a[n] * h[p - n]
  }

  predicate IsFilter(a: seq<real>) {
    |a| == ORDER + 1
  }

  /** Analysis of everything in h that follows the ten samples of history. */
  function Analysed(a: seq<real>, h: seq<real>): (r: seq<real>)
    requires IsFilter(a) && |h| >= ORDER
    ensures |r| == |h| - ORDER
  {
    seq(|h| - ORDER, i requires 0 <= i < |h| - ORDER => Fir(a, h, ORDER + i, ORDER + 1))
  }

  /** History followed by the synthesis of a residual. */
  function Synthesised(a: seq<real>, mem: seq<real>, r: seq<real>): (h: seq<real>)
    requires IsFilter(a) && |mem| == ORDER
    ensures |h| == ORDER + |r| && h[..ORDER] == mem
  {
    if r == [] then mem
    else
      var h := Synthesised(a, mem, r[..|r| - 1]);
      h + [r[|r| - 1] - Feedback(a, h, |h|, ORDER)]
  }

  lemma {:induction false} FirPrefix(a: seq<real>, h: seq<real>, g: seq<real>, p: nat, n: nat)
    requires n <= |a| && n <= p + 1 && p < |h| <= |g|
    requires g[..|h|] == h
    ensures Fir(a, h, p, n) == Fir(a, g, p, n)
  {
    if n > 0 {
      FirPrefix(a, h, g, p, n - 1);
      assert g[..|h|][p - (n - 1)] == h[p - (n - 1)];
    }
  }

  lemma {:induction false} FirSplits(a: seq<real>, h: seq<real>, g: seq<real>, p: nat, n: nat)
    requires n < |a| && n <= p < |h| && p <= |g|
    requires h[..p] == g[..p]
    ensures Fir(a, h, p, n + 1) == a[0] * h[p] + Feedback(a, g, p, n)
  {
    if n > 0 {
      FirSplits(a, h, g, p, n - 1);
      assert h[..p][p - n] == g[..p][p - n];
    }
  }

  /** Synthesis undoes analysis: equal memories and a leading coefficient of one. */
  lemma {:induction false} SynthesisInvertsAnalysis(a: seq<real>, mem: seq<real>, x: seq<real>)
    requires IsFilter(a) && |mem| == ORDER && a[0] == 1.0
    ensures Synthesised(a, mem, Analysed(a, mem + x)) == mem + x
  {
    if x == [] {
      assert mem + x == mem;
    } else {
      var n, front, h := |x| - 1, x[..|x| - 1], mem + x;
      SynthesisInvertsAnalysis(a, mem, front);
      var r := Analysed(a, h);
      assert h[..ORDER + n] == mem + front;
      forall i | 0 <= i < n
        ensures r[i] == Analysed(a, mem + front)[i]
      {
        FirPrefix(a, mem + front, h, ORDER + i, ORDER + 1);
      }
      assert r[..n] == Analysed(a, mem + front);
      FirSplits(a, h, mem + front, ORDER + n, ORDER);
      assert (mem + front) + [x[n]] == h;
    }
  }

  /** Analysis undoes synthesis. */
  lemma {:induction false} AnalysisInvertsSynthesis(a: seq<real>, mem: seq<real>, r: seq<real>)
    requires IsFilter(a) && |mem| == ORDER && a[0] == 1.0
    ensures Analysed(a, Synthesised(a, mem, r)) == r
  {
    if r != [] {
      var n, front, h := |r| - 1, r[..|r| - 1], Synthesised(a, mem, r);
      var g := Synthesised(a, mem, front);
      AnalysisInvertsSynthesis(a, mem, front);
      forall i | 0 <= i < n
        ensures Analysed(a, h)[i] == r[i]
      {
        FirPrefix(a, g, h, ORDER + i, ORDER + 1);
        assert Analysed(a, g)[i] == front[i];
      }
      FirSplits(a, h, g, ORDER + n, ORDER);
    }
  }

  // ---- Streams ----

  /** A block of samples and the coefficients in force for it. */
  datatype Block = Block(a: seq<real>, samples: seq<real>)

  predicate ValidBlocks(blocks: seq<Block>) {
    forall b <- blocks :: IsFilter(b.a) && b.a[0] == 1.0 && |b.samples| >= ORDER
  }

  /** The memory left behind: the last ten samples. */
  function Tail(h: seq<real>): (mem: seq<real>)
    requires |h| >= ORDER
    ensures |mem| == ORDER
  {
    h[|h| - ORDER..]
  }

  function AnalyseStream(mem: seq<real>, blocks: seq<Block>): (residuals: seq<Block>)
    requires |mem| == ORDER && ValidBlocks(blocks)
    ensures |residuals| == |blocks| && ValidBlocks(residuals)
    ensures forall i | 0 <= i < |blocks| :: residuals[i].a == blocks[i].a
    decreases |blocks|
  {
    if blocks == [] then []
    else
      var b := blocks[0];
      [Block(b.a, Analysed(b.a, mem + b.samples))] + AnalyseStream(Tail(b.samples), blocks[1..])
  }

  function SynthesiseStream(mem: seq<real>, residuals: seq<Block>): (blocks: seq<Block>)
    requires |mem| == ORDER && ValidBlocks(residuals)
    ensures |blocks| == |residuals|
    decreases |residuals|
  {
    if residuals == [] then []
    else
      var h := Synthesised(residuals[0].a, mem, residuals[0].samples);
      [Block(residuals[0].a, h[ORDER..])] + SynthesiseStream(Tail(h[ORDER..]), residuals[1..])
  }

  function AnalysisMemory(mem: seq<real>, blocks: seq<Block>): seq<real>
    requires |mem| == ORDER && ValidBlocks(blocks)
    decreases |blocks|
  {
    if blocks == [] then mem else AnalysisMemory(Tail(blocks[0].samples), blocks[1..])
  }

  function SynthesisMemory(mem: seq<real>, residuals: seq<Block>): seq<real>
    requires |mem| == ORDER && ValidBlocks(residuals)
    decreases |residuals|
  {
    if residuals == [] then mem
    else SynthesisMemory(Tail(Synthesised(residuals[0].a, mem, residuals[0].samples)[ORDER..]), residuals[1..])
  }

  /** Over a whole stream whose coefficients change from block to block, a synthesis filter that starts with the
      analysis filter's memory returns the stream, and the two memories are equal again after every block. */
  lemma {:induction false} StreamSurvivesAnalysisAndSynthesis(mem: seq<real>, blocks: seq<Block>)
    requires |mem| == ORDER && ValidBlocks(blocks)
    ensures SynthesiseStream(mem, AnalyseStream(mem, blocks)) == blocks
    ensures SynthesisMemory(mem, AnalyseStream(mem, blocks)) == AnalysisMemory(mem, blocks)
    decreases |blocks|
  {
    if blocks != [] {
      var b := blocks[0];
      var rs := AnalyseStream(mem, blocks);
      var rest := AnalyseStream(Tail(b.samples), blocks[1..]);
      assert rs[1..] == rest;
      SynthesisInvertsAnalysis(b.a, mem, b.samples);
      assert (mem + b.samples)[ORDER..] == b.samples;
      StreamSurvivesAnalysisAndSynthesis(Tail(b.samples), blocks[1..]);
      assert [b] + blocks[1..] == blocks;
    }
  }

  // ---- The in-place filters ----

  /** The loops of one analysed sample, all inside the block. */
  method LateTap(input: seq<real>, a: seq<real>, i: nat, ghost mem: seq<real>) returns (sum: real)
    requires IsFilter(a) && |mem| == ORDER && ORDER <= i < |input|
    ensures sum == Fir(a, mem + input, ORDER + i, ORDER + 1)
  {
    sum := 0.0;
    for j := 0 to ORDER + 1
      invariant sum == Fir(a, mem + input, ORDER + i, j)
    {
      sum := sum + a[j] * input[i - j];
    }
  }

  /** The loops of one of the first ten analysed samples, which reach into the memory. */
  method EarlyTap(input: seq<real>, a: seq<real>, i: nat, mem: array<real>) returns (sum: real)
    requires IsFilter(a) && mem.Length == ORDER && i < ORDER && i < |input|
    ensures sum == Fir(a, mem[..] + input, ORDER + i, ORDER + 1)
  {
    sum := 0.0;
    var j := 0;
    while j <= i
      invariant 0 <= j <= i + 1
      invariant sum == Fir(a, mem[..] + input, ORDER + i, j)
    {
      sum := sum + a[j] * input[i - j];
      j := j + 1;
    }
    while j < ORDER + 1
      invariant i + 1 <= j <= ORDER + 1
      invariant sum == Fir(a, mem[..] + input, ORDER + i, j)
    {
      sum := sum + a[j] * mem[9 - (j - i - 1)];
      j := j + 1;
    }
  }

  /** anaFilter: the residual of one block, and the block's last ten samples become the memory. */
  method AnaFilter(input: seq<real>, a: seq<real>, out: array<real>, outOff: nat, mem: array<real>)
    requires |input| >= ORDER && IsFilter(a) && mem.Length == ORDER
    requires outOff + |input| <= out.Length && out != mem
    modifies out, mem
    ensures out[outOff..outOff + |input|] == Analysed(a, old(mem[..]) + input)
    ensures out[..outOff] == old(out[..outOff]) && out[outOff + |input|..] == old(out[outOff + |input|..])
    ensures mem[..] == Tail(input)
  {
    ghost var m := mem[..];
    ghost var r := Analysed(a, m + input);
    for i := 0 to |input|
      invariant mem[..] == m
      invariant out[outOff..outOff + i] == r[..i]
      invariant out[..outOff] == old(out[..outOff]) && out[outOff + |input|..] == old(out[outOff + |input|..])
    {
      var sum;
      if i < ORDER {
        sum := EarlyTap(input, a, i, mem);
      } else {
        sum := LateTap(input, a, i, m);
      }
      out[outOff + i] := sum;
    }
    assert r[..|input|] == r;
    forall k | 0 <= k < ORDER { mem[k] := input[|input| - ORDER + k]; }
  }

  /** The feedback loops of sample i < 10 of a block, which reach into the memory. */
  method EarlySample(out: array<real>, outOff: nat, a: seq<real>, i: nat, mem: array<real>)
    requires i < ORDER && mem.Length == ORDER && IsFilter(a)
    requires outOff + i < out.Length && out != mem
    modifies out
    ensures out[..outOff + i] == old(out[..outOff + i]) && out[outOff + i + 1..] == old(out[outOff + i + 1..])
    ensures out[outOff + i]
         == old(out[outOff + i]) - Feedback(a, mem[..] + old(out[outOff..outOff + i]), ORDER + i, ORDER)
  {
    ghost var h := mem[..] + out[outOff..outOff + i];
    var j := 1;
    var po := outOff + i;
    while j <= i
      invariant 1 <= j <= i + 1
      invariant out[po] == old(out[po]) - Feedback(a, h, ORDER + i, j - 1)
      invariant out[..po] == old(out[..po]) && out[po + 1..] == old(out[po + 1..])
    {
      assert out[po - j] == h[ORDER + i - j] by { assert out[po - j] == out[..po][po - j]; }
      out[po] := out[po] - a[j] * out[po - j];
      j := j + 1;
    }
    while j < ORDER + 1
      invariant i + 1 <= j <= ORDER + 1
      invariant out[po] == old(out[po]) - Feedback(a, h, ORDER + i, j - 1)
      invariant out[..po] == old(out[..po]) && out[po + 1..] == old(out[po + 1..])
    {
      assert mem[9 - (j - i - 1)] == h[ORDER + i - j] by { assert mem[..][ORDER + i - j] == h[ORDER + i - j]; }
      out[po] := out[po] - a[j] * mem[9 - (j - i - 1)];
      j := j + 1;
    }
  }

  /** The feedback loop of sample i >= 10 of a block, which stays inside the block. */
  method LateSample(out: array<real>, outOff: nat, a: seq<real>, i: nat, ghost mem: seq<real>)
    requires ORDER <= i && |mem| == ORDER && IsFilter(a)
    requires outOff + i < out.Length
    modifies out
    ensures out[..outOff + i] == old(out[..outOff + i]) && out[outOff + i + 1..] == old(out[outOff + i + 1..])
    ensures out[outOff + i] == old(out[outOff + i]) - Feedback(a, mem + old(out[outOff..outOff + i]), ORDER + i, ORDER)
  {
    ghost var h := mem + out[outOff..outOff + i];
    var po := outOff + i;
    for j := 1 to ORDER + 1
      invariant out[po] == old(out[po]) - Feedback(a, h, ORDER + i, j - 1)
      invariant out[..po] == old(out[..po]) && out[po + 1..] == old(out[po + 1..])
    {
      assert out[po - j] == h[ORDER + i - j] by { assert out[po - j] == out[..po][po - j]; }
      out[po] := out[po] - a[j] * out[po - j];
    }
  }

  /** One sample of the synthesis loop. */
  method SynthesiseSample(out: array<real>, outOff: nat, a: seq<real>, i: nat, mem: array<real>)
    requires mem.Length == ORDER && IsFilter(a)
    requires outOff + i < out.Length && out != mem
    modifies out
    ensures var s, h := old(out[..]), mem[..] + old(out[outOff..outOff + i]);
            out[..] == s[outOff + i := s[outOff + i] - Feedback(a, h, ORDER + i, ORDER)]
  {
    if i < ORDER {
      EarlySample(out, outOff, a, i, mem);
    } else {
      LateSample(out, outOff, a, i, mem[..]);
    }
    ghost var po := outOff + i;
    assert out[..] == out[..po] + [out[po]] + out[po + 1..];
    assert old(out[..]) == old(out[..po]) + [old(out[po])] + old(out[po + 1..]);
  }

  /** A buffer whose block at outOff is synthesised up to sample i. */
  ghost function HalfDone(s: seq<real>, outOff: nat, a: seq<real>, mem: seq<real>, r: seq<real>, i: nat): (t: seq<real>)
    requires |mem| == ORDER && IsFilter(a) && i <= |r| && outOff + |r| <= |s|
    ensures |t| == |s|
  {
    s[..outOff] + Synthesised(a, mem, r[..i])[ORDER..] + s[outOff + i..]
  }

  lemma OneMoreSample(s: seq<real>, outOff: nat, a: seq<real>, mem: seq<real>, r: seq<real>, i: nat)
    requires |mem| == ORDER && IsFilter(a) && i < |r| && outOff + |r| <= |s| && s[outOff..outOff + |r|] == r
    ensures var t := HalfDone(s, outOff, a, mem, r, i);
            var h := mem + t[outOff..outOff + i];
            HalfDone(s, outOff, a, mem, r, i + 1) == t[outOff + i := t[outOff + i] - Feedback(a, h, ORDER + i, ORDER)]
  {
    var t, g := HalfDone(s, outOff, a, mem, r, i), Synthesised(a, mem, r[..i]);
    assert r[..i + 1][..i] == r[..i];
    assert t[outOff..outOff + i] == g[ORDER..];
    assert mem + g[ORDER..] == g;
    assert t[outOff + i] == r[i];
  }

  lemma NoneDone(s: seq<real>, outOff: nat, a: seq<real>, mem: seq<real>, r: seq<real>)
    requires |mem| == ORDER && IsFilter(a) && outOff + |r| <= |s|
    ensures HalfDone(s, outOff, a, mem, r, 0) == s
  {
    assert Synthesised(a, mem, r[..0])[ORDER..] == [];
  }

  lemma AllDone(s: seq<real>, outOff: nat, a: seq<real>, mem: seq<real>, r: seq<real>)
    requires |mem| == ORDER && IsFilter(a) && outOff + |r| <= |s|
    ensures var t := HalfDone(s, outOff, a, mem, r, |r|);
            && t[outOff..outOff + |r|] == Synthesised(a, mem, r)[ORDER..]
            && t[..outOff] == s[..outOff] && t[outOff + |r|..] == s[outOff + |r|..]
  {
    assert r[..|r|] == r;
  }

  /** syntFilter: the block is replaced by its synthesis, and its last ten samples become the memory. */
  method SyntFilter(out: array<real>, outOff: nat, a: seq<real>, len: nat, mem: array<real>)
    requires len >= ORDER && mem.Length == ORDER && IsFilter(a)
    requires outOff + len <= out.Length && out != mem
    modifies out, mem
    ensures out[outOff..outOff + len] == Synthesised(a, old(mem[..]), old(out[outOff..outOff + len]))[ORDER..]
    ensures out[..outOff] == old(out[..outOff]) && out[outOff + len..] == old(out[outOff + len..])
    ensures mem[..] == Tail(out[outOff..outOff + len])
  {
    hide HalfDone, Synthesised, Feedback;
    ghost var m, s, r := mem[..], out[..], out[outOff..outOff + len];
    NoneDone(s, outOff, a, m, r);
    for i := 0 to len
      invariant mem[..] == m
      invariant out[..] == HalfDone(s, outOff, a, m, r, i)
    {
      OneMoreSample(s, outOff, a, m, r, i);
      assert out[outOff..outOff + i] == out[..][outOff..outOff + i];
      SynthesiseSample(out, outOff, a, i, mem);
    }
    AllDone(s, outOff, a, m, r);
    forall k | 0 <= k < ORDER { mem[k] := out[outOff + len - ORDER + k]; }
  }

  /** allPoleFilter, in place behind ten samples of history. */
  method AllPoleFilter(buf: array<real>, a: seq<real>, n: nat)
    requires IsFilter(a) && ORDER + n <= buf.Length
    modifies buf
    ensures buf[..ORDER + n] == Synthesised(a, old(buf[..ORDER]), old(buf[ORDER..ORDER + n]))
    ensures buf[ORDER + n..] == old(buf[ORDER + n..])
  {
    hide Feedback;
    ghost var mem, r, rest := buf[..ORDER], buf[ORDER..ORDER + n], buf[ORDER + n..];
    assert Synthesised(a, mem, r[..0]) == mem;
    for i := 0 to n
      invariant buf[..ORDER + i] == Synthesised(a, mem, r[..i])
      invariant forall j | i <= j < n :: buf[ORDER + j] == r[j]
      invariant buf[ORDER + n..] == rest
    {
      ghost var h := buf[..ORDER + i];
      AllPoleSample(buf, a, ORDER + i);
      NextSynthesised(a, mem, r, i);
      assert buf[..ORDER + (i + 1)] == h + [buf[ORDER + i]];
    }
    assert r[..n] == r;
  }

  lemma NextSynthesised(a: seq<real>, mem: seq<real>, r: seq<real>, i: nat)
    requires IsFilter(a) && |mem| == ORDER && i < |r|
    ensures var h := Synthesised(a, mem, r[..i]);
            Synthesised(a, mem, r[..i + 1]) == h + [r[i] - Feedback(a, h, ORDER + i, ORDER)]
  {
    assert r[..i + 1][..i] == r[..i];
  }

  /** One sample: the feedback of the ten before it is taken off, term by term. */
  method AllPoleSample(buf: array<real>, a: seq<real>, at: nat)
    requires IsFilter(a) && ORDER <= at < buf.Length
    modifies buf
    ensures buf[at] == old(buf[at]) - Feedback(a, old(buf[..at]), at, ORDER)
    ensures forall i | 0 <= i < buf.Length && i != at :: buf[i] == old(buf[i])
  {
    ghost var h, x := buf[..at], buf[at];
    for k := 1 to ORDER + 1
      invariant buf[at] == x - Feedback(a, h, at, k - 1)
      invariant forall i | 0 <= i < buf.Length && i != at :: buf[i] == old(buf[i])
    {
      assert buf[at - k] == h[at - k];
      buf[at] := buf[at] - a[k] * buf[at - k];
    }
  }
}
