/** An encoder and a decoder at the two ends of a network that loses frames:
    the whole-run results, of the objects themselves. */
module Session {
  import opened Basics
  import opened FrameFormat
  import opened LossConcealment
  import opened EnhancerInterface
  import opened Decoder
  import RS = ResidualSpec
  import EM = EncoderModel
  import L = LockStep

  /** The decoder's side of frame n, whose predecessor it received or whose excitation does not look back. */
  predicate Heard(mode: Mode, sent: seq<L.Sent<real>>, lost: seq<bool>, n: nat)
    requires n < |sent| == |lost|
  {
    !lost[n] && (n == 0 || !lost[n - 1] || (mode.Mode30? && sent[n].start >= 2))
  }

  /** Frame n ends a row of losses long enough to fade to silence. */
  predicate FadedOut(mode: Mode, lost: seq<bool>, n: nat)
    requires n < |lost|
  {
    var m := if mode.Mode20? then 9 else 6;
    n + 1 >= m && forall i | n + 1 - m <= i <= n :: lost[i]
  }

  /** The excitation that the decoder ends frame n with. */
  ghost function Excitation(mode: Mode, events: seq<Event>, lags: seq<nat>, sqrt: real -> real, n: nat): (r: seq<real>)
    requires EventsFit(mode, events) && LagsFit(lags) && n < |events| == |lags|
    ensures |r| == mode.FrameSamples()
  {
    RunState(mode, InitialState(mode), events, lags, sqrt, n + 1).residual
  }

  /** A call: everything is encoded, and what arrives is decoded. Every received frame whose predecessor was received
      too excites the decoder with exactly the encoder's local excitation; every received frame leaves both sides with
      the same frequencies; and a long enough row of losses ends in silence. */
  method Call<S>(k: RS.Kernel<real>, d: EM.Decisions<real, S>, mode: Mode, tools: Tools, enhancement: bool,
                 lsfmean: seq<real>, history: S, pcm: seq<seq<real>>, lost: seq<bool>)
    returns (frames: seq<seq<Byte>>, lags: seq<nat>, ghost sent: seq<L.Sent<real>>, ghost events: seq<Event>)
    requires RS.ValidKernel(k) && EM.Sound(d, mode) && ValidTools(tools) && |lsfmean| == ORDER && |pcm| == |lost|
    ensures |frames| == |lags| == |sent| == |events| == |pcm| && EventsFit(mode, events) && LagsFit(lags)
    ensures L.IsEncoderRun(k, mode, lsfmean, sent) && forall i | 0 <= i < |pcm| :: frames[i] == sent[i].bytes
    ensures L.ValidPackets(mode, L.Arriving(sent, lost))
    ensures forall n: nat | n < |pcm| && Heard(mode, sent, lost, n) ::
              Excitation(mode, events, lags, tools.sqrt, n) == sent[n].residual
    ensures forall n: nat | n < |pcm| && !lost[n] ::
              L.DecoderBefore(k, mode, lsfmean, L.Arriving(sent, lost), n + 1) == sent[n].after
    ensures forall n: nat | n < |pcm| && FadedOut(mode, lost, n) ::
              IsSilent(Excitation(mode, events, lags, tools.sqrt, n))
  {
    hide L.IsSent, L.Hear, Lose, AfterEvent, EventOf;
    var encoder := new L.Encoder<real, S>(lsfmean, history);
    var decoder := new Decoder(mode, enhancement, lsfmean);
    frames, sent := encoder.EncodeAll(k, d, mode, pcm);
    var packets := seq(|frames|, i requires 0 <= i < |frames| => if lost[i] then None else Some(frames[i]));
    assert packets == L.Arriving(sent, lost);
    L.RunHasFrames(k, mode, lsfmean, sent, lost);
    lags, events := decoder.Play(k, tools, packets);
    forall n: nat | n < |pcm| && !lost[n]
      ensures L.DecoderBefore(k, mode, lsfmean, L.Arriving(sent, lost), n + 1) == sent[n].after
      ensures Heard(mode, sent, lost, n) ==> Excitation(mode, events, lags, tools.sqrt, n) == sent[n].residual
    {
      DecoderFollowsEncoder(k, mode, lsfmean, InitialState(mode), sent, lost, events, lags, tools.sqrt, n);
    }
    forall n: nat | n < |pcm| && FadedOut(mode, lost, n)
      ensures IsSilent(Excitation(mode, events, lags, tools.sqrt, n))
    {
      FadesOut(k, mode, lsfmean, packets, lost, events, lags, tools.sqrt, n);
    }
  }

  lemma FadesOut(k: RS.Kernel<real>, mode: Mode, lsfmean: seq<real>, packets: seq<Option<seq<Byte>>>, lost: seq<bool>,
                 events: seq<Event>, lags: seq<nat>, sqrt: real -> real, n: nat)
    requires RS.ValidKernel(k) && |lsfmean| == ORDER && L.ValidPackets(mode, packets)
    requires AreEvents(k, mode, lsfmean, packets, events) && LagsFit(lags)
    requires n < |packets| == |lost| == |lags| && FadedOut(mode, lost, n)
    requires forall i | 0 <= i < |lost| && lost[i] :: packets[i] == None
    ensures IsSilent(Excitation(mode, events, lags, sqrt, n))
  {
    hide EventOf, Lose, AfterEvent, L.DecoderBefore;
    var m: nat := if mode.Mode20? then 9 else 6;
    var first: nat := n + 1 - m;
    forall i: nat | n + 1 - m <= i < n + 1
      ensures events[i] == Missing
    {
      assert lost[i];
      assert IsEvent(k, mode, lsfmean, packets, i, events[i]);
      NoPacketIsMissing(k, mode, lsfmean, packets, i, events[i]);
    }
    LongLossIsSilent(mode, InitialState(mode), events, lags, sqrt, first, m);
    assert first + m == n + 1;
  }
}
