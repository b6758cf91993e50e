/** The renumbering of the first adaptive subframe's second and third stage
    codebook indices, which are searched in a restricted range, to seven bits. */
module IndexConversion {

  /** The indices the restricted search can return for that subframe. */
  predicate Restricted(index: nat) {
    index < 44 || 108 <= index < 172 || 236 <= index < 256
  }

  function Encoded(index: int): int {
    if 108 <= index < 172 then index - 64 else if index >= 236 then index - 128 else index
  }

  function Decoded(index: int): int {
    if 44 <= index < 108 then index + 64 else if 108 <= index < 128 then index + 128 else index
  }

  /** Encoder and decoder conversion are inverse bijections between the restricted indices and 0..127, and nothing
      else is carried by seven bits. */
  lemma ConversionsAreInverse(index: nat)
    ensures Restricted(index) ==> 0 <= Encoded(index) < 128 && Decoded(Encoded(index)) == index
    ensures index < 128 ==> Decoded(index) >= 0 && Restricted(Decoded(index)) && Encoded(Decoded(index)) == index
    ensures 0 <= Encoded(index) < 128 && Decoded(Encoded(index)) == index ==> Restricted(index)
  {
  }

  /** Which entries are converted: stages two and three of the first adaptive subframe. */
  function ConvertedEncoder(s: seq<int>): (t: seq<int>)
    requires |s| >= 3
    ensures |t| == |s|
  {
    s[1 := Encoded(s[1])][2 := Encoded(s[2])]
  }

  function ConvertedDecoder(s: seq<int>): (t: seq<int>)
    requires |s| >= 3
    ensures |t| == |s|
  {
    s[1 := Decoded(s[1])][2 := Decoded(s[2])]
  }

  /** What the encoder converts, the decoder converts back. */
  lemma RoundTrip(s: seq<nat>)
    requires |s| >= 3 && Restricted(s[1]) && Restricted(s[2])
    ensures ConvertedDecoder(ConvertedEncoder(s)) == s
  {
    ConversionsAreInverse(s[1]);
    ConversionsAreInverse(s[2]);
  }

  /** convertEncoderIndices. */
  method ConvertEncoderIndices(index: array<int>)
    requires index.Length >= 3
    modifies index
    ensures index[..] == ConvertedEncoder(old(index[..]))
  {
    ghost var s := index[..];
    for k := 1 to 3
      invariant forall i | 0 <= i < index.Length :: index[i] == if 1 <= i < k then Encoded(s[i]) else s[i]
    {
      if index[k] >= 108 && index[k] < 172 {
        index[k] := index[k] - 64;
      } else if index[k] >= 236 {
        index[k] := index[k] - 128;
      }
    }
  }

  /** convertDecoderIndices. */
  method ConvertDecoderIndices(index: array<int>)
    requires index.Length >= 3
    modifies index
    ensures index[..] == ConvertedDecoder(old(index[..]))
  {
    ghost var s := index[..];
    for k := 1 to 3
      invariant forall i | 0 <= i < index.Length :: index[i] == if 1 <= i < k then Decoded(s[i]) else s[i]
    {
      if index[k] >= 44 && index[k] < 108 {
        index[k] := index[k] + 64;
      } else if index[k] >= 108 && index[k] < 128 {
        index[k] := index[k] + 128;
      }
    }
  }
}
