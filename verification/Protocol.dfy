/** The call program's datagram format: a 20-byte header, followed by one
    38-byte frame for audio packets only. */
module Protocol {
  import opened Basics

  const FRAME_BYTES: nat := 38
  const HEADER_BYTES: nat := 20
  const MAX_DATAGRAM: nat := HEADER_BYTES + FRAME_BYTES
  const KIND_HELLO: Byte := 1
  const KIND_ACCEPT: Byte := 2
  const KIND_AUDIO: Byte := 3
  const KIND_BYE: Byte := 4
  const MAGIC: seq<Byte> := [73, 76, 66, 84]

  datatype Packet = Packet(kind: Byte, session: nat, seqNo: nat, audio: seq<Byte>)

  /** The audio field of a packet that carries none. */
  function Silence(): (s: seq<Byte>)
    ensures |s| == FRAME_BYTES
  {
    seq(FRAME_BYTES, i => 0)
  }

  /** The value ranges of the Go struct: uint64 session, uint32 sequence number, 38 audio bytes. */
  predicate WellTyped(p: Packet) {
    p.session < Pow256(8) && p.seqNo < Pow256(4) && |p.audio| == FRAME_BYTES
  }

  /** A packet that the wire format represents in full. */
  predicate Canonical(p: Packet) {
    && WellTyped(p)
    && KIND_HELLO <= p.kind <= KIND_BYE
    && p.session != 0
    && (p.kind != KIND_AUDIO ==> p.audio == Silence())
  }

  function Pow256(n: nat): (r: nat)
    ensures r > 0
  {
    if n == 0 then 1 else 256 * Pow256(n - 1)
  }

  /** The low n bytes of v, most significant first. */
  function BigEndian(v: nat, n: nat): (s: seq<Byte>)
    ensures |s| == n
  {
    if n == 0 then [] else BigEndian(v / 256, n - 1) + [v % 256]
  }

  function FromBigEndian(s: seq<Byte>): nat {
    if s == [] then 0 else FromBigEndian(s[..|s| - 1]) * 256 + s[|s| - 1]
  }

  lemma {:induction false} FromBigEndianInverts(v: nat, n: nat)
    requires v < Pow256(n)
    ensures FromBigEndian(BigEndian(v, n)) == v
  {
    if n > 0 {
      FromBigEndianInverts(v / 256, n - 1);
      assert BigEndian(v, n)[..n - 1] == BigEndian(v / 256, n - 1);
    }
  }

  lemma {:induction false} BigEndianInverts(s: seq<Byte>)
    ensures FromBigEndian(s) < Pow256(|s|)
    ensures BigEndian(FromBigEndian(s), |s|) == s
  {
    if s != [] {
      BigEndianInverts(s[..|s| - 1]);
    }
  }

  /** The bytes that marshalling a packet produces. */
  function Encode(p: Packet): seq<Byte> {
    MAGIC + [1, p.kind, 0, 0] + BigEndian(p.session, 8) + BigEndian(p.seqNo, 4)
    + (if p.kind == KIND_AUDIO then p.audio else [])
  }

  /** Fills the front of the caller's buffer and returns the datagram's size. */
  method Marshal(p: Packet, dst: array<Byte>) returns (n: nat)
    requires |p.audio| == FRAME_BYTES
    requires dst.Length >= if p.kind == KIND_AUDIO then MAX_DATAGRAM else HEADER_BYTES
    modifies dst
    ensures n == if p.kind == KIND_AUDIO then MAX_DATAGRAM else HEADER_BYTES
    ensures dst[..n] == Encode(p)
    ensures dst[n..] == old(dst[n..])
  {
    var session, seqNo := BigEndian(p.session, 8), BigEndian(p.seqNo, 4);
    forall i | 0 <= i < HEADER_BYTES { dst[i] := 0; }
    forall i | 0 <= i < 4 { dst[i] := MAGIC[i]; }
    dst[4], dst[5] := 1, p.kind;
    forall i | 0 <= i < 8 { dst[8 + i] := session[i]; }
    forall i | 0 <= i < 4 { dst[16 + i] := seqNo[i]; }
    assert dst[..HEADER_BYTES] == MAGIC + [1, p.kind, 0, 0] + session + seqNo;
    if p.kind == KIND_AUDIO {
      forall i | 0 <= i < FRAME_BYTES { dst[HEADER_BYTES + i] := p.audio[i]; }
      assert dst[HEADER_BYTES..MAX_DATAGRAM] == p.audio;
      return MAX_DATAGRAM;
    }
    return HEADER_BYTES;
  }

  /** Validation and decoding, in the order the checks are made. */
  function Parse(data: seq<Byte>): Option<Packet> {
    if |data| < HEADER_BYTES || data[..4] != MAGIC || data[4] != 1 || data[6] != 0 || data[7] != 0 then None
    else if data[5] < KIND_HELLO || data[5] > KIND_BYE then None
    else if |data| != (if data[5] == KIND_AUDIO then MAX_DATAGRAM else HEADER_BYTES) then None
    else if FromBigEndian(data[8..16]) == 0 then None
    else Some(Packet(data[5], FromBigEndian(data[8..16]), FromBigEndian(data[16..20]),
                     if data[5] == KIND_AUDIO then data[20..] else Silence()))
  }

  lemma EncodeParts(p: Packet)
    requires |p.audio| == FRAME_BYTES
    ensures var d := Encode(p);
            && |d| == (if p.kind == KIND_AUDIO then MAX_DATAGRAM else HEADER_BYTES)
            && d[..4] == MAGIC && d[4] == 1 && d[5] == p.kind && d[6] == 0 && d[7] == 0
            && d[8..16] == BigEndian(p.session, 8) && d[16..20] == BigEndian(p.seqNo, 4)
            && (p.kind == KIND_AUDIO ==> d[20..] == p.audio)
  {
    var d, s, q := Encode(p), BigEndian(p.session, 8), BigEndian(p.seqNo, 4);
    assert d[..4] == MAGIC;
    assert d[8..16] == s;
    assert d[16..20] == q;
    if p.kind == KIND_AUDIO {
      assert d[20..] == p.audio;
    }
  }

  /** Parsing a marshalled packet succeeds exactly on a known kind and a non-zero session, and returns the
      packet with the audio of every other kind dropped. */
  lemma ParseOfEncode(p: Packet)
    requires WellTyped(p)
    ensures Parse(Encode(p)) == if KIND_HELLO <= p.kind <= KIND_BYE && p.session != 0
                                then Some(p.(audio := if p.kind == KIND_AUDIO then p.audio else Silence()))
                                else None
  {
    EncodeParts(p);
    FromBigEndianInverts(p.session, 8);
    FromBigEndianInverts(p.seqNo, 4);
  }

  /** Every accepted datagram is the one encoding of a canonical packet. */
  lemma EncodeOfParse(data: seq<Byte>)
    requires Parse(data).Some?
    ensures Canonical(Parse(data).value)
    ensures Encode(Parse(data).value) == data
  {
    BigEndianInverts(data[8..16]);
    BigEndianInverts(data[16..20]);
    assert data == data[..4] + [data[4], data[5], data[6], data[7]] + data[8..16] + data[16..20] + data[20..];
  }
}
