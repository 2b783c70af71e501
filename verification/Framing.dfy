/** Control packets on the wire (section 2.2 of MQTT 3.1.1): the framing reader, the reply encoders and
    the round trip between a list of packets and its bytes. */
module Framing {
  import opened Sequences
  import opened Wire

  type nibble = x: int | 0 <= x < 16

  // Control packet types the broker reads or writes.
  const CONNECT: nibble := 1
  const CONNACK: nibble := 2
  const PUBLISH: nibble := 3
  const PUBACK: nibble := 4
  const SUBSCRIBE: nibble := 8
  const SUBACK: nibble := 9
  const PINGREQ: nibble := 12
  const PINGRESP: nibble := 13
  const DISCONNECT: nibble := 14

  /** A fixed header with the bytes it announces; the remaining length is the body's. */
  datatype Packet = Packet(ptype: nibble, flags: nibble, body: Bytes)

  function Frame(p: Packet): Bytes {
    [p.ptype * 16 + p.flags] + EncodedLength(|p.body|) + p.body
  }

  predicate Reserved(t: nibble) { t == 0 || t == 15 }

  predicate Sendable(p: Packet) { !Reserved(p.ptype) && |p.body| < MAX_LENGTH }

  function PacketAhead(s: Bytes): Parsed<Packet> {
    if s == [] then Failed(Eof)
    else if Reserved(s[0] / 16) then Failed(InvalidPacketType)
    else match LengthAhead(s[1..], 0)
      case Failed(e) => Failed(e)
      case Got(n, rest) =>
        if |rest| < n then Failed(Eof) else Got(Packet(s[0] / 16, s[0] % 16, rest[..n]), rest[n..])
  }

  method ReadPacket(reader: Reader) returns (r: Result<Packet>)
    requires reader.Valid()
    modifies reader
    ensures reader.Valid()
    ensures r == PacketAhead(old(reader.Rest())).Outcome()
    ensures r.Ok? ==> reader.Rest() == PacketAhead(old(reader.Rest())).rest
  {
    ghost var s := reader.Rest();
    var firstByte, err := reader.ReadFull(1);
    if err {
      return Err(Eof);
    }
    var packetType: nibble, flags: nibble := firstByte[0] / 16, firstByte[0] % 16;
    if Reserved(packetType) {
      return Err(InvalidPacketType);
    }
    assert reader.Rest() == s[1..];
    var length := DecodeRemainingLength(reader);
    if length.Err? {
      return Err(length.error);
    }
    var data: Bytes := [];
    if length.value > 0 {
      data, err := reader.ReadFull(length.value);
      if err {
        return Err(Eof);
      }
    }
    return Ok(Packet(packetType, flags, data));
  }

  /** A successful read takes at least two bytes and yields a packet that could have been sent, whose
      canonical frame is no longer than what was read. */
  lemma ReadConsumes(s: Bytes)
    requires PacketAhead(s).Got?
    ensures var p := PacketAhead(s);
      Sendable(p.value) && 2 <= |Frame(p.value)| <= |s| - |p.rest| && p.rest == s[|s| - |p.rest|..]
  {
    EncodingIsShortest(s[1..], 0);
  }

  /** A framed packet is read back exactly when its type is not reserved and its body is below 128^4. */
  lemma FrameRoundTrip(p: Packet, rest: Bytes)
    ensures PacketAhead(Frame(p) + rest) == Got(p, rest) <==> Sendable(p)
    ensures !Sendable(p) ==> PacketAhead(Frame(p) + rest).Failed?
  {
    var s := Frame(p) + rest;
    assert s[0] / 16 == p.ptype && s[0] % 16 == p.flags;
    assert s[1..] == EncodedLength(|p.body|) + (p.body + rest);
    LengthRoundTrip(|p.body|, p.body + rest);
    assert (p.body + rest)[..|p.body|] == p.body && (p.body + rest)[|p.body|..] == rest;
  }

  /** Every packet that can be read from s, up to the first read error. */
  function ReadAll(s: Bytes): seq<Packet>
    decreases |s|
  {
    match PacketAhead(s)
    case Failed(_) => []
    case Got(p, rest) => ReadConsumes(s); [p] + ReadAll(rest)
  }

  function FrameAll(ps: seq<Packet>): Bytes {
    if ps == [] then [] else Frame(ps[0]) + FrameAll(ps[1..])
  }

  lemma {:induction false} ReadAllSendable(s: Bytes)
    ensures forall p | p in ReadAll(s) :: Sendable(p)
    decreases |s|
  {
    if PacketAhead(s).Got? {
      ReadConsumes(s);
      ReadAllSendable(PacketAhead(s).rest);
    }
  }

  /** Framing round trip: a list of packets is read back from its bytes exactly when each can be sent. */
  lemma {:induction false} FramingRoundTrip(ps: seq<Packet>)
    ensures ReadAll(FrameAll(ps)) == ps <==> forall p | p in ps :: Sendable(p)
  {
    if forall p | p in ps :: Sendable(p) {
      if ps != [] {
        FramingRoundTrip(ps[1..]);
        assert Sendable(ps[0]);
        FrameRoundTrip(ps[0], FrameAll(ps[1..]));
        ReadConsumes(FrameAll(ps));
      }
    } else {
      ReadAllSendable(FrameAll(ps));
    }
  }

  lemma {:induction false} FrameAllConcat(a: seq<Packet>, b: seq<Packet>)
    ensures FrameAll(a + b) == FrameAll(a) + FrameAll(b)
  {
    if a == [] {
      assert a + b == b && [] + FrameAll(b) == FrameAll(b);
    } else {
      FrameAllConcat(a[1..], b);
      assert (a + b)[1..] == a[1..] + b;
      Assoc(Frame(a[0]), FrameAll(a[1..]), FrameAll(b));
    }
  }

  // ----- the replies -----

  function Connack(sessionPresent: bool, returnCode: byte): Packet {
    Packet(CONNACK, 0, [if sessionPresent then 1 else 0, returnCode])
  }

  function Puback(packetId: uint16): Packet { Packet(PUBACK, 0, Int16(packetId)) }

  function Suback(packetId: uint16, returnCodes: Bytes): Packet { Packet(SUBACK, 0, Int16(packetId) + returnCodes) }

  function Pingresp(): Packet { Packet(PINGRESP, 0, []) }

  method EncodeConnack(sessionPresent: bool, returnCode: byte) returns (buf: Bytes)
    ensures buf == Frame(Connack(sessionPresent, returnCode))
  {
    var sp: byte := 0;
    if sessionPresent {
      sp := 1;
    }
    return [0x20, 0x02, sp, returnCode];
  }

  method EncodePuback(packetId: uint16) returns (buf: Bytes)
    ensures buf == Frame(Puback(packetId))
  {
    return [0x40, 0x02, packetId / 256, packetId % 256];
  }

  method EncodeSuback(packetId: uint16, returnCodes: Bytes) returns (buf: Bytes)
    ensures buf == Frame(Suback(packetId, returnCodes))
  {
    var remainingLength := 2 + |returnCodes|;
    buf := [0x90];
    var length := EncodeRemainingLength(remainingLength);
    buf := buf + length;
    buf := buf + [packetId / 256, packetId % 256];
    buf := buf + returnCodes;
  }

  method EncodePingresp() returns (buf: Bytes)
    ensures buf == Frame(Pingresp())
  {
    return [0xD0, 0x00];
  }
}
