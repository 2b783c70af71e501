/** Packets as bytes. The laws here name positions, bits and codes by number, as sections 2.2, 2.3 and 3 of
    MQTT 3.1.1 do, and not through the printers or the constants that readers and writers share. */
module ByteLaws {
  import opened Sequences
  import opened Options
  import opened Messages
  import opened Wire
  import opened Framing
  import opened Packets
  import opened TopicRegistries
  import opened ReadLoop

  /** The two bytes at position i, the high one first. */
  function Word(s: Bytes, i: nat): uint16
    requires i + 1 < |s|
  {
    var h: int, l: int := s[i], s[i + 1];
    256 * h + l
  }

  /** A packet is its type in the high and its flags in the low four bits, the length of its body and its body. */
  lemma {:induction false} PacketByBytes(t: nibble, f: nibble, body: Bytes, rest: Bytes)
    requires 1 <= t <= 14 && |body| < 268_435_456
    ensures PacketAhead([16 * t + f] + EncodedLength(|body|) + body + rest) == Got(Packet(t, f, body), rest)
  {
    var p := Packet(t, f, body);
    FrameRoundTrip(p, rest);
    assert Frame(p) == [16 * t + f] + EncodedLength(|body|) + body;
    assert PacketAhead(Frame(p) + rest) == Got(p, rest);
  }

  /** Types 0 and 15 are refused by the first byte, whatever follows, and no other type is. */
  lemma ReservedByBytes(b: byte, rest: Bytes)
    ensures PacketAhead([b] + rest) == Failed(InvalidPacketType) <==> b < 16 || b >= 240
  {
    Parts([b], rest);
    if !(b < 16 || b >= 240) { LengthErrors(rest, 0); }
  }

  lemma {:induction false} LengthErrors(s: Bytes, read: nat)
    ensures var r := LengthAhead(s, read); r.Failed? ==> r.error == Eof || r.error == MalformedRemainingLength
    decreases |s|
  {
    if s != [] { LengthErrors(s[1..], read + 1); }
  }

  // ----- PUBLISH -----

  /** Everything about decoding a PUBLISH, by position: bit 3 is DUP, bits 2 and 1 are QoS, bit 0 is retain; the
      topic follows its two length bytes, and above QoS 0 a two-byte identifier follows the topic. */
  lemma PublishByBytes(flags: nibble, data: Bytes)
    ensures var qos := flags / 2 % 4;
      var r := DecodedPublish(flags, data);
      if qos == 3 then r == Err(InvalidQoS)
      else if |data| < 2 || |data| < 2 + Word(data, 0) then r == Err(TruncatedData)
      else
        var n: nat := Word(data, 0);
        if n == 0 then r == Err(EmptyTopicName)
        else if qos == 0 then r == Ok(Publish(flags >= 8, 0, flags % 2 == 1, data[2..2 + n], 0, data[2 + n..]))
        else if |data| < 4 + n then r == Err(TruncatedData)
        else r == Ok(Publish(flags >= 8, qos, flags % 2 == 1, data[2..2 + n],
                             Word(data, 2 + n), data[4 + n..]))
  {
    if |data| >= 2 && |data| >= 2 + Word(data, 0) {
      var n: nat := Word(data, 0);
      assert StringAhead(data) == Got(data[2..2 + n], data[2 + n..]) by {
        assert data[2..][..n] == data[2..2 + n] && data[2..][n..] == data[2 + n..];
      }
      if |data| >= 4 + n { assert data[2 + n..][2..] == data[4 + n..]; }
    }
  }

  // ----- SUBSCRIBE -----

  /** One subscription, by position: a filter after its two length bytes, then one byte that must be 0, 1 or 2. */
  lemma SubscriptionByBytes(s: Bytes)
    ensures var r := SubscriptionAhead(s);
      if |s| < 2 then r == Failed(TruncatedData)
      else
        var n: nat := Word(s, 0);
        if |s| < 3 + n then r == Failed(TruncatedData)
        else if s[2 + n] > 2 then r == Failed(InvalidQoS) else r == Got(Subscription(s[2..2 + n], s[2 + n]), s[3 + n..])
  {
    if |s| >= 2 && |s| >= 2 + Word(s, 0) {
      var n: nat := Word(s, 0);
      assert s[2..][..n] == s[2..2 + n] && s[2..][n..] == s[2 + n..];
      if |s| > 2 + n { assert s[2 + n..][1..] == s[3 + n..]; }
    }
  }

  /** A SUBSCRIBE is a two-byte identifier and one subscription after another; the first bad one decides the
      error, and fewer than five bytes are an empty payload. */
  lemma SubscribeByBytes(data: Bytes)
    ensures |data| < 5 ==> DecodedSubscribe(data) == Err(EmptyPayload)
    ensures |data| >= 5 && SubscriptionsAhead(data[2..]).Ok? ==>
      DecodedSubscribe(data) == Ok(Subscribe(Word(data, 0), SubscriptionsAhead(data[2..]).value))
    ensures |data| >= 5 && SubscriptionsAhead(data[2..]).Err? ==>
      DecodedSubscribe(data) == Err(SubscriptionsAhead(data[2..]).error)
  {
  }

  lemma SubscriptionsByBytes(s: Bytes)
    requires s != []
    ensures var p, r := SubscriptionAhead(s), SubscriptionsAhead(s);
      && (p.Failed? ==> r == Err(p.error))
      && (p.Got? && p.rest == [] ==> r == Ok([p.value]))
      && (p.Got? && SubscriptionsAhead(p.rest).Err? ==> r == Err(SubscriptionsAhead(p.rest).error))
      && (p.Got? && SubscriptionsAhead(p.rest).Ok? ==> r == Ok([p.value] + SubscriptionsAhead(p.rest).value))
  {
    var p := SubscriptionAhead(s);
    if p.Got? { assert [p.value] + [] == [p.value]; }
  }

  // ----- CONNECT -----

  /** Bit 7 announces a user name, bit 6 a password, bit 2 a will; bits 5, 4, 3 and 1 announce nothing. */
  lemma ConnectFlagBits(user: nat, password: nat, high: nat, will: nat, low: nat, p: Connect)
    requires user < 2 && password < 2 && high < 8 && will < 2 && low < 4
    requires p.flags == 128 * user + 64 * password + 8 * high + 4 * will + low
    ensures p.HasUsername() <==> user == 1
    ensures p.HasPassword() <==> password == 1
    ensures p.HasWill() <==> will == 1
  {
  }

  /** A string with its length in two bytes. */
  function Str(x: Bytes): Bytes
    requires |x| < 65536
  {
    [|x| / 256, |x| % 256] + x
  }

  function StrIf(present: bool, x: Bytes): Bytes
    requires |x| < 65536
  {
    if present then Str(x) else []
  }

  lemma FieldBytes(present: bool, x: Bytes)
    requires |x| < 65536
    ensures Field(present, x) == StrIf(present, x)
  {
    if present { StringByBytes(|x| / 256, |x| % 256, x, []); }
  }

  /** Every field fits its length prefix, and fields that are not announced are empty. */
  predicate Fits(p: Connect) {
    && |p.clientId| < 65536 && |p.willTopic| < 65536 && |p.willMessage| < 65536
    && |p.username| < 65536 && |p.password| < 65536
    && (!p.HasWill() ==> p.willTopic == [] && p.willMessage == [])
    && (!p.HasUsername() ==> p.username == []) && (!p.HasPassword() ==> p.password == [])
  }

  /** The client identifier, and then the announced ones of will topic, will message, user name and password. */
  function Fields(p: Connect): Bytes
    requires Fits(p)
  {
    Str(p.clientId) + (StrIf(p.HasWill(), p.willTopic) + (StrIf(p.HasWill(), p.willMessage)
    + (StrIf(p.HasUsername(), p.username) + StrIf(p.HasPassword(), p.password))))
  }

  /** A CONNECT, by position: "MQTT" after its length, level 4, flags, two keep-alive bytes and the fields. */
  lemma {:induction false} ConnectByBytes(p: Connect, kh: byte, kl: byte, extra: Bytes)
    requires p.keepAlive == 256 * kh + kl && p.flags % 2 == 0 && Fits(p)
    ensures DecodedConnect([0, 4, 77, 81, 84, 84, 4, p.flags, kh, kl] + Fields(p) + extra) == Ok(p)
  {
    PrintedByBytes(p, kh, kl);
    ConnectRoundTrip(p, extra);
  }

  lemma PrintedByBytes(p: Connect, kh: byte, kl: byte)
    requires p.keepAlive == 256 * kh + kl && Fits(p)
    ensures PrintConnect(p) == [0, 4, 77, 81, 84, 84, 4, p.flags, kh, kl] + Fields(p)
  {
    ConnectFields(p);
    Int16ByBytes(kh, kl, []);
    ProtocolName();
    Header(p.flags, kh, kl, Fields(p));
  }

  lemma Header(flags: byte, kh: byte, kl: byte, fields: Bytes)
    ensures [0, 4, 77, 81, 84, 84] + ([4, flags] + ([kh, kl] + fields))
         == [0, 4, 77, 81, 84, 84, 4, flags, kh, kl] + fields
  {
  }

  lemma {:induction false} ConnectFields(p: Connect)
    requires Fits(p)
    ensures PrintFields(Present(p.flags), Values(p)) == Fields(p)
  {
    var b, v := Present(p.flags), Values(p);
    assert v[1] == p.willTopic && v[2] == p.willMessage && v[3] == p.username && v[4] == p.password;
    FieldBytes(true, p.clientId);
    FieldBytes(p.HasWill(), p.willTopic);
    FieldBytes(p.HasWill(), p.willMessage);
    FieldBytes(p.HasUsername(), p.username);
    FieldBytes(p.HasPassword(), p.password);
    FiveFields(b, v);
  }

  lemma {:induction false} FiveFields(b: seq<bool>, v: seq<Bytes>)
    requires |b| == |v| == 5
    ensures PrintFields(b, v)
         == Field(b[0], v[0]) + (Field(b[1], v[1]) + (Field(b[2], v[2]) + (Field(b[3], v[3]) + Field(b[4], v[4]))))
  {
    assert b[1..][1..] == b[2..] && v[1..][1..] == v[2..];
    assert b[2..][1..] == b[3..] && v[2..][1..] == v[3..];
    assert b[3..][1..] == b[4..] && v[3..][1..] == v[4..];
    assert b[4..][1..] == [] && v[4..][1..] == [];
    assert PrintFields(b[4..], v[4..]) == Field(b[4], v[4]) + [] == Field(b[4], v[4]);
    assert PrintFields(b[3..], v[3..]) == Field(b[3], v[3]) + PrintFields(b[4..], v[4..]);
    assert PrintFields(b[2..], v[2..]) == Field(b[2], v[2]) + PrintFields(b[3..], v[3..]);
    assert PrintFields(b[1..], v[1..]) == Field(b[1], v[1]) + PrintFields(b[2..], v[2..]);
  }

  /** What is refused, and why, up to the flags: another name, another level, a set reserved bit. */
  lemma ConnectErrors(name: Bytes, level: byte, flags: byte, rest: Bytes)
    requires |name| < 65536
    ensures name != [77, 81, 84, 84] ==> DecodedConnect(Str(name) + rest) == Err(InvalidProtocol)
    ensures level != 4 ==> DecodedConnect([0, 4, 77, 81, 84, 84] + ([level] + rest)) == Err(InvalidProtocol)
    ensures flags % 2 == 1 ==>
      DecodedConnect([0, 4, 77, 81, 84, 84] + ([4] + ([flags] + rest))) == Err(InvalidReservedBit)
  {
    StringByBytes(|name| / 256, |name| % 256, name, rest);
    StringByBytes(0, 4, [77, 81, 84, 84], [level] + rest);
    StringByBytes(0, 4, [77, 81, 84, 84], [4] + ([flags] + rest));
    assert [0, 4] + [77, 81, 84, 84] == [0, 4, 77, 81, 84, 84];
    Parts([level], rest);
    Parts([4], [flags] + rest);
    Parts([flags], rest);
  }

  /** A CONNECT starts like a CONNECT as far as it goes: its first n bytes are those of "MQTT" and level 4. */
  predicate StartsRight(data: Bytes, n: nat)
    requires n <= 7
  {
    |data| >= n && data[..n] == [0, 4, 77, 81, 84, 84, 4][..n]
  }

  /** Every CONNECT body is accepted, or refused for one of three reasons: a readable name that is not "MQTT" or a
      level that is not 4, a set reserved bit after them, and everything else for missing bytes. */
  lemma ConnectErrorIff(data: Bytes)
    ensures var r := DecodedConnect(data);
      && (r == Err(InvalidProtocol) <==>
            || (|data| >= 2 && |data| - 2 >= Word(data, 0) && !StartsRight(data, 6))
            || (|data| >= 7 && StartsRight(data, 6) && data[6] != 4))
      && (r == Err(InvalidReservedBit) <==> |data| >= 8 && StartsRight(data, 7) && data[7] % 2 == 1)
      && (r.Err? ==> r.error == InvalidProtocol || r.error == InvalidReservedBit || r.error == TruncatedData)
  {
    if |data| >= 2 && |data| - 2 >= Word(data, 0) {
      var n: nat := Word(data, 0);
      assert data[2..][..n] == data[2..2 + n] && data[2..][n..] == data[2 + n..];
      assert data[2..2 + n] == MQTT <==> StartsRight(data, 6) by {
        assert [0, 4, 77, 81, 84, 84, 4][..6] == [0, 4, 77, 81, 84, 84];
        if data[2..2 + n] == MQTT {
          assert n == 4 && data[0] == 0 && data[1] == 4;
          assert data[..6] == [data[0], data[1]] + data[2..6];
        }
        if StartsRight(data, 6) {
          assert data[..6][0] == data[0] && data[..6][1] == data[1];
          assert data[2..6] == data[..6][2..];
        }
      }
      if StartsRight(data, 6) {
        assert data[..6][0] == data[0] && data[..6][1] == data[1];
        StartsLonger(data);
      }
    } else if StartsRight(data, 6) {
      assert data[..6][0] == data[0] && data[..6][1] == data[1];
    }
  }

  lemma StartsLonger(data: Bytes)
    requires StartsRight(data, 6)
    ensures |data| >= 7 ==> (StartsRight(data, 7) <==> data[6] == 4)
    ensures |data| >= 7 ==> data[6..][0] == data[6] && data[6..][1..] == data[7..]
  {
    if |data| >= 7 {
      assert [0, 4, 77, 81, 84, 84, 4][..7] == [0, 4, 77, 81, 84, 84, 4][..6] + [4];
      assert data[..7] == data[..6] + [data[6]];
      if StartsRight(data, 7) { assert data[..7][6] == data[6]; }
    }
  }

  // ----- a session, packet by packet -----

  /** The bytes a session writes when fed with `input`. */
  function Written(allowed: set<Name>, input: Bytes): Bytes { FrameAll(Replies(allowed, Handled(input))) }

  /** A packet that is not type 14 is handled, answered, and followed by the rest. */
  lemma {:induction false} OnePacket(allowed: set<Name>, t: nibble, f: nibble, body: Bytes, rest: Bytes)
    requires 1 <= t <= 14 && t != 14 && |body| < 268_435_456
    ensures var input := [16 * t + f] + EncodedLength(|body|) + body + rest;
      && Handled(input) == [Packet(t, f, body)] + Handled(rest)
      && Written(allowed, input) == FrameAll(ReplyTo(allowed, Packet(t, f, body))) + Written(allowed, rest)
  {
    var input := [16 * t + f] + EncodedLength(|body|) + body + rest;
    var p := Packet(t, f, body);
    PacketByBytes(t, f, body, rest);
    ReadConsumes(input);
    assert ReadAll(input) == [p] + ReadAll(rest);
    assert ([p] + ReadAll(rest))[1..] == ReadAll(rest);
    var handled := Handled(rest);
    assert ([p] + handled)[1..] == handled;
    FrameAllConcat(ReplyTo(allowed, p), Replies(allowed, handled));
  }

  /** Its effect comes before that of the rest. */
  lemma {:induction false} OneEffect(allowed: set<Name>, t: nibble, f: nibble, body: Bytes, rest: Bytes, client: Name,
                                     e: Effect)
    requires 1 <= t <= 13 && |body| < 268_435_456
    ensures Effects(allowed, client, e, Handled([16 * t + f] + EncodedLength(|body|) + body + rest))
         == Effects(allowed, client, EffectOf(allowed, client, e, Packet(t, f, body)), Handled(rest))
  {
    OnePacket(allowed, t, f, body, rest);
    assert ([Packet(t, f, body)] + Handled(rest))[1..] == Handled(rest);
  }

  /** DISCONNECT is type 14: nothing after it is handled. */
  lemma {:induction false} DisconnectBytes(f: nibble, body: Bytes, rest: Bytes)
    requires |body| < 268_435_456
    ensures Handled([224 + f] + EncodedLength(|body|) + body + rest) == []
  {
    PacketByBytes(14, f, body, rest);
    ReadConsumes([224 + f] + EncodedLength(|body|) + body + rest);
  }

  /** PINGREQ is type 12 and is answered with D0 00. */
  lemma {:induction false} PingBytes(allowed: set<Name>, f: nibble, body: Bytes, rest: Bytes)
    requires |body| < 268_435_456
    ensures Written(allowed, [192 + f] + EncodedLength(|body|) + body + rest) == [0xD0, 0x00] + Written(allowed, rest)
  {
    OnePacket(allowed, 12, f, body, rest);
    PingReply(allowed, f, body);
  }

  lemma PingReply(allowed: set<Name>, f: nibble, body: Bytes)
    ensures FrameAll(ReplyTo(allowed, Packet(12, f, body))) == [0xD0, 0x00]
  {
    OneFrame(Pingresp());
  }

  lemma {:induction false} PublishReply(allowed: set<Name>, f: nibble, body: Bytes)
    ensures FrameAll(ReplyTo(allowed, Packet(3, f, body)))
         == if f / 2 % 4 == 1 && DecodedPublish(f, body).Ok? then
              var n := Word(body, 0);
              [0x40, 0x02, body[2 + n], body[3 + n]]
            else []
  {
    PublishByBytes(f, body);
    if f / 2 % 4 == 1 && DecodedPublish(f, body).Ok? { PubackBytes(body, 2 + Word(body, 0)); }
  }

  lemma {:induction false} PubackBytes(body: Bytes, i: nat)
    requires i + 1 < |body|
    ensures FrameAll([Puback(Word(body, i))]) == [0x40, 0x02, body[i], body[i + 1]]
  {
    Int16ByBytes(body[i], body[i + 1], []);
    OneFrame(Puback(Word(body, i)));
  }

  /** PUBLISH is type 3 and is answered, if it decodes and is of QoS 1, with 40 02 and its identifier's bytes. */
  lemma {:induction false} PublishBytes(allowed: set<Name>, f: nibble, body: Bytes, rest: Bytes)
    requires |body| < 268_435_456
    ensures Written(allowed, [48 + f] + EncodedLength(|body|) + body + rest)
         == (if f / 2 % 4 == 1 && DecodedPublish(f, body).Ok? then
               var n := Word(body, 0);
               [0x40, 0x02, body[2 + n], body[3 + n]]
             else [])
          + Written(allowed, rest)
  {
    OnePacket(allowed, 3, f, body, rest);
    PublishReply(allowed, f, body);
  }

  lemma {:induction false} SubscribeReply(allowed: set<Name>, f: nibble, body: Bytes, codes: Bytes)
    requires DecodedSubscribe(body).Ok? ==> Codes(allowed, DecodedSubscribe(body).value.subscriptions, codes)
    ensures FrameAll(ReplyTo(allowed, Packet(8, f, body)))
         == if DecodedSubscribe(body).Ok? then SubackBytes(body, codes) else []
  {
    if DecodedSubscribe(body).Ok? {
      var sub := DecodedSubscribe(body).value;
      assert Int16(Word(body, 0)) == [body[0], body[1]];
      assert ReturnCodes(allowed, sub.subscriptions) == codes;
      OneFrame(Suback(sub.packetId, codes));
    }
  }

  /** One code per filter, in order: the QoS asked for if the topic is allowed, and 80 (hexadecimal) otherwise. */
  predicate Codes(allowed: set<Name>, subs: seq<Subscription>, codes: Bytes) {
    && |codes| == |subs|
    && forall i :: 0 <= i < |subs| ==> codes[i] == if subs[i].filter in allowed then subs[i].qos else 0x80
  }

  /** Type 9, with the identifier's bytes as they came. */
  function SubackBytes(body: Bytes, codes: Bytes): Bytes
    requires |body| >= 2
  {
    [0x90] + EncodedLength(2 + |codes|) + ([body[0], body[1]] + codes)
  }

  /** SUBSCRIBE is type 8 and is answered, if it decodes, with its identifier's bytes and its codes. */
  lemma {:induction false} SubscribeBytes(allowed: set<Name>, f: nibble, body: Bytes, rest: Bytes, codes: Bytes)
    requires |body| < 268_435_456
    requires DecodedSubscribe(body).Ok? ==> Codes(allowed, DecodedSubscribe(body).value.subscriptions, codes)
    ensures Written(allowed, [128 + f] + EncodedLength(|body|) + body + rest)
         == (if DecodedSubscribe(body).Ok? then SubackBytes(body, codes) else []) + Written(allowed, rest)
  {
    OnePacket(allowed, 8, f, body, rest);
    SubscribeReply(allowed, f, body, codes);
  }

  /** Any other type is ignored: no reply, no claim, no message. */
  lemma {:induction false} IgnoredBytes(allowed: set<Name>, t: nibble, f: nibble, body: Bytes, rest: Bytes,
                                        client: Name, e: Effect)
    requires 1 <= t <= 13 && t != 3 && t != 8 && t != 12 && |body| < 268_435_456
    ensures Written(allowed, [16 * t + f] + EncodedLength(|body|) + body + rest) == Written(allowed, rest)
    ensures EffectOf(allowed, client, e, Packet(t, f, body)) == e
  {
    OnePacket(allowed, t, f, body, rest);
    assert [] + Written(allowed, rest) == Written(allowed, rest);
  }

  /** Only PUBLISH, type 3, claims a topic and hands on a message, which carries the client, the topic and the
      payload of the packet: when the topic is allowed and free or the client's own. */
  lemma PublishEffect(allowed: set<Name>, client: Name, e: Effect, p: Packet)
    ensures var after := EffectOf(allowed, client, e, p);
      if p.ptype == 3 && DecodedPublish(p.flags, p.body).Ok? then
        var pub := DecodedPublish(p.flags, p.body).value;
        if pub.topic in allowed && (pub.topic in e.owners ==> e.owners[pub.topic] == client) then
          && after.sent == e.sent + [Message(client, pub.topic, pub.payload)]
          && (forall t :: t in after.owners <==> t in e.owners || t == pub.topic)
          && (forall t :: t in after.owners ==> after.owners[t] == if t == pub.topic then client else e.owners[t])
        else after == e
      else after == e
  {
  }
}
