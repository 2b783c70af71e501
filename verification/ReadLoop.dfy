/** One client session: the loop that reads packets from a finite byte stream, dispatches them and writes
    the replies. Its output is related to its input by re-reading it with the same framing reader. */
module ReadLoop {
  import opened Sequences
  import opened Options
  import opened Messages
  import opened Wire
  import opened Framing
  import opened Packets
  import opened TopicRegistries

  const FAILURE: byte := 0x80

  function ReturnCode(allowed: set<Name>, sub: Subscription): byte {
    if sub.filter in allowed then sub.qos else FAILURE
  }

  function ReturnCodes(allowed: set<Name>, subs: seq<Subscription>): Bytes {
    seq(|subs|, i requires 0 <= i < |subs| => ReturnCode(allowed, subs[i]))
  }

  /** The reply to a packet, none or one. It does not depend on whether a claim is accepted. */
  function ReplyTo(allowed: set<Name>, p: Packet): seq<Packet> {
    if p.ptype == PUBLISH then
      match DecodedPublish(p.flags, p.body)
      case Ok(pub) => if pub.qos == 1 then [Puback(pub.packetId)] else []
      case Err(_) => []
    else if p.ptype == SUBSCRIBE then
      match DecodedSubscribe(p.body)
      case Ok(sub) => [Suback(sub.packetId, ReturnCodes(allowed, sub.subscriptions))]
      case Err(_) => []
    else if p.ptype == PINGREQ then [Pingresp()]
    else []
  }

  /** The topic ownership and the messages handed on, after a packet of this client. */
  datatype Effect = Effect(owners: map<Name, Name>, sent: seq<Message>)

  function EffectOf(allowed: set<Name>, client: Name, e: Effect, p: Packet): Effect {
    if p.ptype != PUBLISH || DecodedPublish(p.flags, p.body).Err? then e else
      var pub := DecodedPublish(p.flags, p.body).value;
      if ClaimRefusal(allowed, e.owners, pub.topic, client).Some? then e
      else Effect(OwnersAfterClaim(e.owners, pub.topic, client), e.sent + [Message(client, pub.topic, pub.payload)])
  }

  function Replies(allowed: set<Name>, ps: seq<Packet>): seq<Packet> {
    if ps == [] then [] else ReplyTo(allowed, ps[0]) + Replies(allowed, ps[1..])
  }

  function Effects(allowed: set<Name>, client: Name, e: Effect, ps: seq<Packet>): Effect
    decreases |ps|
  {
    if ps == [] then e else Effects(allowed, client, EffectOf(allowed, client, e, ps[0]), ps[1..])
  }

  function UntilDisconnect(ps: seq<Packet>): seq<Packet> {
    if ps == [] || ps[0].ptype == DISCONNECT then [] else [ps[0]] + UntilDisconnect(ps[1..])
  }

  /** The packets a session handles: those read before DISCONNECT or the first read error. */
  function Handled(input: Bytes): seq<Packet> { UntilDisconnect(ReadAll(input)) }

  class Session {
    const topics: TopicRegistry
    const client: Name
    var output: Bytes
    var sent: seq<Message>

    constructor (topics: TopicRegistry, client: Name)
      ensures this.topics == topics && this.client == client && output == [] && sent == []
    {
      this.topics, this.client, output, sent := topics, client, [], [];
    }

    method Write(data: Bytes)
      modifies this
      ensures output == old(output) + data && sent == old(sent)
    {
      output := output + data;
    }

    method HandlePublish(flags: nibble, data: Bytes)
      modifies this, topics
      ensures output == old(output) + FrameAll(ReplyTo(topics.allowed, Packet(PUBLISH, flags, data)))
      ensures Effect(topics.owners, sent)
           == EffectOf(topics.allowed, client, old(Effect(topics.owners, sent)), Packet(PUBLISH, flags, data))
    {
      var r := DecodePublish(flags, data);
      if r.Err? {
        assert output + [] == output;
        return;
      }
      var pkt := r.value;
      OneFrame(Puback(pkt.packetId));
      assert output + [] == output;
      var err := topics.Claim(pkt.topic, client);
      if err.Some? {
        if pkt.qos == 1 {
          var puback := EncodePuback(pkt.packetId);
          Write(puback);
        }
        return;
      }
      sent := sent + [Message(client, pkt.topic, pkt.payload)];
      if pkt.qos == 1 {
        var puback := EncodePuback(pkt.packetId);
        Write(puback);
      }
    }

    method HandleSubscribe(data: Bytes)
      modifies this
      ensures output == old(output) + FrameAll(ReplyTo(topics.allowed, Packet(SUBSCRIBE, 0, data)))
      ensures sent == old(sent)
    {
      var r := DecodeSubscribe(data);
      if r.Err? {
        assert output + [] == output;
        return;
      }
      var subs := r.value.subscriptions;
      var returnCodes := new byte[|subs|];
      for i := 0 to |subs|
        invariant forall j :: 0 <= j < i ==> returnCodes[j] == ReturnCode(topics.allowed, subs[j])
        modifies returnCodes
      {
        var ok := topics.IsAllowed(subs[i].filter);
        if ok {
          returnCodes[i] := subs[i].qos;
        } else {
          returnCodes[i] := FAILURE;
        }
      }
      assert returnCodes[..] == ReturnCodes(topics.allowed, subs);
      var suback := EncodeSuback(r.value.packetId, returnCodes[..]);
      OneFrame(Suback(r.value.packetId, ReturnCodes(topics.allowed, subs)));
      Write(suback);
    }

    /** Dispatch on the packet type; unexpected types are logged and ignored. */
    method Dispatch(p: Packet)
      requires p.ptype != DISCONNECT
      modifies this, topics
      ensures output == old(output) + FrameAll(ReplyTo(topics.allowed, p))
      ensures Effect(topics.owners, sent) == EffectOf(topics.allowed, client, old(Effect(topics.owners, sent)), p)
    {
      if p.ptype == PUBLISH {
        HandlePublish(p.flags, p.body);
      } else if p.ptype == SUBSCRIBE {
        HandleSubscribe(p.body);
      } else if p.ptype == PINGREQ {
        var pingresp := EncodePingresp();
        OneFrame(Pingresp());
        Write(pingresp);
      } else {
        assert output + [] == output;
      }
    }

    method Run(reader: Reader)
      requires reader.Valid()
      modifies this, topics, reader
      ensures output == old(output) + FrameAll(Replies(topics.allowed, Handled(old(reader.Rest()))))
      ensures Effect(topics.owners, sent)
           == Effects(topics.allowed, client, old(Effect(topics.owners, sent)), Handled(old(reader.Rest())))
    {
      ghost var all := FrameAll(Replies(topics.allowed, Handled(reader.Rest())));
      ghost var end := Effects(topics.allowed, client, Effect(topics.owners, sent), Handled(reader.Rest()));
      while true
        invariant reader.Valid()
        invariant old(output) + all == output + FrameAll(Replies(topics.allowed, Handled(reader.Rest())))
        invariant end == Effects(topics.allowed, client, Effect(topics.owners, sent), Handled(reader.Rest()))
        decreases |reader.Rest()|
      {
        ghost var s, before := reader.Rest(), output;
        var r := ReadPacket(reader);
        assert output + [] == output;
        if r.Err? {
          return;
        }
        ReadConsumes(s);
        if r.value.ptype == DISCONNECT {
          return;
        }
        NextPacket(topics.allowed, s);
        Dispatch(r.value);
        ghost var next := FrameAll(Replies(topics.allowed, Handled(reader.Rest())));
        Assoc(before, FrameAll(ReplyTo(topics.allowed, r.value)), next);
      }
    }
  }

  lemma OneFrame(p: Packet)
    ensures FrameAll([p]) == Frame(p)
  {
    assert [p][1..] == [] && Frame(p) + [] == Frame(p);
  }

  lemma NextPacket(allowed: set<Name>, s: Bytes)
    requires PacketAhead(s).Got? && PacketAhead(s).value.ptype != DISCONNECT
    ensures var p := PacketAhead(s);
      && Handled(s) == [p.value] + Handled(p.rest)
      && Handled(s)[1..] == Handled(p.rest)
      && FrameAll(Replies(allowed, Handled(s)))
         == FrameAll(ReplyTo(allowed, p.value)) + FrameAll(Replies(allowed, Handled(p.rest)))
  {
    var p := PacketAhead(s);
    assert ReadAll(s)[1..] == ReadAll(p.rest);
    assert Handled(s) == [p.value] + Handled(p.rest);
    assert Handled(s)[1..] == Handled(p.rest);
    FrameAllConcat(ReplyTo(allowed, p.value), Replies(allowed, Handled(p.rest)));
  }

  // ----- re-reading the output -----

  lemma {:induction false} HandledSendable(ps: seq<Packet>)
    requires forall p | p in ps :: Sendable(p)
    ensures forall p | p in UntilDisconnect(ps) :: Sendable(p) && p.ptype != DISCONNECT
  {
    if ps != [] && ps[0].ptype != DISCONNECT { HandledSendable(ps[1..]); }
  }

  lemma ReplySendable(allowed: set<Name>, p: Packet)
    requires Sendable(p)
    ensures forall r | r in ReplyTo(allowed, p) :: Sendable(r)
  {
    if p.ptype == SUBSCRIBE && DecodedSubscribe(p.body).Ok? {
      SubscribeReprint(p.body);
    }
  }

  lemma {:induction false} RepliesSendable(allowed: set<Name>, ps: seq<Packet>)
    requires forall p | p in ps :: Sendable(p)
    ensures forall r | r in Replies(allowed, ps) :: Sendable(r)
  {
    if ps != [] {
      ReplySendable(allowed, ps[0]);
      RepliesSendable(allowed, ps[1..]);
    }
  }

  /** The packets that get a reply. */
  predicate Answerable(p: Packet) {
    || (p.ptype == PUBLISH && DecodedPublish(p.flags, p.body).Ok? && p.flags / 2 % 4 == 1)
    || (p.ptype == SUBSCRIBE && DecodedSubscribe(p.body).Ok?)
    || p.ptype == PINGREQ
  }

  function Requests(ps: seq<Packet>): seq<Packet> {
    if ps == [] then [] else (if Answerable(ps[0]) then [ps[0]] else []) + Requests(ps[1..])
  }

  /** What a client may expect: the packet identifier bytes come back as they stood in the request, and a
      SUBACK has one code per filter. */
  predicate Answers(allowed: set<Name>, p: Packet, r: Packet) {
    && r.flags == 0
    && (p.ptype == PUBLISH && |p.body| >= 2 ==>
          var n := Int16At(p.body);
          r.ptype == PUBACK && |p.body| >= 4 + n && r.body == p.body[2 + n..4 + n])
    && (p.ptype == SUBSCRIBE && DecodedSubscribe(p.body).Ok? ==>
          var subs := DecodedSubscribe(p.body).value.subscriptions;
          && r.ptype == SUBACK && |r.body| == 2 + |subs| && r.body[..2] == p.body[..2]
          && forall i :: 0 <= i < |subs| ==>
               r.body[2 + i] == if subs[i].filter in allowed then subs[i].qos else FAILURE)
    && (p.ptype == PINGREQ ==> r.ptype == PINGRESP && r.body == [])
  }

  lemma ReplyAnswers(allowed: set<Name>, p: Packet)
    ensures Answerable(p) ==> |ReplyTo(allowed, p)| == 1 && Answers(allowed, p, ReplyTo(allowed, p)[0])
    ensures !Answerable(p) ==> ReplyTo(allowed, p) == []
  {
    if p.ptype == PUBLISH && Answerable(p) {
      var n, rest := Int16At(p.body), StringAhead(p.body).rest;
      Int16RoundTrip(0, rest);
      assert rest[..2] == p.body[2 + n..4 + n];
    } else if p.ptype == SUBSCRIBE && Answerable(p) {
      Int16RoundTrip(0, p.body);
    }
  }

  lemma {:induction false} RepliesCount(allowed: set<Name>, ps: seq<Packet>)
    ensures |Replies(allowed, ps)| == |Requests(ps)|
  {
    if ps != [] {
      ReplyAnswers(allowed, ps[0]);
      RepliesCount(allowed, ps[1..]);
    }
  }

  lemma {:induction false} ReplyAt(allowed: set<Name>, ps: seq<Packet>, i: nat)
    requires i < |Requests(ps)| == |Replies(allowed, ps)|
    ensures Answers(allowed, Requests(ps)[i], Replies(allowed, ps)[i])
    decreases |ps|
  {
    ReplyAnswers(allowed, ps[0]);
    RepliesCount(allowed, ps[1..]);
    if Answerable(ps[0]) && i == 0 {
      assert Requests(ps)[0] == ps[0] && Replies(allowed, ps)[0] == ReplyTo(allowed, ps[0])[0];
    } else {
      var j := if Answerable(ps[0]) then i - 1 else i;
      assert Requests(ps)[i] == Requests(ps[1..])[j] && Replies(allowed, ps)[i] == Replies(allowed, ps[1..])[j];
      ReplyAt(allowed, ps[1..], j);
    }
  }

  lemma {:induction false} RepliesAnswer(allowed: set<Name>, ps: seq<Packet>)
    ensures |Replies(allowed, ps)| == |Requests(ps)|
    ensures forall i :: 0 <= i < |Requests(ps)| ==> Answers(allowed, Requests(ps)[i], Replies(allowed, ps)[i])
  {
    RepliesCount(allowed, ps);
    forall i | 0 <= i < |Requests(ps)| ensures Answers(allowed, Requests(ps)[i], Replies(allowed, ps)[i]) {
      ReplyAt(allowed, ps, i);
    }
  }

  /** Reply correspondence: re-reading the bytes a session writes gives exactly one reply, in order, per
      answerable packet handled, whatever claims were accepted or refused. */
  lemma OutputAnswersInput(allowed: set<Name>, input: Bytes)
    ensures var replies, requests := ReadAll(FrameAll(Replies(allowed, Handled(input)))), Requests(Handled(input));
      && |replies| == |requests|
      && forall i :: 0 <= i < |requests| ==> Answers(allowed, requests[i], replies[i])
  {
    ReadAllSendable(input);
    HandledSendable(ReadAll(input));
    RepliesSendable(allowed, Handled(input));
    FramingRoundTrip(Replies(allowed, Handled(input)));
    RepliesAnswer(allowed, Handled(input));
  }
}
