/** The lifecycle of one connection: first packet, authentication, registration, session, and the deferred
    release and removal, in that order. */
module ConnectionLifecycle {
  import opened Options
  import opened Messages
  import opened Wire
  import opened Framing
  import opened Packets
  import opened TopicRegistries
  import opened ClientManagers
  import opened ReadLoop

  const ACCEPTED: byte := 0
  const REFUSED_UNAVAILABLE: byte := 3
  const REFUSED_BAD_AUTH: byte := 4

  datatype Admission = Dropped | BadAuth | Unavailable | Admitted(connect: Connect, rest: Bytes)

  /** The CONNECT that must come first. */
  function ConnectFirst(input: Bytes): Parsed<Connect> {
    match PacketAhead(input)
    case Failed(e) => Failed(e)
    case Got(first, rest) =>
      if first.ptype != CONNECT then Failed(InvalidPacketType) else
        match DecodedConnect(first.body)
        case Err(e) => Failed(e)
        case Ok(c) => Got(c, rest)
  }

  /** How a connection fares up to its CONNACK. */
  function Admit(input: Bytes, auth: (Bytes, Bytes) -> bool, clients: map<Name, Connection>, maxClients: nat)
    : Admission
  {
    match ConnectFirst(input)
    case Failed(_) => Dropped
    case Got(c, rest) =>
      if !c.HasUsername() || !auth(c.username, c.password) then BadAuth
      else if Refused(clients, maxClients, c.clientId) then Unavailable
      else Admitted(c, rest)
  }

  function FirstReply(a: Admission): seq<Packet> {
    match a
    case Dropped => []
    case BadAuth => [Connack(false, REFUSED_BAD_AUTH)]
    case Unavailable => [Connack(false, REFUSED_UNAVAILABLE)]
    case Admitted(_, _) => [Connack(false, ACCEPTED)]
  }

  /** The packets of an admitted session; a refused connection has none. */
  function SessionPackets(a: Admission): seq<Packet> { if a.Admitted? then Handled(a.rest) else [] }

  /** What a connection leaves behind in the registry and in msgChan. */
  function Aftermath(allowed: set<Name>, a: Admission, owners: map<Name, Name>): Effect {
    if a.Admitted? then
      var e := Effects(allowed, a.connect.clientId, Effect(owners, []), Handled(a.rest));
      Effect(Released(e.owners, a.connect.clientId), e.sent)
    else Effect(owners, [])
  }

  method ReadConnect(reader: Reader) returns (r: Result<Connect>)
    requires reader.Valid()
    modifies reader
    ensures reader.Valid()
    ensures r == ConnectFirst(old(reader.Rest())).Outcome()
    ensures r.Ok? ==> reader.Rest() == ConnectFirst(old(reader.Rest())).rest
  {
    var first := ReadPacket(reader);
    if first.Err? {
      return Err(first.error);
    }
    if first.value.ptype != CONNECT {
      return Err(InvalidPacketType);
    }
    r := DecodeConnect(first.value.body);
  }

  /** From the first packet to registration: the client accepted, or the bytes of the refusal. */
  method RegisterClient(reader: Reader, conn: Connection, auth: (Bytes, Bytes) -> bool, connMgr: ClientManager)
    returns (accepted: Option<Connect>, refusal: Bytes)
    requires reader.Valid()
    modifies reader, connMgr
    ensures reader.Valid()
    ensures var a := Admit(old(reader.Rest()), auth, old(connMgr.clients), connMgr.maxClients);
      if a.Admitted? then
        && accepted == Some(a.connect)
        && reader.Rest() == a.rest
        && connMgr.clients == old(connMgr.clients)[a.connect.clientId := conn]
      else
        accepted == None && refusal == FrameAll(FirstReply(a)) && connMgr.clients == old(connMgr.clients)
  {
    var first := ReadConnect(reader);
    if first.Err? {
      return None, [];
    }
    var connect := first.value;
    if !connect.HasUsername() || !auth(connect.username, connect.password) {
      refusal := EncodeConnack(false, REFUSED_BAD_AUTH);
      OneFrame(Connack(false, REFUSED_BAD_AUTH));
      return None, refusal;
    }
    var err, closed := connMgr.Add(connect.clientId, conn);
    if err {
      refusal := EncodeConnack(false, REFUSED_UNAVAILABLE);
      OneFrame(Connack(false, REFUSED_UNAVAILABLE));
      return None, refusal;
    }
    return Some(connect), [];
  }

  /** The first packet can be read, is of type 1 and decodes. */
  predicate Introduced(input: Bytes) {
    PacketAhead(input).Got? && PacketAhead(input).value.ptype == 1 && DecodedConnect(PacketAhead(input).value.body).Ok?
  }

  /** Who gets in and what the first four bytes written say, from the bytes received: 0 for known credentials and
      room for the identifier, 4 for unknown credentials, 3 for no room; and nothing is written to a connection
      that does not introduce itself. Only a client that got in leaves anything but those bytes. */
  predicate Greeted(input: Bytes, auth: (Bytes, Bytes) -> bool, clients: map<Name, Connection>, maxClients: nat,
                    output: Bytes, before: Effect, after: Effect)
  {
    if Introduced(input) then
      var c := DecodedConnect(PacketAhead(input).value.body).value;
      var known := c.flags / 128 % 2 == 1 && auth(c.username, c.password);
      var room := |clients| < maxClients || c.clientId in clients;
      && |output| >= 4 && output[..3] == [0x20, 0x02, 0x00]
      && (output[3] == 0 <==> known && room)
      && (output[3] == 4 <==> !known)
      && (output[3] == 3 <==> known && !room)
      && |ReadAll(output)| > 0 && ReadAll(output)[0] == Packet(2, 0, [0, output[3]])
      && (!(known && room) ==> |output| == 4 && after == before)
    else
      output == [] && after == before
  }

  lemma {:induction false} ConnackFirst(code: byte, rest: seq<Packet>)
    ensures FrameAll([Connack(false, code)] + rest) == [0x20, 0x02, 0x00, code] + FrameAll(rest)
  {
    var p := Connack(false, code);
    OneFrame(p);
    FrameAllConcat([p], rest);
    assert Frame(p) == [0x20, 0x02, 0x00, code];
  }

  /** A connection is let in exactly if it introduces itself with known credentials and there is room for its
      identifier; each other fate has its own cause. */
  lemma AdmittedIff(input: Bytes, auth: (Bytes, Bytes) -> bool, clients: map<Name, Connection>, maxClients: nat)
    ensures var a := Admit(input, auth, clients, maxClients);
      if !Introduced(input) then a.Dropped?
      else
        var c := DecodedConnect(PacketAhead(input).value.body).value;
        var known := c.flags / 128 % 2 == 1 && auth(c.username, c.password);
        var room := |clients| < maxClients || c.clientId in clients;
        && (a.BadAuth? <==> !known)
        && (a.Unavailable? <==> known && !room)
        && (a.Admitted? <==> known && room)
        && (a.Admitted? ==> a.connect == c && a.rest == PacketAhead(input).rest)
  {
  }

  lemma {:induction false} AdmissionGreets(allowed: set<Name>, input: Bytes, auth: (Bytes, Bytes) -> bool,
                                           clients: map<Name, Connection>, maxClients: nat, owners: map<Name, Name>)
    ensures var a := Admit(input, auth, clients, maxClients);
      Greeted(input, auth, clients, maxClients, FrameAll(FirstReply(a) + Replies(allowed, SessionPackets(a))),
              Effect(owners, []), Aftermath(allowed, a, owners))
  {
    var a := Admit(input, auth, clients, maxClients);
    var replies := Replies(allowed, SessionPackets(a));
    AdmittedIff(input, auth, clients, maxClients);
    ConnectionOutput(allowed, a);
    if !a.Dropped? {
      var code: byte := if a.BadAuth? then 4 else if a.Unavailable? then 3 else 0;
      assert FirstReply(a) == [Connack(false, code)];
      ConnackFirst(code, replies);
    }
    if !a.Admitted? {
      NoSession(allowed, a);
      assert replies == [];
    }
  }

  lemma NoSession(allowed: set<Name>, a: Admission)
    requires !a.Admitted?
    ensures FirstReply(a) + Replies(allowed, SessionPackets(a)) == FirstReply(a)
  {
  }

  lemma {:induction false} AdmittedSession(allowed: set<Name>, a: Admission, owners: map<Name, Name>)
    requires a.Admitted?
    ensures var e := Effects(allowed, a.connect.clientId, Effect(owners, []), Handled(a.rest));
      Aftermath(allowed, a, owners) == Effect(Released(e.owners, a.connect.clientId), e.sent)
    ensures FirstReply(a) + Replies(allowed, SessionPackets(a))
         == [Connack(false, ACCEPTED)] + Replies(allowed, Handled(a.rest))
  {
  }

  lemma AddedThenRemoved(clients: map<Name, Connection>, client: Name, conn: Connection)
    ensures clients[client := conn] - {client} == clients - {client}
  {
  }

  method HandleConnection(reader: Reader, conn: Connection, auth: (Bytes, Bytes) -> bool, connMgr: ClientManager,
                          topics: TopicRegistry)
    returns (output: Bytes, sent: seq<Message>)
    requires reader.Valid()
    modifies reader, connMgr, topics
    ensures var a := Admit(old(reader.Rest()), auth, old(connMgr.clients), connMgr.maxClients);
      && output == FrameAll(FirstReply(a) + Replies(topics.allowed, SessionPackets(a)))
      && Effect(topics.owners, sent) == Aftermath(topics.allowed, a, old(topics.owners))
      && connMgr.clients == if a.Admitted? then old(connMgr.clients) - {a.connect.clientId} else old(connMgr.clients)
    ensures Greeted(old(reader.Rest()), auth, old(connMgr.clients), connMgr.maxClients, output,
                    old(Effect(topics.owners, [])), Effect(topics.owners, sent))
  {
    AdmissionGreets(topics.allowed, reader.Rest(), auth, connMgr.clients, connMgr.maxClients, topics.owners);
    ghost var a := Admit(reader.Rest(), auth, connMgr.clients, connMgr.maxClients);
    ghost var clients, owners := connMgr.clients, topics.owners;
    var accepted, refusal := RegisterClient(reader, conn, auth, connMgr);
    if accepted.None? {
      NoSession(topics.allowed, a);
      return refusal, [];
    }
    var client := accepted.value.clientId;
    output, sent := Serve(reader, client, topics);
    AdmittedSession(topics.allowed, a, owners);
    connMgr.Remove(client);
    AddedThenRemoved(clients, client, conn);
  }

  /** The accepted session, up to the release of its topics. */
  method Serve(reader: Reader, client: Name, topics: TopicRegistry) returns (output: Bytes, sent: seq<Message>)
    requires reader.Valid()
    modifies reader, topics
    ensures output == FrameAll([Connack(false, ACCEPTED)] + Replies(topics.allowed, Handled(old(reader.Rest()))))
    ensures var e := Effects(topics.allowed, client, Effect(old(topics.owners), []), Handled(old(reader.Rest())));
      sent == e.sent && topics.owners == Released(e.owners, client)
  {
    ghost var replies := Replies(topics.allowed, Handled(reader.Rest()));
    var session := new Session(topics, client);
    var connack := EncodeConnack(false, ACCEPTED);
    OneFrame(Connack(false, ACCEPTED));
    session.Write(connack);
    assert [] + connack == connack;
    session.Run(reader);
    FrameAllConcat([Connack(false, ACCEPTED)], replies);
    topics.Release(client);
    return session.output, session.sent;
  }

  lemma {:induction false} SessionKeepsOthers(allowed: set<Name>, client: Name, e: Effect, ps: seq<Packet>)
    ensures Released(Effects(allowed, client, e, ps).owners, client) == Released(e.owners, client)
    decreases |ps|
  {
    if ps != [] { SessionKeepsOthers(allowed, client, EffectOf(allowed, client, e, ps[0]), ps[1..]); }
  }

  /** An ended connection owns no topic and took none from others, whatever its session claimed: a topic is owned
      afterwards exactly if it was before, by someone else, who still owns it; a refused connection changes
      nothing. */
  lemma NothingOwnedAfter(allowed: set<Name>, a: Admission, owners: map<Name, Name>, t: Name)
    ensures var after := Aftermath(allowed, a, owners).owners;
      && (t in after <==> t in owners && (a.Admitted? ==> owners[t] != a.connect.clientId))
      && (t in after ==> after[t] == owners[t])
  {
    if a.Admitted? { SessionKeepsOthers(allowed, a.connect.clientId, Effect(owners, []), Handled(a.rest)); }
  }

  /** The accept loop's body: a connection that arrives while the broker is full is closed unread. */
  method AcceptConnection(reader: Reader, conn: Connection, auth: (Bytes, Bytes) -> bool, connMgr: ClientManager,
                          topics: TopicRegistry)
    returns (output: Bytes, sent: seq<Message>)
    requires reader.Valid()
    modifies reader, connMgr, topics
    ensures var a := AdmitThroughGate(old(reader.Rest()), auth, old(connMgr.clients), connMgr.maxClients);
      && output == FrameAll(FirstReply(a) + Replies(topics.allowed, SessionPackets(a)))
      && Effect(topics.owners, sent) == Aftermath(topics.allowed, a, old(topics.owners))
      && connMgr.clients == if a.Admitted? then old(connMgr.clients) - {a.connect.clientId} else old(connMgr.clients)
  {
    var ok := connMgr.CanAccept();
    FullRefusesSome(connMgr.clients, connMgr.maxClients);
    if !ok {
      return [], [];
    }
    output, sent := HandleConnection(reader, conn, auth, connMgr, topics);
  }

  function AdmitThroughGate(input: Bytes, auth: (Bytes, Bytes) -> bool, clients: map<Name, Connection>, maxClients: nat)
    : Admission
  {
    if |clients| >= maxClients then Dropped else Admit(input, auth, clients, maxClients)
  }

  /** The gate against registration, when nothing comes between the two: no CONNACK says that the broker is
      full, and the gate admits what registration alone would, except a client that reconnects under its
      identifier while the broker is full, which registration would have let replace its old connection. */
  lemma GateAgainstRegistration(input: Bytes, auth: (Bytes, Bytes) -> bool, clients: map<Name, Connection>,
                                maxClients: nat)
    ensures var gated := AdmitThroughGate(input, auth, clients, maxClients);
      var plain := Admit(input, auth, clients, maxClients);
      && !gated.Unavailable?
      && (gated.Admitted? <==> plain.Admitted? && !(|clients| >= maxClients && plain.connect.clientId in clients))
  {
  }

  /** Re-reading everything a connection wrote: a CONNACK, then one reply per answerable packet. */
  lemma {:induction false} ConnectionOutput(allowed: set<Name>, a: Admission)
    ensures var ps := ReadAll(FrameAll(FirstReply(a) + Replies(allowed, SessionPackets(a))));
      && ps == FirstReply(a) + Replies(allowed, SessionPackets(a))
      && (!a.Admitted? ==> ps == FirstReply(a) && |ps| <= 1)
      && (a.Admitted? ==> |ps| == 1 + |Requests(SessionPackets(a))| && ps[0] == Connack(false, ACCEPTED))
  {
    if a.Admitted? {
      ReadAllSendable(a.rest);
      HandledSendable(ReadAll(a.rest));
    }
    RepliesSendable(allowed, SessionPackets(a));
    RepliesCount(allowed, SessionPackets(a));
    FramingRoundTrip(FirstReply(a) + Replies(allowed, SessionPackets(a)));
  }
}
