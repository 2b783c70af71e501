/** From the bytes of one connection to the rows it leaves: the session's messages enter msgChan, and the
    pipeline saves them. What a client published on a topic is attempted in that order. */
module EndToEnd {
  import opened Options
  import opened Sequences
  import opened Messages
  import opened Wire
  import opened Framing
  import opened Packets
  import opened TopicRegistries
  import opened ReadLoop
  import opened Pipeline
  import opened PipelineLaws

  /** The messages of the decodable PUBLISH packets among ps, whatever becomes of their claims. */
  function Published(client: Name, ps: seq<Packet>): seq<Message> {
    if ps == [] then [] else
      (if ps[0].ptype == PUBLISH && DecodedPublish(ps[0].flags, ps[0].body).Ok? then
         var pub := DecodedPublish(ps[0].flags, ps[0].body).value;
         [Message(client, pub.topic, pub.payload)]
       else [])
      + Published(client, ps[1..])
  }

  function OfClient(s: seq<Message>, client: Name): seq<Message> {
    if s == [] then [] else
      OfClient(s[..|s| - 1], client) + if s[|s| - 1].client == client then [s[|s| - 1]] else []
  }

  /** The save attempts of one client's messages. */
  function ByClient(handled: seq<(Message, bool)>, client: Name): seq<(Message, bool)> {
    if handled == [] then [] else
      var last := handled[|handled| - 1];
      ByClient(handled[..|handled| - 1], client) + if last.0.client == client then [last] else []
  }

  // ----- the session -----

  /** On one topic a session hands on everything it published there, in order, or nothing: its own claims
      never change whether the next one is refused. */
  lemma {:induction false} SessionSends(allowed: set<Name>, client: Name, e: Effect, ps: seq<Packet>, t: Name)
    ensures OfTopic(Effects(allowed, client, e, ps).sent, t)
         == OfTopic(e.sent, t)
          + if ClaimRefusal(allowed, e.owners, t, client).None? then OfTopic(Published(client, ps), t) else []
    decreases |ps|
  {
    if ps == [] {
      assert OfTopic(e.sent, t) + [] == OfTopic(e.sent, t);
    } else {
      SessionSends(allowed, client, EffectOf(allowed, client, e, ps[0]), ps[1..], t);
      PacketSends(allowed, client, e, ps, t);
    }
  }

  lemma PacketSends(allowed: set<Name>, client: Name, e: Effect, ps: seq<Packet>, t: Name)
    requires ps != []
    ensures var e' := EffectOf(allowed, client, e, ps[0]);
      var may := ClaimRefusal(allowed, e.owners, t, client).None?;
      && may == ClaimRefusal(allowed, e'.owners, t, client).None?
      && OfTopic(e'.sent, t) + (if may then OfTopic(Published(client, ps[1..]), t) else [])
         == OfTopic(e.sent, t) + if may then OfTopic(Published(client, ps), t) else []
  {
    var rest := Published(client, ps[1..]);
    if ps[0].ptype == PUBLISH && DecodedPublish(ps[0].flags, ps[0].body).Ok? {
      var pub := DecodedPublish(ps[0].flags, ps[0].body).value;
      var m := Message(client, pub.topic, pub.payload);
      OneThenRest(m, rest, t);
      if ClaimRefusal(allowed, e.owners, m.topic, client).None? {
        ClaimChangesNoRefusal(allowed, e.owners, m.topic, client, t);
        OfTopicPush(e.sent, m, t);
        Assoc(OfTopic(e.sent, t), [m], OfTopic(rest, t));
      }
    } else {
      assert [] + rest == rest;
    }
  }

  lemma ClaimChangesNoRefusal(allowed: set<Name>, owners: map<Name, Name>, topic: Name, client: Name, t: Name)
    requires ClaimRefusal(allowed, owners, topic, client).None?
    ensures ClaimRefusal(allowed, OwnersAfterClaim(owners, topic, client), t, client)
         == ClaimRefusal(allowed, owners, t, client)
  {
  }

  lemma OneThenRest(m: Message, rest: seq<Message>, t: Name)
    ensures OfTopic([m] + rest, t) == if m.topic == t then [m] + OfTopic(rest, t) else OfTopic(rest, t)
  {
    OfTopicPop([m] + rest, t);
    assert ([m] + rest)[1..] == rest;
  }

  // ----- projections of one client -----

  lemma OfClientPush(s: seq<Message>, m: Message, client: Name)
    ensures OfClient(s + [m], client) == if m.client == client then OfClient(s, client) + [m] else OfClient(s, client)
  {
    assert (s + [m])[..|s|] == s;
    assert OfClient(s, client) + [] == OfClient(s, client);
  }

  lemma {:induction false} ClientPrefix(a: seq<Message>, b: seq<Message>, client: Name)
    requires a <= b
    ensures OfClient(a, client) <= OfClient(b, client)
  {
    if a == b {
    } else {
      ClientPrefix(a, b[..|b| - 1], client);
    }
  }

  /** Taking a client's messages and taking a topic's commute. */
  lemma {:induction false} ClientTopicCommute(s: seq<Message>, client: Name, t: Name)
    ensures OfClient(OfTopic(s, t), client) == OfTopic(OfClient(s, client), t)
  {
    if s != [] {
      var before, m := s[..|s| - 1], s[|s| - 1];
      ClientTopicCommute(before, client, t);
      assert s == before + [m];
      OfTopicPush(before, m, t);
      OfClientPush(before, m, client);
      OfClientPush(OfTopic(before, t), m, client);
      OfTopicPush(OfClient(before, client), m, t);
    }
  }

  lemma {:induction false} ByClientAttempts(handled: seq<(Message, bool)>, client: Name)
    ensures Attempted(ByClient(handled, client)) == OfClient(Attempted(handled), client)
    ensures Saved(ByClient(handled, client)) == OfClient(Saved(handled), client)
  {
    if handled != [] {
      var before, last := handled[..|handled| - 1], handled[|handled| - 1];
      ByClientAttempts(before, client);
      assert handled == before + [(last.0, last.1)];
      SavedPush(before, last.0, last.1);
      OfClientPush(Attempted(before), last.0, client);
      OfClientPush(Saved(before), last.0, client);
      SavedPush(ByClient(before, client), last.0, last.1);
      assert ByClient(before, client) + [] == ByClient(before, client);
    }
  }

  // ----- end to end -----

  /** What was attempted of a client on a topic is a prefix of what it sent there, in its order. */
  lemma AttemptsFollowSends(c: Config, topics: set<Name>, steps: seq<Step>, t: Name, client: Name, sent: seq<Message>)
    requires t in topics && OfClient(Run(c, topics, steps).sent, client) <= sent
    ensures var p := Run(c, topics, steps);
      && t in p.lanes
      && Attempted(ByClient(p.lanes[t].handled, client)) <= OfTopic(sent, t)
      && OfClient(OfTopic(p.table, t), client) == Saved(ByClient(p.lanes[t].handled, client))
  {
    var p := Run(c, topics, steps);
    TopicsAreFifo(c, topics, steps, t);
    var l := p.lanes[t];
    ClientPrefix(Attempted(l.handled), OfTopic(p.sent, t), client);
    ClientTopicCommute(p.sent, client, t);
    PrefixOfTopic(OfClient(p.sent, client), sent, t);
    ByClientAttempts(l.handled, client);
  }

  /** From PUBLISH bytes to saved rows, in every run of the pipeline that is fed with a session's messages:
      on a topic the session may claim, the client's save attempts are its PUBLISH packets on that topic, in
      order and up to some point, and its rows are those attempts minus failed saves. */
  lemma PublishedToSaved(c: Config, topics: set<Name>, steps: seq<Step>, t: Name, allowed: set<Name>, client: Name,
                         owners: map<Name, Name>, input: Bytes)
    requires t in topics && ClaimRefusal(allowed, owners, t, client).None?
    requires OfClient(Run(c, topics, steps).sent, client)
          <= Effects(allowed, client, Effect(owners, []), Handled(input)).sent
    ensures var p := Run(c, topics, steps);
      && t in p.lanes
      && Attempted(ByClient(p.lanes[t].handled, client)) <= OfTopic(Published(client, Handled(input)), t)
      && OfClient(OfTopic(p.table, t), client) == Saved(ByClient(p.lanes[t].handled, client))
  {
    var sent := Effects(allowed, client, Effect(owners, []), Handled(input)).sent;
    AttemptsFollowSends(c, topics, steps, t, client, sent);
    SessionSends(allowed, client, Effect(owners, []), Handled(input), t);
    assert [] + OfTopic(Published(client, Handled(input)), t) == OfTopic(Published(client, Handled(input)), t);
  }
}
