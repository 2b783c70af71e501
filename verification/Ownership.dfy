/** Connections, registration and topic ownership as one state machine. Each connection runs in its own
    goroutine, so claims, sends, releases and removals of different connections interleave freely;
    publishing is two steps (claim, then send), and so is the end of a connection (release its topics,
    then remove it from the client manager). */
module Ownership {
  import opened Options
  import opened Messages
  import opened TopicRegistries
  import opened ClientManagers

  /** A live connection: between its registration and its removal. */
  datatype Phase =
    | Active(id: Name)
    | Publishing(id: Name, topic: Name)  // topic claimed, message not yet sent
    | Closing(id: Name)                  // topics released, not yet removed

  /** What an observer of msgChan and of the registry sees: each message with its topic's owner at that moment. */
  datatype Event = Sent(client: Name, topic: Name, owner: Option<Name>) | Gone(client: Name)

  datatype Broker = Broker(owners: map<Name, Name>, clients: map<Name, Connection>, live: map<Connection, Phase>,
                           events: seq<Event>)

  datatype Config = Config(allowed: set<Name>, maxClients: nat)

  const INITIAL := Broker(map[], map[], map[], [])

  datatype Step =
    | Register(conn: Connection, id: Name)
    | Claim(conn: Connection, topic: Name)
    | Send(conn: Connection)
    | Abandon(conn: Connection)  // the context was cancelled while the send was blocked
    | Release(conn: Connection)
    | Remove(conn: Connection)
    | CloseAll

  predicate Enabled(b: Broker, step: Step) {
    match step
    case Register(conn, _) => conn !in b.live
    case Claim(conn, _) => conn in b.live && b.live[conn].Active?
    case Send(conn) => conn in b.live && b.live[conn].Publishing?
    case Abandon(conn) => conn in b.live && b.live[conn].Publishing?
    case Release(conn) => conn in b.live && b.live[conn].Active?
    case Remove(conn) => conn in b.live && b.live[conn].Closing?
    case CloseAll => true
  }

  /** A step that is not enabled does nothing, so every sequence of steps is a run. */
  function Next(c: Config, b: Broker, step: Step): Broker {
    if !Enabled(b, step) then b else
      match step
      case Register(conn, id) =>
        if Refused(b.clients, c.maxClients, id) then b
        else b.(clients := b.clients[id := conn], live := b.live[conn := Active(id)])
      case Claim(conn, topic) =>
        var id := b.live[conn].id;
        if ClaimRefusal(c.allowed, b.owners, topic, id).Some? then b
        else b.(owners := OwnersAfterClaim(b.owners, topic, id), live := b.live[conn := Publishing(id, topic)])
      case Send(conn) =>
        var p := b.live[conn];
        var owner := if p.topic in b.owners then Some(b.owners[p.topic]) else None;
        b.(live := b.live[conn := Active(p.id)], events := b.events + [Sent(p.id, p.topic, owner)])
      case Abandon(conn) => b.(live := b.live[conn := Active(b.live[conn].id)])
      case Release(conn) =>
        var id := b.live[conn].id;
        b.(owners := Released(b.owners, id), live := b.live[conn := Closing(id)], events := b.events + [Gone(id)])
      case Remove(conn) => b.(clients := b.clients - {b.live[conn].id}, live := b.live - {conn})
      case CloseAll => b.(clients := map[])
  }

  function Run(c: Config, steps: seq<Step>): Broker {
    if steps == [] then INITIAL else Next(c, Run(c, steps[..|steps| - 1]), steps[|steps| - 1])
  }

  /** What each connection can do, by looking at the state alone: a new one gets in exactly if there is room or its
      identifier is registered; an active one may publish on a topic exactly if that is allowed and nobody else's;
      a claimed message is sent, with the topic's owner as it then is; an active one may end, giving up its topics,
      and a closing one leaves. */
  lemma StepsHappen(c: Config, b: Broker, conn: Connection, id: Name, topic: Name)
    ensures conn !in b.live ==>
      var after := Next(c, b, Register(conn, id));
      && (conn in after.live <==> |b.clients| < c.maxClients || id in b.clients)
      && (conn in after.live ==> after.live[conn] == Active(id) && after.clients == b.clients[id := conn])
    ensures conn in b.live && b.live[conn].Active? ==>
      var me, after := b.live[conn].id, Next(c, b, Claim(conn, topic));
      && conn in after.live
      && (after.live[conn] == Publishing(me, topic) <==>
            topic in c.allowed && (topic in b.owners ==> b.owners[topic] == me))
      && (after.live[conn] != Publishing(me, topic) ==> after == b)
      && (after != b ==> topic in after.owners && after.owners[topic] == me)
    ensures conn in b.live && b.live[conn].Publishing? ==>
      var me, t, after := b.live[conn].id, b.live[conn].topic, Next(c, b, Send(conn));
      && after.events == b.events + [Sent(me, t, if t in b.owners then Some(b.owners[t]) else None)]
      && conn in after.live && after.live[conn] == Active(me)
    ensures conn in b.live && b.live[conn].Active? ==>
      var me, after := b.live[conn].id, Next(c, b, Release(conn));
      && conn in after.live && after.live[conn] == Closing(me)
      && (forall t :: t in after.owners <==> t in b.owners && b.owners[t] != me)
    ensures conn in b.live && b.live[conn].Closing? ==>
      var me, after := b.live[conn].id, Next(c, b, Remove(conn));
      conn !in after.live && after.clients == b.clients - {me}
    ensures Next(c, b, CloseAll) == b.(clients := map[])
  {
  }

  /** Registered clients never exceed the limit, whatever the run: shared identifiers and CloseAll included. */
  lemma {:induction false} ClientsBounded(c: Config, steps: seq<Step>)
    ensures |Run(c, steps).clients| <= c.maxClients
  {
    if steps != [] {
      var b, step := Run(c, steps[..|steps| - 1]), steps[|steps| - 1];
      ClientsBounded(c, steps[..|steps| - 1]);
      if Enabled(b, step) {
        match step
        case Register(conn, id) => AddedSize(b.clients, id, conn);
        case Remove(conn) => RemovedSize(b.clients, b.live[conn].id);
        case _ =>
      }
    }
  }

  // ----- runs in which no two live connections share an identifier -----

  /** The step neither registers an identifier that is live already nor clears the client manager under
      live connections. */
  predicate Distinct(b: Broker, step: Step) {
    && (step.CloseAll? ==> b.live == map[])
    && (step.Register? && step.conn !in b.live ==> forall k :: k in b.live ==> b.live[k].id != step.id)
  }

  predicate DistinctRun(c: Config, steps: seq<Step>) {
    steps != [] ==>
      && DistinctRun(c, steps[..|steps| - 1])
      && Distinct(Run(c, steps[..|steps| - 1]), steps[|steps| - 1])
  }

  predicate Holds(b: Broker, conn: Connection, owner: Name) {
    conn in b.live && !b.live[conn].Closing? && b.live[conn].id == owner
  }

  /** The registered identifiers are exactly those of the live connections, one connection each. */
  ghost predicate Registered(clients: map<Name, Connection>, live: map<Connection, Phase>) {
    && (forall k :: k in live ==> live[k].id in clients && clients[live[k].id] == k)
    && (forall id :: id in clients ==> clients[id] in live && live[clients[id]].id == id)
  }

  /** Every owner is registered, through a connection that has not released its topics. */
  ghost predicate OwnersHold(c: Config, b: Broker) {
    forall t :: t in b.owners ==>
      t in c.allowed && b.owners[t] in b.clients && Holds(b, b.clients[b.owners[t]], b.owners[t])
  }

  /** A claimed topic stays its claimer's until the message is sent. */
  ghost predicate ClaimsKept(b: Broker) {
    forall k :: k in b.live && b.live[k].Publishing? ==>
      b.live[k].topic in b.owners && b.owners[b.live[k].topic] == b.live[k].id
  }

  ghost predicate Exclusive(c: Config, b: Broker) {
    Registered(b.clients, b.live) && OwnersHold(c, b) && ClaimsKept(b)
  }

  lemma RegisterKeepsExclusive(c: Config, b: Broker, conn: Connection, id: Name)
    requires Exclusive(c, b) && Distinct(b, Register(conn, id)) && conn !in b.live
    ensures Exclusive(c, b.(clients := b.clients[id := conn], live := b.live[conn := Active(id)]))
  {
    assert id !in b.clients;
    var b' := b.(clients := b.clients[id := conn], live := b.live[conn := Active(id)]);
    assert Registered(b'.clients, b'.live);
    assert OwnersHold(c, b');
  }

  /** Changing the phase of one connection to another phase that still holds its topics. */
  lemma PhaseKeepsRegistered(b: Broker, conn: Connection, p: Phase)
    requires Registered(b.clients, b.live) && conn in b.live && p.id == b.live[conn].id
    ensures Registered(b.clients, b.live[conn := p])
  {
  }

  lemma PhaseKeepsOwners(c: Config, b: Broker, b': Broker, conn: Connection, p: Phase)
    requires OwnersHold(c, b) && conn in b.live && p.id == b.live[conn].id && !p.Closing?
    requires b'.owners == b.owners && b'.clients == b.clients && b'.live == b.live[conn := p]
    ensures OwnersHold(c, b')
  {
  }

  lemma ClaimKeepsExclusive(c: Config, b: Broker, conn: Connection, topic: Name)
    requires Exclusive(c, b)
    ensures Exclusive(c, Next(c, b, Claim(conn, topic)))
  {
    if Enabled(b, Claim(conn, topic)) {
      var p := Publishing(b.live[conn].id, topic);
      PhaseKeepsRegistered(b, conn, p);
      PhaseKeepsOwners(c, b, b.(live := b.live[conn := p]), conn, p);
    }
  }

  lemma ResumeKeepsExclusive(c: Config, b: Broker, conn: Connection, events: seq<Event>)
    requires Exclusive(c, b) && conn in b.live && !b.live[conn].Closing?
    ensures Exclusive(c, b.(live := b.live[conn := Active(b.live[conn].id)], events := events))
  {
    var p := Active(b.live[conn].id);
    PhaseKeepsRegistered(b, conn, p);
    PhaseKeepsOwners(c, b, b.(live := b.live[conn := p], events := events), conn, p);
  }

  lemma ReleaseKeepsExclusive(c: Config, b: Broker, conn: Connection)
    requires Exclusive(c, b)
    ensures Exclusive(c, Next(c, b, Release(conn)))
  {
    if Enabled(b, Release(conn)) {
      var b' := Next(c, b, Release(conn));
      PhaseKeepsRegistered(b, conn, Closing(b.live[conn].id));
      assert OwnersHold(c, b');
      forall k | k in b'.live && b'.live[k].Publishing?
        ensures b'.live[k].topic in b'.owners && b'.owners[b'.live[k].topic] == b'.live[k].id
      {
        assert k != conn && b.live[k].id != b.live[conn].id;
      }
    }
  }

  lemma RemoveKeepsExclusive(c: Config, b: Broker, conn: Connection)
    requires Exclusive(c, b)
    ensures Exclusive(c, Next(c, b, Remove(conn)))
  {
    if Enabled(b, Remove(conn)) {
      var b' := Next(c, b, Remove(conn));
      assert Registered(b'.clients, b'.live);
      assert OwnersHold(c, b');
    }
  }

  lemma StepKeepsExclusive(c: Config, b: Broker, step: Step)
    requires Exclusive(c, b) && Distinct(b, step)
    ensures Exclusive(c, Next(c, b, step))
  {
    match step
    case Register(conn, id) => if conn !in b.live { RegisterKeepsExclusive(c, b, conn, id); }
    case Claim(conn, topic) => ClaimKeepsExclusive(c, b, conn, topic);
    case Send(conn) => if Enabled(b, step) { ResumeKeepsExclusive(c, b, conn, Next(c, b, step).events); }
    case Abandon(conn) => if Enabled(b, step) { ResumeKeepsExclusive(c, b, conn, b.events); }
    case Release(conn) => ReleaseKeepsExclusive(c, b, conn);
    case Remove(conn) => RemoveKeepsExclusive(c, b, conn);
    case CloseAll =>
  }

  /** A step keeps registration and ownership in order exactly when it is distinct. */
  lemma StepKeepsExclusiveIff(c: Config, b: Broker, step: Step)
    requires Exclusive(c, b)
    ensures Exclusive(c, Next(c, b, step)) <==> Distinct(b, step)
  {
    if Distinct(b, step) {
      StepKeepsExclusive(c, b, step);
    } else if step.Register? {
      var k :| k in b.live && b.live[k].id == step.id;
      assert k in Next(c, b, step).live;
    } else {
      var k :| k in b.live;
      assert k in Next(c, b, step).live;
    }
  }

  lemma {:induction false} RunIsExclusive(c: Config, steps: seq<Step>)
    requires DistinctRun(c, steps)
    ensures Exclusive(c, Run(c, steps))
  {
    if steps != [] {
      RunIsExclusive(c, steps[..|steps| - 1]);
      StepKeepsExclusive(c, Run(c, steps[..|steps| - 1]), steps[|steps| - 1]);
    }
  }

  /** Every message entered msgChan under its topic's current owner. */
  predicate SentByOwner(events: seq<Event>) {
    forall i :: 0 <= i < |events| && events[i].Sent? ==> events[i].owner == Some(events[i].client)
  }

  /** For every past message, its topic is still owned by the sender or the sender has released since. */
  ghost predicate ReleasedSince(b: Broker) {
    forall i :: 0 <= i < |b.events| && b.events[i].Sent? ==>
      || (b.events[i].topic in b.owners && b.owners[b.events[i].topic] == b.events[i].client)
      || exists k :: i < k < |b.events| && b.events[k] == Gone(b.events[i].client)
  }

  /** Between messages of two clients on one topic, the first client released its topics. */
  ghost predicate ChangesSeparated(events: seq<Event>) {
    forall i, j :: 0 <= i < j < |events| && events[i].Sent? && events[j].Sent?
                   && events[i].topic == events[j].topic && events[i].client != events[j].client ==>
      exists k :: i < k < j && events[k] == Gone(events[i].client)
  }

  ghost predicate Orderly(b: Broker) { SentByOwner(b.events) && ReleasedSince(b) && ChangesSeparated(b.events) }

  lemma EventAppended(b: Broker, b': Broker, e: Event)
    requires Orderly(b) && b'.events == b.events + [e]
    requires e.Sent? ==>
      e.topic in b.owners && b.owners[e.topic] == e.client && e.owner == Some(e.client) && b'.owners == b.owners
    requires e.Gone? ==> b'.owners == Released(b.owners, e.client)
    ensures Orderly(b')
  {
    var n := |b.events|;
    assert forall i :: 0 <= i < n ==> b'.events[i] == b.events[i];
    forall i | 0 <= i < n && b'.events[i].Sent?
      ensures (exists k :: i < k < n && b'.events[k] == Gone(b'.events[i].client))
           || (b'.events[i].topic in b.owners && b.owners[b'.events[i].topic] == b'.events[i].client)
    {
      if k :| i < k < n && b.events[k] == Gone(b.events[i].client) {
        assert b'.events[k] == Gone(b'.events[i].client);
      }
    }
    if e.Gone? { assert b'.events[n] == e; }
    forall i, j | 0 <= i < j < n && b'.events[i].Sent? && b'.events[j].Sent?
                  && b'.events[i].topic == b'.events[j].topic && b'.events[i].client != b'.events[j].client
      ensures exists k :: i < k < j && b'.events[k] == Gone(b'.events[i].client)
    {
      var k :| i < k < j && b.events[k] == Gone(b.events[i].client);
      assert b'.events[k] == Gone(b'.events[i].client);
    }
  }

  /** The end of a connection while another one with its identifier is between claim and send. */
  predicate CutsShort(b: Broker, step: Step) {
    step.Release? && Enabled(b, step)
    && exists k :: k in b.live && b.live[k].Publishing? && b.live[k].id == b.live[step.conn].id
  }

  /** Every claim is kept until its message is sent exactly when no release cuts it short: shared identifiers
      and CloseAll do no other harm to it. */
  lemma StepKeepsClaimsIff(c: Config, b: Broker, step: Step)
    requires ClaimsKept(b)
    ensures ClaimsKept(Next(c, b, step)) <==> !CutsShort(b, step)
  {
    if CutsShort(b, step) {
      var k :| k in b.live && b.live[k].Publishing? && b.live[k].id == b.live[step.conn].id;
      assert Next(c, b, step).live[k] == b.live[k];
    }
  }

  /** No release of the run cut a claim short. */
  predicate UncutRun(c: Config, steps: seq<Step>) {
    steps != [] ==>
      && UncutRun(c, steps[..|steps| - 1])
      && !CutsShort(Run(c, steps[..|steps| - 1]), steps[|steps| - 1])
  }

  lemma StepKeepsOrder(c: Config, b: Broker, step: Step)
    requires ClaimsKept(b) && Orderly(b)
    ensures Orderly(Next(c, b, step))
  {
    var b' := Next(c, b, step);
    if Enabled(b, step) && step.Send? {
      EventAppended(b, b', b'.events[|b.events|]);
    } else if Enabled(b, step) && step.Release? {
      EventAppended(b, b', b'.events[|b.events|]);
    }
  }

  lemma {:induction false} RunIsOrderly(c: Config, steps: seq<Step>)
    requires UncutRun(c, steps)
    ensures ClaimsKept(Run(c, steps)) && Orderly(Run(c, steps))
  {
    if steps != [] {
      var before, step := Run(c, steps[..|steps| - 1]), steps[|steps| - 1];
      RunIsOrderly(c, steps[..|steps| - 1]);
      StepKeepsClaimsIff(c, before, step);
      StepKeepsOrder(c, before, step);
    }
  }

  /** Exclusive publishing: in every run in which no release cuts a claim short, every message was sent under
      its topic's current owner, and a change of publisher on a topic is always separated by the first
      client's release. */
  lemma {:induction false} PublishingIsExclusive(c: Config, steps: seq<Step>)
    requires UncutRun(c, steps)
    ensures SentByOwner(Run(c, steps).events) && ChangesSeparated(Run(c, steps).events)
  {
    RunIsOrderly(c, steps);
  }

  /** Distinct identifiers are one way to meet that condition. */
  lemma {:induction false} DistinctIsUncut(c: Config, steps: seq<Step>)
    requires DistinctRun(c, steps)
    ensures UncutRun(c, steps)
  {
    if steps != [] {
      DistinctIsUncut(c, steps[..|steps| - 1]);
      RunIsExclusive(c, steps[..|steps| - 1]);
    }
  }

  /** And they keep every owner registered. */
  lemma {:induction false} OwnersAreRegistered(c: Config, steps: seq<Step>)
    requires DistinctRun(c, steps)
    ensures var b := Run(c, steps); forall t :: t in b.owners ==> t in c.allowed && b.owners[t] in b.clients
  {
    RunIsExclusive(c, steps);
  }

  // ----- why identifiers must be distinct -----

  const A: Name := [1]
  const B: Name := [2]
  const T: Name := [3]

  // Client A reconnects while its first connection is live; that connection's late release frees the
  // topic under the second one, and B claims it before the second one sends.
  const SHARED_RUN: seq<Step> :=
    [Register(0, A)] + [Register(1, A)] + [Claim(1, T)] + [Release(0)] + [Register(2, B)] + [Claim(2, T)] + [Send(1)]

  lemma RunSnoc(c: Config, steps: seq<Step>, step: Step, b: Broker)
    requires Run(c, steps) == b
    ensures Run(c, steps + [step]) == Next(c, b, step)
  {
    assert (steps + [step])[..|steps|] == steps;
  }

  lemma SharedPrefix(c: Config)
    requires c.maxClients >= 2 && T in c.allowed
    ensures Run(c, [Register(0, A)] + [Register(1, A)] + [Claim(1, T)])
         == Broker(map[T := A], map[A := 1], map[0 := Active(A), 1 := Publishing(A, T)], [])
  {
    var m: map<Name, Name> := map[];
    assert [] + [Register(0, A)] == [Register(0, A)];
    RunSnoc(c, [], Register(0, A), INITIAL);
    var b1 := Broker(m, map[A := 0], map[0 := Active(A)], []);
    assert Next(c, INITIAL, Register(0, A)) == b1;
    RunSnoc(c, [Register(0, A)], Register(1, A), b1);
    var b2 := Broker(m, map[A := 1], map[0 := Active(A), 1 := Active(A)], []);
    assert Next(c, b1, Register(1, A)) == b2;
    RunSnoc(c, [Register(0, A)] + [Register(1, A)], Claim(1, T), b2);
  }

  /** After the prefix, the first connection ends: its release takes the second connection's topic away. */
  lemma SharedRelease(c: Config)
    requires c.maxClients >= 2 && T in c.allowed
    ensures Run(c, [Register(0, A)] + [Register(1, A)] + [Claim(1, T)] + [Release(0)])
         == Broker(map[], map[A := 1], map[0 := Closing(A), 1 := Publishing(A, T)], [Gone(A)])
  {
    SharedPrefix(c);
    var b3 := Broker(map[T := A], map[A := 1], map[0 := Active(A), 1 := Publishing(A, T)], []);
    RunSnoc(c, [Register(0, A)] + [Register(1, A)] + [Claim(1, T)], Release(0), b3);
    assert Released(map[T := A], A) == map[];
  }

  /** With a shared identifier a message can enter msgChan while another client owns its topic. */
  lemma SharedIdentifierBreaksOwnership(c: Config)
    requires c.maxClients >= 2 && T in c.allowed
    ensures !SentByOwner(Run(c, SHARED_RUN).events)
  {
    var m: map<Name, Name> := map[];
    var r4 := [Register(0, A)] + [Register(1, A)] + [Claim(1, T)] + [Release(0)];
    var b4 := Broker(m, map[A := 1], map[0 := Closing(A), 1 := Publishing(A, T)], [Gone(A)]);
    SharedRelease(c);
    RunSnoc(c, r4, Register(2, B), b4);
    var b5 := Broker(m, map[A := 1, B := 2], map[0 := Closing(A), 1 := Publishing(A, T), 2 := Active(B)], [Gone(A)]);
    assert A != B;
    assert Next(c, b4, Register(2, B)) == b5;
    RunSnoc(c, r4 + [Register(2, B)], Claim(2, T), b5);
    var b6 := Next(c, b5, Claim(2, T));
    RunSnoc(c, r4 + [Register(2, B)] + [Claim(2, T)], Send(1), b6);
    assert Run(c, SHARED_RUN).events[1] == Sent(A, T, Some(B));
  }
}
