/** What holds in every run of the pipeline, cancelled or not: per-topic order and conservation, persistence
    before dispatch, and equal delivery to all workers; and, for uncancelled runs, progress and draining. */
module PipelineLaws {
  import opened Sequences
  import opened Options
  import opened Messages
  import opened Pipeline

  // ----- the invariant -----

  /** Whatever was sent on a topic is, in order: attempted, in the consumer, in the queue, in the router, or
      still in msgChan. */
  predicate Conserved(p: Pipe, t: Name) {
    t in p.lanes ==>
      OfTopic(p.sent, t)
      == Attempted(p.lanes[t].handled) + InConsumer(p.lanes[t]) + p.lanes[t].queue
       + InRouter(p, t) + OfTopic(p.msgChan, t)
  }

  /** A lane against its topic's saved rows and dispatched messages: the rows are its attempts minus the
      failed saves, and what was dispatched lags behind them by at most one. */
  predicate LanePersisted(l: Lane, rows: seq<Message>, dispatched: seq<Message>) {
    rows == Saved(l.handled) && rows == dispatched + Lagging(l)
  }

  predicate Persisted(p: Pipe, t: Name) {
    t in p.lanes ==> LanePersisted(p.lanes[t], OfTopic(p.table, t), OfTopic(p.dispatched, t))
  }

  /** A lane holds messages of its own topic only. */
  predicate OwnTopic(p: Pipe, t: Name) {
    t in p.lanes ==>
      && (forall m | m in p.lanes[t].queue :: m.topic == t)
      && (p.lanes[t].consumer.Saving? || p.lanes[t].consumer.Forwarding? ==> p.lanes[t].consumer.msg.topic == t)
  }

  predicate RouterKnows(p: Pipe) { p.router.Holding? ==> p.router.msg.topic in p.lanes }

  /** Dispatched messages are, in order: fanned out, being fanned out, or in processChan; each worker has
      received what was fanned out, plus the current message once it has started on it, and has finished what
      was fanned out, plus the current message once it is done with it. */
  predicate Delivered(c: Config, p: Pipe) {
    && |p.received| == |p.finished| == c.workers
    && p.dispatched == p.spread + InFan(p) + p.processChan
    && (forall w :: 0 <= w < c.workers ==> p.received[w] == p.spread + Current(p, !Pending(p, w)))
    && (forall w :: 0 <= w < c.workers ==> p.finished[w] == p.spread + Current(p, !Pending(p, w) && !Running(p, w)))
    && (p.fan.Spreading? ==>
          p.fan.pending <= AllWorkers(c) && p.fan.running <= AllWorkers(c) && p.fan.pending !! p.fan.running)
  }

  predicate Pending(p: Pipe, w: nat) { p.fan.Spreading? && w in p.fan.pending }

  predicate Running(p: Pipe, w: nat) { p.fan.Spreading? && w in p.fan.running }

  function Current(p: Pipe, reached: bool): seq<Message> { if p.fan.Spreading? && reached then [p.fan.msg] else [] }

  /** No channel ever holds more than its buffer. */
  predicate Bounded(c: Config, p: Pipe) {
    && |p.msgChan| <= c.inputSize
    && |p.processChan| <= c.processSize
    && forall t :: t in p.lanes ==> |p.lanes[t].queue| <= c.queueSize
  }

  ghost predicate Inv(c: Config, p: Pipe) {
    && (forall t :: Conserved(p, t) && Persisted(p, t) && OwnTopic(p, t))
    && RouterKnows(p) && Delivered(c, p) && Bounded(c, p)
  }

  lemma InitialInv(c: Config, topics: set<Name>)
    ensures Inv(c, Initial(c, topics))
  {
  }

  lemma StepKeepsOwnTopic(c: Config, p: Pipe, step: Step, t: Name)
    requires OwnTopic(p, t) && RouterKnows(p)
    ensures OwnTopic(Next(c, p, step), t) && RouterKnows(Next(c, p, step))
  {
  }

  lemma RouterStepConserves(c: Config, p: Pipe, step: Step, t: Name)
    requires Conserved(p, t) && (step.Send? || step.Take? || step.Enqueue?) && Enabled(c, p, step) && t in p.lanes
    ensures Conserved(Next(c, p, step), t)
  {
    var l := p.lanes[t];
    var ahead := Attempted(l.handled) + InConsumer(l);
    match step
    case Send(m) =>
      OfTopicPush(p.sent, m, t);
      OfTopicPush(p.msgChan, m, t);
      Assoc(ahead + l.queue + InRouter(p, t), OfTopic(p.msgChan, t), [m]);
    case Take =>
      var m := p.msgChan[0];
      OfTopicPop(p.msgChan, t);
      Assoc(ahead + l.queue, [], OfTopic(p.msgChan, t));
      Assoc(ahead + l.queue + [], if m.topic == t then [m] else [], OfTopic(p.msgChan[1..], t));
      assert ahead + l.queue + [] == ahead + l.queue;
    case Enqueue =>
      var m := p.router.msg;
      Assoc(ahead, l.queue, InRouter(p, t));
      assert ahead + (l.queue + [m]) + [] == ahead + (l.queue + [m]);
  }

  lemma ConsumerStepConserves(c: Config, p: Pipe, step: Step, t: Name)
    requires Conserved(p, t) && t in p.lanes && Enabled(c, p, step)
    requires step == Pull(t) || step == Save(t, true) || step == Save(t, false)
    ensures Conserved(Next(c, p, step), t)
  {
    var l := p.lanes[t];
    var behind := InRouter(p, t) + OfTopic(p.msgChan, t);
    match step
    case Pull(_) =>
      assert l.queue == [l.queue[0]] + l.queue[1..];
      Assoc(Attempted(l.handled) + [], [l.queue[0]], l.queue[1..]);
      assert Attempted(l.handled) + [] == Attempted(l.handled);
    case Save(_, ok) =>
      SavedPush(l.handled, l.consumer.msg, ok);
      assert Attempted(l.handled) + [l.consumer.msg] + [] == Attempted(l.handled) + [l.consumer.msg];
  }

  lemma StepKeepsConserved(c: Config, p: Pipe, step: Step, t: Name)
    requires Conserved(p, t)
    ensures Conserved(Next(c, p, step), t)
  {
    if t in p.lanes && Enabled(c, p, step) {
      if step.Send? || step.Take? || step.Enqueue? {
        RouterStepConserves(c, p, step, t);
      } else if (step.Pull? || step.Save?) && step.topic == t {
        ConsumerStepConserves(c, p, step, t);
      }
    }
  }

  function AfterSave(l: Lane, ok: bool): Lane
    requires l.consumer.Saving?
  {
    l.(consumer := if ok then Forwarding(l.consumer.msg) else Idle, handled := l.handled + [(l.consumer.msg, ok)])
  }

  lemma LaneSaves(l: Lane, rows: seq<Message>, dispatched: seq<Message>, ok: bool)
    requires l.consumer.Saving? && LanePersisted(l, rows, dispatched)
    ensures LanePersisted(AfterSave(l, ok), if ok then rows + [l.consumer.msg] else rows, dispatched)
  {
    SavedPush(l.handled, l.consumer.msg, ok);
    assert dispatched + [] == dispatched;
  }

  lemma LaneForwards(l: Lane, rows: seq<Message>, dispatched: seq<Message>)
    requires l.consumer.Forwarding? && LanePersisted(l, rows, dispatched)
    ensures LanePersisted(l.(consumer := Idle), rows, dispatched + [l.consumer.msg])
  {
    assert rows + [] == rows;
  }

  lemma SaveKeepsPersisted(c: Config, p: Pipe, u: Name, ok: bool, t: Name)
    requires Persisted(p, t) && OwnTopic(p, u) && t in p.lanes && Enabled(c, p, Save(u, ok))
    ensures Persisted(Next(c, p, Save(u, ok)), t)
  {
    var m := p.lanes[u].consumer.msg;
    OfTopicPush(p.table, m, t);
    if t == u { LaneSaves(p.lanes[t], OfTopic(p.table, t), OfTopic(p.dispatched, t), ok); }
  }

  lemma ForwardKeepsPersisted(c: Config, p: Pipe, u: Name, t: Name)
    requires Persisted(p, t) && OwnTopic(p, u) && t in p.lanes && Enabled(c, p, Forward(u))
    ensures Persisted(Next(c, p, Forward(u)), t)
  {
    var m := p.lanes[u].consumer.msg;
    OfTopicPush(p.dispatched, m, t);
    if t == u { LaneForwards(p.lanes[t], OfTopic(p.table, t), OfTopic(p.dispatched, t)); }
  }

  lemma OtherStepKeepsPersisted(c: Config, p: Pipe, step: Step, t: Name)
    requires Persisted(p, t) && !step.Save? && !step.Forward?
    ensures Persisted(Next(c, p, step), t)
  {
    var q := Next(c, p, step);
    assert q.table == p.table && q.dispatched == p.dispatched;
    if t in p.lanes {
      assert q.lanes[t].handled == p.lanes[t].handled && Lagging(q.lanes[t]) == Lagging(p.lanes[t]);
    }
  }

  lemma StepKeepsPersisted(c: Config, p: Pipe, step: Step, t: Name)
    requires Persisted(p, t)
    requires (step.Save? || step.Forward?) ==> OwnTopic(p, step.topic)
    ensures Persisted(Next(c, p, step), t)
  {
    if step.Save? {
      if t in p.lanes && Enabled(c, p, step) { SaveKeepsPersisted(c, p, step.topic, step.ok, t); }
    } else if step.Forward? {
      if t in p.lanes && Enabled(c, p, step) { ForwardKeepsPersisted(c, p, step.topic, t); }
    } else {
      OtherStepKeepsPersisted(c, p, step, t);
    }
  }

  lemma ForwardKeepsDelivered(c: Config, p: Pipe, t: Name)
    requires Delivered(c, p) && Enabled(c, p, Forward(t))
    ensures Delivered(c, Next(c, p, Forward(t)))
  {
    Assoc(p.spread + InFan(p), p.processChan, [p.lanes[t].consumer.msg]);
  }

  lemma FanTakeKeepsDelivered(c: Config, p: Pipe)
    requires Delivered(c, p) && Enabled(c, p, FanTake)
    ensures Delivered(c, Next(c, p, FanTake))
  {
    FirstWorkersAre(c.workers);
    assert p.processChan == [p.processChan[0]] + p.processChan[1..];
    Assoc(p.spread + [], [p.processChan[0]], p.processChan[1..]);
    assert p.spread + [] == p.spread;
  }

  lemma WorkerStepKeepsDelivered(c: Config, p: Pipe, step: Step)
    requires Delivered(c, p) && Enabled(c, p, step) && (step.Start? || step.Finish?)
    ensures Delivered(c, Next(c, p, step))
  {
    var w := step.worker;
    var p' := Next(c, p, step);
    assert p.spread + [] == p.spread;
    forall v | 0 <= v < c.workers
      ensures Pending(p', v) == (Pending(p, v) && !(step.Start? && v == w))
      ensures Running(p', v) == if v == w then step.Start? else Running(p, v)
      ensures v != w ==> p'.received[v] == p.received[v] && p'.finished[v] == p.finished[v]
    {
    }
  }

  lemma FanDoneKeepsDelivered(c: Config, p: Pipe)
    requires Delivered(c, p) && Enabled(c, p, FanDone)
    ensures Delivered(c, Next(c, p, FanDone))
  {
    assert p.spread + [p.fan.msg] + [] == p.spread + [p.fan.msg];
  }

  lemma SameDelivery(c: Config, p: Pipe, q: Pipe)
    requires Delivered(c, p)
    requires q.dispatched == p.dispatched && q.spread == p.spread && q.processChan == p.processChan
    requires q.received == p.received && q.finished == p.finished
    requires q.fan == p.fan || (!q.fan.Spreading? && !p.fan.Spreading?)
    ensures Delivered(c, q)
  {
  }

  lemma StepKeepsDelivered(c: Config, p: Pipe, step: Step)
    requires Delivered(c, p)
    ensures Delivered(c, Next(c, p, step))
  {
    if Enabled(c, p, step) {
      match step
      case Forward(t) => ForwardKeepsDelivered(c, p, t);
      case FanTake => FanTakeKeepsDelivered(c, p);
      case Start(_) => WorkerStepKeepsDelivered(c, p, step);
      case Finish(_, _) => WorkerStepKeepsDelivered(c, p, step);
      case FanDone => FanDoneKeepsDelivered(c, p);
      case _ => SameDelivery(c, p, Next(c, p, step));
    }
  }

  lemma StepKeepsBounded(c: Config, p: Pipe, step: Step)
    requires Bounded(c, p)
    ensures Bounded(c, Next(c, p, step))
  {
  }

  lemma StepKeepsInv(c: Config, p: Pipe, step: Step)
    requires Inv(c, p)
    ensures Inv(c, Next(c, p, step))
  {
    assert (step.Save? || step.Forward?) ==> OwnTopic(p, step.topic);
    forall t ensures Conserved(Next(c, p, step), t) && Persisted(Next(c, p, step), t) && OwnTopic(Next(c, p, step), t) {
      StepKeepsConserved(c, p, step, t);
      StepKeepsPersisted(c, p, step, t);
      StepKeepsOwnTopic(c, p, step, t);
    }
    StepKeepsOwnTopic(c, p, step, []);
    StepKeepsDelivered(c, p, step);
    StepKeepsBounded(c, p, step);
  }

  lemma LanesStay(c: Config, p: Pipe, step: Step)
    ensures Next(c, p, step).lanes.Keys == p.lanes.Keys
  {
  }

  lemma {:induction false} RunKeepsInv(c: Config, p: Pipe, steps: seq<Step>)
    requires Inv(c, p)
    ensures Inv(c, RunFrom(c, p, steps)) && RunFrom(c, p, steps).lanes.Keys == p.lanes.Keys
  {
    if steps != [] {
      RunKeepsInv(c, p, steps[..|steps| - 1]);
      StepKeepsInv(c, RunFrom(c, p, steps[..|steps| - 1]), steps[|steps| - 1]);
      LanesStay(c, RunFrom(c, p, steps[..|steps| - 1]), steps[|steps| - 1]);
    }
  }

  /** Per-topic FIFO and conservation, in every run: nothing of a configured topic is lost, duplicated or
      reordered, and the saved rows are the sends in order minus failed saves. */
  lemma TopicsAreFifo(c: Config, topics: set<Name>, steps: seq<Step>, t: Name)
    requires t in topics
    ensures var p := Run(c, topics, steps);
      && t in p.lanes
      && OfTopic(p.sent, t)
         == Attempted(p.lanes[t].handled) + InConsumer(p.lanes[t]) + p.lanes[t].queue
          + InRouter(p, t) + OfTopic(p.msgChan, t)
      && OfTopic(p.table, t) == Saved(p.lanes[t].handled)
  {
    InitialInv(c, topics);
    RunKeepsInv(c, Initial(c, topics), steps);
    assert Conserved(Run(c, topics, steps), t) && Persisted(Run(c, topics, steps), t);
  }

  lemma PrefixOfTopic(a: seq<Message>, b: seq<Message>, t: Name)
    requires a <= b
    ensures OfTopic(a, t) <= OfTopic(b, t)
  {
    assert b == a + b[|a|..];
    OfTopicConcat(a, b[|a|..], t);
  }

  /** Workers are within one message of each other, have received a prefix of what was dispatched, and receive
      a message only when every worker has finished all earlier ones. */
  lemma DeliveredInStep(c: Config, p: Pipe, w: nat, v: nat)
    requires Delivered(c, p) && w < c.workers && v < c.workers
    ensures p.received[w] <= p.dispatched
    ensures p.received[w] <= p.received[v] || p.received[v] <= p.received[w]
    ensures |p.received[w]| <= |p.received[v]| + 1
    ensures p.finished[v] <= p.received[v] && |p.received[w]| <= |p.finished[v]| + 1
  {
  }

  /** Persist before dispatch, end to end, in every run: a topic's dispatched messages are a prefix of its
      saved rows lagging by at most one; what a worker received of it is a prefix of those dispatched; any two
      workers are within one message of each other, and a worker receives a message only when every worker
      has finished all earlier ones. */
  lemma PersistBeforeDispatch(c: Config, topics: set<Name>, steps: seq<Step>, t: Name, w: nat, v: nat)
    requires t in topics && w < c.workers && v < c.workers
    ensures var p := Run(c, topics, steps);
      && |p.received| == c.workers
      && OfTopic(p.dispatched, t) <= OfTopic(p.table, t)
      && |OfTopic(p.table, t)| <= |OfTopic(p.dispatched, t)| + 1
      && p.received[w] <= p.dispatched
      && OfTopic(p.received[w], t) <= OfTopic(p.table, t)
      && (p.received[w] <= p.received[v] || p.received[v] <= p.received[w])
      && |p.received[w]| <= |p.received[v]| + 1
      && |p.finished| == c.workers && p.finished[v] <= p.received[v] && |p.received[w]| <= |p.finished[v]| + 1
  {
    InitialInv(c, topics);
    RunKeepsInv(c, Initial(c, topics), steps);
    var p := Run(c, topics, steps);
    assert Persisted(p, t);
    DeliveredInStep(c, p, w, v);
    PrefixOfTopic(p.received[w], p.dispatched, t);
  }

  // ----- buffers and backpressure -----

  /** In every run, no channel ever holds more than its buffer. */
  lemma BuffersHold(c: Config, topics: set<Name>, steps: seq<Step>)
    ensures var p := Run(c, topics, steps);
      && |p.msgChan| <= c.inputSize
      && |p.processChan| <= c.processSize
      && forall t :: t in p.lanes ==> |p.lanes[t].queue| <= c.queueSize
  {
    InitialInv(c, topics);
    RunKeepsInv(c, Initial(c, topics), steps);
  }

  /** Backpressure, in every reachable state: a message stays with its holder exactly when the buffer it is
      bound for is full, and is at that buffer's end otherwise: with the router for its topic's queue, with
      the sender for msgChan, with the consumer for processChan. */
  lemma BackpressureIff(c: Config, topics: set<Name>, steps: seq<Step>, m: Message, t: Name)
    ensures var p := Run(c, topics, steps);
      && (p.router.Holding? ==>
            var u, q := p.router.msg.topic, Next(c, p, Enqueue);
            && u in p.lanes && u in q.lanes
            && (q.router == p.router <==> |p.lanes[u].queue| == c.queueSize)
            && (q.router != p.router ==> q.router == Waiting && q.lanes[u].queue == p.lanes[u].queue + [p.router.msg])
            && (q.router == p.router ==> q == p))
      && (var q := Next(c, p, Send(m));
          && (q.msgChan == p.msgChan <==> |p.msgChan| == c.inputSize)
          && (q.msgChan != p.msgChan ==> q.msgChan == p.msgChan + [m]))
      && (t in p.lanes && p.lanes[t].consumer.Forwarding? ==>
            var q := Next(c, p, Forward(t));
            && t in q.lanes
            && (q.lanes[t].consumer == p.lanes[t].consumer <==> |p.processChan| == c.processSize)
            && (q.lanes[t].consumer != p.lanes[t].consumer ==>
                  q.lanes[t].consumer == Idle && q.processChan == p.processChan + [p.lanes[t].consumer.msg]))
  {
    BuffersHold(c, topics, steps);
    InitialInv(c, topics);
    RunKeepsInv(c, Initial(c, topics), steps);
  }

  /** Stopping, in every reachable state: a goroutine stops exactly when the run is cancelled and it waits for
      input, or, for a consumer, for room in processChan; a saving consumer, a holding router and a busy fan-out
      do not stop. */
  lemma StopsIff(c: Config, topics: set<Name>, steps: seq<Step>, t: Name)
    ensures var p := Run(c, topics, steps);
      && (Next(c, p, StopRouter).router == Stopped <==> p.router == Stopped || (p.cancelled && p.router == Waiting))
      && (Next(c, p, StopFan).fan == Ended <==> p.fan == Ended || (p.cancelled && p.fan == Resting))
      && (t in p.lanes ==>
            var before, after := p.lanes[t].consumer, Next(c, p, Halt(t)).lanes[t].consumer;
            after.Halted? <==> before.Halted? || (p.cancelled && (before.Idle? || before.Forwarding?)))
  {
  }

  // ----- progress -----

  predicate Internal(step: Step) {
    step.Take? || step.Enqueue? || step.Pull? || step.Save? || step.Forward? || step.FanTake? || step.Start?
    || step.Finish? || step.FanDone?
  }

  /** Nothing stops unless the run is cancelled. */
  predicate Alive(p: Pipe) {
    !p.cancelled && !p.router.Stopped? && !p.fan.Ended? && forall t :: t in p.lanes ==> !p.lanes[t].consumer.Halted?
  }

  /** No message is on its way. */
  predicate Finished(p: Pipe) {
    && p.msgChan == [] && !p.router.Holding? && p.processChan == [] && !p.fan.Spreading?
    && forall t :: t in p.lanes ==>
         p.lanes[t].queue == [] && !p.lanes[t].consumer.Saving? && !p.lanes[t].consumer.Forwarding?
  }

  /** Deadlock freedom: with room for at least one message in the queues and in processChan, an unfinished
      pipeline that is not cancelled always has an enabled internal step, however full it is. */
  lemma NoDeadlock(c: Config, p: Pipe)
    requires c.queueSize >= 1 && c.processSize >= 1
    requires Inv(c, p) && Alive(p)
    ensures Finished(p) <==> forall step :: Internal(step) ==> !Enabled(c, p, step)
  {
    if !Finished(p) {
      var step := SomeStep(c, p);
    }
  }

  lemma SomeStep(c: Config, p: Pipe) returns (step: Step)
    requires c.queueSize >= 1 && c.processSize >= 1
    requires Inv(c, p) && Alive(p) && !Finished(p)
    ensures Internal(step) && Enabled(c, p, step)
  {
    FirstWorkersAre(c.workers);
    if p.fan.Spreading? {
      if w :| w in p.fan.pending {
        step := Start(w);
      } else if w :| w in p.fan.running {
        step := Finish(w, Done);
      } else {
        step := FanDone;
      }
    } else if p.processChan != [] {
      step := FanTake;
    } else if t :| t in p.lanes && p.lanes[t].consumer.Forwarding? {
      step := Forward(t);
    } else if t :| t in p.lanes && p.lanes[t].consumer.Saving? {
      step := Save(t, true);
    } else if t :| t in p.lanes && p.lanes[t].queue != [] {
      step := Pull(t);
    } else if p.router.Holding? {
      step := Enqueue;
    } else {
      step := Take;
    }
  }

  // ----- the measure: every message weighs more the further it is from the workers -----

  function Base(c: Config): nat { 2 * c.workers + 2 }

  function LaneWeight(c: Config, l: Lane): nat {
    |l.queue| * (Base(c) + 3)
    + match l.consumer
      case Saving(_) => Base(c) + 2
      case Forwarding(_) => Base(c) + 1
      case _ => 0
  }

  ghost function LanesWeight(c: Config, lanes: map<Name, Lane>): nat
    decreases |lanes|
  {
    if lanes == map[] then 0 else
      var t :| t in lanes;
      RemovedSmaller(lanes, t);
      LaneWeight(c, lanes[t]) + LanesWeight(c, lanes - {t})
  }

  lemma RemovedSmaller(lanes: map<Name, Lane>, t: Name)
    requires t in lanes
    ensures |lanes - {t}| < |lanes|
  {
    assert (lanes - {t}).Keys == lanes.Keys - {t};
  }

  /** The sum does not depend on the order in which lanes are added up. */
  lemma {:induction false} LanesWeightPick(c: Config, lanes: map<Name, Lane>, t: Name)
    requires t in lanes
    ensures LanesWeight(c, lanes) == LaneWeight(c, lanes[t]) + LanesWeight(c, lanes - {t})
    decreases |lanes|
  {
    var u :| u in lanes && LanesWeight(c, lanes) == LaneWeight(c, lanes[u]) + LanesWeight(c, lanes - {u});
    if u != t {
      RemovedSmaller(lanes, u);
      RemovedSmaller(lanes, t);
      LanesWeightPick(c, lanes - {u}, t);
      LanesWeightPick(c, lanes - {t}, u);
      assert lanes - {u} - {t} == lanes - {t} - {u};
    }
  }

  lemma LaneReplaced(c: Config, lanes: map<Name, Lane>, t: Name, l: Lane)
    requires t in lanes
    ensures LanesWeight(c, lanes[t := l]) == LanesWeight(c, lanes) - LaneWeight(c, lanes[t]) + LaneWeight(c, l)
  {
    LanesWeightPick(c, lanes, t);
    LanesWeightPick(c, lanes[t := l], t);
    assert lanes[t := l] - {t} == lanes - {t};
  }

  ghost function Measure(c: Config, p: Pipe): nat {
    |p.msgChan| * (Base(c) + 5)
    + (if p.router.Holding? then Base(c) + 4 else 0)
    + LanesWeight(c, p.lanes)
    + |p.processChan| * Base(c)
    + if p.fan.Spreading? then 1 + 2 * |p.fan.pending| + |p.fan.running| else 0
  }

  lemma {:induction false} FirstWorkersAre(n: nat)
    ensures |FirstWorkers(n)| == n && forall w: nat :: w in FirstWorkers(n) <==> w < n
  {
    if n > 0 { FirstWorkersAre(n - 1); }
  }

  lemma OneLess(n: int, k: int)
    ensures (n - 1) * k == n * k - k && (n + 1) * k == n * k + k
  {
  }

  lemma QueueStepDescends(c: Config, p: Pipe, step: Step)
    requires (step.Take? || step.Enqueue? || step.Pull?) && Enabled(c, p, step)
    ensures Measure(c, Next(c, p, step)) < Measure(c, p)
  {
    match step
    case Take => OneLess(|p.msgChan|, Base(c) + 5);
    case Enqueue =>
      var l := p.lanes[p.router.msg.topic];
      OneLess(|l.queue|, Base(c) + 3);
      LaneReplaced(c, p.lanes, p.router.msg.topic, l.(queue := l.queue + [p.router.msg]));
    case Pull(t) =>
      var l := p.lanes[t];
      OneLess(|l.queue|, Base(c) + 3);
      LaneReplaced(c, p.lanes, t, l.(queue := l.queue[1..], consumer := Saving(l.queue[0])));
  }

  lemma ConsumerStepDescends(c: Config, p: Pipe, step: Step)
    requires (step.Save? || step.Forward?) && Enabled(c, p, step)
    ensures Measure(c, Next(c, p, step)) < Measure(c, p)
  {
    LaneReplaced(c, p.lanes, step.topic, Next(c, p, step).lanes[step.topic]);
    OneLess(|p.processChan|, Base(c));
  }

  lemma WorkerStepDescends(c: Config, p: Pipe, step: Step)
    requires (step.Start? || step.Finish?) && Enabled(c, p, step)
    ensures Measure(c, Next(c, p, step)) < Measure(c, p)
  {
    if step.Start? { assert |p.fan.running + {step.worker}| <= |p.fan.running| + 1; }
  }

  lemma FanStepDescends(c: Config, p: Pipe, step: Step)
    requires (step.FanTake? || step.FanDone?) && Enabled(c, p, step)
    ensures Measure(c, Next(c, p, step)) < Measure(c, p)
  {
    OneLess(|p.processChan|, Base(c));
    FirstWorkersAre(c.workers);
  }

  /** Every internal step makes progress. */
  lemma InternalStepDescends(c: Config, p: Pipe, step: Step)
    requires Internal(step) && Enabled(c, p, step)
    ensures Measure(c, Next(c, p, step)) < Measure(c, p)
  {
    if step.Take? || step.Enqueue? || step.Pull? {
      QueueStepDescends(c, p, step);
    } else if step.Save? || step.Forward? {
      ConsumerStepDescends(c, p, step);
    } else if step.Start? || step.Finish? {
      WorkerStepDescends(c, p, step);
    } else {
      FanStepDescends(c, p, step);
    }
  }

  /** The internal steps a schedule takes are all enabled when they are taken. */
  predicate Taken(c: Config, p: Pipe, steps: seq<Step>) {
    steps != [] ==>
      && Taken(c, p, steps[..|steps| - 1])
      && Internal(steps[|steps| - 1])
      && Enabled(c, RunFrom(c, p, steps[..|steps| - 1]), steps[|steps| - 1])
  }

  lemma InternalKeepsAlive(c: Config, p: Pipe, step: Step)
    requires Alive(p) && Internal(step)
    ensures Alive(Next(c, p, step)) && Next(c, p, step).sent == p.sent
  {
  }

  /** No schedule of internal steps is longer than the measure. */
  lemma {:induction false} SchedulesAreBounded(c: Config, p: Pipe, steps: seq<Step>)
    requires Inv(c, p) && Alive(p) && Taken(c, p, steps)
    ensures var q := RunFrom(c, p, steps);
      && |steps| + Measure(c, q) <= Measure(c, p)
      && Inv(c, q) && Alive(q) && q.sent == p.sent && q.lanes.Keys == p.lanes.Keys
  {
    if steps != [] {
      var before, step := RunFrom(c, p, steps[..|steps| - 1]), steps[|steps| - 1];
      SchedulesAreBounded(c, p, steps[..|steps| - 1]);
      InternalStepDescends(c, before, step);
      StepKeepsInv(c, before, step);
      InternalKeepsAlive(c, before, step);
    }
  }

  /** Every message sent on a configured topic was attempted, every saved one reached every worker. */
  predicate Drained(c: Config, p: Pipe) {
    && |p.received| == c.workers
    && (forall t :: t in p.lanes ==>
          && OfTopic(p.sent, t) == Attempted(p.lanes[t].handled)
          && OfTopic(p.dispatched, t) == OfTopic(p.table, t) == Saved(p.lanes[t].handled))
    && (forall w :: 0 <= w < c.workers ==> p.received[w] == p.dispatched)
  }

  lemma FinishedIsDrained(c: Config, p: Pipe)
    requires Inv(c, p) && Alive(p) && Finished(p)
    ensures Drained(c, p)
  {
    forall t | t in p.lanes
      ensures OfTopic(p.sent, t) == Attempted(p.lanes[t].handled)
      ensures OfTopic(p.dispatched, t) == OfTopic(p.table, t) == Saved(p.lanes[t].handled)
    {
      assert Conserved(p, t) && Persisted(p, t);
    }
  }

  predicate Uncancelled(steps: seq<Step>) { forall i :: 0 <= i < |steps| ==> steps[i] != Cancel }

  lemma {:induction false} UncancelledIsAlive(c: Config, topics: set<Name>, steps: seq<Step>)
    requires Uncancelled(steps)
    ensures Alive(Run(c, topics, steps))
  {
    if steps != [] {
      var n := |steps| - 1;
      UncancelledIsAlive(c, topics, steps[..n]);
      assert steps[n] != Cancel;
      StepKeepsAlive(c, Run(c, topics, steps[..n]), steps[n]);
    }
  }

  lemma StepKeepsAlive(c: Config, p: Pipe, step: Step)
    requires Alive(p) && step != Cancel
    ensures Alive(Next(c, p, step))
  {
  }

  /** Draining: after any uncancelled history, a schedule of internal steps is never longer than the measure,
      and one that cannot be continued has drained the pipeline. */
  lemma PipelineDrains(c: Config, topics: set<Name>, history: seq<Step>, steps: seq<Step>)
    requires c.queueSize >= 1 && c.processSize >= 1
    requires Uncancelled(history) && Taken(c, Run(c, topics, history), steps)
    ensures var p := Run(c, topics, history);
      var q := RunFrom(c, p, steps);
      && |steps| <= Measure(c, p)
      && q.sent == p.sent
      && ((forall step :: Internal(step) ==> !Enabled(c, q, step)) ==> Drained(c, q))
  {
    var p := Run(c, topics, history);
    var q := RunFrom(c, p, steps);
    InitialInv(c, topics);
    RunKeepsInv(c, Initial(c, topics), history);
    UncancelledIsAlive(c, topics, history);
    SchedulesAreBounded(c, p, steps);
    NoDeadlock(c, q);
    if Finished(q) { FinishedIsDrained(c, q); }
  }

  /** And from any such state there is a schedule that drains it. */
  lemma {:induction false} DrainingSchedule(c: Config, p: Pipe) returns (steps: seq<Step>)
    requires c.queueSize >= 1 && c.processSize >= 1
    requires Inv(c, p) && Alive(p)
    ensures Taken(c, p, steps) && Finished(RunFrom(c, p, steps)) && Drained(c, RunFrom(c, p, steps))
    decreases Measure(c, p)
  {
    if Finished(p) {
      FinishedIsDrained(c, p);
      steps := [];
    } else {
      var step := SomeStep(c, p);
      InternalStepDescends(c, p, step);
      StepKeepsInv(c, p, step);
      InternalKeepsAlive(c, p, step);
      var rest := DrainingSchedule(c, Next(c, p, step));
      TakenCons(c, p, step, rest);
      steps := [step] + rest;
    }
  }

  lemma RunSnoc(c: Config, p: Pipe, steps: seq<Step>, last: Step)
    ensures RunFrom(c, p, steps + [last]) == Next(c, RunFrom(c, p, steps), last)
    ensures Taken(c, p, steps + [last])
       <==> Taken(c, p, steps) && Internal(last) && Enabled(c, RunFrom(c, p, steps), last)
  {
    assert (steps + [last])[..|steps|] == steps;
  }

  lemma {:induction false} TakenCons(c: Config, p: Pipe, step: Step, rest: seq<Step>)
    requires Internal(step) && Enabled(c, p, step) && Taken(c, Next(c, p, step), rest)
    ensures Taken(c, p, [step] + rest) && RunFrom(c, p, [step] + rest) == RunFrom(c, Next(c, p, step), rest)
    decreases |rest|
  {
    if rest == [] {
      RunSnoc(c, p, [], step);
      assert [step] + rest == [] + [step];
    } else {
      var before, last := rest[..|rest| - 1], rest[|rest| - 1];
      assert rest == before + [last] && [step] + rest == ([step] + before) + [last];
      RunSnoc(c, Next(c, p, step), before, last);
      TakenCons(c, p, step, before);
      RunSnoc(c, p, [step] + before, last);
    }
  }
}
