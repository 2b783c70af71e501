/** The ingestion pipeline as a step system: msgChan, the router, one bounded queue and consumer per topic,
    processChan, and the fan-out to all workers. Every goroutine's next step is a Step of its own, so a run
    is any interleaving, with store failures, worker errors or panics, and cancellation at any point. */
module Pipeline {
  import opened Options
  import opened Messages

  /** Buffer sizes of msgChan, of each topic queue and of processChan, and the number of workers. */
  datatype Config = Config(inputSize: nat, queueSize: nat, processSize: nat, workers: nat)

  datatype Router = Waiting | Holding(msg: Message) | Stopped

  datatype Consumer =
    | Idle
    | Saving(msg: Message)
    | Forwarding(msg: Message)          // saved, not yet accepted by processChan
    | Halted(lost: Option<Message>)     // stopped by cancellation, perhaps with a saved message in hand

  /** One topic's queue and consumer. `handled` records its save attempts in order, with their outcome. */
  datatype Lane = Lane(queue: seq<Message>, consumer: Consumer, handled: seq<(Message, bool)>)

  /** Each worker goroutine of the current message has not started, is running, or is done. */
  datatype FanOut = Resting | Spreading(msg: Message, pending: set<nat>, running: set<nat>) | Ended

  /** `sent`, `table`, `dispatched`, `received` and `finished` are the histories an observer of msgChan, of the
      raw_data table, of processChan and of each worker's starts and ends sees; `spread` holds the messages
      fully fanned out. */
  datatype Pipe = Pipe(msgChan: seq<Message>, router: Router, lanes: map<Name, Lane>, processChan: seq<Message>,
                       fan: FanOut, cancelled: bool, sent: seq<Message>, table: seq<Message>,
                       dispatched: seq<Message>, spread: seq<Message>, received: seq<seq<Message>>,
                       finished: seq<seq<Message>>)

  function Initial(c: Config, topics: set<Name>): Pipe {
    Pipe([], Waiting, map t | t in topics :: Lane([], Idle, []), [], Resting, false, [], [], [], [],
         seq(c.workers, i => []), seq(c.workers, i => []))
  }

  datatype WorkerOutcome = Done | Failed | Panicked

  datatype Step =
    | Send(msg: Message)
    | Take
    | Enqueue
    | StopRouter
    | Pull(topic: Name)
    | Save(topic: Name, ok: bool)
    | Forward(topic: Name)
    | Halt(topic: Name)
    | FanTake
    | Start(worker: nat)
    | Finish(worker: nat, outcome: WorkerOutcome)
    | FanDone
    | StopFan
    | Cancel

  /** The workers 0 .. n-1; the fan-out starts one goroutine for each. */
  function FirstWorkers(n: nat): set<nat> { if n == 0 then {} else FirstWorkers(n - 1) + {n - 1} }

  function AllWorkers(c: Config): set<nat> { FirstWorkers(c.workers) }

  predicate Enabled(c: Config, p: Pipe, step: Step) {
    match step
    case Send(_) => |p.msgChan| < c.inputSize
    case Take => p.router.Waiting? && p.msgChan != []
    case Enqueue =>
      && p.router.Holding? && p.router.msg.topic in p.lanes
      && |p.lanes[p.router.msg.topic].queue| < c.queueSize
    case StopRouter => p.router.Waiting? && p.cancelled
    case Pull(t) => t in p.lanes && p.lanes[t].consumer.Idle? && p.lanes[t].queue != []
    case Save(t, _) => t in p.lanes && p.lanes[t].consumer.Saving?
    case Forward(t) => t in p.lanes && p.lanes[t].consumer.Forwarding? && |p.processChan| < c.processSize
    case Halt(t) => t in p.lanes && (p.lanes[t].consumer.Idle? || p.lanes[t].consumer.Forwarding?) && p.cancelled
    case FanTake => p.fan.Resting? && p.processChan != []
    case Start(w) => p.fan.Spreading? && w in p.fan.pending && w < |p.received|
    case Finish(w, _) => p.fan.Spreading? && w in p.fan.running && w < |p.finished|
    case FanDone => p.fan.Spreading? && p.fan.pending == {} && p.fan.running == {}
    case StopFan => p.fan.Resting? && p.cancelled
    case Cancel => true
  }

  /** A step that is not enabled does nothing, so every sequence of steps is a run. */
  function Next(c: Config, p: Pipe, step: Step): Pipe {
    if !Enabled(c, p, step) then p else
      match step
      case Send(m) => p.(msgChan := p.msgChan + [m], sent := p.sent + [m])
      case Take =>
        var m := p.msgChan[0];
        p.(msgChan := p.msgChan[1..], router := if m.topic in p.lanes then Holding(m) else Waiting)
      case Enqueue =>
        var m := p.router.msg;
        var l := p.lanes[m.topic];
        p.(router := Waiting, lanes := p.lanes[m.topic := l.(queue := l.queue + [m])])
      case StopRouter => p.(router := Stopped)
      case Pull(t) =>
        var l := p.lanes[t];
        p.(lanes := p.lanes[t := l.(queue := l.queue[1..], consumer := Saving(l.queue[0]))])
      case Save(t, ok) =>
        var l := p.lanes[t];
        var m := l.consumer.msg;
        p.(lanes := p.lanes[t := l.(consumer := if ok then Forwarding(m) else Idle, handled := l.handled + [(m, ok)])],
           table := if ok then p.table + [m] else p.table)
      case Forward(t) =>
        var l := p.lanes[t];
        p.(lanes := p.lanes[t := l.(consumer := Idle)], processChan := p.processChan + [l.consumer.msg],
           dispatched := p.dispatched + [l.consumer.msg])
      case Halt(t) =>
        var l := p.lanes[t];
        p.(lanes := p.lanes[t := l.(consumer := Halted(if l.consumer.Forwarding? then Some(l.consumer.msg) else None))])
      case FanTake => p.(processChan := p.processChan[1..], fan := Spreading(p.processChan[0], AllWorkers(c), {}))
      case Start(w) =>
        p.(fan := p.fan.(pending := p.fan.pending - {w}, running := p.fan.running + {w}),
           received := p.received[w := p.received[w] + [p.fan.msg]])
      case Finish(w, _) =>
        p.(fan := p.fan.(running := p.fan.running - {w}), finished := p.finished[w := p.finished[w] + [p.fan.msg]])
      case FanDone => p.(fan := Resting, spread := p.spread + [p.fan.msg])
      case StopFan => p.(fan := Ended)
      case Cancel => p.(cancelled := true)
  }

  function RunFrom(c: Config, p: Pipe, steps: seq<Step>): Pipe {
    if steps == [] then p else Next(c, RunFrom(c, p, steps[..|steps| - 1]), steps[|steps| - 1])
  }

  function Run(c: Config, topics: set<Name>, steps: seq<Step>): Pipe { RunFrom(c, Initial(c, topics), steps) }

  // ----- projections -----

  /** The messages of one topic, in order. */
  function OfTopic(s: seq<Message>, t: Name): seq<Message> {
    if s == [] then [] else
      OfTopic(s[..|s| - 1], t) + if s[|s| - 1].topic == t then [s[|s| - 1]] else []
  }

  /** The messages whose save was attempted, and those whose save succeeded. */
  function Attempted(handled: seq<(Message, bool)>): seq<Message> {
    seq(|handled|, i requires 0 <= i < |handled| => handled[i].0)
  }

  function Saved(handled: seq<(Message, bool)>): seq<Message> {
    if handled == [] then [] else
      Saved(handled[..|handled| - 1]) + if handled[|handled| - 1].1 then [handled[|handled| - 1].0] else []
  }

  function InConsumer(l: Lane): seq<Message> { if l.consumer.Saving? then [l.consumer.msg] else [] }

  /** Saved but not dispatched: at most one message. */
  function Lagging(l: Lane): seq<Message> {
    if l.consumer.Forwarding? then [l.consumer.msg]
    else if l.consumer.Halted? && l.consumer.lost.Some? then [l.consumer.lost.value]
    else []
  }

  function InRouter(p: Pipe, t: Name): seq<Message> {
    if p.router.Holding? && p.router.msg.topic == t then [p.router.msg] else []
  }

  function InFan(p: Pipe): seq<Message> { if p.fan.Spreading? then [p.fan.msg] else [] }

  lemma OfTopicPush(s: seq<Message>, m: Message, t: Name)
    ensures OfTopic(s + [m], t) == if m.topic == t then OfTopic(s, t) + [m] else OfTopic(s, t)
  {
    assert (s + [m])[..|s|] == s;
    assert OfTopic(s, t) + [] == OfTopic(s, t);
  }

  lemma {:induction false} OfTopicConcat(a: seq<Message>, b: seq<Message>, t: Name)
    ensures OfTopic(a + b, t) == OfTopic(a, t) + OfTopic(b, t)
  {
    if b == [] {
      assert a + b == a;
    } else {
      assert (a + b)[..|a + b| - 1] == a + b[..|b| - 1];
      OfTopicConcat(a, b[..|b| - 1], t);
    }
  }

  lemma OfTopicPop(s: seq<Message>, t: Name)
    requires s != []
    ensures OfTopic(s, t) == (if s[0].topic == t then [s[0]] else []) + OfTopic(s[1..], t)
  {
    assert s == [s[0]] + s[1..] && [s[0]][..0] == [];
    OfTopicConcat([s[0]], s[1..], t);
  }

  lemma SavedPush(handled: seq<(Message, bool)>, m: Message, ok: bool)
    ensures Saved(handled + [(m, ok)]) == if ok then Saved(handled) + [m] else Saved(handled)
    ensures Attempted(handled + [(m, ok)]) == Attempted(handled) + [m]
  {
    assert (handled + [(m, ok)])[..|handled|] == handled;
    assert Saved(handled) + [] == Saved(handled);
  }
}
