/** `AsyncMessageProcessor.consume_loop` as a state machine. Several processor
    objects, each shared by several tasks, compete for one consumer group. A
    task moves from one `await` to the next; between two of its moves anything
    else may happen. Errors, cancellation, lost replies and late
    acknowledgements are separate moves. */
module ConsumerProtocol {
  import opened Wrappers
  import opened StreamIds
  import opened RedisServer
  import Paging = PendingPagination

  type Task = nat
  type Processor = nat

  const MAX_IN_FLIGHT: nat := 10_000

  /** Which tasks exist, the processor each one runs on, the consumer name it
      passes, and the idle limit of each processor. */
  datatype Config = Config(
    tasks: set<Task>,
    processor: Task -> Processor,
    consumer: Task -> string,
    idleMs: Processor -> nat)

  datatype Phase = Reclaimed | Fresh

  /** Where a task stands: about to await a command, inside the handler,
      between two messages, or ended. */
  datatype Pc =
    | Summary
    | Page(cursor: Cursor, round: nat, got: seq<Message>)
    | Scan(rows: seq<Row>, i: nat, cursor: Cursor, round: nat, got: seq<Message>)
    | Grab(fields: Fields, rows: seq<Row>, i: nat, cursor: Cursor, round: nat, got: seq<Message>)
    | Dispatch(todo: seq<Message>, phase: Phase)
    | Handling(msg: Message, rest: seq<Message>, phase: Phase)
    | Acking(msg: Message, rest: seq<Message>, phase: Phase)
    | Reading
    | Stopped

  /** What the run has done so far, oldest first. */
  datatype Event =
    | Delivered(id: StreamId, task: Task, at: nat)   // XREADGROUP gave the entry to the task
    | Claimed(id: StreamId, task: Task, at: nat)     // XCLAIM granted it
    | Started(id: StreamId, task: Task)              // the handler was called
    | Returned(id: StreamId, task: Task)             // the handler returned normally
    | Acked(id: StreamId)                            // the server removed it from the pending list

  datatype System = System(
    redis: Redis,
    entries: set<StreamId>,                  // every id ever added to the stream
    pcs: map<Task, Pc>,
    inFlight: map<Processor, set<StreamId>>,
    acks: set<StreamId>,                     // XACK requests sent, which the server may apply at any time
    log: seq<Event>)

  function InFlight(s: System, p: Processor): set<StreamId> {
    if p in s.inFlight then s.inFlight[p] else {}
  }

  ghost predicate Init(c: Config, s: System) {
    && WellFormed(s.redis) && s.redis.group.None?
    && s.entries == s.redis.stream.Keys
    && s.pcs == (map t | t in c.tasks :: Summary)
    && s.inFlight == map[] && s.acks == {} && s.log == []
  }

  datatype Step =
    | Add(id: StreamId, fields: Fields)      // a producer
    | Delete(id: StreamId)                   // trimming
    | Tick(ms: nat)
    | CreateGroup                            // ensure_group
    | ServerAcks(id: StreamId)               // the server gets to an XACK request
    | Go(task: Task)                         // the task passes its current await normally
    | HandlerRaises(task: Task)
    | Wrap(task: Task, victims: set<StreamId>)   // the end of an iteration, with its eviction
    | Stop(task: Task)                       // an error the loop does not catch, or cancellation
    | StopAfterEffect(task: Task)            // the same, after the server carried out the command

  ghost predicate Enabled(c: Config, s: System, step: Step) {
    match step
    case Add(id, _) => Less(s.redis.top, id)
    case Delete(_) => true
    case Tick(_) => true
    case CreateGroup => true
    case ServerAcks(id) => id in s.acks
    case Go(t) => Running(s, t) && s.pcs[t] != Dispatch([], Fresh)
    case HandlerRaises(t) => Running(s, t) && s.pcs[t].Handling?
    case Wrap(t, victims) =>
      var f := InFlight(s, c.processor(t));
      && Running(s, t) && s.pcs[t] == Dispatch([], Fresh)
      && victims <= f && |victims| == (if |f| > MAX_IN_FLIGHT then |f| - MAX_IN_FLIGHT else 0)
    case Stop(t) => Running(s, t)
    case StopAfterEffect(t) => Running(s, t) && (s.pcs[t].Reading? || s.pcs[t].Grab?)
  }

  ghost predicate Running(s: System, t: Task) {
    && t in s.pcs && !s.pcs[t].Stopped?
    && (s.pcs[t].Scan? ==> s.pcs[t].rows != [] && s.pcs[t].i <= |s.pcs[t].rows|)
    && (s.pcs[t].Grab? ==> s.pcs[t].i < |s.pcs[t].rows|)
  }

  function Apply(c: Config, s: System, step: Step): System
    requires Enabled(c, s, step)
  {
    match step
    case Add(id, fields) => s.(redis := Xadd(s.redis, id, fields), entries := s.entries + {id})
    case Delete(id) => s.(redis := Xdel(s.redis, id))
    case Tick(ms) => s.(redis := s.redis.(now := s.redis.now + ms))
    case CreateGroup => s.(redis := XgroupCreate(s.redis))
    case ServerAcks(id) =>
      if id in s.redis.pel then s.(redis := Xack(s.redis, id), log := s.log + [Acked(id)]) else s
    case Go(t) => Advance(c, s, t)
    case HandlerRaises(t) => Release(c, s, t, Dispatch(s.pcs[t].rest, s.pcs[t].phase))
    case Wrap(t, victims) =>
      var p := c.processor(t);
      s.(inFlight := s.inFlight[p := InFlight(s, p) - victims], pcs := s.pcs[t := Summary])
    case Stop(t) => Release(c, s, t, Stopped)
    case StopAfterEffect(t) => Release(c, if s.pcs[t].Reading? then Read(c, s, t) else Claim(c, s, t), t, Stopped)
  }

  /** The message a task has put into the in-flight set and not yet discarded. */
  function Held(pc: Pc): Option<StreamId> {
    if pc.Handling? || pc.Acking? then Some(pc.msg.messageId) else None
  }

  /** The `finally` clause, then on to `pc`. */
  function Release(c: Config, s: System, t: Task, pc: Pc): System
    requires t in s.pcs
  {
    var p := c.processor(t);
    match Held(s.pcs[t])
    case None => s.(pcs := s.pcs[t := pc])
    case Some(id) => s.(pcs := s.pcs[t := pc], inFlight := s.inFlight[p := InFlight(s, p) - {id}])
  }

  function Read(c: Config, s: System, t: Task): System
    requires Running(s, t) && s.pcs[t].Reading?
  {
    if s.redis.group.None? then s.(pcs := s.pcs[t := Stopped])
    else
      var (redis, ms) := Xreadgroup(s.redis, c.consumer(t));
      s.(redis := redis, pcs := s.pcs[t := Dispatch(ms, Fresh)],
         log := if ms == [] then s.log else s.log + [Delivered(ms[0].messageId, t, redis.now)])
  }

  function Claim(c: Config, s: System, t: Task): System
    requires Running(s, t) && s.pcs[t].Grab?
  {
    var pc := s.pcs[t];
    var id := pc.rows[pc.i].messageId;
    var (redis, ok) := Xclaim(s.redis, c.consumer(t), c.idleMs(c.processor(t)), id);
    s.(redis := redis,
       pcs := s.pcs[t := Scan(pc.rows, pc.i + 1, pc.cursor, pc.round, pc.got + if ok then [Message(id, pc.fields)] else [])],
       log := if ok then s.log + [Claimed(id, t, redis.now)] else s.log)
  }

  /** One await of `claim_pending` other than XCLAIM, with the code up to the next. */
  function Sweep(c: Config, s: System, t: Task): Pc
    requires Running(s, t) && (s.pcs[t].Summary? || s.pcs[t].Page? || s.pcs[t].Scan?)
  {
    match s.pcs[t]
    case Summary =>
      if s.redis.group.None? then Stopped
      else if s.redis.pel == map[] then Dispatch([], Reclaimed)
      else Page(Start, 0, [])
    case Page(cursor, round, got) =>
      var rows := XpendingRange(s.redis, cursor, Paging.PEL_BATCH_SIZE);
      if rows == [] then Dispatch(got, Reclaimed) else Scan(rows, 0, cursor, round, got)
    case Scan(rows, i, cursor, round, got) =>
      if i < |rows| then
        var id := rows[i].messageId;
        if rows[i].idle < c.idleMs(c.processor(t)) || id !in s.redis.stream
        then Scan(rows, i + 1, cursor, round, got)
        else Grab(s.redis.stream[id], rows, i, cursor, round, got)
      else
        var next := From(Next(rows[|rows| - 1].messageId));
        if |rows| < Paging.PEL_BATCH_SIZE || next == cursor || round + 1 == Paging.PEL_PAGINATION_MAX_BATCHES
        then Dispatch(got, Reclaimed)
        else Page(next, round + 1, got)
  }

  /** The task passes its current await normally. */
  function Advance(c: Config, s: System, t: Task): System
    requires Running(s, t) && s.pcs[t] != Dispatch([], Fresh)
  {
    var p := c.processor(t);
    match s.pcs[t]
    case Dispatch(todo, phase) =>
      if todo == [] then s.(pcs := s.pcs[t := Reading])
      else if todo[0].messageId in InFlight(s, p) then s.(pcs := s.pcs[t := Dispatch(todo[1..], phase)])
      else s.(pcs := s.pcs[t := Handling(todo[0], todo[1..], phase)],
              inFlight := s.inFlight[p := InFlight(s, p) + {todo[0].messageId}],
              log := s.log + [Started(todo[0].messageId, t)])
    case Handling(msg, rest, phase) =>
      s.(pcs := s.pcs[t := Acking(msg, rest, phase)], acks := s.acks + {msg.messageId},
         log := s.log + [Returned(msg.messageId, t)])
    case Acking(msg, rest, phase) => Release(c, s, t, Dispatch(rest, phase))
    case Reading => Read(c, s, t)
    case Grab(_, _, _, _, _, _) => Claim(c, s, t)
    case Summary => s.(pcs := s.pcs[t := Sweep(c, s, t)])
    case Page(_, _, _) => s.(pcs := s.pcs[t := Sweep(c, s, t)])
    case Scan(_, _, _, _, _) => s.(pcs := s.pcs[t := Sweep(c, s, t)])
  }

  ghost predicate StepsTo(c: Config, s: System, s': System) {
    exists step :: Enabled(c, s, step) && s' == Apply(c, s, step)
  }

  /** All runs: any start without a group, any interleaving of steps. */
  ghost predicate IsRun(c: Config, run: seq<System>) {
    && run != [] && Init(c, run[0])
    && forall i | 0 <= i < |run| - 1 :: StepsTo(c, run[i], run[i + 1])
  }
}
