/** Invariants of the consumer protocol over every run. */
module ConsumerProtocolProofs {
  import opened Wrappers
  import opened StreamIds
  import opened RedisServer
  import opened ConsumerProtocol

  // ----- exclusive handling inside one processor -----

  ghost predicate Holds(s: System, t: Task, id: StreamId) {
    t in s.pcs && Held(s.pcs[t]) == Some(id)
  }

  /** The in-flight set of every processor is exactly the set of ids its tasks
      are handling, and each of them has one owning task. */
  ghost predicate Exclusive(c: Config, s: System) {
    && s.pcs.Keys == c.tasks
    && (forall t, id | Holds(s, t, id) :: id in InFlight(s, c.processor(t)))
    && (forall p, id | id in InFlight(s, p) :: exists t :: Holds(s, t, id) && c.processor(t) == p)
    && (forall t, u, id | Holds(s, t, id) && Holds(s, u, id) && c.processor(t) == c.processor(u) :: t == u)
  }

  function TasksOf(c: Config, p: Processor): set<Task> {
    set t | t in c.tasks && c.processor(t) == p
  }

  /** The number of tasks up to which the eviction at the end of an iteration
      has nothing to do. */
  ghost predicate WithinCapacity(c: Config) {
    forall p :: |TasksOf(c, p)| <= MAX_IN_FLIGHT + 1
  }

  /** Ids owned by distinct tasks of a set are at most as many as the tasks. */
  lemma OwnersCount(s: System, ids: set<StreamId>, owners: set<Task>)
    requires forall id | id in ids :: exists t :: t in owners && Holds(s, t, id)
    ensures |ids| <= |owners|
  {
    if ids != {} {
      var id :| id in ids;
      var t :| t in owners && Holds(s, t, id);
      forall x | x in ids - {id} ensures exists u :: u in owners - {t} && Holds(s, u, x) {
        var u :| u in owners && Holds(s, u, x);
      }
      OwnersCount(s, ids - {id}, owners - {t});
    }
  }

  /** A task that holds nothing leaves room for one more. */
  lemma InFlightBound(c: Config, s: System, t: Task)
    requires Exclusive(c, s) && t in s.pcs && Held(s.pcs[t]) == None
    ensures |InFlight(s, c.processor(t))| <= |TasksOf(c, c.processor(t))| - 1
  {
    var p := c.processor(t);
    forall id | id in InFlight(s, p) ensures exists u :: u in TasksOf(c, p) - {t} && Holds(s, u, id) {
      var u :| Holds(s, u, id) && c.processor(u) == p;
      assert u in TasksOf(c, p) - {t};
    }
    OwnersCount(s, InFlight(s, p), TasksOf(c, p) - {t});
  }

  /** The eviction at the end of an iteration never removes anything. */
  lemma EvictionIdle(c: Config, s: System, t: Task, victims: set<StreamId>)
    requires Exclusive(c, s) && WithinCapacity(c) && Enabled(c, s, Wrap(t, victims))
    ensures victims == {} && |InFlight(s, c.processor(t))| <= MAX_IN_FLIGHT
  {
    InFlightBound(c, s, t);
  }

  /** A task that keeps what it holds. */
  lemma MoveKeeps(c: Config, s: System, s': System, t: Task, pc: Pc)
    requires Exclusive(c, s) && t in s.pcs && s'.pcs == s.pcs[t := pc] && Held(pc) == Held(s.pcs[t])
    requires forall p :: InFlight(s', p) == InFlight(s, p)
    ensures Exclusive(c, s')
  {
    assert forall u, id :: Holds(s', u, id) <==> Holds(s, u, id);
  }

  lemma MoveTakes(c: Config, s: System, s': System, t: Task, pc: Pc, id: StreamId)
    requires Exclusive(c, s) && t in s.pcs && s'.pcs == s.pcs[t := pc]
    requires Held(s.pcs[t]) == None && Held(pc) == Some(id) && id !in InFlight(s, c.processor(t))
    requires s'.inFlight == s.inFlight[c.processor(t) := InFlight(s, c.processor(t)) + {id}]
    ensures Exclusive(c, s')
  {
    assert Holds(s', t, id);
    assert forall u, x | u != t :: Holds(s', u, x) <==> Holds(s, u, x);
    forall p, x | x in InFlight(s', p) ensures exists u :: Holds(s', u, x) && c.processor(u) == p {
      if !(p == c.processor(t) && x == id) {
        assert x in InFlight(s, p);
        var u :| Holds(s, u, x) && c.processor(u) == p;
        assert Holds(s', u, x);
      }
    }
  }

  lemma MoveReleases(c: Config, s: System, t: Task, pc: Pc)
    requires Exclusive(c, s) && t in s.pcs && Held(pc) == None
    ensures Exclusive(c, Release(c, s, t, pc))
  {
    var s' := Release(c, s, t, pc);
    if Held(s.pcs[t]) == None {
      MoveKeeps(c, s, s', t, pc);
    } else {
      var id := Held(s.pcs[t]).value;
      assert Holds(s, t, id);
      assert forall u, x :: Holds(s', u, x) <==> u != t && Holds(s, u, x);
      forall p, x | x in InFlight(s', p) ensures exists u :: Holds(s', u, x) && c.processor(u) == p {
        assert x in InFlight(s, p);
        var u :| Holds(s, u, x) && c.processor(u) == p;
        assert Holds(s', u, x);
      }
    }
  }

  lemma ExclusiveGo(c: Config, s: System, t: Task)
    requires Exclusive(c, s) && Enabled(c, s, Go(t))
    ensures Exclusive(c, Advance(c, s, t))
  {
    var s' := Advance(c, s, t);
    if s.pcs[t].Acking? {
      MoveReleases(c, s, t, Dispatch(s.pcs[t].rest, s.pcs[t].phase));
    } else if s.pcs[t].Dispatch? && s'.pcs[t].Handling? {
      MoveTakes(c, s, s', t, s'.pcs[t], s.pcs[t].todo[0].messageId);
    } else {
      MoveKeeps(c, s, s', t, s'.pcs[t]);
    }
  }

  lemma ExclusiveKept(c: Config, s: System, step: Step)
    requires Exclusive(c, s) && WithinCapacity(c) && Enabled(c, s, step)
    ensures Exclusive(c, Apply(c, s, step))
  {
    var s' := Apply(c, s, step);
    match step
    case Go(t) => ExclusiveGo(c, s, t);
    case HandlerRaises(t) => MoveReleases(c, s, t, Dispatch(s.pcs[t].rest, s.pcs[t].phase));
    case Wrap(t, victims) =>
      EvictionIdle(c, s, t, victims);
      MoveKeeps(c, s, s', t, Summary);
    case Stop(t) => MoveReleases(c, s, t, Stopped);
    case StopAfterEffect(t) =>
      var mid := if s.pcs[t].Reading? then Read(c, s, t) else Claim(c, s, t);
      MoveKeeps(c, s, mid, t, mid.pcs[t]);
      MoveReleases(c, mid, t, Stopped);
    case _ =>
      assert s'.pcs == s.pcs && s'.inFlight == s.inFlight;
      assert forall u, id :: Holds(s', u, id) <==> Holds(s, u, id);
      assert forall p :: InFlight(s', p) == InFlight(s, p);
  }

  // ----- at-least-once delivery -----

  ghost predicate Undelivered(s: System, id: StreamId) {
    id in s.entries && Less(LastDelivered(s.redis), id)
  }

  /** No entry is in two of the states undelivered, pending and acknowledged,
      and one that still has its payload is in one of them. */
  ghost predicate Accounted(s: System) {
    && WellFormed(s.redis)
    && s.redis.stream.Keys <= s.entries && s.redis.pel.Keys <= s.entries
    && (forall id | id in s.redis.stream && Leq(id, LastDelivered(s.redis)) :: id in s.redis.pel || Acked(id) in s.log)
    && (forall id | Acked(id) in s.log :: id in s.entries && id !in s.redis.pel && Leq(id, LastDelivered(s.redis)))
  }

  /** A step that logs no acknowledgement and changes only `now`, the group or
      the in-process part. */
  lemma AccountedQuiet(s: System, s': System)
    requires Accounted(s) && WellFormed(s'.redis) && s'.entries == s.entries
    requires s'.redis.stream == s.redis.stream && s'.redis.pel == s.redis.pel
    requires LastDelivered(s'.redis) == LastDelivered(s.redis)
    requires forall id :: Acked(id) in s'.log <==> Acked(id) in s.log
    ensures Accounted(s')
  {
  }

  lemma AccountedRead(c: Config, s: System, t: Task)
    requires Accounted(s) && Running(s, t) && s.pcs[t].Reading?
    ensures Accounted(Read(c, s, t))
  {
    var s' := Read(c, s, t);
    if s.redis.group.Some? {
      var (redis, ms) := Xreadgroup(s.redis, c.consumer(t));
      assert forall id :: Acked(id) in s'.log <==> Acked(id) in s.log;
      if ms != [] {
        var next := ms[0].messageId;
        forall id | id in s.redis.stream && Leq(id, next) && !Leq(id, LastDelivered(s.redis)) ensures id == next {
          assert id in RedisServer.Undelivered(s.redis);
        }
      }
    }
  }

  lemma AccountedClaim(c: Config, s: System, t: Task)
    requires Accounted(s) && Running(s, t) && s.pcs[t].Grab?
    ensures Accounted(Claim(c, s, t))
  {
    assert forall id :: Acked(id) in Claim(c, s, t).log <==> Acked(id) in s.log;
  }

  lemma AccountedGo(c: Config, s: System, t: Task)
    requires Accounted(s) && Enabled(c, s, Go(t))
    ensures Accounted(Advance(c, s, t))
  {
    if s.pcs[t].Reading? {
      AccountedRead(c, s, t);
    } else if s.pcs[t].Grab? {
      AccountedClaim(c, s, t);
    } else {
      AccountedQuiet(s, Advance(c, s, t));
    }
  }

  lemma AccountedAdd(s: System, id: StreamId, fields: Fields)
    requires Accounted(s) && Less(s.redis.top, id)
    ensures Accounted(s.(redis := Xadd(s.redis, id, fields), entries := s.entries + {id}))
  {
  }

  lemma AccountedDelete(s: System, id: StreamId)
    requires Accounted(s)
    ensures Accounted(s.(redis := Xdel(s.redis, id)))
  {
  }

  lemma AccountedAck(s: System, id: StreamId)
    requires Accounted(s) && id in s.redis.pel
    ensures Accounted(s.(redis := Xack(s.redis, id), log := s.log + [Acked(id)]))
  {
    var s' := s.(redis := Xack(s.redis, id), log := s.log + [Acked(id)]);
    assert forall x :: Acked(x) in s'.log <==> Acked(x) in s.log || x == id;
  }

  lemma AccountedStop(c: Config, s: System, t: Task)
    requires Accounted(s) && Enabled(c, s, StopAfterEffect(t))
    ensures Accounted(Apply(c, s, StopAfterEffect(t)))
  {
    var done := if s.pcs[t].Reading? then Read(c, s, t) else Claim(c, s, t);
    assert t in done.pcs;
    hide Read, Claim, Release, Accounted;
    if s.pcs[t].Reading? { AccountedRead(c, s, t); } else { AccountedClaim(c, s, t); }
    AccountedRelease(c, done, t, Stopped);
  }

  lemma AccountedRelease(c: Config, s: System, t: Task, pc: Pc)
    requires Accounted(s) && t in s.pcs
    ensures Accounted(Release(c, s, t, pc))
  {
    AccountedQuiet(s, Release(c, s, t, pc));
  }

  lemma AccountedKept(c: Config, s: System, step: Step)
    requires Accounted(s) && Enabled(c, s, step)
    ensures Accounted(Apply(c, s, step))
  {
    hide Advance, Read, Claim;
    match step
    case Add(id, fields) => AccountedAdd(s, id, fields);
    case Delete(id) => AccountedDelete(s, id);
    case ServerAcks(id) =>
      if id in s.redis.pel { AccountedAck(s, id); }
    case Go(t) => AccountedGo(c, s, t);
    case StopAfterEffect(t) => AccountedStop(c, s, t);
    case _ => AccountedQuiet(s, Apply(c, s, step));
  }

  // ----- what precedes what -----

  predicate IsGrant(e: Event, id: StreamId) {
    (e.Delivered? || e.Claimed?) && e.id == id
  }

  ghost predicate GrantedTo(log: seq<Event>, id: StreamId, t: Task) {
    exists e :: e in log && IsGrant(e, id) && e.task == t
  }

  ghost predicate HasReturned(log: seq<Event>, id: StreamId) {
    exists t :: Returned(id, t) in log
  }

  /** What must have happened before an event. */
  ghost predicate Caused(before: seq<Event>, e: Event) {
    match e
    case Started(id, t) => GrantedTo(before, id, t)
    case Returned(id, t) => Started(id, t) in before
    case Acked(id) => HasReturned(before, id)
    case _ => true
  }

  function MessagesOf(pc: Pc): seq<Message> {
    match pc
    case Page(_, _, got) => got
    case Scan(_, _, _, _, got) => got
    case Grab(_, _, _, _, _, got) => got
    case Dispatch(todo, _) => todo
    case Handling(msg, rest, _) => [msg] + rest
    case Acking(msg, rest, _) => [msg] + rest
    case _ => []
  }

  /** Every event has its cause before it; a task only carries messages the
      server gave to it; a request to acknowledge follows a normal return. */
  ghost predicate Causal(s: System) {
    && (forall j | 0 <= j < |s.log| :: Caused(s.log[..j], s.log[j]))
    && (forall t, m | t in s.pcs && m in MessagesOf(s.pcs[t]) :: GrantedTo(s.log, m.messageId, t))
    && (forall t | t in s.pcs && s.pcs[t].Handling? :: Started(s.pcs[t].msg.messageId, t) in s.log)
    && (forall id | id in s.acks :: HasReturned(s.log, id))
  }

  function Logged(log: seq<Event>, e: Option<Event>): seq<Event> {
    if e.None? then log else log + [e.value]
  }

  /** What was there stays: at most one event, with its cause, is added. */
  lemma CausalLog(s: System, s': System, e: Option<Event>)
    requires Causal(s) && s'.log == Logged(s.log, e) && (e.Some? ==> Caused(s.log, e.value))
    ensures forall j | 0 <= j < |s'.log| :: Caused(s'.log[..j], s'.log[j])
    ensures forall x | x in s.log :: x in s'.log
    ensures forall t, m | t in s.pcs && m in MessagesOf(s.pcs[t]) :: GrantedTo(s'.log, m.messageId, t)
    ensures forall id | id in s.acks :: HasReturned(s'.log, id)
    ensures e.Some? ==> e.value in s'.log
  {
    forall j | 0 <= j < |s'.log| ensures Caused(s'.log[..j], s'.log[j]) {
      if j < |s.log| {
        assert s'.log[..j] == s.log[..j] && s'.log[j] == s.log[j];
      } else {
        assert s'.log[..j] == s.log;
      }
    }
    forall t, m | t in s.pcs && m in MessagesOf(s.pcs[t]) ensures GrantedTo(s'.log, m.messageId, t) {
      assert GrantedTo(s.log, m.messageId, t);
      var g :| g in s.log && IsGrant(g, m.messageId) && g.task == t;
      assert g in s'.log;
    }
    forall id | id in s.acks ensures HasReturned(s'.log, id) {
      assert HasReturned(s.log, id);
      var t :| Returned(id, t) in s.log;
      assert Returned(id, t) in s'.log;
    }
  }

  lemma CausalEnv(s: System, s': System, e: Option<Event>)
    requires Causal(s) && s'.log == Logged(s.log, e) && (e.Some? ==> Caused(s.log, e.value))
    requires s'.pcs == s.pcs && s'.acks == s.acks
    ensures Causal(s')
  {
    CausalLog(s, s', e);
  }

  /** Task `t` moves to `pc`. */
  lemma CausalMove(s: System, s': System, t: Task, pc: Pc, e: Option<Event>)
    requires Causal(s) && t in s.pcs && s'.log == Logged(s.log, e) && (e.Some? ==> Caused(s.log, e.value))
    requires s'.pcs == s.pcs[t := pc]
    requires forall m | m in MessagesOf(pc) ::
               m in MessagesOf(s.pcs[t]) || (e.Some? && IsGrant(e.value, m.messageId) && e.value.task == t)
    requires pc.Handling? ==> e == Some(Started(pc.msg.messageId, t))
    requires s'.acks == s.acks || (e.Some? && e.value.Returned? && s'.acks == s.acks + {e.value.id})
    ensures Causal(s')
  {
    CausalLog(s, s', e);
    forall u, m | u in s'.pcs && m in MessagesOf(s'.pcs[u]) ensures GrantedTo(s'.log, m.messageId, u) {
      if u == t && m !in MessagesOf(s.pcs[t]) {
        assert e.value in s'.log;
      }
    }
    forall id | id in s'.acks ensures HasReturned(s'.log, id) {
      if id !in s.acks {
        assert Returned(id, e.value.task) in s'.log;
      }
    }
  }

  lemma CausalRead(c: Config, s: System, t: Task)
    requires Causal(s) && Running(s, t) && s.pcs[t].Reading?
    ensures Causal(Read(c, s, t))
  {
    var s' := Read(c, s, t);
    if s.redis.group.None? {
      CausalMove(s, s', t, Stopped, None);
    } else {
      var (redis, ms) := Xreadgroup(s.redis, c.consumer(t));
      CausalMove(s, s', t, Dispatch(ms, Fresh), if ms == [] then None else Some(Delivered(ms[0].messageId, t, redis.now)));
    }
  }

  lemma CausalClaim(c: Config, s: System, t: Task)
    requires Causal(s) && Running(s, t) && s.pcs[t].Grab?
    ensures Causal(Claim(c, s, t))
  {
    var pc := s.pcs[t];
    var id := pc.rows[pc.i].messageId;
    var (redis, ok) := Xclaim(s.redis, c.consumer(t), c.idleMs(c.processor(t)), id);
    var s' := Claim(c, s, t);
    CausalMove(s, s', t, s'.pcs[t], if ok then Some(Claimed(id, t, redis.now)) else None);
  }

  lemma CausalRelease(c: Config, s: System, t: Task, pc: Pc)
    requires Causal(s) && t in s.pcs && !pc.Handling?
    requires forall m | m in MessagesOf(pc) :: m in MessagesOf(s.pcs[t])
    ensures Causal(Release(c, s, t, pc))
  {
    CausalMove(s, Release(c, s, t, pc), t, pc, None);
  }

  lemma CausalSweep(c: Config, s: System, t: Task)
    requires Causal(s) && Running(s, t) && (s.pcs[t].Summary? || s.pcs[t].Page? || s.pcs[t].Scan?)
    ensures Causal(s.(pcs := s.pcs[t := Sweep(c, s, t)]))
  {
    CausalMove(s, s.(pcs := s.pcs[t := Sweep(c, s, t)]), t, Sweep(c, s, t), None);
  }

  lemma CausalStart(c: Config, s: System, t: Task)
    requires Causal(s) && Enabled(c, s, Go(t)) && s.pcs[t].Dispatch? && Advance(c, s, t).pcs[t].Handling?
    ensures Causal(Advance(c, s, t))
  {
    var msg := s.pcs[t].todo[0];
    assert msg in MessagesOf(s.pcs[t]);
    assert GrantedTo(s.log, msg.messageId, t);
    CausalMove(s, Advance(c, s, t), t, Handling(msg, s.pcs[t].todo[1..], s.pcs[t].phase), Some(Started(msg.messageId, t)));
  }

  lemma CausalDispatch(c: Config, s: System, t: Task)
    requires Causal(s) && Enabled(c, s, Go(t)) && s.pcs[t].Dispatch?
    ensures Causal(Advance(c, s, t))
  {
    var s' := Advance(c, s, t);
    if s'.pcs[t].Handling? {
      CausalStart(c, s, t);
    } else {
      CausalMove(s, s', t, s'.pcs[t], None);
    }
  }

  lemma CausalHandling(c: Config, s: System, t: Task)
    requires Causal(s) && Running(s, t) && s.pcs[t].Handling?
    ensures Causal(Advance(c, s, t))
  {
    var Handling(msg, rest, phase) := s.pcs[t];
    CausalMove(s, Advance(c, s, t), t, Acking(msg, rest, phase), Some(Returned(msg.messageId, t)));
  }

  lemma CausalGo(c: Config, s: System, t: Task)
    requires Causal(s) && Enabled(c, s, Go(t))
    ensures Causal(Advance(c, s, t))
  {
    hide Causal, Read, Claim, Sweep;
    match s.pcs[t]
    case Reading => CausalRead(c, s, t);
    case Grab(_, _, _, _, _, _) => CausalClaim(c, s, t);
    case Acking(_, rest, phase) => CausalRelease(c, s, t, Dispatch(rest, phase));
    case Handling(_, _, _) => CausalHandling(c, s, t);
    case Dispatch(_, _) => CausalDispatch(c, s, t);
    case Summary => CausalSweep(c, s, t);
    case Page(_, _, _) => CausalSweep(c, s, t);
    case Scan(_, _, _, _, _) => CausalSweep(c, s, t);
  }

  lemma CausalAck(s: System, s': System, id: StreamId)
    requires Causal(s) && id in s.acks && s'.pcs == s.pcs && s'.acks == s.acks
    requires s'.log == if id in s.redis.pel then s.log + [Acked(id)] else s.log
    ensures Causal(s')
  {
    CausalEnv(s, s', if id in s.redis.pel then Some(Acked(id)) else None);
  }

  lemma CausalKept(c: Config, s: System, step: Step)
    requires Causal(s) && Enabled(c, s, step)
    ensures Causal(Apply(c, s, step))
  {
    hide Causal, Advance;
    match step
    case Go(t) => CausalGo(c, s, t);
    case HandlerRaises(t) => CausalRelease(c, s, t, Dispatch(s.pcs[t].rest, s.pcs[t].phase));
    case Stop(t) => CausalRelease(c, s, t, Stopped);
    case StopAfterEffect(t) =>
      if s.pcs[t].Reading? { CausalRead(c, s, t); } else { CausalClaim(c, s, t); }
      CausalRelease(c, if s.pcs[t].Reading? then Read(c, s, t) else Claim(c, s, t), t, Stopped);
    case Wrap(t, _) => CausalMove(s, Apply(c, s, step), t, Summary, None);
    case ServerAcks(id) => CausalAck(s, Apply(c, s, step), id);
    case _ => CausalEnv(s, Apply(c, s, step), None);
  }

  // ----- spacing of the claims of one entry -----

  /** An entry is delivered once, before any claim, and each claim comes at
      least the claimant's idle limit after every earlier grant. */
  ghost predicate Spaced(c: Config, s: System) {
    && WellFormed(s.redis)
    && (forall e, id | e in s.log && IsGrant(e, id) ::
          e.at <= s.redis.now && Leq(id, LastDelivered(s.redis)) && (id in s.redis.pel ==> e.at <= s.redis.pel[id].since))
    && (forall i, j | 0 <= i < j < |s.log| && IsGrant(s.log[i], s.log[j].id) && IsGrant(s.log[j], s.log[j].id) ::
          s.log[j].Claimed? && s.log[j].at >= s.log[i].at + c.idleMs(c.processor(s.log[j].task)))
  }

  lemma SpacedGrant(c: Config, s: System, s': System, e: Event)
    requires Spaced(c, s) && s'.log == s.log + [e] && WellFormed(s'.redis) && s'.redis.now == s.redis.now
    requires (e.Delivered? || e.Claimed?) && e.at == s.redis.now
    requires e.id in s'.redis.pel && s'.redis.pel[e.id].since == s.redis.now
    requires forall id | id in s'.redis.pel && id != e.id :: id in s.redis.pel && s'.redis.pel[id] == s.redis.pel[id]
    requires Leq(LastDelivered(s.redis), LastDelivered(s'.redis))
    requires if e.Delivered? then Less(LastDelivered(s.redis), e.id)
             else e.id in s.redis.pel && s.redis.now - s.redis.pel[e.id].since >= c.idleMs(c.processor(e.task))
    ensures Spaced(c, s')
  {
    forall i, j | 0 <= i < j < |s'.log| && IsGrant(s'.log[i], s'.log[j].id) && IsGrant(s'.log[j], s'.log[j].id)
      ensures s'.log[j].Claimed? && s'.log[j].at >= s'.log[i].at + c.idleMs(c.processor(s'.log[j].task))
    {
      assert s'.log[i] == s.log[i] && s.log[i] in s.log;
      if j < |s.log| {
        assert s'.log[j] == s.log[j];
      }
    }
  }

  lemma SpacedQuiet(c: Config, s: System, s': System, e: Option<Event>)
    requires Spaced(c, s) && s'.log == Logged(s.log, e) && WellFormed(s'.redis) && s'.redis.now >= s.redis.now
    requires e.Some? ==> !e.value.Delivered? && !e.value.Claimed?
    requires Leq(LastDelivered(s.redis), LastDelivered(s'.redis))
    requires forall id | id in s'.redis.pel :: id in s.redis.pel && s'.redis.pel[id] == s.redis.pel[id]
    ensures Spaced(c, s')
  {
    forall i, j | 0 <= i < j < |s'.log| && IsGrant(s'.log[i], s'.log[j].id) && IsGrant(s'.log[j], s'.log[j].id)
      ensures s'.log[j].Claimed? && s'.log[j].at >= s'.log[i].at + c.idleMs(c.processor(s'.log[j].task))
    {
      assert i < |s.log| && s'.log[i] == s.log[i];
      assert j < |s.log| && s'.log[j] == s.log[j];
    }
  }

  lemma SpacedRead(c: Config, s: System, t: Task)
    requires Spaced(c, s) && Running(s, t) && s.pcs[t].Reading?
    ensures Spaced(c, Read(c, s, t))
  {
    var s' := Read(c, s, t);
    if s.redis.group.None? || Xreadgroup(s.redis, c.consumer(t)).1 == [] {
      SpacedQuiet(c, s, s', None);
    } else {
      var (redis, ms) := Xreadgroup(s.redis, c.consumer(t));
      SpacedGrant(c, s, s', Delivered(ms[0].messageId, t, redis.now));
    }
  }

  lemma SpacedClaim(c: Config, s: System, t: Task)
    requires Spaced(c, s) && Running(s, t) && s.pcs[t].Grab?
    ensures Spaced(c, Claim(c, s, t))
  {
    var pc := s.pcs[t];
    var id := pc.rows[pc.i].messageId;
    var (redis, ok) := Xclaim(s.redis, c.consumer(t), c.idleMs(c.processor(t)), id);
    if ok {
      SpacedGrant(c, s, Claim(c, s, t), Claimed(id, t, redis.now));
    } else {
      SpacedQuiet(c, s, Claim(c, s, t), None);
    }
  }

  lemma SpacedGo(c: Config, s: System, t: Task)
    requires Spaced(c, s) && Enabled(c, s, Go(t))
    ensures Spaced(c, Advance(c, s, t))
  {
    var s' := Advance(c, s, t);
    match s.pcs[t]
    case Reading => SpacedRead(c, s, t);
    case Grab(_, _, _, _, _, _) => SpacedClaim(c, s, t);
    case Handling(msg, _, _) => SpacedQuiet(c, s, s', Some(Returned(msg.messageId, t)));
    case Dispatch(todo, _) =>
      SpacedQuiet(c, s, s', if s'.pcs[t].Handling? then Some(Started(todo[0].messageId, t)) else None);
    case _ => SpacedQuiet(c, s, s', None);
  }

  lemma SpacedStop(c: Config, s: System, t: Task)
    requires Spaced(c, s) && Enabled(c, s, StopAfterEffect(t))
    ensures Spaced(c, Apply(c, s, StopAfterEffect(t)))
  {
    if s.pcs[t].Reading? { SpacedRead(c, s, t); } else { SpacedClaim(c, s, t); }
  }

  lemma SpacedKept(c: Config, s: System, step: Step)
    requires Spaced(c, s) && Enabled(c, s, step)
    ensures Spaced(c, Apply(c, s, step))
  {
    hide Advance;
    var s' := Apply(c, s, step);
    match step
    case Go(t) => SpacedGo(c, s, t);
    case StopAfterEffect(t) => SpacedStop(c, s, t);
    case ServerAcks(id) => SpacedQuiet(c, s, s', if id in s.redis.pel then Some(Acked(id)) else None);
    case _ => SpacedQuiet(c, s, s', None);
  }

  // ----- a task that has not ended can always move -----

  ghost predicate Shaped(s: System) {
    forall t | t in s.pcs && !s.pcs[t].Stopped? :: Running(s, t)
  }

  lemma ShapedKept(c: Config, s: System, step: Step)
    requires Shaped(s) && Enabled(c, s, step)
    ensures Shaped(Apply(c, s, step))
  {
    var s' := Apply(c, s, step);
    forall t | t in s'.pcs && !s'.pcs[t].Stopped? ensures Running(s', t) {
      if t in s.pcs && s'.pcs[t] == s.pcs[t] {
        assert Running(s, t);
      }
    }
  }

  // ----- over whole runs -----

  ghost predicate Inv(c: Config, s: System) {
    Accounted(s) && Causal(s) && Spaced(c, s) && Shaped(s)
  }

  lemma {:induction false} RunInv(c: Config, run: seq<System>, k: nat)
    requires IsRun(c, run) && k < |run|
    ensures Inv(c, run[k])
    ensures WithinCapacity(c) ==> Exclusive(c, run[k])
  {
    if k > 0 {
      RunInv(c, run, k - 1);
      assert StepsTo(c, run[k - 1], run[k - 1 + 1]);
      var step :| Enabled(c, run[k - 1], step) && run[k] == Apply(c, run[k - 1], step);
      AccountedKept(c, run[k - 1], step);
      CausalKept(c, run[k - 1], step);
      SpacedKept(c, run[k - 1], step);
      ShapedKept(c, run[k - 1], step);
      if WithinCapacity(c) { ExclusiveKept(c, run[k - 1], step); }
    }
  }
}
