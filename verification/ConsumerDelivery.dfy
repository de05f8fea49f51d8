/** Every entry can still be handled and acknowledged: one that is pending, and
    the next one of the stream, by the steps of any task that has not ended. */
module ConsumerDelivery {
  import opened Wrappers
  import opened StreamIds
  import opened RedisServer
  import opened ConsumerProtocol
  import opened ConsumerProtocolProofs
  import opened ConsumerTheorems
  import opened ConsumerProgress
  import Paging = PendingPagination

  // ----- a pending entry -----

  /** When the handler returns, the request goes out, and the server's turn
      takes the entry off the list. */
  lemma ReturnedThenAcked(c: Config, s: System, t: Task, id: StreamId)
    requires AtWork(s, t, id) && Running(s, t)
    ensures Enabled(c, s, Go(t))
    ensures
      var back := Apply(c, s, Go(t));
      && back.log == s.log + [Returned(id, t)] && Enabled(c, back, ServerAcks(id))
      && var done := Apply(c, back, ServerAcks(id)); done.log == back.log + [Acked(id)] && id !in done.redis.pel
  {
  }

  /** From every state of every run: a pending entry with a payload, not being
      handled on the processor and within the first 1,000,000 of the list, can
      still be acknowledged. By its own steps and the passing of time any task
      of the processor that has not ended comes to call the handler on it; when
      that returns and the server gets to the request, the entry is
      acknowledged and off the list. */
  lemma CanStillBeAcked(c: Config, run: seq<System>, k: nat, t: Task, id: StreamId)
    returns (begun: System, back: System, done: System)
    requires IsRun(c, run) && k < |run|
    requires var s := run[k];
      && t in s.pcs && !s.pcs[t].Stopped?
      && id in s.redis.pel && id in s.redis.stream && id !in InFlight(s, c.processor(t))
      && |Below(s.redis, id)| < Paging.MOST_ROWS
    ensures ByItself(c, t, run[k], begun) && Begun(run[k], begun, t, id)
    ensures Enabled(c, begun, Go(t)) && back == Apply(c, begun, Go(t)) && back.log == begun.log + [Returned(id, t)]
    ensures Enabled(c, back, ServerAcks(id)) && done == Apply(c, back, ServerAcks(id))
    ensures done.log == back.log + [Acked(id)] && id !in done.redis.pel
  {
    begun := CanStillBeHandled(c, run, k, t, id);
    hide IsRun, ByItself, Below, Enabled, Apply;
    ReturnedThenAcked(c, begun, t, id);
    back := Apply(c, begun, Go(t));
    done := Apply(c, back, ServerAcks(id));
  }

  // ----- the next entry of the stream -----

  /** How far a task is from its next read. */
  ghost function ReadStage(pc: Pc): nat {
    match pc
    case Reading => 0
    case Dispatch(_, phase) => if phase.Reclaimed? then 1 else 4
    case Handling(_, _, phase) => if phase.Reclaimed? then 1 else 4
    case Acking(_, _, phase) => if phase.Reclaimed? then 1 else 4
    case Page(_, _, _) => 2
    case Scan(_, _, _, _, _) => 2
    case Grab(_, _, _, _, _, _) => 2
    case Summary => 3
    case Stopped => 0
  }

  ghost predicate NearerToRead(a: Pc, b: Pc) {
    || ReadStage(a) < ReadStage(b)
    || (ReadStage(a) == ReadStage(b) && Rounds(a) < Rounds(b))
    || (ReadStage(a) == ReadStage(b) && Rounds(a) == Rounds(b) && ConsumerProgress.Steps(a) < ConsumerProgress.Steps(b))
  }

  /** A live task that is not about to read. */
  ghost predicate OnTheWay(c: Config, s: System, t: Task) {
    Reachable(c, s) && s.redis.group.Some? && t in s.pcs && !s.pcs[t].Stopped?
  }

  lemma GoTowardsRead(c: Config, s: System, t: Task)
    requires Running(s, t) && s.redis.group.Some? && s.pcs[t] != Dispatch([], Fresh) && !s.pcs[t].Reading?
    requires s.pcs[t].Page? || s.pcs[t].Scan? || s.pcs[t].Grab? ==> InSweep(s.pcs[t])
    ensures
      var s' := Apply(c, s, Go(t));
      && t in s'.pcs && !s'.pcs[t].Stopped? && NearerToRead(s'.pcs[t], s.pcs[t])
      && s'.redis.stream == s.redis.stream && s'.redis.group == s.redis.group
  {
    hide PendingFrom, XpendingRange, Grantable, RedisServer.Undelivered;
    if InSweep(s.pcs[t]) { SweepStep(c, s, t); }
  }

  lemma StepTowardsRead(c: Config, s: System, t: Task) returns (step: Step)
    requires OnTheWay(c, s, t) && !s.pcs[t].Reading?
    ensures Own(t, step) && Enabled(c, s, step)
    ensures
      var s' := Apply(c, s, step);
      && OnTheWay(c, s', t) && NearerToRead(s'.pcs[t], s.pcs[t]) && s.log <= s'.log
      && s'.redis.stream == s.redis.stream && s'.redis.group == s.redis.group
  {
    ReachableFacts(c, s);
    hide Reachable, InSweep;
    assert Running(s, t);
    if s.pcs[t] == Dispatch([], Fresh) {
      var f := InFlight(s, c.processor(t));
      step := Wrap(t, Pick(f, if |f| > MAX_IN_FLIGHT then |f| - MAX_IN_FLIGHT else 0));
    } else {
      step := Go(t);
      GoTowardsRead(c, s, t);
    }
    ReachableStep(c, s, step);
    StepKeepsLog(c, s, step);
  }

  /** A live task comes to its next read by its own steps; until then nothing
      is delivered to it. */
  lemma ToRead(c: Config, s: System, t: Task) returns (s': System)
    requires OnTheWay(c, s, t)
    ensures ByItself(c, t, s, s') && OnTheWay(c, s', t) && s'.pcs[t].Reading? && s.log <= s'.log
    ensures s'.redis.stream == s.redis.stream && s'.redis.group == s.redis.group
    decreases ReadStage(s.pcs[t]), Rounds(s.pcs[t]), ConsumerProgress.Steps(s.pcs[t])
  {
    hide Enabled, Apply, Reachable, ByItself, ReadStage, Rounds, ConsumerProgress.Steps;
    if s.pcs[t].Reading? {
      s' := s;
      Nothing(c, t, s);
    } else {
      var step := StepTowardsRead(c, s, t);
      s' := ToRead(c, Apply(c, s, step), t);
      PrefixTransitive(s.log, Apply(c, s, step).log, s'.log);
      Then(c, t, s, step, s');
    }
  }

  /** Only what has been delivered is in flight. */
  ghost predicate FlightsDelivered(s: System) {
    forall p, id | id in InFlight(s, p) :: Leq(id, LastDelivered(s.redis))
  }

  lemma FlightsKept(c: Config, s: System, step: Step)
    requires FlightsDelivered(s) && Causal(s) && Spaced(c, s) && Accounted(s) && Enabled(c, s, step)
    ensures FlightsDelivered(Apply(c, s, step))
  {
    var s' := Apply(c, s, step);
    LastOnlyGrows(c, s, step);
    forall p, id | id in InFlight(s', p) ensures Leq(id, LastDelivered(s'.redis)) {
      if id !in InFlight(s, p) {
        NewFlight(c, s, step, p, id);
      }
    }
  }

  lemma LastOnlyGrows(c: Config, s: System, step: Step)
    requires WellFormed(s.redis) && Enabled(c, s, step)
    ensures Leq(LastDelivered(s.redis), LastDelivered(Apply(c, s, step).redis))
  {
    hide PendingFrom, XpendingRange, Grantable, Xreadgroup, RedisServer.Undelivered;
    if (step.Go? || step.StopAfterEffect?) && s.pcs[step.task].Reading? && s.redis.group.Some? {
      LastGrowsOnRead(s.redis, c.consumer(step.task));
    }
  }

  lemma LastGrowsOnRead(r: Redis, consumer: string)
    requires r.group.Some?
    ensures Leq(LastDelivered(r), LastDelivered(Xreadgroup(r, consumer).0))
  {
    if RedisServer.Undelivered(r) != {} {
      assert Least(RedisServer.Undelivered(r)) in RedisServer.Undelivered(r);
    }
  }

  lemma NewFlight(c: Config, s: System, step: Step, p: Processor, id: StreamId)
    requires Causal(s) && Spaced(c, s) && Enabled(c, s, step)
    requires id in InFlight(Apply(c, s, step), p) && id !in InFlight(s, p)
    ensures Leq(id, LastDelivered(s.redis))
  {
    hide PendingFrom, XpendingRange, Grantable, RedisServer.Undelivered;
    assert step.Go? && s.pcs[step.task].Dispatch?;
    var m := s.pcs[step.task].todo[0];
    assert m.messageId == id && m in MessagesOf(s.pcs[step.task]);
    assert GrantedTo(s.log, id, step.task);
  }

  lemma {:induction false} FlightsRun(c: Config, run: seq<System>, k: nat)
    requires IsRun(c, run) && k < |run|
    ensures FlightsDelivered(run[k])
  {
    hide Enabled, Apply, FlightsDelivered;
    if k > 0 {
      FlightsRun(c, run, k - 1);
      RunInv(c, run, k - 1);
      assert StepsTo(c, run[k - 1], run[k - 1 + 1]);
      var step :| Enabled(c, run[k - 1], step) && run[k] == Apply(c, run[k - 1], step);
      FlightsKept(c, run[k - 1], step);
    } else {
      NoFlights(c, run[0]);
    }
  }

  lemma NoFlights(c: Config, s: System)
    requires Init(c, s)
    ensures FlightsDelivered(s)
  {
  }

  lemma LeastUndelivered(r: Redis, consumer: string, id: StreamId)
    requires r.group.Some?
    requires id in RedisServer.Undelivered(r) && forall x | x in RedisServer.Undelivered(r) :: Leq(id, x)
    ensures id in r.stream
    ensures Xreadgroup(r, consumer)
         == (r.(group := Some(id), pel := r.pel[id := Pending(consumer, r.now)]), [Message(id, r.stream[id])])
  {
    var least := Least(RedisServer.Undelivered(r));
    assert least in RedisServer.Undelivered(r) && Leq(least, id) && Leq(id, least);
    assert least == id;
  }

  /** The read gives the task the next undelivered entry. */
  lemma ReadNext(c: Config, s: System, t: Task, id: StreamId)
    requires OnTheWay(c, s, t) && s.pcs[t].Reading?
    requires id in RedisServer.Undelivered(s.redis) && forall x | x in RedisServer.Undelivered(s.redis) :: Leq(id, x)
    ensures Enabled(c, s, Go(t))
    ensures
      var s' := Apply(c, s, Go(t));
      Waiting(c, s', t, id) && s.log <= s'.log && id in Paging.MessageIds(ToHandle(s'.pcs[t]))
  {
    NotInFlight(c, s, t, id);
    LeastUndelivered(s.redis, c.consumer(t), id);
    hide Reachable, Xreadgroup, RedisServer.Undelivered;
    assert Running(s, t);
    ReachableStep(c, s, Go(t));
    var s' := Apply(c, s, Go(t));
    assert s'.pcs == s.pcs[t := Dispatch([Message(id, s.redis.stream[id])], Fresh)];
    assert Paging.MessageIds(s'.pcs[t].todo)[0] == id;
  }

  lemma NotInFlight(c: Config, s: System, t: Task, id: StreamId)
    requires Reachable(c, s) && id in RedisServer.Undelivered(s.redis)
    ensures id !in InFlight(s, c.processor(t))
  {
    var run :| IsRun(c, run) && run[|run| - 1] == s;
    FlightsRun(c, run, |run| - 1);
    var p := c.processor(t);
    assert id in InFlight(s, p) ==> Leq(id, LastDelivered(s.redis));
  }

  /** From every state of every run in which the group exists: the next
      undelivered entry can be read by any live task, which then calls the
      handler on it, by its own steps alone; when that returns and the server gets to
      the request, the entry is acknowledged. */
  lemma NextCanBeAcked(c: Config, run: seq<System>, k: nat, t: Task, id: StreamId)
    returns (begun: System, back: System, done: System)
    requires IsRun(c, run) && k < |run|
    requires var s := run[k];
      && t in s.pcs && !s.pcs[t].Stopped? && s.redis.group.Some?
      && id in RedisServer.Undelivered(s.redis) && forall x | x in RedisServer.Undelivered(s.redis) :: Leq(id, x)
    ensures ByItself(c, t, run[k], begun) && Begun(run[k], begun, t, id)
    ensures Enabled(c, begun, Go(t)) && back == Apply(c, begun, Go(t)) && back.log == begun.log + [Returned(id, t)]
    ensures Enabled(c, back, ServerAcks(id)) && done == Apply(c, back, ServerAcks(id))
    ensures done.log == back.log + [Acked(id)] && id !in done.redis.pel
  {
    PrefixReachable(c, run, k);
    hide IsRun, Reachable, ByItself, Below, Enabled, Apply, Begun;
    var s := run[k];
    var s1 := ToRead(c, s, t);
    assert RedisServer.Undelivered(s1.redis) == RedisServer.Undelivered(s.redis);
    ReadNext(c, s1, t, id);
    var s2 := Apply(c, s1, Go(t));
    begun := Dispatches(c, s2, t, id);
    PrefixTransitive(s.log, s1.log, s2.log);
    BegunEarlier(s, s2, begun, t, id);
    Then(c, t, s1, Go(t), begun);
    Transitive(c, t, s, s1, begun);
    assert AtWork(begun, t, id) by { StillAtWork(s, begun, t, id); }
    ReturnedThenAcked(c, begun, t, id);
    back := Apply(c, begun, Go(t));
    done := Apply(c, back, ServerAcks(id));
  }

  lemma StillAtWork(s: System, s': System, t: Task, id: StreamId)
    requires Begun(s, s', t, id)
    ensures AtWork(s', t, id)
  {
  }

  // ----- a handler that raises -----

  /** The next step of a task whose handlers raise on the ids of `raising`. */
  ghost function NextBy(s: System, t: Task, raising: StreamId -> bool): Step
    requires t in s.pcs
  {
    if s.pcs[t].Handling? && raising(s.pcs[t].msg.messageId) then HandlerRaises(t) else Go(t)
  }

  ghost predicate Follows(c: Config, t: Task, raising: StreamId -> bool, s: System, n: nat, s': System)
    decreases n
  {
    if n == 0 then s' == s
    else
      t in s.pcs && Enabled(c, s, NextBy(s, t, raising))
      && Follows(c, t, raising, Apply(c, s, NextBy(s, t, raising)), n - 1, s')
  }

  /** A raise leaves the server alone, requests nothing, and costs the task no
      other message. */
  lemma RaiseStep(c: Config, s: System, t: Task, id: StreamId)
    requires Waiting(c, s, t, id) && s.pcs[t].Handling? && id in Paging.MessageIds(ToHandle(s.pcs[t]))
    ensures Enabled(c, s, HandlerRaises(t))
    ensures
      var s' := Apply(c, s, HandlerRaises(t));
      && Waiting(c, s', t, id) && id in Paging.MessageIds(ToHandle(s'.pcs[t])) && Nearer(s'.pcs[t], s.pcs[t])
      && s'.redis == s.redis && s'.acks == s.acks && s'.log == s.log
  {
    hide Reachable;
    assert Running(s, t);
    ReachableStep(c, s, HandlerRaises(t));
  }

  /** Whatever handlers raise on the way, a task comes to every message it
      has claimed or read. */
  lemma RaisesDoNotStop(c: Config, s: System, t: Task, id: StreamId, raising: StreamId -> bool)
    returns (s': System, n: nat)
    requires Waiting(c, s, t, id) && id in Paging.MessageIds(ToHandle(s.pcs[t]))
    ensures Follows(c, t, raising, s, n, s') && Begun(s, s', t, id)
    decreases Stage(s.pcs[t]), Rounds(s.pcs[t]), Steps(s.pcs[t])
  {
    hide Enabled, Apply, Reachable, Below, Begun, Stage, Rounds, Steps, ToHandle;
    var step := NextBy(s, t, raising);
    if step.HandlerRaises? {
      RaiseStep(c, s, t, id);
      var s1 := Apply(c, s, step);
      s', n := RaisesDoNotStop(c, s1, t, id, raising);
      BegunEarlier(s, s1, s', t, id);
      n := n + 1;
    } else {
      DispatchStep(c, s, t, id);
      OwnStep(c, s, t, id, Go(t));
      var s1 := Apply(c, s, Go(t));
      if Begun(s, s1, t, id) {
        s', n := s1, 1;
        assert Follows(c, t, raising, s1, 0, s1);
      } else {
        s', n := RaisesDoNotStop(c, s1, t, id, raising);
        BegunEarlier(s, s1, s', t, id);
        n := n + 1;
      }
    }
  }
}
