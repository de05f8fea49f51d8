/** Further invariants of the consumer protocol: what the requests to
    acknowledge, the lines of the pending list and the messages in the tasks'
    hands stand for in every run. */
module ConsumerAcks {
  import opened Wrappers
  import opened StreamIds
  import opened RedisServer
  import opened ConsumerProtocol
  import opened ConsumerProtocolProofs
  import opened ConsumerTheorems
  import Paging = PendingPagination

  // ----- a normal return is followed by a request to acknowledge -----

  ghost predicate AckSent(s: System) {
    forall e | e in s.log && e.Returned? :: e.id in s.acks
  }

  lemma AckSentLog(s: System, s': System, e: Option<Event>)
    requires AckSent(s) && s'.log == Logged(s.log, e) && s.acks <= s'.acks
    requires e.Some? && e.value.Returned? ==> e.value.id in s'.acks
    ensures AckSent(s')
  {
  }

  lemma AckSentEnv(c: Config, s: System, step: Step)
    requires AckSent(s) && Enabled(c, s, step) && !step.Go? && !step.StopAfterEffect?
    ensures AckSent(Apply(c, s, step))
  {
    var s' := Apply(c, s, step);
    AckSentLog(s, s', match step
      case ServerAcks(id) => if id in s.redis.pel then Some(Acked(id)) else None
      case _ => None);
  }

  lemma AckSentRead(c: Config, s: System, t: Task)
    requires AckSent(s) && Running(s, t) && s.pcs[t].Reading?
    ensures AckSent(Read(c, s, t)) && t in Read(c, s, t).pcs
  {
    hide RedisServer.Undelivered;
    var s' := Read(c, s, t);
    AckSentLog(s, s', if s'.log == s.log then None else Some(s'.log[|s.log|]));
  }

  lemma AckSentClaim(c: Config, s: System, t: Task)
    requires AckSent(s) && Running(s, t) && s.pcs[t].Grab?
    ensures AckSent(Claim(c, s, t)) && t in Claim(c, s, t).pcs
  {
    hide Grantable;
    var s' := Claim(c, s, t);
    AckSentLog(s, s', if s'.log == s.log then None else Some(s'.log[|s.log|]));
  }

  lemma AckSentGo(c: Config, s: System, t: Task)
    requires AckSent(s) && Enabled(c, s, Go(t))
    ensures AckSent(Advance(c, s, t))
  {
    hide Read, Claim, Sweep;
    var s' := Advance(c, s, t);
    match s.pcs[t]
    case Reading => AckSentRead(c, s, t);
    case Grab(_, _, _, _, _, _) => AckSentClaim(c, s, t);
    case Handling(msg, _, _) => AckSentLog(s, s', Some(Returned(msg.messageId, t)));
    case Dispatch(todo, _) =>
      AckSentLog(s, s', if s'.pcs[t].Handling? then Some(Started(todo[0].messageId, t)) else None);
    case _ => AckSentLog(s, s', None);
  }

  lemma AckSentKept(c: Config, s: System, step: Step)
    requires AckSent(s) && Enabled(c, s, step)
    ensures AckSent(Apply(c, s, step))
  {
    hide Advance, Read, Claim;
    match step
    case Go(t) => AckSentGo(c, s, t);
    case StopAfterEffect(t) =>
      var done := if s.pcs[t].Reading? then Read(c, s, t) else Claim(c, s, t);
      if s.pcs[t].Reading? { AckSentRead(c, s, t); } else { AckSentClaim(c, s, t); }
      AckSentLog(done, Release(c, done, t, Stopped), None);
    case _ => AckSentEnv(c, s, step);
  }

  /** In every state of every run an acknowledgement has been requested for
      exactly the entries whose handler has returned; as long as such an entry
      is pending, the server can take it off the list. */
  lemma AcksAreReturns(c: Config, run: seq<System>, k: nat, id: StreamId)
    requires IsRun(c, run) && k < |run|
    ensures id in run[k].acks <==> HasReturned(run[k].log, id)
    ensures HasReturned(run[k].log, id) && id in run[k].redis.pel ==>
              && Enabled(c, run[k], ServerAcks(id))
              && var s' := Apply(c, run[k], ServerAcks(id)); Acked(id) in s'.log && id !in s'.redis.pel
  {
    hide Enabled, Apply, Init;
    AckSentRun(c, run, k);
    RunInv(c, run, k);
    var s := run[k];
    if HasReturned(s.log, id) {
      var t :| Returned(id, t) in s.log;
      assert Returned(id, t).Returned?;
      if id in s.redis.pel {
        ServerTakesOff(c, s, id);
      }
    }
  }

  lemma {:induction false} AckSentRun(c: Config, run: seq<System>, k: nat)
    requires IsRun(c, run) && k < |run|
    ensures AckSent(run[k])
  {
    hide Enabled, Apply;
    if k > 0 {
      AckSentRun(c, run, k - 1);
      assert StepsTo(c, run[k - 1], run[k - 1 + 1]);
      var step :| Enabled(c, run[k - 1], step) && run[k] == Apply(c, run[k - 1], step);
      AckSentKept(c, run[k - 1], step);
    }
  }

  lemma ServerTakesOff(c: Config, s: System, id: StreamId)
    requires id in s.acks && id in s.redis.pel
    ensures Enabled(c, s, ServerAcks(id))
    ensures var s' := Apply(c, s, ServerAcks(id)); Acked(id) in s'.log && id !in s'.redis.pel
  {
  }

  // ----- claims are tried on stale rows only -----

  ghost predicate TriesStale(c: Config, s: System) {
    forall t | t in s.pcs && s.pcs[t].Grab? && s.pcs[t].i < |s.pcs[t].rows| ::
      s.pcs[t].rows[s.pcs[t].i].idle >= c.idleMs(c.processor(t))
  }

  lemma TriesStaleKept(c: Config, s: System, step: Step)
    requires TriesStale(c, s) && Enabled(c, s, step)
    ensures TriesStale(c, Apply(c, s, step))
  {
    hide RedisServer.Undelivered, PendingFrom, XpendingRange, Grantable, Xadd, Xdel, Xack;
  }

  /** In every run a task only tries to claim what its listing showed as idle
      for its limit. */
  lemma {:induction false} ClaimsWereListedStale(c: Config, run: seq<System>, k: nat)
    requires IsRun(c, run) && k < |run|
    ensures TriesStale(c, run[k])
  {
    hide Enabled, Apply;
    if k > 0 {
      ClaimsWereListedStale(c, run, k - 1);
      assert StepsTo(c, run[k - 1], run[k - 1 + 1]);
      var step :| Enabled(c, run[k - 1], step) && run[k] == Apply(c, run[k - 1], step);
      TriesStaleKept(c, run[k - 1], step);
    }
  }

  // ----- an acknowledgement is final -----

  /** After its acknowledgement an entry is neither granted nor acknowledged again. */
  ghost predicate Settled(log: seq<Event>) {
    forall i, j | 0 <= i < j < |log| && log[i].Acked? :: !IsGrant(log[j], log[i].id) && log[j] != log[i]
  }

  lemma SettledMore(log: seq<Event>, e: Option<Event>)
    requires Settled(log)
    requires e.Some? && (IsGrant(e.value, e.value.id) || e.value.Acked?) ==> Acked(e.value.id) !in log
    ensures Settled(Logged(log, e))
  {
  }

  /** What a step adds to the log. */
  ghost predicate Adds(s: System, s': System, e: Option<Event>) {
    && s'.log == Logged(s.log, e)
    && (e.Some? && (IsGrant(e.value, e.value.id) || e.value.Acked?) ==> Acked(e.value.id) !in s.log)
  }

  lemma ReadAdds(c: Config, s: System, t: Task)
    requires Accounted(s) && Running(s, t) && s.pcs[t].Reading?
    ensures t in Read(c, s, t).pcs && exists e :: Adds(s, Read(c, s, t), e)
  {
    var s' := Read(c, s, t);
    if s.redis.group.None? || Xreadgroup(s.redis, c.consumer(t)).1 == [] {
      assert Adds(s, s', None);
    } else {
      var (redis, ms) := Xreadgroup(s.redis, c.consumer(t));
      assert ms[0].messageId in RedisServer.Undelivered(s.redis);
      assert Adds(s, s', Some(Delivered(ms[0].messageId, t, redis.now)));
    }
  }

  lemma ClaimAdds(c: Config, s: System, t: Task)
    requires Accounted(s) && Running(s, t) && s.pcs[t].Grab?
    ensures t in Claim(c, s, t).pcs && exists e :: Adds(s, Claim(c, s, t), e)
  {
    var s' := Claim(c, s, t);
    var id := s.pcs[t].rows[s.pcs[t].i].messageId;
    assert Adds(s, s', if s'.log == s.log then None else Some(Claimed(id, t, s.redis.now)));
  }

  lemma StepAdds(c: Config, s: System, step: Step)
    requires Accounted(s) && Enabled(c, s, step)
    ensures exists e :: Adds(s, Apply(c, s, step), e)
  {
    hide Read, Claim, Sweep;
    var s' := Apply(c, s, step);
    match step
    case ServerAcks(id) => assert Adds(s, s', if id in s.redis.pel then Some(Acked(id)) else None);
    case StopAfterEffect(t) =>
      if s.pcs[t].Reading? { ReadAdds(c, s, t); } else { ClaimAdds(c, s, t); }
      var e :| Adds(s, if s.pcs[t].Reading? then Read(c, s, t) else Claim(c, s, t), e);
      assert Adds(s, s', e);
    case Go(t) =>
      if s.pcs[t].Reading? { ReadAdds(c, s, t); }
      else if s.pcs[t].Grab? { ClaimAdds(c, s, t); }
      else { assert Adds(s, s', if s'.log == s.log then None else Some(s'.log[|s.log|])); }
    case _ => assert Adds(s, s', None);
  }

  lemma {:induction false} AckedForGood(c: Config, run: seq<System>, k: nat)
    requires IsRun(c, run) && k < |run|
    ensures Settled(run[k].log)
  {
    hide Enabled, Apply;
    if k > 0 {
      AckedForGood(c, run, k - 1);
      RunInv(c, run, k - 1);
      assert StepsTo(c, run[k - 1], run[k - 1 + 1]);
      var step :| Enabled(c, run[k - 1], step) && run[k] == Apply(c, run[k - 1], step);
      StepAdds(c, run[k - 1], step);
      var e :| Adds(run[k - 1], run[k], e);
      SettledMore(run[k - 1].log, e);
    }
  }

  // ----- who holds a pending entry -----

  /** The task whose grant the entry's line in the pending list records. */
  ghost predicate GrantBehind(c: Config, log: seq<Event>, id: StreamId, p: Pending) {
    exists e :: e in log && IsGrant(e, id) && e.at == p.since && c.consumer(e.task) == p.owner
  }

  ghost predicate Owned(c: Config, s: System) {
    forall id | id in s.redis.pel :: GrantBehind(c, s.log, id, s.redis.pel[id])
  }

  lemma OwnedMore(c: Config, s: System, s': System)
    requires Owned(c, s) && s.log <= s'.log
    requires forall id | id in s'.redis.pel ::
               || (id in s.redis.pel && s'.redis.pel[id] == s.redis.pel[id])
               || GrantBehind(c, s'.log, id, s'.redis.pel[id])
    ensures Owned(c, s')
  {
    forall id | id in s'.redis.pel ensures GrantBehind(c, s'.log, id, s'.redis.pel[id]) {
      if id in s.redis.pel && s'.redis.pel[id] == s.redis.pel[id] {
        assert GrantBehind(c, s.log, id, s.redis.pel[id]);
        var e :| e in s.log && IsGrant(e, id) && e.at == s.redis.pel[id].since && c.consumer(e.task) == s.redis.pel[id].owner;
        assert e in s'.log;
      }
    }
  }

  lemma OwnedRead(c: Config, s: System, t: Task)
    requires Owned(c, s) && Running(s, t) && s.pcs[t].Reading?
    ensures Owned(c, Read(c, s, t)) && t in Read(c, s, t).pcs
  {
    hide RedisServer.Undelivered;
    var s' := Read(c, s, t);
    if s'.log != s.log {
      var e := s'.log[|s.log|];
      assert e in s'.log && GrantBehind(c, s'.log, e.id, s'.redis.pel[e.id]);
    }
    OwnedMore(c, s, s');
  }

  lemma OwnedClaim(c: Config, s: System, t: Task)
    requires Owned(c, s) && Running(s, t) && s.pcs[t].Grab?
    ensures Owned(c, Claim(c, s, t)) && t in Claim(c, s, t).pcs
  {
    var s' := Claim(c, s, t);
    if s'.log != s.log {
      var e := s'.log[|s.log|];
      assert e in s'.log && GrantBehind(c, s'.log, e.id, s'.redis.pel[e.id]);
    }
    OwnedMore(c, s, s');
  }

  lemma OwnedKept(c: Config, s: System, step: Step)
    requires Owned(c, s) && Enabled(c, s, step)
    ensures Owned(c, Apply(c, s, step))
  {
    hide Read, Claim, Sweep, Owned;
    var s' := Apply(c, s, step);
    StepKeepsLog(c, s, step);
    match step
    case Go(t) =>
      if s.pcs[t].Reading? { OwnedRead(c, s, t); }
      else if s.pcs[t].Grab? { OwnedClaim(c, s, t); }
      else { OwnedMore(c, s, s'); }
    case StopAfterEffect(t) =>
      var done := if s.pcs[t].Reading? then Read(c, s, t) else Claim(c, s, t);
      if s.pcs[t].Reading? { OwnedRead(c, s, t); } else { OwnedClaim(c, s, t); }
      OwnedMore(c, done, s');
    case _ => OwnedMore(c, s, s');
  }

  /** In every state of every run the pending list names, for each entry, the
      consumer of the task that was granted it last, and when. */
  lemma PendingNamesLastGrantee(c: Config, run: seq<System>, k: nat, id: StreamId)
    requires IsRun(c, run) && k < |run| && id in run[k].redis.pel
    ensures
      var log, p := run[k].log, run[k].redis.pel[id];
      exists i: nat :: i < |log| && IsGrant(log[i], id) && log[i].at == p.since && c.consumer(log[i].task) == p.owner
                       && forall j | 0 <= j < |log| && IsGrant(log[j], id) :: log[j].at <= log[i].at
  {
    OwnedRun(c, run, k);
    RunInv(c, run, k);
    var log, p := run[k].log, run[k].redis.pel[id];
    assert GrantBehind(c, log, id, p);
    var e :| e in log && IsGrant(e, id) && e.at == p.since && c.consumer(e.task) == p.owner;
    var i: nat :| i < |log| && log[i] == e;
  }

  lemma {:induction false} OwnedRun(c: Config, run: seq<System>, k: nat)
    requires IsRun(c, run) && k < |run|
    ensures Owned(c, run[k])
  {
    hide Enabled, Apply;
    if k > 0 {
      OwnedRun(c, run, k - 1);
      assert StepsTo(c, run[k - 1], run[k - 1 + 1]);
      var step :| Enabled(c, run[k - 1], step) && run[k] == Apply(c, run[k - 1], step);
      OwnedKept(c, run[k - 1], step);
    }
  }

  // ----- the handler gets what was stored -----

  /** The message is in the task's hands, or its payload is and the claim is
      still to come. */
  ghost predicate Carries(pc: Pc, m: Message) {
    || m in MessagesOf(pc)
    || (pc.Grab? && pc.i < |pc.rows| && m == Message(pc.rows[pc.i].messageId, pc.fields))
  }

  /** Every message in a task's hands has the payload that is stored under its
      id, as long as that is stored. */
  ghost predicate Faithful(s: System) {
    forall t, m | t in s.pcs && Carries(s.pcs[t], m) :: Paging.Genuine(s.redis, m)
  }

  /** How the stream may change: payloads are added above the top, or go. */
  ghost predicate Grows(a: Redis, b: Redis) {
    && Leq(a.top, b.top)
    && (forall id | id in b.stream :: (id in a.stream && b.stream[id] == a.stream[id]) || Less(a.top, id))
  }

  lemma GenuineStays(a: Redis, b: Redis, m: Message)
    requires Grows(a, b) && Paging.Genuine(a, m)
    ensures Paging.Genuine(b, m)
  {
  }

  lemma FaithfulMove(s: System, s': System, t: Task, pc: Pc)
    requires Faithful(s) && Grows(s.redis, s'.redis) && t in s.pcs && s'.pcs == s.pcs[t := pc]
    requires forall m | Carries(pc, m) :: Carries(s.pcs[t], m) || Paging.Genuine(s'.redis, m)
    ensures Faithful(s')
  {
    hide Grows, Paging.Genuine, Carries;
    forall u, m | u in s'.pcs && Carries(s'.pcs[u], m) ensures Paging.Genuine(s'.redis, m) {
      if Carries(s.pcs[u], m) {
        GenuineStays(s.redis, s'.redis, m);
      }
    }
  }

  lemma FaithfulRead(c: Config, s: System, t: Task)
    requires Faithful(s) && WellFormed(s.redis) && Running(s, t) && s.pcs[t].Reading?
    ensures Faithful(Read(c, s, t)) && t in Read(c, s, t).pcs
  {
    var s' := Read(c, s, t);
    assert s.redis.group.Some? && RedisServer.Undelivered(s.redis) != {} ==>
      Least(RedisServer.Undelivered(s.redis)) in RedisServer.Undelivered(s.redis);
    FaithfulMove(s, s', t, s'.pcs[t]);
  }

  lemma FaithfulClaim(c: Config, s: System, t: Task)
    requires Faithful(s) && Running(s, t) && s.pcs[t].Grab?
    ensures Faithful(Claim(c, s, t)) && t in Claim(c, s, t).pcs
  {
    var s' := Claim(c, s, t);
    FaithfulMove(s, s', t, s'.pcs[t]);
  }

  lemma FaithfulGo(c: Config, s: System, t: Task)
    requires Faithful(s) && WellFormed(s.redis) && Enabled(c, s, Go(t))
    ensures Faithful(Advance(c, s, t))
  {
    hide Read, Claim, XpendingRange;
    var s' := Advance(c, s, t);
    if s.pcs[t].Reading? {
      FaithfulRead(c, s, t);
    } else if s.pcs[t].Grab? {
      FaithfulClaim(c, s, t);
    } else {
      FaithfulMove(s, s', t, s'.pcs[t]);
    }
  }

  lemma FaithfulKept(c: Config, s: System, step: Step)
    requires Faithful(s) && WellFormed(s.redis) && Enabled(c, s, step)
    ensures Faithful(Apply(c, s, step))
  {
    hide Advance, Read, Claim, Paging.Genuine;
    var s' := Apply(c, s, step);
    match step
    case Go(t) => FaithfulGo(c, s, t);
    case StopAfterEffect(t) =>
      var done := if s.pcs[t].Reading? then Read(c, s, t) else Claim(c, s, t);
      if s.pcs[t].Reading? { FaithfulRead(c, s, t); } else { FaithfulClaim(c, s, t); }
      FaithfulMove(done, s', t, Stopped);
    case HandlerRaises(t) => FaithfulMove(s, s', t, s'.pcs[t]);
    case Wrap(t, _) => FaithfulMove(s, s', t, Summary);
    case Stop(t) => FaithfulMove(s, s', t, Stopped);
    case _ =>
      assert Grows(s.redis, s'.redis);
      forall t, m | t in s'.pcs && Carries(s'.pcs[t], m) ensures Paging.Genuine(s'.redis, m) {
        GenuineStays(s.redis, s'.redis, m);
      }
  }

  lemma {:induction false} HandlersGetThePayload(c: Config, run: seq<System>, k: nat)
    requires IsRun(c, run) && k < |run|
    ensures Faithful(run[k])
  {
    hide Enabled, Apply, Faithful;
    if k > 0 {
      HandlersGetThePayload(c, run, k - 1);
      RunInv(c, run, k - 1);
      assert StepsTo(c, run[k - 1], run[k - 1 + 1]);
      var step :| Enabled(c, run[k - 1], step) && run[k] == Apply(c, run[k - 1], step);
      FaithfulKept(c, run[k - 1], step);
    } else {
      NothingCarried(c, run[0]);
    }
  }

  lemma NothingCarried(c: Config, s: System)
    requires Init(c, s)
    ensures Faithful(s)
  {
  }
}
