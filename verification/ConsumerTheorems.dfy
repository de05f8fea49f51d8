/** What the invariants of the consumer protocol mean for every run. */
module ConsumerTheorems {
  import opened Wrappers
  import opened StreamIds
  import opened RedisServer
  import opened ConsumerProtocol
  import opened ConsumerProtocolProofs
  import Paging = PendingPagination

  /** The ids whose handling a task of processor `p` has begun and not finished. */
  ghost function BeingHandled(c: Config, s: System, p: Processor): set<StreamId> {
    set t | t in s.pcs && c.processor(t) == p && Held(s.pcs[t]).Some? :: Held(s.pcs[t]).value
  }

  /** In every state of every run the in-flight set is exactly the set of ids
      being handled, two tasks of a processor never handle the same id, and the
      eviction at the end of an iteration removes nothing. */
  lemma ExclusiveHandling(c: Config, run: seq<System>, k: nat)
    requires IsRun(c, run) && k < |run| && WithinCapacity(c)
    ensures forall p :: InFlight(run[k], p) == BeingHandled(c, run[k], p)
    ensures forall t, u | t in run[k].pcs && u in run[k].pcs && t != u && c.processor(t) == c.processor(u)
              && Held(run[k].pcs[t]).Some? :: Held(run[k].pcs[t]) != Held(run[k].pcs[u])
    ensures forall t, victims | Enabled(c, run[k], Wrap(t, victims)) :: victims == {}
  {
    var s := run[k];
    RunInv(c, run, k);
    forall p ensures InFlight(s, p) == BeingHandled(c, s, p) {
      forall id | id in InFlight(s, p) ensures id in BeingHandled(c, s, p) {
        var t :| Holds(s, t, id) && c.processor(t) == p;
      }
      forall id | id in BeingHandled(c, s, p) ensures id in InFlight(s, p) {
        var t :| t in s.pcs && c.processor(t) == p && Held(s.pcs[t]) == Some(id);
        assert Holds(s, t, id);
      }
    }
    forall t, u | t in s.pcs && u in s.pcs && t != u && c.processor(t) == c.processor(u) && Held(s.pcs[t]).Some?
      ensures Held(s.pcs[t]) != Held(s.pcs[u])
    {
      var id := Held(s.pcs[t]).value;
      assert Holds(s, t, id) && !Holds(s, u, id);
    }
    forall t, victims | Enabled(c, s, Wrap(t, victims)) ensures victims == {} {
      EvictionIdle(c, s, t, victims);
    }
  }

  /** Nothing is lost and nothing is counted twice: an entry is in at most one
      of the states undelivered, pending, acknowledged, and as long as its
      payload has not been trimmed it is in one of them. */
  lemma NothingLost(c: Config, run: seq<System>, k: nat, id: StreamId)
    requires IsRun(c, run) && k < |run|
    ensures var s := run[k];
      var undelivered, pending, acked := ConsumerProtocolProofs.Undelivered(s, id), id in s.redis.pel, Acked(id) in s.log;
      && !(undelivered && pending) && !(undelivered && acked) && !(pending && acked)
      && (undelivered || pending || acked ==> id in s.entries)
      && (id in s.redis.stream ==> undelivered || pending || acked)
  {
    RunInv(c, run, k);
    var s := run[k];
    assert id in s.redis.stream ==> Less(LastDelivered(s.redis), id) || Leq(id, LastDelivered(s.redis));
  }

  /** As long as there is no group, every entry of the stream counts as
      undelivered, and creating the group keeps it so: the whole backlog is
      still to come. */
  lemma BacklogIsUndelivered(c: Config, run: seq<System>, k: nat, id: StreamId)
    requires IsRun(c, run) && k < |run| && run[k].redis.group.None? && id in run[k].redis.stream
    ensures ConsumerProtocolProofs.Undelivered(run[k], id)
    ensures ConsumerProtocolProofs.Undelivered(Apply(c, run[k], CreateGroup), id)
  {
    RunInv(c, run, k);
  }

  /** An acknowledged entry was given to some task, whose handler was then
      called on it and returned normally, all before the acknowledgement. */
  lemma AckedWasHandled(c: Config, run: seq<System>, k: nat, j: nat)
    requires IsRun(c, run) && k < |run| && j < |run[k].log| && run[k].log[j].Acked?
    ensures var log := run[k].log;
      var id := log[j].id;
      exists t, g, b, r :: 0 <= g < b < r < j
        && IsGrant(log[g], id) && log[g].task == t && log[b] == Started(id, t) && log[r] == Returned(id, t)
  {
    RunInv(c, run, k);
    CausalChain(run[k].log, j);
  }

  lemma CausalChain(log: seq<Event>, j: nat)
    requires j < |log| && log[j].Acked? && forall x | 0 <= x < |log| :: Caused(log[..x], log[x])
    ensures var id := log[j].id;
      exists t, g, b, r :: 0 <= g < b < r < j
        && IsGrant(log[g], id) && log[g].task == t && log[b] == Started(id, t) && log[r] == Returned(id, t)
  {
    var id := log[j].id;
    assert Caused(log[..j], log[j]);
    var t :| Returned(id, t) in log[..j];
    var r := Earlier(log, j, Returned(id, t));
    var b := CauseOfReturn(log, r, id, t);
    var g := CauseOfStart(log, b, id, t);
  }

  lemma CauseOfReturn(log: seq<Event>, r: nat, id: StreamId, t: Task) returns (b: nat)
    requires r < |log| && log[r] == Returned(id, t) && Caused(log[..r], log[r])
    ensures b < r && log[b] == Started(id, t)
  {
    b := Earlier(log, r, Started(id, t));
  }

  lemma CauseOfStart(log: seq<Event>, b: nat, id: StreamId, t: Task) returns (g: nat)
    requires b < |log| && log[b] == Started(id, t) && Caused(log[..b], log[b])
    ensures g < b && IsGrant(log[g], id) && log[g].task == t
  {
    var e :| e in log[..b] && IsGrant(e, id) && e.task == t;
    g := Earlier(log, b, e);
  }

  lemma Earlier(log: seq<Event>, j: nat, e: Event) returns (i: nat)
    requires j <= |log| && e in log[..j]
    ensures i < j && log[i] == e
  {
    i :| 0 <= i < |log[..j]| && log[..j][i] == e;
  }

  /** Every grant of an entry after its first is a claim, and comes at least
      the claimant's idle limit after every earlier grant. */
  lemma ClaimsAreSpaced(c: Config, run: seq<System>, k: nat, i: nat, j: nat)
    requires IsRun(c, run) && k < |run| && i < j < |run[k].log|
    requires var log := run[k].log; IsGrant(log[j], log[j].id) && IsGrant(log[i], log[j].id)
    ensures var log := run[k].log;
      log[j].Claimed? && log[j].at - log[i].at >= c.idleMs(c.processor(log[j].task))
  {
    RunInv(c, run, k);
  }

  /** Positions in the log are positions in time. */
  lemma {:induction false} LogOnlyGrows(c: Config, run: seq<System>, i: nat, k: nat)
    requires IsRun(c, run) && i <= k < |run|
    ensures run[i].log <= run[k].log
  {
    hide Init, StepsTo;
    if i < k {
      LogOnlyGrows(c, run, i, k - 1);
      assert StepsTo(c, run[k - 1], run[k - 1 + 1]);
      TransitionKeepsLog(c, run[k - 1], run[k]);
      PrefixTransitive(run[i].log, run[k - 1].log, run[k].log);
    }
  }

  lemma TransitionKeepsLog(c: Config, s: System, s': System)
    requires StepsTo(c, s, s')
    ensures s.log <= s'.log
  {
    hide Enabled, Apply;
    var step :| Enabled(c, s, step) && s' == Apply(c, s, step);
    StepKeepsLog(c, s, step);
  }

  lemma StepKeepsLog(c: Config, s: System, step: Step)
    requires Enabled(c, s, step)
    ensures s.log <= Apply(c, s, step).log
  {
  }

  lemma PrefixTransitive<T>(a: seq<T>, b: seq<T>, c: seq<T>)
    requires a <= b && b <= c
    ensures a <= c
  {
  }

  /** A task that has not ended is never stuck. */
  lemma NeverStuck(c: Config, run: seq<System>, k: nat, t: Task)
    requires IsRun(c, run) && k < |run| && t in run[k].pcs && !run[k].pcs[t].Stopped?
    ensures exists step :: Enabled(c, run[k], step) && (step == Go(t) || (step.Wrap? && step.task == t))
  {
    RunInv(c, run, k);
    var s := run[k];
    assert Running(s, t);
    if s.pcs[t] == Dispatch([], Fresh) {
      var f := InFlight(s, c.processor(t));
      var victims := Pick(f, if |f| > MAX_IN_FLIGHT then |f| - MAX_IN_FLIGHT else 0);
      assert Enabled(c, s, Wrap(t, victims));
    } else {
      assert Enabled(c, s, Go(t));
    }
  }

  ghost function Pick<T>(s: set<T>, n: nat): (r: set<T>)
    requires n <= |s|
    ensures r <= s && |r| == n
  {
    if n == 0 then {} else var x :| x in s; {x} + Pick(s - {x}, n - 1)
  }

  // ----- the capacity is exact -----

  ghost predicate Reachable(c: Config, s: System) {
    exists run :: IsRun(c, run) && run[|run| - 1] == s
  }

  lemma ReachableStep(c: Config, s: System, step: Step)
    requires Reachable(c, s) && Enabled(c, s, step)
    ensures Reachable(c, Apply(c, s, step))
  {
    var run :| IsRun(c, run) && run[|run| - 1] == s;
    var longer := run + [Apply(c, s, step)];
    assert StepsTo(c, s, Apply(c, s, step));
    forall i | 0 <= i < |longer| - 1 ensures StepsTo(c, longer[i], longer[i + 1]) {
      if i < |run| - 1 { assert StepsTo(c, run[i], run[i + 1]); }
    }
    assert IsRun(c, longer);
  }

  /** The group exists, everything added is delivered and pending, the tasks
      of `readers` wait for the next message, and `n` ids are in flight on `p`,
      each with a task that handles it. */
  ghost predicate Filled(c: Config, s: System, p: Processor, readers: set<Task>, n: nat) {
    && Reachable(c, s) && WellFormed(s.redis) && s.redis.group.Some?
    && s.pcs.Keys == c.tasks
    && RedisServer.Undelivered(s.redis) == {}
    && (forall t | t in readers :: t in c.tasks && c.processor(t) == p && s.pcs[t] == Reading)
    && (forall id | id in InFlight(s, p) :: HeldOn(c, s, p, id))
    && s.redis.pel.Keys == InFlight(s, p) && s.redis.pel.Keys <= s.redis.stream.Keys
    && |InFlight(s, p)| == n
  }

  ghost predicate HeldOn(c: Config, s: System, p: Processor, id: StreamId) {
    exists u :: Holds(s, u, id) && c.processor(u) == p
  }

  /** All tasks of `p` can be brought to wait for a message. */
  lemma AllRead(c: Config, p: Processor, readers: set<Task>) returns (s: System)
    requires readers <= TasksOf(c, p)
    ensures Filled(c, s, p, readers, 0) && s.redis.pel == map[]
    ensures forall t | t in c.tasks && t !in readers :: s.pcs[t] == Summary
  {
    if readers == {} {
      s := EmptyGroup(c, p);
    } else {
      var t :| t in readers;
      var s0 := AllRead(c, p, readers - {t});
      s := ReadyOne(c, s0, p, readers - {t}, t);
      assert readers - {t} + {t} == readers;
    }
  }

  lemma EmptyGroup(c: Config, p: Processor) returns (s: System)
    ensures Filled(c, s, p, {}, 0) && s.redis.pel == map[]
    ensures forall t | t in c.tasks :: s.pcs[t] == Summary
  {
    var r := Redis(0, map[], ORIGIN, None, map[]);
    var s0 := System(r, r.stream.Keys, map t | t in c.tasks :: Summary, map[], {}, []);
    assert IsRun(c, [s0]);
    assert [s0][|[s0]| - 1] == s0;
    ReachableStep(c, s0, CreateGroup);
    s := Apply(c, s0, CreateGroup);
  }

  /** One more task, from the start of its loop to its read. */
  lemma ReadyOne(c: Config, s: System, p: Processor, readers: set<Task>, t: Task) returns (s': System)
    requires Filled(c, s, p, readers, 0) && s.redis.pel == map[]
    requires t in c.tasks && c.processor(t) == p && s.pcs[t] == Summary
    ensures Filled(c, s', p, readers + {t}, 0) && s'.redis.pel == map[]
    ensures s'.pcs == s.pcs[t := Reading]
  {
    hide Reachable, WellFormed;
    ReachableStep(c, s, Go(t));
    var s1 := Apply(c, s, Go(t));
    assert s1 == s.(pcs := s.pcs[t := Dispatch([], Reclaimed)]);
    ReachableStep(c, s1, Go(t));
    s' := Apply(c, s1, Go(t));
    assert s' == s.(pcs := s.pcs[t := Reading]);
  }

  lemma FreshEntry(c: Config, s: System, p: Processor, readers: set<Task>, n: nat) returns (s': System, id: StreamId)
    requires Filled(c, s, p, readers, n)
    ensures Reachable(c, s') && s'.pcs == s.pcs && s'.inFlight == s.inFlight && s'.redis.group.Some?
    ensures WellFormed(s'.redis) && RedisServer.Undelivered(s'.redis) == {id}
    ensures s'.redis.pel == s.redis.pel && s.redis.stream.Keys <= s'.redis.stream.Keys
    ensures id !in s.redis.pel
  {
    id := Next(s.redis.top);
    ReachableStep(c, s, Add(id, map[]));
    s' := Apply(c, s, Add(id, map[]));
    forall x | x in RedisServer.Undelivered(s'.redis) ensures x == id {
      assert x != id ==> x in RedisServer.Undelivered(s.redis);
    }
    assert id in RedisServer.Undelivered(s'.redis);
  }

  lemma ReadLast(c: Config, s: System, t: Task, id: StreamId) returns (s': System)
    requires Reachable(c, s) && WellFormed(s.redis) && s.redis.group.Some? && t in s.pcs && s.pcs[t] == Reading
    requires RedisServer.Undelivered(s.redis) == {id}
    ensures Reachable(c, s') && WellFormed(s'.redis) && s'.redis.group == Some(id) && s'.inFlight == s.inFlight
    ensures exists m: Message :: m.messageId == id && s'.pcs == s.pcs[t := Dispatch([m], Fresh)]
    ensures RedisServer.Undelivered(s'.redis) == {}
    ensures s'.redis.pel.Keys == s.redis.pel.Keys + {id} && s'.redis.stream == s.redis.stream && id in s.redis.stream
  {
    ReachableStep(c, s, Go(t));
    s' := Apply(c, s, Go(t));
    assert Least({id}) == id && id in RedisServer.Undelivered(s.redis);
    forall x ensures x !in RedisServer.Undelivered(s'.redis) {
      assert x in RedisServer.Undelivered(s'.redis) ==> x in RedisServer.Undelivered(s.redis);
    }
    assert s'.pcs == s.pcs[t := Dispatch([Message(id, s.redis.stream[id])], Fresh)];
  }

  /** One more task takes a message into its handler. */
  lemma FillOne(c: Config, s: System, p: Processor, readers: set<Task>, n: nat, t: Task) returns (s': System)
    requires Filled(c, s, p, readers, n) && t in readers
    ensures Filled(c, s', p, readers - {t}, n + 1)
  {
    hide Reachable, WellFormed;
    var s1, id := FreshEntry(c, s, p, readers, n);
    var s2 := ReadLast(c, s1, t, id);
    assert id !in InFlight(s2, p);
    s' := StartOne(c, s2, t, id);
    StillHeld(c, s, s', p, t, id);
  }

  lemma StillHeld(c: Config, s: System, s': System, p: Processor, t: Task, id: StreamId)
    requires t in s.pcs && Held(s.pcs[t]) == None && c.processor(t) == p
    requires s'.pcs.Keys == s.pcs.Keys && (forall u | u in s.pcs && u != t :: s'.pcs[u] == s.pcs[u]) && Holds(s', t, id)
    requires InFlight(s', p) == InFlight(s, p) + {id}
    requires forall x | x in InFlight(s, p) :: HeldOn(c, s, p, x)
    ensures forall x | x in InFlight(s', p) :: HeldOn(c, s', p, x)
  {
    forall x | x in InFlight(s', p) ensures HeldOn(c, s', p, x) {
      if x in InFlight(s, p) {
        assert HeldOn(c, s, p, x);
        var u :| Holds(s, u, x) && c.processor(u) == p;
        assert Holds(s', u, x);
      } else {
        assert Holds(s', t, id);
      }
    }
  }

  lemma StartOne(c: Config, s: System, t: Task, id: StreamId) returns (s': System)
    requires Reachable(c, s) && t in s.pcs && id !in InFlight(s, c.processor(t))
    requires exists m: Message :: m.messageId == id && s.pcs[t].Dispatch? && s.pcs[t].todo != [] && s.pcs[t].todo[0] == m
    ensures Reachable(c, s') && s'.redis == s.redis && Holds(s', t, id)
    ensures t in s'.pcs && s'.pcs == s.pcs[t := s'.pcs[t]]
    ensures InFlight(s', c.processor(t)) == InFlight(s, c.processor(t)) + {id}
  {
    ReachableStep(c, s, Go(t));
    s' := Advance(c, s, t);
  }

  lemma FillAll(c: Config, s: System, p: Processor, readers: set<Task>, n: nat, last: Task) returns (s': System)
    requires Filled(c, s, p, readers, n) && last in readers
    ensures Filled(c, s', p, {last}, n + |readers| - 1)
    decreases readers
  {
    if readers == {last} {
      s' := s;
    } else {
      assert readers - {last} != {} by { assert readers - {last} == {} ==> readers == {last}; }
      var t :| t in readers - {last};
      var s1 := FillOne(c, s, p, readers, n, t);
      s' := FillAll(c, s1, p, readers - {t}, n + 1, last);
    }
  }

  // ----- a sweep, once begun, can always finish -----

  ghost predicate InSweep(pc: Pc) {
    match pc
    case Page(_, round, _) => round < Paging.PEL_PAGINATION_MAX_BATCHES
    case Scan(rows, i, _, round, _) =>
      round < Paging.PEL_PAGINATION_MAX_BATCHES && 0 < |rows| <= Paging.PEL_BATCH_SIZE && i <= |rows|
    case Grab(_, rows, i, _, round, _) =>
      round < Paging.PEL_PAGINATION_MAX_BATCHES && i < |rows| <= Paging.PEL_BATCH_SIZE
    case _ => false
  }

  /** What is left to do: rounds, and steps within the round. */
  ghost function RoundsLeft(pc: Pc): nat
    requires InSweep(pc)
  {
    Paging.PEL_PAGINATION_MAX_BATCHES - pc.round
  }

  ghost function StepsLeft(pc: Pc): nat
    requires InSweep(pc)
  {
    match pc
    case Page(_, _, _) => 2 * Paging.PEL_BATCH_SIZE + 2
    case Scan(rows, i, _, _, _) => 2 * (|rows| - i) + 1
    case Grab(_, rows, i, _, _, _) => 2 * (|rows| - i)
  }

  lemma SweepStep(c: Config, s: System, t: Task)
    requires t in s.pcs && InSweep(s.pcs[t])
    ensures Enabled(c, s, Go(t))
    ensures
      var s' := Apply(c, s, Go(t));
      && t in s'.pcs && s'.pcs == s.pcs[t := s'.pcs[t]] && s'.inFlight == s.inFlight
      && (if InSweep(s'.pcs[t]) then
            && s.pcs[t].got <= s'.pcs[t].got
            && (RoundsLeft(s'.pcs[t]) < RoundsLeft(s.pcs[t])
                || (RoundsLeft(s'.pcs[t]) == RoundsLeft(s.pcs[t]) && StepsLeft(s'.pcs[t]) < StepsLeft(s.pcs[t])))
          else s'.pcs[t].Dispatch? && s.pcs[t].got == s'.pcs[t].todo)
  {
    hide Grantable, PendingFrom;
  }

  /** Whatever the pending list holds, a task in its sweep comes to handling
      what it claimed, by its own steps alone. */
  lemma SweepFinishes(c: Config, s: System, t: Task) returns (s': System)
    requires Reachable(c, s) && t in s.pcs && InSweep(s.pcs[t])
    ensures Reachable(c, s') && t in s'.pcs && s'.pcs == s.pcs[t := s'.pcs[t]] && s'.inFlight == s.inFlight
    ensures s'.pcs[t].Dispatch? && s.pcs[t].got <= s'.pcs[t].todo
    decreases RoundsLeft(s.pcs[t]), StepsLeft(s.pcs[t])
  {
    hide Apply, Enabled, RoundsLeft, StepsLeft, Reachable;
    SweepStep(c, s, t);
    ReachableStep(c, s, Go(t));
    var s1 := Apply(c, s, Go(t));
    if InSweep(s1.pcs[t]) {
      s' := SweepFinishes(c, s1, t);
      PrefixTransitive(s.pcs[t].got, s1.pcs[t].got, s'.pcs[t].todo);
    } else {
      s' := s1;
    }
  }

  // ----- what a sweep visits -----

  /** The row of `id` is on the page the task works on. */
  ghost predicate ShowsId(pc: Pc, id: StreamId) {
    pc.Scan? && id in Paging.RowIds(pc.rows)
  }

  /** The sweep has not come to `id` yet. */
  ghost predicate Ahead(pc: Pc, id: StreamId) {
    match pc
    case Page(cursor, _, _) => AtOrAfter(cursor, id)
    case Scan(rows, _, cursor, _, _) => AheadOfPage(rows, cursor, id)
    case Grab(_, rows, _, cursor, _, _) => AheadOfPage(rows, cursor, id)
    case _ => false
  }

  ghost predicate AheadOfPage(rows: seq<Row>, cursor: Cursor, id: StreamId) {
    rows != [] && AtOrAfter(cursor, rows[|rows| - 1].messageId) && Paging.PastFullPage(rows, id)
  }

  lemma PageAhead(r: Redis, cursor: Cursor, id: StreamId)
    requires id in r.pel && AtOrAfter(cursor, id)
    ensures
      var rows := XpendingRange(r, cursor, Paging.PEL_BATCH_SIZE);
      rows != [] && (id in Paging.RowIds(rows) || AheadOfPage(rows, cursor, id))
  {
    var rows := XpendingRange(r, cursor, Paging.PEL_BATCH_SIZE);
    Paging.PageShows(r, cursor, rows);
    assert rows != [] ==> rows[|rows| - 1] in rows;
  }

  /** The task is in its sweep, not in its very last round, and `id` is pending. */
  ghost predicate Underway(s: System, t: Task, id: StreamId) {
    && t in s.pcs && InSweep(s.pcs[t]) && s.pcs[t].round + 1 < Paging.PEL_PAGINATION_MAX_BATCHES
    && id in s.redis.pel
  }

  /** One step, of this task or another, does not pass over a pending id. */
  lemma NotPassedOver(c: Config, s: System, step: Step, t: Task, id: StreamId)
    requires Enabled(c, s, step) && Underway(s, t, id) && Ahead(s.pcs[t], id)
    ensures
      var s' := Apply(c, s, step);
      && t in s'.pcs
      && (s'.pcs[t].Stopped? || Ahead(s'.pcs[t], id) || ShowsId(s'.pcs[t], id))
  {
    if step == Go(t) {
      hide XpendingRange, Grantable;
      if s.pcs[t].Page? {
        PageAhead(s.redis, s.pcs[t].cursor, id);
      } else if s.pcs[t].Scan? && s.pcs[t].i == |s.pcs[t].rows| {
        NextIsSuccessor(s.pcs[t].rows[|s.pcs[t].rows| - 1].messageId);
      }
    }
  }

  ghost predicate Listed(s: System, t: Task, id: StreamId) {
    t in s.pcs && ShowsId(s.pcs[t], id)
  }

  ghost predicate Coming(s: System, t: Task, id: StreamId) {
    t in s.pcs && Ahead(s.pcs[t], id)
  }

  /** An entry that is pending throughout a task's sweep is on one of the pages
      the sweep lists, unless it uses up its rounds. */
  lemma SweepVisits(c: Config, run: seq<System>, i: nat, k: nat, t: Task, id: StreamId)
    requires IsRun(c, run) && i < k < |run|
    requires forall m | i <= m < k :: Underway(run[m], t, id)
    requires t in run[i].pcs && run[i].pcs[t] == Page(Start, 0, [])
    requires t in run[k].pcs && run[k].pcs[t].Dispatch?
    ensures exists m :: i < m < k && Listed(run[m], t, id)
  {
    VisitsFrom(c, run, i, k, t, id);
  }

  lemma {:induction false} VisitsFrom(c: Config, run: seq<System>, i: nat, k: nat, t: Task, id: StreamId)
    requires IsRun(c, run) && i < k < |run| && Coming(run[i], t, id)
    requires forall m | i <= m < k :: Underway(run[m], t, id)
    requires t in run[k].pcs && run[k].pcs[t].Dispatch?
    ensures exists m :: i < m < k && Listed(run[m], t, id)
    decreases k - i
  {
    hide Init, StepsTo, Underway, Coming, Listed;
    assert StepsTo(c, run[i], run[i + 1]) && Underway(run[i], t, id);
    TransitionPassesOver(c, run[i], run[i + 1], t, id);
    if i + 1 < k {
      assert Underway(run[i + 1], t, id);
      StillUnderway(run[i + 1], t, id);
      if !Listed(run[i + 1], t, id) {
        VisitsFrom(c, run, i + 1, k, t, id);
      }
    } else {
      SweepOver(run[k], t, id);
    }
  }

  lemma StillUnderway(s: System, t: Task, id: StreamId)
    requires Underway(s, t, id)
    ensures t in s.pcs && !s.pcs[t].Stopped?
  {
  }

  lemma SweepOver(s: System, t: Task, id: StreamId)
    requires t in s.pcs && s.pcs[t].Dispatch?
    ensures !Coming(s, t, id) && !Listed(s, t, id)
  {
  }

  lemma TransitionPassesOver(c: Config, s: System, s': System, t: Task, id: StreamId)
    requires StepsTo(c, s, s') && Underway(s, t, id) && Coming(s, t, id)
    ensures t in s'.pcs && (s'.pcs[t].Stopped? || Coming(s', t, id) || Listed(s', t, id))
  {
    hide Apply, Enabled;
    var step :| Enabled(c, s, step) && s' == Apply(c, s, step);
    NotPassedOver(c, s, step, t, id);
  }

  // ----- beyond the capacity -----

  /** No id is with two tasks of one processor. */
  ghost predicate NoneTwice(c: Config, s: System) {
    forall t, u, id | Holds(s, t, id) && Holds(s, u, id) && c.processor(t) == c.processor(u) :: t == u
  }

  /** The last task finds nothing to read, and its eviction drops the id that
      heads the pending list, which some other task is handling. */
  lemma EvictHead(c: Config, s: System, p: Processor, t: Task) returns (s': System, v: StreamId)
    requires Filled(c, s, p, {t}, |InFlight(s, p)|) && |InFlight(s, p)| > MAX_IN_FLIGHT
    ensures Reachable(c, s') && s'.pcs == s.pcs[t := Summary] && v !in InFlight(s', p) && s'.redis == s.redis
    ensures v in s.redis.pel && v in s.redis.stream && forall x | x in s.redis.pel :: Leq(v, x)
  {
    hide Reachable, WellFormed, HeldOn;
    v := Least(s.redis.pel.Keys);
    var s1 := ReadNothing(c, s, t);
    s' := EvictOne(c, s1, p, t, v);
  }

  lemma ReadNothing(c: Config, s: System, t: Task) returns (s': System)
    requires Reachable(c, s) && t in s.pcs && s.pcs[t] == Reading && s.redis.group.Some?
    requires RedisServer.Undelivered(s.redis) == {}
    ensures Reachable(c, s') && s' == s.(pcs := s.pcs[t := Dispatch([], Fresh)])
  {
    hide Reachable;
    ReachableStep(c, s, Go(t));
    s' := Apply(c, s, Go(t));
  }

  lemma EvictOne(c: Config, s: System, p: Processor, t: Task, v: StreamId) returns (s': System)
    requires Reachable(c, s) && t in s.pcs && s.pcs[t] == Dispatch([], Fresh) && c.processor(t) == p
    requires v in InFlight(s, p) && |InFlight(s, p)| > MAX_IN_FLIGHT
    ensures Reachable(c, s') && s'.pcs == s.pcs[t := Summary] && v !in InFlight(s', p) && s'.redis == s.redis
  {
    hide Reachable;
    var f := InFlight(s, p);
    var victims := Pick(f - {v}, |f| - MAX_IN_FLIGHT - 1) + {v};
    ReachableStep(c, s, Wrap(t, victims));
    s' := Apply(c, s, Wrap(t, victims));
  }

  lemma FirstRow(r: Redis, v: StreamId)
    requires v in r.pel && forall x | x in r.pel :: Leq(v, x)
    ensures var rows := XpendingRange(r, Start, Paging.PEL_BATCH_SIZE);
      0 < |rows| <= Paging.PEL_BATCH_SIZE && rows[0] == Row(v, r.now - r.pel[v].since)
  {
    var ids := PendingFrom(r, Start);
    HeadIsLeast(ids, v);
  }

  lemma HeadIsLeast(ids: seq<StreamId>, v: StreamId)
    requires Ascending(ids) && v in ids && forall x | x in ids :: Leq(v, x)
    ensures ids[0] == v
  {
    forall j | 0 < j < |ids| ensures ids[j] != v {
      assert Less(ids[0], ids[j]) && Leq(v, ids[0]);
    }
  }

  /** From the start of its loop a task claims the head of the pending list,
      once it has been idle for long enough. */
  lemma ClaimHead(c: Config, s: System, t: Task, v: StreamId) returns (s': System)
    requires Reachable(c, s) && WellFormed(s.redis) && s.redis.group.Some? && t in s.pcs && s.pcs[t] == Summary
    requires v in s.redis.pel && v in s.redis.stream && forall x | x in s.redis.pel :: Leq(v, x)
    requires s.redis.now - s.redis.pel[v].since >= c.idleMs(c.processor(t))
    ensures Reachable(c, s') && t in s'.pcs && s'.pcs == s.pcs[t := s'.pcs[t]] && s'.inFlight == s.inFlight
    ensures InSweep(s'.pcs[t]) && s'.pcs[t].got == [Message(v, s.redis.stream[v])]
  {
    hide Reachable, WellFormed, XpendingRange;
    var rows := XpendingRange(s.redis, Start, Paging.PEL_BATCH_SIZE);
    FirstRow(s.redis, v);
    ReachableStep(c, s, Go(t));
    var s1 := Apply(c, s, Go(t));
    assert s1 == s.(pcs := s.pcs[t := Page(Start, 0, [])]);
    ReachableStep(c, s1, Go(t));
    var s2 := Apply(c, s1, Go(t));
    assert s2 == s.(pcs := s.pcs[t := Scan(rows, 0, Start, 0, [])]);
    s' := ClaimFirst(c, s2, t, v);
  }

  lemma ClaimFirst(c: Config, s: System, t: Task, v: StreamId) returns (s': System)
    requires Reachable(c, s) && t in s.pcs && v in s.redis.stream
    requires s.pcs[t].Scan? && s.pcs[t].i == 0 && InSweep(s.pcs[t]) && s.pcs[t].got == []
    requires s.pcs[t].rows[0].messageId == v && s.pcs[t].rows[0].idle >= c.idleMs(c.processor(t))
    requires Grantable(s.redis, v, c.idleMs(c.processor(t)))
    ensures Reachable(c, s') && t in s'.pcs && s'.pcs == s.pcs[t := s'.pcs[t]] && s'.inFlight == s.inFlight
    ensures InSweep(s'.pcs[t]) && s'.pcs[t].got == [Message(v, s.redis.stream[v])]
  {
    hide Reachable;
    var pc := s.pcs[t];
    ReachableStep(c, s, Go(t));
    var s1 := Apply(c, s, Go(t));
    assert s1 == s.(pcs := s.pcs[t := Grab(s.redis.stream[v], pc.rows, 0, pc.cursor, pc.round, [])]);
    ReachableStep(c, s1, Go(t));
    s' := Apply(c, s1, Go(t));
  }

  lemma Wait(c: Config, s: System, ms: nat) returns (s': System)
    requires Reachable(c, s) && WellFormed(s.redis)
    ensures Reachable(c, s') && s' == s.(redis := s.redis.(now := s.redis.now + ms)) && WellFormed(s'.redis)
  {
    ReachableStep(c, s, Tick(ms));
    s' := Apply(c, s, Tick(ms));
  }

  /** With more tasks there is a run in which two tasks of one processor
      handle the same message: one is still at it when the eviction forgets its
      id, the other claims it once it has been idle for long enough. */
  lemma OverCapacity(c: Config, p: Processor) returns (bad: System, t: Task, u: Task, id: StreamId)
    requires |TasksOf(c, p)| > MAX_IN_FLIGHT + 1
    ensures Reachable(c, bad) && t != u && c.processor(t) == c.processor(u) == p
    ensures Holds(bad, t, id) && Holds(bad, u, id)
  {
    hide Reachable, WellFormed, HeldOn;
    var s0 := AllRead(c, p, TasksOf(c, p));
    t :| t in TasksOf(c, p);
    var s1 := FillAll(c, s0, p, TasksOf(c, p), 0, t);
    bad, u, id := HandleTwice(c, s1, p, t);
  }

  lemma HandleTwice(c: Config, s: System, p: Processor, t: Task) returns (bad: System, u: Task, id: StreamId)
    requires Filled(c, s, p, {t}, |InFlight(s, p)|) && |InFlight(s, p)| > MAX_IN_FLIGHT
    ensures Reachable(c, bad) && t != u && c.processor(t) == c.processor(u) == p
    ensures Holds(bad, t, id) && Holds(bad, u, id)
  {
    hide Reachable, WellFormed, InSweep;
    var s1: System;
    s1, id := EvictHead(c, s, p, t);
    assert HeldOn(c, s, p, id);
    u :| Holds(s, u, id) && c.processor(u) == p;
    var s2 := Wait(c, s1, c.idleMs(p));
    IdleEnough(s1.redis, id, c.idleMs(p));
    var s3 := ClaimHead(c, s2, t, id);
    var s4 := SweepFinishes(c, s3, t);
    bad := StartOne(c, s4, t, id);
  }

  lemma IdleEnough(r: Redis, id: StreamId, ms: nat)
    requires WellFormed(r) && id in r.pel
    ensures r.now + ms - r.pel[id].since >= ms
  {
  }

  /** The in-flight set stays exact in every run, and no id is ever with two
      tasks of one processor, if and only if no processor is shared by more than
      MAX_IN_FLIGHT + 1 tasks. */
  lemma CapacityIsExact(c: Config)
    ensures WithinCapacity(c) <==> forall s | Reachable(c, s) :: Exclusive(c, s)
    ensures WithinCapacity(c) <==> forall s | Reachable(c, s) :: NoneTwice(c, s)
  {
    if WithinCapacity(c) {
      forall s | Reachable(c, s) ensures Exclusive(c, s) && NoneTwice(c, s) {
        var run :| IsRun(c, run) && run[|run| - 1] == s;
        RunInv(c, run, |run| - 1);
      }
    } else {
      var p :| |TasksOf(c, p)| > MAX_IN_FLIGHT + 1;
      var bad, t, u, id := OverCapacity(c, p);
      assert !NoneTwice(c, bad) && !Exclusive(c, bad);
    }
  }

  /** The in-flight set is within its documented bound in every run if and only
      if no processor has more tasks than that. */
  lemma InFlightBoundExactly(c: Config)
    ensures (forall s, p | Reachable(c, s) :: |InFlight(s, p)| <= MAX_IN_FLIGHT)
       <==> forall p :: |TasksOf(c, p)| <= MAX_IN_FLIGHT
  {
    if forall p :: |TasksOf(c, p)| <= MAX_IN_FLIGHT {
      forall s, p | Reachable(c, s) ensures |InFlight(s, p)| <= MAX_IN_FLIGHT {
        CapacityIsExact(c);
        InFlightOwned(c, s, p);
      }
    } else {
      var p :| |TasksOf(c, p)| > MAX_IN_FLIGHT;
      var s := FillAllTasks(c, p);
      assert Reachable(c, s) && |InFlight(s, p)| > MAX_IN_FLIGHT;
    }
  }

  lemma InFlightOwned(c: Config, s: System, p: Processor)
    requires Exclusive(c, s)
    ensures |InFlight(s, p)| <= |TasksOf(c, p)|
  {
    forall id | id in InFlight(s, p) ensures exists t :: t in TasksOf(c, p) && Holds(s, t, id) {
      var t :| Holds(s, t, id) && c.processor(t) == p;
      assert t in TasksOf(c, p);
    }
    OwnersCount(s, InFlight(s, p), TasksOf(c, p));
  }

  /** Every task of a processor can be in its handler at once. */
  lemma FillAllTasks(c: Config, p: Processor) returns (s: System)
    requires TasksOf(c, p) != {}
    ensures Reachable(c, s) && |InFlight(s, p)| == |TasksOf(c, p)|
  {
    hide Reachable, WellFormed, HeldOn;
    var s0 := AllRead(c, p, TasksOf(c, p));
    var last :| last in TasksOf(c, p);
    var n := |TasksOf(c, p)|;
    var s1 := FillAll(c, s0, p, TasksOf(c, p), 0, last);
    s := FillOne(c, s1, p, {last}, n - 1, last);
  }
}
