/** The other half of at-least-once delivery: a pending entry can always still
    be handled. From any state of any run, a task that has not ended comes to
    start the handler on it by its own steps and the passing of time, whatever
    the other tasks have done or do not do. */
module ConsumerProgress {
  import opened Wrappers
  import opened StreamIds
  import opened RedisServer
  import opened ConsumerProtocol
  import opened ConsumerProtocolProofs
  import opened ConsumerTheorems
  import Paging = PendingPagination

  // ----- runs of one task alone -----

  ghost predicate Own(t: Task, step: Step) {
    step == Go(t) || step.Tick? || (step.Wrap? && step.task == t)
  }

  ghost predicate Leads(c: Config, t: Task, s: System, steps: seq<Step>, s': System)
    decreases |steps|
  {
    if steps == [] then s' == s
    else Own(t, steps[0]) && Enabled(c, s, steps[0]) && Leads(c, t, Apply(c, s, steps[0]), steps[1..], s')
  }

  /** Task `t` and the clock lead from `s` to `s'`. */
  ghost predicate ByItself(c: Config, t: Task, s: System, s': System) {
    exists steps :: Leads(c, t, s, steps, s')
  }

  lemma Nothing(c: Config, t: Task, s: System)
    ensures ByItself(c, t, s, s)
  {
    assert Leads(c, t, s, [], s);
  }

  lemma Then(c: Config, t: Task, s: System, step: Step, s': System)
    requires Own(t, step) && Enabled(c, s, step) && ByItself(c, t, Apply(c, s, step), s')
    ensures ByItself(c, t, s, s')
  {
    hide Enabled, Apply;
    var steps :| Leads(c, t, Apply(c, s, step), steps, s');
    assert ([step] + steps)[1..] == steps;
    assert Leads(c, t, s, [step] + steps, s');
  }

  lemma {:induction false} LeadsOn(c: Config, t: Task, a: System, steps: seq<Step>, b: System, d: System)
    requires Leads(c, t, a, steps, b) && ByItself(c, t, b, d)
    ensures ByItself(c, t, a, d)
    decreases |steps|
  {
    hide Enabled, Apply;
    if steps != [] {
      LeadsOn(c, t, Apply(c, a, steps[0]), steps[1..], b, d);
      Then(c, t, a, steps[0], d);
    }
  }

  lemma Transitive(c: Config, t: Task, a: System, b: System, d: System)
    requires ByItself(c, t, a, b) && ByItself(c, t, b, d)
    ensures ByItself(c, t, a, d)
  {
    var steps :| Leads(c, t, a, steps, b);
    LeadsOn(c, t, a, steps, b, d);
  }

  // ----- sweeps stay within their rounds -----

  ghost predicate Rounded(s: System) {
    forall t | t in s.pcs && (s.pcs[t].Page? || s.pcs[t].Scan? || s.pcs[t].Grab?) :: InSweep(s.pcs[t])
  }

  lemma RoundedKept(c: Config, s: System, step: Step)
    requires Rounded(s) && Enabled(c, s, step)
    ensures Rounded(Apply(c, s, step))
  {
    hide Grantable, PendingFrom, RedisServer.Undelivered, Xadd, Xdel, Xack;
    var s' := Apply(c, s, step);
    if step.Go? && InSweep(s.pcs[step.task]) {
      SweepStep(c, s, step.task);
    }
    forall t | t in s'.pcs && (s'.pcs[t].Page? || s'.pcs[t].Scan? || s'.pcs[t].Grab?) ensures InSweep(s'.pcs[t]) {
      if t in s.pcs && (s.pcs[t].Page? || s.pcs[t].Scan? || s.pcs[t].Grab?) {
        assert InSweep(s.pcs[t]);
      }
    }
  }

  lemma {:induction false} RoundedRun(c: Config, run: seq<System>, k: nat)
    requires IsRun(c, run) && k < |run|
    ensures Rounded(run[k])
  {
    hide Enabled, Apply;
    if k > 0 {
      RoundedRun(c, run, k - 1);
      assert StepsTo(c, run[k - 1], run[k - 1 + 1]);
      var step :| Enabled(c, run[k - 1], step) && run[k] == Apply(c, run[k - 1], step);
      RoundedKept(c, run[k - 1], step);
    }
  }

  lemma ReachableFacts(c: Config, s: System)
    requires Reachable(c, s)
    ensures Rounded(s) && WellFormed(s.redis) && Shaped(s)
  {
    var run :| IsRun(c, run) && run[|run| - 1] == s;
    RoundedRun(c, run, |run| - 1);
    RunInv(c, run, |run| - 1);
  }

  // ----- an entry that waits to be handled -----

  /** The entry is pending, has its payload, and no task of the processor of `t`,
      which has not ended, is handling it. */
  ghost predicate Waiting(c: Config, s: System, t: Task, id: StreamId) {
    && Reachable(c, s)
    && t in s.pcs && !s.pcs[t].Stopped?
    && id in s.redis.pel && id in s.redis.stream
    && id !in InFlight(s, c.processor(t))
  }

  /** The handler is at work on the entry, which is still pending. */
  ghost predicate AtWork(s: System, t: Task, id: StreamId) {
    t in s.pcs && s.pcs[t].Handling? && s.pcs[t].msg.messageId == id && id in s.redis.pel
  }

  /** Between the two states `t` called the handler on the entry, which it is
      still at work on. */
  ghost predicate Begun(s: System, s': System, t: Task, id: StreamId) {
    s.log <= s'.log && Started(id, t) in s'.log[|s.log|..] && AtWork(s', t, id)
  }

  ghost function Below(r: Redis, id: StreamId): set<StreamId> {
    set x | x in r.pel && Less(x, id)
  }

  /** Reading adds what was never delivered, so nothing below the entry. */
  lemma ReadKeeps(r: Redis, consumer: string, id: StreamId)
    requires WellFormed(r) && r.group.Some? && id in r.pel && id in r.stream
    ensures
      var (r', ms) := Xreadgroup(r, consumer);
      id in r'.pel && id in r'.stream && Below(r', id) <= Below(r, id)
  {
  }

  lemma ClaimKeeps(r: Redis, consumer: string, idleMs: nat, x: StreamId, id: StreamId)
    requires id in r.pel && id in r.stream
    ensures
      var (r', ok) := Xclaim(r, consumer, idleMs, x);
      id in r'.pel && id in r'.stream && Below(r', id) <= Below(r, id)
  {
  }

  /** An own step keeps the entry pending, with its payload and its place. */
  lemma OwnKeepsEntry(c: Config, s: System, t: Task, id: StreamId, step: Step)
    requires WellFormed(s.redis) && t in s.pcs && id in s.redis.pel && id in s.redis.stream
    requires Own(t, step) && Enabled(c, s, step)
    ensures
      var r := Apply(c, s, step).redis;
      id in r.pel && id in r.stream && Below(r, id) <= Below(s.redis, id)
  {
    hide PendingFrom, XpendingRange, Xreadgroup, Xclaim;
    if step == Go(t) && s.pcs[t].Reading? {
      ReadKeeps(s.redis, c.consumer(t), id);
    } else if step == Go(t) && s.pcs[t].Grab? {
      ClaimKeeps(s.redis, c.consumer(t), c.idleMs(c.processor(t)), s.pcs[t].rows[s.pcs[t].i].messageId, id);
    }
  }

  /** It does not end the task, and puts the entry in flight only by starting it. */
  lemma OwnKeepsTask(c: Config, s: System, t: Task, id: StreamId, step: Step)
    requires t in s.pcs && !s.pcs[t].Stopped? && s.redis.group.Some? && id !in InFlight(s, c.processor(t))
    requires Own(t, step) && Enabled(c, s, step)
    ensures
      var s' := Apply(c, s, step);
      && t in s'.pcs && !s'.pcs[t].Stopped?
      && (id !in InFlight(s', c.processor(t))
          || (s'.log == s.log + [Started(id, t)] && s'.pcs[t].Handling? && s'.pcs[t].msg.messageId == id))
  {
    hide PendingFrom, XpendingRange, RedisServer.Undelivered, Grantable;
  }

  /** What one own step leaves of this. */
  lemma OwnStep(c: Config, s: System, t: Task, id: StreamId, step: Step)
    requires Waiting(c, s, t, id) && Own(t, step) && Enabled(c, s, step)
    ensures
      var s' := Apply(c, s, step);
      && Reachable(c, s') && s.log <= s'.log && Below(s'.redis, id) <= Below(s.redis, id)
      && (Waiting(c, s', t, id) || Begun(s, s', t, id))
  {
    ReachableFacts(c, s);
    hide Reachable, Apply, Enabled;
    ReachableStep(c, s, step);
    StepKeepsLog(c, s, step);
    OwnKeepsEntry(c, s, t, id, step);
    OwnKeepsTask(c, s, t, id, step);
    var s' := Apply(c, s, step);
    if s'.log == s.log + [Started(id, t)] {
      assert s'.log[|s.log|..] == [Started(id, t)];
    }
  }

  lemma BegunEarlier(a: System, b: System, d: System, t: Task, id: StreamId)
    requires a.log <= b.log && Begun(b, d, t, id)
    ensures Begun(a, d, t, id)
  {
    var i :| 0 <= i < |d.log[|b.log|..]| && d.log[|b.log|..][i] == Started(id, t);
    assert d.log[|a.log|..][|b.log| - |a.log| + i] == Started(id, t);
  }

  // ----- to the start of the loop -----

  /** How far a task is from the start of its loop. */
  ghost function Stage(pc: Pc): nat {
    match pc
    case Summary => 0
    case Page(_, _, _) => 4
    case Scan(_, _, _, _, _) => 4
    case Grab(_, _, _, _, _, _) => 4
    case Dispatch(_, phase) => if phase.Reclaimed? then 3 else 1
    case Handling(_, _, phase) => if phase.Reclaimed? then 3 else 1
    case Acking(_, _, phase) => if phase.Reclaimed? then 3 else 1
    case Reading => 2
    case Stopped => 0
  }

  ghost function Rounds(pc: Pc): nat {
    if InSweep(pc) then RoundsLeft(pc)
    else
      match pc
      case Dispatch(todo, _) => 3 * |todo|
      case Handling(_, rest, _) => 3 * |rest| + 2
      case Acking(_, rest, _) => 3 * |rest| + 1
      case _ => 0
  }

  ghost function Steps(pc: Pc): nat {
    if InSweep(pc) then StepsLeft(pc) else 0
  }

  ghost predicate Nearer(a: Pc, b: Pc) {
    || Stage(a) < Stage(b)
    || (Stage(a) == Stage(b) && Rounds(a) < Rounds(b))
    || (Stage(a) == Stage(b) && Rounds(a) == Rounds(b) && Steps(a) < Steps(b))
  }

  /** The next step of the task takes it nearer to the start of its loop. */
  lemma NextStep(c: Config, s: System, t: Task, id: StreamId) returns (step: Step)
    requires Waiting(c, s, t, id) && !s.pcs[t].Summary?
    ensures Own(t, step) && Enabled(c, s, step)
    ensures t in Apply(c, s, step).pcs && Nearer(Apply(c, s, step).pcs[t], s.pcs[t])
  {
    hide Reachable, PendingFrom, XpendingRange, Grantable;
    ReachableFacts(c, s);
    assert Running(s, t);
    if s.pcs[t] == Dispatch([], Fresh) {
      var f := InFlight(s, c.processor(t));
      step := Wrap(t, Pick(f, if |f| > MAX_IN_FLIGHT then |f| - MAX_IN_FLIGHT else 0));
    } else {
      step := Go(t);
      if InSweep(s.pcs[t]) {
        SweepStep(c, s, t);
      } else {
        GoNearer(c, s, t);
      }
    }
  }

  lemma GoNearer(c: Config, s: System, t: Task)
    requires Running(s, t) && s.redis.group.Some? && s.pcs[t] != Dispatch([], Fresh) && !s.pcs[t].Summary?
    requires !s.pcs[t].Page? && !s.pcs[t].Scan? && !s.pcs[t].Grab?
    ensures
      var s' := Apply(c, s, Go(t));
      t in s'.pcs && Nearer(s'.pcs[t], s.pcs[t])
  {
    hide RedisServer.Undelivered, PendingFrom, XpendingRange, Grantable;
  }

  /** The task gets to the start of its loop, unless it starts the entry on the way. */
  lemma ToSummary(c: Config, s: System, t: Task, id: StreamId) returns (s': System)
    requires Waiting(c, s, t, id)
    ensures ByItself(c, t, s, s') && s.log <= s'.log
    ensures Begun(s, s', t, id)
         || (Waiting(c, s', t, id) && s'.pcs[t].Summary? && Below(s'.redis, id) <= Below(s.redis, id))
    decreases Stage(s.pcs[t]), Rounds(s.pcs[t]), Steps(s.pcs[t])
  {
    hide Enabled, Apply, Reachable, ByItself, Below, Begun, Stage, Rounds, Steps;
    if s.pcs[t].Summary? {
      s' := s;
      Nothing(c, t, s);
    } else {
      var step := NextStep(c, s, t, id);
      OwnStep(c, s, t, id, step);
      var s1 := Apply(c, s, step);
      if Begun(s, s1, t, id) {
        s' := s1;
        Nothing(c, t, s1);
      } else {
        s' := ToSummary(c, s1, t, id);
        if Begun(s1, s', t, id) {
          BegunEarlier(s, s1, s', t, id);
        }
      }
      Then(c, t, s, step, s');
    }
  }

  // ----- a sweep that takes the entry along -----

  /** The ids of `b` that a sweep has passed when it is at `cursor`. */
  ghost function Passed(b: set<StreamId>, cursor: Cursor): set<StreamId> {
    set x | x in b && !AtOrAfter(cursor, x)
  }

  /** The entry is on the page, not yet tried, and shown as stale. */
  ghost predicate OnPage(rows: seq<Row>, i: nat, idleMs: nat, id: StreamId) {
    exists j :: i <= j < |rows| && rows[j].messageId == id && rows[j].idle >= idleMs
  }

  ghost predicate OnPageOrAhead(rows: seq<Row>, i: nat, cursor: Cursor, round: nat, idleMs: nat, id: StreamId,
                                b: set<StreamId>) {
    || OnPage(rows, i, idleMs, id)
    || (AheadOfPage(rows, cursor, id)
        && |Passed(b, From(Next(rows[|rows| - 1].messageId)))| >= Paging.PEL_BATCH_SIZE * (round + 1))
  }

  /** Where a stale entry is, seen from a sweep: claimed, or still to come, with
      a full page of the ids of `b` passed in every round. */
  ghost predicate Tracked(r: Redis, idleMs: nat, pc: Pc, id: StreamId, b: set<StreamId>)
    requires id in r.pel
  {
    && InSweep(pc) && Below(r, id) <= b
    && (id in Paging.MessageIds(pc.got)
        || (r.now - r.pel[id].since >= idleMs &&
            match pc
            case Page(cursor, round, _) =>
              AtOrAfter(cursor, id) && |Passed(b, cursor)| >= Paging.PEL_BATCH_SIZE * round
            case Scan(rows, i, cursor, round, _) => OnPageOrAhead(rows, i, cursor, round, idleMs, id, b)
            case Grab(_, rows, i, cursor, round, _) => OnPageOrAhead(rows, i, cursor, round, idleMs, id, b)))
  }

  /** A full page ahead of the entry is a page of ids below it. */
  lemma FullPagePassed(r: Redis, cursor: Cursor, id: StreamId, b: set<StreamId>)
    requires
      var rows := XpendingRange(r, cursor, Paging.PEL_BATCH_SIZE);
      AheadOfPage(rows, cursor, id) && Below(r, id) <= b
    ensures
      var rows := XpendingRange(r, cursor, Paging.PEL_BATCH_SIZE);
      |Passed(b, From(Next(rows[|rows| - 1].messageId)))| >= |Passed(b, cursor)| + Paging.PEL_BATCH_SIZE
  {
    hide XpendingRange, PendingFrom;
    var rows := XpendingRange(r, cursor, Paging.PEL_BATCH_SIZE);
    Paging.PageShows(r, cursor, rows);
    Paging.LastIsLargest(rows);
    var last := rows[|rows| - 1].messageId;
    var before, after, ids := Passed(b, cursor), Passed(b, From(Next(last))), Paging.RowIds(rows);
    forall x | x in ids ensures x in after - before {
      var i :| 0 <= i < |ids| && ids[i] == x;
      assert rows[i] in rows && rows[i].messageId == x;
      LastBelow(rows, id, x);
      assert x in Below(r, id);
    }
    Paging.AscendingCount(ids, after - before);
    assert before <= after by {
      forall x | x in before ensures x in after {
        BeforeCursor(cursor, last, x);
      }
    }
    Partition(before, after);
  }

  lemma LastBelow(rows: seq<Row>, id: StreamId, x: StreamId)
    requires rows != [] && Leq(Next(rows[|rows| - 1].messageId), id)
    requires !AtOrAfter(From(Next(rows[|rows| - 1].messageId)), x)
    ensures Less(x, id)
  {
  }

  lemma BeforeCursor(cursor: Cursor, last: StreamId, x: StreamId)
    requires AtOrAfter(cursor, last) && !AtOrAfter(cursor, x)
    ensures !AtOrAfter(From(Next(last)), x)
  {
  }

  lemma Partition<T>(a: set<T>, b: set<T>)
    requires a <= b
    ensures |b| == |a| + |b - a|
  {
    assert b == a + (b - a);
  }

  lemma PassedWithin(b: set<StreamId>, cursor: Cursor)
    ensures |Passed(b, cursor)| <= |b|
  {
    Partition(Passed(b, cursor), b);
  }

  /** A stale entry on the page just listed is shown as stale. */
  lemma ShownStale(r: Redis, cursor: Cursor, idleMs: nat, id: StreamId)
    requires id in r.pel && r.now - r.pel[id].since >= idleMs
    requires id in Paging.RowIds(XpendingRange(r, cursor, Paging.PEL_BATCH_SIZE))
    ensures OnPage(XpendingRange(r, cursor, Paging.PEL_BATCH_SIZE), 0, idleMs, id)
  {
    var rows := XpendingRange(r, cursor, Paging.PEL_BATCH_SIZE);
    Paging.PageShows(r, cursor, rows);
    var j :| 0 <= j < |rows| && Paging.RowIds(rows)[j] == id;
    assert rows[j] in rows;
  }

  /** One listing. */
  lemma TrackPage(r: Redis, idleMs: nat, pc: Pc, id: StreamId, b: set<StreamId>)
    requires pc.Page? && id in r.pel && Tracked(r, idleMs, pc, id, b)
    ensures
      var rows := XpendingRange(r, pc.cursor, Paging.PEL_BATCH_SIZE);
      if rows == [] then id in Paging.MessageIds(pc.got)
      else Tracked(r, idleMs, Scan(rows, 0, pc.cursor, pc.round, pc.got), id, b)
  {
    hide XpendingRange, PendingFrom, Below, Passed, OnPage, AheadOfPage;
    var rows := XpendingRange(r, pc.cursor, Paging.PEL_BATCH_SIZE);
    PageSize(r, pc.cursor);
    if id !in Paging.MessageIds(pc.got) {
      PageAhead(r, pc.cursor, id);
      if id in Paging.RowIds(rows) {
        ShownStale(r, pc.cursor, idleMs, id);
      } else {
        FullPagePassed(r, pc.cursor, id, b);
      }
    }
  }

  lemma PageSize(r: Redis, cursor: Cursor)
    ensures |XpendingRange(r, cursor, Paging.PEL_BATCH_SIZE)| <= Paging.PEL_BATCH_SIZE
  {
  }

  /** One row that is passed over, or the end of the page. */
  lemma TrackScan(r: Redis, idleMs: nat, pc: Pc, id: StreamId, b: set<StreamId>)
    requires pc.Scan? && id in r.pel && id in r.stream && Tracked(r, idleMs, pc, id, b)
    requires |b| < Paging.MOST_ROWS
    ensures pc.i < |pc.rows| && (pc.rows[pc.i].idle < idleMs || pc.rows[pc.i].messageId !in r.stream) ==>
              Tracked(r, idleMs, Scan(pc.rows, pc.i + 1, pc.cursor, pc.round, pc.got), id, b)
    ensures pc.i == |pc.rows| ==>
              var next := From(Next(pc.rows[|pc.rows| - 1].messageId));
              if |pc.rows| < Paging.PEL_BATCH_SIZE || next == pc.cursor
                 || pc.round + 1 == Paging.PEL_PAGINATION_MAX_BATCHES
              then id in Paging.MessageIds(pc.got)
              else Tracked(r, idleMs, Page(next, pc.round + 1, pc.got), id, b)
  {
    if id !in Paging.MessageIds(pc.got) {
      if OnPage(pc.rows, pc.i, idleMs, id) {
        var j :| pc.i <= j < |pc.rows| && pc.rows[j].messageId == id && pc.rows[j].idle >= idleMs;
      } else {
        PassedWithin(b, From(Next(pc.rows[|pc.rows| - 1].messageId)));
      }
    }
  }

  /** One claim. */
  lemma TrackGrab(r: Redis, consumer: string, idleMs: nat, pc: Pc, id: StreamId, b: set<StreamId>)
    requires pc.Grab? && id in r.pel && id in r.stream && Tracked(r, idleMs, pc, id, b)
    ensures
      var x := pc.rows[pc.i].messageId;
      var (r', ok) := Xclaim(r, consumer, idleMs, x);
      && id in r'.pel
      && (var got := pc.got + if ok then [Message(x, pc.fields)] else [];
          Tracked(r', idleMs, Scan(pc.rows, pc.i + 1, pc.cursor, pc.round, got), id, b))
  {
    var x := pc.rows[pc.i].messageId;
    var (r', ok) := Xclaim(r, consumer, idleMs, x);
    var more := if ok then [Message(x, pc.fields)] else [];
    Paging.MessageIdsConcat(pc.got, more);
    if id !in Paging.MessageIds(pc.got) && x == id {
      assert ok && Paging.MessageIds(more) == [id];
    } else if id !in Paging.MessageIds(pc.got) && OnPage(pc.rows, pc.i, idleMs, id) {
      var j :| pc.i <= j < |pc.rows| && pc.rows[j].messageId == id && pc.rows[j].idle >= idleMs;
      assert OnPage(pc.rows, pc.i + 1, idleMs, id);
    }
  }

  /** One step of the sweep keeps track of the entry, or hands it on. */
  lemma TrackStep(c: Config, s: System, t: Task, id: StreamId, b: set<StreamId>)
    requires t in s.pcs && InSweep(s.pcs[t]) && id in s.redis.pel && id in s.redis.stream
    requires Tracked(s.redis, c.idleMs(c.processor(t)), s.pcs[t], id, b) && |b| < Paging.MOST_ROWS
    ensures Enabled(c, s, Go(t))
    ensures
      var s' := Apply(c, s, Go(t));
      && t in s'.pcs && id in s'.redis.pel
      && (|| (InSweep(s'.pcs[t]) && Tracked(s'.redis, c.idleMs(c.processor(t)), s'.pcs[t], id, b))
          || (s'.pcs[t].Dispatch? && s'.pcs[t].phase.Reclaimed? && id in Paging.MessageIds(s'.pcs[t].todo)))
  {
    hide Tracked, XpendingRange, Grantable, Xclaim;
    var r, idleMs, pc := s.redis, c.idleMs(c.processor(t)), s.pcs[t];
    SweepStep(c, s, t);
    match pc
    case Page(_, _, _) => TrackPage(r, idleMs, pc, id, b);
    case Scan(_, _, _, _, _) =>
      TrackScan(r, idleMs, pc, id, b);
      GrabKeeps(r, idleMs, pc, id, b);
    case Grab(_, _, _, _, _, _) => TrackGrab(r, c.consumer(t), idleMs, pc, id, b);
  }

  /** Fetching the payload of a row changes nothing about where the entry is. */
  lemma GrabKeeps(r: Redis, idleMs: nat, pc: Pc, id: StreamId, b: set<StreamId>)
    requires pc.Scan? && id in r.pel && Tracked(r, idleMs, pc, id, b)
    ensures pc.i < |pc.rows| ==>
              forall fields :: Tracked(r, idleMs, Grab(fields, pc.rows, pc.i, pc.cursor, pc.round, pc.got), id, b)
  {
  }

  /** A sweep that tracks the entry ends with the entry among what it claimed. */
  lemma SweepTakes(c: Config, s: System, t: Task, id: StreamId, b: set<StreamId>) returns (s': System)
    requires Waiting(c, s, t, id) && InSweep(s.pcs[t]) && |b| < Paging.MOST_ROWS
    requires Tracked(s.redis, c.idleMs(c.processor(t)), s.pcs[t], id, b)
    ensures ByItself(c, t, s, s') && s.log <= s'.log
    ensures Begun(s, s', t, id)
         || (Waiting(c, s', t, id) && s'.pcs[t].Dispatch? && s'.pcs[t].phase.Reclaimed?
             && id in Paging.MessageIds(s'.pcs[t].todo))
    decreases RoundsLeft(s.pcs[t]), StepsLeft(s.pcs[t])
  {
    hide Enabled, Apply, Reachable, ByItself, Below, Begun, Tracked, RoundsLeft, StepsLeft;
    SweepStep(c, s, t);
    TrackStep(c, s, t, id, b);
    OwnStep(c, s, t, id, Go(t));
    var s1 := Apply(c, s, Go(t));
    if Begun(s, s1, t, id) || s1.pcs[t].Dispatch? {
      s' := s1;
      Nothing(c, t, s1);
    } else {
      s' := SweepTakes(c, s1, t, id, b);
      if Begun(s1, s', t, id) {
        BegunEarlier(s, s1, s', t, id);
      }
    }
    Then(c, t, s, Go(t), s');
  }

  // ----- handling what was claimed -----

  /** The messages the task still has to handle. */
  ghost function ToHandle(pc: Pc): seq<Message> {
    match pc
    case Dispatch(todo, _) => todo
    case Handling(_, rest, _) => rest
    case Acking(_, rest, _) => rest
    case _ => []
  }

  lemma DispatchStep(c: Config, s: System, t: Task, id: StreamId)
    requires Waiting(c, s, t, id) && id in Paging.MessageIds(ToHandle(s.pcs[t]))
    ensures Enabled(c, s, Go(t))
    ensures
      var s' := Apply(c, s, Go(t));
      t in s'.pcs && (Begun(s, s', t, id)
                      || (Nearer(s'.pcs[t], s.pcs[t]) && id in Paging.MessageIds(ToHandle(s'.pcs[t]))))
  {
    ReachableFacts(c, s);
    hide Reachable, PendingFrom, XpendingRange, RedisServer.Undelivered, Grantable, Stage, Rounds, Steps;
    assert Running(s, t);
    GoNearer(c, s, t);
    var s' := Apply(c, s, Go(t));
    if s.pcs[t].Dispatch? {
      FirstOrLater(s.pcs[t].todo, id);
      if s.pcs[t].todo[0].messageId == id {
        assert s'.log[|s.log|..] == [Started(id, t)];
      }
    }
  }

  lemma FirstOrLater(todo: seq<Message>, id: StreamId)
    requires id in Paging.MessageIds(todo)
    ensures todo != [] && (todo[0].messageId == id || id in Paging.MessageIds(todo[1..]))
  {
    var ids := Paging.MessageIds(todo);
    assert Paging.MessageIds(todo[1..]) == ids[1..] && ids == [ids[0]] + ids[1..];
  }

  /** A task that has the entry among its messages starts it. */
  lemma Dispatches(c: Config, s: System, t: Task, id: StreamId) returns (s': System)
    requires Waiting(c, s, t, id) && id in Paging.MessageIds(ToHandle(s.pcs[t]))
    ensures ByItself(c, t, s, s') && Begun(s, s', t, id)
    decreases Stage(s.pcs[t]), Rounds(s.pcs[t]), Steps(s.pcs[t])
  {
    hide Enabled, Apply, Reachable, ByItself, Below, Begun, Stage, Rounds, Steps, ToHandle;
    DispatchStep(c, s, t, id);
    OwnStep(c, s, t, id, Go(t));
    var s1 := Apply(c, s, Go(t));
    if Begun(s, s1, t, id) {
      s' := s1;
      Nothing(c, t, s1);
    } else {
      s' := Dispatches(c, s1, t, id);
      BegunEarlier(s, s1, s', t, id);
    }
    Then(c, t, s, Go(t), s');
  }

  // ----- the theorem -----

  /** The clock moves on far enough, and the sweep begins. */
  lemma BeginSweep(c: Config, s: System, t: Task, id: StreamId) returns (s': System)
    requires Waiting(c, s, t, id) && s.pcs[t].Summary?
    ensures ByItself(c, t, s, s') && s'.log == s.log && Waiting(c, s', t, id) && InSweep(s'.pcs[t])
    ensures Tracked(s'.redis, c.idleMs(c.processor(t)), s'.pcs[t], id, Below(s.redis, id))
  {
    hide Reachable;
    ReachableFacts(c, s);
    var ms := c.idleMs(c.processor(t));
    ReachableStep(c, s, Tick(ms));
    var s1 := Apply(c, s, Tick(ms));
    ReachableStep(c, s1, Go(t));
    s' := Apply(c, s1, Go(t));
    assert s' == s1.(pcs := s1.pcs[t := Page(Start, 0, [])]);
    assert Below(s'.redis, id) == Below(s.redis, id);
    Nothing(c, t, s');
    Then(c, t, s1, Go(t), s');
    Then(c, t, s, Tick(ms), s');
  }

  /** From every state of every run: a pending entry with a payload, not being
      handled on the processor and within the first 1,000,000 of the list, can
      still be started by any task of the processor that has not ended, by
      that task's own steps and the passing of time. */
  lemma CanStillBeHandled(c: Config, run: seq<System>, k: nat, t: Task, id: StreamId) returns (s': System)
    requires IsRun(c, run) && k < |run|
    requires var s := run[k];
      && t in s.pcs && !s.pcs[t].Stopped?
      && id in s.redis.pel && id in s.redis.stream && id !in InFlight(s, c.processor(t))
      && |Below(s.redis, id)| < Paging.MOST_ROWS
    ensures ByItself(c, t, run[k], s') && Begun(run[k], s', t, id)
  {
    var s := run[k];
    PrefixReachable(c, run, k);
    hide IsRun, Reachable, ByItself, Below, Begun, Tracked;
    var s1 := ToSummary(c, s, t, id);
    if Begun(s, s1, t, id) {
      s' := s1;
    } else {
      var s2 := BeginSweep(c, s1, t, id);
      FewerBelow(Below(s1.redis, id), Below(s.redis, id));
      var s3 := SweepTakes(c, s2, t, id, Below(s1.redis, id));
      s' := s3;
      if !Begun(s2, s3, t, id) {
        s' := Dispatches(c, s3, t, id);
        BegunEarlier(s2, s3, s', t, id);
        Transitive(c, t, s2, s3, s');
      }
      BegunEarlier(s, s2, s', t, id);
      Transitive(c, t, s1, s2, s');
      Transitive(c, t, s, s1, s');
    }
  }

  lemma FewerBelow(a: set<StreamId>, b: set<StreamId>)
    requires a <= b
    ensures |a| <= |b|
  {
    Partition(a, b);
  }

  lemma PrefixReachable(c: Config, run: seq<System>, k: nat)
    requires IsRun(c, run) && k < |run|
    ensures Reachable(c, run[k])
  {
    var prefix := run[..k + 1];
    assert IsRun(c, prefix) by {
      forall i | 0 <= i < |prefix| - 1 ensures StepsTo(c, prefix[i], prefix[i + 1]) {
        assert StepsTo(c, run[i], run[i + 1]);
      }
    }
    assert prefix[|prefix| - 1] == run[k];
  }
}
