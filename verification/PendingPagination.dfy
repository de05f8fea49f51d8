/** `AsyncMessageProcessor.claim_pending`: the paginated sweep over the
    pending-entries list, run against a server that other clients use at the
    same time. Every awaited command is preceded by arbitrary interference. */
module PendingPagination {
  import opened Wrappers
  import opened StreamIds
  import opened RedisServer

  const PEL_BATCH_SIZE: nat := 100
  const PEL_PAGINATION_MAX_BATCHES: nat := 10_000

  function RowIds(rows: seq<Row>): (ids: seq<StreamId>)
    ensures |ids| == |rows|
    ensures forall i | 0 <= i < |rows| :: ids[i] == rows[i].messageId
  {
    seq(|rows|, i requires 0 <= i < |rows| => rows[i].messageId)
  }

  function MessageIds(ms: seq<Message>): (ids: seq<StreamId>)
    ensures |ids| == |ms|
    ensures forall i | 0 <= i < |ms| :: ids[i] == ms[i].messageId
  {
    seq(|ms|, i requires 0 <= i < |ms| => ms[i].messageId)
  }

  /** How the server's state may move: time passes, payloads are added above
      the top or deleted, never changed in place. */
  predicate Evolves(a: Redis, b: Redis) {
    && WellFormed(b)
    && a.now <= b.now
    && Leq(a.top, b.top)
    && (forall id | id in a.stream && id in b.stream :: a.stream[id] == b.stream[id])
    && (forall id | id in b.stream && id !in a.stream :: Less(a.top, id))
  }

  lemma EvolvesTransitive(a: Redis, b: Redis, c: Redis)
    requires WellFormed(a) && Evolves(a, b) && Evolves(b, c)
    ensures Evolves(a, c)
  {
  }

  /** What other clients may do between two commands: claim, acknowledge,
      deliver, add and delete, but not acknowledge the entries of `kept`. */
  predicate Interference(kept: set<StreamId>, a: Redis, b: Redis) {
    && Evolves(a, b)
    && (forall id | id in kept && id in a.pel :: id in b.pel)
  }

  /** What nobody else does to the entries of `alone`: they are not claimed,
      acknowledged or trimmed. Time may pass. */
  predicate LeftAlone(alone: set<StreamId>, a: Redis, b: Redis) {
    && (forall id | id in alone && id in a.stream :: id in b.stream)
    && (forall id | id in alone && id in a.pel :: id in b.pel && b.pel[id] == a.pel[id])
  }

  /** `n` more claims were granted, each of an entry that nobody had touched
      for at least `idleMs` at that moment. */
  ghost predicate GrantedIdle(before: seq<int>, after: seq<int>, n: nat, idleMs: nat) {
    && before <= after && |after| == |before| + n
    && forall i | |before| <= i < |after| :: after[i] >= idleMs
  }

  lemma GrantedIdleMore(a: seq<int>, b: seq<int>, c: seq<int>, n: nat, m: nat, idleMs: nat)
    requires GrantedIdle(a, b, n, idleMs) && GrantedIdle(b, c, m, idleMs)
    ensures GrantedIdle(a, c, n + m, idleMs)
  {
  }

  /** A connection to the shared server. `listed` and `granted` record
      the rows XPENDING returned and the ids XCLAIM granted, `idles` for how
      long each granted entry had been idle when it was granted; `seen` are the
      ids that were pending when the current sweep made a listing. */
  class RedisClient {
    var st: Redis
    const contended: bool          // false: no other client acts, time stands still
    const kept: set<StreamId>      // not acknowledged by others
    const alone: set<StreamId>     // not touched by others at all
    ghost var listed: seq<Row>
    ghost var granted: seq<StreamId>
    ghost var idles: seq<int>
    ghost var seen: set<StreamId>

    constructor (st: Redis, contended: bool, kept: set<StreamId>, alone: set<StreamId>)
      ensures this.st == st && this.contended == contended && this.kept == kept && this.alone == alone
      ensures listed == [] && granted == [] && idles == [] && seen == {}
    {
      this.st := st;
      this.contended := contended;
      this.kept := kept;
      this.alone := alone;
      listed, granted, idles, seen := [], [], [], {};
    }

    method Await()
      requires WellFormed(st)
      modifies this`st
      ensures Interference(kept, old(st), st) && LeftAlone(alone, old(st), st)
      ensures !contended ==> st == old(st)
    {
      if contended {
        assert Interference(kept, st, st) && LeftAlone(alone, st, st);
        var next :| Interference(kept, st, next) && LeftAlone(alone, st, next);
        st := next;
      }
    }

    method XpendingSummary() returns (pending: nat)
      requires WellFormed(st)
      modifies this`st
      ensures Interference(kept, old(st), st) && LeftAlone(alone, old(st), st) && (!contended ==> st == old(st))
      ensures pending == |st.pel|
    {
      Await();
      pending := |st.pel|;
    }

    method ListPending(cursor: Cursor, count: nat) returns (rows: seq<Row>)
      requires WellFormed(st)
      modifies this`st, this`listed, this`seen
      ensures Interference(kept, old(st), st) && LeftAlone(alone, old(st), st) && (!contended ==> st == old(st))
      ensures rows == XpendingRange(st, cursor, count)
      ensures listed == old(listed) + rows && seen == old(seen) + st.pel.Keys
    {
      Await();
      rows := XpendingRange(st, cursor, count);
      listed := listed + rows;
      seen := seen + st.pel.Keys;
    }

    /** XRANGE id id. */
    method FetchFields(id: StreamId) returns (fields: Option<Fields>)
      requires WellFormed(st)
      modifies this`st
      ensures Interference(kept, old(st), st) && LeftAlone(alone, old(st), st) && (!contended ==> st == old(st))
      ensures fields == if id in st.stream then Some(st.stream[id]) else None
    {
      Await();
      fields := if id in st.stream then Some(st.stream[id]) else None;
    }

    /** XCLAIM of one id, in the state that interference has led to. */
    method Claim(consumer: string, minIdle: nat, id: StreamId) returns (justids: seq<StreamId>, ghost mid: Redis)
      requires WellFormed(st)
      modifies this`st, this`granted, this`idles
      ensures Interference(kept, old(st), mid) && LeftAlone(alone, old(st), mid) && (!contended ==> mid == old(st))
      ensures (st, justids == [id]) == Xclaim(mid, consumer, minIdle, id)
      ensures justids == [] || justids == [id]
      ensures granted == old(granted) + justids
      ensures idles == old(idles) + if justids == [] then [] else [mid.now - mid.pel[id].since]
    {
      Await();
      mid := st;
      var (next, ok) := Xclaim(st, consumer, minIdle, id);
      st := next;
      justids := if ok then [id] else [];
      granted := granted + justids;
      idles := idles + if ok then [mid.now - mid.pel[id].since] else [];
    }
  }

  /** XCLAIM moves the server along, leaves all other entries alone, and takes an
      entry whose payload is gone off the list. */
  lemma XclaimEvolves(r: Redis, consumer: string, minIdle: nat, id: StreamId)
    requires WellFormed(r)
    ensures
      var (next, ok) := Xclaim(r, consumer, minIdle, id);
      && Evolves(r, next) && next.stream == r.stream
      && (forall x | x in r.pel && x != id :: x in next.pel && next.pel[x] == r.pel[x])
      && (ok ==> id in next.pel && next.pel[id] == Pending(consumer, r.now) && id in r.stream)
      && (id !in r.stream ==> !ok && id !in next.pel)
  {
  }

  // ----- what the sweep returns when nothing else happens -----

  /** The stale entries among `ids` that still have a payload, in order. */
  function Stale(r: Redis, idleMs: nat, ids: seq<StreamId>): (ms: seq<Message>)
    ensures forall i | 0 <= i < |ms| :: ms[i].messageId in ids
  {
    if ids == [] then []
    else
      var id := ids[|ids| - 1];
      Stale(r, idleMs, ids[..|ids| - 1]) + if Grantable(r, id, idleMs) then [Message(id, r.stream[id])] else []
  }

  /** The pending list after `consumer` took over the entries of `ids`. */
  function Reassigned(r: Redis, ids: seq<StreamId>, consumer: string): Redis {
    r.(pel := map id | id in r.pel :: if id in ids then Pending(consumer, r.now) else r.pel[id])
  }

  lemma StaleStep(r: Redis, idleMs: nat, rows: seq<Row>, k: nat)
    requires k < |rows|
    ensures Stale(r, idleMs, RowIds(rows[..k + 1]))
         == Stale(r, idleMs, RowIds(rows[..k]))
            + if Grantable(r, rows[k].messageId, idleMs) then [Message(rows[k].messageId, r.stream[rows[k].messageId])] else []
  {
    assert RowIds(rows[..k + 1])[..k] == RowIds(rows[..k]);
  }

  lemma ReassignStep(r: Redis, ids: seq<StreamId>, consumer: string, id: StreamId)
    requires id in r.pel
    ensures Reassigned(r, ids + [id], consumer)
         == Reassigned(r, ids, consumer).(pel := Reassigned(r, ids, consumer).pel[id := Pending(consumer, r.now)])
  {
    var next := Reassigned(r, ids + [id], consumer);
    var step := Reassigned(r, ids, consumer).pel[id := Pending(consumer, r.now)];
    assert next.pel.Keys == step.Keys;
    assert forall x | x in step :: next.pel[x] == step[x];
    assert next.pel == step;
  }

  /** The row lists an entry of `r` with its idle time in `r`. */
  ghost predicate Lists(r: Redis, row: Row) {
    row.messageId in r.pel && row.idle == r.now - r.pel[row.messageId].since
  }

  function IdsOf(rows: seq<Row>): set<StreamId> {
    set row | row in rows :: row.messageId
  }

  /** Of the entries nobody else touches, those outside `visited` are as they
      were, and all payloads are still there. */
  ghost predicate Spared(alone: set<StreamId>, visited: set<StreamId>, a: Redis, b: Redis) {
    && (forall id | id in alone && id in a.stream :: id in b.stream)
    && (forall id | id in alone && id in a.pel && id !in visited :: id in b.pel && b.pel[id] == a.pel[id])
  }

  /** A row that shows a stale entry shows one that is stale in `r`. */
  ghost predicate ListedStale(r: Redis, idleMs: nat, row: Row) {
    row.messageId in r.pel && (row.idle >= idleMs ==> r.now - r.pel[row.messageId].since >= idleMs)
  }

  /** Every row that shows a stale entry nobody else touches, with a payload in
      `r`, yielded its message. */
  ghost predicate Taken(alone: set<StreamId>, idleMs: nat, rows: seq<Row>, r: Redis, claimed: seq<Message>) {
    forall row | row in rows && row.messageId in alone && row.idle >= idleMs && row.messageId in r.stream ::
      Message(row.messageId, r.stream[row.messageId]) in claimed
  }

  /** The message carries the payload the server stores under its id. */
  ghost predicate Genuine(r: Redis, m: Message) {
    Leq(m.messageId, r.top) && (m.messageId in r.stream ==> r.stream[m.messageId] == m.fields)
  }

  /** `m` comes from one of the rows, which was listed as stale. */
  ghost predicate FromStaleRow(rows: seq<Row>, idleMs: nat, m: Message) {
    exists i :: 0 <= i < |rows| && rows[i].messageId == m.messageId && rows[i].idle >= idleMs
  }

  lemma Untouched(alone: set<StreamId>, r: Redis, id: StreamId)
    requires WellFormed(r)
    ensures Evolves(r, r) && Spared(alone, {id}, r, r)
  {
  }

  /** Waiting for the payload spares the entries left alone, so that what was
      stale with a payload still is. */
  lemma Fetched(alone: set<StreamId>, start: Redis, before: Redis, id: StreamId, idleMs: nat)
    requires WellFormed(start) && Evolves(start, before) && LeftAlone(alone, start, before)
    ensures WellFormed(before) && Spared(alone, {id}, start, before)
    ensures id in alone && Grantable(start, id, idleMs) ==>
              Grantable(before, id, idleMs) && before.stream[id] == start.stream[id]
  {
  }

  /** The claim of one entry, seen from before its payload was fetched. */
  lemma ClaimOutcome(kept: set<StreamId>, alone: set<StreamId>, start: Redis, before: Redis, mid: Redis,
                     consumer: string, idleMs: nat, id: StreamId)
    requires WellFormed(start) && Interference(kept, start, before) && LeftAlone(alone, start, before)
    requires Interference(kept, before, mid) && LeftAlone(alone, before, mid) && id in before.stream
    ensures
      var (next, ok) := Xclaim(mid, consumer, idleMs, id);
      && Evolves(start, next) && Spared(alone, {id}, start, next)
      && (forall x | x in kept && x in start.pel && x != id :: x in next.pel)
      && (id in alone && Grantable(start, id, idleMs) ==> ok && before.stream[id] == start.stream[id])
      && (ok ==> Genuine(next, Message(id, before.stream[id])))
      && (ok ==> id in mid.pel && mid.now - mid.pel[id].since >= idleMs)
  {
    EvolvesTransitive(start, before, mid);
    XclaimEvolves(mid, consumer, idleMs, id);
    EvolvesTransitive(start, mid, Xclaim(mid, consumer, idleMs, id).0);
  }

  lemma ClaimAlone(r: Redis, consumer: string, idleMs: nat, row: Row)
    ensures Lists(r, row) && row.idle >= idleMs && row.messageId in r.stream ==>
              Xclaim(r, consumer, idleMs, row.messageId)
              == (r.(pel := r.pel[row.messageId := Pending(consumer, r.now)]), true)
  {
  }

  class AsyncMessageProcessor {
    const redis: RedisClient
    const idleMs: nat

    constructor (redis: RedisClient, idleMs: nat)
      ensures this.redis == redis && this.idleMs == idleMs
    {
      this.redis := redis;
      this.idleMs := idleMs;
    }

    /** One row of a page: skip it when fresh, fetch the payload, try to claim.
        An entry that nobody else touches is claimed if it is stale and has a
        payload. */
    method ClaimRow(consumer: string, row: Row) returns (got: seq<Message>)
      requires WellFormed(redis.st)
      modifies redis
      ensures Evolves(old(redis.st), redis.st)
      ensures redis.listed == old(redis.listed) && redis.seen == old(redis.seen)
      ensures forall id | id in redis.kept && id in old(redis.st.pel) && id != row.messageId :: id in redis.st.pel
      ensures Spared(redis.alone, {row.messageId}, old(redis.st), redis.st)
      ensures redis.granted == old(redis.granted) + MessageIds(got)
      ensures GrantedIdle(old(redis.idles), redis.idles, |got|, idleMs)
      ensures |got| <= 1
      ensures forall m | m in got :: m.messageId == row.messageId && row.idle >= idleMs && Genuine(redis.st, m)
      ensures row.messageId in redis.alone && Grantable(old(redis.st), row.messageId, idleMs) && row.idle >= idleMs ==>
                got == [Message(row.messageId, old(redis.st).stream[row.messageId])]
      ensures !redis.contended && Lists(old(redis.st), row) ==>
                var r := old(redis.st);
                if Grantable(r, row.messageId, idleMs)
                then got == [Message(row.messageId, r.stream[row.messageId])]
                     && redis.st == r.(pel := r.pel[row.messageId := Pending(consumer, r.now)])
                else got == [] && redis.st == r
    {
      hide Evolves, Spared, LeftAlone, Genuine, Xclaim;
      ghost var start := redis.st;
      got := [];
      assert MessageIds(got) == [];
      Untouched(redis.alone, start, row.messageId);
      if row.idle < idleMs {
        return;
      }
      var fields := redis.FetchFields(row.messageId);
      ghost var before := redis.st;
      Fetched(redis.alone, start, before, row.messageId, idleMs);
      if fields == None {
        return;
      }
      var justids;
      ghost var mid;
      justids, mid := redis.Claim(consumer, idleMs, row.messageId);
      ClaimOutcome(redis.kept, redis.alone, start, before, mid, consumer, idleMs, row.messageId);
      got := seq(|justids|, i requires 0 <= i < |justids| => Message(justids[i], fields.value));
      assert MessageIds(got) == justids;
      ClaimAlone(start, consumer, idleMs, row);
    }

    /** One page. */
    method ClaimRows(consumer: string, rows: seq<Row>) returns (claimed: seq<Message>)
      requires WellFormed(redis.st) && Ascending(RowIds(rows))
      modifies redis
      ensures redis.listed == old(redis.listed) && redis.seen == old(redis.seen)
      ensures redis.granted == old(redis.granted) + MessageIds(claimed)
      ensures GrantedIdle(old(redis.idles), redis.idles, |claimed|, idleMs)
      ensures Framed(redis.kept, rows, old(redis.st), redis.st)
      ensures Spared(redis.alone, IdsOf(rows), old(redis.st), redis.st)
      ensures Yielded(redis.st, rows, idleMs, claimed)
      ensures (forall row | row in rows :: ListedStale(old(redis.st), idleMs, row)) ==>
                Taken(redis.alone, idleMs, rows, old(redis.st), claimed)
      ensures !redis.contended && (forall row | row in rows :: Lists(old(redis.st), row)) ==>
                Undisturbed(old(redis.st), rows, idleMs, consumer, claimed, redis.st)
    {
      hide Taken, ListedStale, Spared, Yielded, Undisturbed;
      claimed := [];
      ghost var start := redis.st;
      NoRowsYet(redis.alone, start, idleMs, consumer);
      for k := 0 to |rows|
        invariant redis.listed == old(redis.listed) && redis.seen == old(redis.seen)
        invariant redis.granted == old(redis.granted) + MessageIds(claimed)
        invariant GrantedIdle(old(redis.idles), redis.idles, |claimed|, idleMs)
        invariant Framed(redis.kept, rows, start, redis.st)
        invariant Spared(redis.alone, IdsOf(rows[..k]), start, redis.st)
        invariant Yielded(redis.st, rows[..k], idleMs, claimed)
        invariant (forall row | row in rows :: ListedStale(start, idleMs, row)) ==>
                    Taken(redis.alone, idleMs, rows[..k], start, claimed)
        invariant !redis.contended && (forall row | row in rows :: Lists(start, row)) ==>
                    Undisturbed(start, rows[..k], idleMs, consumer, claimed, redis.st)
      {
        ghost var before, had, idles := redis.st, claimed, redis.idles;
        var got := ClaimRow(consumer, rows[k]);
        GrantedIdleMore(old(redis.idles), idles, redis.idles, |had|, |got|, idleMs);
        claimed := claimed + got;
        assert MessageIds(claimed) == MessageIds(had) + MessageIds(got);
        FramedStep(redis.kept, rows, k, start, before, redis.st);
        YieldedStep(before, redis.st, rows, k, idleMs, had, got);
        SparedStep(redis.alone, rows, k, start, before, redis.st);
        if forall row | row in rows :: ListedStale(start, idleMs, row) {
          TakenStep(redis.alone, rows, k, idleMs, start, before, had, got);
        }
        if !redis.contended && (forall row | row in rows :: Lists(start, row)) {
          UndisturbedStep(start, before, redis.st, rows, k, idleMs, consumer, had, got);
        }
      }
      assert rows[..|rows|] == rows;
    }

    /** One round of the sweep: list a page from `cursor` and claim its rows. */
    method ClaimPage(consumer: string, cursor: Cursor, ghost w: Sweep, ghost rows: seq<Row>, ghost had: seq<Message>)
      returns (detailed: seq<Row>, got: seq<Message>)
      requires w == Sweep(redis.kept, redis.alone, redis.contended, w.start, idleMs, consumer)
      requires SweepInv(w, rows, cursor, had, redis.st, redis.seen)
      requires |rows| + PEL_BATCH_SIZE <= MOST_ROWS
      modifies redis
      ensures redis.listed == old(redis.listed) + detailed
      ensures redis.granted == old(redis.granted) + MessageIds(got)
      ensures GrantedIdle(old(redis.idles), redis.idles, |got|, idleMs)
      ensures |detailed| <= PEL_BATCH_SIZE
      ensures |detailed| < PEL_BATCH_SIZE ==> SweepEnd(w, rows + detailed, had + got, redis.st, redis.seen)
      ensures |detailed| == PEL_BATCH_SIZE ==>
                var next := From(Next(detailed[|detailed| - 1].messageId));
                next != cursor && SweepInv(w, rows + detailed, next, had + got, redis.st, redis.seen)
    {
      hide SweepInv, SweepEnd, XpendingRange, Yielded, Undisturbed;
      SweepWellFormed(w, rows, cursor, had, redis.st, redis.seen);
      ghost var before, seen := redis.st, redis.seen;
      detailed := redis.ListPending(cursor, PEL_BATCH_SIZE);
      ghost var mid := redis.st;
      PageRows(w, mid, cursor, detailed);
      got := ClaimRows(consumer, detailed);
      if |detailed| < PEL_BATCH_SIZE {
        LastPage(w, before, mid, redis.st, rows, detailed, cursor, had, got, seen);
      } else {
        FullPage(w, before, mid, redis.st, rows, detailed, cursor, had, got, seen);
      }
    }

    /** The whole sweep. `rows` are the lines XPENDING returned to it; see
        `SweepEnd` for what is guaranteed about them and the result. */
    method ClaimPending(consumer: string) returns (claimed: seq<Message>, ghost rows: seq<Row>)
      requires WellFormed(redis.st)
      modifies redis
      ensures redis.listed == old(redis.listed) + rows
      ensures redis.granted == old(redis.granted) + MessageIds(claimed)
      ensures GrantedIdle(old(redis.idles), redis.idles, |claimed|, idleMs)
      ensures SweepEnd(Sweep(redis.kept, redis.alone, redis.contended, old(redis.st), idleMs, consumer),
                       rows, claimed, redis.st, redis.seen)
    {
      hide SweepInv, SweepEnd;
      claimed, rows := [], [];
      redis.seen := {};
      ghost var w := Sweep(redis.kept, redis.alone, redis.contended, redis.st, idleMs, consumer);
      var pending := redis.XpendingSummary();
      EmptySweep(w, redis.st, redis.seen);
      if pending == 0 {
        return;
      }
      var cursor := Start;
      for round := 0 to PEL_PAGINATION_MAX_BATCHES
        invariant redis.listed == old(redis.listed) + rows
        invariant |rows| == PEL_BATCH_SIZE * round
        invariant redis.granted == old(redis.granted) + MessageIds(claimed)
        invariant GrantedIdle(old(redis.idles), redis.idles, |claimed|, idleMs)
        invariant SweepInv(w, rows, cursor, claimed, redis.st, redis.seen)
      {
        ghost var idles := redis.idles;
        var detailed, got := ClaimPage(consumer, cursor, w, rows, claimed);
        GrantedIdleMore(old(redis.idles), idles, redis.idles, |claimed|, |got|, idleMs);
        ConcatAssoc(old(redis.listed), rows, detailed);
        ConcatAssoc(old(redis.granted), MessageIds(claimed), MessageIds(got));
        MessageIdsConcat(claimed, got);
        claimed, rows := claimed + got, rows + detailed;
        if |detailed| < PEL_BATCH_SIZE {   // covers the empty page
          return;
        }
        var nextCursor := From(Next(detailed[|detailed| - 1].messageId));
        assert nextCursor != cursor;   // so the guard below is never taken
        if nextCursor == cursor {
          return;
        }
        cursor := nextCursor;
      }
      CapEnd(w, redis.st, rows, cursor, claimed, redis.seen);
    }
  }

  lemma NoRowsYet(alone: set<StreamId>, r: Redis, idleMs: nat, consumer: string)
    requires WellFormed(r)
    ensures Spared(alone, IdsOf([]), r, r)
    ensures Yielded(r, [], idleMs, []) && Taken(alone, idleMs, [], r, []) && MessageIds([]) == []
    ensures Undisturbed(r, [], idleMs, consumer, [], r)
  {
    assert Reassigned(r, [], consumer).pel == r.pel;
  }

  lemma SparedStep(alone: set<StreamId>, rows: seq<Row>, k: nat, a: Redis, b: Redis, c: Redis)
    requires k < |rows| && Spared(alone, IdsOf(rows[..k]), a, b) && Spared(alone, {rows[k].messageId}, b, c)
    ensures Spared(alone, IdsOf(rows[..k + 1]), a, c)
  {
    assert rows[..k + 1] == rows[..k] + [rows[k]];
    assert forall row | row in rows[..k] :: row in rows[..k + 1];
    assert rows[k] in rows[..k + 1];
    assert IdsOf(rows[..k]) + {rows[k].messageId} <= IdsOf(rows[..k + 1]);
  }

  lemma TakenStep(alone: set<StreamId>, rows: seq<Row>, k: nat, idleMs: nat, a: Redis, b: Redis,
                  had: seq<Message>, got: seq<Message>)
    requires k < |rows| && Ascending(RowIds(rows)) && ListedStale(a, idleMs, rows[k])
    requires Spared(alone, IdsOf(rows[..k]), a, b) && Evolves(a, b)
    requires Taken(alone, idleMs, rows[..k], a, had)
    requires rows[k].messageId in alone && Grantable(b, rows[k].messageId, idleMs) && rows[k].idle >= idleMs ==>
               got == [Message(rows[k].messageId, b.stream[rows[k].messageId])]
    ensures Taken(alone, idleMs, rows[..k + 1], a, had + got)
  {
    var id := rows[k].messageId;
    assert id !in IdsOf(rows[..k]) by {
      forall i | 0 <= i < k ensures rows[i].messageId != id {
        assert Less(RowIds(rows)[i], RowIds(rows)[k]);
      }
    }
    forall row | row in rows[..k + 1] && row.messageId in alone && row.idle >= idleMs && row.messageId in a.stream
      ensures Message(row.messageId, a.stream[row.messageId]) in had + got
    {
      if row in rows[..k] {
        assert Message(row.messageId, a.stream[row.messageId]) in had;
      } else {
        assert row == rows[k];
        assert Message(id, a.stream[id]) in got;
      }
    }
  }

  lemma ConcatAssoc<T>(a: seq<T>, b: seq<T>, c: seq<T>)
    ensures (a + b) + c == a + (b + c)
  {
  }

  lemma MessageIdsConcat(a: seq<Message>, b: seq<Message>)
    ensures MessageIds(a + b) == MessageIds(a) + MessageIds(b)
  {
  }

  lemma RowIdsConcat(a: seq<Row>, b: seq<Row>)
    ensures RowIds(a + b) == RowIds(a) + RowIds(b)
  {
  }

  /** The circumstances of one sweep: what is kept and what is left alone,
      whether others act, the
      state it began in, and its arguments. */
  datatype Sweep = Sweep(kept: set<StreamId>, alone: set<StreamId>, contended: bool, start: Redis, idleMs: nat,
                         consumer: string)

  const MOST_ROWS: nat := PEL_BATCH_SIZE * PEL_PAGINATION_MAX_BATCHES

  /** The guarantee of a finished sweep that listed `rows`. */
  ghost predicate SweepEnd(w: Sweep, rows: seq<Row>, claimed: seq<Message>, r: Redis, seen: set<StreamId>) {
    // no entry is visited twice, and the visits go upwards
    && Ascending(RowIds(rows))
    // an entry that nobody else acknowledges is visited, unless the cap on pages is used up
    && (Covers(w.kept, w.start, rows) || |rows| == MOST_ROWS)
    // what is returned comes from stale rows, in order, with the stored payload
    && Yielded(r, rows, w.idleMs, claimed)
    // of the entries nobody else touches, every one shown as stale is returned if
    // its payload is there at the end, and every visited one that was stale at the start
    && Taken(w.alone, w.idleMs, rows, r, claimed)
    && (forall id | id in w.alone && Grantable(w.start, id, w.idleMs) && id in RowIds(rows) ::
          Message(id, w.start.stream[id]) in claimed)
    // when the membership of the list does not change, the visits are exactly the list
    && (seen <= w.start.pel.Keys <= w.kept && |w.start.pel| <= MOST_ROWS ==>
          RowIds(rows) == Enumerate(w.start.pel.Keys))
    // when nothing else happens at all, exactly the stale entries are taken over
    && (!w.contended ==>
          && RowIds(rows) == Truncated(Enumerate(w.start.pel.Keys))
          && Undisturbed(w.start, rows, w.idleMs, w.consumer, claimed, r))
  }

  /** What holds between two pages. */
  ghost predicate SweepInv(w: Sweep, rows: seq<Row>, cursor: Cursor, claimed: seq<Message>, r: Redis, seen: set<StreamId>) {
    && WellFormed(w.start)
    && Sweeping(w.kept, w.start, rows, cursor, r)
    && Yielded(r, rows, w.idleMs, claimed)
    && Unharmed(w, rows, r, claimed)
    && (forall row | row in rows :: row.messageId in seen)
    && (!w.contended ==>
          && Undisturbed(w.start, rows, w.idleMs, w.consumer, claimed, r)
          && RowIds(rows) + PendingFrom(w.start, cursor) == Enumerate(w.start.pel.Keys))
  }

  lemma SweepWellFormed(w: Sweep, rows: seq<Row>, cursor: Cursor, claimed: seq<Message>, r: Redis, seen: set<StreamId>)
    requires SweepInv(w, rows, cursor, claimed, r, seen)
    ensures WellFormed(r)
  {
  }

  /** The entries nobody else touches: not yet visited, they are as at the
      start; visited, they showed at least the idle time they had then, and were
      taken if that was enough. */
  ghost predicate Unharmed(w: Sweep, rows: seq<Row>, r: Redis, claimed: seq<Message>) {
    && Spared(w.alone, IdsOf(rows), w.start, r)
    && Taken(w.alone, w.idleMs, rows, r, claimed)
    && (forall row | row in rows && row.messageId in w.alone && row.messageId in w.start.pel ::
          row.idle >= w.start.now - w.start.pel[row.messageId].since)
    && (forall row | row in rows :: Leq(row.messageId, r.top))
  }

  /** Payloads do not come back: what was taken by an earlier state's payloads
      was taken by the later ones'. */
  lemma TakenLater(alone: set<StreamId>, idleMs: nat, rows: seq<Row>, a: Redis, b: Redis, claimed: seq<Message>)
    requires Taken(alone, idleMs, rows, a, claimed) && Evolves(a, b)
    requires forall row | row in rows :: Leq(row.messageId, a.top)
    ensures Taken(alone, idleMs, rows, b, claimed)
  {
    forall row | row in rows && row.messageId in alone && row.idle >= idleMs && row.messageId in b.stream
      ensures Message(row.messageId, b.stream[row.messageId]) in claimed
    {
      assert row.messageId !in a.stream ==> Less(a.top, row.messageId);
      assert Message(row.messageId, a.stream[row.messageId]) in claimed;
    }
  }

  lemma TakenConcat(alone: set<StreamId>, idleMs: nat, rows: seq<Row>, page: seq<Row>, r: Redis,
                    had: seq<Message>, got: seq<Message>)
    requires Taken(alone, idleMs, rows, r, had) && Taken(alone, idleMs, page, r, got)
    ensures Taken(alone, idleMs, rows + page, r, had + got)
  {
  }

  lemma IdsOfConcat(a: seq<Row>, b: seq<Row>)
    ensures IdsOf(a + b) == IdsOf(a) + IdsOf(b)
  {
    assert forall row :: row in a + b <==> row in a || row in b;
  }

  lemma UnharmedPage(w: Sweep, before: Redis, mid: Redis, after: Redis, rows: seq<Row>, page: seq<Row>,
                     had: seq<Message>, got: seq<Message>)
    requires Unharmed(w, rows, before, had) && WellFormed(before) && WellFormed(mid) && w.start.now <= mid.now
    requires Evolves(before, mid) && LeftAlone(w.alone, before, mid) && Evolves(mid, after)
    requires forall row | row in page :: Lists(mid, row) && row.messageId !in IdsOf(rows)
    requires Spared(w.alone, IdsOf(page), mid, after) && Taken(w.alone, w.idleMs, page, mid, got)
    ensures Unharmed(w, rows + page, after, had + got)
  {
    EvolvesTransitive(before, mid, after);
    IdsOfConcat(rows, page);
    TakenLater(w.alone, w.idleMs, rows, before, after, had);
    TakenLater(w.alone, w.idleMs, page, mid, after, got);
    TakenConcat(w.alone, w.idleMs, rows, page, after, had, got);
    forall row | row in page && row.messageId in w.alone && row.messageId in w.start.pel
      ensures row.idle >= w.start.now - w.start.pel[row.messageId].since
    {
      assert mid.pel[row.messageId] == w.start.pel[row.messageId];
    }
  }

  /** Every visited entry that was stale at the start, and that nobody else
      touched, was taken over. */
  lemma UnharmedEnd(w: Sweep, rows: seq<Row>, r: Redis, claimed: seq<Message>)
    requires Unharmed(w, rows, r, claimed) && Evolves(w.start, r)
    ensures forall id | id in w.alone && Grantable(w.start, id, w.idleMs) && id in RowIds(rows) ::
              Message(id, w.start.stream[id]) in claimed
  {
    forall id | id in w.alone && Grantable(w.start, id, w.idleMs) && id in RowIds(rows)
      ensures Message(id, w.start.stream[id]) in claimed
    {
      var i :| 0 <= i < |rows| && RowIds(rows)[i] == id;
      assert rows[i] in rows && rows[i].messageId == id;
    }
  }

  /** The kept entries of the starting list were all visited. */
  ghost predicate Covers(kept: set<StreamId>, start: Redis, rows: seq<Row>) {
    forall id | id in kept && id in start.pel :: id in RowIds(rows)
  }

  function Truncated(ids: seq<StreamId>): seq<StreamId> {
    if |ids| <= MOST_ROWS then ids else ids[..MOST_ROWS]
  }

  /** What holds between two pages: everything kept below the cursor has been
      visited, everything kept above it is still pending. */
  ghost predicate Sweeping(kept: set<StreamId>, start: Redis, rows: seq<Row>, cursor: Cursor, r: Redis) {
    && Evolves(start, r)
    && Ascending(RowIds(rows))
    && (forall row | row in rows :: !AtOrAfter(cursor, row.messageId))
    && (forall id | id in kept && id in start.pel :: id in RowIds(rows) || (id in r.pel && AtOrAfter(cursor, id)))
  }

  lemma EmptySweep(w: Sweep, r: Redis, seen: set<StreamId>)
    requires WellFormed(w.start) && Interference(w.kept, w.start, r) && (!w.contended ==> w.start == r)
    requires LeftAlone(w.alone, w.start, r)
    ensures RowIds([]) == [] && MessageIds([]) == []
    ensures SweepInv(w, [], Start, [], r, seen)
    ensures |r.pel| == 0 ==> SweepEnd(w, [], [], r, seen)
  {
    hide Undisturbed, Taken, Spared, Yielded, Interference, LeftAlone;
    EmptyStart(w, r);
    FixedMembershipEmpty(w, r);
    EnumerateFromStart(w.start);
  }

  lemma EnumerateFromStart(r: Redis)
    ensures PendingFrom(r, Start) == Enumerate(r.pel.Keys)
    ensures |r.pel| == 0 ==> Enumerate(r.pel.Keys) == []
  {
    assert (set id | id in r.pel && AtOrAfter(Start, id)) == r.pel.Keys;
    assert |r.pel| == |r.pel.Keys|;
  }

  lemma EmptyStart(w: Sweep, r: Redis)
    requires WellFormed(w.start) && Interference(w.kept, w.start, r) && LeftAlone(w.alone, w.start, r)
    ensures RowIds([]) == [] && MessageIds([]) == [] && Yielded(r, [], w.idleMs, [])
    ensures Unharmed(w, [], r, []) && Sweeping(w.kept, w.start, [], Start, r)
    ensures |r.pel| == 0 ==> Covers(w.kept, w.start, [])
    ensures w.start == r ==> Undisturbed(r, [], w.idleMs, w.consumer, [], r)
  {
    assert Reassigned(r, [], w.consumer).pel == r.pel;
    assert |r.pel| == |r.pel.Keys|;
  }

  lemma FixedMembershipEmpty(w: Sweep, r: Redis)
    requires Interference(w.kept, w.start, r)
    ensures |r.pel| == 0 && w.start.pel.Keys <= w.kept ==> Enumerate(w.start.pel.Keys) == []
  {
    if |r.pel| == 0 && w.start.pel.Keys <= w.kept {
      assert forall id | id in w.start.pel :: id in r.pel;
      assert |r.pel| == |r.pel.Keys|;
      assert w.start.pel.Keys == {};
    }
  }

  /** The page is the beginning of what is pending from the cursor on. */
  lemma PageIds(r: Redis, cursor: Cursor, page: seq<Row>)
    requires page == XpendingRange(r, cursor, PEL_BATCH_SIZE)
    ensures FirstPending(r, cursor, page) && Ascending(RowIds(page))
    ensures forall row | row in page :: Lists(r, row) && AtOrAfter(cursor, row.messageId)
  {
    var ids := PendingFrom(r, cursor);
    var most := if |ids| <= PEL_BATCH_SIZE then ids else ids[..PEL_BATCH_SIZE];
    assert page == Rows(r, most);
    assert RowIds(page) == most;
    assert most == ids[..|page|];
    forall row | row in page ensures Lists(r, row) && AtOrAfter(cursor, row.messageId) {
      var i :| 0 <= i < |page| && page[i] == row;
      assert ids[i] in ids;
    }
    AscendingPrefix(ids, |page|);
  }

  lemma AscendingPrefix(ids: seq<StreamId>, n: nat)
    requires Ascending(ids) && n <= |ids|
    ensures Ascending(ids[..n])
  {
    forall i, j | 0 <= i < j < n ensures Less(ids[..n][i], ids[..n][j]) {
      assert Less(ids[i], ids[j]);
    }
  }

  lemma AscendingSplit(ids: seq<StreamId>, n: nat, id: StreamId)
    requires Ascending(ids) && 0 < n <= |ids|
    ensures id in ids[n..] <==> id in ids && Less(ids[n - 1], id)
  {
    if id in ids[n..] {
      var i :| 0 <= i < |ids| - n && ids[n..][i] == id;
      assert Less(ids[n - 1], ids[n + i]);
    }
    if id in ids && Less(ids[n - 1], id) {
      var i :| 0 <= i < |ids| && ids[i] == id;
      assert i < n - 1 ==> Less(ids[i], ids[n - 1]);
      assert ids[n..][i - n] == id;
    }
  }

  /** Moving the cursor past a visited prefix leaves exactly the rest. */
  lemma Advance(r: Redis, cursor: Cursor, n: nat)
    requires 0 < n <= |PendingFrom(r, cursor)|
    ensures PendingFrom(r, From(Next(PendingFrom(r, cursor)[n - 1]))) == PendingFrom(r, cursor)[n..]
  {
    var ids := PendingFrom(r, cursor);
    var last := ids[n - 1];
    assert last in ids;
    var rest := PendingFrom(r, From(Next(last)));
    NextIsSuccessor(last);
    forall id ensures id in rest <==> id in ids[n..] {
      AscendingSplit(ids, n, id);
      assert Less(last, id) <==> Leq(Next(last), id);
    }
    AscendingUnique(rest, ids[n..]);
  }

  lemma AscendingConcat(a: seq<Row>, b: seq<Row>, cursor: Cursor)
    requires Ascending(RowIds(a)) && Ascending(RowIds(b))
    requires forall row | row in a :: !AtOrAfter(cursor, row.messageId)
    requires forall row | row in b :: AtOrAfter(cursor, row.messageId)
    ensures RowIds(a + b) == RowIds(a) + RowIds(b)
    ensures Ascending(RowIds(a + b))
  {
    var ids := RowIds(a + b);
    forall i, j | 0 <= i < j < |ids| ensures Less(ids[i], ids[j]) {
      if j < |a| { assert Less(RowIds(a)[i], RowIds(a)[j]); }
      else if i < |a| { assert a[i] in a && b[j - |a|] in b; }
      else { assert Less(RowIds(b)[i - |a|], RowIds(b)[j - |a|]); }
    }
  }

  /** What a page shows of the pending list of `r` from the cursor on: its rows
      are there, and a pending entry it does not show lies past a full page. */
  ghost predicate Shows(r: Redis, cursor: Cursor, page: seq<Row>) {
    && |page| <= PEL_BATCH_SIZE
    && FirstPending(r, cursor, page)
    && Ascending(RowIds(page))
    && (forall row | row in page :: Lists(r, row) && AtOrAfter(cursor, row.messageId))
    && (forall id | id in r.pel && AtOrAfter(cursor, id) && id !in RowIds(page) :: PastFullPage(page, id))
  }

  ghost predicate FirstPending(r: Redis, cursor: Cursor, page: seq<Row>) {
    var ids := PendingFrom(r, cursor);
    && |page| == (if |ids| <= PEL_BATCH_SIZE then |ids| else PEL_BATCH_SIZE)
    && RowIds(page) == ids[..|page|]
  }

  ghost predicate PastFullPage(page: seq<Row>, id: StreamId) {
    |page| == PEL_BATCH_SIZE && Leq(Next(page[|page| - 1].messageId), id)
  }

  lemma PageShows(r: Redis, cursor: Cursor, page: seq<Row>)
    requires page == XpendingRange(r, cursor, PEL_BATCH_SIZE)
    ensures Shows(r, cursor, page)
  {
    PageIds(r, cursor, page);
    var ids := PendingFrom(r, cursor);
    forall id | id in r.pel && AtOrAfter(cursor, id) && id !in RowIds(page) ensures PastFullPage(page, id) {
      assert id in ids;
      assert ids == ids[..|page|] + ids[|page|..];
      AscendingSplit(ids, |page|, id);
      NextIsSuccessor(ids[|page| - 1]);
    }
  }

  /** A page moves the sweep to the cursor past its last row. */
  lemma PageSwept(kept: set<StreamId>, start: Redis, before: Redis, mid: Redis, after: Redis,
                  rows: seq<Row>, page: seq<Row>, cursor: Cursor)
    requires WellFormed(start) && Sweeping(kept, start, rows, cursor, before) && page != []
    requires Interference(kept, before, mid) && Shows(mid, cursor, page)
    requires Framed(kept, page, mid, after)
    ensures Sweeping(kept, start, rows + page, From(Next(page[|page| - 1].messageId)), after)
    ensures From(Next(page[|page| - 1].messageId)) != cursor
  {
    EvolvesTransitive(start, before, mid);
    EvolvesTransitive(start, mid, after);
    AscendingConcat(rows, page, cursor);
    LastIsLargest(rows + page);
    assert (rows + page)[|rows + page| - 1] == page[|page| - 1];
    assert page[|page| - 1] in page;
    KeptPastPage(kept, start, before, mid, after, rows, page, cursor);
  }

  lemma KeptPastPage(kept: set<StreamId>, start: Redis, before: Redis, mid: Redis, after: Redis,
                     rows: seq<Row>, page: seq<Row>, cursor: Cursor)
    requires Sweeping(kept, start, rows, cursor, before) && page != []
    requires Interference(kept, before, mid) && Shows(mid, cursor, page)
    requires Framed(kept, page, mid, after)
    ensures forall id | id in kept && id in start.pel ::
              id in RowIds(rows + page) || (id in after.pel && Leq(Next(page[|page| - 1].messageId), id))
  {
    RowIdsConcat(rows, page);
    forall id | id in kept && id in start.pel && id !in RowIds(rows) && id !in RowIds(page)
      ensures id in after.pel && Leq(Next(page[|page| - 1].messageId), id)
    {
      assert PastFullPage(page, id);
    }
  }

  lemma LastIsLargest(rows: seq<Row>)
    requires Ascending(RowIds(rows)) && rows != []
    ensures forall row | row in rows :: !AtOrAfter(From(Next(rows[|rows| - 1].messageId)), row.messageId)
  {
    var last := rows[|rows| - 1].messageId;
    forall row | row in rows ensures !Leq(Next(last), row.messageId) {
      var i :| 0 <= i < |rows| && rows[i] == row;
      var ids := RowIds(rows);
      assert i < |ids| - 1 ==> Less(ids[i], ids[|ids| - 1]);
    }
  }

  /** A short page ends the sweep: nothing kept is left over. */
  lemma ShortPage(kept: set<StreamId>, start: Redis, before: Redis, mid: Redis,
                  rows: seq<Row>, page: seq<Row>, cursor: Cursor)
    requires Sweeping(kept, start, rows, cursor, before)
    requires Interference(kept, before, mid) && Shows(mid, cursor, page)
    requires |page| < PEL_BATCH_SIZE
    ensures Covers(kept, start, rows + page) && Ascending(RowIds(rows + page))
  {
    AscendingConcat(rows, page, cursor);
    forall id | id in kept && id in start.pel ensures id in RowIds(rows + page) {
      RowIdsConcat(rows, page);
      assert PastFullPage(page, id) ==> |page| == PEL_BATCH_SIZE;
    }
  }

  lemma PageYielded(before: Redis, after: Redis, rows: seq<Row>, page: seq<Row>, idleMs: nat,
                    had: seq<Message>, got: seq<Message>, cursor: Cursor)
    requires Yielded(before, rows, idleMs, had) && Yielded(after, page, idleMs, got) && Evolves(before, after)
    requires forall row | row in rows :: !AtOrAfter(cursor, row.messageId)
    requires forall row | row in page :: AtOrAfter(cursor, row.messageId)
    ensures Yielded(after, rows + page, idleMs, had + got)
  {
    forall m | m in had
      ensures !AtOrAfter(cursor, m.messageId) && FromStaleRow(rows + page, idleMs, m) && Genuine(after, m)
    {
      assert FromStaleRow(rows, idleMs, m) && Genuine(before, m);
      var i :| 0 <= i < |rows| && rows[i].messageId == m.messageId && rows[i].idle >= idleMs;
      assert (rows + page)[i] == rows[i] && rows[i] in rows;
    }
    forall m | m in got
      ensures AtOrAfter(cursor, m.messageId) && FromStaleRow(rows + page, idleMs, m)
    {
      assert FromStaleRow(page, idleMs, m);
      var i :| 0 <= i < |page| && page[i].messageId == m.messageId && page[i].idle >= idleMs;
      assert (rows + page)[|rows| + i] == page[i] && page[i] in page;
    }
    var ids := MessageIds(had + got);
    forall i, j | 0 <= i < j < |ids| ensures Less(ids[i], ids[j]) {
      if j < |had| { assert Less(MessageIds(had)[i], MessageIds(had)[j]); }
      else if i < |had| { assert had[i] in had && got[j - |had|] in got; }
      else { assert Less(MessageIds(got)[i - |had|], MessageIds(got)[j - |had|]); }
    }
  }

  lemma StaleConcat(r: Redis, idleMs: nat, a: seq<StreamId>, b: seq<StreamId>)
    ensures Stale(r, idleMs, a + b) == Stale(r, idleMs, a) + Stale(r, idleMs, b)
  {
    if b == [] {
      assert a + b == a;
    } else {
      var b' := b[..|b| - 1];
      assert (a + b)[..|a + b| - 1] == a + b';
      StaleConcat(r, idleMs, a, b');
    }
  }

  lemma StaleSame(r: Redis, s: Redis, idleMs: nat, ids: seq<StreamId>)
    requires forall id | id in ids :: Grantable(r, id, idleMs) <==> Grantable(s, id, idleMs)
    requires r.stream == s.stream
    ensures Stale(r, idleMs, ids) == Stale(s, idleMs, ids)
  {
    if ids != [] {
      assert ids[|ids| - 1] in ids;
      StaleSame(r, s, idleMs, ids[..|ids| - 1]);
    }
  }

  lemma UndisturbedConcat(start: Redis, mid: Redis, after: Redis, rows: seq<Row>, page: seq<Row>,
                          idleMs: nat, consumer: string, had: seq<Message>, got: seq<Message>)
    requires Undisturbed(start, rows, idleMs, consumer, had, mid)
    requires Undisturbed(mid, page, idleMs, consumer, got, after)
    requires forall id | id in RowIds(page) :: id !in RowIds(rows)
    ensures Undisturbed(start, rows + page, idleMs, consumer, had + got, after)
  {
    RowIdsConcat(rows, page);
    forall id | id in RowIds(page) ensures Grantable(mid, id, idleMs) <==> Grantable(start, id, idleMs) {
      assert id !in MessageIds(had) by {
        forall m | m in had ensures m.messageId != id {
          assert m.messageId in RowIds(rows);
        }
      }
    }
    StaleSame(mid, start, idleMs, RowIds(page));
    StaleConcat(start, idleMs, RowIds(rows), RowIds(page));
    MessageIdsConcat(had, got);
    var all := Reassigned(start, MessageIds(had + got), consumer);
    assert all.pel.Keys == after.pel.Keys;
    assert forall x | x in after.pel :: all.pel[x] == after.pel[x];
    assert all.pel == after.pel;
  }

  lemma ConcatPrefix<T>(a: seq<T>, b: seq<T>, n: nat)
    requires n <= |b|
    ensures (a + b[..n]) + b[n..] == a + b
    ensures n == |b| ==> a + b[..n] == a + b
  {
  }

  lemma SamePending(a: Redis, b: Redis, cursor: Cursor)
    requires a.pel.Keys == b.pel.Keys
    ensures PendingFrom(a, cursor) == PendingFrom(b, cursor)
  {
    AscendingUnique(PendingFrom(a, cursor), PendingFrom(b, cursor));
  }

  lemma BelowDisjoint(rows: seq<Row>, page: seq<Row>, cursor: Cursor)
    requires forall row | row in rows :: !AtOrAfter(cursor, row.messageId)
    requires forall row | row in page :: AtOrAfter(cursor, row.messageId)
    ensures forall id | id in RowIds(page) :: id !in RowIds(rows)
  {
    forall i, j | 0 <= i < |rows| && 0 <= j < |page| ensures RowIds(rows)[i] != RowIds(page)[j] {
      assert rows[i] in rows && page[j] in page;
    }
  }

  lemma PageUndisturbed(start: Redis, mid: Redis, rows: seq<Row>, page: seq<Row>, cursor: Cursor)
    requires mid.pel.Keys == start.pel.Keys
    requires forall row | row in rows :: !AtOrAfter(cursor, row.messageId)
    requires Shows(mid, cursor, page)
    requires RowIds(rows) + PendingFrom(start, cursor) == Enumerate(start.pel.Keys)
    ensures forall id | id in RowIds(page) :: id !in RowIds(rows)
    ensures |page| < PEL_BATCH_SIZE ==> RowIds(rows + page) == Enumerate(start.pel.Keys)
    ensures page != [] ==>
      RowIds(rows + page) + PendingFrom(start, From(Next(page[|page| - 1].messageId))) == Enumerate(start.pel.Keys)
  {
    SamePending(mid, start, cursor);
    BelowDisjoint(rows, page, cursor);
    RowIdsConcat(rows, page);
    ConcatPrefix(RowIds(rows), PendingFrom(start, cursor), |page|);
    if page != [] {
      RestPending(start, cursor, page);
    }
  }

  lemma RestPending(r: Redis, cursor: Cursor, page: seq<Row>)
    requires FirstPending(r, cursor, page) && page != []
    ensures PendingFrom(r, From(Next(page[|page| - 1].messageId))) == PendingFrom(r, cursor)[|page|..]
  {
    hide PendingFrom, Ascending, AtOrAfter, Next;
    Advance(r, cursor, |page|);
    assert page[|page| - 1].messageId == RowIds(page)[|page| - 1];
  }

  lemma PageRows(w: Sweep, r: Redis, cursor: Cursor, page: seq<Row>)
    requires page == XpendingRange(r, cursor, PEL_BATCH_SIZE)
    ensures Shows(r, cursor, page)
    ensures WellFormed(r) && page == [] ==> PageTaken(w, r, r, page, [])
    ensures forall row | row in page :: ListedStale(r, w.idleMs, row)
  {
    PageShows(r, cursor, page);
    assert Reassigned(r, [], w.consumer).pel == r.pel;
    assert MessageIds([]) == [] && RowIds([]) == [];
  }

  /** What claiming the rows of a page guarantees. */
  ghost predicate PageTaken(w: Sweep, mid: Redis, after: Redis, page: seq<Row>, got: seq<Message>) {
    && Framed(w.kept, page, mid, after)
    && Spared(w.alone, IdsOf(page), mid, after) && Taken(w.alone, w.idleMs, page, mid, got)
    && Yielded(after, page, w.idleMs, got)
    && (!w.contended ==> Undisturbed(mid, page, w.idleMs, w.consumer, got, after))
  }

  lemma RowIdsOf(rows: seq<Row>)
    ensures forall row | row in rows :: row.messageId in RowIds(rows)
    ensures forall id :: id in IdsOf(rows) <==> id in RowIds(rows)
  {
    forall row | row in rows ensures row.messageId in RowIds(rows) {
      var i :| 0 <= i < |rows| && rows[i] == row;
      assert RowIds(rows)[i] == row.messageId;
    }
    forall id | id in RowIds(rows) ensures id in IdsOf(rows) {
      var i :| 0 <= i < |rows| && RowIds(rows)[i] == id;
      assert rows[i] in rows;
    }
  }

  /** What one page adds, whether or not it is the last. */
  lemma PageAdds(w: Sweep, before: Redis, mid: Redis, after: Redis, rows: seq<Row>, page: seq<Row>, cursor: Cursor,
                 had: seq<Message>, got: seq<Message>, seen: set<StreamId>)
    requires SweepInv(w, rows, cursor, had, before, seen)
    requires Interference(w.kept, before, mid) && LeftAlone(w.alone, before, mid) && (!w.contended ==> before == mid)
    requires Shows(mid, cursor, page) && PageTaken(w, mid, after, page, got)
    ensures Yielded(after, rows + page, w.idleMs, had + got)
    ensures Unharmed(w, rows + page, after, had + got) && Evolves(w.start, after)
    ensures forall row | row in rows + page :: row.messageId in seen + mid.pel.Keys
    ensures !w.contended ==> Undisturbed(w.start, rows + page, w.idleMs, w.consumer, had + got, after)
  {
    EvolvesTransitive(before, mid, after);
    EvolvesTransitive(w.start, before, after);
    PageYielded(before, after, rows, page, w.idleMs, had, got, cursor);
    RowIdsOf(rows);
    RowIdsOf(page);
    BelowDisjoint(rows, page, cursor);
    UnharmedPage(w, before, mid, after, rows, page, had, got);
    if !w.contended {
      UndisturbedConcat(w.start, mid, after, rows, page, w.idleMs, w.consumer, had, got);
    }
  }

  lemma UndisturbedKeys(start: Redis, rows: seq<Row>, idleMs: nat, consumer: string, claimed: seq<Message>, r: Redis)
    requires Undisturbed(start, rows, idleMs, consumer, claimed, r)
    ensures r.pel.Keys == start.pel.Keys
  {
  }

  /** A short page ends the sweep. */
  lemma LastPage(w: Sweep, before: Redis, mid: Redis, after: Redis, rows: seq<Row>, page: seq<Row>, cursor: Cursor,
                 had: seq<Message>, got: seq<Message>, seen: set<StreamId>)
    requires SweepInv(w, rows, cursor, had, before, seen) && |rows| + PEL_BATCH_SIZE <= MOST_ROWS
    requires Interference(w.kept, before, mid) && LeftAlone(w.alone, before, mid) && (!w.contended ==> before == mid)
    requires Shows(mid, cursor, page) && PageTaken(w, mid, after, page, got) && |page| < PEL_BATCH_SIZE
    ensures SweepEnd(w, rows + page, had + got, after, seen + mid.pel.Keys)
  {
    hide Yielded, Undisturbed, Interference, Shows, PageTaken, Covers, Ascending, AtOrAfter, PendingFrom, Taken, Spared;
    PageAdds(w, before, mid, after, rows, page, cursor, had, got, seen);
    UnharmedEnd(w, rows + page, after, had + got);
    ShortPage(w.kept, w.start, before, mid, rows, page, cursor);
    FixedMembership(w.kept, w.start, seen + mid.pel.Keys, rows + page);
    if !w.contended {
      UndisturbedKeys(w.start, rows, w.idleMs, w.consumer, had, before);
      PageUndisturbed(w.start, mid, rows, page, cursor);
    }
  }

  /** A full page leads to the next round. */
  lemma FullPage(w: Sweep, before: Redis, mid: Redis, after: Redis, rows: seq<Row>, page: seq<Row>, cursor: Cursor,
                 had: seq<Message>, got: seq<Message>, seen: set<StreamId>)
    requires SweepInv(w, rows, cursor, had, before, seen)
    requires Interference(w.kept, before, mid) && LeftAlone(w.alone, before, mid) && (!w.contended ==> before == mid)
    requires Shows(mid, cursor, page) && PageTaken(w, mid, after, page, got) && |page| == PEL_BATCH_SIZE
    ensures
      var next := From(Next(page[|page| - 1].messageId));
      next != cursor && SweepInv(w, rows + page, next, had + got, after, seen + mid.pel.Keys)
  {
    hide Yielded, Undisturbed, Interference, Shows, Framed, Ascending, AtOrAfter, PendingFrom, Next, Unharmed;
    PageAdds(w, before, mid, after, rows, page, cursor, had, got, seen);
    PageSwept(w.kept, w.start, before, mid, after, rows, page, cursor);
    if !w.contended {
      UndisturbedKeys(w.start, rows, w.idleMs, w.consumer, had, before);
      PageUndisturbed(w.start, mid, rows, page, cursor);
    }
  }

  lemma CapEnd(w: Sweep, r: Redis, rows: seq<Row>, cursor: Cursor, claimed: seq<Message>, seen: set<StreamId>)
    requires SweepInv(w, rows, cursor, claimed, r, seen) && |rows| == MOST_ROWS
    ensures SweepEnd(w, rows, claimed, r, seen)
  {
    FixedMembership(w.kept, w.start, seen, rows);
    UnharmedEnd(w, rows, r, claimed);
    if !w.contended {
      TruncatedPrefix(RowIds(rows), PendingFrom(w.start, cursor));
    }
  }

  lemma TruncatedPrefix(a: seq<StreamId>, b: seq<StreamId>)
    requires |a| == MOST_ROWS
    ensures Truncated(a + b) == a
  {
  }

  lemma FixedMembership(kept: set<StreamId>, start: Redis, seen: set<StreamId>, rows: seq<Row>)
    requires Ascending(RowIds(rows))
    requires forall row | row in rows :: row.messageId in seen
    requires Covers(kept, start, rows) || |rows| == MOST_ROWS
    ensures seen <= start.pel.Keys <= kept && |start.pel| <= MOST_ROWS ==>
              RowIds(rows) == Enumerate(start.pel.Keys)
  {
    var members := start.pel.Keys;
    if seen <= members <= kept && |start.pel| <= MOST_ROWS {
      var ids := RowIds(rows);
      forall id | id in ids ensures id in members {
        var i :| 0 <= i < |rows| && ids[i] == id;
        assert rows[i] in rows;
      }
      assert |members| == |start.pel|;
      AscendingCount(ids, members);
      AscendingUnique(ids, Enumerate(members));
    }
  }

  /** Distinct members, as many as the set has: then all of them. */
  lemma AscendingCount(ids: seq<StreamId>, members: set<StreamId>)
    requires Ascending(ids) && forall id | id in ids :: id in members
    ensures |ids| <= |members|
    ensures |ids| == |members| ==> forall id | id in members :: id in ids
  {
    if ids != [] {
      var last := ids[|ids| - 1];
      assert last in ids;
      var init := ids[..|ids| - 1];
      forall id | id in init ensures id in members - {last} {
        var i :| 0 <= i < |init| && init[i] == id;
        assert Less(ids[i], ids[|ids| - 1]);
        assert id in ids;
      }
      AscendingCount(init, members - {last});
      assert ids == init + [last];
    }
  }


  /** Claiming the rows left the kept entries outside of them pending. */
  ghost predicate Framed(kept: set<StreamId>, rows: seq<Row>, a: Redis, b: Redis) {
    && Evolves(a, b)
    && (forall id | id in kept && id in a.pel && id !in RowIds(rows) :: id in b.pel)
  }

  lemma FramedStep(kept: set<StreamId>, rows: seq<Row>, k: nat, a: Redis, b: Redis, c: Redis)
    requires WellFormed(a) && k < |rows| && Framed(kept, rows, a, b) && Evolves(b, c)
    requires forall id | id in kept && id in b.pel && id != rows[k].messageId :: id in c.pel
    ensures Framed(kept, rows, a, c)
  {
    EvolvesTransitive(a, b, c);
    assert RowIds(rows)[k] == rows[k].messageId;
  }

  /** The claimed messages: in ascending order, each from a row listed as
      stale, each with the payload stored under its id. */
  ghost predicate Yielded(r: Redis, rows: seq<Row>, idleMs: nat, claimed: seq<Message>) {
    && Ascending(MessageIds(claimed))
    && (forall m | m in claimed :: FromStaleRow(rows, idleMs, m) && Genuine(r, m))
  }

  lemma YieldedStep(b: Redis, c: Redis, rows: seq<Row>, k: nat, idleMs: nat, had: seq<Message>, got: seq<Message>)
    requires k < |rows| && Ascending(RowIds(rows)) && Evolves(b, c) && |got| <= 1
    requires Yielded(b, rows[..k], idleMs, had)
    requires forall m | m in got :: m.messageId == rows[k].messageId && rows[k].idle >= idleMs && Genuine(c, m)
    ensures Yielded(c, rows[..k + 1], idleMs, had + got)
  {
    forall m | m in had
      ensures Less(m.messageId, rows[k].messageId)
      ensures FromStaleRow(rows[..k + 1], idleMs, m) && Genuine(c, m)
    {
      assert FromStaleRow(rows[..k], idleMs, m) && Genuine(b, m);
      var i :| 0 <= i < k && rows[..k][i].messageId == m.messageId && rows[..k][i].idle >= idleMs;
      assert Less(RowIds(rows)[i], RowIds(rows)[k]);
      assert rows[..k + 1][i] == rows[i];
    }
    forall m | m in got ensures FromStaleRow(rows[..k + 1], idleMs, m) {
      assert rows[..k + 1][k] == rows[k];
    }
    var ids := MessageIds(had + got);
    forall i, j | 0 <= i < j < |ids| ensures Less(ids[i], ids[j]) {
      if j < |had| {
        assert Less(MessageIds(had)[i], MessageIds(had)[j]);
      } else {
        assert had[i] in had && got[0] in got;
      }
    }
  }

  /** Nothing else happened: exactly the stale entries were taken over. */
  ghost predicate Undisturbed(a: Redis, rows: seq<Row>, idleMs: nat, consumer: string, claimed: seq<Message>, b: Redis) {
    && claimed == Stale(a, idleMs, RowIds(rows))
    && b == Reassigned(a, MessageIds(claimed), consumer)
  }

  lemma UndisturbedStep(a: Redis, b: Redis, c: Redis, rows: seq<Row>, k: nat, idleMs: nat, consumer: string,
                        had: seq<Message>, got: seq<Message>)
    requires k < |rows| && Ascending(RowIds(rows)) && Lists(a, rows[k])
    requires Undisturbed(a, rows[..k], idleMs, consumer, had, b)
    requires Lists(b, rows[k]) ==>
      var id := rows[k].messageId;
      if Grantable(b, id, idleMs)
      then got == [Message(id, b.stream[id])] && c == b.(pel := b.pel[id := Pending(consumer, b.now)])
      else got == [] && c == b
    ensures Undisturbed(a, rows[..k + 1], idleMs, consumer, had + got, c)
  {
    var id := rows[k].messageId;
    assert id !in MessageIds(had) by {
      forall m | m in had ensures m.messageId != id {
        assert m.messageId in RowIds(rows[..k]);
        var i :| 0 <= i < k && RowIds(rows[..k])[i] == m.messageId;
        assert Less(RowIds(rows)[i], RowIds(rows)[k]);
      }
    }
    StaleStep(a, idleMs, rows, k);
    assert b.pel[id] == a.pel[id];
    if got != [] {
      ReassignStep(a, MessageIds(had), consumer, id);
      assert MessageIds(had + got) == MessageIds(had) + [id];
    } else {
      assert had + got == had;
    }
  }
}
