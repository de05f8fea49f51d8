/** The Redis stream commands the consumer relies on, as functions on one
    stream with one consumer group. Time is a natural number of milliseconds. */
module RedisServer {
  import opened Wrappers
  import opened StreamIds

  type Fields = map<string, string>

  datatype Message = Message(messageId: StreamId, fields: Fields)

  /** An entry of the pending-entries list: who holds it, since when. */
  datatype Pending = Pending(owner: string, since: nat)

  /** One line of an XPENDING range reply. */
  datatype Row = Row(messageId: StreamId, idle: int)

  datatype Redis = Redis(
    now: nat,
    stream: map<StreamId, Fields>,   // entries whose payload is still there
    top: StreamId,                   // largest id ever added
    group: Option<StreamId>,         // last-delivered id, once the group exists
    pel: map<StreamId, Pending>)

  /** The XPENDING range bound: "-" or an explicit id. */
  datatype Cursor = Start | From(id: StreamId)

  function RenderCursor(c: Cursor): string {
    if c.Start? then "-" else Render(c.id)
  }

  lemma RenderCursorInjective(a: Cursor, b: Cursor)
    requires RenderCursor(a) == RenderCursor(b)
    ensures a == b
  {
    if a.From? && b.From? { RenderInjective(a.id, b.id); }
    if a.From? { RenderSplits(a.id); }
    if b.From? { RenderSplits(b.id); }
  }

  predicate AtOrAfter(c: Cursor, id: StreamId) {
    c.From? ==> Leq(c.id, id)
  }

  function LastDelivered(r: Redis): StreamId {
    if r.group.Some? then r.group.value else ORIGIN
  }

  predicate WellFormed(r: Redis) {
    && (forall id | id in r.stream :: Less(ORIGIN, id) && Leq(id, r.top))
    && (r.group.None? ==> r.pel == map[])
    && Leq(LastDelivered(r), r.top)
    && (forall id | id in r.pel :: Less(ORIGIN, id) && Leq(id, LastDelivered(r)) && r.pel[id].since <= r.now)
  }

  function Xadd(r: Redis, id: StreamId, fields: Fields): Redis
    requires Less(r.top, id)
  {
    r.(stream := r.stream[id := fields], top := id)
  }

  /** XDEL, or the effect of trimming, on one entry. */
  function Xdel(r: Redis, id: StreamId): Redis {
    r.(stream := r.stream - {id})
  }

  /** XGROUP CREATE at id "0"; an existing group answers BUSYGROUP and stays
      as it is. */
  function XgroupCreate(r: Redis): Redis {
    if r.group.None? then r.(group := Some(ORIGIN)) else r
  }

  function Undelivered(r: Redis): set<StreamId> {
    set id | id in r.stream && Less(LastDelivered(r), id)
  }

  /** XREADGROUP ">" with COUNT 1 on an existing group. */
  function Xreadgroup(r: Redis, consumer: string): (Redis, seq<Message>)
    requires r.group.Some?
  {
    if Undelivered(r) == {} then (r, [])
    else
      var id := Least(Undelivered(r));
      (r.(group := Some(id), pel := r.pel[id := Pending(consumer, r.now)]), [Message(id, r.stream[id])])
  }

  /** The pending ids at or after `cursor`, smallest first. */
  function PendingFrom(r: Redis, cursor: Cursor): (ids: seq<StreamId>)
    ensures Ascending(ids)
    ensures forall id :: id in ids <==> id in r.pel && AtOrAfter(cursor, id)
  {
    Enumerate(set id | id in r.pel && AtOrAfter(cursor, id))
  }

  function Rows(r: Redis, ids: seq<StreamId>): (rows: seq<Row>)
    requires forall i | 0 <= i < |ids| :: ids[i] in r.pel
    ensures |rows| == |ids|
    ensures forall i | 0 <= i < |ids| :: rows[i] == Row(ids[i], r.now - r.pel[ids[i]].since)
  {
    seq(|ids|, i requires 0 <= i < |ids| => Row(ids[i], r.now - r.pel[ids[i]].since))
  }

  /** XPENDING range: the first `count` pending entries at or after `cursor`. */
  function XpendingRange(r: Redis, cursor: Cursor, count: nat): seq<Row> {
    var ids := PendingFrom(r, cursor);
    Rows(r, if |ids| <= count then ids else ids[..count])
  }

  predicate Grantable(r: Redis, id: StreamId, minIdle: nat) {
    id in r.pel && r.now - r.pel[id].since >= minIdle && id in r.stream
  }

  /** XCLAIM JUSTID of one id. It is granted to the caller when the entry is
      pending and has been idle long enough; a pending entry whose payload is
      gone is removed from the list instead. */
  function Xclaim(r: Redis, consumer: string, minIdle: nat, id: StreamId): (Redis, bool) {
    if Grantable(r, id, minIdle) then (r.(pel := r.pel[id := Pending(consumer, r.now)]), true)
    else if id in r.pel && id !in r.stream then (r.(pel := r.pel - {id}), false)
    else (r, false)
  }

  function Xack(r: Redis, id: StreamId): Redis {
    r.(pel := r.pel - {id})
  }
}
