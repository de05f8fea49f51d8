/** The in-memory tracer: nested spans in one execution context. */
module Spans {
  import opened Wrappers

  type Attributes = map<string, string>

  const TRACE_ID_KEY := "trace_id"

  datatype ActiveSpan = ActiveSpan(name: string, traceId: string, spanId: string, parentSpanId: Option<string>,
                                   attributes: Attributes)

  datatype SpanRecord = SpanRecord(name: string, traceId: string, parentSpanId: Option<string>, attributes: Attributes)

  /** A program, as far as the tracer sees it: `Open` is a `with` block and what
      follows it, `Guard` a `try` block that swallows exceptions and what follows it. */
  datatype Program =
    | Done
    | Throw
    | Open(name: string, attributes: Attributes, body: Program, next: Program)
    | Guard(body: Program, next: Program)

  // ----- which spans a run opens, and what should be recorded of them -----

  datatype Forest = Empty | Grow(name: string, attributes: Attributes, children: Forest, siblings: Forest)

  function Append(f: Forest, g: Forest): Forest {
    match f
    case Empty => g
    case Grow(n, a, c, s) => Grow(n, a, c, Append(s, g))
  }

  /** The spans a run opens, nested as they are opened, and whether the run
      ends in an exception. */
  function Opened(p: Program): (Forest, bool) {
    match p
    case Done => (Empty, false)
    case Throw => (Empty, true)
    case Open(n, a, body, next) =>
      var (children, raised) := Opened(body);
      if raised then (Grow(n, a, children, Empty), true)
      else var (siblings, r) := Opened(next); (Grow(n, a, children, siblings), r)
    case Guard(body, next) =>
      var (f, r) := Opened(next);
      (Append(Opened(body).0, f), r)
  }

  // ----- exceptions pass through spans -----

  /** The raises in a program that stand outside every `try` block. */
  function Throws(p: Program): nat {
    match p
    case Done => 0
    case Throw => 1
    case Open(_, _, body, next) => Throws(body) + Throws(next)
    case Guard(_, next) => Throws(next)
  }

  /** A run ends in an exception if and only if the program raises outside its
      `try` blocks, however many `with` blocks are around. */
  lemma {:induction false} RaisesExactly(p: Program)
    ensures Opened(p).1 <==> Throws(p) > 0
  {
    match p
    case Open(_, _, body, next) =>
      RaisesExactly(body);
      RaisesExactly(next);
    case Guard(_, next) => RaisesExactly(next);
    case _ =>
  }

  /** `p`, and then `q`. */
  function Then(p: Program, q: Program): Program {
    match p
    case Done => q
    case Throw => Throw
    case Open(n, a, body, next) => Open(n, a, body, Then(next, q))
    case Guard(body, next) => Guard(body, Then(next, q))
  }

  /** The program without its `with` blocks. */
  function Unwrapped(p: Program): Program {
    match p
    case Done => Done
    case Throw => Throw
    case Open(_, _, body, next) => Then(Unwrapped(body), Unwrapped(next))
    case Guard(body, next) => Guard(Unwrapped(body), Unwrapped(next))
  }

  lemma {:induction false} AppendAssoc(f: Forest, g: Forest, h: Forest)
    ensures Append(Append(f, g), h) == Append(f, Append(g, h))
    ensures Append(f, Empty) == f
  {
    if f.Grow? { AppendAssoc(f.siblings, g, h); }
  }

  /** Nothing runs after an exception; otherwise the spans of both runs are opened. */
  lemma {:induction false} OpenedThen(p: Program, q: Program)
    ensures
      var (f, raised) := Opened(p);
      Opened(Then(p, q)) == if raised then (f, true) else (Append(f, Opened(q).0), Opened(q).1)
  {
    match p
    case Open(_, _, _, next) => OpenedThen(next, q);
    case Guard(body, next) =>
      OpenedThen(next, q);
      AppendAssoc(Opened(body).0, Opened(next).0, Opened(q).0);
    case _ =>
  }

  /** Tracing changes nothing about exceptions: without its `with` blocks a
      program opens no span and raises just the same. */
  lemma {:induction false} TracingIsTransparent(p: Program)
    ensures Opened(Unwrapped(p)) == (Empty, Opened(p).1)
  {
    match p
    case Open(_, _, body, next) =>
      TracingIsTransparent(body);
      TracingIsTransparent(next);
      OpenedThen(Unwrapped(body), Unwrapped(next));
    case Guard(body, next) =>
      TracingIsTransparent(body);
      TracingIsTransparent(next);
    case _ =>
  }

  /** A `with` block opens one span around those of its body and lets the
      body's exception out, so that nothing after it runs; a `try` block opens
      none and lets nothing out. */
  lemma BlockOutcomes(name: string, attributes: Attributes, body: Program, next: Program)
    ensures
      var (children, raised) := Opened(body);
      && Opened(Then(Open(name, attributes, body, Done), next))
         == (if raised then (Grow(name, attributes, children, Empty), true)
             else (Grow(name, attributes, children, Opened(next).0), Opened(next).1))
      && Opened(Then(Guard(body, Done), next)) == (Append(children, Opened(next).0), Opened(next).1)
      && Opened(Open(name, attributes, Throw, next)) == (Grow(name, attributes, Empty, Empty), true)
  {
  }

  function Size(f: Forest): nat {
    match f
    case Empty => 0
    case Grow(_, _, c, s) => 1 + Size(c) + Size(s)
  }

  function Width(f: Forest): nat {
    match f
    case Empty => 0
    case Grow(_, _, _, s) => 1 + Width(s)
  }

  /** Where fresh ids come from: the k-th span id and the t-th trace id. */
  datatype Ids = Ids(span: nat -> string, trace: nat -> string)

  ghost predicate Fresh(ids: Ids) {
    (forall i: nat, j: nat :: ids.span(i) == ids.span(j) ==> i == j)
    && (forall i: nat, j: nat :: ids.trace(i) == ids.trace(j) ==> i == j)
  }

  /** What encloses a forest: the span id and the trace id of the enclosing span. */
  type Context = Option<(string, string)>

  function ParentId(c: Context): Option<string> {
    match c
    case None => None
    case Some(p) => Some(p.0)
  }

  function TraceId(ids: Ids, c: Context, t: nat): string {
    match c
    case None => ids.trace(t)
    case Some(p) => p.1
  }

  /** Trace ids used up by one span. */
  function One(c: Context): nat {
    if c.None? then 1 else 0
  }

  /** Trace ids used up by a forest: one for each tree that is enclosed by nothing. */
  function NewTraces(f: Forest, c: Context): nat {
    if c.None? then Width(f) else 0
  }

  /** The records of one tree; the root's comes last. */
  function TreeRecords(ids: Ids, name: string, attributes: Attributes, children: Forest, c: Context, k: nat, t: nat)
    : seq<SpanRecord>
    decreases children, 1
  {
    var trace := TraceId(ids, c, t);
    PostOrder(ids, children, Some((ids.span(k), trace)), k + 1, t + One(c))
    + [SpanRecord(name, trace, ParentId(c), attributes[TRACE_ID_KEY := trace])]
  }

  /** The records of a forest: ids are numbered in the order of opening, from
      `k` and `t`; the records come in the order of closing. */
  function PostOrder(ids: Ids, f: Forest, c: Context, k: nat, t: nat): seq<SpanRecord>
    decreases f, 0
  {
    match f
    case Empty => []
    case Grow(n, a, children, siblings) =>
      TreeRecords(ids, n, a, children, c, k, t) + PostOrder(ids, siblings, c, k + 1 + Size(children), t + One(c))
  }

  /** The finished-span log and how many ids have been handed out. */
  datatype Log = Log(records: seq<SpanRecord>, spanCount: nat, traceCount: nat)

  /** The log once a tree, or a forest, has been opened and closed inside `c`. */
  function AfterTree(ids: Ids, log: Log, name: string, attributes: Attributes, children: Forest, c: Context): Log {
    Log(log.records + TreeRecords(ids, name, attributes, children, c, log.spanCount, log.traceCount),
        log.spanCount + 1 + Size(children), log.traceCount + One(c))
  }

  function After(ids: Ids, log: Log, f: Forest, c: Context): Log {
    Log(log.records + PostOrder(ids, f, c, log.spanCount, log.traceCount),
        log.spanCount + Size(f), log.traceCount + NewTraces(f, c))
  }

  lemma AfterEmpty(ids: Ids, log: Log, c: Context)
    ensures After(ids, log, Empty, c) == log
  {
  }

  lemma AfterGrow(ids: Ids, log: Log, name: string, attributes: Attributes, children: Forest, siblings: Forest, c: Context)
    ensures After(ids, log, Grow(name, attributes, children, siblings), c)
         == After(ids, AfterTree(ids, log, name, attributes, children, c), siblings, c)
  {
    hide TreeRecords;
    var tree := AfterTree(ids, log, name, attributes, children, c);
    var tail := PostOrder(ids, siblings, c, tree.spanCount, tree.traceCount);
    var head := TreeRecords(ids, name, attributes, children, c, log.spanCount, log.traceCount);
    assert PostOrder(ids, Grow(name, attributes, children, siblings), c, log.spanCount, log.traceCount) == head + tail;
    assert log.records + (head + tail) == log.records + head + tail;
  }

  lemma {:induction false} AfterAppend(ids: Ids, log: Log, f: Forest, g: Forest, c: Context)
    ensures After(ids, log, Append(f, g), c) == After(ids, After(ids, log, f, c), g, c)
    decreases f
  {
    hide After, AfterTree;
    match f
    case Empty =>
      AfterEmpty(ids, log, c);
    case Grow(n, a, children, siblings) =>
      AfterGrow(ids, log, n, a, children, siblings, c);
      AfterGrow(ids, log, n, a, children, Append(siblings, g), c);
      AfterAppend(ids, AfterTree(ids, log, n, a, children, c), siblings, g, c);
  }

  // ----- the tracer -----

  function RemoveFirst<T(==)>(s: seq<T>, x: T): seq<T> {
    if s == [] then [] else if s[0] == x then s[1..] else [s[0]] + RemoveFirst(s[1..], x)
  }

  lemma {:induction false} RemoveTop<T>(s: seq<T>, x: T)
    requires x !in s
    ensures RemoveFirst(s + [x], x) == s
  {
    if s != [] {
      assert (s + [x])[0] == s[0] && (s + [x])[1..] == s[1..] + [x];
      RemoveTop(s[1..], x);
      assert s == [s[0]] + s[1..];
    }
  }

  lemma {:induction false} RemoveFirstSubset<T>(s: seq<T>, x: T)
    ensures forall y | y in RemoveFirst(s, x) :: y in s
    ensures x !in s ==> RemoveFirst(s, x) == s
  {
    if s != [] {
      RemoveFirstSubset(s[1..], x);
      assert s == [s[0]] + s[1..];
    }
  }

  function RecordOf(span: ActiveSpan): SpanRecord {
    SpanRecord(span.name, span.traceId, span.parentSpanId, span.attributes[TRACE_ID_KEY := span.traceId])
  }

  function ContextOf(stack: seq<ActiveSpan>): Context {
    if stack == [] then None else Some((stack[|stack| - 1].spanId, stack[|stack| - 1].traceId))
  }

  class Tracer {
    const ids: Ids
    var spans: seq<ActiveSpan>
    var finished: seq<SpanRecord>
    var spanCount: nat
    var traceCount: nat

    /** Every open span has an id that was handed out, and all open spans are of
        one trace. */
    ghost predicate Valid()
      reads this
    {
      && Fresh(ids)
      && (forall s | s in spans :: HandedOut(s.spanId))
      && (forall s, t | s in spans && t in spans :: s.traceId == t.traceId)
    }

    ghost predicate HandedOut(id: string)
      reads this
    {
      exists i: nat :: i < spanCount && ids.span(i) == id
    }

    constructor (ids: Ids)
      requires Fresh(ids)
      ensures Valid() && this.ids == ids && spans == [] && finished == []
    {
      this.ids := ids;
      spans, finished, spanCount, traceCount := [], [], 0, 0;
    }

    /** The entry half of `start_as_current_span`. */
    method Enter(name: string, attributes: Attributes) returns (span: ActiveSpan)
      requires Valid()
      modifies this`spans, this`spanCount, this`traceCount
      ensures Valid()
      ensures span == ActiveSpan(name, TraceId(ids, ContextOf(old(spans)), old(traceCount)), ids.span(old(spanCount)),
                                 ParentId(ContextOf(old(spans))), attributes)
      ensures span !in old(spans) && spans == old(spans) + [span]
      ensures spanCount == old(spanCount) + 1
      ensures traceCount == old(traceCount) + if old(spans) == [] then 1 else 0
    {
      var traceId, parentSpanId;
      if spans == [] {
        traceId, parentSpanId := ids.trace(traceCount), None;
        traceCount := traceCount + 1;
      } else {
        var parent := spans[|spans| - 1];
        traceId, parentSpanId := parent.traceId, Some(parent.spanId);
      }
      span := ActiveSpan(name, traceId, ids.span(spanCount), parentSpanId, attributes);
      spanCount := spanCount + 1;
      spans := spans + [span];
      forall s | s in spans ensures HandedOut(s.spanId) {
        if s == span {
          assert ids.span(spanCount - 1) == s.spanId;
        } else {
          assert s in old(spans) && old(HandedOut(s.spanId));
        }
      }
    }

    /** The `finally` half: remove the span, by value, and record it; a span that
        is no longer on the stack is not recorded. */
    method Exit(span: ActiveSpan)
      requires Valid()
      modifies this`spans, this`finished
      ensures Valid() && spans == RemoveFirst(old(spans), span)
      ensures finished == old(finished) + if span in old(spans) then [RecordOf(span)] else []
    {
      RemoveFirstSubset(spans, span);
      if span in spans {
        finished := finished + [RecordOf(span)];
      }
      spans := RemoveFirst(spans, span);
    }

    function Now(): Log
      reads this
    {
      Log(finished, spanCount, traceCount)
    }

    /** Running a program appends exactly the records of the spans it opens, in
        post-order, and leaves the stack as it was, exception or not. */
    method Run(p: Program) returns (raised: bool)
      requires Valid()
      modifies this
      ensures Valid() && spans == old(spans) && raised == Opened(p).1
      ensures raised <==> Throws(p) > 0
      ensures Now() == After(ids, old(Now()), Opened(p).0, ContextOf(old(spans)))
      decreases p, 0
    {
      hide After, AfterTree, Tracer.Valid;
      RaisesExactly(p);
      ghost var c, log := ContextOf(spans), Now();
      match p
      case Done =>
        raised := false;
        AfterEmpty(ids, log, c);
      case Throw =>
        raised := true;
        AfterEmpty(ids, log, c);
      case Open(name, attributes, body, next) =>
        raised := RunSpan(name, attributes, body);
        AfterGrow(ids, log, name, attributes, Opened(body).0, if raised then Empty else Opened(next).0, c);
        if raised {
          AfterEmpty(ids, Now(), c);
        } else {
          raised := Run(next);
        }
      case Guard(body, next) =>
        AfterAppend(ids, log, Opened(body).0, Opened(next).0, c);
        var _ := Run(body);
        raised := Run(next);
    }

    /** A `with` block. */
    method RunSpan(name: string, attributes: Attributes, body: Program) returns (raised: bool)
      requires Valid()
      modifies this
      ensures Valid() && spans == old(spans) && raised == Opened(body).1
      ensures Now() == AfterTree(ids, old(Now()), name, attributes, Opened(body).0, ContextOf(old(spans)))
      decreases body, 1
    {
      hide Opened, PostOrder, Size;
      var span := Enter(name, attributes);
      assert ContextOf(spans) == Some((span.spanId, span.traceId));
      raised := Run(body);
      RemoveTop(old(spans), span);
      assert span in spans by {
        assert spans[|spans| - 1] == span;
      }
      Exit(span);
    }

    /** `get_current_trace_id`: the trace of every open span, the root's
        included, and with it of every record still to come from them. */
    method GetCurrentTraceId() returns (id: Option<string>)
      requires Valid()
      ensures id == None <==> spans == []
      ensures forall s | s in spans :: id == Some(s.traceId) && id == Some(RecordOf(s).traceId)
    {
      id := if spans == [] then None else Some(spans[|spans| - 1].traceId);
    }
  }

  // ----- what the log says about the run -----

  function CountParent(records: seq<SpanRecord>, id: Option<string>): nat {
    if records == [] then 0 else (if records[0].parentSpanId == id then 1 else 0) + CountParent(records[1..], id)
  }

  function CountTrace(records: seq<SpanRecord>, id: string): nat {
    if records == [] then 0 else (if records[0].traceId == id then 1 else 0) + CountTrace(records[1..], id)
  }

  lemma {:induction false} CountConcat(a: seq<SpanRecord>, b: seq<SpanRecord>, id: Option<string>, trace: string)
    ensures CountParent(a + b, id) == CountParent(a, id) + CountParent(b, id)
    ensures CountTrace(a + b, trace) == CountTrace(a, trace) + CountTrace(b, trace)
  {
    if a == [] {
      assert a + b == b;
    } else {
      assert (a + b)[0] == a[0] && (a + b)[1..] == a[1..] + b;
      CountConcat(a[1..], b, id, trace);
    }
  }

  /** Number of children of the j-th span opened in the forest. */
  function Arity(f: Forest, j: nat): nat
    requires j < Size(f)
  {
    match f
    case Grow(_, _, children, siblings) =>
      if j == 0 then Width(children)
      else if j - 1 < Size(children) then Arity(children, j - 1)
      else Arity(siblings, j - 1 - Size(children))
  }

  /** The records a tree and its siblings consist of. */
  lemma GrowLog(ids: Ids, f: Forest, c: Context, k: nat, t: nat)
    requires f.Grow?
    ensures
      var own := TraceId(ids, c, t);
      PostOrder(ids, f, c, k, t)
      == PostOrder(ids, f.children, Some((ids.span(k), own)), k + 1, t + One(c))
         + [SpanRecord(f.name, own, ParentId(c), f.attributes[TRACE_ID_KEY := own])]
         + PostOrder(ids, f.siblings, c, k + 1 + Size(f.children), t + One(c))
  {
  }

  /** The same, counted. */
  lemma GrowCount(ids: Ids, f: Forest, c: Context, k: nat, t: nat, id: Option<string>, trace: string)
    requires f.Grow?
    ensures
      var own := TraceId(ids, c, t);
      var below := PostOrder(ids, f.children, Some((ids.span(k), own)), k + 1, t + One(c));
      var rest := PostOrder(ids, f.siblings, c, k + 1 + Size(f.children), t + One(c));
      && CountParent(PostOrder(ids, f, c, k, t), id)
         == CountParent(below, id) + (if id == ParentId(c) then 1 else 0) + CountParent(rest, id)
      && CountTrace(PostOrder(ids, f, c, k, t), trace)
         == CountTrace(below, trace) + (if trace == own then 1 else 0) + CountTrace(rest, trace)
  {
    var own := TraceId(ids, c, t);
    var below := PostOrder(ids, f.children, Some((ids.span(k), own)), k + 1, t + One(c));
    var rest := PostOrder(ids, f.siblings, c, k + 1 + Size(f.children), t + One(c));
    var record := SpanRecord(f.name, own, ParentId(c), f.attributes[TRACE_ID_KEY := own]);
    hide PostOrder, TreeRecords, Size, CountParent, CountTrace;
    assert PostOrder(ids, f, c, k, t) == below + [record] + rest by { GrowLog(ids, f, c, k, t); }
    CountAround(below, record, rest, id, trace);
  }

  lemma CountAround(a: seq<SpanRecord>, r: SpanRecord, b: seq<SpanRecord>, id: Option<string>, trace: string)
    ensures CountParent(a + [r] + b, id)
         == CountParent(a, id) + (if id == r.parentSpanId then 1 else 0) + CountParent(b, id)
    ensures CountTrace(a + [r] + b, trace)
         == CountTrace(a, trace) + (if trace == r.traceId then 1 else 0) + CountTrace(b, trace)
  {
    hide CountParent, CountTrace;
    CountConcat(a, [r], id, trace);
    CountConcat(a + [r], b, id, trace);
    CountOne(r, id, trace);
  }

  lemma CountOne(r: SpanRecord, id: Option<string>, trace: string)
    ensures CountParent([r], id) == if id == r.parentSpanId then 1 else 0
    ensures CountTrace([r], trace) == if trace == r.traceId then 1 else 0
  {
  }

  lemma EmptyCount(ids: Ids, c: Context, k: nat, t: nat, id: Option<string>, trace: string)
    ensures CountParent(PostOrder(ids, Empty, c, k, t), id) == 0
    ensures CountTrace(PostOrder(ids, Empty, c, k, t), trace) == 0
  {
  }

  /** Nothing in the forest names a parent other than the enclosing span and
      the spans of the forest itself. */
  lemma {:induction false} ForeignParent(ids: Ids, f: Forest, c: Context, k: nat, t: nat, id: string)
    requires Some(id) != ParentId(c)
    requires forall i | k <= i < k + Size(f) :: id != ids.span(i)
    ensures CountParent(PostOrder(ids, f, c, k, t), Some(id)) == 0
    decreases f
  {
    hide PostOrder, CountParent, CountTrace;
    match f
    case Empty =>
      EmptyCount(ids, c, k, t, Some(id), "");
    case Grow(n, a, children, siblings) =>
      var inner: Context := Some((ids.span(k), TraceId(ids, c, t)));
      GrowCount(ids, f, c, k, t, Some(id), "");
      ForeignParent(ids, children, inner, k + 1, t + One(c), id);
      ForeignParent(ids, siblings, c, k + 1 + Size(children), t + One(c), id);
  }

  /** The enclosing span is named once for every top-level span of the forest. */
  lemma {:induction false} EnclosingCount(ids: Ids, f: Forest, c: Context, k: nat, t: nat)
    requires Fresh(ids) && Outside(ids, c, k)
    ensures CountParent(PostOrder(ids, f, c, k, t), ParentId(c)) == Width(f)
    decreases f
  {
    hide PostOrder, CountParent, CountTrace;
    match f
    case Empty =>
      EmptyCount(ids, c, k, t, ParentId(c), "");
    case Grow(n, a, children, siblings) =>
      var inner: Context := Some((ids.span(k), TraceId(ids, c, t)));
      GrowCount(ids, f, c, k, t, ParentId(c), "");
      if c.Some? {
        ForeignParent(ids, children, inner, k + 1, t + One(c), c.value.0);
      } else {
        NoOrphans(ids, children, inner, k + 1, t + One(c));
      }
      EnclosingCount(ids, siblings, c, k + 1 + Size(children), t + One(c));
  }

  /** The enclosing span, if any, got its id before those of the forest. */
  ghost predicate Outside(ids: Ids, c: Context, k: nat) {
    c.Some? ==> forall i | i >= k :: c.value.0 != ids.span(i)
  }

  /** Inside a span, every record has a parent. */
  lemma {:induction false} NoOrphans(ids: Ids, f: Forest, c: Context, k: nat, t: nat)
    requires c.Some?
    ensures CountParent(PostOrder(ids, f, c, k, t), None) == 0
    decreases f
  {
    hide PostOrder, CountParent, CountTrace;
    match f
    case Empty =>
      EmptyCount(ids, c, k, t, None, "");
    case Grow(n, a, children, siblings) =>
      GrowCount(ids, f, c, k, t, None, "");
      NoOrphans(ids, children, Some((ids.span(k), TraceId(ids, c, t))), k + 1, t + One(c));
      NoOrphans(ids, siblings, c, k + 1 + Size(children), t + One(c));
  }

  /** The log recovers the nesting: the j-th span opened is named as parent
      by exactly as many records as it had children. */
  lemma {:induction false} ParentLinksMatchNesting(ids: Ids, f: Forest, c: Context, k: nat, t: nat, j: nat)
    requires Fresh(ids) && Outside(ids, c, k) && j < Size(f)
    ensures CountParent(PostOrder(ids, f, c, k, t), Some(ids.span(k + j))) == Arity(f, j)
    decreases f
  {
    hide PostOrder, CountParent, CountTrace;
    match f
    case Grow(n, a, children, siblings) =>
      var id := ids.span(k + j);
      var inner: Context, rest := Some((ids.span(k), TraceId(ids, c, t))), k + 1 + Size(children);
      GrowCount(ids, f, c, k, t, Some(id), "");
      assert Some(id) != ParentId(c);
      if j == 0 {
        EnclosingCount(ids, children, inner, k + 1, t + One(c));
        ForeignParent(ids, siblings, c, rest, t + One(c), id);
      } else if j - 1 < Size(children) {
        ParentLinksMatchNesting(ids, children, inner, k + 1, t + One(c), j - 1);
        ForeignParent(ids, siblings, c, rest, t + One(c), id);
      } else {
        ForeignParent(ids, children, inner, k + 1, t + One(c), id);
        ParentLinksMatchNesting(ids, siblings, c, rest, t + One(c), j - 1 - Size(children));
      }
  }

  /** Inside a span, every record carries that span's trace id. */
  lemma {:induction false} OneTrace(ids: Ids, f: Forest, c: Context, k: nat, t: nat, trace: string)
    requires c.Some?
    ensures CountTrace(PostOrder(ids, f, c, k, t), trace) == if trace == c.value.1 then Size(f) else 0
    decreases f
  {
    hide PostOrder, CountParent, CountTrace;
    match f
    case Empty =>
      EmptyCount(ids, c, k, t, None, trace);
    case Grow(n, a, children, siblings) =>
      GrowCount(ids, f, c, k, t, None, trace);
      OneTrace(ids, children, Some((ids.span(k), c.value.1)), k + 1, t + One(c), trace);
      OneTrace(ids, siblings, c, k + 1 + Size(children), t + One(c), trace);
  }

  /** Size of the i-th top-level tree. */
  function TreeSize(f: Forest, i: nat): nat
    requires i < Width(f)
  {
    match f
    case Grow(_, _, children, siblings) => if i == 0 then 1 + Size(children) else TreeSize(siblings, i - 1)
  }

  /** Outside any span, every tree has a trace of its own: the i-th trace id
      is on as many records as the i-th tree has spans. */
  lemma {:induction false} TracePerTree(ids: Ids, f: Forest, k: nat, t: nat, i: nat)
    requires Fresh(ids) && i < Width(f)
    ensures CountTrace(PostOrder(ids, f, None, k, t), ids.trace(t + i)) == TreeSize(f, i)
    decreases f
  {
    hide PostOrder, CountParent, CountTrace;
    match f
    case Grow(n, a, children, siblings) =>
      var trace, rest := ids.trace(t + i), k + 1 + Size(children);
      GrowCount(ids, f, None, k, t, None, trace);
      OneTrace(ids, children, Some((ids.span(k), ids.trace(t))), k + 1, t + 1, trace);
      if i == 0 {
        OldTrace(ids, siblings, rest, t + 1, t);
      } else {
        TracePerTree(ids, siblings, rest, t + 1, i - 1);
      }
  }

  lemma {:induction false} OldTrace(ids: Ids, f: Forest, k: nat, t: nat, before: nat)
    requires Fresh(ids) && before < t
    ensures CountTrace(PostOrder(ids, f, None, k, t), ids.trace(before)) == 0
    decreases f
  {
    hide PostOrder, CountParent, CountTrace;
    match f
    case Empty =>
      EmptyCount(ids, None, k, t, None, ids.trace(before));
    case Grow(n, a, children, siblings) =>
      var trace, rest := ids.trace(before), k + 1 + Size(children);
      GrowCount(ids, f, None, k, t, None, trace);
      OneTrace(ids, children, Some((ids.span(k), ids.trace(t))), k + 1, t + 1, trace);
      OldTrace(ids, siblings, rest, t + 1, before);
  }

  // ----- the log determines the run -----

  /** The same spans in the same nesting, up to a "trace_id" attribute that the
      caller passed and the tracer overwrites. */
  ghost predicate SameForest(f: Forest, g: Forest) {
    match (f, g)
    case (Empty, Empty) => true
    case (Grow(n, a, c, s), Grow(m, b, d, r)) =>
      n == m && a - {TRACE_ID_KEY} == b - {TRACE_ID_KEY} && SameForest(c, d) && SameForest(s, r)
    case (_, _) => false
  }

  lemma {:induction false} LogLength(ids: Ids, f: Forest, c: Context, k: nat, t: nat)
    ensures |PostOrder(ids, f, c, k, t)| == Size(f)
    decreases f
  {
    match f
    case Empty =>
    case Grow(n, a, children, siblings) =>
      LogLength(ids, children, Some((ids.span(k), TraceId(ids, c, t))), k + 1, t + One(c));
      LogLength(ids, siblings, c, k + 1 + Size(children), t + One(c));
  }

  lemma {:induction false} NoneCounted(records: seq<SpanRecord>, id: Option<string>)
    requires CountParent(records, id) == 0
    ensures forall i | 0 <= i < |records| :: records[i].parentSpanId != id
  {
    if records != [] {
      NoneCounted(records[1..], id);
      assert records == [records[0]] + records[1..];
    }
  }

  /** The root of the first tree is the first record that names the enclosing span. */
  lemma FirstRoot(ids: Ids, f: Forest, c: Context, k: nat, t: nat)
    requires f.Grow? && Fresh(ids) && Outside(ids, c, k)
    ensures
      var log, m := PostOrder(ids, f, c, k, t), Size(f.children);
      var trace := TraceId(ids, c, t);
      && m < |log|
      && log[m] == SpanRecord(f.name, trace, ParentId(c), f.attributes[TRACE_ID_KEY := trace])
      && (forall i | 0 <= i < m :: log[i].parentSpanId != ParentId(c))
      && log[..m] == PostOrder(ids, f.children, Some((ids.span(k), trace)), k + 1, t + One(c))
      && log[m + 1..] == PostOrder(ids, f.siblings, c, k + 1 + m, t + One(c))
  {
    hide PostOrder;
    var inner: Context := Some((ids.span(k), TraceId(ids, c, t)));
    var below := PostOrder(ids, f.children, inner, k + 1, t + One(c));
    LogLength(ids, f.children, inner, k + 1, t + One(c));
    if c.Some? {
      ForeignParent(ids, f.children, inner, k + 1, t + One(c), c.value.0);
    } else {
      NoOrphans(ids, f.children, inner, k + 1, t + One(c));
    }
    NoneCounted(below, ParentId(c));
    var record := SpanRecord(f.name, TraceId(ids, c, t), ParentId(c), f.attributes[TRACE_ID_KEY := TraceId(ids, c, t)]);
    var rest := PostOrder(ids, f.siblings, c, k + 1 + Size(f.children), t + One(c));
    GrowLog(ids, f, c, k, t);
    assert forall i | 0 <= i < |below| :: (below + [record] + rest)[i] == below[i];
  }

  /** Two runs that leave the same records opened the same spans in the same
      nesting. */
  lemma {:induction false} LogDeterminesNesting(ids: Ids, f: Forest, g: Forest, c: Context, k: nat, t: nat)
    requires Fresh(ids) && Outside(ids, c, k)
    requires PostOrder(ids, f, c, k, t) == PostOrder(ids, g, c, k, t)
    ensures SameForest(f, g)
    decreases f
  {
    hide PostOrder, TreeRecords, Fresh;
    LogLength(ids, f, c, k, t);
    LogLength(ids, g, c, k, t);
    if f.Grow? {
      FirstRoot(ids, f, c, k, t);
      FirstRoot(ids, g, c, k, t);
      assert Size(f.children) == Size(g.children);
      InnerOutside(ids, k, TraceId(ids, c, t));
      var trace := TraceId(ids, c, t);
      LogDeterminesNesting(ids, f.children, g.children, Some((ids.span(k), trace)), k + 1, t + One(c));
      LogDeterminesNesting(ids, f.siblings, g.siblings, c, k + 1 + Size(f.children), t + One(c));
      SameButOneKey(f.attributes, g.attributes, TRACE_ID_KEY, trace);
    }
  }

  lemma InnerOutside(ids: Ids, k: nat, trace: string)
    requires Fresh(ids)
    ensures Outside(ids, Some((ids.span(k), trace)), k + 1)
  {
  }

  lemma SameButOneKey(a: Attributes, b: Attributes, key: string, value: string)
    requires a[key := value] == b[key := value]
    ensures a - {key} == b - {key}
  {
    assert forall x :: x in a - {key} <==> x in a[key := value] && x != key;
    assert forall x :: x in b - {key} <==> x in b[key := value] && x != key;
    forall x | x in a - {key} ensures (a - {key})[x] == (b - {key})[x] {
      assert (a - {key})[x] == a[key := value][x];
    }
  }
}
