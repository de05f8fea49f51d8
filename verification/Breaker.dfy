/** The degradation ladder: main levels driven by the language model, and two
    lateral flags. */
module Breaker {

  const FAILURE_THRESHOLD: nat := 5
  const RECOVERY: nat := 3
  const LATERAL_THRESHOLD: nat := 3
  const LATENCY_THRESHOLD: real := 800.0

  datatype Event =
    | Latency(p95: real)
    | LlmFailure
    | LlmSuccess
    | EmbeddingFailure
    | EmbeddingSuccess
    | ClassifierFailure
    | ClassifierSuccess

  datatype State = State(level: nat, failures: nat, successes: nat,
                         embeddingFailures: nat, embeddingDown: bool,
                         classifierFailures: nat, classifierDown: bool)

  const INITIAL := State(0, 0, 0, 0, false, 0, false)

  /** What one recorded event does. */
  function Step(s: State, e: Event): State {
    match e
    case Latency(p95) =>
      if p95 >= LATENCY_THRESHOLD && s.level < 2 then s.(level := s.level + 1) else s
    case LlmFailure =>
      s.(failures := s.failures + 1, successes := 0,
         level := if s.failures + 1 >= FAILURE_THRESHOLD then 3 else s.level)
    case LlmSuccess =>
      if s.level != 0 && s.successes + 1 >= RECOVERY then s.(failures := 0, successes := 0, level := s.level - 1)
      else s.(failures := 0, successes := s.successes + 1)
    case EmbeddingFailure =>
      s.(embeddingFailures := s.embeddingFailures + 1,
         embeddingDown := s.embeddingDown || s.embeddingFailures + 1 >= LATERAL_THRESHOLD)
    case EmbeddingSuccess => s.(embeddingFailures := 0, embeddingDown := false)
    case ClassifierFailure =>
      s.(classifierFailures := s.classifierFailures + 1,
         classifierDown := s.classifierDown || s.classifierFailures + 1 >= LATERAL_THRESHOLD)
    case ClassifierSuccess => s.(classifierFailures := 0, classifierDown := false)
  }

  function After(s: State, events: seq<Event>): State {
    if events == [] then s else Step(After(s, events[..|events| - 1]), events[|events| - 1])
  }

  function Max(a: int, b: int): int {
    if a >= b then a else b
  }

  function Min(a: int, b: int): int {
    if a <= b then a else b
  }

  // ----- over whole runs -----

  /** How often `bad` occurred since `good` last did. */
  function Since(events: seq<Event>, bad: Event, good: Event): nat {
    if events == [] then 0
    else Count(Since(events[..|events| - 1], bad, good), events[|events| - 1], bad, good)
  }

  function Count(n: nat, e: Event, bad: Event, good: Event): nat {
    if e == good then 0 else if e == bad then n + 1 else n
  }

  /** What the state shows, given the failures of each kind since the last
      success of that kind. */
  ghost predicate Shows(s: State, llm: nat, embedding: nat, classifier: nat) {
    && s.level <= 3
    && s.failures == llm && (llm >= FAILURE_THRESHOLD ==> s.level == 3)
    && s.embeddingFailures == embedding && (s.embeddingDown <==> embedding >= LATERAL_THRESHOLD)
    && s.classifierFailures == classifier && (s.classifierDown <==> classifier >= LATERAL_THRESHOLD)
  }

  lemma StepShows(s: State, e: Event, llm: nat, embedding: nat, classifier: nat)
    requires Shows(s, llm, embedding, classifier)
    ensures Shows(Step(s, e), Count(llm, e, LlmFailure, LlmSuccess),
                  Count(embedding, e, EmbeddingFailure, EmbeddingSuccess),
                  Count(classifier, e, ClassifierFailure, ClassifierSuccess))
  {
  }

  /** In every run only levels 0 to 3 occur; five failures of the model since
      its last success mean level 3; and the lateral flags are up exactly after
      three failures of their kind since its last success. */
  lemma {:induction false} RunInvariant(events: seq<Event>)
    ensures Shows(After(INITIAL, events), Since(events, LlmFailure, LlmSuccess),
                  Since(events, EmbeddingFailure, EmbeddingSuccess),
                  Since(events, ClassifierFailure, ClassifierSuccess))
  {
    hide Shows, Step, Count;
    if events == [] {
      InitialShows();
    } else {
      var init := events[..|events| - 1];
      RunInvariant(init);
      StepShows(After(INITIAL, init), events[|events| - 1], Since(init, LlmFailure, LlmSuccess),
                Since(init, EmbeddingFailure, EmbeddingSuccess), Since(init, ClassifierFailure, ClassifierSuccess));
    }
  }

  lemma InitialShows()
    ensures Shows(INITIAL, 0, 0, 0)
  {
  }

  // ----- recovery and latency, in closed form -----

  /** Nothing in these events makes the model's level worse. */
  ghost predicate Calm(events: seq<Event>) {
    forall e | e in events :: e != LlmFailure && (e.Latency? ==> e.p95 < LATENCY_THRESHOLD)
  }

  function Successes(events: seq<Event>): nat {
    if events == [] then 0
    else Successes(events[..|events| - 1]) + if events[|events| - 1] == LlmSuccess then 1 else 0
  }

  /** Recovery, in closed form: successes already counted beyond two do not
      help, and then every third success takes one level off. */
  lemma {:induction false} RecoveryLevel(s: State, events: seq<Event>)
    requires Calm(events)
    ensures
      var n, c := Successes(events), Min(s.successes, 2);
      && After(s, events).level == Max(0, s.level - (n + c) / 3)
      && (After(s, events).level > 0 ==> Min(After(s, events).successes, 2) == (n + c) % 3)
  {
    if events != [] {
      var init, last := events[..|events| - 1], events[|events| - 1];
      assert last in events;
      forall e | e in init ensures e != LlmFailure && (e.Latency? ==> e.p95 < LATENCY_THRESHOLD) {
        assert e in events;
      }
      RecoveryLevel(s, init);
      NextThird(Successes(init) + Min(s.successes, 2));
    }
  }

  lemma NextThird(m: nat)
    ensures (m + 1) / 3 == m / 3 + (if m % 3 == 2 then 1 else 0)
    ensures (m + 1) % 3 == if m % 3 == 2 then 0 else m % 3 + 1
  {
  }

  /** From any reachable state nine successes without a setback restore full
      service. */
  lemma NineSuccessesRestore(events: seq<Event>, calm: seq<Event>)
    requires Calm(calm) && Successes(calm) >= 9
    ensures After(After(INITIAL, events), calm).level == 0
  {
    RunInvariant(events);
    RecoveryLevel(After(INITIAL, events), calm);
  }

  /** A failure of the model undoes all progress: from then on only every third
      success takes a level off, whatever had been counted before. */
  lemma FailureRestartsRecovery(s: State, calm: seq<Event>)
    requires Calm(calm)
    ensures
      After(s, [LlmFailure] + calm).level == Max(0, After(s, [LlmFailure]).level - Successes(calm) / 3)
  {
    assert [LlmFailure][..0] == [];
    AfterConcat(s, [LlmFailure], calm);
    RecoveryLevel(After(s, [LlmFailure]), calm);
  }

  function Repeat(e: Event, n: nat): seq<Event> {
    if n == 0 then [] else Repeat(e, n - 1) + [e]
  }

  lemma {:induction false} SinceRepeat(bad: Event, good: Event, n: nat)
    requires bad != good
    ensures Since(Repeat(bad, n), bad, good) == n
  {
    if n > 0 {
      SinceRepeat(bad, good, n - 1);
      assert Repeat(bad, n)[..|Repeat(bad, n)| - 1] == Repeat(bad, n - 1);
    }
  }

  lemma {:induction false} FailuresInARow(s: State, n: nat)
    ensures After(s, Repeat(LlmFailure, n)).failures == s.failures + n
    ensures After(s, Repeat(LlmFailure, n)).level == if n > 0 && s.failures + n >= 5 then 3 else s.level
  {
    if n > 0 {
      FailuresInARow(s, n - 1);
      assert Repeat(LlmFailure, n)[..|Repeat(LlmFailure, n)| - 1] == Repeat(LlmFailure, n - 1);
    }
  }

  /** The limits: from a fresh start it takes five failures of the model, three
      of a lateral service, or a reading of 800 ms to change anything. */
  lemma LimitsExactly(n: nat, p95: real)
    ensures After(INITIAL, Repeat(LlmFailure, n)).level == if n < 5 then 0 else 3
    ensures After(INITIAL, Repeat(EmbeddingFailure, n)).embeddingDown <==> n >= 3
    ensures After(INITIAL, Repeat(ClassifierFailure, n)).classifierDown <==> n >= 3
    ensures After(INITIAL, [Latency(p95)]).level == if p95 < 800.0 then 0 else 1
  {
    hide Repeat, Since;
    FailuresInARow(INITIAL, n);
    RunInvariant(Repeat(EmbeddingFailure, n));
    SinceRepeat(EmbeddingFailure, EmbeddingSuccess, n);
    RunInvariant(Repeat(ClassifierFailure, n));
    SinceRepeat(ClassifierFailure, ClassifierSuccess, n);
    assert [Latency(p95)][..0] == [];
  }

  /** Only latency readings, and `n` of them at or above the threshold. */
  ghost predicate Readings(events: seq<Event>) {
    forall e | e in events :: e.Latency?
  }

  function Slow(events: seq<Event>): nat {
    if events == [] then 0
    else
      var last := events[|events| - 1];
      Slow(events[..|events| - 1]) + if last.Latency? && last.p95 >= LATENCY_THRESHOLD then 1 else 0
  }

  /** Slow readings raise the level one by one, and never above 2. */
  lemma {:induction false} LatencyLevel(s: State, events: seq<Event>)
    requires Readings(events)
    ensures After(s, events).level == Max(s.level, Min(s.level + Slow(events), 2))
  {
    if events != [] {
      var init := events[..|events| - 1];
      assert events[|events| - 1] in events;
      forall e | e in init ensures e.Latency? {
        assert e in events;
      }
      LatencyLevel(s, init);
    }
  }

  lemma {:induction false} AfterConcat(s: State, a: seq<Event>, b: seq<Event>)
    ensures After(s, a + b) == After(After(s, a), b)
  {
    if b == [] {
      assert a + b == a;
    } else {
      assert (a + b)[..|a + b| - 1] == a + b[..|b| - 1];
      AfterConcat(s, a, b[..|b| - 1]);
    }
  }

  /** If nothing got worse from moment k on, the level at the end follows from
      the state at k and the successes since. */
  ghost predicate Recovering(history: seq<Event>, k: nat, level: nat)
    requires k <= |history|
  {
    var s := After(INITIAL, history[..k]);
    level == Max(0, s.level - (Successes(history[k..]) + Min(s.successes, 2)) / 3)
  }

  lemma RecoversThroughout(history: seq<Event>)
    ensures forall k: nat | k <= |history| && Calm(history[k..]) :: Recovering(history, k, After(INITIAL, history).level)
  {
    hide After, Calm, Successes;
    forall k: nat | k <= |history| && Calm(history[k..]) ensures Recovering(history, k, After(INITIAL, history).level) {
      AfterConcat(INITIAL, history[..k], history[k..]);
      assert history[..k] + history[k..] == history;
      RecoveryLevel(After(INITIAL, history[..k]), history[k..]);
    }
  }

  // ----- the object -----

  class CircuitBreaker {
    var level: nat
    var llmFailureCount: nat
    var llmSuccessCount: nat
    var embeddingFailureCount: nat
    var embeddingDown: bool
    var classifierFailureCount: nat
    var classifierDown: bool
    ghost var history: seq<Event>   // everything recorded so far

    ghost function Now(): State
      reads this
    {
      State(level, llmFailureCount, llmSuccessCount, embeddingFailureCount, embeddingDown,
            classifierFailureCount, classifierDown)
    }

    ghost predicate Valid()
      reads this
    {
      Now() == After(INITIAL, history)
    }

    /** The ladder, read off what was recorded. */
    ghost predicate Degraded()
      reads this
    {
      && level <= 3
      && llmFailureCount == Since(history, LlmFailure, LlmSuccess)
      && (Since(history, LlmFailure, LlmSuccess) >= FAILURE_THRESHOLD ==> level == 3)
      && (embeddingDown <==> Since(history, EmbeddingFailure, EmbeddingSuccess) >= LATERAL_THRESHOLD)
      && (classifierDown <==> Since(history, ClassifierFailure, ClassifierSuccess) >= LATERAL_THRESHOLD)
    }

    constructor ()
      ensures Valid() && history == []
    {
      level, llmFailureCount, llmSuccessCount := 0, 0, 0;
      embeddingFailureCount, embeddingDown := 0, false;
      classifierFailureCount, classifierDown := 0, false;
      history := [];
    }

    /** The event just recorded is the last one. */
    ghost method Record(e: Event)
      requires Now() == Step(After(INITIAL, history), e)
      modifies this`history
      ensures Valid() && Degraded() && history == old(history) + [e]
    {
      assert (history + [e])[..|history|] == history;
      history := history + [e];
      RunInvariant(history);
    }

    /** Slow readings raise the level, up to 2. */
    method RecordLlmLatency(p95: real) returns (r: nat)
      requires Valid()
      modifies this
      ensures Valid() && Degraded() && history == old(history) + [Latency(p95)] && r == level
      ensures p95 < LATENCY_THRESHOLD ==> level == old(level)
      ensures p95 >= LATENCY_THRESHOLD ==> level == Max(old(level), Min(old(level) + 1, 2))
    {
      if p95 >= LATENCY_THRESHOLD {
        if level == 0 {
          level := 1;
        } else if level == 1 {
          level := 2;
        }
      }
      Record(Latency(p95));
      r := level;
    }

    /** The fifth failure in a row, and every further one, means level 3. */
    method RecordLlmFailure() returns (r: nat)
      requires Valid()
      modifies this
      ensures Valid() && Degraded() && history == old(history) + [LlmFailure] && r == level
      ensures level == if Since(history, LlmFailure, LlmSuccess) >= FAILURE_THRESHOLD then 3 else old(level)
    {
      llmFailureCount := llmFailureCount + 1;
      llmSuccessCount := 0;
      if llmFailureCount >= FAILURE_THRESHOLD {
        level := 3;
      }
      Record(LlmFailure);
      r := level;
    }

    /** A success takes off one level at most; and whenever nothing got worse
        since some moment, the level follows from the successes since then. */
    method RecordLlmSuccess() returns (r: nat)
      requires Valid()
      modifies this
      ensures Valid() && Degraded() && history == old(history) + [LlmSuccess] && r == level
      ensures llmFailureCount == 0 && old(level) - 1 <= level <= old(level)
      ensures forall k: nat | k <= |history| && Calm(history[k..]) :: Recovering(history, k, level)
    {
      llmFailureCount := 0;
      llmSuccessCount := llmSuccessCount + 1;
      if level != 0 && llmSuccessCount >= RECOVERY {
        level := level - 1;
        llmSuccessCount := 0;
      }
      Record(LlmSuccess);
      RecoversThroughout(history);
      r := level;
    }

    /** A lateral failure leaves the level alone. */
    method RecordEmbeddingFailure() returns (r: nat)
      requires Valid()
      modifies this
      ensures Valid() && Degraded() && history == old(history) + [EmbeddingFailure] && r == level
      ensures level == old(level) && (old(embeddingDown) ==> embeddingDown)
    {
      embeddingFailureCount := embeddingFailureCount + 1;
      if embeddingFailureCount >= LATERAL_THRESHOLD {
        embeddingDown := true;
      }
      Record(EmbeddingFailure);
      r := level;
    }

    /** A lateral success restores the service at once. */
    method RecordEmbeddingSuccess() returns (r: nat)
      requires Valid()
      modifies this
      ensures Valid() && Degraded() && history == old(history) + [EmbeddingSuccess] && r == level
      ensures level == old(level) && !embeddingDown
    {
      embeddingFailureCount := 0;
      embeddingDown := false;
      Record(EmbeddingSuccess);
      r := level;
    }

    /** A lateral failure leaves the level alone. */
    method RecordClassifierFailure() returns (r: nat)
      requires Valid()
      modifies this
      ensures Valid() && Degraded() && history == old(history) + [ClassifierFailure] && r == level
      ensures level == old(level) && (old(classifierDown) ==> classifierDown)
    {
      classifierFailureCount := classifierFailureCount + 1;
      if classifierFailureCount >= LATERAL_THRESHOLD {
        classifierDown := true;
      }
      Record(ClassifierFailure);
      r := level;
    }

    /** A lateral success restores the service at once. */
    method RecordClassifierSuccess() returns (r: nat)
      requires Valid()
      modifies this
      ensures Valid() && Degraded() && history == old(history) + [ClassifierSuccess] && r == level
      ensures level == old(level) && !classifierDown
    {
      classifierFailureCount := 0;
      classifierDown := false;
      Record(ClassifierSuccess);
      r := level;
    }
  }
}
