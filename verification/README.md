# OmniBot verification

A Dafny model of the parts of the OmniBot backend whose correctness depends on
state, order or arithmetic, with proofs about it. `dafny verify dfyconfig.toml`
checks the whole project.

## What is modelled

**The Redis stream consumer.** `RedisServer.dfy` gives the stream commands as
functions on an explicit server state: the stream, the group cursor, and the
pending-entries list with owner and delivery time. On top of it there are two
models. `PendingPagination.dfy` is `claim_pending` in its imperative form, run
against a server that any number of other clients change between any two
commands. `ConsumerProtocol.dfy` is `consume_loop` as a state machine in which
every `await` is a step boundary: several processors, each shared by several
tasks, with handlers that raise, acknowledgements that are lost or late, tasks
that are cancelled after the server already acted, producers, trimming and a
clock. `ConsumerProtocolProofs.dfy` proves the invariants and
`ConsumerTheorems.dfy` says what they mean for every run;
`ConsumerProgress.dfy` adds that a pending entry can always still be handled,
`ConsumerAcks.dfy` what acknowledgement requests, pending lines and messages
stand for, and `ConsumerDelivery.dfy` that handling can always end in an
acknowledgement.

**The rate limiter.** `RateLimit.dfy` is the in-memory sliding window, proved
against a log of admissions (`Windows.dfy` counts in it); `RateLimitRedis.dfy`
is the Lua script on one sorted set, proved against a log of attempts, and the
comparison of the two. Moments are reals, a call is atomic and the clock does not run backwards.

**The chunker.** `Tokenizer.dfy` and `Chunker.dfy`: tokenisation, overlapping
windows, and the arithmetic link from a child to its parent;
`ParentIndex.dfy` is the index that walks the link. What counts as
whitespace is a parameter.

**Cohen's kappa.** `LabelCounts.dfy` and `Kappa.dfy`: exact real arithmetic
over label pairs of any type, and the calibration gate.

**Tokens.** `Base64Url.dfy` is the encoder and the lenient decoder of the
standard library (characters outside the alphabet are skipped, input after
completed padding is ignored, left-over bits are dropped); `Jwt.dfy` has the
minting side and the three validators. The keyed hash and the JSON printer and
reader are parameters; each result names what it assumes of them.

**State machines and indices.** `Spans.dfy` (nested spans with exceptions),
`Breaker.dfy`, `Retry.dfy` and `EmbeddingJobs.dfy` (backoff; the random
factor is a parameter), `Dialogue.dfy`, `Subscriptions.dfy`, `AbRouting.dfy`,
`AbPromotion.dfy` and `Luhn.dfy`.

## Where the code and its documentation differ

The model follows the code.

- `split_parents` calls the linked parent "a valid covering parent for any
  child that uses it". It is one exactly under the condition of
  `Chunker.LinkedParentCovers`; with the default sizes the child that
  starts at token 450 already sticks out of its parent
  (`Chunker.DefaultChildrenExactly`), the one that starts at 900 misses it
  altogether (`Chunker.DefaultLinksExactly`), and from token 2,500 on every
  child does (`Chunker.FarLinksNeverCover`).
- `_agreement_rate` is documented as the share of agreeing pairs, chosen
  because kappa degenerates when one rater is constant. The code returns kappa,
  which is then 0 unless every pair agrees (`Kappa.ConstantRater`,
  `Kappa.ConstantJudge`), so such a golden set is sent to recalibration with a
  single disagreement. The code returns the share if and only if all pairs agree or no label was given by both
  raters (`Kappa.ShareExactly`), and it leaves the documented range [0, 1]
  exactly when there are fewer agreements than chance would give
  (`Kappa.NegativeExactly`, with -1 in `Kappa.CrossedPairs`).
- `_MAX_IN_FLIGHT` is described as a bound on memory growth. The eviction is
  dead code up to 10,001 tasks a processor; with more, it can forget an id that
  is being handled, and a second task then handles the same message
  (`ConsumerTheorems.OverCapacity`, `ConsumerTheorems.CapacityIsExact`). The
  bound itself holds in every run exactly up to 10,000 tasks
  (`ConsumerTheorems.InFlightBoundExactly`).
- The in-memory window is called a drop-in replacement of the Redis path. Up to
  the first denial the two differ exactly as `RateLimitRedis.AgreeExactly` says,
  and in memory an evicted bucket lets requests through
  (`RateLimit.DecidesExactly`, `RateLimit.EvictionOverAdmits`).
- `verify_jwt` of the WebSocket module describes acceptance of other non-empty
  tokens; the code accepts none of these, accepts payloads without an expiry,
  and raises on a payload segment that is not ASCII (`Jwt.WsRaisesExactly`,
  `Jwt.WsRaises`).
- The experiment factory checks that a split adds up to 1, the router reads
  weights as percentages, and skips those that are texts
  (`AbRouting.AcceptedSplitsFallBack`). It also skips negative weights, which
  the factory adds up; for such splits `AbRouting.FallbackBuckets` counts, and
  `AbRouting.NegativeWeight` is one that goes to one variant altogether.
- `claim_pending` calls XCLAIM without the JUSTID option and uses the reply as a
  list of ids, as its comments describe. The model takes the reply as ids.
- `handle_subscribe` accepts an empty connection id, which `is_subscribed` then
  denies and `unregister_connection` does not remove; the contracts of
  `Subscriptions.Registry` state both.
- The circuit breaker declares levels 4 and 5; no run reaches them
  (`Breaker.RunInvariant`).

## Model

| member | source | states |
|---|---|---|
| `StreamIds.NextStreamIdIsSuccessor` | `03-development/src/app/infra/redis_streams.py:95-110` | with any integer reader that reads back what is printed: on a well-formed id the text-level increment yields the least id above it, so no pending id lies between the cursor and the last row of a page |
| `StreamIds.NextStreamIdStuck` | `03-development/src/app/infra/redis_streams.py:95-110` | with any such reader, whatever other texts it takes: the text comes back unchanged exactly when it has no dash or no integer after the first dash; only then can the cursor stand still |
| `StreamIds.RenderInjective` | `03-development/src/app/infra/redis_streams.py:284-288` | comparing cursors as text is comparing them as ids |
| `RedisServer.RenderCursorInjective` | `03-development/src/app/infra/redis_streams.py:252-288` | the same, with the opening cursor "-" included |
| `RedisServer.PendingFrom` | `03-development/src/app/infra/redis_streams.py:258-261` | XPENDING range lists the pending ids at or after the cursor, all of them, in ascending order |
| `PendingPagination.RedisClient.Await` | `03-development/src/app/infra/redis_streams.py:228-289` | between two awaited commands anything may happen that other clients can do; entries in `kept` are not acknowledged by others, entries in `alone` not touched at all |
| `PendingPagination.RedisClient.ListPending` | `03-development/src/app/infra/redis_streams.py:258-261` | one XPENDING range command after interference lists what is pending at that moment |
| `PendingPagination.RedisClient.FetchFields` | `03-development/src/app/infra/redis_streams.py:210-226` | XRANGE of one id: its payload, or nothing once it is trimmed |
| `PendingPagination.RedisClient.Claim` | `03-development/src/app/infra/redis_streams.py:272-276` | XCLAIM JUSTID of one id, exactly, in the state that interference has led to: granted only if the entry is then pending, idle for the limit and with a payload; every grant is recorded with the idle time at that moment |
| `PendingPagination.AsyncMessageProcessor.ClaimRow` | `03-development/src/app/infra/redis_streams.py:264-278` | a row is skipped when fresh or without payload, otherwise claimed with the idle limit, so that whatever others do in between a grant is of an entry nobody touched for that long; under interference an entry nobody else touches is returned whenever it is stale and has a payload; alone on the server it is taken over exactly when it can be granted |
| `PendingPagination.AsyncMessageProcessor.ClaimRows` | `03-development/src/app/infra/redis_streams.py:264-278` | a page yields messages in ascending order from stale rows with their stored payload, XCLAIM granted exactly those, each idle for the limit at its grant, and every stale row with a payload whose entry nobody else touches is among them |
| `PendingPagination.AsyncMessageProcessor.ClaimPage` | `03-development/src/app/infra/redis_streams.py:258-288` | a full page advances the cursor strictly past its last row (so the non-advance guard is dead), a short one ends the sweep with its guarantee |
| `PendingPagination.AsyncMessageProcessor.ClaimPending` | `03-development/src/app/infra/redis_streams.py:228-289` | over any interference: ids visited in strictly ascending order, none twice; every entry nobody else acknowledges is visited unless the cap of 100 x 10,000 is used up; what is returned is what XCLAIM granted, from stale rows, each entry idle for the limit at the moment of its grant, and contains every visited entry that nobody else touches, shown or at the start stale, and with a payload; with fixed membership the visits are exactly the list; alone on the server, exactly the stale entries with a payload are returned and reassigned |
| `PendingPagination.UnharmedPage` | `03-development/src/app/infra/redis_streams.py:258-278` | every page keeps: entries nobody else touches are as at the start until visited, show at least the idle time they had then, and are taken when that is enough |
| `PendingPagination.FixedMembership` | `03-development/src/app/infra/redis_streams.py:258-288` | a duplicate-free ascending visit of a fixed list that misses nothing is the whole list, in order |
| `ConsumerProtocolProofs.ExclusiveKept` | `03-development/src/app/infra/redis_streams.py:307-351` | every step keeps the in-flight set equal to the ids being handled, with one owner each |
| `ConsumerProtocolProofs.EvictionIdle` | `03-development/src/app/infra/redis_streams.py:346-351` | within capacity the eviction at the end of an iteration removes nothing |
| `ConsumerProtocolProofs.AccountedKept` | `03-development/src/app/infra/redis_streams.py:160-208` | every step keeps each entry in at most one of undelivered, pending, acknowledged |
| `ConsumerProtocolProofs.CausalKept` | `03-development/src/app/infra/redis_streams.py:307-344` | every step keeps: an acknowledgement follows a normal return, a return a start, a start a grant to the same task |
| `ConsumerProtocolProofs.SpacedKept` | `03-development/src/app/infra/redis_streams.py:189-202` | every step keeps: one delivery first, then claims spaced by the idle limit of the claimant |
| `ConsumerProtocolProofs.RunInv` | `03-development/src/app/infra/redis_streams.py:307-351` | all invariants hold in every state of every run |
| `ConsumerTheorems.ExclusiveHandling` | `03-development/src/app/infra/redis_streams.py:307-351` | for every interleaving within capacity: the in-flight set is exactly the set of ids whose handling has begun and not finished, no two tasks of one processor handle the same id, and every eviction is empty |
| `ConsumerTheorems.CapacityIsExact` | `03-development/src/app/infra/redis_streams.py:346-351` | in all reachable states the in-flight set is exact, and no id is with two tasks of one processor, each if and only if no processor is shared by more than 10,001 tasks |
| `ConsumerTheorems.OverCapacity` | `03-development/src/app/infra/redis_streams.py:307-351` | with more tasks there is a run in which two tasks of one processor handle the same message |
| `ConsumerTheorems.InFlightBoundExactly` | `03-development/src/app/infra/redis_streams.py:126` | the in-flight set is within 10,000 in every reachable state if and only if no processor has more tasks than that |
| `ConsumerTheorems.NothingLost` | `03-development/src/app/infra/redis_streams.py:160-208` | in every run an entry is in at most one of undelivered, pending, acknowledged, and in one of them as long as its payload is there |
| `ConsumerTheorems.BacklogIsUndelivered` | `03-development/src/app/infra/redis_streams.py:163-180` | in every state of every run before the group exists, every entry of the stream counts as undelivered, and still does once the group is created, because it starts at id "0" |
| `ConsumerTheorems.AckedWasHandled` | `03-development/src/app/infra/redis_streams.py:314-344` | every acknowledged entry was granted to a task whose handler was then called on it and returned normally, before the acknowledgement |
| `ConsumerTheorems.ClaimsAreSpaced` | `03-development/src/app/infra/redis_streams.py:272-276` | two grants of one id are at least the later claimant's idle limit apart, whoever the claimants are |
| `ConsumerTheorems.LogOnlyGrows` | `03-development/src/app/infra/redis_streams.py:307-351` | the event log of a later state extends that of an earlier one |
| `ConsumerTheorems.NeverStuck` | `03-development/src/app/infra/redis_streams.py:307-351` | a task that has not ended can always take its next step |
| `ConsumerTheorems.SweepFinishes` | `03-development/src/app/infra/redis_streams.py:252-289` | whatever the pending list holds, a task in its sweep comes to handling what it claimed by its own steps alone |
| `ConsumerTheorems.SweepVisits` | `03-development/src/app/infra/redis_streams.py:252-289` | in every run an entry that is pending throughout a task's sweep is on a page the sweep lists, unless it uses up its rounds |
| `ConsumerProgress.RoundedRun` | `03-development/src/app/infra/redis_streams.py:257-288` | in every run a task in its sweep is within its rounds and its page |
| `ConsumerProgress.ToSummary` | `03-development/src/app/infra/redis_streams.py:307-351` | a task comes back to the start of its loop by its own steps, unless it starts a waiting entry on the way |
| `ConsumerProgress.SweepTakes` | `03-development/src/app/infra/redis_streams.py:252-289` | a sweep that begins with a stale entry among the first 1,000,000 pending ones ends with it among what was claimed |
| `ConsumerProgress.CanStillBeHandled` | `03-development/src/app/infra/redis_streams.py:307-351` | from every state of every run, a pending entry with a payload among the first 1,000,000, not being handled on the processor, comes to be started by any task of it that has not ended, by that task's own steps and the passing of time |
| `ConsumerAcks.AcksAreReturns` | `03-development/src/app/infra/redis_streams.py:314-344` | in every state of every run an acknowledgement has been requested for exactly the entries whose handler returned normally, and as long as such an entry is pending the server can take it off the list |
| `ConsumerAcks.ClaimsWereListedStale` | `03-development/src/app/infra/redis_streams.py:264-276` | in every run a task only tries to claim rows that its listing showed as idle for the limit |
| `ConsumerAcks.AckedForGood` | `03-development/src/app/infra/redis_streams.py:204-208` | in every run an acknowledged entry is never granted nor acknowledged again |
| `ConsumerAcks.PendingNamesLastGrantee` | `03-development/src/app/infra/redis_streams.py:189-202` | in every state of every run the pending list names for each entry the consumer and the moment of its latest grant |
| `ConsumerAcks.HandlersGetThePayload` | `03-development/src/app/infra/redis_streams.py:210-226` | in every state of every run every message in a task's hands carries the payload stored under its id, as long as that is stored |
| `ConsumerDelivery.CanStillBeAcked` | `03-development/src/app/infra/redis_streams.py:307-344` | from every state of every run, a pending entry with a payload among the first 1,000,000, not being handled on the processor, comes to be handled by any live task of it by its own steps and the passing of time; once the handler returns and the server has its turn it is acknowledged and off the list |
| `ConsumerDelivery.NextCanBeAcked` | `03-development/src/app/infra/redis_streams.py:307-344` | the same for the next undelivered entry of the stream, whatever is pending: any live task reads it and starts its handler by its own steps alone, and it ends acknowledged |
| `ConsumerDelivery.RaisesDoNotStop` | `03-development/src/app/infra/redis_streams.py:314-344` | whichever handlers raise on the way, a task comes to start every message it has claimed or read |
| `RateLimit.AdmittingKeepsBound` | `03-development/src/app/infra/rate_limit.py:341-354` | admitting to a bucket that is not full keeps every closed one-second interval that begins after the last loss within the limit |
| `RateLimit.BurstsExactly` | `03-development/src/app/infra/rate_limit.py:111-119` | how many requests at one moment leave room for another: up to 29 on the messengers and a2a, 9 on the web, 99 for agents, any number elsewhere |
| `RateLimit.LiveInWindow` | `03-development/src/app/infra/rate_limit.py:326-329` | the buckets that survive the sweep are exactly those with an entry in the window |
| `RateLimit.DeleteTracks` | `03-development/src/app/infra/rate_limit.py:326-329` | deleting a stale bucket is unobservable; deleting a live one loses nothing later than its last entry |
| `RateLimit.LengthIsCount` | `03-development/src/app/infra/rate_limit.py:348-352` | after the expiry loop the length of the bucket is the number of admissions in the window, once the last loss is out of it, and never more |
| `Windows.CountIsInside` | `03-development/src/app/infra/rate_limit.py:348-352` | the count is the number of positions whose moment lies in the closed interval |
| `RateLimit.RateLimiter.Allow` | `03-development/src/app/infra/rate_limit.py:160-171` | an unknown platform is always admitted and nothing changes; otherwise the in-memory decision with all it promises |
| `RateLimit.RateLimiter.InMemoryCheck` | `03-development/src/app/infra/rate_limit.py:321-354` | admitted exactly when fewer than `limit` entries of the key's bucket lie in the closed last second; this is the right decision, fewer than `limit` admissions there, if and only if the limit does not fall among the admissions forgotten with an evicted bucket; a denial is always right, and every decision is once the last loss is out of the window; the admission log, the losses and all buckets are determined by the room made; within at most 10,001 buckets and with at most `limit` admissions in every closed second after the last loss |
| `RateLimit.RoomExplained` | `03-development/src/app/infra/rate_limit.py:325-339` | a key loses admissions only with its bucket, which is gone then and ended in the window, only when more than 10,000 buckets have an entry there, and one key a call; above 10,000 buckets everything that stays ends in the window, and all of that stays if it is at most 10,000 |
| `RateLimit.DecidesExactly` | `03-development/src/app/infra/rate_limit.py:348-354` | a decision differs from the admission log exactly when the limit falls among the forgotten admissions of the window |
| `RateLimit.EvictionOverAdmits` | `03-development/src/app/infra/rate_limit.py:330-354` | it can: for every positive limit a full bucket that is evicted lets the next request through |
| `RateLimit.RateLimiter.Expire` | `03-development/src/app/infra/rate_limit.py:348-350` | the expiry loop drops exactly the entries at the front that are older than the window |
| `RateLimit.RateLimiter.MakeRoom` | `03-development/src/app/infra/rate_limit.py:325-339` | nothing while there are at most 10,000 buckets; otherwise every bucket without an entry at or after the start of the window goes, and of the others only as many as are still too many, with the losses that this means |
| `RateLimit.RateLimiter.Evict` | `03-development/src/app/infra/rate_limit.py:330-339` | the eviction deletes a sample of the size that is too many, one bucket at most |
| `RateLimit.RateLimiter.DeleteBuckets` | `03-development/src/app/infra/rate_limit.py:328-339` | the deletion loops remove exactly the listed keys, and the losses are the last entries of the live ones among them |
| `RateLimitRedis.ExpiryUnseen` | `03-development/src/app/infra/rate_limit.py:124-129` | the key expiry of two seconds never changes what is in the window |
| `RateLimitRedis.StoredScores` | `03-development/src/app/infra/rate_limit.py:124-129` | after any trace the sorted set holds exactly the attempts of the second before the last one |
| `RateLimitRedis.ScriptCountsAttempts` | `03-development/src/app/infra/rate_limit.py:124-129` | the script counts exactly the attempts of the last second, its own included |
| `RateLimitRedis.RedisIsStricter` | `03-development/src/app/infra/rate_limit.py:254-295` | what Redis admits the in-memory window admits, when no earlier request came exactly one second before |
| `RateLimitRedis.AgreeExactly` | `03-development/src/app/infra/rate_limit.py:254-354` | as long as nothing has been denied, the two disagree on a request if and only if the attempts of the last second are below the limit and together with those exactly one second ago reach it |
| `RateLimitRedis.AgreeUpToFirstDenial` | `03-development/src/app/infra/rate_limit.py:254-295` | hence they agree on every request up to and including the first denial when none came exactly one second before |
| `RateLimitRedis.ExactlyOneSecondApart` | `03-development/src/app/infra/rate_limit.py:341-354` | the exception is real: `limit` requests at 0 and one at 1 are admitted by Redis and denied in memory |
| `Tokenizer.TokenizeJoin` | `03-development/src/app/core/knowledge.py:903-912` | joining the tokens of any text gives the text |
| `Tokenizer.TokenizeAlternates` | `03-development/src/app/core/knowledge.py:903-912` | tokens are non-empty runs of one class, neighbours of different classes |
| `Tokenizer.TokenizeUnique` | `03-development/src/app/core/knowledge.py:903-912` | there is only one such decomposition, so the tokens are the maximal runs |
| `Chunker.SliceTokens` | `03-development/src/app/core/knowledge.py:915-967` | the three `ValueError`s in their order, and otherwise one chunk for every start below the number of tokens, with its window, id, type, parent and token count |
| `Chunker.ChunkCount` | `03-development/src/app/core/knowledge.py:949-951` | the number of chunks is the number of tokens over the step, rounded up |
| `Chunker.ChunkIdsDistinct` | `03-development/src/app/core/knowledge.py:957-958` | no two chunks share an id |
| `Chunker.ChunkTokens` | `03-development/src/app/core/knowledge.py:952-959` | tokenising a chunk again gives exactly its window |
| `Chunker.SlicingLossless` | `03-development/src/app/core/knowledge.py:915-967` | the first size - overlap tokens of the chunks, read off their contents, rebuild the tokens and the text |
| `Chunker.AdjacentShare` | `03-development/src/app/core/knowledge.py:924-932` | adjacent chunks share `overlap` tokens, as far as both go |
| `Chunker.SplitParents` | `03-development/src/app/core/knowledge.py:985-1002` | succeeds exactly on a text with a character that is no whitespace and an overlap below the parent size; parents are the windows of that size with the overlap of the specification |
| `Chunker.SplitChildren` | `03-development/src/app/core/knowledge.py:1004-1026` | succeeds exactly on a text with a character that is no whitespace and a positive child size; children tile the document: their contents, joined, are the text |
| `Chunker.ChunkShape` | `03-development/src/app/core/knowledge.py:952-967` | a chunk is never empty, its id is its place, and its token count is the number of tokens its content has |
| `Chunker.KindsOfChunks` | `03-development/src/app/core/knowledge.py:985-1026` | every parent of a split can be registered as a parent, with text and without a link; every child has text, a link, and the type that the index refuses as a parent |
| `Chunker.LinkedParentExists` | `03-development/src/app/core/knowledge.py:1014-1020` | `start // parent_size` names exactly one parent that `split_parents` produces, and it begins at or before the child |
| `Chunker.LinkedParentCovers` | `03-development/src/app/core/knowledge.py:988-996` | the linked parent holds the child's first token if and only if start % size + (start // size) * overlap < size |
| `Chunker.LinkedParentCoversChild` | `03-development/src/app/core/knowledge.py:988-996` | the linked parent holds the whole child if and only if the child ends before the parent's window does |
| `Chunker.CoveredChildIsQuoted` | `03-development/src/app/core/knowledge.py:988-996` | a child inside its linked parent is a piece of the parent's text |
| `Chunker.FarLinksNeverCover` | `03-development/src/app/core/knowledge.py:988-996` | once (start // size) * overlap reaches the size, no linked parent holds the first token |
| `Chunker.StepLinkCovers` | `03-development/src/app/core/knowledge.py:985-1002` | dividing by the step instead of the size always names a parent that holds the first token |
| `Chunker.DefaultLinksExactly` | `03-development/src/app/core/knowledge.py:859-881` | with the default sizes every child's first token is in its linked parent if and only if the document has at most 900 tokens |
| `Chunker.DefaultChildrenExactly` | `03-development/src/app/core/knowledge.py:859-881` | with the default sizes every child is in its linked parent as a whole if and only if the document has at most 500 tokens |
| `ParentIndex.ParentChildIndex.AddLink` | `03-development/src/app/core/knowledge.py:1052-1080` | empty content is refused and changes nothing; otherwise the link and a parent of that id are recorded |
| `ParentIndex.ParentChildIndex.AddParent` | `03-development/src/app/core/knowledge.py:1082-1099` | only parents with text are registered, under their own id |
| `ParentIndex.ParentChildIndex.RetrieveParent` | `03-development/src/app/core/knowledge.py:1113-1135` | a result is the registered parent of the link, never empty text; none exactly when a link of the walk is missing |
| `LabelCounts.SumOfProducts` | `03-development/src/app/services/llm_judge.py:651-654` | the sum over labels equals a sum over pairs that mentions no label order |
| `LabelCounts.CountsOverlap` | `03-development/src/app/services/llm_judge.py:651-653` | two counts exceed the number of pairs by at most the agreements on that label |
| `LabelCounts.CountsAreSizes` | `03-development/src/app/services/llm_judge.py:651-653` | each label count, and the number of agreements, is the number of items it speaks of |
| `Kappa.ExpectedIsOrderFree` | `03-development/src/app/services/llm_judge.py:654` | the chance agreement does not depend on the iteration order of the label set |
| `Kappa.CrossMatchesBound` | `03-development/src/app/services/llm_judge.py:648-654` | the inequality behind the lower bound: twice the chance matches are at most n * n + n * matches |
| `Kappa.KappaAsRatio` | `03-development/src/app/services/llm_judge.py:645-659` | kappa is (m n - s) / (n n - s) in whole numbers, and 1 when the denominator vanishes |
| `Kappa.KappaBounds` | `03-development/src/app/services/llm_judge.py:645-659` | -1 <= kappa <= 1; kappa is 1 if and only if all pairs agree; p_e = 1 forces p_o = 1, so the result 0.0 of that branch is unreachable |
| `Kappa.KappaSwap` | `03-development/src/app/services/llm_judge.py:645-659` | swapping the raters changes nothing |
| `Kappa.KappaPermute` | `03-development/src/app/services/llm_judge.py:645-659` | neither the order of the pairs nor that of the labels matters |
| `Kappa.ConstantRater` | `03-development/src/app/services/llm_judge.py:618-628` | when the first rater gives a single label, kappa is 0 unless every pair agrees |
| `Kappa.ConstantJudge` | `03-development/src/app/services/llm_judge.py:618-628` | the same when it is the second rater |
| `Kappa.ShareExactly` | `03-development/src/app/services/llm_judge.py:618-659` | the documented share of agreeing pairs is what the code returns if and only if all pairs agree or no label was given by both raters |
| `Kappa.NegativeExactly` | `03-development/src/app/services/llm_judge.py:633-636` | the documented range [0, 1] is left if and only if matches * n is below the chance matches |
| `Kappa.CrossedPairs` | `03-development/src/app/services/llm_judge.py:633-636` | two pairs that disagree crosswise give -1 |
| `Kappa.CompleteConcat` | `03-development/src/app/services/llm_judge.py:643-646` | the scored pairs of two stretches of rows are those of the first, then those of the second; one row yields its pair if it has both labels and nothing otherwise |
| `Kappa.PassExactly` | `03-development/src/app/services/llm_judge.py:543-562` | a cycle on a golden set passes if and only if the deviation does not exceed its threshold, and with n complete pairs, m of them agreeing, and s chance matches, n is positive and 10 (m n - s) >= 7 (n n - s) |
| `Kappa.FullAgreementPasses` | `03-development/src/app/services/llm_judge.py:554-562` | a fully agreeing golden set gives kappa 1 and action "pass" |
| `Base64Url.EncodeShape` | `03-development/src/app/api/adapters/utils.py:7-13` | encoded text is ASCII without dots, of a length that is never 1 mod 4 |
| `Base64Url.DecodeEncoded` | `03-development/src/app/api/adapters/utils.py:15-23` | decoding gives the data back whatever the spare bits of the last letter are |
| `Base64Url.RoundTrip` | `03-development/src/app/api/adapters/utils.py:7-23` | decode(encode(b)) = b for every byte string |
| `Base64Url.DecodeExactly` | `03-development/src/app/api/adapters/utils.py:15-23` | decoding, exactly, on every ASCII text without padding of its own: characters outside the alphabet change nothing but the padding that is restored; with m letters beyond the last full group it fails if and only if m = 1 or the restored padding is shorter than the group lacks; otherwise three bytes for four letters |
| `Base64Url.PaddingEndsInput` | `03-development/src/app/api/adapters/utils.py:15-23` | whatever follows padding that completes a group is ignored |
| `Base64Url.SpareBitsDiffer` | `03-development/src/app/api/adapters/utils.py:7-23` | other spare bits give another text exactly when the length is not a multiple of three |
| `Jwt.MintedSegments` | `03-development/src/app/api/adapters/web.py:156-170` | a minted token splits into exactly its three segments |
| `Jwt.SplitExactly` | `03-development/src/app/api/auth.py:37-41` | a token is cut at every dot and nowhere else |
| `Jwt.MintedTokensAgree` | `03-development/src/app/api/auth.py:85-104` | a token minted by either side is accepted by all three validators up to its expiry and by none afterwards |
| `Jwt.MintedRoles` | `03-development/src/app/api/auth.py:52-74` | the bearer of a live minted token is the administrator if and only if the subject is the administrator's name, a missing one counting as the empty name, and a customer otherwise; after the expiry anonymous |
| `Jwt.AssembledTokens` | `03-development/src/app/api/auth.py:44-58` | with a live payload, any header and any signature: the API accepts exactly on the right signature, the two others exactly if the header names HS256 as well |
| `Jwt.OddExpiries` | `03-development/src/app/api/adapters/verifiers.py:224-235` | an expiry that is no number: true and false count as 1 and 0, anything else is refused by all three |
| `Jwt.MintedWithoutExpiry` | `03-development/src/app/api/websocket.py:195-207` | a minted token without an expiry is refused by the API and the web adapter after the epoch; the WebSocket accepts it if and only if its payload is an object, an array that does not list "exp", or a string in which "exp" does not occur |
| `Jwt.GuestTokenNamesGuest` | `03-development/src/app/api/adapters/web.py:101-150` | processing a message with a guest token yields the guest it was minted for, or the 401 error once expired |
| `Jwt.AuthAgainstWeb` | `03-development/src/app/api/auth.py:32-74` | on every token: accepted by the API with an HS256 header if and only if accepted by the web adapter with a canonical signature |
| `Jwt.WebAgainstWs` | `03-development/src/app/api/adapters/verifiers.py:195-235` | on every token: accepted by the web adapter if and only if accepted by the WebSocket check with an expiry claim present |
| `Jwt.WsRaisesExactly` | `03-development/src/app/api/websocket.py:135-207` | the WebSocket check raises exactly on a good header with a payload segment that is not ASCII |
| `Jwt.WsRaises` | `03-development/src/app/api/websocket.py:190-191` | such a token: a good header and an accented letter as payload segment |
| `Jwt.RespelledTokens` | `03-development/src/app/api/auth.py:44-50` | the canonical-signature condition matters: a live token respelled with other spare bits is accepted by two validators and refused by the third |
| `Spans.Tracer.Enter` | `03-development/src/app/infra/observability.py:516-536` | a new span gets a fresh id, the top span as parent and its trace, or a new trace at the root |
| `Spans.Tracer.Exit` | `03-development/src/app/infra/observability.py:538-570` | the span is removed by value and recorded with the trace id among its attributes; one no longer there is not recorded |
| `Spans.Tracer.Run` | `03-development/src/app/infra/observability.py:484-570` | any nesting of spans, with exceptions at any point, appends exactly the records of the opened spans in post-order, keeps the stack, and ends in an exception if and only if the program raises outside its `try` blocks |
| `Spans.RaisesExactly` | `03-development/src/app/infra/observability.py:506-511` | a run ends in an exception if and only if some raise stands outside every `try` block, however many `with` blocks are around it |
| `Spans.OpenedThen` | `03-development/src/app/infra/observability.py:506-570` | of two stretches of code the second runs exactly if the first does not raise, and its spans come after |
| `Spans.BlockOutcomes` | `03-development/src/app/infra/observability.py:537-570` | a `with` block opens one span around those of its body and lets the exception of its body out, after which nothing runs; a `try` block opens none and lets nothing out |
| `Spans.TracingIsTransparent` | `03-development/src/app/infra/observability.py:506-570` | a program raises if and only if it does without its `with` blocks |
| `Spans.Tracer.GetCurrentTraceId` | `03-development/src/app/infra/observability.py:591-603` | none exactly when no span is open; otherwise the trace shared by all open spans, the root's included, and by the records they will leave |
| `Spans.AfterAppend` | `03-development/src/app/infra/observability.py:484-570` | running two stretches of code one after the other logs the concatenation |
| `Spans.ParentLinksMatchNesting` | `03-development/src/app/infra/observability.py:516-536` | in the log every span is named as parent by exactly as many records as it had children |
| `Spans.LogDeterminesNesting` | `03-development/src/app/infra/observability.py:484-570` | equal records come from the same spans in the same nesting |
| `Spans.EnclosingCount` | `03-development/src/app/infra/observability.py:516-536` | the enclosing span is named once for every top-level span opened inside it |
| `Spans.OneTrace` | `03-development/src/app/infra/observability.py:516-525` | every record inside a span carries that span's trace id |
| `Spans.TracePerTree` | `03-development/src/app/infra/observability.py:516-525` | every root span has a trace of its own, on exactly the records of its tree |
| `Breaker.CircuitBreaker.RecordLlmLatency` | `03-development/src/app/infra/circuit_breaker.py:73-84` | keeps the object in step with what was recorded, with the run properties of `RunInvariant`; slow readings raise the level up to 2, others leave it |
| `Breaker.CircuitBreaker.RecordLlmFailure` | `03-development/src/app/infra/circuit_breaker.py:90-100` | the same run properties; level 3 from the fifth failure since the last success on, and unchanged before |
| `Breaker.CircuitBreaker.RecordLlmSuccess` | `03-development/src/app/infra/circuit_breaker.py:102-126` | the same run properties; whenever nothing got worse since some moment of the history, the level is the one there less a third of the successes since, in the closed form of `RecoveryLevel` |
| `Breaker.CircuitBreaker.RecordEmbeddingFailure` | `03-development/src/app/infra/circuit_breaker.py:143-153` | the same run properties: the flag is up if and only if three failures of this kind were recorded since its last success; the level is unchanged |
| `Breaker.CircuitBreaker.RecordEmbeddingSuccess` | `03-development/src/app/infra/circuit_breaker.py:155-160` | the same run properties; the flag is down at once and the level unchanged |
| `Breaker.CircuitBreaker.RecordClassifierFailure` | `03-development/src/app/infra/circuit_breaker.py:187-197` | the same run properties: the flag is up if and only if three failures of this kind were recorded since its last success; the level is unchanged |
| `Breaker.CircuitBreaker.RecordClassifierSuccess` | `03-development/src/app/infra/circuit_breaker.py:199-204` | the same run properties; the flag is down at once and the level unchanged |
| `Breaker.RunInvariant` | `03-development/src/app/infra/circuit_breaker.py:73-204` | in every run: only levels 0 to 3; five model failures since the last success mean level 3; each lateral flag is up if and only if three failures of its kind happened since its last success |
| `Breaker.RecoveryLevel` | `03-development/src/app/infra/circuit_breaker.py:102-137` | n successes without a setback from level L with counter c lead to level max(0, L - (n + min(c, 2)) / 3) |
| `Breaker.LimitsExactly` | `03-development/src/app/infra/circuit_breaker.py:73-204` | from a fresh start: level 3 exactly from the fifth failure in a row, a lateral flag exactly from the third, level 1 exactly on a reading of 800 ms or more |
| `Breaker.FailureRestartsRecovery` | `03-development/src/app/infra/circuit_breaker.py:90-137` | a failure undoes all progress: afterwards n successes take off n / 3 levels, whatever had been counted before |
| `Breaker.NineSuccessesRestore` | `03-development/src/app/infra/circuit_breaker.py:102-137` | from any reachable state nine successes without a setback restore full service |
| `Breaker.LatencyLevel` | `03-development/src/app/infra/circuit_breaker.py:73-84` | slow readings raise the level one by one and never above 2 |
| `Breaker.RecoversThroughout` | `03-development/src/app/infra/circuit_breaker.py:102-137` | the closed form holds from every moment of every history on |
| `Retry.DelayBounds` | `03-development/src/app/infra/circuit_breaker.py:278-294` | a delay lies between half the cap and the cap |
| `Retry.RawDoubles` | `03-development/src/app/infra/circuit_breaker.py:278-286` | the uncapped delay is the base at first and doubles with every attempt |
| `Retry.SteadySleep` | `03-development/src/app/infra/circuit_breaker.py:278-294` | when every draw is c, the sleeps add up to exactly c * base * (2^n - 1) as long as the cap is not met and to c * n caps if the base exceeds it; without jitter, the same without c |
| `Retry.ExecuteWithRetry` | `03-development/src/app/infra/circuit_breaker.py:296-313` | as many calls as it takes to succeed, at most max(maxRetries, 1); the last exception is raised again; the sleeps are the delays in order, and together at most (m - 1) caps and base * (2^(m-1) - 1) |
| `Retry.TotalSleep` | `03-development/src/app/infra/circuit_breaker.py:278-294` | the sum of the first n delays is bounded both ways |
| `Retry.ExecutionSleep` | `03-development/src/app/infra/circuit_breaker.py:296-313` | the total sleep of a whole execution is bounded |
| `EmbeddingJobs.EmbeddingJob.Process` | `03-development/src/app/infra/jobs.py:261-289` | in every history the answer depends on the past only through the number of outages met: "failed" if and only if they have spent the budget, with an error that says whether the queue was there; otherwise "completed", or "retrying" with the delay of that number if it is not; the retry count is that number capped by the budget |
| `EmbeddingJobs.CountIsOutages` | `03-development/src/app/infra/jobs.py:261-275` | whatever the queue does, the retry count is the number of outages met so far, capped by the budget |
| `EmbeddingJobs.ResultExactly` | `03-development/src/app/infra/jobs.py:261-289` | every result in every run, from the outages met before it |
| `EmbeddingJobs.PermanentOutage` | `03-development/src/app/infra/jobs.py:261-289` | under a permanent outage exactly maxRetries "retrying" results with the strategy's delays, then "failed" for ever |
| `EmbeddingJobs.OutageBackoffBounded` | `03-development/src/app/infra/jobs.py:188-201` | all backoffs of an outage together are bounded, however long it lasts |
| `Dialogue.DialogueState.Transition` | `03-development/src/app/core/dst.py:267-285` | only edges of the table, one rank up or to ESCALATED, never out of a terminal state; otherwise the error and no change; the conversation stays within the laws of `ConversationInvariant` |
| `Dialogue.DialogueState.AutoEscalate` | `03-development/src/app/core/dst.py:316-379` | to ESCALATED or nowhere, never out of a terminal state, always on a low confidence, otherwise exactly on three rounds of slot filling; within the laws of the conversation |
| `Dialogue.DialogueState.HandleConfirmation` | `03-development/src/app/core/dst.py:400-468` | nothing outside AWAITING_CONFIRMATION; there, escalation if and only if two rounds have passed, else processing if and only if confirmed, and a denial counted if and only if denied; within the laws of the conversation |
| `Dialogue.ConversationInvariant` | `03-development/src/app/core/dst.py:87-107` | in every conversation from IDLE: turn count = rank of the state + 2 * denials outside ESCALATED, at most 6 + 2 * denials always, and confirmation asked once more than denied from then on |
| `Dialogue.EdgesExactly` | `03-development/src/app/core/dst.py:87-97` | the table holds exactly the edges that go one place further on the way to RESOLVED or ESCALATED |
| `Dialogue.WayReaches` | `03-development/src/app/core/dst.py:87-107` | every state is reached from IDLE by legal transitions alone, RESOLVED in six turns |
| `Dialogue.ResolvedWasConfirmed` | `03-development/src/app/core/dst.py:400-468` | a resolved conversation entered AWAITING_CONFIRMATION exactly denials + 1 times |
| `Dialogue.TerminalForever` | `03-development/src/app/core/dst.py:95-96` | RESOLVED and ESCALATED are never left and nothing is counted there |
| `Subscriptions.Registry.Register` | `03-development/src/app/api/websocket.py:324-343` | the relation is unchanged, the connection has a row; an empty id is ignored |
| `Subscriptions.Registry.Subscribe` | `03-development/src/app/api/websocket.py:512-520` | exactly the pair is added, to both dictionaries |
| `Subscriptions.Registry.Unregister` | `03-development/src/app/api/websocket.py:346-372` | exactly the pairs of the connection go, nobody else's, and no channel keeps an empty set; an empty id removes nothing |
| `Subscriptions.Registry.GetSubscribers` | `03-development/src/app/api/websocket.py:375-400` | exactly the connections related to the channel |
| `Subscriptions.Registry.IsSubscribed` | `03-development/src/app/api/websocket.py:403-422` | the relation, except that it denies the empty connection id |
| `Subscriptions.UnregisterInverse` | `03-development/src/app/api/websocket.py:362-372` | removing one side's row and the pairs of its channels keeps the dictionaries inverse |
| `AbRouting.RouteBucket` | `03-development/src/app/services/ab_testing.py:168-185` | the first variant whose cumulative range holds the bucket, or the fallback past the last bound |
| `AbRouting.RouteExactly` | `03-development/src/app/services/ab_testing.py:168-185` | a bucket goes to a variant if and only if it lies between the variant's bounds |
| `AbRouting.VariantBuckets` | `03-development/src/app/services/ab_testing.py:157-185` | variant i gets ceil(min(C_i, 100)) - ceil(min(C_(i-1), 100)) of the 100 buckets |
| `AbRouting.FallbackBuckets` | `03-development/src/app/services/ab_testing.py:157-185` | the remaining buckets fall back to control |
| `AbRouting.PercentagesHonoured` | `03-development/src/app/services/ab_testing.py:168-185` | whole weights that add up to 100 are honoured exactly |
| `AbRouting.AcceptedSplitsFallBack` | `03-development/src/app/services/ab_testing.py:412-414` | of every accepted split the buckets beyond the non-negative numbers among its weights go to control; without negative weights these are 99, 98 when the numbers add up to more than 1, and all 100 when the shares are in texts, which the factory reads and the router skips |
| `AbRouting.NegativeWeight` | `03-development/src/app/services/ab_testing.py:412-414` | the accepted split of -99 and 100 sends all buckets to one variant |
| `AbPromotion.CollectVariantMeans` | `03-development/src/app/services/ab_testing.py:272-306` | means of the observed variants in insertion order, and the number of all observations |
| `AbPromotion.MeansConcat` | `03-development/src/app/services/ab_testing.py:272-306` | two stretches of results contribute the means of the first, then those of the second, and the observations of both |
| `AbPromotion.OneVariant` | `03-development/src/app/services/ab_testing.py:295-304` | a variant with scores contributes its mean, which times their number is their sum; one without contributes none |
| `AbPromotion.SortSorts` | `03-development/src/app/services/ab_testing.py:309-322` | the sorted means are the means, in descending order |
| `AbPromotion.AutoPromote` | `03-development/src/app/services/ab_testing.py:205-269` | a variant is promoted, and its experiment completed, if and only if there are a hundred observations and its mean leads every other observed mean by 0.05 |
| `Luhn.LuhnValid` | `03-development/src/app/core/pii.py:402-423` | sixteen digits whose weighted sum from the right is a multiple of ten |
| `Luhn.PairTotal` | `03-development/src/app/core/pii.py:414-421` | of a pair the right digit counts as it is, the left one with the digits of its double |
| `Luhn.TotalConcat` | `03-development/src/app/core/pii.py:402-423` | the total of a number is that of its pairs from the right |
| `Luhn.SingleDigitChange` | `03-development/src/app/core/pii.py:402-423` | changing any single digit of an accepted number makes it refused |
| `Luhn.AdjacentSwap` | `03-development/src/app/core/pii.py:402-423` | swapping two unequal neighbours goes unnoticed if and only if they are 0 and 9 |
| `Luhn.OneCheckDigit` | `03-development/src/app/core/pii.py:402-423` | every 15-digit prefix has exactly one accepting check digit |

## Left out

- RateLimitRedis.RedisIsStricter: one key at a time, since keys do not interact; the error handling around the script (script reload, fail-open on an outage, fail-closed otherwise) is a case distinction and not modelled.
- PendingPagination.RedisClient.Await: sequence numbers are unbounded, so the overflow at 2^64 is not modelled.
- Jwt.MintedTokensAgree: JSON numbers are reals, so NaN and Infinity as an expiry are not modelled, and nothing is claimed about forging a signature.
- Kappa.PassExactly: floating-point rounding is not modelled, nor golden sets that mix pairs with dictionaries.
- Luhn.SingleDigitChange: about decimal digits; other characters that the digit test takes are in the model of the check itself.
- Spans.Tracer.Run: ids are taken never to repeat, for the random strings of 16 and 32 hexadecimal digits; one execution context; changes that the body makes to the attributes of an open span, and copied contexts that share a stack, are not modelled.
- EmbeddingJobs.EmbeddingJob.Process: retry counts are natural numbers, as they start at 0 and only grow; elapsed time is not part of the result.
- Breaker.RunInvariant: levels are numbers, the strings that name them are not modelled.
- Sorting in `_top_variant_gap` is a function on values with the order the library promises; that the argument is changed in place is not captured.
- `parse_message`, the field whitelist: a filter without state.
- The multi-message reads of `read` with a count above 1, which the consumer never asks for.
- `RateLimiter` reads its clock before it takes the lock; two calls whose readings are out of order are not modelled.
- `LLMJudge._aggregate`, the pairwise judges and CSAT scores: maxima and minima of two scores.
- `ContextWindowManager`: token counts come from an external tokenizer.
- `get_variant` beyond the routing of a bucket: the hash of user and experiment.
- Credit-card, phone, e-mail and address masking: regular expressions.
- Routers, webhook adapters, the WebSocket transport, SQL, the vector index and the other tiers of knowledge retrieval: input and output.
