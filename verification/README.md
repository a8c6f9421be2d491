# Verified models of the backend's stateful kernels

This project models the parts of the backend whose correctness depends on whole
histories, interleavings or cross-function agreement, and proves what they
promise. Each source file keeps its own form: objects that update fields are
classes with `modifies` clauses, loops are loops with invariants, expression code
is functions. Every class or loop is tied by its `ensures` to a specification
function or predicate; the lemmas then prove what that specification means, over
every input, every run or every interleaving.

`dafny verify dfyconfig.toml` checks all of it.

## What is modelled

**Rate limiting and ids** (`TokenBuckets`, `MemoryLimiter`, `SlidingWindow`,
`Snowflake`). The clock is an arbitrary list of readings. The token bucket's two
numbers decide exactly the all-windows specification. The idle-bucket sweep of the
keyed limiter is compared with a limiter that never sweeps, and it is invisible if
and only if a full bucket refills within the sweep interval. The Redis window is
characterised, for every clock, by the requests that no later request has trimmed
and no expiry has dropped. Snowflake
ids are proved unique and increasing down to Python's integer `|`, `&` and `<<`.

**Two-level cache** (`LruCache`, `LruRefinement`, `LruStack`, `MultiLevelCache`,
`CacheStaleness`, `CacheCompute`). The ordered dictionary is compared with a TTL
map that never evicts, and its contents after every run are those of a
specification without an order. Staleness is stated for any number of processes sharing L2,
against the log of every attempted write, and again in terms of the set calls and
the TTLs they pass. One `get_or_compute` is specified exactly; it is then interleaved
at every await, and an undisturbed interleaved call is proved to be that one.

**Turn lock and replay executor** (`TurnLock`, `ReplayProgram`, `ReplayExecution`,
`ReplayFencing`, `FrameBuffer`). The lock is a transition system of atomic Redis operations and
clock ticks. The executor's nested try / except / finally is a term of a small
statement language, evaluated with Python's exception semantics; the outcome of
each await is an input, so that one theorem covers every exit path. Fencing
interleaves executor, lease keeper and an environment that may rewrite both stores
at will; every interleaved run that finishes is an execution of the nested program.
Its other half is that a keeper in time keeps both lease and lock, so that a healthy
execution of any length ends with the status of its stream.
The publisher's buffer of answer tokens is interleaved with its flush timer.

**Canvas references** (`FirstOccurrences`, `CanvasRefs`, `MediaLabels`,
`NodeInputs`, `NodeSubmit`). Every collector is proved to list first positive occurrences, a
specification with exactly one solution. The two submission modes, which read the
graph through different code, are related to each other.

**Chat kernels** (`ToolPairing`, `StreamRetry`, `GateState`, `Embeddings`). Tool
calls and answers stay paired over whole conversations, retries never show a token
twice, the pending-gate record survives its store, and an embeddings response is
accepted exactly when its indexes are a permutation.

`Options`, `Sets`, `Text` and `JsonValues` hold shared definitions.

## Where the code and its promise part

The model follows the code. Where a natural reading of the promise fails, a lemma
shows a concrete input and another gives the exact condition, where there is one.

- A token request larger than the bucket is refused although no earlier window
  forbids it (`OversizedIsRefused`); the exact statement counts the current instant
  as a window (`AcquireIsExact`).
- The sweep is observable as soon as the burst exceeds rate times interval
  (`PurgeIsObservable`, `PurgeHiddenExactly`), and it can drop the requester's own
  bucket between lookup and use, which raises `KeyError` (`OwnBucketPurged`,
  `ReturningClientLosesBucket`).
- The sliding window bounds half-open windows; a closed window can hold one request
  more (`ClosedWindowIsTight`). Equal timestamps share one member
  (`TiesBreakTheBound`): on a clock that never steps back the bound holds for every
  configuration if and only if no timestamp repeats (`BoundedExactly`, and `TieBound`
  for how far it can fail). A clock that steps back defeats it too
  (`BackwardClockBreaksTheBound`) and makes the key's expiry visible (`ExpiryShows`);
  `DecisionAtAnyClock` is the exact decision for every clock. Rejected requests count
  too (`RejectionsCount`). A refusal whose hint cannot be read is
  treated as a Redis failure, so with `fail_open` the request passes
  (`RedisRateLimiter.Check`).
- A TTL of zero or less never expires in L1 while L2 refuses it
  (`NonPositiveTtlNeverExpires`). A cached string equal to the null sentinel reads
  back as None (`SentinelIsLost`, `TransparencyIsExact`).
- A cancelled execution is not fenced: the lease keeper leaves its loop when it reads
  the cancel flag, so a lock that expires afterwards is taken by another turn while
  the execution still publishes and still finishes with a conclusive status
  (`CancelledExecutionIsNotFenced`). A lasting loss is flagged if and only if the
  keeper does not first read that flag at its loop test (`LastingLossIsFlagged`).
- A lease lost between the keeper's two calls is missed by a keeper that is cancelled
  before it loops (`LookIsPast`).
- A flagged loss makes the run FAILED if and only if the executor has not already
  passed its last check with a conclusive stream (`FencedExactly`).
- The executor's three cleanup calls are skipped when a cancellation, even the first
  one, arrives during the wait for its helper tasks, and in no other case
  (`InterruptedWaitSkipsCleanup`, `CleanupIsExact`).
- A flush that fails drops the held-back answer before the append. If the timer's
  flush fails while a frame waits for the lock, that frame is logged after the hole:
  a terminal frame then closes the log as completed without the answer
  (`AnswerIsMissing`). Without such a failure and without a cancelled timer the log
  is always a prefix of what was published (`LogIsPrefix`). A timer cancelled during
  its flush loses the answer without an exception (`CancelledTimerLosesAnswer`); a
  cleanly closed log is complete if and only if that has not happened
  (`CleanCloseIsComplete`).
- A local waiter for a turn whose table entry is overwritten never wakes
  (`WaiterWakes`).
- The comment in `prepare.py` speaks of a prefix; the code accepts any subsequence
  (`NonPrefixIsAccepted`, `ValidateAgentRefs`) and treats an empty list as everything.
- Tool calls with an empty id stay unanswered when a batch is refused
  (`GateSoloPairs`).
- Stripping does not descend into lists other than `choices`
  (`SelectorLeaksThroughList`, `StripIsDeepExactly`). `normalize_field_defs`
  keeps each definition's raw name although its description speaks of the canonical
  one (`RawNameIsKept`); the result is canonical if and only if every named input
  already was (`CanonicalExactly`).
- The "stream ended without model output" branch is reached only with a negative
  retry setting (`Stream`).

## Model

| member | source | states |
|---|---|---|
| TokenBuckets.TokenBucket.TryAcquire | app/utils/rate_limiter.py:23-39 | the refill-then-spend update in place, also on refusal, equals the specified next state and decision |
| TokenBuckets.LevelIsTightestWindow | app/utils/rate_limiter.py:23-39 | for any clock, rate and request sizes, the incremental level admits x iff x fits every window of the history |
| TokenBuckets.AcquireIsExact | app/utils/rate_limiter.py:23-39 | with a monotone clock a request is granted iff every window that starts at a call still has room for it |
| TokenBuckets.OversizedIsRefused | app/utils/rate_limiter.py:23-39 | a request larger than the bucket is refused although every earlier window has room |
| TokenBuckets.WindowBound | app/utils/rate_limiter.py:23-39 | tokens granted between any two calls never exceed capacity plus the refill between them |
| TokenBuckets.LevelInBucket | app/utils/rate_limiter.py:23-39 | over every history with a monotone clock and non-negative requests the stored level stays within 0 and capacity |
| TokenBuckets.RetryAfterIsExact | app/utils/rate_limiter.py:41-46 | with no call in between, a token is granted after d seconds iff d reaches the reported wait and the bucket can hold a token |
| MemoryLimiter.MemoryRateLimiter.constructor | app/utils/rate_limiter.py:52-66 | empty table, and a missing or zero burst replaced by two seconds' worth, truncated toward zero |
| MemoryLimiter.MemoryRateLimiter.MaybeCleanup | app/utils/rate_limiter.py:93-108 | drops exactly the buckets idle longer than the interval, only when due, and leaves the others as they are |
| MemoryLimiter.MemoryRateLimiter.CheckKey | app/utils/rate_limiter.py:80-124 | lookup or create, sweep, lookup again, acquire: new table and answer, including the missing key and the zero division |
| MemoryLimiter.OwnBucketPurged | app/utils/rate_limiter.py:80-91 | the requester loses its own bucket iff a sweep is due and its refill point is before the threshold |
| MemoryLimiter.ReturningClientLosesBucket | app/utils/rate_limiter.py:80-91 | for every configuration a client that returns more than an interval later finds its bucket gone |
| MemoryLimiter.PurgeIsUnobservable | app/utils/rate_limiter.py:80-124 | when burst is at most rate times interval, over every run the answered requests get what a never-sweeping limiter answers them |
| MemoryLimiter.PurgeIsObservable | app/utils/rate_limiter.py:80-124 | above that condition there is a run, with no lost requester, on which the sweep changes an answer |
| MemoryLimiter.PurgeHiddenExactly | app/utils/rate_limiter.py:80-124 | the sweep is invisible over all runs iff burst is at most rate times interval |
| MemoryLimiter.DefaultBurstIsSafe | app/utils/rate_limiter.py:60-62 | the default burst meets the condition for every interval of two seconds or more |
| MemoryLimiter.HintIsEnough | app/utils/rate_limiter.py:113-124 | the whole-second hint is the least above the exact wait, and waiting that long suffices iff a token fits the bucket |
| SlidingWindow.RedisRateLimiter.Check | app/utils/rate_limiter.py:162-202 | trim, add, count and expire as one pipeline on the key's set; the refusal with its hint and limit; the fail-open and fail-closed outcomes when Redis is down at either call |
| SlidingWindow.HintIsExact | app/utils/rate_limiter.py:178-192 | the hint is the least positive whole second after which the oldest recorded request has left the window, and the window itself when none is read |
| SlidingWindow.StoredIsKept | app/utils/rate_limiter.py:162-173 | for any clock the stored scores are those of the requests that no later request has trimmed and no expiry has dropped |
| SlidingWindow.DecisionAtAnyClock | app/utils/rate_limiter.py:162-192 | for any clock a request is accepted iff at most limit distinct times are still kept when it is counted |
| SlidingWindow.StandingIsWindow | app/utils/rate_limiter.py:162-173 | on a clock that never steps back the kept requests are exactly those in the window |
| SlidingWindow.ExpiryIsInvisible | app/utils/rate_limiter.py:169-173 | on a clock that never steps back the key's expiry at window + 1 never changes the recorded set |
| SlidingWindow.ExpiryShows | app/utils/rate_limiter.py:169-173 | on one that steps back the expiry drops a request that nothing has trimmed |
| SlidingWindow.DecisionIsExact | app/utils/rate_limiter.py:162-192 | on a clock that never steps back a request is accepted iff at most limit distinct request times lie in the window that ends with it |
| SlidingWindow.InstantBound | app/utils/rate_limiter.py:162-192 | on a clock that never steps back every window accepts at most limit distinct instants, even with equal timestamps |
| SlidingWindow.BoundedExactly | app/utils/rate_limiter.py:162-192 | on a clock that never steps back every window of every configuration accepts at most limit requests iff no timestamp repeats |
| SlidingWindow.WindowBound | app/utils/rate_limiter.py:162-192 | with strictly increasing times every half-open window accepts at most limit requests |
| SlidingWindow.ClosedWindowBound | app/utils/rate_limiter.py:162-192 | a closed window accepts at most limit + 1 |
| SlidingWindow.ClosedWindowIsTight | app/utils/rate_limiter.py:162-192 | two increasing requests reach limit + 1 in a closed window |
| SlidingWindow.TiesBreakTheBound | app/utils/rate_limiter.py:162-192 | two simultaneous requests both pass a limit of one |
| SlidingWindow.TieBound | app/utils/rate_limiter.py:162-192 | on a clock that never steps back, if no timestamp occurs more than r times, every window accepts at most limit times r requests |
| SlidingWindow.BackwardClockBreaksTheBound | app/utils/rate_limiter.py:162-192 | with a clock that steps back three requests pass a limit of two in one window |
| SlidingWindow.RejectionsCount | app/utils/rate_limiter.py:162-192 | a request is refused whenever limit earlier requests, rejected ones included, lie in its window |
| Snowflake.OrFills | app/utils/snowflake.py:59-64 | bit-or below a shifted value is addition, for every integer |
| Snowflake.AndMasks | app/utils/snowflake.py:51-51 | bit-and with 2^k - 1 is the remainder modulo 2^k |
| Snowflake.NextSequence | app/utils/snowflake.py:51-51 | the masked increment counts to 4095 and wraps to zero |
| Snowflake.SnowflakeGenerator.Create | app/utils/snowflake.py:20-30 | construction fails iff a worker or datacenter id is out of range |
| Snowflake.SnowflakeGenerator.GenerateId | app/utils/snowflake.py:36-64 | the field updates, the busy wait and the id equal the specified step; a backward clock raises with the state unchanged |
| Snowflake.PackIsSum | app/utils/snowflake.py:59-64 | the shifts and ors are the mixed-radix sum, for any timestamp |
| Snowflake.UnpackPack | app/utils/snowflake.py:6-18 | every id decodes to the timestamp, datacenter, worker and sequence it was made from |
| Snowflake.PackUnpack | app/utils/snowflake.py:6-18 | every integer is the id of exactly the fields it decodes to |
| Snowflake.IdFits | app/utils/snowflake.py:6-18 | the id is in [0, 2^63) iff the timestamp is in [0, 2^41) past the epoch |
| Snowflake.StepIssuesLater | app/utils/snowflake.py:43-64 | an issued id exceeds the previous state's id, and a call fails with the state unchanged iff the clock is behind |
| Snowflake.IdsIncrease | app/utils/snowflake.py:43-64 | over every list of calls and clock readings one generator's ids strictly increase and name the generator |
| Snowflake.GeneratorsDisjoint | app/utils/snowflake.py:43-64 | generators with different (datacenter, worker) never share an id |
| Snowflake.OutcomeIsExact | app/utils/snowflake.py:36-64 | a call gets an id iff the clock is ahead, or level with the sequence not exhausted or a later reading to come |
| Snowflake.FieldsAreExact | app/utils/snowflake.py:36-64 | a later millisecond starts at sequence zero, the same one counts on, and an exhausted one gives way to the first later reading, from zero |
| Snowflake.SequencesAreGapless | app/utils/snowflake.py:43-64 | over every run each id is the successor within its millisecond of the one before, or the first of a later millisecond |
| LruCache.LRUCache.Lookup | app/utils/cache.py:63-75 | a miss, an expired entry dropped, or a hit moved to the end: new dictionary and answer |
| LruCache.LRUCache.Store | app/utils/cache.py:77-94 | replace, evict the front or append, with the expiry stamp; raises iff the dictionary is empty and maxsize is not positive |
| LruCache.LRUCache.Discard | app/utils/cache.py:96-101 | removes the key and reports whether it was there |
| LruCache.LRUCache.Clear | app/utils/cache.py:103-105 | leaves an empty dictionary |
| LruCache.LRUCache.ListExpired | app/utils/cache.py:109-113 | lists each expired key once and no other |
| LruCache.LRUCache.CleanupExpired | app/utils/cache.py:107-116 | removes exactly the expired keys, keeps the order of the rest and returns their number |
| LruRefinement.LookupIsSound | app/utils/cache.py:63-116 | over every run and any clock a lookup misses or answers as an unbounded TTL map, and the size never exceeds maxsize |
| LruRefinement.LookupRetains | app/utils/cache.py:63-116 | a key followed by fewer than maxsize distinct other keys since its last touch is answered exactly |
| LruRefinement.VictimIsStale | app/utils/cache.py:77-94 | an evicted key has been followed by at least maxsize distinct other keys |
| LruStack.EvictionIsExact | app/utils/cache.py:63-116 | after every run, deletes, clears, cleanups, TTLs and any clock included, the cache holds exactly the entries not dropped since and never followed by maxsize distinct held keys |
| LruRefinement.EvictionByCount | app/utils/cache.py:63-94 | in runs of gets and of sets that do not expire, a key is cached iff fewer than maxsize distinct others were touched since |
| LruRefinement.TtlIsHonoured | app/utils/cache.py:63-94 | a stored value is served exactly until its TTL has passed, and forever when the TTL is not positive |
| MultiLevelCache.Cache.GetValue | app/utils/cache.py:148-176 | L1, then L2 with an L1 fill of the right lifetime, None for the sentinel, None when Redis fails |
| MultiLevelCache.Cache.SetValue | app/utils/cache.py:178-207 | both levels and the result, with the default and minimum TTLs and a failed L2 write |
| MultiLevelCache.Cache.DeleteValue | app/utils/cache.py:209-221 | removes the key locally always and in L2 when Redis answers |
| MultiLevelCache.Cache.LookFor | app/utils/cache.py:286-293 | a get and the null check after it, each at its own clock reading |
| MultiLevelCache.Cache.AcquireLock | app/utils/cache.py:223-239 | refused iff Redis answers and holds the key's lock; otherwise taken, or skipped when Redis does not answer |
| MultiLevelCache.Cache.ReleaseLock | app/utils/cache.py:241-250 | deletes the key's lock whenever Redis answers, whoever took it |
| MultiLevelCache.Cache.GetOrCompute | app/utils/cache.py:279-313 | L1, L2, lock, answer and exception of one call equal those of the specified call, for every clock reading and every state of Redis at each await |
| MultiLevelCache.LookIsExact | app/utils/cache.py:148-176 | a look finds the live L1 entry, else what Redis still serves, and a cached None iff it is still live at the null check |
| MultiLevelCache.CallAnswers | app/utils/cache.py:286-313 | a call computes iff its look, and after a refused lock its second look, find nothing; it raises iff it computes and the compute raises; what is found is returned and Redis left alone |
| MultiLevelCache.CallStores | app/utils/cache.py:305-313 | a computed result to be cached is in L1 for min(l1_ttl, ttl) and in L2 for ttl iff Redis takes it; every other call stores nothing; a computing call drops its key's lock, held or not |
| MultiLevelCache.CallIsTransparent | app/utils/cache.py:279-313 | where every entry is the compute's result it stays so, and the call returns that result unless it is the sentinel string |
| CacheStaleness.RunKeeps | app/utils/cache.py:148-221 | in every run each L1 and L2 entry is justified by a logged write with a bounded lifetime |
| CacheStaleness.ServedIsRecent | app/utils/cache.py:148-221 | what a get answers from at t, a cached None included, was put no earlier than t minus its L2 TTL minus one L1 lifetime, and no later write reached L2 more than bound ago |
| CacheStaleness.ReadIsRecent | app/utils/cache.py:148-221 | the same for the value the caller sees |
| CacheStaleness.DefaultLife | app/utils/cache.py:178-189 | with the default L1 TTL that age is the TTL the caller passed, or else l2_ttl, plus l1_ttl, or null_ttl for a cached None |
| CacheStaleness.LogIs | app/utils/cache.py:178-221 | the log records the writes of the run in order, with the TTLs that the callers passed |
| CacheStaleness.AnsweredBySet | app/utils/cache.py:148-221 | what any process answers from was cached by a set call no longer ago than that call's ttl plus one L1 lifetime, and every later write of the key that reached L2 is at most bound old |
| CacheStaleness.L2ServesExactly | app/utils/cache.py:178-207 | after the last write that reached L2, a set, L2 and every process without its own copy serve the value exactly until the passed ttl is over |
| CacheStaleness.WriterCopy | app/utils/cache.py:178-192 | the writer's own copy serves exactly until the passed l1_ttl, or else min(l1_ttl, ttl), is over, unless the writer's other keys evict it |
| CacheStaleness.InvalidationReaches | app/server/infra/cache.py:9-9 | once a set, delete or invalidation reached L2 at w, no process answers from an entry put only before it, a cached None included, past w + bound |
| CacheStaleness.SetReachesEveryone | app/utils/cache.py:148-221 | past w + bound, while L2 keeps it and nobody writes the key again, every process reads what was set at w |
| CacheStaleness.L2HoldsLast | app/utils/cache.py:178-221 | in every run L2 holds exactly the last write of a key that reached it |
| CacheStaleness.LifeIsTight | app/utils/cache.py:148-207 | the age ttl + l1_ttl is approached arbitrarily closely by a two-process run |
| CacheStaleness.InvalidationIsTight | app/utils/cache.py:148-221 | another process still serves a deleted value a whole l1_ttl after the delete |
| CacheStaleness.StaleNullIsTight | app/utils/cache.py:148-207 | another process still answers None a whole null_ttl after a value was set |
| CacheStaleness.NonPositiveTtlNeverExpires | app/utils/cache.py:82-94 | a set with TTL zero is served by the writer's L1 at every later time and never stored in L2 |
| CacheCompute.LookIsGet | app/utils/cache.py:148-176 | the awaits of one undisturbed look give the answer and the L1 of one get of the two-level cache |
| CacheCompute.StoreIsSet | app/utils/cache.py:178-207 | the awaits of one undisturbed store leave both levels as one set does |
| CacheCompute.CallIsAlone | app/utils/cache.py:279-313 | the awaits of one undisturbed call give the answer or exception, both levels and the lock of one specified `get_or_compute` |
| CacheCompute.StepKeeps | app/utils/cache.py:148-313 | one await of any call, expiry, eviction, delete or failure keeps every cached entry and pending result equal to the compute's |
| CacheCompute.RunKeeps | app/utils/cache.py:148-313 | the same over every interleaving |
| CacheCompute.TransparencyIsExact | app/utils/cache.py:279-313 | every returning call in every interleaving yields the compute's result iff that result is not the sentinel string |
| CacheCompute.SentinelIsLost | app/utils/cache.py:148-207 | a computed sentinel string is read back as None by the next call |
| TurnLock.SessionTurnLock.TryAcquire | app/agent/canvas/turn/lock.py:49-91 | SET NX EX on the session key, failure iff somebody owns it, and the new local entry with an unset completion event |
| TurnLock.SessionTurnLock.TryRefresh | app/agent/canvas/turn/lock.py:93-102 | renews the expiry iff the turn owns the key |
| TurnLock.SessionTurnLock.TryRelease | app/agent/canvas/turn/lock.py:104-124 | deletes the key iff the turn owns it; drops and wakes the local entry iff it is the turn's |
| TurnLock.SessionTurnLock.ForceRelease | app/agent/canvas/turn/lock.py:130-140 | reads, then deletes unconditionally whatever the key has become in between |
| TurnLock.SessionTurnLock.CancelAndWait | app/agent/canvas/turn/lock.py:142-195 | requests cancellation, waits locally or polls until the owner changes, and forces the release iff the wait times out, whatever others did to keys and table meanwhile |
| TurnLock.WaiterWakes | app/agent/canvas/turn/lock.py:84-124 | over every run of the local table, a waiter's event fires iff the turn is released before another turn enters its session |
| TurnLock.OwnershipIsExact | app/agent/canvas/turn/lock.py:49-124 | over every run without own release and forced delete, a turn owns the session throughout iff it renews before a TTL has passed since its last acquire or refresh |
| TurnLock.OwnershipLasts | app/agent/canvas/turn/lock.py:49-124 | over every such run the key expires one TTL after the turn's own last acquire or refresh, every acquire leaves the world unchanged, and other turns' refresh and release leave owner and expiry alone |
| TurnLock.ReleaseFrees | app/agent/canvas/turn/lock.py:34-39 | after the owner's release nobody owns the session, the next acquire by any turn owns it for exactly one TTL, and other sessions' keys are unchanged |
| TurnLock.HandOver | app/agent/canvas/turn/lock.py:49-124 | in whole runs the turn that asks next after a release gets the session, and then owns it throughout iff it renews in time |
| TurnLock.HoldersNeverOverlap | app/agent/canvas/turn/lock.py:49-124 | with timely renewal of one session and no forced delete of it, no two turns ever hold that session at once, whatever happens on other sessions |
| TurnLock.OverlapWithoutTimeliness | app/agent/canvas/turn/lock.py:49-140 | a late renewal or a forced delete lets a second turn in while the first still believes |
| TurnLock.LoserIsFenced | app/agent/canvas/turn/lock.py:93-116 | a believer that is not the owner learns it at its next refresh and changes no key by refresh or release |
| ReplayExecution.FramePublisher.Publish | app/agent/runtime/stream/replay.py:566-584 | appends until the first terminal frame, remembers pending and terminal, and surfaces flush and append errors |
| FrameBuffer.BufferedPublisher.FlushLocked | app/agent/runtime/stream/replay.py:618-636 | joins the held-back texts into one frame; they leave the buffer even if the append fails |
| FrameBuffer.BufferedPublisher.FlushAfterDelay | app/agent/runtime/stream/replay.py:607-616 | the timer's flush: a failure is kept for the next caller, a cancellation is swallowed |
| FrameBuffer.BufferedPublisher.Publish | app/agent/runtime/stream/replay.py:566-584 | the kept failure, the terminal test, and the put under the lock, with a timer flush in between if there is one |
| FrameBuffer.BufferedPublisher.PublishLocked | app/agent/runtime/stream/replay.py:570-584 | tokens are held back until the buffer is full; any other frame flushes first and then is appended and observed |
| FrameBuffer.BufferedPublisher.CloseAll | app/agent/runtime/stream/replay.py:586-589 | flushes, then raises the kept failure |
| FrameBuffer.BufferedPublisher.AppendFailure | app/agent/runtime/stream/replay.py:591-605 | flushes, tolerating only a full log, then appends the error frame and is terminal |
| FrameBuffer.AnnounceIsExact | app/agent/runtime/stream/replay.py:591-605 | the error frame is appended, last and behind the held-back texts, iff it can be appended and those texts meet no failure but a full log |
| FrameBuffer.CleanCloseIsComplete | app/agent/runtime/stream/replay.py:566-643 | over every interleaving and every failure, a log closed without an exception says exactly what was published up to the first terminal frame iff no timer was cancelled during its flush, and terminal and pending are those of the unbuffered publisher |
| FrameBuffer.LogIsPrefix | app/agent/runtime/stream/replay.py:566-643 | over every run, failed or not, in which no timer flush is cancelled or fails while a frame waits for the lock, the log says a prefix of what was published |
| FrameBuffer.AnswerIsMissing | app/agent/runtime/stream/replay.py:566-616 | a timer flush that fails while the terminal frame waits leaves a completed log without the answer, noticed only by the close |
| FrameBuffer.CancelledTimerLosesAnswer | app/agent/runtime/stream/replay.py:607-636 | a timer cancelled during its flush loses the answer and nothing is raised |
| ReplayExecution.DrainInto | app/agent/canvas/turn/replay_execution.py:64-75 | the stream loop, its lease checks and the close end in the specified publisher state and fault |
| ReplayExecution.Execute | app/agent/canvas/turn/replay_execution.py:44-127 | the executor in place has the effects, in order, and the exception of the evaluated nested program, for every outcome of every await |
| ReplayProgram.CleanupAfterAny | app/agent/canvas/turn/replay_execution.py:114-127 | whatever statement the cleanup protects and however it ends, finish, clear_cancel and release run once each, in order and last, even if some raise, iff the wait for the helper tasks is not interrupted |
| ReplayExecution.CleanupIsExact | app/agent/canvas/turn/replay_execution.py:46-127 | for the source's nesting: the three calls, the status given to finish and the exception raised on every exit path; all three are skipped iff the tasks were started and their wait is interrupted |
| ReplayExecution.InterruptedWaitSkipsCleanup | app/agent/canvas/turn/replay_execution.py:114-120 | a cancellation that arrives during that wait, even the first one, leaves a completed run without finish, clear_cancel and release |
| ReplayExecution.CancelledIs | app/agent/canvas/turn/replay_execution.py:93-104 | the cancellation clause swallows a failed append and raises the cancellation again |
| ReplayExecution.StatusIsExact | app/agent/canvas/turn/replay_execution.py:64-113 | finish gets COMPLETED or CANCELLED iff the stream was fully consumed and its first terminal frame is done or cancelled, INTERRUPTED iff it has none but a pending frame, and FAILED in every other case |
| ReplayExecution.ShownIsExact | app/agent/canvas/turn/replay_execution.py:64-75 | on every path the client gets the frames of the chunks that passed, in order, up to and including the first terminal one |
| ReplayExecution.LossIsFenced | app/agent/canvas/turn/replay_execution.py:64-89 | a lease loss seen at check k lets only frames of earlier chunks out and the run finishes FAILED |
| ReplayExecution.FailureIsAnnounced | app/agent/canvas/turn/replay_execution.py:77-113 | a FAILED run has shown an error frame or attempted to append one, unless the log was closed |
| ReplayExecution.OnlyCancellationEscapes | app/agent/canvas/turn/replay_execution.py:83-127 | if the cleanup and the handlers' append succeed, only the cancellation leaves the executor |
| ReplayExecution.CancelIsRequested | app/agent/canvas/turn/replay_execution.py:83-92 | the executor sets the cancel event iff the exception it handles is a full or a closed log |
| ReplayFencing.RefreshLease | app/agent/canvas/turn/replay_execution.py:136-187 | the keeper flags a loss, always together with cancel, iff a round it reaches fails to renew lease or lock |
| ReplayFencing.LastingLossIsFlagged | app/agent/canvas/turn/replay_execution.py:146-187 | a lease or lock that stays lost is flagged within four keeper steps iff the keeper does not first read cancel at its loop test |
| ReplayFencing.RoundIsCompleted | app/agent/canvas/turn/replay_execution.py:147-187 | a keeper past its loop test whose look at the lost item is still to come (so not a lost lease at the lock call) notices the loss in that round even if cancelled meanwhile |
| ReplayFencing.LookIsPast | app/agent/canvas/turn/replay_execution.py:147-187 | a lease lost after the keeper's lease call is not noticed when cancel comes before its next loop test |
| ReplayFencing.KeeperIsItsLoop | app/agent/canvas/turn/replay_execution.py:146-187 | stepped through any interleaved run the keeper flags a loss iff its loop does on the rounds it went through |
| ReplayFencing.RunIsExecution | app/agent/canvas/turn/replay_execution.py:64-127 | every interleaved run that reaches finish has the frames, the status and the cleanup of the nested program run with the loss seen at the first check after the flag |
| ReplayFencing.LossIsFenced | app/agent/canvas/turn/replay_execution.py:64-89 | from a flagged loss on, over every continuation, only the chunk already checked is published and a run that has not passed its last check conclusively finishes FAILED |
| ReplayFencing.FencedExactly | app/agent/canvas/turn/replay_execution.py:72-82 | a flagged loss makes every continuation FAILED iff the executor has not passed its last check with a conclusive stream |
| ReplayFencing.LostExecutionIsFenced | app/agent/canvas/turn/replay_execution.py:64-187 | the chain from a lasting loss over the keeper's look to the fenced finish, in any interleaving with any environment |
| ReplayFencing.LostExecutionFails | app/agent/canvas/turn/replay_execution.py:64-187 | the same chain for the nested program: it hands FAILED to finish and shows at most the chunk already checked |
| ReplayFencing.FlagsGoTogether | app/agent/canvas/turn/replay_execution.py:146-187 | in every reachable state lease_lost implies cancel |
| ReplayFencing.RenewalExtends | app/agent/canvas/turn/replay_execution.py:148-162 | a successful look holds the lease, or the lock, until exactly one TTL from now and touches nothing else |
| ReplayFencing.KeeperKeeps | app/agent/canvas/turn/replay_execution.py:147-187 | while nobody interferes, lease and lock are held throughout iff the keeper comes round within both TTLs |
| ReplayFencing.PacedIsPrompt | app/agent/canvas/turn/replay_execution.py:147-187 | a keeper whose sleep and three other steps fit into both TTLs comes round in time, by the times of the actions alone |
| ReplayFencing.HolderIsNotFlagged | app/agent/canvas/turn/replay_execution.py:156-187 | an execution that holds both throughout is never flagged as lost |
| ReplayFencing.HealthyExecution | app/agent/canvas/turn/replay_execution.py:64-127 | with a prompt keeper a run of any length has the frames and the status of the nested program whose lease is never lost |
| ReplayFencing.FinishFreesSession | app/agent/canvas/turn/replay_execution.py:121-127 | after finish the owner's session is free and the next turn gets it |
| ReplayFencing.FullLogCancels | app/agent/canvas/turn/replay_execution.py:83-92 | in every reachable state a full or closed log has set the cancel event |
| ReplayFencing.CancelledExecutionIsNotFenced | app/agent/canvas/turn/replay_execution.py:147-148 | after a cancel and one TTL another turn owns the session while the execution still publishes and finishes COMPLETED, unflagged |
| ReplayFencing.NewOwnerIsSafe | app/agent/canvas/turn/lock.py:34-39 | once others own the session the lock evolves as if the lost execution did not exist, its final release included |
| FirstOccurrences.PushUnique | app/agent/canvas/node_submit/collect_refs.py:16-21 | appends a positive unseen id and keeps the seen set equal to the list's members |
| FirstOccurrences.PushAll | app/agent/canvas/node_submit/collect_refs.py:112-129 | a loop of pushes extends the first positive occurrences of the earlier input by those of the new input |
| FirstOccurrences.FirstsLists | app/agent/canvas/node_submit/collect_refs.py:16-21 | the result lists each element once in order of first appearance |
| FirstOccurrences.FirstsIsUnique | app/agent/canvas/node_submit/collect_refs.py:16-21 | that specification has no other solution |
| CanvasRefs.PickConnected | app/agent/canvas/node_submit/collect_refs.py:24-53 | the edge loop yields the first positive occurrences of all assets on reference edges |
| CanvasRefs.ConnectedIs | app/agent/canvas/node_submit/collect_refs.py:24-53 | the connected list holds exactly the positive assets on reference edges, distinct and in order of first appearance |
| CanvasRefs.CollectIds | app/agent/canvas/node_submit/collect_refs.py:82-99 | library tags without an integer id are skipped, the rest give their first positive occurrences |
| CanvasRefs.CollectMentions | app/agent/canvas/node_submit/collect_refs.py:71-79 | fails iff some mention is not positive, else lists first occurrences |
| CanvasRefs.PushManual | app/agent/canvas/node_submit/collect_refs.py:123-126 | fails iff some manual pick is not positive, else extends the merged list |
| CanvasRefs.CollectSubmitRefs | app/agent/canvas/node_submit/collect_refs.py:102-131 | the five-segment merge equals the first positive occurrences of the plain concatenation, with both error cases exact |
| CanvasRefs.CollectedSegment | app/agent/canvas/node_submit/collect_refs.py:102-131 | collecting a segment before merging it changes nothing |
| CanvasRefs.GatheredInOrder | app/agent/canvas/node_submit/collect_refs.py:24-53 | the raw input is that of each edge in turn: the source's assets iff it is a reference edge into the node |
| CanvasRefs.IntsInOrder | app/agent/canvas/node_submit/collect_refs.py:82-99 | each library tag in turn contributes its integer id, if it has one |
| CanvasRefs.MediaInOrder | app/agent/canvas/node_submit/collect_refs.py:56-68 | each content segment in turn counts iff it is a media segment |
| NodeInputs.CheckEdge | app/agent/canvas/workflow/inputs.py:84-120 | the reason, if any, why an edge with an existing source is not ready |
| NodeInputs.WaitIsExact | app/agent/canvas/workflow/inputs.py:57-120 | an edge waits iff it is not ready, for its own source, and for the first reason that applies |
| NodeInputs.WaitsAreExact | app/agent/canvas/workflow/inputs.py:57-120 | the waits are those of the edges that are not ready, one each, in edge order |
| NodeInputs.WalkEdges | app/agent/canvas/workflow/inputs.py:57-120 | waiting reasons in edge order, and a rebuilt partial graph that shows every edge's source as the full graph does |
| NodeInputs.CollectTexts | app/agent/canvas/workflow/inputs.py:151-172 | each distinct non-blank prompt-edge text once, in order, with the first edge that carries it |
| NodeInputs.FindRefSource | app/agent/canvas/workflow/inputs.py:175-193 | finds the first reference edge that supplies the asset; the fallback is reached iff there is none |
| NodeInputs.NumberSlots | app/agent/canvas/workflow/inputs.py:124-138 | slots 1..n with their labels over the connected assets, each from its first edge, the fallback never used |
| NodeInputs.LabelsAreDistinct | app/agent/canvas/node_submit/labels.py:6-25 | no two slots of a resolved input share a label |
| MediaLabels.LabelIsExact | app/agent/canvas/node_submit/labels.py:6-25 | a label is the word for the medium followed by the slot number in decimal |
| NodeInputs.Resolve | app/agent/canvas/workflow/inputs.py:41-148 | prompt, waits, texts, labelled slots and library ids of the resolved input against the full graph, and not-found iff the node is missing |
| NodeInputs.SlotsAreExact | app/agent/canvas/workflow/inputs.py:124-138 | slot assets are distinct and are exactly the positive assets on reference edges |
| NodeInputs.ReadyMeansAllAssets | app/agent/canvas/workflow/inputs.py:57-138 | with nothing waited for, every reference edge has a live source and all its positive assets have slots |
| NodeInputs.ReadyMeansAllTexts | app/agent/canvas/workflow/inputs.py:57-172 | with nothing waited for, every prompt edge's text is non-blank and listed |
| NodeSubmit.ValidateAgentRefs | app/agent/canvas/node_submit/prepare.py:79-102 | the greedy cursor accepts exactly the subsequences of the resolved list; empty means everything |
| NodeSubmit.SelfLibraryIds | app/agent/canvas/node_submit/prepare.py:28-37 | the library ids of the first node with the id |
| NodeSubmit.PrepareManual | app/agent/canvas/node_submit/prepare.py:105-137 | the outcome in order of checks: bad id, mismatch with the implied list, empty prompt, submitted |
| NodeSubmit.PrepareAgent | app/agent/canvas/node_submit/prepare.py:139-160 | the outcome in order of checks: missing, not ready, empty prompt, not a subsequence, submitted with library ids |
| NodeSubmit.ManualIsExact | app/agent/canvas/node_submit/prepare.py:105-137 | a manual submission goes through iff its picks are positive, it lists each demanded asset once in order of first appearance and its prompt is not blank; each refusal iff it is the first that applies |
| NodeSubmit.AgentIsExact | app/agent/canvas/node_submit/prepare.py:139-160 | an agent submission goes through iff the node exists, every edge is ready, its prompt is not blank and it selects a subsequence; it submits the selection, or all slots, and then the new library ids |
| NodeSubmit.FromKeys | app/agent/canvas/node_submit/prepare.py:156-156 | the ordered deduplication lists first occurrences |
| NodeSubmit.ManualDemands | app/agent/canvas/node_submit/prepare.py:28-56 | with no extras manual mode demands the connected assets, then the new library tags, distinct and positive |
| NodeSubmit.ModesAgree | app/agent/canvas/node_submit/prepare.py:105-160 | when equal ids mean equal nodes, agent mode's default list is the one manual mode demands |
| NodeSubmit.StoredGraphsAgree | app/server/ports/adapters.py:302-327 | on every graph the store hands out, self-loops included, an agent submission without a selection has the outcome of the one manual submission that is not refused for its list |
| NodeSubmit.IncomingIsExact | app/server/ports/adapters.py:302-327 | the incoming graph shows the target and every edge source as the table does, and no other node |
| NodeSubmit.NonPrefixIsAccepted | app/agent/canvas/node_submit/prepare.py:79-102 | a selection that is no prefix is a subsequence and accepted |
| NodeSubmit.SelectionIsDistinct | app/agent/canvas/node_submit/prepare.py:79-160 | an accepted selection is distinct and positive and opens the submitted list |
| ToolPairing.ReadInvalidCalls | app/agent/chat/agent/invalid_tool_args.py:81-94 | decodes the well-formed entries in order, nothing when the value is no list |
| ToolPairing.DecodeEncode | app/agent/chat/agent/invalid_tool_args.py:31-52 | encoding then decoding loses exactly the payloads without id or name |
| ToolPairing.KwargsRoundTrip | app/agent/chat/agent/invalid_tool_args.py:31-94 | payloads survive the kwargs boundary unchanged iff all carry id and name |
| ToolPairing.SynthesizeInvalidErrors | app/agent/chat/agent/invalid_tool_args.py:97-115 | one error message per payload, in order, with the truncated arguments |
| ToolPairing.BatchViolationIs | app/agent/chat/agent/gate_solo.py:19-28 | a batch is refused iff it has at least two calls, one of them to a solo tool |
| ToolPairing.LastAiCalls | app/agent/chat/agent/gate_solo.py:31-39 | the backward scan finds the calls of the latest AI message |
| ToolPairing.SynthesizeBatchErrors | app/agent/chat/agent/gate_solo.py:42-57 | one error message per call that has an id, in order |
| ToolPairing.InvalidArgsPairs | app/agent/chat/agent/invalid_tool_args_middleware.py:30-74 | when this hook fires the history it leaves is well paired |
| ToolPairing.GateSoloPairs | app/agent/chat/agent/gate_solo_middleware.py:22-47 | when this hook fires the history it leaves is well paired iff every call has an id |
| ToolPairing.InvalidArgsIsExact | app/agent/chat/agent/invalid_tool_args_middleware.py:30-74 | the hook fires iff the step has invalid calls and no valid one; it keeps the history, the text and the other kwargs and answers each invalid call with its parse error and the first 200 characters |
| ToolPairing.GateSoloIsExact | app/agent/chat/agent/gate_solo_middleware.py:22-47 | the hook fires iff a batch of two or more calls holds a solo tool; it only appends one refusal per call that has an id, in order |
| ToolPairing.HooksExclude | app/agent/chat/agent/invalid_tool_args_middleware.py:30-74 | at most one hook fires on a step |
| ToolPairing.NextPaired | app/agent/chat/agent/gate_solo_middleware.py:22-47 | every turn keeps the history well paired |
| ToolPairing.ConversationPaired | app/agent/chat/agent/invalid_tool_args_middleware.py:30-74 | in every conversation whose calls carry ids each call is answered once, in order, by a matching tool message |
| ToolPairing.NothingIsLost | app/agent/chat/agent/invalid_tool_args_middleware.py:30-74 | whichever hooks fire a conversation only grows, and holds all that user and model have said, in order and once |
| ToolPairing.SoloToolsRunAlone | app/agent/chat/agent/gate_solo.py:19-28 | no batch that mixes a solo tool with another call reaches the tools |
| StreamRetry.PlayAttempt | app/agent/chat/llm/gateway_chat_model.py:204-234 | one attempt yields its pieces in order and ends with the specified fault or none |
| StreamRetry.AttemptIsExact | app/agent/chat/llm/gateway_chat_model.py:209-235 | an attempt yields the pieces up to the line that ends it and fails with that line's fault, the transport's, or that of assembling |
| StreamRetry.RetriesExactly | app/agent/chat/llm/gateway_chat_model.py:236-256 | an attempt is followed by another iff the budget allows it and it and all before it showed nothing and failed with a retryable error |
| StreamRetry.Stream | app/agent/chat/llm/gateway_chat_model.py:202-281 | all output comes from the decisive attempt, within retries + 1; the empty-stream branch is reached iff retries is negative |
| StreamRetry.DecisiveIsUnique | app/agent/chat/llm/gateway_chat_model.py:202-257 | the number of attempts is determined by the gateway's outcomes |
| StreamRetry.DecisiveExists | app/agent/chat/llm/gateway_chat_model.py:202-257 | for every sequence of outcomes there is a decisive attempt |
| StreamRetry.OutputShape | app/agent/chat/llm/gateway_chat_model.py:202-281 | pieces come from one attempt, and an assembled step ends the output iff nothing is raised |
| StreamRetry.NothingIsShownTwice | app/agent/chat/llm/gateway_chat_model.py:235-256 | an attempt that has yielded a token is never followed by another |
| GateState.PublicLoginChoices | app/agent/chat/gate/public_payload.py:55-64 | keeps the stripped id and label of the choices that have both |
| GateState.ChoicesAreExact | app/agent/chat/gate/public_payload.py:55-64 | the public choices are those with an id and a label, one each and in order, reduced to the two stripped texts |
| GateState.StripIsIdempotentOnPayloads | app/agent/chat/gate/public_payload.py:31-64 | stripping a payload twice is stripping it once |
| GateState.StrippedIsClean | app/agent/chat/gate/public_payload.py:37-52 | no backend-only key remains in any dictionary reached through dictionaries |
| GateState.StripIsDeepExactly | app/agent/chat/gate/public_payload.py:31-52 | no backend-only key remains anywhere iff the lists copied verbatim held none |
| GateState.SelectorLeaksThroughList | app/agent/chat/gate/public_payload.py:37-52 | a selector inside a list element is kept |
| GateState.NormalizeFieldDefs | app/agent/chat/gate/fields.py:18-28 | keeps the named definitions as they are, in order, and drops the rest |
| GateState.NormalizeKeepsNamed | app/agent/chat/gate/fields.py:8-28 | what survives is named and comes from the input |
| GateState.NormalizeIsIdempotent | app/agent/chat/gate/fields.py:18-28 | normalising twice is normalising once |
| GateState.RawNameIsKept | app/agent/chat/gate/fields.py:18-28 | a definition named with surrounding blanks is kept under that raw name |
| GateState.CanonicalExactly | app/agent/chat/gate/fields.py:18-28 | every kept definition carries its canonical name iff every named input definition does |
| GateState.RoundTrip | app/agent/chat/gate/pending.py:20-95 | what was stored parses back unchanged iff the required strings are non-empty and the status is known; otherwise reading fails |
| GateState.RecordIsExact | app/agent/chat/gate/pending.py:20-56 | the stored record key by key: strings and status as given, named fields, public choices, stripped assets, phase and domain iff given, nothing else |
| GateState.ParseIsExact | app/agent/chat/gate/pending.py:74-95 | a document is accepted iff its six strings are non-empty, its status known and its collections of the right kind; the result is the stripped document with normalised fields |
| GateState.ParseIsStable | app/agent/chat/gate/pending.py:59-95 | a parsed record is a fixed point of parsing, also with another status |
| GateState.GateStore.SetGatePending | app/agent/chat/gate/pending.py:20-56 | the stored record and what a later read returns |
| GateState.GateStore.UpdateStatus | app/agent/chat/gate/pending.py:59-95 | changes the status and nothing else; raises, changing nothing, when the record does not parse |
| Embeddings.ReadVector | app/server/infra/embeddings.py:58-92 | converts a vector iff all its elements are finite numbers and no booleans |
| Embeddings.ReadItem | app/server/infra/embeddings.py:58-92 | accepts an element iff its keys, index range and dimension are as required |
| Embeddings.CollectItems | app/server/infra/embeddings.py:58-92 | fills the dictionary with every element, or stops only on an unacceptable response |
| Embeddings.ParseVectors | app/server/infra/embeddings.py:58-92 | accepts exactly the acceptable responses and returns the vector indexed i at position i |
| Embeddings.IndexesAreComplete | app/server/infra/embeddings.py:87-88 | by pigeonhole the completeness check cannot fail once the loop has passed |
| Embeddings.EveryIndexOccurs | app/server/infra/embeddings.py:58-92 | the accepted indexes are a permutation of 0..n-1 |
| Embeddings.OrderIsIrrelevant | app/server/infra/embeddings.py:58-92 | acceptance and result are the same for every ordering of the response items |

## Left out

- HTTP, database, object storage and Redis clients, DTOs, prompts, agent assembly and logging: foreign calls or field copying. Redis appears as a map with expiry and atomic scripts; each failure is an input.
- Floating-point rounding: buckets, clocks and vectors use reals; an integer too large for a float in an embeddings vector is accepted.
- JSON text: values are assumed to survive encoding, and `show` stands for Python's `str` of a non-string value.
- Cache key prefixes, including a user key that begins with `lock:`, `get_or_set`, the `cached` decorator and `make_cache_key`.
- CacheStaleness.RunKeeps: each get, set and delete is one step with one clock reading and positive TTLs, so an L2 read in flight that fills L1 late is not covered there; `bound` must be at least every L1 lifetime in use, explicit `l1_ttl` arguments included.
- MultiLevelCache.Cache.GetOrCompute: one caller, with nobody else writing the levels or the locks meanwhile, and a stampede lock without its own expiry; `CacheCompute` covers interleaving at every await and the lock's loss. Mutual exclusion of computes is not claimed, because the lock is released by callers that never held it.
- LruRefinement.EvictionByCount: counts all keys touched since, so it needs runs without deletes and expiry; `LruStack.EvictionIsExact` covers all runs.
- The `retry_after` hint of the Redis limiter is computed, but rejected requests are recorded, so it guarantees nothing; the window bounds are for requests during which Redis answers.
- TurnLock.SessionTurnLock.CancelAndWait: what others do during the wait is an input, the firing of the completion event included; `WaiterWakes` states when it fires.
- TurnLock.HoldersNeverOverlap: holds for a session without forced deletes of it and with its renewals in time, both shown necessary.
- ReplayExecution.FramePublisher.Publish: a token is one frame there, and buffering shows only as a deferred flush error; `FrameBuffer` models the buffer, without the protocol version of its frames.
- ReplayExecution.Execute: which exception an await raises is an input, so some combinations in scope cannot occur; logging is left out.
- ReplayFencing.RoundIsCompleted: excludes a keeper about to make its lock call whose lease is lost; `LookIsPast` shows that it may miss the loss, `LastingLossIsFlagged` covers it.
- ReplayFencing.LastingLossIsFlagged: the keeper's store call and the flags it sets on failure are one step; the cancel watcher is an environment step.
- ReplayFencing.PacedIsPrompt: while nobody has cancelled; `KeeperKeeps` also covers a keeper that has left because of a cancel.
- ReplayFencing.RunIsExecution: the run begins when the helper tasks have been started; before that there is no keeper.
- ToolPairing.ConversationPaired: the tool node is taken to answer each call once and in order.
- StreamRetry.Stream: the stream assembler, the adapter and the table of retryable codes are parameters; the non-streaming path is left out.
- NodeInputs.Resolve: the list of input sources, and its copy in each wait, which are field copies.
- `get_gate_pending_many`, the expiry of gate records, and the generator's thread lock, which makes each call one step.
