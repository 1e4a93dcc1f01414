# Ontosyx API: verified model

A Dafny model of the stateful cores of the Ontosyx backend (`ox-api`, and one cache of `ox-brain`), with proofs of the
properties the code is written for. `dafny verify dfyconfig.toml` checks everything.

Where the source changes state, the model is a class whose methods are proved equal to a specification function of the
old state (`Step`, `HubStep`, `CheckUser`, `Settle`, ...). Whole runs are sequences over those functions, and the main
results are lemmas about every run. Where tasks interleave at await points, a second model has one step per await point.

| files | what they model |
|---|---|
| `CollabRoom`, `CollabLife`, `CollabHub` | the collaboration hub with every trait call as one step: members, leased entity locks, broadcast frames, idle reaping |
| `CollabRegistry` | the same hub with clone-handle, lock, unlock, and registry-write as separate steps, and removal guarded by the strong count |
| `CollabSweeps` | idle sweeps in that model: a scan under the registry lock, then one awaited leave per victim |
| `CollabSessions` | per-user session slots and the handles that release them |
| `ArrowTime`, `ArrowLayout`, `ArrowDecode`, `ArrowEncode`, `ArrowTable`, `ArrowValues` | Arrow record batches to query results; `ArrowValues` says what a cell shows and what is wrong with it without the conversion; `ArrowEncode` is a reference encoder and a reference meaning for rows, written only to state the round trip |
| `Federation` | the per-workspace federation resolver: singleflight hydration and the upsert critical section |
| `SlidingWindow`, `FixedWindow` | the MCP session limiter and the per-user HTTP limiter |
| `RevocationCache`, `AuthRequests` | the JWT revocation cache, one axis of it under interleaved requests, and whole requests through both axes |
| `Idempotency` | the Idempotency-Key layer over its record store |
| `AclProjection` | in-place enforcement of access policies on a result |
| `ModelRegistry` | the cache of chat-model handles |
| `KeywordScan`, `SlackClamp`, `Utf8` | the Cypher write-keyword gate, the Slack clamp, and UTF-8 (RFC 3629, section 3) |
| `Prelude` | `Option`, `Result`, time |

Parameters stand for everything outside: clock readings, what a store call returns and whether it fails, what a handler
answers, whether an adapter or a chat model can be built, the dates the calendar library can represent, the doubles that
singles and decimals become, and Unicode's upper-case table.

## Where the code and its documentation differ

- Removing a room (`collaboration.rs:610-621`): the comment says the strong count reveals a re-join after the leaver's
  unlock. It reveals a re-join in progress, not one that has completed. `RemovalLosesExactlyRejoiners` says exactly whom a
  removal loses. Losing the holder of a live lease is the only way a lease is broken (`LeaseSafetyInterleaved`), every such
  loss breaks it (`LossBreaksLease`), and such runs exist (`RaceBreaksLeases`).
- A sweep is documented to evict members silent past the timeout (`collaboration.rs:807-810`). It does (`SilentIsEvicted`),
  but it also evicts a member who becomes active after the sweep has collected it (`SweepEvictsPresent`,
  `SweepEvictsTheActive`).
- A member's last activity is documented to be refreshed by every cursor move (`collaboration.rs:256-261`). A move inside
  the throttle window refreshes nothing (`MovesAreSpaced`, `ActivityIsLastShown`).
- `LockReleased` is documented to be sent on TTL expiry (`collaboration.rs:139`). It is sent exactly when a holder gives a
  lock up (`ReleasedIffGivenUp`); after an expiry the next grant is all that replicas see (`ExpiryIsSilent`).
- A lock request by a user who never joined registers an empty room, and no sweep ever removes it (`LeakedRoomStays`,
  `SweepExact`).
- The revocation cache's TTL is documented as the worst-case window (`jwt_revocation_cache.rs:5-8`). The window is the TTL
  plus the delay between store read and record, and whole requests reach that bound on either axis (`StalenessAttained`,
  `LateAcceptanceAttained`, `LateJudgementAttained`). An invalidation is undone by a miss in flight (`InvalidationExact`,
  `InvalidationRefusesIff`, `RetirementRefusesIff`).
- A request body over 1 MiB is documented to bypass the idempotency layer (`idempotency.rs:47-50`); it is refused
  (`OversizedRefusedIff`). A response over 2 MiB is logged as "not cached"; its body is also lost (`BodyLostIffOversized`).
  A replay is documented as byte-for-byte; headers other than the content type are dropped (`ReplayFaithful`). An expired
  row that has not been swept blocks new recordings (`UnsweptRowNeverProtects`).
- Mask policies come sorted by descending priority and the first match is documented to win
  (`crates/ox-graph-runtime/src/dialect/cypher/acl/mod.rs:35-37`). On the federation path the last one wins, so the lowest
  priority does, and the documented pattern is applied only when both agree (`HighestMaskAppliesIff`).
- The fixed-window limiter's cleanup is not invisible when the budget is zero (`TransparentIff`), and with a zero budget or
  a zero window it does not bound what it admits (`BoundHoldsIff`); configuration accepts both.
- The fixed-window limiter's "retry after" is rounded down to whole seconds, so waiting that long may not be enough
  (`RetryAfterSufficesIff`).
- The sliding-window limiter forgets its history when the start of the window is before the earliest clock reading, which
  an oversized window makes permanent (`BoundHoldsIff`, `BurstWhileUnrepresentable`).
- The keyword gate is documented to let keywords in comments pass (`mcp.rs:350-352`); it reads the whole text
  (`BoundedIffWord`), so a keyword in a comment trips it (`CommentsTrip`).
- `Date64` values before 1970 that are not whole days land one day late (`Date64DayIsFloor`).
- A caller that loses the race to insert a chat-model handle does not refresh the entry it is given
  (`LoserDoesNotRefresh`).

## Model

| member | source | states |
|---|---|---|
| CollabRoom.Room.Leave | crates/ox-api/src/collaboration.rs:578-602 | the loop over the leaver's locks yields the specified new members, locks and frames, and returns each released entity once |
| CollabRoom.Room.Acquire | crates/ox-api/src/collaboration.rs:685-757 | own locks are refreshed privately, expired ones replaced, live foreign ones refused, unjoined callers answered so; a grant is the lock then stored, due the configured time after the reading |
| CollabRoom.Room.MoveCursor | crates/ox-api/src/collaboration.rs:629-671 | unknown or throttled moves change and send nothing; others update cursor, throttle clock and activity, and send one frame |
| CollabRoom.Room.Join | crates/ox-api/src/collaboration.rs:535-573 | membership is replaced, locks stay, and the subscription starts before the join's own frame |
| CollabRoom.Room.Release | crates/ox-api/src/collaboration.rs:766-794 | only an owned lock of a joined caller is released and announced |
| CollabRoom.TracksStep | crates/ox-api/src/collaboration.rs:535-794 | whatever an operation does to the room, folding the frames it sends does to any view that tracked the room |
| CollabLife.ReplicaConverges | crates/ox-api/src/collaboration.rs:551-573 | a subscriber folding every frame from its snapshot on has the room's members, names, cursors and lock holders; only a deadline may lag behind |
| CollabLife.LeaseSafety | crates/ox-api/src/collaboration.rs:685-757 | a second user is granted a leased entity only after the deadline or after the holder released it or left |
| CollabLife.AcquireLasts | crates/ox-api/src/collaboration.rs:685-757 | a member who asks for a free, expired or own entity has it until the configured time after the reading, refreshes included; any other request changes no lock |
| CollabLife.LeaseLasts | crates/ox-api/src/collaboration.rs:685-757 | on every run it stays that user's in every state reached before that time, unless given up |
| CollabLife.DeniedIffLeased | crates/ox-api/src/collaboration.rs:718-747 | conversely a member is refused exactly when another user's unexpired grant has not been given up |
| CollabLife.ReleasedIffGivenUp | crates/ox-api/src/collaboration.rs:578-602 | a release of an entity is announced iff its holder releases it or leaves |
| CollabLife.ExpiryIsSilent | crates/ox-api/src/collaboration.rs:718-757 | a run on which a lease passes to another user after its expiry and no release is announced |
| CollabLife.AnnouncedIffHappened | crates/ox-api/src/collaboration.rs:535-877 | every join, leave, grant to a new holder and commit is announced once and nothing else is; a leave comes after its releases |
| CollabLife.MembersAreJoined | crates/ox-api/src/collaboration.rs:535-602 | on every run the members are exactly those who joined and have not left since, with the name and time of their last join |
| CollabLife.CursorIsLastMove | crates/ox-api/src/collaboration.rs:629-671 | a member's cursor is that of its last announced move since it joined |
| CollabLife.MovesAreSpaced | crates/ox-api/src/collaboration.rs:629-671 | a member's move is announced iff the last announced one since it joined is at least the throttle ago, and else changes nothing |
| CollabLife.ActivityIsLastShown | crates/ox-api/src/collaboration.rs:629-794 | a member's last activity is the first clock reading of its last join, announced move, lock request or release |
| CollabHub.Hub.Leave | crates/ox-api/src/collaboration.rs:578-622 | a leave of an unknown draft does nothing; otherwise the room steps and is unregistered iff it became empty; other rooms are untouched |
| CollabHub.Hub.AcquireLock | crates/ox-api/src/collaboration.rs:685-757 | a missing room is created first, also for a caller who never joined |
| CollabHub.Hub.Join | crates/ox-api/src/collaboration.rs:535-573 | a missing room is created; the snapshot is the room after the join, and the receiver starts at the join's own frame |
| CollabHub.Hub.MoveCursor | crates/ox-api/src/collaboration.rs:629-671 | an unknown draft is ignored, a known room steps, no other room changes |
| CollabHub.Hub.ReleaseLock | crates/ox-api/src/collaboration.rs:766-794 | likewise, and an unjoined caller of a known room is told so |
| CollabHub.Hub.BroadcastEntityUpdated | crates/ox-api/src/collaboration.rs:854-877 | one frame with author, revisions and commands goes to the room if there is one |
| CollabHub.RegisteredIff | crates/ox-api/src/collaboration.rs:496-622 | a draft gets a room exactly by a join or lock request and loses it exactly by a leave after which nobody is in it; other drafts are untouched |
| CollabHub.Hub.CollectIdle | crates/ox-api/src/collaboration.rs:820-838 | the nested loops list every (draft, member) pair idle before the cutoff exactly once |
| CollabHub.Hub.ReapIdleMembers | crates/ox-api/src/collaboration.rs:815-847 | the collect-then-leave loops amount to one leave per member idle before the cutoff, and the count returned is their number |
| CollabHub.HoldersAreMembers | crates/ox-api/src/collaboration.rs:578-602 | in every reachable state lock holders are members, so an empty room has no locks |
| CollabHub.ReplicaFollowsRoom | crates/ox-api/src/collaboration.rs:551-573 | replica convergence on every run of the hub while the draft stays registered |
| CollabHub.LeasesDoNotOverlap | crates/ox-api/src/collaboration.rs:685-757 | lease safety on every run of the hub, across removal and re-creation of rooms |
| CollabHub.LeaseLastsOnHub | crates/ox-api/src/collaboration.rs:685-757 | a lease lasts the configured time on every run of the hub, unless given up, in the registered room |
| CollabHub.DeniedIffLiveLease | crates/ox-api/src/collaboration.rs:718-747 | on every run of the hub a member is refused iff an earlier grant to the named holder is neither expired nor given up |
| CollabHub.SweepExact | crates/ox-api/src/collaboration.rs:815-847 | a sweep removes exactly the members silent since before the cutoff and exactly their locks, counts them, and unregisters exactly the rooms it empties |
| CollabHub.SilenceIsBounded | crates/ox-api/src/config.rs:370-378 | under sweeps started at most an interval apart, in every state and for every reading up to the next sweep, the time before the first included, no member is silent longer than the idle timeout plus the interval |
| CollabHub.AtomicSweepIsDone | crates/ox-api/src/collaboration.rs:815-847 | what the sweep method does is such a sweep |
| CollabHub.EmptyIffNeverJoined | crates/ox-api/src/collaboration.rs:685-703 | a registered room is empty exactly when nobody ever joined it |
| CollabHub.LeakedRoomStays | crates/ox-api/src/collaboration.rs:691-702 | a refused lock request for a draft without a room leaves an empty room, registered until somebody joins or leaves the draft |
| CollabRegistry.SingleRoomAlways | crates/ox-api/src/collaboration.rs:500-510 | under every interleaving each in-flight handle is the registered room of its draft, and no room is registered twice |
| CollabRegistry.RemovalFindsNoOperation | crates/ox-api/src/collaboration.rs:608-621 | a room is removed only when no operation holds a handle to it or its mutex |
| CollabRegistry.HandlesAgree | crates/ox-api/src/collaboration.rs:500-510 | two operations in flight are on one room iff they are on one draft |
| CollabRegistry.RetiredRoomsAreFrozen | crates/ox-api/src/collaboration.rs:608-621 | a removed room is never registered or changed again |
| CollabRegistry.RemovalLosesExactlyRejoiners | crates/ox-api/src/collaboration.rs:604-621 | a removed room holds exactly the users who joined after the leaver's unlock and have not left; it is empty and lock-free iff there are none |
| CollabRegistry.LeaseSafetyInterleaved | crates/ox-api/src/collaboration.rs:685-757 | on every run, with clock readings in order on that draft only, a leased entity is granted to someone else only after the deadline, after its holder gave it up, or after a removal that lost the holder, who had joined between the leaver's unlock and its registry write |
| CollabRegistry.LossBreaksLease | crates/ox-api/src/collaboration.rs:604-621 | conversely after every removal that loses the holder of a live lease the run can go on with any other user being granted the entity before the deadline, the clock in order on every draft |
| CollabRegistry.DeniedIffLeasedInterleaved | crates/ox-api/src/collaboration.rs:718-747 | on every run a member is refused iff an unexpired grant to the named holder has been neither given up nor lost |
| CollabRegistry.ReplicaFollowsObject | crates/ox-api/src/collaboration.rs:551-573 | replica convergence under every interleaving, for the room object subscribed to |
| CollabRegistry.RaceBreaksLeases | crates/ox-api/src/collaboration.rs:604-621 | a run on which a removal loses a completed join and two users hold one lease |
| CollabSweeps.SweepLeavesOnce | crates/ox-api/src/collaboration.rs:820-846 | among any other operations a finished sweep has performed exactly one leave for each pair it collected, after collecting it |
| CollabSweeps.SweepTotal | crates/ox-api/src/collaboration.rs:840-847 | its total is the number of pairs collected |
| CollabSweeps.SweepEvictsPresent | crates/ox-api/src/collaboration.rs:823-846 | a step of a sweep takes out exactly the collected member whose turn it is, if still there whatever it did since, and whom a removal of the emptied room loses |
| CollabSweeps.SilentIsEvicted | crates/ox-api/src/collaboration.rs:807-847 | a member silent past the timeout as long as it is there does not stay until the sweep has finished |
| CollabSweeps.SweepEvictsTheActive | crates/ox-api/src/collaboration.rs:823-846 | a run on which a sweep's own leave evicts a member who joined anew after its collection |
| CollabSessions.SessionTable.TryReserve | crates/ox-api/src/collaboration.rs:515-523 | a slot is taken below the cap; a refusal still leaves the entry |
| CollabSessions.SessionTable.Release | crates/ox-api/src/collaboration.rs:525-533 | one slot less, the entry gone at zero, an unknown user ignored |
| CollabSessions.SessionTable.ActiveSessions | crates/ox-api/src/collaboration.rs:798-805 | the summing loop returns the number of slots in use |
| CollabSessions.SlotsAreConserved | crates/ox-api/src/collaboration.rs:358-371 | counts are live handles plus releases still to run, within one and the cap or absent, the reported total is exact, and the saturating subtraction never saturates |
| CollabSessions.RefusedIffFull | crates/ox-api/src/collaboration.rs:515-533 | a reservation succeeds iff live and unreleased sessions are below the cap |
| CollabSessions.ZeroEntryIffZeroCap | crates/ox-api/src/collaboration.rs:515-523 | on every run a user keeps an entry that counts nothing iff the cap is zero, which configuration rejects, and the user ever asked |
| ArrowTime.SplitIsExact | crates/ox-api/src/arrow_conversion.rs:363-401 | seconds and nanoseconds rebuild the timestamp exactly, negatives included, with no u32 overflow |
| ArrowTime.SplitOrders | crates/ox-api/src/arrow_conversion.rs:363-401 | the split preserves and reflects order and equality, within and across units |
| ArrowTime.Date64DayIsFloor | crates/ox-api/src/arrow_conversion.rs:175-180 | truncation gives the right day iff the value is nonnegative or whole days, and otherwise the next day |
| ArrowDecode.CellToProperty | crates/ox-api/src/arrow_conversion.rs:108-271 | the recursive conversion with its struct, list and map loops computes the specified cell value or first error |
| ArrowDecode.MapToProperty | crates/ox-api/src/arrow_conversion.rs:310-352 | the entry loop refuses null keys and keys that are not text, and later entries overwrite earlier ones |
| ArrowDecode.DecodeDictionary | crates/ox-api/src/arrow_conversion.rs:276-297 | a negative key is an error, any other decodes the dictionary value it selects |
| ArrowDecode.ListToProperty | crates/ox-api/src/arrow_conversion.rs:354-361 | the loop collects the elements in order up to the first error |
| ArrowDecode.SliceCell | crates/ox-api/src/arrow_conversion.rs:354-361 | reading a slice is reading the original at the shifted row |
| ArrowDecode.ErrsIffTainted | crates/ox-api/src/arrow_conversion.rs:108-361 | a conversion errs exactly when an unrepresentable cell is reachable through valid parents |
| ArrowValues.NumberBecomes | crates/ox-api/src/arrow_conversion.rs:117-215 | an integer, float, date, timestamp or decimal that converts becomes exactly the value its number stands for |
| ArrowValues.ErrorIsFirstCause | crates/ox-api/src/arrow_conversion.rs:108-361 | the error returned is the first thing wrong with the cell in reading order, and names it |
| ArrowValues.ConversionIsExact | crates/ox-api/src/arrow_conversion.rs:108-361 | a cell of any nested layout converts to a value iff nothing reachable is unrepresentable and the value is the one the cell shows |
| ArrowEncode.EncodeWellFormed | crates/ox-api/src/arrow_conversion.rs:108-361 | the reference encoder yields well-formed columns for every nested type |
| ArrowEncode.RoundTrip | crates/ox-api/src/arrow_conversion.rs:108-361 | decoding row i of an encoded column of any nested type gives what row i stands for, or its first error, nulls preserved |
| ArrowEncode.MeaningDeterminesRow | crates/ox-api/src/arrow_conversion.rs:108-361 | two representable rows of one type become one value iff they agree on every visible part: maps up to the last entry per key, a Date64 up to its day, singles and decimals up to their double |
| ArrowEncode.OkIffRepresentable | crates/ox-api/src/arrow_conversion.rs:108-361 | a row has a value iff every part of it not under a null is representable |
| ArrowEncode.LastEntryWins | crates/ox-api/src/arrow_conversion.rs:310-352 | a map value has exactly the keys of its row, each with its last entry's value |
| ArrowTable.RecordBatchesToQueryResult | crates/ox-api/src/arrow_conversion.rs:58-92 | the batch loop returns the rows of all batches in order, their number, and the first batch's column names, or the first error |
| ArrowTable.AppendBatchRows | crates/ox-api/src/arrow_conversion.rs:94-106 | a batch's rows are appended in order, or its first error in row order is returned |
| ArrowTable.TableRoundTrip | crates/ox-api/src/arrow_conversion.rs:58-106 | however a table is cut into batches, converting them gives its rows in order or its first error |
| ArrowTable.NothingLost | crates/ox-api/src/arrow_conversion.rs:94-106 | as many rows out as in, one value per column, each cell in its place |
| Federation.HydrateWorkspace | crates/ox-api/src/federation_resolver.rs:201-236 | the hydrate loop registers the stored rows whose adapters come up and no others |
| Federation.Workspace.GetOrInit | crates/ox-api/src/state.rs:219-233 | an initialised slot is left alone, an empty one is filled once, a failed listing leaves it empty |
| Federation.Workspace.UpsertAdapter | crates/ox-api/src/federation_resolver.rs:101-141 | an upsert fails before changing the store, or changes store and resolver together and reports whether the source was stored before |
| Federation.Workspace.EnsureResolver | crates/ox-api/src/federation_resolver.rs:63-72 | a query gets a copy of the hydratable view of the store |
| Federation.HydratedOnceBeforeWrites | crates/ox-api/src/state.rs:219-233 | under every interleaving the slot is initialised at most once, and nobody writes the store before that |
| Federation.ResolverAgreesWithStore | crates/ox-api/src/federation_resolver.rs:119-138 | whenever the write lock is free the resolver equals the hydratable view of the store |
| Federation.SnapshotIsCurrent | crates/ox-api/src/federation_resolver.rs:63-72 | a query's copy is that view at the moment of copying |
| Federation.UpsertLands | crates/ox-api/src/federation_resolver.rs:119-140 | a completed upsert reports the store's true prior state and is in both places |
| Federation.LastWriteWins | crates/ox-api/src/federation_resolver.rs:74-86 | the last write to a source wins in the store and in the resolver |
| SlidingWindow.SessionLimiter.CheckCall | crates/ox-api/src/mcp.rs:52-89 | the pop loop, the test, the push and the trim loop compute the specified queue and answer |
| SlidingWindow.QueueIsHistory | crates/ox-api/src/mcp.rs:58-62 | after every call the queue is the accepted history filtered to the window, within the budget |
| SlidingWindow.TrimNeverFires | crates/ox-api/src/mcp.rs:81-87 | the trim to twice the budget never drops anything |
| SlidingWindow.RejectedIffFull | crates/ox-api/src/mcp.rs:64-79 | a call is rejected iff exactly the budget of accepted calls lie in its window |
| SlidingWindow.NoBurst | crates/ox-api/src/mcp.rs:52-89 | no closed interval of the window's length holds more accepted calls than the budget |
| SlidingWindow.UnrepresentableForgets | crates/ox-api/src/mcp.rs:58-59 | when the window starts before the clock does, only simultaneous calls count |
| SlidingWindow.BurstWhileUnrepresentable | crates/ox-api/src/mcp.rs:58-59 | for every positive budget and window, a run then accepts one call more than the budget within a window |
| SlidingWindow.BoundHoldsIff | crates/ox-api/src/mcp.rs:52-89 | the bound holds in every closed window of every run from a given first time on iff there is no budget, no window, or the window of a call one tick later is representable |
| FixedWindow.RateLimiter.Check | crates/ox-api/src/middleware.rs:400-427 | creation, reset, refusal and counting compute the specified counters and answer |
| FixedWindow.RateLimiter.Cleanup | crates/ox-api/src/middleware.rs:430-434 | exactly the expired entries go |
| FixedWindow.RemainingIsExact | crates/ox-api/src/middleware.rs:414-426 | after an answer of n remaining, exactly n more requests fit in the window |
| FixedWindow.RetryAfterSufficesIff | crates/ox-api/src/middleware.rs:420-423 | waiting the seconds told suffices iff less than a second or whole seconds were left |
| FixedWindow.TransparentIff | crates/ox-api/src/middleware.rs:400-434 | cleanups anywhere in a run change no answer iff the budget is positive or the window is zero |
| FixedWindow.AdmissionBound | crates/ox-api/src/middleware.rs:400-434 | a closed interval of k windows admits at most k + 1 budgets of one user's requests, with cleanups and other users anywhere |
| FixedWindow.BoundAttained | crates/ox-api/src/middleware.rs:411-416 | and for every k some run admits exactly that many |
| FixedWindow.BoundHoldsIff | crates/ox-api/src/middleware.rs:400-434 | that bound holds for all runs, users and intervals iff budget and window are positive |
| RevocationCache.JwtRevocationCache.CheckJwtRevocation | crates/ox-api/src/middleware.rs:246-327 | accepted only if cleared by a fresh entry or the store on both axes, or an API key; a revoked token is refused, a store failure where it was needed is unavailable, and which misses are recorded |
| RevocationCache.UndisturbedRequest | crates/ox-api/src/middleware.rs:258-285 | alone, the separate lookup, read and record steps amount to that check on one axis |
| RevocationCache.BoundedStaleness | crates/ox-api/src/jwt_revocation_cache.rs:70-100 | an answer was read before the change in the store it contradicts, and outlives it by less than the TTL plus the delay from that very read to its record |
| RevocationCache.RevokedTokenClears | crates/ox-api/src/jwt_revocation_cache.rs:70-91 | so the jti axis clears a revoked token for no longer than that |
| RevocationCache.RetiredVersionMatches | crates/ox-api/src/jwt_revocation_cache.rs:93-110 | and so the version axis for a version that is no longer the user's |
| RevocationCache.StalenessAttained | crates/ox-api/src/jwt_revocation_cache.rs:5-8 | on either axis the bound is attained for every delay, so the TTL alone is no bound |
| RevocationCache.InvalidationExact | crates/ox-api/src/jwt_revocation_cache.rs:112-124 | after change and invalidation no outdated answer is ever given, iff no request was carrying one between its read and its record |
| RevocationCache.StaleRecordResurrects | crates/ox-api/src/jwt_revocation_cache.rs:83-91 | such a request puts the outdated answer back into the cache, and until it is dropped or replaced every request is given it iff it asks within the TTL |
| AuthRequests.AcceptedAfterRevocation | crates/ox-api/src/middleware.rs:246-327 | an accepted request was cleared by an answer read before the revocation, and outlives it by less than the TTL plus that answer's read-to-record delay plus the time from clearance to acceptance |
| AuthRequests.AcceptedWithRetiredVersion | crates/ox-api/src/middleware.rs:246-327 | and one with a version that is no longer its user's by less than the TTL plus the delay of the version read before the change |
| AuthRequests.RevokedStaysRefused | crates/ox-api/src/middleware.rs:246-327 | after revocation and invalidation with no outdated read in flight no request begun later is accepted |
| AuthRequests.InvalidationRefusesIff | crates/ox-api/src/middleware.rs:246-327 | for an otherwise good token that holds iff there is no TTL or no outdated read in flight |
| AuthRequests.RetiredStaysRefused | crates/ox-api/src/middleware.rs:246-327 | after a version was retired and invalidated with no reader under way that could matter, no request with the token is accepted in any continuation, even one under way |
| AuthRequests.RetirementRefusesIff | crates/ox-api/src/middleware.rs:246-327 | for an otherwise good token that holds iff no reader carries the version where there is a TTL or its own request has the claims |
| AuthRequests.UndisturbedIsChecked | crates/ox-api/src/middleware.rs:246-327 | a whole request with nobody in between ends with that verdict and leaves both caches so, whatever the stores hold, fail at and how long they take |
| AuthRequests.LateAcceptanceAttained | crates/ox-api/src/middleware.rs:246-327 | a run of whole requests that attains the first bound, for every delay and wait |
| AuthRequests.LateJudgementAttained | crates/ox-api/src/middleware.rs:246-327 | and one that attains the second |
| AclProjection.SnapshotFromPolicies | crates/ox-api/src/acl_enforcement.rs:49-74 | the loop skips inactive policies and unknown actions and copies every field of the others |
| AclProjection.SnapshotPlaces | crates/ox-api/src/acl_enforcement.rs:49-74 | the snapshot holds exactly the usable policies, each where the usable ones before it leave off, every field copied |
| AclProjection.BuildFilters | crates/ox-api/src/acl_enforcement.rs:82-105 | the nested loops find exactly the denied columns and, for all others, the last mask listing them |
| AclProjection.Classify | crates/ox-api/src/acl_enforcement.rs:110-118 | the indices to remove, ascending, and to mask, each with its pattern, are exactly those of the policies' effects |
| AclProjection.QueryResult.EnforceAcl | crates/ox-api/src/acl_enforcement.rs:81-138 | masking and descending removal in place leave exactly the permitted columns and each row's projection, ragged rows included |
| AclProjection.CellLandsAt | crates/ox-api/src/acl_enforcement.rs:111-137 | each surviving cell moves left by the number of removed positions before it, masked or unchanged |
| AclProjection.ProjectLength | crates/ox-api/src/acl_enforcement.rs:118-137 | a row loses exactly its cells under removed columns |
| AclProjection.Noninterference | crates/ox-api/src/acl_enforcement.rs:81-138 | two rows come out equal iff they agree on every cell neither denied nor masked |
| AclProjection.EnforceIdempotent | crates/ox-api/src/acl_enforcement.rs:81-138 | enforcing twice is enforcing once |
| AclProjection.DenyPlacement | crates/ox-api/src/acl_enforcement.rs:84-105 | where a deny policy stands in the list makes no difference, and it beats every mask |
| AclProjection.PoliciesDecide | crates/ox-graph-runtime/src/dialect/cypher/acl/snapshot.rs:22-28 | from stored policies to columns: removed iff an active "deny" lists the column, else masked by the last active "mask" listing it, "***" by default, else kept |
| AclProjection.OthersIgnored | crates/ox-api/src/acl_enforcement.rs:51-64 | inactive policies and other actions might as well not be stored |
| AclProjection.ColumnsLeft | crates/ox-api/src/acl_enforcement.rs:110-137 | exactly the columns no active "deny" lists are left, each where its cells land |
| AclProjection.HighestMaskAppliesIff | crates/ox-api/src/acl_enforcement.rs:95-102 | a masked column gets its lowest-priority mask, and its highest-priority one iff the two patterns agree |
| AclProjection.LowerPriorityApplied | crates/ox-api/src/acl_enforcement.rs:95-102 | of two masks with different patterns the lower priority is applied |
| Idempotency.RecordStore.Layer | crates/ox-api/src/idempotency.rs:67-201 | every gate, lookup, replay and record decision of one request, and its effect on the store |
| Idempotency.RecordStore.Create | crates/ox-store/src/postgres/idempotency.rs:47-80 | the first writer of a scope wins |
| Idempotency.ReplayIsOriginal | crates/ox-api/src/idempotency.rs:122-135 | for a replay window after a recording every request in its scope gets that response or a key-reused error, and its handler does not run, under every interleaving |
| Idempotency.RunsIffUnrecorded | crates/ox-api/src/idempotency.rs:116-200 | the handler runs iff no earlier response in the scope was recorded within the window, so unrecorded outcomes never block |
| Idempotency.RecordedIffKept | crates/ox-api/src/idempotency.rs:137-197 | a finished response is recorded, for 24 hours, iff it is no 4xx or 5xx, no event stream, at most 2 MiB, the store does not fail and the scope has no record |
| Idempotency.AnsweredOnlyByOwn | crates/ox-api/src/idempotency.rs:108-135 | a request is answered from a recording only if the same user made the recorded one, in the same workspace, on the same verb and path, with the same key; replayed iff the bodies agree |
| Idempotency.OwnIsAnswered | crates/ox-api/src/idempotency.rs:108-135 | and every such request within 24 hours is |
| Idempotency.WhoIsProtected | crates/ox-api/src/idempotency.rs:67-119 | which requests are protected, which pass, and for what the others are refused |
| Idempotency.SweptIffExpired | crates/ox-store/src/postgres/idempotency.rs:78-90 | a sweep removes exactly the expired rows |
| Idempotency.ReplayFaithful | crates/ox-api/src/idempotency.rs:233-246 | status and body are repeated always, the content type iff it was readable, nothing else |
| Idempotency.BodyLostIffOversized | crates/ox-api/src/idempotency.rs:156-166 | a live response loses its body iff it is a plain success over the cap, and a retry then runs the handler unless another request of the scope was recorded |
| Idempotency.OversizedRefusedIff | crates/ox-api/src/idempotency.rs:74-119 | a request is refused for its size iff its body is over the cap and it would have been protected with an empty one |
| Idempotency.UnsweptRowNeverProtects | crates/ox-store/src/postgres/idempotency.rs:47-66 | an expired row that is still there keeps its scope unprotected |
| Idempotency.KeyIgnoresPadding | crates/ox-api/src/idempotency.rs:211-218 | the key is what stands between the blanks, if it is not empty and at most 255 long |
| Idempotency.NoKeyWithoutText | crates/ox-api/src/idempotency.rs:211-218 | no key without the header, readable text and something between the blanks; a usable key was in the header |
| ModelRegistry.ChatModelRegistry.GetOrBuild | crates/ox-brain/src/chat_model_registry.rs:122-146 | a hit is returned and touched, a miss is built and cached, a failed build changes nothing |
| ModelRegistry.ChatModelRegistry.Store | crates/ox-brain/src/chat_model_registry.rs:133-145 | an existing entry is neither replaced nor touched, and its handle is the one returned |
| ModelRegistry.ChatModelRegistry.InvalidateIdle | crates/ox-brain/src/chat_model_registry.rs:152-170 | entries are kept iff used after the saturating cutoff |
| ModelRegistry.HandleUniqueness | crates/ox-brain/src/chat_model_registry.rs:122-146 | two calls for one identity return one handle iff it was not removed between their linearisation points, under every interleaving |
| ModelRegistry.SweepExact | crates/ox-brain/src/chat_model_registry.rs:152-170 | a sweep removes an entry iff the hit or creation that touched it last is idle for the limit; while the clock is below the limit, only one touched at zero |
| ModelRegistry.LoserDoesNotRefresh | crates/ox-brain/src/chat_model_registry.rs:130-145 | a racing builder that loses is given an entry it does not refresh |
| KeywordScan.ForbiddenKeyword | crates/ox-api/src/mcp.rs:358-379 | the first keyword in list order with a word-bounded occurrence anywhere in the upper-cased query; none iff none of the eight keywords is among its words |
| KeywordScan.CaseInsensitive | crates/ox-api/src/mcp.rs:362 | queries that differ only in ASCII case are upper-cased to one text |
| KeywordScan.AsciiScanned | crates/ox-api/src/mcp.rs:362-363 | of an ASCII query exactly the upper-cased letters are scanned |
| KeywordScan.ScanFor | crates/ox-api/src/mcp.rs:366-376 | restarting one byte after each unbounded hit misses no bounded occurrence, and every slice is at a character boundary |
| KeywordScan.BoundedIffWord | crates/ox-api/src/mcp.rs:364-376 | a keyword has a bounded occurrence iff it is one of the text's words |
| KeywordScan.IdentifiersPass | crates/ox-api/src/mcp.rs:381-383 | a keyword is part of a longer word exactly beside an ASCII letter, a digit or an underscore |
| KeywordScan.CommentsTrip | crates/ox-api/src/mcp.rs:350-376 | a keyword alone in a comment anywhere in the query trips the gate |
| SlackClamp.Clamp | crates/ox-api/src/notifications.rs:211-221 | the bytes returned are the UTF-8 encoding of the clamped characters |
| SlackClamp.FloorBoundary | crates/ox-api/src/notifications.rs:216 | the last character boundary within the budget |
| Utf8.BoundaryIsPrefix | crates/ox-api/src/notifications.rs:216-219 | cutting an encoding at a boundary leaves the encoding of a prefix of the text |
| Utf8.EncodeOneIsUtf8 | crates/ox-api/src/notifications.rs:215-219 | a character's encoding is that of RFC 3629, by length, lead byte and bits |
| SlackClamp.FittingIsLongest | crates/ox-api/src/notifications.rs:211-221 | what is kept is the longest prefix of characters within the budget |
| SlackClamp.ClampKeepsMost | crates/ox-api/src/notifications.rs:211-221 | up to 2900 bytes go out as they are; else the most characters that leave room for the ellipsis, and the ellipsis |
| SlackClamp.ClampedFits | crates/ox-api/src/notifications.rs:57-69 | the result is at most 2900 bytes, and a truncated one at least 2897 |
| SlackClamp.ClampIdempotent | crates/ox-api/src/notifications.rs:211-221 | clamping twice is clamping once |

## Left out

- HTTP and WebSocket handling, serialisation, wording of error messages, tracing and metrics.
- Broadcast lag: receivers get every frame. A lagged client has to re-join, which is a fresh snapshot.
- Task cancellation in the middle of an operation.
- `refresh_workspace_resolver` and `remove_workspace_adapter`: they drop or edit the resolver outside the upsert protocol.
- The outer map from workspaces to resolver slots: one workspace is modelled, and its slot is never replaced.
- Store internals: row-level security, transactions, a call that fails after taking effect.
- The order in which hash maps are enumerated, except where frames expose it; snapshots are maps.
- The offset width of large strings, binaries and lists; large and small variants are one case.
- ArrowEncode.Encode: dictionary indices of the reference encoder are not limited to the range of the key type.
- Arithmetic on floats: cursor coordinates are opaque, floats are carried as bits, and the double that a single or a
  decimal becomes is a parameter.
- The calendar's range: which days and seconds exist is a parameter.
- Unicode's upper-case table is a parameter, constrained on ASCII only.
- Header values that are not ASCII text.
- Deletion of users in the version store.
- Overflow of wall-clock deadlines far in the future.
- SHA-256 and the API-key fingerprint are taken to be injective.
- Federation.Workspace.UpsertAdapter: one operation at a time; interleavings are the subject of the state machine beside it.
