# Verified model of the network layer's stateful algorithms

This project models six parts of the crate in Dafny and proves what they guarantee over whole runs:

- the message batcher, its wire format and the compression frame (`src/compression.rs`),
- the gossip protocol with its deduplication cache (`src/gossip.rs`),
- the sliding-window limiter, reputation scores and the lazily expiring blocklist (`src/security.rs`),
- exponential backoff and the fixed-window limiter (`src/error_recovery.rs`),
- the state synchronisation protocol (`src/sync.rs`),
- latency smoothing, the retry loop and the broadcast totals (`src/validator_sync.rs`).

Each component has the same shape. A class keeps the source's fields and updates them in place; every
method is proved equal to a step function, or to a step relation where hash-map order leaves a choice,
on an immutable `State`. Runs are sequences of events folded over that step, and the main theorems speak
about every run. Time is a `nat` passed to each operation, and each operation is one atomic step.

`dafny verify dfyconfig.toml` checks everything.

| file | modules |
|---|---|
| `prelude.dfy` | `Prelude`, `Lists`, `MapSums`: shared vocabulary and sums over maps |
| `compression.dfy` | `WireFormat`, `Compressor` |
| `batcher.dfy` | `Batcher`: the batcher, its runs, conservation, limits, exact means |
| `stream.dfy` | `Stream`: end-to-end delivery; `NextFit`: how many batches are opened |
| `next_fit_lower_bound.dfy` | `NextFitLowerBound`: runs that come close to that many |
| `gossip.dfy`, `gossip_runs.dfy`, `gossip_history.dfy` | `Gossip`, `GossipObject`, `GossipRuns`, `GossipHistory` |
| `security.dfy` | `SlidingLimiter`, `Decay`, `Reputation` |
| `error_recovery.dfy` | `Backoff`, `FixedWindow` |
| `sync.dfy`, `sync_runs.dfy`, `sync_history.dfy` | `Sync`, `SyncObject`, `SyncRuns`, `SyncHistory` |
| `validator_sync.dfy` | `ValidatorSync` |

## Main results

- **Wire format.** The parser accepts exactly the inputs that begin with an encoding whose sizes fit in 32
  bits, so the format is prefix-free, canonical and refuses every truncation; the round trip is the identity
  if and only if the sizes fit.
- **Stream.** For every interleaving of adds and flushes, what a receiver unpacks followed by what is pending is
  what was added, in order, if and only if every returned batch is sendable.
- **Next-fit.** At most three times as many automatic batches as any packing of the same messages, in any order,
  for every run if and only if a batch may hold a byte or at most three messages; and no smaller factor will do.
- **Deduplication window.** A second copy within the time to live, before a clear and after at most
  `max - max(1, max/10)` other ids, is recognised under any mix of receives and broadcasts, ties in time
  included; one id more can defeat it, for every limit of at least one. The cache keeps its size limit in all runs
  if and only if the limit is at least ten (or nothing is ever fresh and the limit is positive).
- **Gossip histories.** Every reply, counter, topic and cached entry is told from the events of the run: a message
  not seen since the last clear is delivered exactly if it parses, a broadcast succeeds exactly while its topic is
  subscribed, and the counters are what the replies add up to.
- **Limiters.** The popping limiter decides as one that keeps its whole history; the fixed-window one lets through
  at most twice its limit in a closed second, and once more per reset or counter wrap-around in it; twice is reached.
- **Bans and scores.** Whatever checks and clean-ups are interleaved, "banned" means exactly "latest ban not lifted
  and younger than the duration". Two-stage decay equals one-stage decay if and only if neither a wrap of the
  hour count nor the hour that two part hours make up still matters to the score; a peer updated more often than
  hourly scores, and is banned, as if there were no decay.
- **Backoff.** Saturating arithmetic equals exact capped doubling for every number of calls; "ready" means the
  returned delay was waited exactly for caps below 30 ms, the largest cap, or an initial delay below 10 ms.
- **Sync histories.** Over every run the phase is what starts, arrivals, verdicts and dropped requests make it, and
  each pending request and retry asks what an accepted start asked of the same peer.
- **State sync.** Transactions are conserved; snapshots are applied only on a verdict, always the latest, once per
  arrival, with the exact condition under which that is the snapshot the verdict was about; retries stay within
  three per request of either kind; and any phase survives all later timeout checks if and only if no request is
  pending, while answering a request leaves it pending and some downloads start without one.

## Where code and comments differ

The model follows the code.

- `src/error_recovery.rs:54` announces a jitter of 10% either way; the code gives 5% (`Backoff.JitterBound`).
- `src/error_recovery.rs:82` reads as if the last delay were awaited; the code compares with the next nominal delay,
  which at the cap can be less than the delay returned (`Backoff.CappedReadyMayBeEarly`); the exact configurations
  are those of `Backoff.ReadyMeansWaitedIff`.
- `src/gossip.rs:260` announces the removal of the oldest tenth; below ten entries that is none
  (`GossipRuns.CacheBoundIff`).
- `src/security.rs:108` announces decay per hour; the hour count wraps at 256 (`Decay.MoreTimeIsCloserIff`), and
  every update drops the part hour before it (`Reputation.PartHoursLost`), so that updates more often than hourly
  stop decay altogether (`Reputation.FrequentTouchesFreeze`, `Reputation.HourlyUpdatesNeverDecay`).
- `src/security.rs:308` resets the score when a check notices an expired ban, `src/security.rs:323` does not
  (`Reputation.ExpiryLeavesTwoScores`, with the exact condition for the scores to agree).
- `src/sync.rs:387` announces a check for all transactions needed; after a snapshot with missing transactions one
  arrival is enough, even an empty one if anything is buffered; `SyncRuns.PartialSnapshotUnderfetches` says when it
  happens to bring everything needed.
- `src/sync.rs:291` announces that a download starts, but no request is issued, nor is one after a refused start
  (`src/sync.rs:191`, `src/sync.rs:329`); with nothing else pending no timeout check ever ends such a phase
  (`SyncRuns.UnaskedStallsIff`).
- `src/sync.rs:252` takes a verdict for a sequence number, not for a snapshot, so it can apply another that arrived
  meanwhile (`SyncRuns.VerdictAppliesItsSnapshotIff`).
- `src/compression.rs:316` returns an empty vector for an empty flush, which is not a batch the parser accepts
  (`WireFormat.EmptyIsNotABatch`); runs record no batch for it.

## Model

| member | source | states |
|---|---|---|
| WireFormat.Unbatch | src/compression.rs:363-417 | the cursor loop stays in bounds and returns, error kinds included, what the suffix-recursive parser returns |
| WireFormat.DecodeExact | src/compression.rs:315-417 | parsing yields `ms` if and only if the sizes of `ms` fit and its encoding is a prefix of the input |
| WireFormat.RoundTripIff | src/compression.rs:324-331 | encode then parse is the identity exactly when count and lengths fit in 32 bits |
| WireFormat.PrefixFree | src/compression.rs:320-331 | no legal batch is a proper prefix of another |
| WireFormat.TruncationRejected | src/compression.rs:383-401 | a legal batch cut anywhere is refused |
| WireFormat.TruncationKind | src/compression.rs:363-404 | which error: by where the batch was cut, in the count, in a length, or in a message |
| WireFormat.WordBytes | src/compression.rs:324-329 | sizes are four bytes, least significant first |
| WireFormat.OversizeMessageIsLost | src/compression.rs:329 | the `as u32` cast turns a message of 2^32 bytes into an empty one |
| WireFormat.EncodedLength | src/compression.rs:322 | a batch takes 4 bytes, 4 more per message, and the payload |
| WireFormat.EmptyIsNotABatch | src/compression.rs:316-369 | what an empty flush returns is refused as too small |
| Compressor.FrameRoundTrip | src/compression.rs:99-196 | decompression undoes compression and the frame costs at most one byte |
| Compressor.FrameExact | src/compression.rs:99-153 | from 1024 bytes on the shorter of message and compressed form is kept, below the codec is not asked |
| Compressor.UnframeIff | src/compression.rs:164-196 | which frames unframe to what, and the two errors |
| Compressor.MessageCompressor.Compress | src/compression.rs:99-153 | the framed result, and that statistics change only with a skipped or a shrunk message |
| Compressor.MessageCompressor.Decompress | src/compression.rs:164-196 | the unframed result; only flag 1 reaches the decoder and is counted |
| Batcher.MessageBatcher.AddMessage | src/compression.rs:282-307 | the whole new state and the returned batch, for each of the three branches |
| Batcher.MessageBatcher.FlushPending | src/compression.rs:315-354 | the loop builds the encoding of the pending messages, which parses back exactly if there are any and they fit; statistics and an empty buffer follow |
| Batcher.Conservation | src/compression.rs:282-354 | over every run, returned batches followed by pending messages are the messages added, in order |
| Batcher.BatchLimits | src/compression.rs:285-302 | every returned batch holds one message or a payload within the limit, and few enough messages |
| Batcher.StateInvHolds | src/compression.rs:219-234 | after every run the size counter is the pending payload, and what is pending is within the limits |
| Batcher.ExactMeans | src/compression.rs:333-341 | over exact reals, both means times their counts are the true totals |
| Stream.StreamRoundTripIff | src/compression.rs:99-417 | delivery of all returned batches, then pending, equals what was added exactly when every batch is sendable |
| Stream.StreamRoundTrip | src/compression.rs:99-417 | the same under conditions on messages and limits known in advance |
| NextFit.SizePotential | src/compression.rs:285-303 | batches closed by size, times the size limit, at most twice the capped bytes sent plus those pending |
| NextFit.NextFitBounds | src/compression.rs:282-307 | batches closed by size against payload bytes, batches closed by count against messages |
| NextFit.ThreeCompetitive | src/compression.rs:282-307 | automatic batches are at most three times the batches of any packing of the same messages |
| NextFit.NotCompetitive | src/compression.rs:302 | with size limit 0 and more than three messages per batch a run and a packing break that bound |
| NextFit.CompetitiveIff | src/compression.rs:282-307 | the bound holds for all runs exactly under the condition above |
| NextFitLowerBound.AlmostThreefold | src/compression.rs:282-307 | for `n` messages to a batch, a run opens 3n - 3 automatic batches where n + 2 are enough |
| NextFitLowerBound.ThreeIsBestPossible | src/compression.rs:282-307 | every factor below three fails for some configuration and run |
| GossipObject.GossipProtocol.HandleReceivedMessage | src/gossip.rs:175-223 | reply and whole new state, duplicate or not |
| GossipObject.GossipProtocol.CacheMessage | src/gossip.rs:226-250 | the new entry, next to what eviction left |
| GossipObject.GossipProtocol.EvictOldMessages | src/gossip.rs:253-276 | expired entries go; if still full, a tenth goes, none of it younger than what stays |
| GossipObject.SortByTime | src/gossip.rs:263-267 | a sorted listing of the same entries |
| GossipObject.GossipProtocol.RemoveFirst | src/gossip.rs:269-271 | removing the first `k` of a sorted listing removes the `k` oldest |
| GossipObject.GossipProtocol.Broadcast | src/gossip.rs:307-391 | reply and whole new state, with one oldest entry removed when full |
| GossipObject.Oldest | src/gossip.rs:358-361 | an entry no younger than any other |
| GossipObject.GossipProtocol.PrepareMessage | src/gossip.rs:146-172 | reply and new counters; errors change nothing |
| GossipObject.GossipProtocol.Subscribe | src/gossip.rs:112-130 | a new topic with zero counters, or no change |
| GossipObject.GossipProtocol.Unsubscribe | src/gossip.rs:133-143 | the topic is removed, or an error |
| GossipObject.GossipProtocol.ClearCache | src/gossip.rs:294-299 | the cache is emptied, nothing else changes |
| GossipRuns.KeptOrCrowdedOut | src/gossip.rs:175-276 | in one step a live id keeps its time stamp unless a window of entries at least as young is left behind |
| GossipRuns.StaysCached | src/gossip.rs:175-375 | over every run an id stays cached until a clear, its time to live, or more than a window of ids |
| GossipRuns.DedupWindow | src/gossip.rs:181-194 | a later copy inside the window is answered as a duplicate |
| GossipRuns.DedupWindowStrict | src/gossip.rs:181-194 | with strictly increasing times the window counts only ids inserted since |
| GossipRuns.WindowIsExact | src/gossip.rs:260-271 | one id more than the window can make the cache forget, for every limit of at least ten and a longer time to live |
| GossipRuns.SmallWindowIsExact | src/gossip.rs:354-375 | below a limit of twenty, receives and one broadcast do the same with one id more than the window |
| GossipRuns.CacheBound | src/gossip.rs:226-276 | the cache never exceeds its limit in any reachable state, for limits of at least ten |
| GossipRuns.UnboundedGrowth | src/gossip.rs:262 | below ten, receives grow the cache to any size |
| GossipRuns.CacheBoundIff | src/gossip.rs:226-276 | the exact configurations under which the limit is kept in all runs |
| GossipRuns.AmortisedEviction | src/gossip.rs:261-271 | evictions of a tenth, times that tenth, plus the cache size, are at most the insertions |
| GossipRuns.CounterConservation | src/gossip.rs:112-250 | received plus deduplicated are the receive calls; repeats and per-topic sums are within the totals |
| GossipHistory.FirstSighting | src/gossip.rs:175-223 | over every run a message not seen before, or not since a clear, is delivered exactly if it parses |
| GossipHistory.SubscribedIff | src/gossip.rs:112-143 | a topic is known exactly if the last subscription or unsubscription that named it subscribed |
| GossipHistory.BroadcastIff | src/gossip.rs:307-333 | a broadcast succeeds exactly while the topic of its kind is subscribed |
| GossipHistory.PrepareIff | src/gossip.rs:146-172 | what is handed over for publishing, and each refusal |
| GossipHistory.UnsubscribeIff | src/gossip.rs:133-143 | an unsubscription succeeds exactly if there was a subscription |
| GossipHistory.InsertedIff | src/gossip.rs:181-375 | which steps insert which id |
| GossipHistory.EntryExact | src/gossip.rs:181-250 | a cached entry has the data and time of the last insertion and counts every sighting since |
| GossipHistory.ReceiveLeaves | src/gossip.rs:226-276 | which, and how many, ids a receive leaves in the cache |
| GossipHistory.BroadcastLeaves | src/gossip.rs:354-363 | how many ids a broadcast leaves in the cache |
| GossipHistory.StatsExact | src/gossip.rs:146-387 | over every run the global counters are what the replies add up to |
| GossipHistory.TopicExact | src/gossip.rs:112-207 | over every run each topic's counters and last activity are exact since it was subscribed |
| SlidingLimiter.RateLimiter.CheckRateLimit | src/security.rs:41-74 | decision and new queues, popping in a loop |
| SlidingLimiter.RateLimiter.ForgetPeer | src/security.rs:85-87 | only that peer's queue is removed |
| SlidingLimiter.DropOldExact | src/security.rs:50-57 | popping drops exactly the entries older than the window |
| SlidingLimiter.RefinesNaive | src/security.rs:41-74 | the decision is that of a limiter which keeps every accepted time |
| SlidingLimiter.WindowBound | src/security.rs:41-74 | any closed interval of the window's length holds at most the limit, since the last clear |
| SlidingLimiter.PeersIndependent | src/security.rs:45-48 | events of other peers never matter |
| Decay.DecayExact | src/security.rs:183-194 | saturation never shows: an exact linear approach to 50 that never crosses it |
| Decay.MoreTimeIsCloser | src/security.rs:183-194 | below 256 hours the distance to 50 never grows with time |
| Decay.MoreTimeIsCloserIff | src/security.rs:186 | without that limit, exactly when decay does nothing |
| Decay.StagesIff | src/security.rs:183-194 | over whole hours, decaying in two stages equals one stage, with the exact condition |
| Decay.CarriedStagesIff | src/security.rs:183-194 | the same when the part hours of the two stages make up one more |
| Reputation.PeerReputation.IncreaseReputation | src/security.rs:197-217 | decayed score plus amount, at most 100 |
| Reputation.PeerReputation.DecreaseReputation | src/security.rs:220-246 | decayed score minus amount, and a ban below the threshold |
| Reputation.PeerReputation.AddBan | src/security.rs:249-278 | blocklist entry and score 0 |
| Reputation.PeerReputation.RemoveBan | src/security.rs:281-297 | entry removed and score 50, only if there was an entry |
| Reputation.PeerReputation.CheckBanned | src/security.rs:300-313 | the answer, and the lazy removal of an expired ban |
| Reputation.PeerReputation.CleanupExpiredBans | src/security.rs:323-342 | expired entries go, counted, scores untouched |
| Reputation.ReadExact | src/security.rs:175-342 | what a caller reads of any peer's score after any event, then and later |
| Reputation.DecreaseBansIff | src/security.rs:240-244 | a decrease bans, with its reason, exactly when it leaves less than the threshold |
| Reputation.ListedIff | src/security.rs:220-342 | which steps put a peer on the blocklist, and which take it off |
| Reputation.BehaviourCounted | src/security.rs:197-278 | over every run the counters of good and bad behaviour are the numbers of increases and decreases |
| Reputation.LazyBlocklist | src/security.rs:220-342 | banned exactly while the latest ban, not lifted since, is younger than the duration; a listed ban is the latest, reason included |
| Reputation.ScoresInRange | src/security.rs:102-103 | every stored or read score is within 0 to 100 |
| Reputation.PartHoursLost | src/security.rs:184-185 | counting hours in two stages loses exactly the hour that the two part hours make up |
| Reputation.UpdateHarmlessIff | src/security.rs:197-217 | exactly when an update that adds nothing leaves later readings of the score alone |
| Reputation.FrequentTouchesFreeze | src/security.rs:183-217 | updates that add nothing, less than an hour apart, keep a score as it is over any length of time |
| Reputation.HourlyUpdatesNeverDecay | src/security.rs:183-297 | in any run that updates a peer within an hour each time, it has the score and the ban of a decay rate of 0 |
| Reputation.ExpiryLeavesTwoScores | src/security.rs:308-335 | for every listed peer whose ban has run out: a check leaves 50, a clean-up the peer's own decayed score, and exactly when the two agree |
| Reputation.BannedHasScore | src/security.rs:257-270 | in every run each listed peer has a score |
| Backoff.ExponentialBackoff.NextBackoff | src/error_recovery.rs:47-68 | the jittered delay and new state; division by zero below 10 ms |
| Backoff.ExponentialBackoff.IsReadyToRetry | src/error_recovery.rs:83-96 | the comparison with the next nominal delay |
| Backoff.NominalExact | src/error_recovery.rs:49-64 | saturating doubling equals exact capped doubling after any number of calls |
| Backoff.NeverDividesByZeroIff | src/error_recovery.rs:55-61 | no call ever divides by zero exactly when both bounds are at least 10 ms |
| Backoff.JitterBound | src/error_recovery.rs:54-62 | each delay is within 5% of its nominal value |
| Backoff.JitterIff | src/error_recovery.rs:55-62 | exactly which delays some clock residue returns |
| Backoff.ReadyIff | src/error_recovery.rs:83-96 | ready exactly if not called since the last reset, or the capped doubling has passed |
| Backoff.StrictlyIncreasing | src/error_recovery.rs:47-68 | delays strictly increase while the next is uncapped |
| Backoff.TotalDelayBound | src/error_recovery.rs:47-75 | the first n uncapped delays sum to within 5% of initial times 2^n - 1 |
| Backoff.ReadyMeansWaitedIff | src/error_recovery.rs:83-96 | over all reachable calls, clock residues and times: ready implies the returned delay was waited, exactly under a condition on the two bounds |
| Backoff.UncappedReadyWaits | src/error_recovery.rs:83-96 | while doubling is uncapped no delay exceeds the next nominal one |
| Backoff.CappedReadyMayBeEarly | src/error_recovery.rs:83-96 | at a cap of 30 ms or more, short of the largest, some clock residue asks for more |
| FixedWindow.RateLimiter.AllowMessage | src/error_recovery.rs:129-141 | decision and new state, with the counter wrapping at 2^32 |
| FixedWindow.RateLimiter.Reset | src/error_recovery.rs:149-152 | counter and window start afresh |
| FixedWindow.BurstBound | src/error_recovery.rs:129-152 | any closed second holds at most twice the limit, plus the limit for each reset or wrap-around within it |
| FixedWindow.BurstBoundIsTight | src/error_recovery.rs:129-141 | for every limit a history without resets and wrap-arounds reaches twice the limit |
| FixedWindow.ResetStartsAfresh | src/error_recovery.rs:149-152 | after a reset every run goes on as from a new limiter |
| FixedWindow.OneWindowAccepts | src/error_recovery.rs:139-140 | how many calls one counter window accepts, wrap-around included |
| FixedWindow.WindowLimitIff | src/error_recovery.rs:139-140 | a window keeps its limit exactly up to 2^32 calls |
| SyncObject.StateSync.StartSnapshotDownload | src/sync.rs:176-215 | outcome and new state; a refused request still leaves the phase changed |
| SyncObject.StateSync.HandleSnapshot | src/sync.rs:218-249 | the request is dropped, the snapshot stored and sent for verification |
| SyncObject.StateSync.CompleteSnapshotVerification | src/sync.rs:252-309 | outcome and new state for each verdict, with the loop over missing transactions |
| SyncObject.StateSync.StartTransactionDownload | src/sync.rs:312-367 | outcome and new state, one request under a new id |
| SyncObject.StateSync.HandleTransactions | src/sync.rs:370-411 | stored transactions, and when complete a repeat-free list of the whole buffer |
| SyncObject.StateSync.CompleteTransactionApplication | src/sync.rs:414-421 | the synced phase, nothing else changed |
| SyncObject.ExpireRequests | src/sync.rs:429-495 | one pass over timed-out requests: retried up to three times, then dropped |
| SyncObject.StateSync.HandleTimeouts | src/sync.rs:424-498 | new state and one retry action per retried request, snapshots first |
| SyncObject.StateSync.ResetSync | src/sync.rs:547-554 | everything but the id counter is cleared |
| SyncRuns.TransactionConservation | src/sync.rs:370-411 | digests received since a reset are those handed over together with those buffered |
| SyncRuns.BufferHoldsLatest | src/sync.rs:382-404 | the buffer maps each digest to its latest arrival and holds nothing else |
| SyncRuns.HandOverExact | src/sync.rs:394-406 | a handed-over list has distinct digests, the announced length, and covers the range in number |
| SyncRuns.ExpectedIff | src/sync.rs:394 | when the 64-bit count is the number of sequence numbers asked for |
| SyncRuns.SnapshotApplyExact | src/sync.rs:252-309 | which step applies which snapshot, and when that means synced |
| SyncRuns.ReapplyNeedsArrival | src/sync.rs:218-309 | between two applications of one sequence it arrived again |
| SyncRuns.VerdictAppliesItsSnapshotIff | src/sync.rs:252-309 | exactly when a verdict applies the snapshot that earned it |
| SyncRuns.VerdictCanApplyAnother | src/sync.rs:238-267 | a snapshot that arrived later under the same sequence is applied in its place |
| SyncRuns.RequestLimits | src/sync.rs:197-215 | in every reachable state both maps are within the limit, retries at most 3, ids below the counter |
| SyncRuns.ExpireCosts | src/sync.rs:436-495 | each timeout uses up exactly one of the four chances, each retry exactly one of three |
| SyncRuns.StepBudget | src/sync.rs:424-498 | a step never creates chances it does not issue; timeouts balance exactly |
| SyncRuns.RetryBudget | src/sync.rs:424-498 | over any run at most four timeouts and three retries per request issued |
| SyncRuns.RetriesPerRequest | src/sync.rs:470-495 | no single transaction request is retried more than three times |
| SyncRuns.RetriesPerSnapshot | src/sync.rs:436-468 | no snapshot request is retried more than three times before it is issued afresh |
| SyncRuns.PhaseSurvivesIff | src/sync.rs:424-498 | any phase but idle survives every timeout check from now on exactly when nothing is pending |
| SyncRuns.UnaskedStallsIff | src/sync.rs:176-367 | a download that starts without a request, by a partial snapshot or a refused start, is stuck under timeout checks exactly when nothing is pending |
| SyncRuns.RequestRemovedIff | src/sync.rs:370-498 | a transaction request goes only by a reset or a timeout after its last retry, and only timeouts change it |
| SyncRuns.AnsweredStaysPending | src/sync.rs:370-421 | through any events but resets and timeout checks a pending request stays as it is |
| SyncRuns.PartialSnapshotUnderfetches | src/sync.rs:288-411 | after a partial snapshot an arrival starts applying exactly if it or the buffer holds anything, and what it hands over covers the snapshot exactly if it brings all that was lacking |
| SyncHistory.DownloadCompletesIff | src/sync.rs:312-406 | a download is handed over exactly when as many digests came in as its range has numbers |
| SyncHistory.PhaseExact | src/sync.rs:176-554 | over every run the phase is what starts, arrivals, verdicts and dropped requests make it |
| SyncHistory.WaitingExact | src/sync.rs:230-238 | a snapshot that waits for a verdict carries the peer and time of its latest arrival |
| SyncHistory.SnapshotPendingIff | src/sync.rs:197-468 | which step makes, keeps, repeats or ends a snapshot request |
| SyncHistory.TransactionPendingIff | src/sync.rs:336-495 | the same for transaction requests |
| SyncHistory.SnapshotRequestExact | src/sync.rs:197-468 | over every run a pending snapshot request is the last one made, with its retries and time |
| SyncHistory.TransactionRequestExact | src/sync.rs:336-495 | over every run a pending transaction request has the range and peer it was made for |
| SyncHistory.AnsweredNotRetried | src/sync.rs:218-228 | an answered snapshot request is gone until it is made again |
| SyncHistory.RetriesRepeatRequests | src/sync.rs:470-487 | a retry action repeats range and peer of an accepted start |
| SyncHistory.SnapshotRetriesRepeatRequests | src/sync.rs:436-460 | the same for snapshots |
| SyncHistory.RetriedIff | src/sync.rs:429-495 | exactly which requests a timeout check repeats |
| SyncHistory.IdsAreConsecutive | src/sync.rs:336-367 | request ids count the requests made |
| ValidatorSync.PeerInfo.RecordSent | src/validator_sync.rs:228-239 | counters and the smoothed latency |
| ValidatorSync.LatencyInRange | src/validator_sync.rs:233-238 | the latency never leaves the range of the samples |
| ValidatorSync.FixedPointIff | src/validator_sync.rs:237 | exactly which values a constant sample leaves alone |
| ValidatorSync.GapShrinks | src/validator_sync.rs:237 | each step closes three tenths of the gap, up to rounding |
| ValidatorSync.GapExact | src/validator_sync.rs:237 | each step leaves seven tenths of the signed gap, rounded |
| ValidatorSync.Converges | src/validator_sync.rs:233-238 | a constant sample brings the latency to within 3 below it and keeps it there |
| ValidatorSync.SendWithRetry | src/validator_sync.rs:1048-1114 | stops at the first success; the pauses double and are capped from the second on |
| ValidatorSync.Aggregate | src/validator_sync.rs:937-1016 | counts, byte total, least, greatest and rounded-down mean of the successful sends |

## Left out

- Backoff.Jittered: `(d as f64 * 0.1) as u64` is modelled as `d / 10`; floating-point rounding of very large delays is not modelled.
- Batcher.ExactMeans: the running means are over exact reals, so floating-point rounding is not modelled.
- SyncObject.StateSync.HandleTimeouts: the two inlined passes share one helper; snapshot and transaction requests share one record type.
- Sync.NextRequestId: request ids, like all statistics counters, are unbounded naturals; overflow of 64-bit counters is not modelled.
- SlidingLimiter.WindowBound: counts the accepts since the peer was last cleared, because clearing forgets the earlier ones.
- ValidatorSync.Smoothed: products of latencies are unbounded, so overflow of `u64` latencies is not modelled.
- Several clock readings inside one operation are one time argument, and each operation is atomic: lock order, lock poisoning and interleavings inside an operation are not modelled.
- Debug-build overflow checks: `to - from + 1` wraps as in a release build.
- Memory limits: `Vec::with_capacity` in `unbatch` may abort on a huge announced count.
- Snappy itself is a pair of functions of which only "decompression inverts compression" is assumed.
- Serialisation of messages is a parameter: whether bytes parse, and what bytes a message has.
- Hash-map iteration order is left open by step relations and orderings; topic hashes, cached copies of ids and log output are dropped.
- Getters, ratios, percentages, progress reports and reputation summaries: plain reads of fields.
- Libp2p wiring, sockets, handshakes, discovery, configuration, error tables, peer and mining bookkeeping, and the dispatch of recovery strategies.
