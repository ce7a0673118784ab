# Verified model of the NFTorrent gateway

NFTorrent is an asyncio gateway between TON, IPFS, a database and a Telegram bot. This
project models its state machines and codecs in Dafny and proves what they keep. Code
between two awaits is one atomic step. Clocks are non-decreasing reals and a sleep never
ends early; counts and rates are exact numbers. etcd, the database, the chain, IPFS and
the worker processes appear as small nondeterministic environments.

| file | models |
|---|---|
| `LeaderLease.dfy` | `EtcdPoolLock` and `bot_polling`: the leased leader loop, any number of nodes |
| `RandomFeed.dfy` | the segment climb of the random feed, as written and as meant |
| `IndexCursor.dfy`, `NftUpdate.dfy` | the indexer cycle with its commit, and the sync path |
| `TaskQueue.dfy` | the task queue shared by the indexer nodes |
| `RateLimit.dfy` | the token bucket and the uniform spacer |
| `KeyedLock.dfy`, `ContentLocks.dfy` | the keyed, counted lock and its three users in the content manager |
| `Consensus.dfy`, `RestartBudget.dfy`, `Requests.dfy` | liteserver supervision: the in-sync machine, the restart budget, the request protocol |
| `Radix.dfy`, `TextCodecs.dfy`, `AdnlCodec.dfy`, `BagId.dfy` | ADNL and bag ids over base32, base64 (RFC 4648, sections 6 and 4) and hex |
| `Common.dfy` | optional values and results, sets and sequences |
| `Influx.dfy`, `DateMask.dfy` | the InfluxDB line printer and the packed date printer |

The state machines are written as steps on values, over which the properties of whole runs
are proved, and, but for `ContentLocks.dfy`, also as classes whose methods update fields as
the program does, each proved to make a step of the value model.

Assumptions, each stated in the code where it is used:

- etcd binds a lock to at most one unexpired lease and reports a TTL rounded down to whole
  seconds; an etcd call ends within a bound; a cancelled child stops promptly.
- `RestartBudget.WindowsAreOk` alone assumes that a process is alive when it has been started.
- An incarnation of a worker reports blocks that do not go back (`Consensus.BackwardReport`
  says exactly when one that does would matter).
- Task ids of concurrent requests are distinct. Cycles of one indexer are serialised.
- The timeout of a request wakes its caller when it is due; answers, queues and processes keep no time.
- The checksum of an ADNL id is any function from bytes to two bytes.

Where the code and its comments disagree the model follows the code:

- The 60% vote counts the liteservers within 3 blocks of the best, not all of them.
- The climb divides by two without rounding; `RandomFeed.LoopEndsWhen` says from which start
  segments it ends, and the `Meant` members treat the climb as its comment describes it.
- The break test of the climb is inclusive and its upper bound exclusive, so the last row can
  be missed; `RandomFeed.LastRowLostWhen` says when.
- `nft_update_nft_data` reads an unassigned `cid` when a changed image is not an IPFS link, and
  `parse_bag_id` an unassigned `buf` for 64 characters that are not hex
  (`NftUpdate.FailsByItself`, `BagId.BagTextAccepted`).
- `check_children_alive` takes a process for alive that it has just started. When the restart
  that closes a window starts one that is not, every later check of that worker fails
  (`RestartBudget.DeadStartFails`, `RestartBudget.LostForEver`).

## Model

| member | source | states |
|---|---|---|
| `LeaderLease.StepKeeps` | NFTorrent/indexer/indexdb.py:111-162 | with a lease of at least ten calls, every step of every node, of etcd, of the network and of the clock keeps the invariant, failed calls, late requests, cancellation and crashes included |
| `LeaderLease.SleepKeeps` | NFTorrent/indexer/indexdb.py:154-159 | sleeping three quarters of a reported TTL leaves time for the call that reported it and for the next refresh, also when the reported TTL has no time left |
| `LeaderLease.EndKeeps` | NFTorrent/indexer/indexdb.py:488-520 | when a child ends, both children stop before the lease can run out; three calls are enough for that |
| `LeaderLease.RunInv` | NFTorrent/indexer/indexdb.py:468-533 | the invariant at every moment of every run of any number of nodes |
| `LeaderLease.AtMostOnePolls` | NFTorrent/indexer/indexdb.py:468-520 | at most one node polls at a time, when the lease covers ten etcd calls |
| `LeaderLease.LeaseIsSafe` | NFTorrent/indexer/indexdb.py:154-162 | the exact threshold: no reachable state has two nodes polling if and only if the lease covers ten calls |
| `LeaderLease.PollingIsLeased` | NFTorrent/indexer/indexdb.py:154-162 | while a node polls, etcd holds the lock for that node's lease, unexpired, and no release of it has been asked for |
| `LeaderLease.ReportedTtlIsLong` | NFTorrent/indexer/indexdb.py:154-159 | a TTL reported to a polling node is the granted one less three calls and a second at most; with eleven calls and a second, its last quarter covers two calls |
| `LeaderLease.ConfiguredLeaseIsLong` | NFTorrent/indexer/indexdb.py:166-167 | the configured 5 second calls and 60 second lease meet both conditions |
| `LeaderLease.BotPolling.constructor` | NFTorrent/indexer/indexdb.py:463-470 | nodes that hold nothing are in order |
| `LeaderLease.BotPolling.SendAcquire` | NFTorrent/indexer/indexdb.py:111-119 | each attempt asks for the lock with a lease of its own |
| `LeaderLease.BotPolling.Entered` | NFTorrent/indexer/indexdb.py:119-127 | polling starts exactly with a granted lock, which etcd holds then if the lease is long; without it nothing has started |
| `LeaderLease.BotPolling.LeaseInfo` | NFTorrent/indexer/indexdb.py:154-158 | the loop sleeps for three quarters of the TTL it is told; with a long lease that ends a whole call before the lease does |
| `LeaderLease.BotPolling.Wake` | NFTorrent/indexer/indexdb.py:158-159 | the end of the sleep is the refresh step |
| `LeaderLease.BotPolling.Refresh` | NFTorrent/indexer/indexdb.py:141-159 | raises exactly on an answer without time left and sleeps for three quarters of it otherwise; with a long lease it renews, and the lease outlives the next sleep by a call |
| `LeaderLease.BotPolling.ChildEnded` | NFTorrent/indexer/indexdb.py:489-513 | the end of either child is the ending step |
| `LeaderLease.BotPolling.StopChildren` | NFTorrent/indexer/indexdb.py:514-520 | the release is sent when neither child runs, and a long lease had not run out while polling did |
| `LeaderLease.ShortLeaseFails` | NFTorrent/indexer/indexdb.py:154-159 | for every lease of less than ten calls there is a run in which two nodes poll at once |
| `LeaderLease.FailureStops` | NFTorrent/indexer/indexdb.py:141-162 | a failed refresh ends the cycle: no time passes before polling is stopped, and the release is asked for then |
| `LeaderLease.ReleaseFrees` | NFTorrent/indexer/indexdb.py:129-132 | a served release frees the lock for the next request |
| `LeaderLease.TimeGoesOn` | NFTorrent/indexer/indexdb.py:468-533 | even when etcd never answers again time can go on to any later moment, and the nodes that had to give up by then have stopped polling |
| `RandomFeed.AfterTiles` | NFTorrent/indexer/indexdb.py:1163-1189 | after any number of climbs the next query is one end of the window and the rest is exactly the window before; the width doubles each time |
| `RandomFeed.RangesTileWindow` | NFTorrent/indexer/indexdb.py:1163-1189 | an id is in the window of climb j exactly when one of the queries up to j asked for it |
| `RandomFeed.RangesAreDisjoint` | NFTorrent/indexer/indexdb.py:1163-1189 | no two queries ask for the same id |
| `RandomFeed.SegmentSize` | NFTorrent/indexer/indexdb.py:1157 | the power of two between two and four times the limit |
| `RandomFeed.QueryCompletes` | NFTorrent/indexer/indexdb.py:1175-1180 | adding a limited query to the rows so far gives distinct rows, at most a segment of them, and all matches of the window while they are fewer |
| `RandomFeed.CompleteSize` | NFTorrent/indexer/indexdb.py:1175-1182 | the rows are short of a segment exactly when the window has fewer matches than that, and then they are all of them |
| `RandomFeed.LastItemId` | NFTorrent/indexer/indexdb.py:1160-1161 | the largest id of the table, or 0 for an empty one |
| `RandomFeed.Query` | NFTorrent/indexer/indexdb.py:1176-1180 | a limited, unordered select: distinct matching rows, all of them if they fit the limit |
| `RandomFeed.RandomFeed` | NFTorrent/indexer/indexdb.py:1156-1192 | the loop ends at the first climb that has a segment of matches or both ends; the feed is then distinct matching rows of that window, as many as the limit allows; a limit of 0 or less is a domain error |
| `RandomFeed.BreakMissesOnlyLast` | NFTorrent/indexer/indexdb.py:1181-1182 | a window that reaches both ends has every match, but for the last id exactly when its exclusive upper end is that id |
| `RandomFeed.LastRowLostWhen` | NFTorrent/indexer/indexdb.py:1163-1189 | a call that ends short of a segment loses a matching last row exactly when its id is the segment size times a power of two above the start segment |
| `RandomFeed.LastRowLost` | NFTorrent/indexer/indexdb.py:1178-1181 | that last row can be lost: a table of two rows with a limit of one |
| `RandomFeed.LowerEnd` | NFTorrent/indexer/indexdb.py:1183-1189 | with true division the lower end stays put until the lowest set bit of the start segment is used up, drops once, and never moves again |
| `RandomFeed.ReachesZero` | NFTorrent/indexer/indexdb.py:1163-1189 | as written, the window ever reaches id 0 if and only if the start segment is 0 or a power of two |
| `RandomFeed.LoopEndsWhen` | NFTorrent/indexer/indexdb.py:1175-1189 | as written, the loop ends if and only if the start segment is 0 or a power of two, or a full segment of rows matches from the final lower end on |
| `RandomFeed.EndlessClimb` | NFTorrent/indexer/indexdb.py:1157-1189 | a table of one row, a limit and a start segment with which the call never ends |
| `RandomFeed.AlignedBlock` | NFTorrent/indexer/indexdb.py:1174-1189 | with the parent at n div 2, as the comment means it, the window after j climbs is the aligned block of 2^j segments around the start |
| `RandomFeed.MeantClimbIsShort` | NFTorrent/indexer/indexdb.py:1162-1189 | and both ends are reached within ceil(log2(segment_count + 1)) climbs, for every table and start |
| `RateLimit.RefillExact` | NFTorrent/ratelimit.py:24-28 | refilling keeps the counter equal to the least of burst + rate*length - grants over all sliding windows ending now |
| `RateLimit.GrantExact` | NFTorrent/ratelimit.py:38 | so does taking a token for a grant |
| `RateLimit.TokenMeansRoom` | NFTorrent/ratelimit.py:34 | there is a token exactly when every sliding window ending now has room for one more grant |
| `RateLimit.GrantConforms` | NFTorrent/ratelimit.py:30-38 | granting only then keeps every window of the whole history within burst + rate*length |
| `RateLimit.OneSleepIsEnough` | NFTorrent/ratelimit.py:34-37 | one sleep of the computed length refills a whole token |
| `RateLimit.NoRoomBefore` | NFTorrent/ratelimit.py:34-37 | and no earlier moment has room for the grant |
| `RateLimit.TokenBucketRateLimit.constructor` | NFTorrent/ratelimit.py:16-22 | a fresh limiter is sound; 0 counts as not given for the burst and the pending bound |
| `RateLimit.TokenBucketRateLimit.Refill` | NFTorrent/ratelimit.py:24-28 | the counter becomes the refilled one at the time read, and stays sound |
| `RateLimit.TokenBucketRateLimit.Acquire` | NFTorrent/ratelimit.py:30-38 | granted at once exactly when all windows have room, otherwise after one sleep that ends at the first moment with room; refused exactly when it has to sleep and the rate is 0 or the task is cancelled, which loses the permit and nothing else |
| `RateLimit.TokenBucketRateLimit.Release` | NFTorrent/ratelimit.py:40-41 | gives the permit back and nothing else |
| `RateLimit.RunInv` | NFTorrent/ratelimit.py:52-65 | the spacer's invariant in every interleaving of acquires, wake-ups, cancellations and releases |
| `RateLimit.DelayNeverDecreases` | NFTorrent/ratelimit.py:52-65 | `_delay_until` never goes back |
| `RateLimit.DelayIsFromLast` | NFTorrent/ratelimit.py:50-65 | `_delay_until` is one interval after the last grant or release of the run, or the start |
| `RateLimit.BeginWaitsForDelay` | NFTorrent/ratelimit.py:55-61 | an acquire is granted at once when that is past and sleeps just until it otherwise |
| `RateLimit.ReleasePushes` | NFTorrent/ratelimit.py:63-65 | an acquire begun after a release is granted no earlier than an interval after it |
| `RateLimit.GrantsSpaced` | NFTorrent/ratelimit.py:52-65 | consecutive grants are at least one interval apart, releases and cancellations at any moment included |
| `RateLimit.PermitsConserved` | NFTorrent/ratelimit.py:52-65 | permits left, grants, cancelled acquires and the sleeping one add up to the first permits and the releases, and there is never less than no permit left |
| `RateLimit.PendingIsBounded` | NFTorrent/ratelimit.py:49-65 | grants not yet released and the sleeping task never outnumber the first permits less those lost by cancelled acquires |
| `RateLimit.CancelledPermitsAreLost` | NFTorrent/ratelimit.py:53-58 | when every grant has been released, one permit is missing for each cancelled acquire |
| `RateLimit.WindowHoldsFew` | NFTorrent/ratelimit.py:46-65 | any window of length L holds at most floor(L/interval) + 1 grants |
| `RateLimit.UniformRateLimit.constructor` | NFTorrent/ratelimit.py:46-50 | the initial state; the rate is divided by and must not be 0 |
| `RateLimit.UniformRateLimit.BeginAcquire` | NFTorrent/ratelimit.py:52-58 | acquire from the permit to its sleep is the begin step of the run model |
| `RateLimit.UniformRateLimit.FinishAcquire` | NFTorrent/ratelimit.py:58-61 | acquire after its sleep is the wake step |
| `RateLimit.UniformRateLimit.CancelAcquire` | NFTorrent/ratelimit.py:53-58 | cancelled in its sleep, an acquire frees the lock and gives no permit back |
| `RateLimit.UniformRateLimit.CancelBeforeLock` | NFTorrent/ratelimit.py:53-54 | nor does one that is cancelled while it waits for the lock |
| `RateLimit.UniformRateLimit.Release` | NFTorrent/ratelimit.py:63-65 | release is the release step |
| `RateLimit.UniformRateLimit.Acquire` | NFTorrent/ratelimit.py:52-61 | one caller alone: one more grant, an interval after the last |
| `KeyedLock.StepKeeps` | NFTorrent/locks.py:15-33 | entering, resuming, leaving, cancelling and unwinding keep the invariant that ties each lock's queue, holder, count and index entry together |
| `KeyedLock.ExitKeeps` | NFTorrent/locks.py:28-33 | and the key that leaving deletes is in the dictionary and leads to this very lock |
| `KeyedLock.MutualExclusion` | NFTorrent/locks.py:15-33 | at most one use is inside per key, across deletion and recreation of the lock and cancelled waiters |
| `KeyedLock.UsedLockIsIndexed` | NFTorrent/locks.py:16-20 | a lock held or waited for is the one its key leads to |
| `KeyedLock.CountIsExact` | NFTorrent/locks.py:24-32 | the count is holders plus waiters plus references leaked by cancelled waiters; the key is there exactly when it is positive |
| `KeyedLock.NothingLeaks` | NFTorrent/locks.py:24-32 | without cancelled waiters nothing is leaked, so the count is exactly holders plus waiters |
| `KeyedLock.LeakIsUnwound` | NFTorrent/locks.py:24-25 | what a lock has leaked is the number of its waiters that were cancelled and have unwound |
| `KeyedLock.LeakHappens` | NFTorrent/locks.py:24-32 | a run in which nobody uses a key any more and its lock is still there |
| `KeyedLock.LeakIsForEver` | NFTorrent/locks.py:24-32 | after one cancelled waiter the key stays in the dictionary for the rest of the run |
| `KeyedLock.FreeLockWakes` | NFTorrent/locks.py:25-29 | no wake-up is lost: a free lock with waiters has woken its head, or will when the head unwinds |
| `KeyedLock.TryKeyNeverSuspends` | NFTorrent/locks.py:21-25 | a key entered only with wait=False never suspends anyone |
| `KeyedLock.TryIsRefused` | NFTorrent/locks.py:16-23 | a try with wait=False is refused exactly while another use is inside the same key, whatever other keys are in use; nothing else is refused |
| `KeyedLock.EntryIsFree` | NFTorrent/locks.py:16-26 | any other entry is inside at once if nobody is inside or waits uncancelled, and waits otherwise |
| `KeyedLock.NoOvertaking` | NFTorrent/locks.py:25-29 | first come, first served: who comes while another waits uncancelled is not inside before that one |
| `KeyedLock.OperationLocks.constructor` | NFTorrent/locks.py:10-13 | an empty dictionary is in order |
| `KeyedLock.OperationLocks.Find` | NFTorrent/locks.py:16-20 | the lock of the key, made with count 0 when there is none |
| `KeyedLock.OperationLocks.Acquire` | NFTorrent/locks.py:24-25 | one user more, inside at once on a free lock without uncancelled waiters, and queued last otherwise |
| `KeyedLock.OperationLocks.FindAndAcquire` | NFTorrent/locks.py:16-25 | the lookup and the acquire are the enter step of the model |
| `KeyedLock.OperationLocks.Enter` | NFTorrent/locks.py:15-26 | LockShouldWaitError exactly for wait=False while somebody is inside the key; suspended exactly when somebody is inside or waits; inside the key otherwise |
| `KeyedLock.OperationLocks.Resume` | NFTorrent/locks.py:25-26 | a woken waiter takes the lock |
| `KeyedLock.OperationLocks.Exit` | NFTorrent/locks.py:28-33 | the lock is released, its next waiter woken, the count lowered and the key deleted at zero |
| `KeyedLock.OperationLocks.Cancel` | NFTorrent/locks.py:25 | cancelling a waiting use marks its future |
| `KeyedLock.OperationLocks.Unwind` | NFTorrent/locks.py:24-25 | the cancelled waiter leaves the queue and hands a free lock on; its reference stays counted |
| `ContentLocks.KeysDiffer` | NFTorrent/ipfs/manager.py:292-302 | keys of different kinds never collide, whatever the addresses and CIDs in them |
| `ContentLocks.ActKeeps` | NFTorrent/ipfs/manager.py:290-315 | every act of any number of concurrent calls, cancelled ones included, keeps the world in order |
| `ContentLocks.OneConfirmation` | NFTorrent/ipfs/manager.py:292 | at most one confirmation per NFT is in flight |
| `ContentLocks.StartsUnlessTaken` | NFTorrent/ipfs/manager.py:292-315 | a call goes to work unless one for the same subject is in flight, and is turned away then; other NFTs and owners never get in its way |
| `ContentLocks.PollingEnds` | NFTorrent/ipfs/manager.py:302 | a confirmation whose polling has ended has its CID's lock at once, or waits for it if it is held or wanted |
| `ContentLocks.AddSpawns` | NFTorrent/ipfs/manager.py:476-486 | a creation that ends with a new CID leaves a confirmation of it behind |
| `ContentLocks.BlockedByAble` | NFTorrent/ipfs/manager.py:302 | only a holder of an NFT's pin lock is ever blocked, only on a CID's lock, and whoever it waits for, a cancelled waiter included, can go on |
| `ContentLocks.AbleActs` | NFTorrent/ipfs/manager.py:290-315 | a call that is not blocked has an act that is allowed |
| `ContentLocks.TryKeysNeverSuspend` | NFTorrent/ipfs/manager.py:292-302 | the outer locks, entered with wait=False, never suspend their caller |
| `ContentLocks.NoDeadlock` | NFTorrent/ipfs/manager.py:290-315 | while some call is not done, some call can act by itself, whichever calls were cancelled |
| `ContentLocks.ActsUseWork` | NFTorrent/ipfs/manager.py:439-486 | every act but an arrival or a cancellation uses up work, the confirmation started by create_content included |
| `ContentLocks.RunsEnd` | NFTorrent/ipfs/manager.py:439-486 | so the acts between arrivals and cancellations are bounded, and with the absence of deadlock all calls end |
| `Consensus.VoteIsUnique` | NFTorrent/tonlib/manager.py:390-403 | the newest block with a 60% quorum is unique |
| `Consensus.VoteIsReported` | NFTorrent/tonlib/manager.py:390-403 | it is the block of some reporter and within 3 of every better one |
| `Consensus.CountsWorkers` | NFTorrent/tonlib/manager.py:385-396 | the vote counts every worker once, by its block |
| `Consensus.VoteExamples` | NFTorrent/tonlib/manager.py:392-403 | three of five have a quorum, one of two has not, and who is more than 3 blocks behind does not count |
| `Consensus.StepKeeps` | NFTorrent/tonlib/manager.py:198-429 | ticks, reports, terminations and respawns keep `is_sync` implying `last_block >= consensus_block`, and never lower the consensus block |
| `Consensus.SyncMeansReached` | NFTorrent/tonlib/manager.py:269-283 | at every await point a worker in sync has reached the consensus block, when no incarnation reports blocks that go back |
| `Consensus.ConsensusGrows` | NFTorrent/tonlib/manager.py:406-408 | the consensus block never goes back over a run |
| `Consensus.ConsensusIsReported` | NFTorrent/tonlib/manager.py:385-408 | it moves only in a tick, to a block that some worker reports then, the newest one with 60% of the reporters within 3 of the best |
| `Consensus.TickTakesVote` | NFTorrent/tonlib/manager.py:385-407 | a tick takes over the newest block that six tenths of the workers within 3 of the newest have reached, if it is newer |
| `Consensus.TickMarks` | NFTorrent/tonlib/manager.py:409-429 | after a tick with reporters a worker is in sync exactly when its block has reached the consensus block |
| `Consensus.LastBlockIsReport` | NFTorrent/tonlib/manager.py:282-346 | over any run a worker's block is the last one its present incarnation has reported, or none |
| `Consensus.BackwardReport` | NFTorrent/tonlib/manager.py:343-346 | a report that goes back keeps the mark right exactly when the worker is not marked or still has the consensus block |
| `Consensus.TonlibManager.CollectBlocks` | NFTorrent/tonlib/manager.py:385 | the blocks of the workers that have reported one |
| `Consensus.TonlibManager.Best` | NFTorrent/tonlib/manager.py:390 | a maximum |
| `Consensus.TonlibManager.CountOf` | NFTorrent/tonlib/manager.py:396 | how many reporters are at a block |
| `Consensus.TonlibManager.Vote` | NFTorrent/tonlib/manager.py:396-403 | the loop over the four newest blocks finds the newest one with a quorum |
| `Consensus.TonlibManager.CheckWorking` | NFTorrent/tonlib/manager.py:385-429 | one pass takes a newer vote over and marks every worker against it, keeping the invariant |
| `Consensus.TonlibManager.MarkSync` | NFTorrent/tonlib/manager.py:409-429 | every worker is marked by comparison with the consensus block, nothing else changes |
| `Consensus.TonlibManager.BlockUpdate` | NFTorrent/tonlib/manager.py:343-346 | a report replaces the worker's block |
| `Consensus.TonlibManager.TerminateWorker` | NFTorrent/tonlib/manager.py:198-201 | a terminated worker is neither alive nor in sync |
| `Consensus.TonlibManager.SpawnWorker` | NFTorrent/tonlib/manager.py:218-283 | a new or restarted worker is not in sync and has no block |
| `Consensus.TonlibManager.SelectWorker` | NFTorrent/tonlib/manager.py:499-519 | the asked worker itself when it is in sync; otherwise as many distinct suitable workers as asked for if there are; every one has reached the consensus block; the exact conditions of both errors |
| `Consensus.TonlibManager.AllSuitable` | NFTorrent/tonlib/manager.py:503-507 | exactly the suitable workers, each once |
| `RestartBudget.CheckKeeps` | NFTorrent/tonlib/manager.py:452-479 | a check keeps the window, the restart log and the budget, whether or not it fails and the started process is alive |
| `RestartBudget.CheckMeans` | NFTorrent/tonlib/manager.py:463-479 | a check restarts exactly the dead workers that are due and have a restart left or a deadline past, with one restart less in the window; it changes nothing else than to open a window of three restarts |
| `RestartBudget.DeadIsRestarted` | NFTorrent/tonlib/manager.py:452-479 | and so does every check of every run |
| `RestartBudget.RestartsAreBounded` | NFTorrent/tonlib/manager.py:463-479 | restarts up to time t number at most 3 + 4*floor((t - T0)/600), with T0 the first detected death, and none before it, whether or not started processes are alive |
| `RestartBudget.RestartsAreApart` | NFTorrent/tonlib/manager.py:475-479 | and are at least restart_timeout apart |
| `RestartBudget.WindowsAreOk` | NFTorrent/tonlib/manager.py:456-478 | when every process started is alive then, a worker recorded dead has an open window and no check fails; deadline and counter are set and cleared together and the counter stays within 0..3 |
| `RestartBudget.FailsWhen` | NFTorrent/tonlib/manager.py:475-478 | a check fails on None exactly when a worker already recorded dead has no window when its restart is due |
| `RestartBudget.FailsOnlyAfterDeadStart` | NFTorrent/tonlib/manager.py:475-479 | over any run a check fails only after a window-closing restart, or a first start, whose process was not alive, the worker being recorded dead without a window ever since |
| `RestartBudget.LostForEver` | NFTorrent/tonlib/manager.py:462-479 | from then on every check that is due fails and none restarts the worker, as long as the process does not come back |
| `RestartBudget.DeadStartFails` | NFTorrent/tonlib/manager.py:475-479 | a run of three checks in which it happens |
| `RestartBudget.Supervisor.constructor` | NFTorrent/tonlib/manager.py:251-280 | freshly started workers satisfy the invariant |
| `RestartBudget.Supervisor.CheckChildrenAlive` | NFTorrent/tonlib/manager.py:448-479 | one pass checks the workers in order; an exception leaves the later ones unchecked |
| `RestartBudget.Supervisor.CheckOne` | NFTorrent/tonlib/manager.py:452-479 | the body, assignment by assignment, restarts exactly the dead workers that are due, and is the check of the run model also where it raises |
| `Requests.StepKeeps` | NFTorrent/tonlib/manager.py:521-557 | every step of callers, reader, queues and worker keeps the protocol invariant |
| `Requests.OwnAnswer` | NFTorrent/tonlib/manager.py:536-557 | a call that returns or raises does so with the answer of its own task; otherwise it timed out, got TonlibNoResponse or could not be put |
| `Requests.OneAnswer` | NFTorrent/tonlib/worker.py:338-379 | a task produces at most one answer in the whole run |
| `Requests.PendingIsFutures` | NFTorrent/tonlib/manager.py:527-557 | `pending_tasks` is the number of registered futures, those of the running calls; both are zero when idle |
| `Requests.NeverInvalidState` | NFTorrent/tonlib/manager.py:330-334 | the reader never completes a future twice |
| `Requests.DeliveryReaches` | NFTorrent/tonlib/manager.py:330-334 | a delivered result or exception is what the waiting future becomes |
| `Requests.AnswerIsTold` | NFTorrent/tonlib/manager.py:327-552 | an answer delivered while its call waits is what the call ends with, unless the caller is cancelled |
| `Requests.AnsweredCall` | NFTorrent/tonlib/manager.py:521-557 | a request that nothing disturbs returns what the worker produced, and leaves the counters as they were |
| `Requests.TerminatedGetsNoResponse` | NFTorrent/tonlib/manager.py:202-203 | a call that waits when the worker is terminated gets TonlibNoResponse |
| `Requests.TimedOutWhenDue` | NFTorrent/tonlib/manager.py:544 | a call times out only when that is due and its future has nothing |
| `Requests.DoneIsFinal` | NFTorrent/tonlib/manager.py:330-334 | a done future and the outcome of a call never change, across timeouts, late answers and restarts |
| `Requests.EndsByTimeout` | NFTorrent/tonlib/manager.py:544-557 | a call that awaits its answer is over when its timeout is past, whatever is answered, lost, terminated or cancelled |
| `Requests.TimeGoesOn` | NFTorrent/tonlib/manager.py:544-557 | from every state that keeps the invariant time can go on to any later moment, and the calls whose timeouts it passes have ended |
| `Requests.CallsEnd` | NFTorrent/tonlib/manager.py:536-557 | from every reachable state every running call can end without an answer or a cancellation, as soon as its timeout is past |
| `Requests.WorkerControl.BeginDispatch` | NFTorrent/tonlib/manager.py:525-542 | registering a request, as the begin step |
| `Requests.WorkerControl.FinishDispatch` | NFTorrent/tonlib/manager.py:544-557 | the caller gets the result, the exception or TonlibNoResponse of its future, which came from its own task, and the future is gone |
| `Requests.WorkerControl.ReadResult` | NFTorrent/tonlib/manager.py:327-341 | a result or exception becomes the pending future's, other futures stay, and it says whether one was pending |
| `Requests.WorkerControl.Terminate` | NFTorrent/tonlib/manager.py:198-203 | cancels every pending future and leaves the done ones |
| `Requests.ProcessTask` | NFTorrent/tonlib/worker.py:338-379 | a request past its deadline is not run; the answer has never both a result and an exception |
| `IndexCursor.RowsAreDistinct` | NFTorrent/indexer/indexdb.py:816-883 | over any run of cycles failing anywhere, committed rows have distinct indices below the cursor |
| `IndexCursor.CursorGrows` | NFTorrent/indexer/indexdb.py:844-878 | the cursor never goes back, rows are never lost, and a cycle adds at most a bulk |
| `IndexCursor.CursorWasOnChain` | NFTorrent/indexer/indexdb.py:826-844 | the cursor never passes the largest next index the chain has shown |
| `IndexCursor.NothingPassedOver` | NFTorrent/indexer/indexdb.py:844-878 | every index below the cursor has its row, or was skipped for a TonlibRequestError by the very cycle that committed past it |
| `IndexCursor.CyclesIndex` | NFTorrent/indexer/indexdb.py:844-878 | a cycle in which nothing goes wrong moves the cursor on whenever the chain has an item for it, and adds a full bulk or all there is |
| `IndexCursor.RowsAreFetched` | NFTorrent/indexer/indexdb.py:845-862 | a committed row holds what the chain gave for its index |
| `IndexCursor.Indexer.CollectionUpsert` | NFTorrent/indexer/indexdb.py:1099-1110 | reads the cursor, making it 0 on first use |
| `IndexCursor.Indexer.BulkInsert` | NFTorrent/indexer/indexdb.py:1058-1097 | rows and cursor are committed together |
| `IndexCursor.Indexer.Scan` | NFTorrent/indexer/indexdb.py:843-873 | fails exactly on an item that ends the cycle before the bulk is full; otherwise it has every item up to where it stops, and stops behind the row that fills it |
| `IndexCursor.Indexer.Cycle` | NFTorrent/indexer/indexdb.py:816-885 | commits exactly when nothing goes wrong up to there and there is something to commit, and raises exactly when the collection, the scan, the icons, the commit or its acknowledgement fails |
| `IndexCursor.ScannedOne` | NFTorrent/indexer/indexdb.py:844-873 | handling one more item extends the scan |
| `NftUpdate.DueNoticeInTime` | NFTorrent/indexer/indexdb.py:678-689 | a due notice comes before the due date, and after now unless the date is less than a day away |
| `NftUpdate.NoticesMean` | NFTorrent/indexer/indexdb.py:666-689 | the times and kinds of the notices: a transfer or an update after 5 seconds, a due date ten days or one day ahead |
| `NftUpdate.UpdateNft` | NFTorrent/indexer/indexdb.py:645-689 | the record takes the new attributes, is undeleted, and is marked updated, transferred and re-imaged exactly by what differed; the notices that follow; both records may be one object |
| `NftUpdate.CopyAttribute` | NFTorrent/indexer/indexdb.py:655-664 | one attribute and its marks |
| `NftUpdate.CopyAttributes` | NFTorrent/indexer/indexdb.py:655-664 | the loop over the attributes marks exactly the differences |
| `NftUpdate.UpdateTwice` | NFTorrent/indexer/indexdb.py:645-689 | a second update with the same data finds nothing to do |
| `NftUpdate.NewTasksMean` | NFTorrent/indexer/indexdb.py:666-689 | which tasks a change of owner, another change, a mere redraw and no change add |
| `NftUpdate.FailsByItself` | NFTorrent/indexer/indexdb.py:754-765 | where nothing goes wrong around it the call raises exactly for a changed image whose link is not an IPFS link |
| `NftUpdate.WebImageFails` | NFTorrent/indexer/indexdb.py:754-765 | an image that moves from IPFS to the web is such a case |
| `NftUpdate.NftStore.Get` | NFTorrent/indexer/indexdb.py:691-699 | a detached copy of the row of the address, or None exactly when there is none |
| `NftUpdate.NftStore.NewId` | NFTorrent/indexer/indexdb.py:1048-1055 | a new row gets an unused id |
| `NftUpdate.NftStore.BulkUpdate` | NFTorrent/indexer/indexdb.py:1048-1056 | a record with an id replaces its row, any other becomes one new row; the tasks are added |
| `NftUpdate.NftStore.MarkDeleted` | NFTorrent/indexer/indexdb.py:730-740 | the row is kept with the time of its deletion, or nothing changes |
| `NftUpdate.NftStore.Redraw` | NFTorrent/indexer/indexdb.py:754-768 | goes wrong exactly on an unbound `cid`, or when unlinking, IPFS or drawing do where they are called; the error code is that of the drawing |
| `NftUpdate.NftStore.UpdateNftData` | NFTorrent/indexer/indexdb.py:722-774 | no row is ever inserted, no other address changes, the exact condition for an exception, which changes nothing, and the whole row and the tasks added of a call that ends well |
| `TaskQueue.StepKeeps` | NFTorrent/indexer/indexdb.py:1003-1056 | every statement of every node keeps the invariant, crashes and rollbacks included |
| `TaskQueue.HandedOutOnce` | NFTorrent/indexer/indexdb.py:1006-1027 | each row is handed out by at most one claim of the whole run |
| `TaskQueue.SelectionsDisjoint` | NFTorrent/indexer/indexdb.py:1006-1011 | concurrent selections have no row in common |
| `TaskQueue.SelectTakesDue` | NFTorrent/indexer/indexdb.py:1006-1011 | a select takes only rows whose time has come, and all of them that are not locked if its limit allows |
| `TaskQueue.TimeIsKept` | NFTorrent/indexer/indexdb.py:1021-1026 | a row keeps the time it was enqueued with until it is claimed |
| `TaskQueue.HandedOutWhenDue` | NFTorrent/indexer/indexdb.py:1004-1027 | no row is handed out before its task time |
| `TaskQueue.OnlyClaimedRowsGo` | NFTorrent/indexer/indexdb.py:1042-1046 | rows go only with the completion of the batch they were claimed in, and then all of the batch goes |
| `TaskQueue.TasksConserved` | NFTorrent/indexer/indexdb.py:1003-1056 | enqueued = pending + claimed + deleted |
| `TaskQueue.Database.SelectForUpdate` | NFTorrent/indexer/indexdb.py:1006-1014 | locks at most maxsize due rows, all of them if fewer, and none exactly when none is due |
| `TaskQueue.Database.CommitClaim` | NFTorrent/indexer/indexdb.py:1016-1034 | hands out rows that no claim had before |
| `TaskQueue.Database.BulkUpdate` | NFTorrent/indexer/indexdb.py:1036-1056 | deletes the batch and adds the new tasks in one transaction |
| `TaskQueue.Added` | NFTorrent/indexer/indexdb.py:1055 | new rows get new ids in order and no other row changes |
| `TextCodecs.B32RoundTrip` | NFTorrent/blockchain/address.py:11 | base32 decoding undoes encoding |
| `TextCodecs.B32Exact` | NFTorrent/blockchain/address.py:19 | a text accepted without padding is the encoding of what it decodes to |
| `TextCodecs.B32First` | NFTorrent/blockchain/address.py:11 | the first base32 character is the upper five bits of the first byte |
| `TextCodecs.B32Second` | NFTorrent/blockchain/address.py:11 | the second base32 character is the rest of the first byte and the upper two bits of the second |
| `TextCodecs.HexExact` | NFTorrent/blockchain/address.py:37 | where there is no room for whitespace, fromhex accepts exactly the hex of its result in any letter case |
| `TextCodecs.FromHexAccepts` | NFTorrent/blockchain/address.py:64 | fromhex accepts exactly pairs of hex digits with blanks between pairs |
| `TextCodecs.B64Exact` | NFTorrent/blockchain/address.py:42 | strict base64 decoding gives a 32-byte id exactly for its base64 text, up to the two bits it ignores |
| `TextCodecs.B64RoundTrip` | NFTorrent/blockchain/address.py:42 | base64 decoding undoes encoding of a 32-byte id |
| `Radix.RegroupBack` | NFTorrent/blockchain/address.py:11-19 | regrouping digits from one base to another and back is the identity when groups of both kinds hold the same numbers |
| `AdnlCodec.EncodeRoundTrip` | NFTorrent/blockchain/address.py:7-24 | any length but 32 is refused; every 32-byte id comes back from its text, in either letter case, for any two-byte checksum function |
| `AdnlCodec.DecodeExact` | NFTorrent/blockchain/address.py:15-24 | the decoder gives an id exactly for the texts that are its encoding but for letter case |
| `AdnlCodec.DecodeRoundTrip` | NFTorrent/blockchain/address.py:15-24 | encoding what was decoded gives the text in lower case |
| `AdnlCodec.EncodeMeans` | NFTorrent/blockchain/address.py:10-12 | the base32 text of tag, id and checksum always starts with F, which is dropped |
| `AdnlCodec.EncodedStarts` | NFTorrent/blockchain/address.py:10-12 | the text of every id starts with u, v, w or x, by its upper two bits |
| `AdnlCodec.ParseAccepts` | NFTorrent/blockchain/address.py:27-49 | exactly the inputs that denote an id in some form are accepted |
| `AdnlCodec.ParseDenoted` | NFTorrent/blockchain/address.py:27-49 | every form of an id gives its ADNL text; a 55-character text keeps its letter case |
| `AdnlCodec.SameAnswer` | NFTorrent/blockchain/address.py:27-49 | bytes, hex in any letter case, base64 and the ADNL text of an id all give the same answer |
| `AdnlCodec.ParseIdempotent` | NFTorrent/blockchain/address.py:27-49 | parsing the answer again changes nothing |
| `BagId.BagDenoted` | NFTorrent/blockchain/address.py:52-78 | number, bytes, hex and base64 of one id all give its 64 upper-case hex characters |
| `BagId.BagTextAccepted` | NFTorrent/blockchain/address.py:61-78 | a text is accepted exactly when it is hex or base64 of an id, and fails on an unbound name exactly when it has 64 characters and is not pairs of hex digits with blanks between |
| `BagId.BagIdempotent` | NFTorrent/blockchain/address.py:52-78 | the text of an id parses to itself |
| `BagId.NumberRoundTrip` | NFTorrent/blockchain/address.py:54-55 | no number is refused, but its text parses back if and only if it is not negative and fits in 32 bytes |
| `BagId.HexNatFits` | NFTorrent/blockchain/address.py:55 | the padded text of a number that fits is its 64 base-16 digits |
| `Influx.DataclassToInflux` | NFTorrent/utils.py:28-45 | the loop prints the fields that are not skipped, joined by commas |
| `Influx.DecimalReads` | NFTorrent/utils.py:44 | the text of an integer reads back as that integer |
| `Influx.ShownReads` | NFTorrent/utils.py:38-42 | integers and truth values are shown as integers, true as 1; text as it is |
| `Influx.InfluxRoundTrip` | NFTorrent/utils.py:17-45 | the line reads back as the printed fields if and only if no tag but the last and no quoted text ends in a backslash, and text in a field not declared as text has no comma, no escape and no leading quote |
| `Influx.PlainReads` | NFTorrent/utils.py:38-44 | numbers always read back |
| `Influx.InfluxUnambiguous` | NFTorrent/utils.py:17-45 | two instances that print the same readable line have the same keys and text |
| `Influx.ItemsAreFields` | NFTorrent/utils.py:30-44 | what reads back is every field not skipped, with its own text (an empty tag apart), and nothing else |
| `Influx.EmptyTagIsNull` | NFTorrent/utils.py:43 | an empty tag reads as null and any other text as itself |
| `Influx.TokenizeEscape` | NFTorrent/utils.py:17-25 | reading escaped text gives its characters, whatever follows, unless it ends in a backslash before a special character |
| `Influx.TokenizeSwallow` | NFTorrent/utils.py:17-25 | and in that case the backslash and the special character become one character |
| `Influx.TokenizeFlaw` | NFTorrent/utils.py:44 | raw text is cut at its first comma, or loses its first backslash before a special character |
| `Influx.TagsEndAtSpace` | NFTorrent/modelsbase.py:95 | the tags of a measurement line end at its first unescaped space, so the fields behind them are never read as tags, unless a tag ends in a backslash |
| `Influx.LineReads` | NFTorrent/utils.py:28-45 | the round trip and its exact condition for any list of raw, escaped and quoted values |
| `DateMask.DateMaskToString` | NFTorrent/blockchain/encoders.py:9-27 | the loop stays within its ten slots and prints the mask's text, for every integer |
| `DateMask.ReadBack` | NFTorrent/blockchain/encoders.py:9-27 | the text reads back to the mask, but for what it does not show |
| `DateMask.SameText` | NFTorrent/blockchain/encoders.py:9-27 | two masks print the same exactly when they differ only in what is not shown |
| `DateMask.MaskExamples` | NFTorrent/blockchain/encoders.py:5-27 | 0x20250131, 0x20250100 and 0x20250000 print as the comment says, and a mask without a year as a star |
| `DateMask.TextAt` | NFTorrent/blockchain/encoders.py:14-25 | year, dashes, month, day and stars stand at fixed places and the length says which are unspecified |

## Left out

- HTTP routes, middleware, settings, Telegram handlers, list paging, texts and pictures: input, output and user interface.
- TON cells, friendly addresses, tokens and signatures: library code that is not part of this model.
- SQL, etcd, IPFS and process internals: only their outcomes appear. Sound sharing of pins between NFTs is not claimed.
- Binary floating point: limiter arithmetic, the climb's segment number and the 60% threshold are exact.
- RandomFeed.RandomFeed: runs at most a given number of passes, because the loop need not end; when it ends is `RandomFeed.LoopEndsWhen`. The climb as meant is only functions and lemmas.
- RateLimit.TokenBucketRateLimit.Acquire: starts where the semaphore has a permit and the lock lets the task in, and is one call; the order of waiting tasks is asyncio's.
- LeaderLease.StepKeeps: a second cancellation while the children are awaited is not a step.
- KeyedLock.OperationLocks.Enter: the asyncio lock inside is modelled with its queue of futures; a lock entered again by its own holder is an ordinary second use.
- ContentLocks.NoDeadlock: the calls are values that move through phases, over the lock of `KeyedLock.dfy`, and not coroutines. A refused confirmation ends there; that its handler then reads an unassigned `curr_cid` is not modelled.
- Consensus.TonlibManager.CheckWorking: durations and averages of time in and out of sync are not kept, nor the archival updates.
- RestartBudget.CheckKeeps: `worker_control`, which disables workers at shutdown, is not a step. Controls are values in the dictionary, which the source never shares or replaces.
- Requests.StepKeeps: queues are unordered and may lose anything, which covers closing them; statistics and logging are left out.
- IndexCursor.Indexer.Cycle: notices enqueued with the rows are not modelled; that two nodes never run cycles at once is assumed.
- NftUpdate.NftStore.UpdateNftData: the torrent information and icons are outcomes of IPFS and drawing calls. The CID of a link is its text up to the first slash, question mark or hash; that parsing an address can itself fail is not modelled, and the due time is always a number.
- TaskQueue.TasksConserved: neither the spacing of due notices nor that every task completes is claimed, since a batch that raises is never deleted.
- AdnlCodec.DecodeExact: texts are ASCII; a few other letters have an ASCII upper case, and the decoder would take them.
- TextCodecs.B64Exact: padding is checked as Python 3.11 and later do; 3.10 also takes one padding character too many.
- Influx.InfluxRoundTrip: declared types are classes, and a float is known by the text it prints as. `dict_to_influx` follows the same printer and is left out.
- DateMask.DateMaskToString: `bcd2c_to_string` and `flatten_snake_cell` beside it are left out.
