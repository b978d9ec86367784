# Off-chain worker pallets: a model and its proofs

Two pallets of a Substrate node template run work off chain and bring the result back on chain.
This project models both and proves what their protocols keep over whole runs.

`pallets/example-offchain-worker` is a price oracle.

- `PriceTable.dfy`: the bounded vector of prices and the saturating average over it.
- `PriceWindow.dfy`: which whole histories that vector keeps as the last 64 prices.
- `Oracle.dfy`: the storage, the three dispatchables, the validation of unsigned calls and the
  calls a worker sends. `Oracle.Pallet` is the pallet with its fields; each of its methods is proved
  to move the storage as `Oracle.Dispatch` says.
- `Admission.dfy`: runs of the chain, as blocks and extrinsics in any order. An unsigned extrinsic is
  dispatched only if it validates in the state it is dispatched in.
- `Pool.dfy`: a transaction pool with one entry per provided tag, replaced only on strictly higher
  priority, next to such a chain.
- `PoolHistory.dfy`: what the pool, its record and the chain hold, read off the steps of a run.
- `PoolRuns.dfy`: up to which block such a pool keeps a single live transaction, overflow included.
- `GraceLock.dfy`: the grace-period lock in local storage. A worker's read and its compare-and-set
  are separate steps, and any number of workers interleave, for any block numbers.
- `Cadence.dfy`: the grace-period lock and the chain together. One worker runs for each consecutive
  block, and the calls it sends are included a fixed number of blocks later, where those that are
  stale by then change nothing. An arithmetic of openings says which workers send.
- `SteadyOracle.dfy`: that arithmetic in closed form when every acquisition of the lock tries to send
  an unsigned price.
- `Cents.dfy`: the price in cents taken out of a parsed JSON response.

`pallets/ocw` fetches remote information once and keeps a window of submitted numbers.

- `RemoteCache.dfy`: `fetch_remote_info`, as workers that read the cache, try an expiring lock, fetch,
  set and drop the guard, with clock ticks and blocks between any two steps.
- `RemoteRuns.dfy`: runs of those workers that show how far the promises go.
- `RemoteHistory.dfy`: what the cache holds and what each worker returns, read off the steps of a run.
- `NumberWindow.dfy`: the window of ten numbers and its three dispatchables.

`Bounded.dfy` holds the fixed-width arithmetic: `+` on `u32` wraps around, as in the release profile
the runtime is built with. `Spacing.dfy` is about sequences whose terms are a gap apart,
`Multiples.dfy` about multiples of a period, and `Wrappers.dfy` has the option type. Block numbers are `u32` (runtime/src/lib.rs:50). A run is a sequence of
steps; a step that is not enabled leaves the state as it is.

## Assumptions

- Signing and signature checking are parameters. `SignaturesVerify` says a signature made by the
  keystore passes the check; only the lemma about a worker's own calls needs it.
- A lock of the storage-lock library is not expired while its time deadline lies ahead and its block
  deadline is not passed (`RemoteCache.Conservative`). This holds whether expiry needs both deadlines
  to pass or either (docs/storage.md:79-81), provided a block deadline counts as passed only from the
  next block on; an either-or reading that already counts the deadline's own block is not covered.
  `RemoteRuns.PromptExclusionIff` says for every expiry rule whether prompt workers exclude each other.
- `GracePeriod`, `UnsignedInterval` and `UnsignedPriority` are arbitrary; a lemma that needs one of
  the first two to be at least 1 says so.

## Where the code and its documentation differ

The model follows the code.

- The overview (pallets/example-offchain-worker/src/lib.rs:38) says the last 64 values are stored.
  Once full, the vector overwrites slot `price % 64`. `PriceTable.LastSixtyFourIsNotKept` is a history
  that shows it; `PriceWindow.AlwaysLastSixtyFourIff` says which histories keep the promise throughout,
  by a condition on the prices alone.
- A fraction of one digit is not scaled: 155.2 becomes 15502. A fraction of more than 21 digits is
  divided by a power of ten that wrapped around, and one of 66 or more divides by zero.
  `Cents.CentsExactIff` has the exact boundary for every number without sign and exponent.
- The rate limit and the grace period fail where a block number plus the interval is no `u32` any
  more; `Admission.RateLimitExact` and `GraceLock.SpacingExact` say they hold up to there and no further.
  The pool may then hold two live transactions; it keeps to one a single block longer at best
  (`PoolRuns.OneLiveExact`).
- The worker is meant to attempt one transaction every `GracePeriod` blocks
  (pallets/example-offchain-worker/src/lib.rs:134-136). The lock counts an attempt that is then refused
  as too early. With the values of the runtime, 3 and 3, and calls included within three blocks, an
  oracle that sends unsigned prices loses every second one that way (`SteadyOracle.RuntimeCadence`).
- The cache of `fetch_remote_info` is not read again under the lock, so more than one worker can
  fetch (`RemoteRuns.TwoFetches`). After the cache is set a further fetch can begin exactly when a
  worker is left that read it empty and the lock can still open (`RemoteRuns.NoLateFetchIff`).
  `RemoteCache.FetchesAfterSet` bounds how many, and `RemoteRuns.LateFetchesAreReached` meets the bound.
- The timeouts do not by themselves exclude two holders of the lock: only sending and waiting are
  capped, reading the body is not (`RemoteRuns.SlowWorkerFreesAnother`). `RemoteCache.ExclusionExact`
  holds for every timing, `RemoteCache.TimedMutualExclusion` under the intended one.
- A comment (pallets/example-offchain-worker/src/lib.rs:406-407) speaks of even and odd blocks; the
  kind is the block number modulo 3.

## Model

| member | source | states |
|---|---|---|
| PriceTable.TableRefinesHistory | pallets/example-offchain-worker/src/lib.rs:644-654 | after any history the length is min(n, 64) and slot i holds the last price from the 65th on that is congruent to i, or the i-th price if there is none |
| PriceTable.StoredWasSubmitted | pallets/example-offchain-worker/src/lib.rs:324-329 | every stored price was submitted |
| PriceTable.ShortHistoryIsKept | pallets/example-offchain-worker/src/lib.rs:649-650 | up to 64 submissions are all kept, in order |
| PriceTable.WindowStepExact | pallets/example-offchain-worker/src/lib.rs:649-653 | a full table holding the last 64 submissions still does after one more iff the overwritten slot held the oldest of them; the step behind the next two rows |
| PriceWindow.AlwaysLastSixtyFourIff | pallets/example-offchain-worker/src/lib.rs:38-39 | every prefix of a history is held as its last 64 prices iff every price from the 65th on falls in the slot of the price submitted 64 before it, as read off the prices alone |
| PriceWindow.DistinctPricesKeptIff | pallets/example-offchain-worker/src/lib.rs:38-39 | when no price repeats, that is so iff the k-th price is congruent to k modulo 64 from the 65th on |
| PriceTable.LastSixtyFourIsNotKept | pallets/example-offchain-worker/src/lib.rs:651-653 | a history of 65 prices whose first one stays in the table although it is not among the last 64 |
| PriceTable.FoldExactAndOrderFree | pallets/example-offchain-worker/src/lib.rs:669 | the saturating fold is the true sum capped at u32::MAX, the same for every permutation of the table |
| PriceTable.AverageExactIff | pallets/example-offchain-worker/src/lib.rs:664-671 | the average is the exact floor mean iff that mean is at most u32::MAX / n |
| PriceTable.SafePricesAverageExactly | pallets/example-offchain-worker/src/lib.rs:664-671 | prices up to 67,108,863 never saturate the fold; the average is the exact floor mean and lies between any bounds on the stored prices |
| PriceTable.SafePriceIsTight | pallets/example-offchain-worker/src/lib.rs:664-671 | all tables with prices up to a bound average exactly iff the bound is at most 67,108,863 |
| PriceTable.OverwriteMovesAverageLittle | pallets/example-offchain-worker/src/lib.rs:651-671 | overwriting a slot moves the average by at most the 64th part of the change, rounded up, saturated or not |
| PriceTable.AppendKeepsAverageBetweenIff | pallets/example-offchain-worker/src/lib.rs:649-671 | appending leaves the average between the old average and the new price iff (n+1) times the smaller of them fits in a u32 |
| Oracle.Pallet.constructor | pallets/example-offchain-worker/src/lib.rs:324-338 | a new pallet has an empty table, no events and admission open at block 0 |
| Oracle.Pallet.AddPrice | pallets/example-offchain-worker/src/lib.rs:644-661 | pushes or overwrites and deposits the event; afterwards there is an average, so the expect does not fail |
| Oracle.Pallet.SubmitPrice | pallets/example-offchain-worker/src/lib.rs:228-234 | a signed origin records the price in its own name, in the table and in the event; any other origin is refused and changes nothing |
| Oracle.Pallet.SubmitPriceUnsigned | pallets/example-offchain-worker/src/lib.rs:253-266 | an unsigned origin records the price for the default account and moves NextUnsignedAt one interval past the current block; any other is refused |
| Oracle.Pallet.SubmitPriceUnsignedWithSignedPayload | pallets/example-offchain-worker/src/lib.rs:269-282 | the same, recording the price field of the payload |
| Oracle.CallsAreRecorded | pallets/example-offchain-worker/src/lib.rs:228-282 | each dispatchable appends the price of its own argument or puts it in slot price mod 64, touches nothing else in the table, deposits the event for its signer or the default account, and only the unsigned ones move NextUnsignedAt |
| Oracle.WrongOriginIsRefused | pallets/example-offchain-worker/src/lib.rs:228-282 | a call is refused without effect iff the signed one comes from no signer or an unsigned one does not come unsigned |
| Oracle.ValidExactlyInWindow | pallets/example-offchain-worker/src/lib.rs:673-723 | a genuine call is valid iff its block number is between NextUnsignedAt and the current block, stale iff below, future iff above, and its tag is NextUnsignedAt; it lives 5 blocks, propagates and has at least the base priority |
| Oracle.RefusalReasons | pallets/example-offchain-worker/src/lib.rs:303-320 | signed prices are unknown to unsigned validation; a payload is refused for its proof iff its signature does not verify; the window is that of each call's own block number field |
| Oracle.PriorityExact | pallets/example-offchain-worker/src/lib.rs:688-702 | the priority is the base plus the distance of the price from the mean of the capped true sum, capped, and the base alone on an empty table |
| Oracle.FartherPriceWins | pallets/example-offchain-worker/src/lib.rs:688-702 | of two valid calls the one farther from the average has the higher priority, until the priority saturates |
| Oracle.BatchSharesOneSpot | pallets/example-offchain-worker/src/lib.rs:546-554 | the batch for all accounts holds one call for each account, all valid with the same tag and the same priority |
| Oracle.SignedPricesBypassAdmission | pallets/example-offchain-worker/src/lib.rs:437-467 | signed prices go out whatever NextUnsignedAt is, one per account, and add the fetched price without moving it |
| Oracle.WorkerRefusals | pallets/example-offchain-worker/src/lib.rs:437-562 | when exactly a worker gives up as too early, for a failed fetch or for want of accounts, in the order it checks |
| Oracle.WorkerSends | pallets/example-offchain-worker/src/lib.rs:437-562 | what it sends otherwise: one signed price per account, one payload signed for each account or for the first, or one raw call, all with the fetched price and its block |
| Admission.StepEffect | pallets/example-offchain-worker/src/lib.rs:259-264 | a step changes NextUnsignedAt only by accepting an unsigned call, and then to one interval past the block |
| Admission.RunHistory | pallets/example-offchain-worker/src/lib.rs:673-686 | in every run each accepted call lies between its tag and its block, acceptances are an interval apart, and NextUnsignedAt is one interval past the last |
| Admission.RateLimit | pallets/example-offchain-worker/src/lib.rs:241-244 | the i-th and j-th acceptance, of either kind, are at least (j-i) intervals apart in their blocks, block arguments and tags |
| Admission.RangeBound | pallets/example-offchain-worker/src/lib.rs:331-338 | any range of blocks x to y accepts at most 1 + (y-x)/interval unsigned calls |
| Admission.WrapAcceptsTwice | pallets/example-offchain-worker/src/lib.rs:263-264 | at a block whose number plus the interval overflows, the same call is accepted twice in that block |
| Admission.RateLimitExact | pallets/example-offchain-worker/src/lib.rs:140-145 | all runs from genesis up to a block obey the rate limit iff that block plus the interval is a u32 |
| Admission.AcceptedAtMostOnce | pallets/example-offchain-worker/src/lib.rs:242-244 | block arguments and tags of accepted calls strictly increase, so no call is accepted twice |
| Admission.OneOfTheBatch | pallets/example-offchain-worker/src/lib.rs:532-562 | of all the unsigned calls one worker run sends, at most one is ever accepted |
| Admission.ExactLifetime | pallets/example-offchain-worker/src/lib.rs:673-686 | a genuine call valid now is valid in every later state without an unsigned acceptance in between, and stale in every other |
| Admission.WorkerCallsLive | pallets/example-offchain-worker/src/lib.rs:470-562 | the worker refuses to send iff the call would be stale; every call it sends carries the fetched price, is valid in a later state iff nothing was accepted since, and stale iff something was |
| Admission.TagIsEpoch | pallets/example-offchain-worker/src/lib.rs:707-712 | two validations give the same tag iff nothing was accepted between them; each acceptance raises it by at least one interval |
| Admission.AcceptedSomewhere | pallets/example-offchain-worker/src/lib.rs:302-321 | the acceptances counted by the rows above are exactly the unsigned extrinsics of the run that validate in the state they meet, with the block and the tag of that state |
| Admission.EventsOfRun | pallets/example-offchain-worker/src/lib.rs:228-282 | the events of any run are exactly one for each signed price, under its signer, and each unsigned call that is genuine and in its window, under the default account, in order, with the price read off the call's fields |
| Admission.TableFollowsEvents | pallets/example-offchain-worker/src/lib.rs:644-661 | in every reachable state the events are those of the calls that took effect, the table is the replay of their prices, and the average exists iff there is one |
| Admission.ReachableTable | pallets/example-offchain-worker/src/lib.rs:228-282 | every slot of a reachable table is described by the announced history, through whichever dispatchable it came |
| Admission.ReachableAverageIsExact | pallets/example-offchain-worker/src/lib.rs:664-671 | while announced prices are at most 67,108,863 every reachable average is exact and between the least and greatest price announced |
| Pool.OneLiveTransaction | pallets/example-offchain-worker/src/lib.rs:40-42 | in every reachable state at most one pooled unsigned transaction is not stale; there is one iff a call validated in this epoch; it is the first of the greatest priority; including it is accepted |
| PoolHistory.PoolExact | pallets/example-offchain-worker/src/lib.rs:707-712 | in every run, overflow or not, a tag is pooled iff a call was given it since it was last included or found invalid, and the entry is the first of greatest priority among those calls |
| PoolHistory.RecordIsSubmissions | pallets/example-offchain-worker/src/lib.rs:673-723 | the record of validated calls that the other rows refer to lists exactly the submissions that validated, with the tags and priorities validation gave |
| PoolHistory.SurvivorOutranksAll | pallets/example-offchain-worker/src/lib.rs:707-711 | a pooled entry was itself submitted and validated at some step, and has at least the priority given to any call submitted with its tag at any step of the run |
| PoolHistory.ChainIsRun | pallets/example-offchain-worker/src/lib.rs:253-282 | the chain beside the pool runs as a chain on the included calls and the outside steps, so the results on runs apply to it |
| PoolRuns.OneLiveExact | pallets/example-offchain-worker/src/lib.rs:707-712 | all pool runs from genesis up to block L keep at most one live transaction iff the interval is at least 1 and L + interval is a u32, or L + interval is exactly 2^32 and L below the interval, or both are 0 |
| PoolRuns.TwoLive | pallets/example-offchain-worker/src/lib.rs:263-264 | otherwise a run ends at block L with two live transactions in the pool |
| Pool.SurvivorHasGreatestPriority | pallets/example-offchain-worker/src/lib.rs:707-711 | a pooled entry of any epoch has at least the priority of every call validated with its tag |
| Pool.ChampionIsUnique | pallets/example-offchain-worker/src/lib.rs:710-711 | the history of validations determines which entry holds the spot of a tag |
| Pool.LiveEntryIsAccepted | pallets/example-offchain-worker/src/lib.rs:707-712 | a pooled entry is accepted when included iff its tag is the current NextUnsignedAt, and is stale otherwise |
| GraceLock.LocalStorage.CompareAndSet | pallets/example-offchain-worker/src/lib.rs:380-385 | writes iff the value is still the one that was read |
| GraceLock.LocalStorage.FinishMutate | pallets/example-offchain-worker/src/lib.rs:386-395 | the outcome of the mutation for a value read earlier, and what the storage then holds |
| GraceLock.LocalStorage.FinishChoice | pallets/example-offchain-worker/src/lib.rs:404-433 | a worker that read the storage earlier sends iff it read no value within the grace period and the storage still holds what it read; then it writes its block and its kind is that block modulo 3 |
| GraceLock.LocalStorage.ChooseTransactionType | pallets/example-offchain-worker/src/lib.rs:371-434 | an uninterrupted run acts as the two steps of the lock in a row; nothing is sent iff within the grace period, and otherwise the kind of the block modulo 3 |
| GraceLock.SendsIffItWrites | pallets/example-offchain-worker/src/lib.rs:404-433 | in any state a finishing worker chooses a kind other than Nothing iff its compare-and-set writes |
| GraceLock.ReadIsKept | pallets/example-offchain-worker/src/lib.rs:386-395 | until it finishes, a worker keeps the block it runs for and the value the storage held when it read, whatever the others do |
| GraceLock.SendsAreChoices | pallets/example-offchain-worker/src/lib.rs:404-433 | in every interleaving the log of sends is that of the workers whose kind is not Nothing, in the order they finish |
| GraceLock.SendsAreSpaced | pallets/example-offchain-worker/src/lib.rs:379-395 | for every interleaving of any workers for any blocks, the i-th and j-th worker whose kind is not Nothing run for blocks (j-i) grace periods apart |
| GraceLock.OneSendPerBlock | pallets/example-offchain-worker/src/lib.rs:382-385 | with a grace period of at least 1, the workers whose kind is not Nothing run for strictly increasing blocks |
| GraceLock.WrapSendsTwice | pallets/example-offchain-worker/src/lib.rs:390-393 | where block plus grace period overflows, two workers for the same block both send |
| GraceLock.SpacingExact | pallets/example-offchain-worker/src/lib.rs:132-138 | the spacing holds for all workers up to a block iff that block plus the grace period is a u32 |
| GraceLock.Progress | pallets/example-offchain-worker/src/lib.rs:425-432 | a worker meets a concurrent modification iff another worker sent since its read, and then sends nothing; a worker whose value was a grace period old leaves the stored block advanced by a grace period, whoever sent |
| GraceLock.SequentialAcquisitions | pallets/example-offchain-worker/src/lib.rs:386-395 | one worker per consecutive block acquires the lock at b0 + k * GracePeriod and nowhere else |
| GraceLock.SequentialKinds | pallets/example-offchain-worker/src/lib.rs:406-423 | its k-th send has kind (b0 + k * GracePeriod) mod 3, never raw, and always the same if 3 divides the grace period |
| Cadence.ChainFollows | pallets/example-offchain-worker/src/lib.rs:253-282 | with one worker per block and calls included d blocks later, NextUnsignedAt after every block is the last opening at least d blocks back plus d plus the interval; a block accepts exactly one call if the worker d blocks back opened an epoch, else none; and its events name the price that worker fetched, under every account if sent signed, the default one if it opened an epoch |
| Cadence.WorkerOutcome | pallets/example-offchain-worker/src/lib.rs:170-207 | a worker sends nothing unless its block is a multiple of the period from the first; then a signed price always goes out, an unsigned one iff the arithmetic has admission open, and otherwise it is refused as too early |
| Cadence.AttemptSendsIff | pallets/example-offchain-worker/src/lib.rs:532-541 | an attempt to send an unsigned price succeeds iff it comes less than d blocks after the last opening, for any grace period, interval and delay |
| Cadence.PriceArrives | pallets/example-offchain-worker/src/lib.rs:628-661 | the price fetched by a worker that sends it signed or opens an epoch is the last announced d blocks later and, if the table followed the events at the start, is in it then |
| SteadyOracle.SteadySends | pallets/example-offchain-worker/src/lib.rs:132-145 | where every acquisition is such an attempt, the n-th block's worker sends iff the grace period divides n and n modulo the least multiple of it covering d plus the interval is below d; the other acquisitions are refused |
| SteadyOracle.SteadyAcceptances | pallets/example-offchain-worker/src/lib.rs:143-145 | the chain then accepts exactly one call in the blocks d after a multiple of that cycle, and none in the others |
| SteadyOracle.RuntimeCadence | runtime/src/lib.rs:292-293 | with grace period 3, interval 3 and d at most 3, acquisitions alternate between sending and being refused |
| Cents.PriceOfFirstUsdEntry | pallets/example-offchain-worker/src/lib.rs:628-637 | the price is the first entry named USD, converted if it is a number |
| Cents.NoPriceWithoutUsd | pallets/example-offchain-worker/src/lib.rs:627-637 | anything but an object with such an entry has no price |
| Cents.CentsExactIff | pallets/example-offchain-worker/src/lib.rs:639-640 | the result is 100 times the value rounded down iff that fits a u32, the fraction is not one non-zero digit, and a fraction of more than 21 digits has fewer than 66 and is below the wrapped power of ten |
| Cents.CentsModulo | pallets/example-offchain-worker/src/lib.rs:639-640 | for every number without sign or exponent and under 66 fraction digits the result is 100 times the integer part plus the fraction divided by the power of ten as it wraps, taken modulo 2^32 once |
| Cents.PanicsIff | pallets/example-offchain-worker/src/lib.rs:639-640 | the conversion divides by zero iff there are 66 or more fraction digits |
| Cents.OneDigitIsNotScaled | pallets/example-offchain-worker/src/lib.rs:639-640 | 155.2 becomes 15502 instead of 15520 |
| Cents.LaterDigitsAreIgnoredIff | pallets/example-offchain-worker/src/lib.rs:639-640 | dropping the digits past the second does not change the result iff there are at most 21 digits, or fewer than 66 and the fraction is below the wrapped power of ten |
| Cents.LongFractionIsWrong | pallets/example-offchain-worker/src/lib.rs:639-640 | a well-formed 22-digit fraction worth zero cents that counts as one cent |
| Cents.RenderRoundTrip | pallets/example-offchain-worker/src/tests.rs:394-397 | every u32 written with two fraction digits is read back unchanged |
| RemoteCache.OffchainStorage.constructor | pallets/ocw/src/lib.rs:303 | storage starts with no cached info and no lock |
| RemoteCache.OffchainStorage.TryLock | pallets/ocw/src/lib.rs:328-335 | succeeds iff the lock is free or expired, and then holds it until 4000 ms and 3 blocks from now |
| RemoteCache.OffchainStorage.FetchRemoteInfo | pallets/ocw/src/lib.rs:299-342 | run alone it acts as the five steps of one worker: a set cache or a taken lock stops it without effect; otherwise the fetched info is in the cache or the error is returned, and the lock is free |
| RemoteCache.AloneExact | pallets/ocw/src/lib.rs:299-342 | the same outcome for the five steps of the model |
| RemoteCache.ExclusionExact | pallets/ocw/src/lib.rs:328-340 | in any run, at most one worker is between try_lock and drop throughout iff no try_lock takes over an expired lock whose owner is inside; then no drop frees another's lock |
| RemoteCache.TimedMutualExclusion | pallets/ocw/src/lib.rs:51-53 | if critical sections last under 4000 ms and at most 3 blocks, at most one worker is inside in every state and no drop frees another's lock |
| RemoteRuns.PromptExclusionIff | pallets/ocw/src/lib.rs:328-335 | for any expiry rule, all runs of such prompt workers from a fresh start are exclusive iff the rule never fires within 4000 ms and 3 blocks of taking the lock |
| RemoteRuns.LockHorizon | pallets/ocw/src/lib.rs:51-53 | a lock just taken cannot be taken within 3999 ms and 3 blocks; if it expires once both deadlines are passed, it can 4001 ms and 4 blocks later |
| RemoteRuns.SlowWorkerFreesAnother | pallets/ocw/src/lib.rs:335-340 | a run from a fresh start in which a worker outlives both deadlines, is robbed, and then frees the lock of the worker that took over |
| RemoteCache.CacheHoldsFetchedInfo | pallets/ocw/src/lib.rs:336-337 | the cache only ever holds info from a completed fetch |
| RemoteCache.CacheChangesBySetOnly | pallets/ocw/src/lib.rs:313-339 | a worker that stores what it fetched sets the cache to it; no other step changes the cache, and it never empties |
| RemoteHistory.CacheIsLastStored | pallets/ocw/src/lib.rs:336-339 | in every run the cache holds the info of the last worker that fetched one while holding the guard and then stored it; a worker returns an error iff its fetch ended in that error |
| RemoteHistory.StoredForGood | pallets/ocw/src/lib.rs:313-337 | a worker that fetched an info and stores it leaves exactly that in the cache, which stays set; no worker that reads it afterwards begins a fetch or fails |
| RemoteHistory.CacheCanBeFilled | pallets/ocw/src/lib.rs:299-342 | from a fresh start, for any info, some run ends with it in the cache, one fetch begun and the lock free |
| RemoteCache.FailureIsFinal | pallets/ocw/src/lib.rs:338 | a worker whose fetch failed returns that error and never writes the cache, whatever happens meanwhile |
| RemoteCache.FetchesAfterSet | pallets/ocw/src/lib.rs:313-336 | once set the cache stays set; fetches begun after that number at most the workers that had read it empty, and are all theirs |
| RemoteRuns.TwoFetches | pallets/ocw/src/lib.rs:313-340 | two workers fetch although nothing expires |
| RemoteRuns.NoLateFetchIff | pallets/ocw/src/lib.rs:313-336 | once the cache is set, no run begins another fetch iff no worker is left that read it empty or the lock is stuck: held, never to expire, with nobody inside |
| RemoteRuns.LateFetchesAreReached | pallets/ocw/src/lib.rs:333-340 | otherwise in some run every worker that had read the cache empty, and nobody else, begins exactly one more fetch |
| NumberWindow.Pallet.constructor | pallets/ocw/src/lib.rs:143 | a new pallet holds no numbers |
| NumberWindow.Pallet.AppendOrReplaceNumber | pallets/ocw/src/lib.rs:286-294 | drops the head only at exactly ten elements, then appends |
| NumberWindow.Pallet.SubmitNumberSigned | pallets/ocw/src/lib.rs:245-252 | a signed origin puts its number last in the vector and announces it under its account; any other is refused and changes nothing |
| NumberWindow.Pallet.SubmitNumberUnsigned | pallets/ocw/src/lib.rs:255-262 | an unsigned origin puts its number last and announces it without a name; any other is refused |
| NumberWindow.Pallet.SubmitNumberUnsignedWithSignedPayload | pallets/ocw/src/lib.rs:266-280 | the same for the number field of the payload |
| NumberWindow.CallsAreRecorded | pallets/ocw/src/lib.rs:245-280 | each dispatchable puts the number of its own argument last, behind what was there before, and announces it with its signer or none |
| NumberWindow.DispatchRecords | pallets/ocw/src/lib.rs:245-294 | any call is recorded so or refused without effect, by origin and call alone |
| NumberWindow.SlidingWindow | pallets/ocw/src/lib.rs:284-294 | in every reachable state the events are those of the accepted calls, read off their arguments, and the vector is their last ten numbers in order |
| NumberWindow.WindowOfHistory | pallets/ocw/src/lib.rs:286-294 | the same from any starting vector; one longer than ten only grows |
| NumberWindow.BoundedExactly | pallets/ocw/src/lib.rs:288 | the vector stays within ten for all runs iff it starts within ten |

## Left out

- Numbers with an exponent or a minus sign: the conversion to cents reads neither, so the lemmas are about numbers without them.
- The JSON lexer, UTF-8 checks, HTTP requests and their deadlines: foreign code; the model starts from their outcome.
- The storage-lock library beyond an atomic try-lock with a deadline; its clock and block numbers are unbounded here.
- The transaction pool beyond one entry per tag and replacement on higher priority: longevity, propagation and banning are library matters. Revalidation only drops entries that are no longer valid.
- Submission errors of the pool and of signing, and the nonces and eras of signed transactions.
- Cached info or price vectors that fail to decode: both values are written by these pallets alone.
- The events of block zero and the clearing of events at each block, which the system pallet does.
- The parent hash lookup at the start of the worker and all logging.
- The dispatch by `block % 4`, `validate_unsigned` with its constant tags and the submitting helpers of `pallets/ocw`: single branches without state.
- `pallets/template`, `node/` and the wiring in `runtime/`, which compose code not shown here.
