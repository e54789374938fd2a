# rate-net in Dafny

A model of the accounting core of rate-net, a keyed rate limiter, with proofs of
what that core is for: bounded memory and speed never hand a key more than its
quota. `dafny verify dfyconfig.toml` checks everything.

## What is modelled

- **The per-key algorithms.** GCRA (`Gcra`), the fixed window (`FixedWindow`), the
  sliding log (`SlidingLog`) and the sliding counter (`SlidingCounter`), with
  their 64-bit saturation written out. GCRA and the fixed window are also state
  machines in which every load, `fetch_max` and compare-and-swap is a step of
  some thread with a possibly stale reading (`GcraRace`, `FixedWindowRace`). The
  log and the counter run under a mutex, so they are objects
  (`SlidingLogObject`, `SlidingCounterObject`) and sequential runs
  (`SlidingLogRuns`, `SlidingCounterRuns`). `TokenRestore` is the arithmetic by
  which a token bucket is rebuilt from a debt.
- **The recovery table.** `RecoveryTable` is the cuckoo table of debts with its
  overflow sketch, over any hash geometry that `Probe.Sound` describes;
  `Probe.ProbeGeometry` is the crate's own. `RecoveryFacts` and `RecoveryRecord`
  say what map the table holds, `RecoveryCover` and `RecoveryRuns` that no debt is
  lost, `RecoveryOrigins` that the sketch says only what debts not recorded as
  inherited say, `RecoveryPlain` that the table refines a plain map,
  `RecoveryObject` is the table changed in place.
- **The evicting shard.** `Shard` is one function per locked section. It is
  generic in the key's state: `KeyLaws` is the trait `KeyState` as a record of
  functions, the laws restoring a key relies on (`Orderly`) and those a store
  relies on (`Lawful`), and `KeyGcra`, `KeyWindow`, `KeyLog` and `KeyCounter`
  prove them of the four algorithms. History variables (`Shard.Marks`) say who
  was charged from the sketch, and what debt of each key was recorded last. The
  proofs about shards are in `ShardIndex`, `ShardHints`, `ShardRecall`,
  `ShardSafety`, `ShardSteps`, `ShardPasses`, `ShardChecks`, `ShardRuns`,
  `ShardReturns`, `ShardPeek`, `ShardForget`, `ShardRefusal`, `ShardClock`,
  `ShardSweep`, `ShardRetain`, `ShardIdle`, `ShardAhead`, `ShardMarks` and
  `ShardSpread`; `ShardObject` is the shard changed in place. `SpreadRun` is one run of a shard with room for one key
  (`LoneShard`), through the tables of `SpreadTable`, with keys placed by the
  crate's own hash mixing (`SpreadProbe`). `StoreKeys` carries what one key's
  own state keeps over to what a store grants the key, `StoreGcra` and
  `StoreWindows` say what that is for each algorithm, `StoreReturns` what each
  does with a key that comes back owing, `StoreAhead` says exactly
  when reading ahead leaves a store safe, and `Algorithms` puts everything
  together.

Times are nanoseconds, or milliseconds where the store rounds to them; the clock
is an argument. Keys are numbers, the hasher is a function, the hash index is a
set of (hash, position) pairs.

## What the shard theorems assume

- Readings used on one shard never go back.
- The keys in play have distinct table identities (`ShardSafety.Distinct`), since
  a record carries only a 32-bit tag. `RecoveryPlain.TakingClearsIff` says what
  happens otherwise.
- Readings, and the deadlines of never-evicted keys, stay below the last deadline
  a sketch cell expresses, 2^40 - 1 ms (`KeyLaws.LAST`), hence below every 64-bit
  ceiling.
- For the sliding log the running total fits 64 bits at the quota's own rate.
- For the sliding log and the sliding counter every period outlasts the
  millisecond that `first_hint` reads ahead (`PeriodsOutlast`): this one is not
  only assumed, `StoreAhead` proves the theorem false without it. Its failing runs
  need readings as far as two milliseconds for the log, and a little over 1000
  seconds for the counter.

That a restored state is never looser than the evicted one needs no such bound on
the period. It does ask that the evicted state is one the clock has reached
(`Native`): GCRA words within a burst of the clock, counters whose window has
begun. The states of never-evicted keys always are; for a counter that was read
ahead, `KeyCounter.ResumeIsStricterIff` says exactly when the charge still
suffices.

## Where the code does less than it says

Each of these is stated as an exact condition.

- Fixed window: two threads that open a window together over one with the same
  low 32 bits and a full count both succeed. The limit holds over all runs
  exactly when the windows read differ in those bits
  (`FixedWindowRace.SafeIffIndexInjective`).
- Sliding log: a denial or a peek prunes, so a thread with an older reading can
  then be granted units beside ones already dropped
  (`SlidingLogRuns.SafeIffNothingNearWasPruned`,
  `SlidingLogRuns.StaleReadingAfterADenialOverAdmits`).
- GCRA: a key evicted and restored does lose to rounding, an interval at a time,
  because deadlines pass through whole milliseconds; it gets its word back
  exactly when the word's interval starts on one (`Gcra.RestoreThroughMillis`,
  `Gcra.RepeatedRestoreDrifts`). The trait's documentation says such a key loses
  nothing (src/algo/mod.rs:94-97).
- GCRA: where the end of the burst passes the 64-bit ceiling the sums saturate and
  one thread alone is granted without end. The rate bound holds over all runs
  exactly when no reading is there (`GcraRace.BoundedIffBelowCeiling`,
  `Gcra.AccountingExactIff`).
- `first_hint` reads a new key's state at the next millisecond, and reading prunes
  a sliding log and rolls a sliding counter. A log whose period is over by then,
  or a counter two windows on by then, forgets the request just granted, and two
  checks in one instant are granted twice the limit
  (`KeyLog.ReadingAheadIsHarmlessIff`, `KeyCounter.ReadingAheadIsHarmlessIff`,
  `StoreAhead.ShortLogGrantsTwice`, `StoreAhead.ShortCounterGrantsTwice`). A quota
  is harmless at every reading exactly if its period is more than a millisecond
  for the log, and at least one for the counter; and exactly then does eviction
  never reset a limit (`KeyLog.AlwaysHarmlessIff`, `KeyCounter.AlwaysHarmlessIff`,
  `StoreAhead.LogStoreAgreesIff`, `StoreAhead.CounterStoreAgreesIff`).
- No spreading: a charge from the sketch is said never to be written back to it
  (src/store.rs:69-72, src/eviction.rs:79-80). The mark that sees to that is lost
  when a key takes back an inherited record after one of its two cells has expired:
  `peek` then answers with the record alone, the key is stored as if the debt were
  its own, and its next eviction may write it to the sketch. Exactly then is the
  mark lost (`ShardSpread.MarkLostIff`), and in a run in which that never happens
  nothing spreads (`ShardSpread.NothingSpreads`, `ShardSpread.NothingRatchets`).
  `SpreadRun.SpreadHappens` is a run in which it does: a key that is
  never granted anything leaves its cells with a deadline later than anything
  owed by a key that was not charged from the sketch.
- Sliding log: restoring is said to hold an allowance back for up to one window
  (src/algo/mod.rs:98-100). A key that keeps coming back is charged the whole count
  anew each time, and can be denied without end though granted nothing. The hold
  is at most one window exactly if the last return is no later than the first
  deadline (`KeyLog.ComesBackOwing`, `KeyLog.ReturnsHoldIff`).
- Token bucket: a debt whose anchor is past the 64-bit range is meant to drain the
  bucket for good (src/algo/mod.rs:177-178). It does so exactly if the deadline is
  at least a whole refill after the origin; otherwise the bucket is rebuilt with
  the tokens of the origin (`TokenRestore.UnpayableDebtDrainsIff`). Those are all
  of them exactly if the deadline is less than one token's refill after the origin
  (`TokenRestore.UnpayableDebtComesBackWholeIff`). A debt of a key's own lasts
  longer than that (`TokenRestore.OwnDebtIsNotWhole`), but not if its record cuts
  the deadline short (`TokenRestore.CappedDebtComesBackWhole`).
- Fixed window: a window that ends past the range of a 64-bit clock is never over,
  so a request it denies is denied for good, whatever wait is reported
  (`FixedWindow.RetryIsExact`).
- CLOCK: if every slot it examines is in use or cannot go, the entry under the hand
  is said to go (src/store.rs:31-35). The code takes the first of them that can go,
  and an unused slot whose debt cannot be recorded is passed over
  (`ShardClock.EvictionIsByClock`).
- Taking one key's debt clears another's exactly when the two share an identity
  (`RecoveryPlain.TakingClearsIff`).

The sliding counter does better than documented: a rolling window never reaches
twice the limit (`SlidingCounterRuns.NoRollingWindowReachesTwiceTheLimit`).

## Model

| member | source | states |
|---|---|---|
| `Algorithms.GcraStoreIsSafe` | src/store.rs:1310-1407 | over the crate's own probe and GCRA, in every FailClosed run: what the shard grants a never-evicted map grants, the cap holds, and over any stretch of readings a key is granted at most its burst and the units its limit and period emit in that stretch; a key whose limit, period or burst is zero is granted nothing |
| `Algorithms.WindowStoreIsSafe` | src/store.rs:1310-1407 | the same agreement and cap for fixed-window keys, no window grants a key more than its limit, and a zero limit or period grants nothing |
| `Algorithms.LogStoreIsSafe` | src/store.rs:1310-1407 | the same for sliding-log keys whose periods outlast a read ahead: no rolling window grants a key more than its limit, and a zero limit or period grants nothing |
| `Algorithms.CounterStoreIsSafe` | src/store.rs:1310-1407 | the same for sliding-counter keys whose periods outlast a read ahead: no rolling window reaches twice the limit, and a zero limit or period grants nothing |
| `Algorithms.ClosedAnswersAlike` | src/algo/mod.rs:289-300 | the answer a store gives for a quota that admits nothing is the one each algorithm gives |
| `StoreAhead.LogStoreAgreesIff` | src/store.rs:339-356 | for the sliding log, where readings reach two milliseconds, all runs of a store agree with never-evicted keys exactly if every period exceeds a millisecond |
| `StoreAhead.CounterStoreAgreesIff` | src/store.rs:339-356 | for the sliding counter, where readings reach 1000 seconds, exactly if every period is at least a millisecond |
| `StoreAhead.ShortLogGrantsTwice` | src/store.rs:1369-1383 | for any other log period, two checks in one instant that are granted twice the limit |
| `StoreAhead.ShortCounterGrantsTwice` | src/store.rs:1369-1383 | the same for any other counter period |
| `ShardAhead.TwoChecksDisagree` | src/store.rs:339-356 | for any algorithm, if reading ahead forgets a first grant, a run of two checks in which the shard grants what the never-evicted key refuses |
| `Algorithms.WindowRestoreIsNeverLooser` | src/algo/mod.rs:69-110 | a fresh window charged at least what was owed grants, of any requests, only what the evicted window would |
| `Algorithms.LogRestoreIsNeverLooser` | src/algo/mod.rs:69-110 | the same for the sliding log, whatever the period |
| `Algorithms.CounterRestoreIsNeverLooser` | src/algo/mod.rs:69-110 | the same for the sliding counter, whatever the period, for a counter whose window has begun |
| `Algorithms.PaidDebtChangesNothing` | src/algo/mod.rs:101-104 | restoring a debt whose deadline has passed changes no algorithm's state |
| `StoreReturns.GcraComesBack` | src/store.rs:1369-1383 | in every run, a GCRA key that comes back is granted exactly what its burst leaves above the units its quota emits from now to the deadline it is charged to: that of the debt it left or, if later, the sketch's; one that owes nothing, anything up to its burst |
| `StoreReturns.WindowComesBack` | src/store.rs:1369-1383 | a fixed-window key that comes back is granted exactly what fits beside the units it left owing or, if more, those the sketch says; asking for none it owes exactly those |
| `StoreReturns.LogComesBack` | src/store.rs:1369-1383 | the same for the sliding log |
| `StoreReturns.CounterComesBack` | src/store.rs:1369-1383 | the same for the sliding counter |
| `ShardRuns.EvictionNeverResets` | src/store.rs:978-1117 | for any lawful algorithm, in every run of checks, peeks and retain chunks with all evictions, sweeps, spills and refusals: every grant is one the unbounded map charged with the same grants makes, a key that can have no state is granted zero units alone, the cap holds, the index is a bijection, no hint is wrong |
| `ShardRuns.EachGrantIsIdeal` | src/store.rs:1310-1383 | said of one check: if the shard grants it, the key's never-evicted state grants it, or the key can have no state and asked for zero units |
| `ShardRuns.ClosedIsAnswered` | src/store.rs:1342-1347 | a check of a key that can have no state changes nothing and grants zero units alone |
| `ShardReturns.NewcomerIsCharged` | src/store.rs:1369-1383 | in every run, a newcomer that finds room is judged as a fresh state charged exactly the units it left owing or, if more, those the sketch says, to the deadline of that debt; its slot owes what that state owes |
| `ShardRecall.ChargeIs` | src/store.rs:773-803 | what a key is charged: exactly the debt recorded last and not taken back, if its cells have expired; otherwise the larger of that and the sketch's |
| `ShardPeek.PeekNeverUnderstates` | src/store.rs:1409-1420 | in every run, peek reports at least what the key owes and until when: a key it calls whole or unknown is whole |
| `ShardPeek.PeekOfTheAbsent` | src/store.rs:1409-1420 | of a key that is not stored it says exactly what it left owing or, if more, what the sketch says, and nothing exactly if neither says anything |
| `ShardRuns.StepKeepsInv` | src/store.rs:1310-1504 | every locked section keeps the simulation invariant |
| `StoreGcra.StoreNeverOverAdmits` | src/gcra.rs:385-425 | the rate bound of one bucket, for what a store grants one key through any evictions, in terms of the key's quota alone, zero quotas included |
| `StoreWindows.NoWindowOverAdmits` | src/algo/fixed_window.rs:99-171 | the limit of one fixed window, for what a store grants one key through any evictions |
| `StoreWindows.NoRollingWindowOverAdmits` | src/algo/sliding_log.rs:52-153 | the limit of every rolling window, for what a store grants one sliding-log key through any evictions |
| `StoreWindows.NoRollingWindowReachesTwiceTheLimit` | src/algo/sliding_counter.rs:55-147 | the overshoot bound of every rolling window, for what a store grants one sliding-counter key through any evictions |
| `StoreKeys.GrantsHold` | src/store.rs:1310-1407 | in every run, what a key was granted has every property that a never-evicted state keeps grant by grant |
| `StoreKeys.NoStateNoGrants` | src/store.rs:1342-1347 | in every run, a key that can have no state is granted nothing |
| `StoreWindows.ClosedWindowGrantsNothing` | src/algo/mod.rs:225-227 | so for a fixed window with a zero limit or period |
| `StoreWindows.ClosedLogGrantsNothing` | src/algo/mod.rs:244-248 | so for such a sliding log |
| `StoreWindows.ClosedCounterGrantsNothing` | src/algo/mod.rs:264-268 | so for such a sliding counter |
| `ShardChecks.ComesBackStricter` | src/store.rs:1369-1377 | a returning key, charged what the table says, is stricter than its never-evicted state |
| `ShardChecks.AdmitKeepsInv` | src/store.rs:1369-1383 | storing a newcomer keeps the invariant and grants only what its never-evicted state grants |
| `ShardChecks.StoredKeepsInv` | src/store.rs:1321-1337 | so does a check of a stored key |
| `ShardSafety.EvictAtKeepsInv` | src/store.rs:978-1008 | evicting a slot leaves what its key owes covered by the table |
| `ShardSafety.EvictableKeepsInv` | src/store.rs:958-973 | judging a slot keeps the invariant, and `Recovered` means the key owes nothing |
| `ShardPasses.SweepKeepsInv` | src/store.rs:1013-1050 | the idle sweep keeps the invariant |
| `ShardPasses.EvictOneKeepsInv` | src/store.rs:1057-1117 | so does the CLOCK eviction, both passes |
| `ShardPasses.MakeRoomKeepsInv` | src/store.rs:1387-1407 | so does making room |
| `ShardSteps.EvictionRemoves` | src/store.rs:978-1008 | every eviction chosen on a verdict really removes its slot |
| `ShardSteps.EvictOneMakesRoom` | src/store.rs:1057-1117 | `evict_one` removes exactly one slot, or fails and leaves every key, hash, mark and the table as they were |
| `ShardSteps.RoomIsMade` | src/store.rs:1387-1407 | `make_room` leaves room for one unless it refuses |
| `ShardSteps.CapIsKept` | src/store.rs:1310-1383 | no check takes a shard past its cap |
| `ShardHints.ExactIsWhole` | src/store.rs:313-317 | the exact hint is the first whole millisecond at which nothing is owed, and is past exactly when nothing is |
| `ShardHints.RefreshedIsWhole` | src/store.rs:278-285 | a refreshed hint is exact to the millisecond whatever the reference bit says, and is past exactly when the key is whole |
| `ShardHints.RecoveredOwesNothing` | src/store.rs:958-973 | a slot is judged recovered only if its key owes nothing |
| `ShardHints.FirstHintIsExact` | src/store.rs:339-356 | `first_hint` equals the exact hint, its shortcut and its read ahead included |
| `ShardIndex.LookupIff` | src/store.rs:903-912 | lookup finds a key exactly where it is stored, and nothing if it is not |
| `ShardIndex.InsertIndexes` | src/store.rs:921-931 | insertion keeps the index a bijection and adds one slot |
| `ShardIndex.RemoveIndexes` | src/store.rs:935-950 | swap-remove keeps the bijection and removes exactly one slot |
| `ShardRetain.RetainForgetsExactlyTheWhole` | src/store.rs:1471-1504 | the chunked, swapping pass forgets exactly the keys that are whole |
| `ShardRetain.RetainAllIndexes` | src/store.rs:1471-1504 | and keeps the index a bijection |
| `ShardRetain.AnyStartWillDo` | src/store.rs:1478-1481 | starting past the end, as the code does, is starting at the end |
| `ShardRefusal.RefusalIsHonest` | src/store.rs:1357-1368 | the wait is the earliest deadline of the slots examined, none of which can go, in whole milliseconds: a millisecond before it all of them still owe, and whoever returns to the refusing shard once it is over, nothing else having happened, is not refused |
| `ShardRefusal.EveryRefusalIsHonest` | src/store.rs:1057-1117 | the same at every state of every run |
| `ShardRefusal.RefusalReports` | src/store.rs:1057-1117 | a refusal's wait ends at the earliest deadline of the examined slots, every one of them charged from the sketch with no room in the exact table |
| `ShardClock.EvictionIsByClock` | src/store.rs:1052-1135 | in every run, of the slots in the hand's window the one that goes is the first of the best rank: whole and unused, owing and unused, in use; the last slot takes its place and the hand steps past; it fails exactly if none of them can go |
| `ShardClock.ChosenGoes` | src/store.rs:1057-1117 | the same of any shard whose hints are right |
| `ShardClock.UsedFromSecondCheck` | src/store.rs:26-29 | a check leaves its slot referenced exactly if the key was stored before |
| `ShardForget.ForgetNeverPunishes` | src/store.rs:514-523 | under Forget, in every run: blank sketch, no seeded slot, no refusal, and a key of an identity never recorded starts whole |
| `ShardForget.RecordForgets` | src/store.rs:752-759 | under Forget recording writes no cell and puts no identity in the table but the debt's own |
| `ShardSpread.NothingSpreads` | src/store.rs:66-72 | in every FailClosed run in which no key takes back an inherited record after one of its cells has expired: no debt charged from the sketch, directly or through a record, is written to it, slots are seeded exactly if so charged, and each live cell was owed by keys that were not |
| `ShardSpread.NothingRatchets` | src/store.rs:807-815 | in such a run a newcomer is charged from the sketch no more than keys owed that were not charged from it |
| `ShardSpread.MarkLostIff` | src/store.rs:775-797 | before any mark is lost, a newcomer so charged is stored as not seeded exactly if its record is live and inherited and one of its cells has expired |
| `ShardSpread.StepLoses` | src/store.rs:1369-1377 | a locked section loses a mark exactly if it is a check that stores such a newcomer |
| `SpreadRun.SpreadHappens` | src/store.rs:775-797 | a run, over the crate's own probe and table size for one key, in which a debt charged from the sketch is written to it, beyond anything owed by a key not so charged |
| `SpreadProbe.CrateCast` | src/store.rs:423-481 | where the crate's probe puts the debts of the keys of that run |
| `SpreadTable.WalkFails` | src/store.rs:727-749 | a sixteen-move walk through two full buckets of movable records leaves the record it started from without a place |
| `LoneShard.CheckIsNext` | src/store.rs:1310-1383 | what a check comes to in a shard with room for one key |
| `ShardIdle.SweepTakesOnlyTheIdle` | src/store.rs:1013-1050 | through all its swaps the idle sweep takes only keys that have expired |
| `ShardIdle.SweptKeysWereIdle` | src/store.rs:1013-1050 | in every run, a key the sweep takes was truly not checked for the whole idle limit |
| `ShardSweep.SweepTakesAllTheIdle` | src/store.rs:1013-1050 | in every run, wherever the cursor stands, twice round the slots leaves no key idle for the limit but ones charged from the sketch that still owe |
| `ShardSweep.IdleMakesRoom` | src/store.rs:1387-1407 | in every run, if one of the next eight slots is idle and can go, a newcomer finds room without the hand moving |
| `ShardIdle.RunStamps` | src/store.rs:299-303 | in every run of a store with an idle limit, no stamp is older than any check of its key |
| `ShardIdle.ExpiredMeansIdle` | src/store.rs:1274-1280 | a slot is expired only once the whole limit has passed since any instant its stamp is not older than |
| `ShardIdle.RoundingAloneSufficesIff` | src/store.rs:1274-1280 | exactly for which limits that would hold without the extra millisecond |
| `ShardObject.ShardMap.constructor` | src/store.rs:891-899 | an empty shard |
| `ShardObject.ShardMap.Position` | src/store.rs:903-912 | finds what the index of the value model finds |
| `ShardObject.ShardMap.Insert` | src/store.rs:921-931 | new state of an insertion |
| `ShardObject.ShardMap.RemoveAt` | src/store.rs:935-950 | new state of a swap-remove |
| `ShardObject.ShardMap.Refresh` | src/store.rs:278-285 | one slot refreshed, no other touched |
| `ShardObject.ShardMap.Evictable` | src/store.rs:958-973 | verdict and new state |
| `ShardObject.ShardMap.EvictAt` | src/store.rs:978-1008 | new state, table and slots |
| `ShardObject.ShardMap.SweepIdle` | src/store.rs:1013-1050 | the sweep loop computes the recursive sweep |
| `ShardObject.ShardMap.FirstPass` | src/store.rs:1072-1095 | the first scan loop computes the recursive pass |
| `ShardObject.ShardMap.SecondPass` | src/store.rs:1100-1115 | so does the second |
| `ShardObject.ShardMap.EvictOne` | src/store.rs:1057-1117 | result and new state of `evict_one` |
| `ShardObject.ShardMap.MakeRoom` | src/store.rs:1387-1407 | result and new state of `make_room` |
| `ShardObject.ShardMap.Admit` | src/store.rs:1369-1383 | decision and new state for a newcomer |
| `ShardObject.ShardMap.Check` | src/store.rs:1310-1383 | decision, refusal and new state of `check` |
| `ShardObject.ShardMap.RetainChunk` | src/store.rs:1479-1502 | one locked chunk, with the release of an expired table |
| `KeyRuns.StricterGrantsOnlyWhat` | src/algo/mod.rs:88-100 | for any orderly algorithm, a stricter state grants, of any request sequence, only what the looser one grants |
| `KeyRuns.RestoreIsNeverLooser` | src/algo/mod.rs:88-110 | for any orderly algorithm, any state the clock has reached and any request sequence, a restored state grants only what the evicted one would |
| `KeyGcra.GcraIsLawful` | src/algo/mod.rs:190-221 | GCRA obeys every law of eviction |
| `KeyGcra.CreateIff` | src/algo/mod.rs:190-196 | a key has no state exactly if its limit, period or burst is zero |
| `KeyGcra.ChargedOwes` | src/algo/mod.rs:214-220 | a fresh bucket charged to a deadline grants exactly what its burst leaves above the units emitted from now to that deadline, in terms of the quota alone |
| `KeyGcra.ResumeIsStricter` | src/algo/mod.rs:214-220 | raised to a recorded deadline, a fresh word is no looser than the evicted one |
| `KeyWindow.WindowIsLawful` | src/algo/mod.rs:224-241 | so does the fixed window |
| `KeyWindow.CreateIff` | src/algo/mod.rs:225-227 | no state exactly if the limit or the period is zero |
| `KeyWindow.ChargedOwes` | src/algo/mod.rs:101-110 | a fresh window charged a count has exactly the rest of its limit left, and owes exactly the count |
| `KeyWindow.Owes` | src/algo/mod.rs:69-76 | what a window owes: its count, until its window ends |
| `KeyWindow.ResumeIsStricter` | src/algo/mod.rs:101-110 | the default `restore` is no looser than what was owed |
| `KeyLog.LogIsOrderly` | src/algo/mod.rs:244-261 | the sliding log obeys every law of restoring, whatever the period |
| `KeyLog.LogIsLawful` | src/algo/mod.rs:244-261 | and every law of the store if its periods outlast a read ahead |
| `KeyLog.LogIsLawfulIff` | src/store.rs:339-356 | and, where readings reach a millisecond, only then |
| `KeyLog.CreateIff` | src/algo/mod.rs:244-248 | no state exactly if the limit or the period is zero |
| `KeyLog.ChargedOwes` | src/algo/mod.rs:101-110 | a fresh log charged a count has exactly the rest of its limit left, and owes exactly the count |
| `KeyLog.Owes` | src/algo/mod.rs:69-76 | what a log owes: the units in its window, until the newest ages out |
| `KeyLog.ResumeIsStricter` | src/algo/mod.rs:101-110 | the default `restore` is no looser at any later instant |
| `KeyLog.ReadingAheadIsHarmlessIff` | src/store.rs:347-356 | reading a new log ahead of time is harmless exactly when its period outlasts the read; otherwise the whole limit is granted again |
| `KeyLog.AlwaysHarmlessIff` | src/store.rs:347-356 | the read at the next millisecond is harmless at every reading and for every request exactly if the period exceeds a millisecond |
| `KeyLog.ComesBackOwing` | src/algo/mod.rs:98-110 | a key that comes back while its record lasts and asks for more than is left is denied, and owes its whole count for a period from then |
| `KeyLog.ReturnsHoldIff` | src/algo/mod.rs:98-100 | after any number of such returns it owes the same until a period after the last; at most one window after the first deadline exactly if the last return is no later than that |
| `KeyCounter.CounterIsOrderly` | src/algo/mod.rs:264-281 | the sliding counter obeys every law of restoring, whatever the period |
| `KeyCounter.CounterIsLawful` | src/algo/mod.rs:264-281 | and every law of the store if its periods outlast a read ahead |
| `KeyCounter.CounterIsLawfulIff` | src/store.rs:339-356 | and, where readings reach 1000 seconds, only then |
| `KeyCounter.CreateIff` | src/algo/mod.rs:264-268 | no state exactly if the limit or the period is zero |
| `KeyCounter.ChargedOwes` | src/algo/mod.rs:101-110 | a fresh counter charged a count has exactly the rest of its limit left, and owes exactly the count |
| `KeyCounter.Owes` | src/algo/mod.rs:69-76 | what a counter owes: its weight in whole units rounded up, until both counts have faded |
| `KeyCounter.ResumeIsStricter` | src/algo/mod.rs:101-110 | the default `restore` outweighs what was owed at every later instant, for a counter whose window has begun |
| `KeyCounter.ResumeIsStricterIff` | src/algo/mod.rs:101-110 | for a counter read ahead of the clock, exactly when it does |
| `KeyCounter.LooksAhead` | src/store.rs:347-356 | for periods of at least a millisecond a read ahead leaves a first count weighing the same at every instant |
| `KeyCounter.ReadingAheadIsHarmlessIff` | src/store.rs:347-356 | reading a new counter ahead of time is harmless exactly when the read is at most one window on; otherwise the whole limit is granted again |
| `KeyCounter.AlwaysHarmlessIff` | src/store.rs:347-356 | the read at the next millisecond is harmless at every reading and for every request exactly if the period is at least a millisecond |
| `RecoveryRuns.NoDebtIsLost` | src/store.rs:662-834 | in every run of records, takes, forgets and releases, a live debt recorded since its key's last take is charged in full, units and deadline |
| `RecoveryRuns.StepHolds` | src/store.rs:662-834 | every step leaves at most one live record per identity, in one of its own two buckets |
| `RecoveryRuns.StepCovers` | src/store.rs:662-834 | every step leaves a covered debt covered |
| `RecoveryCover.RecordCovers` | src/store.rs:662-759 | recording uncovers no debt and covers the new one |
| `RecoveryCover.OverflowKeeps` | src/store.rs:631-645 | writing one debt to the sketch weakens no other |
| `RecoveryCover.OverflowCovers` | src/store.rs:631-645 | a debt written to the sketch is in both of its cells |
| `RecoveryCover.PeekCovers` | src/store.rs:773-795 | a covered live debt is charged in full |
| `RecoveryCover.ReleaseLosesNothing` | src/store.rs:854-859 | a table is released only when it covers nothing live |
| `RecoveryOrigins.SketchIsOwed` | src/store.rs:662-759 | in every run of a table, each live cell's deadline and count come from debts recorded as not inherited, of keys with that cell |
| `RecoveryOrigins.SharedIsOwed` | src/store.rs:807-815 | an identity is charged from the sketch no more than such debts, up to the 24-bit saturation |
| `RecoveryPlain.RefinesPlainMap` | src/store.rs:662-803 | while nothing spills the table holds and answers what a plain map with expiry does |
| `RecoveryPlain.NeverOwedReadsNothing` | src/store.rs:773-795 | and a key that never owed reads nothing |
| `RecoveryPlain.TakingClearsIff` | src/store.rs:799-803 | taking one key's debt clears another's exactly when they share an identity |
| `RecoveryRecord.RecordKeeps` | src/store.rs:662-747 | the exact table keeps everything it held and the new debt, but for at most one debt, live and not inherited, which is in the sketch; a debt is turned away only if inherited and stuck, and then nothing changes |
| `RecoveryRecord.RoomIff` | src/store.rs:588-601 | `has_exact_room` holds exactly when recording an inherited debt succeeds |
| `RecoveryRecord.PlainAlwaysRecorded` | src/store.rs:662-747 | a debt that is not inherited is never turned away |
| `RecoveryRecord.SpillsOnlyWhenFull` | src/store.rs:696-747 | a debt spills only if every place of both its buckets is live and none is its own |
| `RecoveryFacts.WalkKeeps` | src/store.rs:721-741 | a cuckoo walk of any length loses at most the one debt it returns |
| `RecoveryFacts.OwnIff` | src/store.rs:574-583 | the two-bucket probe finds a record exactly when the identity has a live one |
| `RecoveryTable.CellRoundTrip` | src/store.rs:401-420 | what a packed cell reads back: never less, and more only of a count that saturates it |
| `RecoveryTable.TakeForgets` | src/store.rs:799-803 | a key charged nothing had no record to clear |
| `RecoveryObject.Recovery.constructor` | src/store.rs:560-567 | an empty, unallocated table |
| `RecoveryObject.Recovery.Find` | src/store.rs:574-583 | the probe loop computes the two-bucket probe |
| `RecoveryObject.Recovery.HasRoom` | src/store.rs:588-601 | so for `has_exact_room` |
| `RecoveryObject.Recovery.FindFree` | src/store.rs:604-610 | so for `free_in` |
| `RecoveryObject.Recovery.FindMovable` | src/store.rs:615-627 | so for `movable_in`, with the turn it takes |
| `RecoveryObject.Recovery.Sketch` | src/store.rs:631-645 | both cells merged in place |
| `RecoveryObject.Recovery.Kick` | src/store.rs:722-741 | the walk loop computes the recursive walk |
| `RecoveryObject.Recovery.Save` | src/store.rs:662-747 | result and new state of `record`, allocation included |
| `RecoveryObject.Recovery.Look` | src/store.rs:773-795 | the charge of `peek` |
| `RecoveryObject.Recovery.Collect` | src/store.rs:799-803 | charge and new state of `take` |
| `RecoveryObject.Recovery.Clear` | src/store.rs:819-834 | new state of `forget`, and whether there was a record |
| `RecoveryObject.Recovery.AllExpired` | src/store.rs:854-859 | the loops of `is_spent` |
| `Probe.ProbeIsSound` | src/store.rs:423-481 | the crate's bit mixing has every property the table relies on |
| `Probe.AltIsAnInvolution` | src/store.rs:440-444 | the other bucket exists, is another one, and leads back |
| `Probe.CellsDiffer` | src/store.rs:448-452 | a key's two cells are two |
| `Probe.ProbedIff` | src/store.rs:455-481 | a record has a key's identity exactly when it bears the key's tag in one of the key's buckets |
| `Units.CeilMillisIsCeiling` | src/store.rs:1855-1864 | rounding only the sub-second part is the least whole millisecond not before |
| `Units.CeilMillisAfter` | src/store.rs:1846-1864 | a deadline is a later millisecond than an instant exactly when past that instant's own |
| `GcraRace.NoStretchOverAdmits` | src/gcra.rs:385-425 | over every interleaving and stale reading, admissions on readings in a stretch are at most the burst and the intervals begun in it |
| `GcraRace.WordNeverDecreases` | src/gcra.rs:385-425 | the arrival-time word never decreases |
| `GcraRace.CallsAreAtomic` | src/gcra.rs:385-425 | each call takes effect at one step, as the sequential check |
| `GcraRace.RestoreLasts` | src/gcra.rs:465-477 | a bucket restored to a deadline, at any point of a run, is never whole before it |
| `GcraRace.BoundedIffBelowCeiling` | src/gcra.rs:399-410 | over all runs of calls on any set of readings, the bound on every stretch holds exactly if at each reading the end of the burst is representable |
| `Gcra.IntervalsExact` | src/gcra.rs:262-271 | the reciprocal and its one correction give the exact floor |
| `Gcra.IntervalsNeverOverflow` | src/gcra.rs:262-271 | no product on the way reaches 2^128 |
| `Gcra.IntervalBegunIff` | src/gcra.rs:262-279 | an interval has begun exactly from its first nanosecond on |
| `Gcra.IntervalBegunSaturatingIff` | src/gcra.rs:262-279 | when the saturating conversions are adjoint too |
| `Gcra.NewIsClosedIff` | src/gcra.rs:191-222 | a zero reciprocal marks exactly the quotas that admit nothing |
| `Gcra.RateIsTheQuotas` | src/gcra.rs:191-222 | the parameters' intervals are the quota's own: by any instant its limit times that instant over its period, rounded down |
| `Gcra.AdmittedIff` | src/gcra.rs:385-425 | a request is admitted exactly when its units fit under the burst |
| `Gcra.AccountingExactIff` | src/gcra.rs:385-425 | that accounting is exact for all words exactly while the burst's end is representable |
| `Gcra.RetryIsLeast` | src/gcra.rs:411-424 | a denial's wait is the least sufficient one, and when it is sufficient |
| `Gcra.PeekReportsLargestAdmissible` | src/gcra.rs:428-450 | the remaining allowance is the largest admissible request |
| `Gcra.PeekResetIsExact` | src/gcra.rs:428-460 | the reset wait is exactly the time until the bucket is whole |
| `Gcra.PeekNeverIff` | src/gcra.rs:428-432 | a reset wait without end is reported exactly for parameters that never admit anything; then nothing is left |
| `Gcra.NeverIff` | src/gcra.rs:385-397 | a retry wait without end is reported exactly for what no fresh word ever admits |
| `Gcra.RestoreIsLeast` | src/gcra.rs:465-477 | restoring raises the word to the least interval at or after the deadline |
| `Gcra.RestoreOwnDebtIsExact` | src/gcra.rs:465-477 | a key restored from the exact end of its debt gets its word back |
| `Gcra.RestoreThroughMillis` | src/gcra.rs:465-477 | through whole milliseconds it gets it back exactly when the interval starts on one, and never a looser word |
| `Gcra.RepeatedRestoreDrifts` | src/algo/mod.rs:94-97 | so repeated restores can cost an interval each |
| `FixedWindowRace.NoWindowOverAdmits` | src/algo/fixed_window.rs:99-171 | over every interleaving: the word's window never moves back, its count is what that window admitted, no window admits more than the limit |
| `FixedWindowRace.SafeIffIndexInjective` | src/algo/fixed_window.rs:112-171 | and that holds over all runs exactly when the windows read differ in their low 32 bits |
| `FixedWindowRace.CallsAreAtomic` | src/algo/fixed_window.rs:112-171 | over every interleaving, each call that returns decides as the sequential check does on the words it saw, its wait included |
| `FixedWindowRace.AloneIsSequential` | src/algo/fixed_window.rs:126-171 | a call made while nobody else moves, through any number of spurious failures, decides and leaves the words as the sequential check does, whatever the low bits of the windows |
| `FixedWindow.PackRoundTrip` | src/algo/fixed_window.rs:41-52 | packing an index and a count loses nothing |
| `FixedWindow.RetryIsExact` | src/algo/fixed_window.rs:149-152 | a denied request is admitted exactly from the end of the reported wait on, late readings included; never, exactly if the window ends past the clock's range |
| `FixedWindow.NeverIff` | src/algo/fixed_window.rs:113-123 | a retry wait without end is reported exactly for what no window ever admits |
| `FixedWindow.PeekReportsLargestAdmissible` | src/algo/fixed_window.rs:173-189 | the remaining allowance is the largest admissible request |
| `FixedWindow.PeekWaits` | src/algo/fixed_window.rs:173-189 | the reset wait is exactly how long until the whole limit is left |
| `FixedWindow.PeekNeverIff` | src/algo/fixed_window.rs:175-178 | a reset wait without end is reported exactly for a quota that never admits anything; then nothing is left |
| `SlidingLogRuns.NoRollingWindowOverAdmits` | src/algo/sliding_log.rs:52-153 | readings in any order, none within a period of a unit that may have been pruned: no rolling window holds more than the limit, and the runs stand for the full history of units |
| `SlidingLogRuns.RunIsInTime` | src/algo/sliding_log.rs:110-153 | in particular if no request is older than a reading that already pruned; then the log has dropped exactly what that reading aged |
| `SlidingLogRuns.SafeIffNothingNearWasPruned` | src/algo/sliding_log.rs:110-153 | after every timely run, a late reading is safe exactly if no unit aged by the greatest pruning reading lies within a period of it, or the window is full |
| `SlidingLogRuns.StaleReadingAfterADenialOverAdmits` | src/algo/sliding_log.rs:110-153 | a run in which it is not |
| `SlidingLog.RetryIsExact` | src/algo/sliding_log.rs:110-153 | a denial's wait ends exactly at the earliest instant the request fits |
| `SlidingLog.AdmittedIff` | src/algo/sliding_log.rs:110-153 | a request is admitted exactly when it fits the window at its effective instant |
| `SlidingLog.RecordAdds` | src/algo/sliding_log.rs:79-92 | recording adds the units to the window for one period, coalesced or not |
| `SlidingLog.ExpireKeepsLater` | src/algo/sliding_log.rs:67-75 | pruning early changes nothing about later instants |
| `SlidingLog.PeekCounts` | src/algo/sliding_log.rs:157-174 | the remaining allowance is what the window leaves |
| `SlidingLog.PeekWaits` | src/algo/sliding_log.rs:157-174 | the reset wait is exactly how long the window takes to empty |
| `SlidingLog.PeekReportsLargestAdmissible` | src/algo/sliding_log.rs:157-174 | the remaining allowance is the largest admissible request |
| `SlidingLog.PeekNeverIff` | src/algo/sliding_log.rs:157-160 | a reset wait without end is reported exactly for a quota that never admits anything; then nothing is left |
| `SlidingLog.NeverIff` | src/algo/sliding_log.rs:110-120 | a retry wait without end is reported exactly for what no empty log ever admits |
| `SlidingLogObject.KeyLog.Prune` | src/algo/sliding_log.rs:67-75 | the popping loop prunes exactly the aged runs |
| `SlidingLogObject.KeyLog.Add` | src/algo/sliding_log.rs:79-92 | new state of a record |
| `SlidingLogObject.KeyLog.PartitionPoint` | src/algo/sliding_log.rs:141-144 | the binary search finds the first run that reaches the target |
| `SlidingLogObject.KeyLog.Acquire` | src/algo/sliding_log.rs:110-153 | decision and new state |
| `SlidingLogObject.KeyLog.Peek` | src/algo/sliding_log.rs:157-174 | snapshot and pruned state |
| `SlidingLogObject.KeyLog.Reset` | src/algo/sliding_log.rs:177-182 | the whole allowance is back |
| `SlidingCounterRuns.NoRollingWindowReachesTwiceTheLimit` | src/algo/sliding_counter.rs:55-147 | late readings included, a rolling window overshoots by at most its faded share and never reaches twice the limit |
| `SlidingCounterRuns.CoversIsOnePeriod` | src/algo/sliding_counter.rs:134-147 | the rolling windows counted are the periods of instants from each start |
| `SlidingCounter.EarliestFitIsExact` | src/algo/sliding_counter.rs:104-128 | across both branches, the request fits from the reported instant on and not before |
| `SlidingCounter.RetryIsExact` | src/algo/sliding_counter.rs:55-87 | absent other traffic it is admitted exactly from the reported instant on |
| `SlidingCounter.WeightedIsWeight` | src/algo/sliding_counter.rs:90-147 | rolling and weighing equals a closed form over time |
| `SlidingCounter.RollKeepsLater` | src/algo/sliding_counter.rs:134-147 | rolling forgets nothing about later instants |
| `SlidingCounter.PeekCounts` | src/algo/sliding_counter.rs:151-179 | what is not remaining is the weight rounded up |
| `SlidingCounter.PeekReportsLargestAdmissible` | src/algo/sliding_counter.rs:151-179 | the remaining allowance is the largest admissible request |
| `SlidingCounter.PeekWaits` | src/algo/sliding_counter.rs:151-179 | the reset wait is exactly how long the weight takes to vanish |
| `SlidingCounter.PeekNeverIff` | src/algo/sliding_counter.rs:151-154 | a reset wait without end is reported exactly for a quota that never admits anything; then nothing is left |
| `SlidingCounter.NeverIff` | src/algo/sliding_counter.rs:55-65 | a retry wait without end is reported exactly for what no fresh counter ever admits |
| `SlidingCounterObject.KeyCounter.RollTo` | src/algo/sliding_counter.rs:134-147 | new state and effective instant of a roll |
| `SlidingCounterObject.KeyCounter.Acquire` | src/algo/sliding_counter.rs:55-87 | decision and new state |
| `SlidingCounterObject.KeyCounter.Peek` | src/algo/sliding_counter.rs:151-179 | snapshot and rolled state |
| `SlidingCounterObject.KeyCounter.Reset` | src/algo/sliding_counter.rs:182-187 | no weight at any instant, the window kept |
| `TokenRestore.RestoredIsWholeOnTime` | src/algo/mod.rs:156-187 | the rebuilt bucket is whole no earlier than the deadline and by two nanoseconds after it |
| `TokenRestore.AnchorError` | src/algo/mod.rs:171-178 | the anchor is less than two nanoseconds late and never early |
| `TokenRestore.AccruedWithinCapacity` | src/algo/mod.rs:171-183 | the initial count is at most the capacity |
| `TokenRestore.ProductsFit` | src/algo/mod.rs:162-178 | no 128-bit intermediate overflows |
| `TokenRestore.AnchorNeverClampsLow` | src/algo/mod.rs:174-176 | the subtraction never saturates |
| `TokenRestore.UnpayableDebtDrainsIff` | src/algo/mod.rs:177-180 | an anchor past the range leaves the bucket with what it was given at every instant, which is nothing exactly if the deadline is a whole refill after the origin |
| `TokenRestore.UnpayableDebtComesBackWholeIff` | src/algo/mod.rs:177-180 | such a bucket is whole at every instant exactly if the deadline is less than one token's refill after the origin, all roundings told |
| `TokenRestore.OwnDebtIsNotWhole` | src/algo/mod.rs:171-183 | no debt that lasts a token's refill past the origin is rebuilt whole |
| `TokenRestore.CappedDebtComesBackWhole` | src/store.rs:676 | a debt past the last deadline of a record, for which the bucket comes back whole |
| `TokenRestore.TokensAreWhole` | src/algo/mod.rs:156-187 | the count of tokens and the bucket are whole at the same instants |

## Left out

- The token bucket's own accounting: it lives in another crate; only the restore arithmetic shown in this one is modelled, so the shard theorems are not instantiated for token buckets.
- Hashbrown, `ahash` and the clock: the index is a set of pairs, the hasher a function, the clock an argument.
- Memory orderings weaker than sequential consistency, lock poisoning, allocation failure and layout.
- Concurrent checks of one stored key under a shard's read lock: a check is one step of a shard run; that such calls are atomic is proved of GCRA and the fixed window by themselves (`GcraRace.CallsAreAtomic`, `FixedWindowRace.CallsAreAtomic`).
- Explicit `reset`, `remove` and `clear` of the store: they start a key's accounting over by intent.
- Sharding, table sizing, `Store::new`, metrics, tracing and the HTTP, async and builder layers: configuration and delegation.
- How full the table gets before a debt spills: that it spills only with both buckets full is proved, not how often that is.
- ShardForget.ForgetNeverPunishes: under Forget a dropped debt is simply gone, so nothing is claimed about keys that did owe.
- ShardSpread.NothingSpreads: over runs it goes one way; a mark that was lost need not lead to a spread, which takes a later flood.
- RecoveryOrigins.SketchIsOwed: goes by the flag a debt is recorded with; `ShardSpread` says when that flag tells the truth.
- Algorithms.LogStoreIsSafe: periods of a millisecond or less are excluded, where it is false (`StoreAhead.LogStoreAgreesIff`).
- Algorithms.CounterStoreIsSafe: periods under a millisecond are excluded, where it is false (`StoreAhead.CounterStoreAgreesIff`).
- Algorithms.CounterRestoreIsNeverLooser: counters read ahead of the clock are excluded; `KeyCounter.ResumeIsStricterIff` settles them.
- KeyCounter.ResumeIsStricter: the same.
- KeyCounter.LooksAhead: periods under a millisecond are excluded; `KeyCounter.ReadingAheadIsHarmlessIff` settles them.
- SlidingLogRuns.NoRollingWindowOverAdmits: readings near a unit that may have been pruned are excluded; `SlidingLogRuns.SafeIffNothingNearWasPruned` settles them.
- KeyLog.ReturnsHoldIff: the sliding log only; how long a counter or a fixed window is held over many returns is not stated.
- KeyLog.LogIsLawful: periods of a millisecond or less are excluded, where the law is false (`KeyLog.LogIsLawfulIff`).
- KeyCounter.CounterIsLawful: periods under a millisecond are excluded, where the law is false (`KeyCounter.CounterIsLawfulIff`).
- ShardIdle.SweptKeysWereIdle: stated of FailClosed runs, like the bijection of keys and slots it rests on.
- TokenRestore.UnpayableDebtDrainsIff: how the other crate's bucket reads an anchor ahead of the clock is not part of this model; none of its tokens are taken to accrue before it.
