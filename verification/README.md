# Verified models of a commerce platform's cores

A Dafny project that models nine self-contained parts of the platform and proves what they are for.
Each part is one module. Code that changes state step by step is a class or a method with loops,
proved against functions; the theorems are lemmas about those functions. Concurrent parts are state
machines: one event is the code between two awaits, or something that happens outside (a commit, a
crash), and every theorem about runs quantifies over all traces of events, so over all interleavings.

- `migrations.dfy`, module `Migrations`: the production migration runner. Any number of runs share a
  database: the ledger's schema and table, its rows, an advisory lock, and the migration statements
  committed so far. An awaited call may fail and a runner may crash at any step. The methods of `PostgresDb` and `RunMigrations` are tied
  to the step machine by `Reaches`: they end where the machine ends.
- `rechain.dfy`, module `Rechain`: the script that merged three migration branches. Snapshots are
  maps of tables to maps of columns; a diff is a patch; the branches are folded along an order.
- `dbpool.dfy`, module `DbPool`: the pool swap of `getDb` and `resetDbConnection`, and the bounded
  retry of `withRetry`, over all interleavings of callers.
- `permify.dfy`, module `PermifyCache`: the TTL cache with flush-on-write in front of an authority
  whose answers change when relationship writes commit.
- `escrow.dfy`, module `EscrowAmounts`: decimal text to minor units, back, and the fee split.
- `prng.dfy`, module `Prng`: FNV-1a seeds and the mulberry32 state, as arithmetic modulo 2^32.
- `wamenu.dfy` and `menudraft.dfy`, modules `WaMenu` and `MenuDraft`: the menu order, renderer,
  validator and one-slot moves.
- `debuglog.dfy`, module `DebugLog`: the size-capped logs of the development server.
- `traceparent.dfy`, module `Traceparent`: two readers of the header of W3C Trace Context,
  section 3.2.
- `common.dfy`, modules `Common`, `Powers`, `Digits` and `Texts`: shared datatypes, powers of two,
  digits, split and join.

Assumptions that a caller would have to ensure are preconditions with names: `DistinctHashes` and
`JournalsArePrefixes` (Migrations), `StartAtBase` (each branch starts at the shared base) and, where
the merge is compared with the branches' snapshots, `Branches` (they also drop no table or column,
Rechain), `FreshIds` (uuid4 ids differ, Rechain), `DrizzleNeverThrows` (DbPool),
`CleanTrace` (no separator inside a key component, PermifyCache), `SeparateTrace` (checks and writes
do not overlap, PermifyCache), `OneLineEach` (a log entry is one line, as `JSON.stringify` makes it, DebugLog;
no line end in a menu text, WaMenu). That a transaction is atomic is the assumption of `Migrations.Commit`.

## Where the code differs from what it says

- Migrations are identified by hash alone, compared once at the start of a run. A hash that is pending
  twice is applied twice by one run; `Migrations.AppliedOnceIffDistinct` is the exact condition,
  `Migrations.RepeatedJournalIsAppliedTwice` the smallest journal.
- `scripts/migrate-prod.ts` says that a dry run does not modify the database (line 131) and never touches
  it (line 341). It takes the lock, and before that it creates the ledger's schema and table where they
  are missing (lines 347 and 183-190), as does a run that is then refused the lock:
  `Migrations.DryRunModifiesFreshDatabase`. `Migrations.DryAndRefusedRunsOnlyPrepare` says what
  runs that may not write do, `Migrations.UnmodifiedIffNothingToPrepare` and
  `Migrations.FreshDatabaseStaysFreshIff` when it is nothing.
- The "full column-level union" of the merge script is a union of names: a branch step that changes a
  column, a key or an index of a table already there passes, and the change is dropped:
  `Rechain.HoldsTipsIffNothingRedefined`; `Rechain.RedefinedColumnIsLost` is an instance.
- `scripts/rechain_w44_migrations.py` builds the new journal entries in a list of its own and dumps
  the journal it had read, so the final assertion on the tags holds only if the journal already ended
  with `ORDER`: `Rechain.CheckJournalAfterRebuild`.
- `server/db.ts` ends every pool it swaps, but when `drizzle()` throws after `postgres()` the stored
  client is overwritten un-ended by the next `getDb` that gets to `postgres()`, unless a reset comes
  first: `DbPool.NoLeakIffGuardNeverMet`, `DbPool.LeaksIffThrowIsNotReset`, `DbPool.DrizzleThrowLeaks`.
- `server/permify.ts` says revocations take effect immediately. The flush comes before the remote
  write, so a check that overlaps the write can store and serve the old answer:
  `PermifyCache.RevocationCanBeServedStale`; `PermifyCache.ReliableIffNoCommitBetween` is the condition.
- `vite.config.ts` promises the newest lines that fit in 60 % of the size. The scan counts one byte
  more than it writes, so a run of lines of exactly the target size is not kept, and a log can become
  empty: `DebugLog.TrimKeepsPromiseIff`, `DebugLog.TrimCanLoseEverything`. The size trimmed to is a
  constant, whatever `maxSize` is.
- `parse_traceparent` accepts more than the Kafka side: any hexadecimal version, upper case, and what
  `int(s, 16)` takes besides digits (`0x`, signs, underscores): `Traceparent.ParsedFieldsAreCanonical`,
  `Traceparent.PrefixedIdIsAccepted`, `Traceparent.KafkaAcceptsIff`. The Kafka side accepts all-zero
  ids, which the other rejects: `Traceparent.ReadersAgree`.

## Model

| member | source | states |
|---|---|---|
| Migrations.PendingAndAppliedPartition | scripts/migrate-prod.ts:101-109 | every journal entry is on exactly one of the two pre-flight lists, with its multiplicity; pending are exactly the unrecorded hashes |
| Migrations.StepKeepsInv | scripts/migrate-prod.ts:347-408 | every step, failure or crash of any run keeps the lock, run and effect invariants |
| Migrations.ExecKeepsInv | scripts/migrate-prod.ts:347-408 | the invariants hold after every interleaving |
| Migrations.MutualExclusion | scripts/migrate-prod.ts:191-192 | in every interleaving with failures and crashes at most one run is between lock and close, and it is the lock's holder |
| Migrations.LedgerMatchesEffects | scripts/migrate-prod.ts:199-210 | given atomic transactions, in every interleaving with crashes the statements committed are exactly those of the migrations whose hashes were added to the ledger, in that order |
| Migrations.VerificationUnreachable | scripts/migrate-prod.ts:400-403 | under the lock post-apply verification never finds a missing tag |
| Migrations.SuccessLeavesNothingPending | scripts/migrate-prod.ts:366-405 | in every interleaving, once a run has reported applied or up to date every hash of its journal is in the ledger |
| Migrations.OthersCannotFailARun | scripts/migrate-prod.ts:333-409 | in every interleaving a run none of whose own calls rejects and that does not crash ends applied, up to date, dry, or refused by the gate or the lock, whatever other runs do or fail at |
| Migrations.EndsAsItsCallsDid | scripts/migrate-prod.ts:333-409 | over every interleaving a finished run reports failure if and only if one of its own awaited calls rejected, success if and only if none did and it passed the gate, got the lock and was no dry run with work to do; it has itself committed all it read to be pending, the part before the failed migration, or nothing |
| Migrations.RejectionStopsTheRun | scripts/migrate-prod.ts:381-398 | in every interleaving a rejected call stops its run: it commits nothing afterwards and never ends successfully, and if the dump was rejected it has committed nothing at all |
| Migrations.AppliedOnceIffDistinct | scripts/migrate-prod.ts:102-104 | from any ledger, over all runs and interleavings no added row repeats an earlier one, if and only if no run that may write has a hash pending twice at the start |
| Migrations.RepeatedJournalIsAppliedTwice | scripts/migrate-prod.ts:102-104 | a journal listing one migration twice, on an empty ledger, leaves its row twice |
| Migrations.ErrorFreeRunCompletes | scripts/migrate-prod.ts:347-405 | a run left alone that meets no error ends, records exactly its pending hashes in order, leaves nothing pending and frees the lock |
| Migrations.LedgerStaysPrefix | scripts/migrate-prod.ts:387-398 | a ledger that starts as a prefix of the journal stays one through failing, crashing, dry and refused runs |
| Migrations.FailureResumesAtFailedTag | scripts/migrate-prod.ts:134-149 | a failed apply leaves nothing behind, and the next run with that journal starts exactly at the failed tag |
| Migrations.PendingPlusAppliedConserved | scripts/migrate-prod.ts:387-398 | pending plus committed is constant over every interleaving: pending never grows and falls by one with each commit |
| Migrations.DryAndRefusedRunsOnlyPrepare | scripts/migrate-prod.ts:341-379 | over every interleaving of dry runs and of runs the backup gate refuses, the database apart from the lock is the one before, with the ledger's schema and table created if one of them got to that call |
| Migrations.UnmodifiedIffNothingToPrepare | scripts/migrate-prod.ts:131 | such runs leave the database apart from the lock unmodified if and only if each of the schema and the table was there already or no run of the trace got to create it |
| Migrations.FreshDatabaseStaysFreshIff | scripts/migrate-prod.ts:341-347 | a database without schema and table stays as it is under such runs if and only if no run that passes the gate completes its first call |
| Migrations.DryRunModifiesFreshDatabase | scripts/migrate-prod.ts:181-190 | one undisturbed dry run of a database without schema and table ends normally and leaves both created, the lock free |
| Migrations.PostgresDb.PrepareAndLock | scripts/migrate-prod.ts:181-193 | creates the schema, then the table, where missing, then takes the free lock for its session or is refused; what was created before a rejection or a refusal stays, and nothing else changes |
| Migrations.PostgresDb.ApplyMigration | scripts/migrate-prod.ts:199-210 | one transaction: all statements and the ledger row, or nothing |
| Migrations.RunMigrations | scripts/migrate-prod.ts:333-409 | for every pattern of rejecting calls the method ends as the step machine does; on its inputs alone: which outcome it reports if and only if, the tag of a failure, and exactly the rows, statements, schema and table it leaves. A rejected dump ends it failed with nothing applied, and it reports success if and only if it may and no call on its way rejects |
| Migrations.DriveIsExec | scripts/migrate-prod.ts:333-409 | driving one run is one of the traces the theorems quantify over |
| Migrations.RunOutcome | scripts/migrate-prod.ts:333-409 | however its calls fail, an undisturbed run never reports a verification failure, releases the lock and leaves the committed statements that the ledger says; if it reports success nothing is pending, and it does so when it may write and no call fails |
| Rechain.DiffSnapLoop | scripts/rechain_w44_migrations.py:40-49 | the dictionary loops compute the patch of what is new, in any order of the keys |
| Rechain.ApplyLoop | scripts/rechain_w44_migrations.py:51-60 | fails exactly when an assertion fails, otherwise returns base with every added table and column |
| Rechain.DiffApplies | scripts/rechain_w44_migrations.py:40-60 | a patch always applies to the snapshot it was taken from |
| Rechain.ApplyDiffIffOnlyAdds | scripts/rechain_w44_migrations.py:40-60 | applying the diff rebuilds the newer snapshot if and only if it only added to the older |
| Rechain.DiffApplyRoundTrip | scripts/rechain_w44_migrations.py:40-60 | diffing after applying gives back the patch |
| Rechain.StepAppliesIffNew | scripts/rechain_w44_migrations.py:65-70 | a merge step passes the assertions if and only if it adds nothing another branch has, whatever definitions, keys and indexes it changes |
| Rechain.MergeIffDisjoint | scripts/rechain_w44_migrations.py:62-78 | for every interleaving of branches that drop nothing, the whole merge passes if and only if no two branches added the same table or column; the result has exactly the tables and columns of base and all additions, each as first defined |
| Rechain.MergeUnique | scripts/rechain_w44_migrations.py:2-7 | base plus all additions determines the snapshot |
| Rechain.MergeIffNothingAddedTwice | scripts/rechain_w44_migrations.py:62-78 | for every interleaving of any branches that start at the base, dropping and re-adding included, the merge passes if and only if no step adds a table or column of the base and no two steps add the same one; the result is then the base and all additions, each as added |
| Rechain.MergeConfluent | scripts/rechain_w44_migrations.py:62-78 | for any branches that start at the base, the outcome, success or failure and all definitions included, does not depend on the interleaving |
| Rechain.HoldsTipsIffNothingRedefined | scripts/rechain_w44_migrations.py:40-60 | base definitions never change in the merge, and it holds the branches' own snapshots as they are if and only if every one is what its branch first made of each table and column |
| Rechain.RedefinedColumnIsLost | scripts/rechain_w44_migrations.py:40-60 | a branch that only changes a column's type gets through the merge, which is the base without the change |
| Rechain.OrderIsSchedule | scripts/rechain_w44_migrations.py:14-32 | ORDER is one such interleaving and takes all steps of the three branches |
| Rechain.OrderChainsBranches | scripts/rechain_w44_migrations.py:14-32 | at every step ORDER names the branch's next snapshot and BRANCH_PREV the one it is at |
| Rechain.RechainLoop | scripts/rechain_w44_migrations.py:62-78 | the main loop writes one linked snapshot per step, each the merge so far, or stops at the first failing assertion |
| Rechain.AfterIsFold | scripts/rechain_w44_migrations.py:65-70 | the loop's snapshots are the fold of the patches |
| Rechain.WalksEndAtBase | scripts/rechain_w44_migrations.py:126-133 | following prevId from the last snapshot visits the snapshots newest first and cannot pass the base |
| Rechain.BaseIsReached | scripts/rechain_w44_migrations.py:126-133 | the walk of exactly one link per step exists and ends at the base |
| Rechain.UnionCheckFindsNothing | scripts/rechain_w44_migrations.py:99-119 | once the merge has got through, the union check has nothing to report, whatever the branches were |
| Rechain.UnionCheckIsExact | scripts/rechain_w44_migrations.py:99-119 | on any snapshot the check reports exactly the tables and columns that some patch added and the snapshot lacks, the last addition of a table counting |
| Rechain.JournalIsCut | scripts/rechain_w44_migrations.py:82-122 | the two filters keep, in sequence, the entries up to 135 and the tags of the others |
| Rechain.RunScript | scripts/rechain_w44_migrations.py:62-134 | from three branches to the checks: seven files are written if and only if the branches are disjoint; file k holds each branch's snapshot so far, the last base plus all additions, the union check is empty, and prevId leads to the base in exactly seven links |
| Rechain.RebuildJournal | scripts/rechain_w44_migrations.py:80-87 | the rebuilt list is the old entries and one entry per tag, indices from 136 on and times 100 s apart from the last old one, but what is written is the journal that was read |
| Rechain.CheckJournalAfterRebuild | scripts/rechain_w44_migrations.py:120-123 | the assertion on the tags passes if and only if the journal had those tags before; never for a journal that ends at 135 |
| DbPool.PoolQueueMax | server/db.ts:91-96 | an explicit positive bound wins; otherwise four times the pool but at least 25, and 40 without a pool size |
| DbPool.StepKeepsInv | server/db.ts:34-184 | every atomic step of every caller keeps the pool, call and queue invariants |
| DbPool.QueueIsBounded | server/db.ts:141-183 | in every interleaving the counter is the number of calls inside the body, at most the bound, and 0 at quiescence |
| DbPool.RejectedIffSaturated | server/db.ts:149-157 | in every interleaving a call is rejected if and only if at its entry as many calls as the bound are inside; otherwise, with a positive number of retries, it runs fn at once |
| DbPool.RetryIsBounded | server/db.ts:160-179 | a call runs fn at most `retries` times with exactly one pool swap between consecutive tries |
| DbPool.DoubledIsPower | server/db.ts:172 | doubling from the base delay is the power of two the code multiplies with |
| DbPool.BackoffIsBounded | server/db.ts:172-174 | for r >= 2 retries the total backoff is below base (2^(r-1) - 1) + 50 (r - 1) ms |
| DbPool.PoolConserved | server/db.ts:34-135 | clients created are those ended by a swap, the current one and those overwritten; each is ended at most once; db, client and currentDb agree |
| DbPool.ConnectedIffCreatedSinceReset | server/db.ts:34-80 | in every interleaving there is a db if and only if some getDb since the last reset created one |
| DbPool.CurrentDbIsKept | server/db.ts:26-32 | in every interleaving __currentDb is set if and only if some getDb has ever created a db |
| DbPool.NoLeakIffGuardNeverMet | server/db.ts:34-80 | in every interleaving no client is lost un-ended if and only if no getDb gets to postgres() while a client without a db is stored |
| DbPool.LeaksIffThrowIsNotReset | server/db.ts:52-77 | a client is lost if and only if drizzle() throws in a getDb and a later getDb gets to postgres() before any reset |
| DbPool.NoLeak | server/db.ts:113-135 | while drizzle() does not throw, nothing leaks, db and client are set and cleared together, and created = resets + current |
| DbPool.DrizzleThrowLeaks | server/db.ts:52-77 | one throwing drizzle() and a later getDb leak a client |
| DbPool.DbModule.GetDb | server/db.ts:34-80 | returns the db there is; otherwise the one it creates, if there is a URL and nothing throws; otherwise none. The pool changes as in the atomic step |
| DbPool.DbModule.ResetDbConnection | server/db.ts:119-135 | clears the two references and not __currentDb, and ends the old client once, counting it |
| DbPool.DbModule.WithRetry | server/db.ts:141-184 | for every sequence of results of fn: rejected if and only if the queue is full, returns if and only if some try below `retries` succeeds after transient failures only, throws otherwise; it stops at the first success, lasting failure or last try, with one swap before every later try, that total backoff, and the counter back where it was; and it ends as the step machine does |
| PermifyCache.KeyInjective | server/permify.ts:65-67 | without separators inside components, two inputs share a key if and only if they ask the same question |
| PermifyCache.UncleanKeysCollide | server/permify.ts:65-67 | with a separator inside a component two different questions can share a key |
| PermifyCache.TtlMs | server/permify.ts:53-57 | always within 30 to 60 s: the given value when it is in that band, the nearer end when it is positive and outside, 45 s when it is unusable |
| PermifyCache.Permify.PermifyCheck | server/permify.ts:69-114 | one check: hit, miss, failure policy, and exactly what enters and leaves the cache |
| PermifyCache.Permify.Flush | server/permify.ts:123-125 | a configured write or delete empties the cache before its request |
| PermifyCache.BoundedStaleness | server/permify.ts:37-52 | in every interleaving a verdict that is not an error is one Permify gave to that question less than TTL + 3 s before, entries were stored after the last flush, and the map has at most 10001 entries |
| PermifyCache.ServedFromCacheIffKept | server/permify.ts:77-104 | over every interleaving a check is served from the cache if and only if a response for its key was stored less than the TTL ago, with no write begun since and no later store that found more than 10000 entries; the verdict is the last one stored; every other check is sent and finds an expired entry removed |
| PermifyCache.StalenessIsReached | server/permify.ts:37-52 | for every wait below the TTL there is a run that serves a verdict 3 s and that wait after Permify gave it, so the bound of TTL + 3 s is the least |
| PermifyCache.CacheRefinesUncachedCheck | server/permify.ts:50-52 | while checks and writes do not overlap, every verdict that is not an error is what an uncached query would return then |
| PermifyCache.ReliableIffNoCommitSince | server/permify.ts:77-105 | a served verdict is right under every authority if and only if it was answered after the last write that had committed when it was served |
| PermifyCache.ReliableIffNoCommitBetween | server/permify.ts:77-105 | for every verdict of a run: it is right under every authority if and only if no write commits between the answer to the check that obtained it and the event that serves it |
| PermifyCache.RevocationCanBeServedStale | server/permify.ts:138-149 | a run in which a verdict from before a revocation is served from the cache after it has finished |
| EscrowAmounts.DecimalAccepts | shared/escrowAmounts.ts:42-45 | every text of digits, or digits, point and digits, is accepted and cut at the point |
| EscrowAmounts.ParseIsExactRoundHalfUp | shared/escrowAmounts.ts:41-51 | for any number of fraction digits the result is 100 times the exact value rounded half up, although three digits are read |
| EscrowAmounts.AcceptedIffAmount | shared/escrowAmounts.ts:41-51 | on the text alone: accepted if and only if it is white space, digits, perhaps a point and digits, and white space; the result is 100 times the exact value of the digits rounded half up; every other text is refused with the error that names it |
| EscrowAmounts.SpaceIsListed | shared/escrowAmounts.ts:41 | what is trimmed are the white space characters and line terminators of ECMA-262 |
| EscrowAmounts.MaxSafeIsPower | shared/escrowAmounts.ts:55 | the largest amount that is printed is 2^53 - 1 |
| EscrowAmounts.ParsePrinted | shared/escrowAmounts.ts:54-61 | parsing a printed amount gives it back, for every amount that can be printed |
| EscrowAmounts.PrintedIsCanonical | shared/escrowAmounts.ts:54-61 | what is printed has two decimals and no leading zero |
| EscrowAmounts.PrintParsedIffCanonical | shared/escrowAmounts.ts:41-61 | printing what was parsed gives the text back if and only if it is canonical and in the safe range |
| EscrowAmounts.FeeIsRounded | shared/escrowAmounts.ts:77-79 | 0 <= fee <= gross and the fee is within half a unit of the exact one |
| EscrowAmounts.OneMoreUnit | shared/escrowAmounts.ts:77-79 | one more unit of gross goes entirely to the fee or entirely to the net |
| EscrowAmounts.SplittingTheGross | shared/escrowAmounts.ts:3-13 | splitting a gross into n parts moves the summed fee by less than (n + 1) / 2 units |
| EscrowAmounts.SplitConserves | shared/escrowAmounts.ts:71-89 | a split is returned if and only if the text is an amount whose value is in the safe range and 0 <= rate < 1, otherwise the error is that of the rate, the text or the range, in that order; the gross is the value of the text, the fee is within half a unit of rate times gross and part of it, fee + net = gross, and the three printed amounts read back as those numbers |
| Digits.DigitIsWorthItsPlace | shared/escrowAmounts.ts:42-48 | a digit is worth its position in 0123456789 |
| Prng.SeedFromString | shared/prng.ts:23-30 | the loop computes the FNV-1a seed of the text |
| Prng.SeedIsJs | shared/prng.ts:23-30 | for every text the seed is what JavaScript computes in signed 32-bit words |
| Prng.StepIsBijective | shared/prng.ts:25-28 | for a fixed unit a step is a bijection on 32-bit states, with an explicit inverse |
| Prng.HashIsBijective | shared/prng.ts:23-30 | feeding a whole text is a bijection on 32-bit states |
| Prng.OneUnitDecides | shared/prng.ts:22-30 | two texts that agree everywhere but possibly in one unit have the same seed if and only if they are equal |
| Prng.TwoUnitsCanCollide | shared/prng.ts:22-30 | from every state there are texts differing in two units that collide, so one unit is the most that holds |
| Prng.StateIsLinear | shared/prng.ts:13-15 | after n draws the state is (seed + n * 0x6d2b79f5) mod 2^32 |
| Prng.DrawIsJs | shared/prng.ts:12-20 | for every seed and every call the output is what JavaScript computes in signed 32-bit words |
| Prng.BitByBit | shared/prng.ts:16-26 | the two operators are exclusive or and or on every bit |
| Prng.DroppingIsReseeding | shared/prng.ts:12-20 | dropping k draws gives the stream of seed + k * 0x6d2b79f5 |
| Prng.PeriodIsExact | shared/prng.ts:12-20 | two states of the sequence are equal if and only if 2^32 divides their distance |
| Prng.EveryStateOnce | shared/prng.ts:12-20 | 2^32 consecutive states are all the 32-bit states, each once |
| Prng.OutputsRepeat | shared/prng.ts:12-20 | the outputs repeat after 2^32 draws |
| Prng.Output | shared/prng.ts:16-18 | every output lies in [0, 1) |
| Prng.Mulberry32.Next | shared/prng.ts:14-19 | each call returns the next output of the stream of the seed |
| Prng.SeededRng | shared/prng.ts:32-35 | a generator at the start of the stream of the number, or of the seed JavaScript computes for the text |
| WaMenu.SortIsStable | shared/waMenu.ts:171-174 | the sort orders the entries and keeps entries of equal order in sequence |
| WaMenu.StableSortIsUnique | shared/waMenu.ts:171-174 | there is no other stable sort of a list |
| WaMenu.RenumberKeepsDisplay | shared/waMenu.ts:176-179 | renumbering keeps the display order, and renumbering twice is renumbering once |
| WaMenu.RenderWaMenu | shared/waMenu.ts:139-167 | the text is the heading, the enabled entries with live data and products, and the custom items, joined line by line |
| WaMenu.RenderedMenuReadsBack | shared/waMenu.ts:139-167 | reading the rendered text line by line gives the greeting, a blank line and items numbered 1..K: the enabled entries by order with their live counts and at most five products under the shop, then the custom items |
| WaMenu.NumberedOneToK | shared/waMenu.ts:133-137 | the numbered lines run 1..K, K the enabled use cases plus the custom items |
| WaMenu.SortAndFilterCommute | shared/waMenu.ts:145 | sorting the enabled entries is keeping the enabled ones of the sorted list |
| WaMenu.RenderIgnoresRenumbering | shared/waMenu.ts:139-179 | the menu renders the same before and after renumbering |
| MenuDraft.SuperRefine | shared/waMenu.ts:85-115 | the three loops report the repeated ids, colliding orders (with the earlier id) and repeated keys |
| MenuDraft.ValidatorCountsRepetitions | shared/waMenu.ts:85-115 | one issue for each id, order and key beyond the distinct ones, so none if and only if all differ |
| MenuDraft.ReportsEachRepetition | shared/waMenu.ts:85-115 | which issues are reported and in which sequence: the repeated ids, the colliding orders with the last earlier entry of that order, the repeated keys, the k-th repetition being the k-th issue of its kind |
| MenuDraft.MoveUseCase | shared/waMenu.ts:182-194 | the moved list, or the sorted list when the entry is absent or at the edge |
| MenuDraft.NoMoveKeepsOrders | shared/waMenu.ts:188-191 | a move that goes nowhere returns the sorted list with its old orders |
| MenuDraft.MoveDisplays | shared/waMenu.ts:181-194 | the displayed ids change by one exchange of neighbours and nothing else |
| MenuDraft.MoveIsOneSlot | shared/waMenu.ts:181-194 | moving up or down makes the entry trade places with the one displayed before or after it; at the edge nothing moves |
| MenuDraft.MoveAndBack | shared/waMenu.ts:181-194 | an effective move followed by the opposite one is the renumbered list |
| MenuDraft.MovePermutes | shared/waMenu.ts:181-194 | a move changes only the sequence and the orders of the entries |
| MenuDraft.MoveAcceptedIff | shared/waMenu.ts:181-194 | the result is accepted if and only if the ids differ and the move was effective or the input was accepted |
| MenuDraft.RunKeepsMenu | shared/waMenu.ts:181-194 | any sequence of moves keeps acceptance and the entries |
| MenuDraft.EveryOrderIsReachable | shared/waMenu.ts:181-194 | any order of N entries is reachable in exactly as many moves as it has inversions, never in fewer, and so in at most N(N-1)/2 |
| DebugLog.KeepNewest | vite.config.ts:34-45 | the backward scan keeps the newest lines within the budget |
| DebugLog.KeptIsLongest | vite.config.ts:38-47 | what is written is the longest run of last lines with at most target - 1 bytes |
| DebugLog.TrimmedIsLongest | vite.config.ts:28-51 | a log up to 1 MB is left alone; a larger one is cut to the longest run of last lines with at most 629144 bytes |
| DebugLog.TargetIsSixtyPercent | vite.config.ts:17-18 | the cap is 1 MB and the target 60 % of it rounded down |
| DebugLog.Utf8ReadsBack | vite.config.ts:41 | the byte length of a character is that of its UTF-8 encoding, which reads back as the character |
| DebugLog.TrimKeepsPromiseIff | vite.config.ts:38-39 | it is the longest within the target if and only if no run of last lines has exactly the target size |
| DebugLog.TrimCanLoseEverything | vite.config.ts:28-51 | a log over 1 MB whose last line fills the target is trimmed to nothing |
| DebugLog.SuchALogExists | vite.config.ts:28-51 | an ASCII log of that kind exists |
| DebugLog.LogIsNewestText | vite.config.ts:53-70 | after any sequence of writes the file is, from a line start on, the end of all text it received, and at most 1 MB |
| DebugLog.FileHoldsNewestEntries | vite.config.ts:53-70 | after any sequence of writes the lines of the file are the old lines and all entries ever written, one a line and in sequence, from some entry on |
| DebugLog.NothingLostIffItFits | vite.config.ts:53-70 | nothing of the text is lost if and only if all of it fits into 1 MB |
| DebugLog.TrimsAreRare | vite.config.ts:17-18 | over any sequence of writes each trim is paid for by 419433 bytes appended or there at first |
| DebugLog.LogDirectory.TrimLogFile | vite.config.ts:28-51 | trims one existing file over the size, and no other |
| DebugLog.LogDirectory.WriteToLogFile | vite.config.ts:53-70 | appends to one file and trims it; every file stays the capped end of what it received |
| Traceparent.ReadersAgree | server/kafka.ts:56-66 | of the headers the Kafka side accepts, the Python side accepts exactly those with non-zero ids, with fields unchanged and sampled if and only if the last digit is one of 13579bdf; rejoined with 00 they are the header |
| Traceparent.ExtractedIffCanonical | server/kafka.ts:56-66 | the Kafka side returns a header if and only if it is there and is 00 and three fields of 32, 16 and 2 of the digits 0123456789abcdef, joined by dashes |
| Traceparent.AcceptedIffHeader | ai-agent/api/telemetry.py:18-43 | on the text alone: the Python side accepts exactly white space, a version, non-zero ids of 32 and 16 characters and flags of 2, each a number for int(s, 16), joined by dashes, and white space; it returns the fields in small letters and the low bit of the flags |
| Traceparent.Int16TakesIff | ai-agent/api/telemetry.py:27-36 | int(s, 16) takes exactly spaces, a sign, a prefix 0x with or without an underscore, runs of digits joined by single underscores, and spaces, and gives their signed value |
| Traceparent.HexReadsBack | ai-agent/api/telemetry.py:27-42 | int(s, 16) undoes printing in hexadecimal, for every number |
| Traceparent.NumeralConcat | ai-agent/api/telemetry.py:27-42 | numerals are read by position in base 16, underscores counting for nothing |
| Traceparent.HexDigitIsWorthItsPlace | ai-agent/api/telemetry.py:27-42 | a hexadecimal digit of either case is worth its position in 0123456789abcdef |
| Traceparent.SpacesAreListed | ai-agent/api/telemetry.py:22-27 | which ASCII characters strip removes, and which fewer int() skips |
| Traceparent.LowerIsSmallLetter | ai-agent/api/telemetry.py:39-41 | lower() turns each capital into its small letter and leaves every other ASCII character |
| Traceparent.PlainHexIsRead | ai-agent/api/telemetry.py:27-36 | on plain hexadecimal digits int(s, 16) succeeds, and is 0 if and only if all digits are 0 |
| Traceparent.ParsedFieldsAreCanonical | ai-agent/api/telemetry.py:18-43 | for any version and either case the parsed fields, put together with 00, are accepted by both sides with those fields; the Kafka side accepts the original only with version 00 and lower case |
| Traceparent.PrefixedIdIsAccepted | ai-agent/api/telemetry.py:27-29 | a trace id 0x and thirty digits is accepted there and is no header for the Kafka side |
| Traceparent.RejoinedIffPlain | ai-agent/api/telemetry.py:18-43 | for every header the Python side accepts, the returned fields with 00 are a header for the Kafka side if and only if the last three parts of the header are plain hexadecimal digits |
| Traceparent.KafkaAcceptsIff | server/kafka.ts:62 | a header the Python side accepts is accepted by the Kafka side if and only if it is unpadded, its version is 00 and its fields are lower-case digits |
| Texts.SplitJoin | ai-agent/api/telemetry.py:23 | splitting undoes joining when no piece holds the separator |
| Texts.SplitIsUnique | ai-agent/api/telemetry.py:23 | the pieces are the only non-empty list without the separator that joins to the text |
| Texts.JoinSplit | vite.config.ts:34-47 | joining undoes splitting |

## Left out

- Migrations.PostgresDb.ApplyMigration: does not model a commit whose acknowledgement is lost, nor a
  driver that reconnects and so loses the session lock; a rejected call means nothing was committed.
- Migrations.DryAndRefusedRunsOnlyPrepare: does not state that such runs leave the whole database alone,
  because the code creates the ledger's schema and table before it knows what kind of run it is.
- Migrations: reading the journal files, SHA-256, `pg_dump` and the upload of the dump; a hash is an
  opaque text and the dump a call that may fail before any apply. Log output, the drift warning and
  the exit codes of the command line.
- Rechain: reading snapshots from git and writing files; every other part of a snapshot than the
  columns of its tables is one opaque value. The printed reports.
- DbPool.DbModule.GetDb: does not model the pool size and TLS options passed to the driver.
- DbPool.DbModule.WithRetry: takes as given which errors count as transient; the jitter is any number in [0, 1).
- PermifyCache: what Permify computes is an arbitrary function of the writes committed so far; a
  write's effect may settle after the client has returned. Times are real numbers and the 3 s
  timeout is exact. The health check and the request bodies.
- EscrowAmounts.SplitEscrowAmounts: does not model the floating-point product of gross and rate; the
  rate is a real number and the product exact.
- EscrowAmounts.ToMinorUnitsExact: does not model `number` inputs, nor the loss of precision of
  texts above 2^53; amounts are mathematical integers.
- Prng.Mix: no statistical quality is stated, only that the outputs lie in [0, 1).
- Prng.Mulberry32: seeds are integers; JavaScript drops the fraction of other numbers first.
- WaMenu.RenderWaMenu: the greeting line is a parameter, because `replaceAll` gives `$` in a business
  name a meaning of its own.
- WaMenu.RenderedMenuReadsBack: is stated for texts without line ends; a title or product name with one is
  rendered over several lines.
- MenuDraft.Accepted: the checks of single texts (length, key syntax, number of custom items) are left
  out; moves and renumbering do not touch those fields. Ids are any non-empty texts.
- DebugLog: I/O errors, the formatting of entries and lone surrogates; the texts of a write are given.
- Traceparent.ParseTraceparent: does not model the decimal digits and spaces beyond ASCII that
  `int` and `strip` accept.
- The rest of the repository: table declarations, network clients, Kafka connections, simulations,
  generators and infrastructure.
