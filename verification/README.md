# Verified model of the worker host, the provider catalogue and their neighbours

A Dafny 4.11 model of the parts of the backend that have a protocol, a transformation or an
invariant to keep, with proofs that they keep it. `dafny verify dfyconfig.toml` checks all of it.

**The worker host** (`Supervision`, `PassHistory`, `HostRuns`, `WorkerHostCode`). One worker is a state machine whose
steps are the stretches of code between two awaits; a host is any number of them under one stop flag,
in any interleaving. The coroutines are also written as the code has them, loops over mutable
counters, and shown to do what the state machine does on every script of passes, exceptions and stop.

**The manifest validator** (`CycleFinding`, `Manifest`, `ManifestChains`). The three-colour search
over a mutable colour map and stack, the rules built on it, and what an error-free manifest therefore
guarantees: chains that end.

**The catalogue seeder** (`Values`, `SeedPlan`, `SeedApply`, `SeedConvergence`, `SeedCatalogue`,
`SeedConstraints`, `SeedCollisions`, `SeedUniqueness`, `SeedDesired`, `SeedHistory`, `SeedRestore`,
`FallbackLists`, `ManifestChanges`, `CatalogueRows`).
A database is a map from table to key to row that checks foreign keys, self-references and unique
constraints after every statement. Storage is a function per column and value, so rounding is a
hypothesis that can be dropped and not a blind spot.

**Smaller protocols**: leases (`Leases`), publish jobs (`PublishJobs`), the credit ledger
(`CreditLedger`), keyset paging (`Paging`), the ERD printer and reader (`ErdLines`, `Erd`), the CI gate
(`CiGate`).

## Where the code and its promises part

Each point is a lemma below.

- Creates and updates run before removals and unique constraints are checked per statement, so a row that
  has to make way must be an update that comes first (`SeedInTurnIff`). Hence reordering an adapter's
  fallback list, or dropping any entry but the last ones, stops the seed at a duplicate under
  `uq_adapter_fallbacks_adapter_ordinal`: `ManifestChangeIff`, `SecondSeedIff` and `OnlyListsChangeIff` say
  exactly which changes go through, `FitsIffAgree` what that means for lists without repeats, and
  `SwapBlocks` runs an error-free manifest whose swapped list fails. A renamed adapter meets its disabled
  old self (`RenameFails`), and two adapters that exchange capabilities meet each other
  (`ExchangeFails`).
- A column that storage does not keep, such as a price with more than eight decimals, is planned for
  writing after every seed (`LossyColumnNeverSettles`; `SettledIffKept` has the exact condition).
- The family rule does not check that family ids are unique and takes an empty parent for none, so a
  cyclic ancestry can pass; `FamilyRuleIsEnoughIff` says for which ids it cannot.
- The lock port calls `reclaim_expired` cleanup that correctness does not depend on. Given a time that
  has not come it frees live leases (`ReclaimIsSafeIff`), and two owners can then count on one key exactly
  when a lease someone counts on ends before that time (`ReclaimExposesIff`). It also says
  that acquiring returns `None` for a live lease; at the instant a lease ends it does so too, though the
  lease is no longer live (`BoundaryInstant`).
- A worker that dies between claiming and settling a publish job leaves it running for good, and nothing
  else does (`CrashLeavesRunning`, `StuckIff`). A claim does not look at the schedule: it comes early
  exactly when the job was requeued, to a time that has not come, after the worker listed it
  (`EarlyClaimIff`, with a run in `BackoffCanBeSkipped`).
- Ledger rows of one transaction share `created_at`; when their random ids fall in the other order the
  trigger asks the next row for a wrong balance (`SameInstantLosesCredit`, `ConservesIff`).
- `next_cursor` is absent exactly on the last page only for a positive limit (`NoCursorMeansLastIff`);
  the router allows no other.
- The gate exits 0 with skipped stages, so 0 says nothing about a database that was not available
  (`RunGate`).

## Model

| member | source | states |
|---|---|---|
| Supervision.AlwaysSound | backend/app/runtime/worker_host.py:210-312 | from any sound state, whatever a worker meets, its counters equal what its history shows over all incarnations, restarts count the repaired deaths, no supervision is entered after a death with stop set, and its delays have their closed forms |
| Supervision.Lifecycle | backend/app/runtime/worker_host.py:210-274 | over every history: restarts never pass the bound; one more death than restarts exactly when the worker ended otherwise than by draining; escalated exactly when the last thing that happened was a death without stop, and only at the bound; failures plus an abandoned pass never exceed passes |
| Supervision.Backoff | backend/app/runtime/worker_host.py:284-306 | the wait a worker is parked on is `interval * 2^k` capped, read off its history alone, for every interval and ceiling: k counts idle passes since the last that found work with failures skipped, or consecutive failures less one; a pass that found work waits the interval |
| Supervision.AfterStop | backend/app/runtime/worker_host.py:287-345 | after stop, over every script: no attempt, no restart; a pass in flight is counted when it ends and abandoned exactly when its budget ran out first; without one the next turn is the last |
| Supervision.EndingTurnIff | backend/app/runtime/worker_host.py:331-359 | the turn at which a pass in flight at stop ends: the first if it has ended by then, or a later one by which it has or its budget, which starts at the first, ran out |
| Supervision.BeforeStop | backend/app/runtime/worker_host.py:210-312 | without stop a worker ends only by escalation and abandons nothing |
| PassHistory.EveryTurn | backend/app/runtime/worker_host.py:230-375 | at every turn of every script, what the history gains starts as stage, stop flag and the pass's end say (with the verdict of that end), goes on call by call exactly where the script makes a call raise, in the order build, touch, death, restart, and leaves the worker where its last happening says |
| PassHistory.WakingTurnAttempts | backend/app/runtime/worker_host.py:287-312 | without stop a turn given to a worker that is new or asleep starts a pass, whatever raises; every other worker has a pass in flight or has escalated |
| PassHistory.QuietRun | backend/app/runtime/worker_host.py:276-384 | a history in which nothing raises, read off the script alone: every attempt, every verdict, and a pass attempted at exactly the turns that find none in flight |
| PassHistory.EveryOtherTurn | backend/app/runtime/worker_host.py:287-312 | so a worker whose passes each end by their next turn attempts one at every other turn |
| PassHistory.ReportReadsHistory | backend/app/runtime/worker_host.py:231-267 | each field of a report is a count or the end of the whole history, over all incarnations |
| HostRuns.TaskIsItsOwnDrive | backend/app/runtime/worker_host.py:176-204 | in every interleaving a task is the result of its own turns and the stop flag alone |
| HostRuns.Noninterference | backend/app/runtime/worker_host.py:176-312 | at every point of every interleaving of N workers each is where a one-worker host, fed only its turns with stop at the same points, has it |
| HostRuns.StopAndDrain | backend/app/runtime/worker_host.py:170-345 | from the stop on, for any rest of the schedule: no attempt, no restart, at most the pass in flight counted, abandoned exactly when that pass was in flight at stop and its budget ran out before it ended |
| HostRuns.StopTerminates | backend/app/runtime/worker_host.py:170-204 | after stop the whole host ends under exactly the schedules that give every worker a turn, and one with a pass in flight a turn by which the pass has ended or its budget ran out |
| WorkerHostCode.KeepAlive.RunOnePass | backend/app/runtime/worker_host.py:314-375 | the two waits of a pass, for its end or stop and then against the budget, yield the outcome, and leave the worker where, the state machine says, for every script |
| WorkerHostCode.KeepAlive.Tally | backend/app/runtime/worker_host.py:289-305 | the counters and both delays after an outcome |
| WorkerHostCode.KeepAlive.Supervise | backend/app/runtime/worker_host.py:276-312 | the supervision loop drains, dies or stays suspended exactly as the state machine does on the same script |
| WorkerHostCode.KeepAlive.Run | backend/app/runtime/worker_host.py:210-274 | keep-alive reports exactly when the state machine finishes on the same script, and the report is that of the state machine |
| WorkerHostCode.WorkerHost.Register | backend/app/runtime/worker_host.py:148-168 | refuses no workers and repeated names, and names exactly the repeated ones |
| WorkerHostCode.WorkerHost.Run | backend/app/runtime/worker_host.py:176-204 | a result comes exactly when all workers finished: one report per spec in spec order, each the report of that worker run alone on its part of the schedule |
| CycleFinding.CycleFinder.Visit | backend/scripts/validate_providers.py:324-337 | a visit finds a cycle, or finishes the node and everything unseen it reaches with every finished node's successors finished before it; terminates because unseen nodes decrease |
| CycleFinding.CycleFinder.FindCycle | backend/scripts/validate_providers.py:319-345 | sound and complete on every finite graph: what it returns is a cycle of known nodes, and it returns none exactly when there is none |
| CycleFinding.FinishOrderIsAcyclic | backend/scripts/validate_providers.py:334-337 | an order in which every node comes after its successors leaves no cycle |
| Manifest.Dups | backend/scripts/validate_providers.py:80-85 | exactly the values that occur twice |
| Manifest.RuleUniqueness | backend/scripts/validate_providers.py:97-105 | reports exactly the provider, adapter, variant and capability ids that occur twice, each under its kind; nothing exactly when all are unique |
| Manifest.RuleCapabilityDependencies | backend/scripts/validate_providers.py:348-374 | reports exactly the repeated, own, unknown and contradictory dependencies of every capability, and a cycle of `requires`, a real one, exactly when there is one |
| Manifest.RuleCatalogueIntegrity | backend/scripts/validate_providers.py:130-141 | reports exactly the adapters whose capability is not in the catalogue, and warns exactly of the capabilities no adapter serves |
| Manifest.RuleUniqueProviderCapability | backend/scripts/validate_providers.py:144-150 | reports exactly the capabilities a provider serves twice, with the provider |
| Manifest.RuleFallbackGraph | backend/scripts/validate_providers.py:211-229 | reports exactly the fallbacks to itself, to unknown adapters and to another capability, and a cycle, a real one, exactly when there is one |
| Manifest.RuleFamilies | backend/scripts/validate_providers.py:232-244 | reports exactly the unknown providers of variants and the unknown parents, and a cycle of the parent dictionary exactly when there is one |
| Manifest.Validate | backend/scripts/validate_providers.py:479-515 | the six rules that read across entities together: every error is justified by the manifest, every justified error is there (of the cycles of one graph, one), none exactly when the manifest is well formed, and the warnings are exactly the unserved capabilities |
| ManifestChains.WalkIsBounded | backend/scripts/validate_providers.py:319-345 | in a graph without cycles no walk repeats a node or is longer than the graph |
| ManifestChains.FallbackChainsEnd | backend/scripts/validate_providers.py:211-229 | in an error-free manifest following fallbacks from any adapter ends within the number of adapters, never leaves them, and stays in one capability |
| ManifestChains.RequirementChainsEnd | backend/scripts/validate_providers.py:348-374 | so do chains of required capabilities |
| ManifestChains.FaithfulFamiliesEnd | backend/scripts/validate_providers.py:232-244 | and family ancestries, when ids are unique and not empty |
| ManifestChains.HiddenCycle | backend/scripts/validate_providers.py:232-244 | for any ids with an empty or repeated one there are families that pass the rule with an endless ancestry |
| ManifestChains.FamilyRuleIsEnoughIff | backend/scripts/validate_providers.py:232-244 | passing the rule ends ancestries exactly when each id that is repeated or empty is ruled out |
| Values.CanonIsPlain | backend/scripts/seed_providers.py:410-419 | canonical values hold no decimal at any depth and are their own canonical form |
| Values.SameCanonIff | backend/scripts/seed_providers.py:410-423 | two values have one canonical form exactly when they are the same at every depth up to a float and a decimal of one number |
| Values.DiffersIff | backend/scripts/seed_providers.py:426-427 | a row differs exactly when the row found does not have the same value, in that sense, in some desired column |
| SeedPlan.BuildTablePlan | backend/scripts/seed_providers.py:430-449 | the two loops select the missing, changed, stale and still active keys, in the order of the dictionaries |
| SeedPlan.RowIsPlanned | backend/scripts/seed_providers.py:430-449 | what is planned for each row, from its values alone: created, updated, left, switched off, deleted |
| SeedPlan.RowsAreCounted | backend/scripts/seed_providers.py:432-439 | every desired row is counted once, as created, updated or unchanged |
| SeedPlan.ReadBackIsUnchanged | backend/scripts/seed_providers.py:410-439 | a table with the desired keys has zero writes exactly when every column has the same value: read back with decimals for its floats it is unchanged |
| SeedPlan.OneNumber | backend/scripts/seed_providers.py:410-439 | a row that differs at most in one number is updated exactly when the number found is neither its float nor its decimal, no value included |
| SeedPlan.SelectedInOrder | backend/scripts/seed_providers.py:430-449 | what a loop selects keeps the order it selects from |
| SeedPlan.EmptyPlanIffSettled | backend/scripts/seed_providers.py:430-449 | a plan writes nothing exactly when every desired row is there unchanged and nothing stale is to be removed |
| SeedApply.UpsertsRun | backend/scripts/seed_providers.py:642-657 | upserts that all went through leave each written row with the new columns over the old ones |
| SeedApply.TableRuns | backend/scripts/seed_providers.py:639-664 | a table's statements fail only where its upserts fail, and otherwise leave exactly the table given row by row by the diff |
| SeedConvergence.SettledIffKept | backend/scripts/seed_providers.py:426-449 | replanning after a seed finds nothing to write exactly when storage kept the canonical value of everything written |
| SeedConvergence.LossyColumnNeverSettles | backend/scripts/seed_providers.py:422-427 | a column whose value storage does not keep differs after every seed and is planned again |
| SeedConvergence.Converges | backend/scripts/seed_providers.py:430-449 | over faithful storage a completed plan settles its table and keeps keys spelled by their columns |
| SeedConvergence.RowByRow | backend/scripts/seed_providers.py:430-449 | a desired row matches on all its columns and keeps its others; a stale one is deleted, or kept but switched off if it was on, or kept, as `removal` says |
| SeedCatalogue.SeedRuns | backend/scripts/seed_providers.py:635-664 | a seed no statement fails leaves, table by table, what its diff says, and nothing else changes |
| SeedCatalogue.SeedConverges | backend/scripts/seed_providers.py:452-460 | whole catalogue: after a seed any later read is planned with zero writes |
| SeedConstraints.SchemaIsGood | backend/scripts/seed_providers.py:275-359 | the table specs list every referenced table earlier and never delete from one |
| SeedConstraints.TableKeepsForeignKeys | backend/scripts/seed_providers.py:639-664 | after each statement of one table the foreign keys hold, and the only failure there can be is a duplicate |
| SeedConstraints.ForeignKeysAlwaysHold | backend/scripts/seed_providers.py:635-664 | after every single statement of a whole seed every foreign key holds |
| SeedCollisions.UpsertsSucceedIff | backend/scripts/seed_providers.py:642-657 | a table's upserts get exactly as far as no row still to be rewritten holds a unique value they need |
| SeedCollisions.SeedSucceedsIff | backend/scripts/seed_providers.py:635-664 | a whole seed goes through exactly when every table's path is clear, a condition on the plan and the snapshot |
| SeedCollisions.FirstSeedSucceeds | backend/scripts/seed_providers.py:635-664 | into an empty database it always does |
| SeedUniqueness.ForeignKeysIff | backend/alembic/versions/0010_provider_catalogue.py:110-208 | what it means that foreign keys hold, column by column |
| SeedUniqueness.UpsertIff | backend/alembic/versions/0010_provider_catalogue.py:110-215 | a write goes through exactly when the database it leaves has its foreign keys, its unique values and no row that refers to itself |
| SeedUniqueness.ClearIff | backend/scripts/seed_providers.py:639-664 | a table's path is clear exactly when every row standing where another is wanted is rewritten before it: both are updates, in the order of the desired rows |
| SeedUniqueness.SeedInTurnIff | backend/scripts/seed_providers.py:635-664 | so a whole seed ends as its diff says exactly when that holds of every table, read off the desired rows and the database, and otherwise stops at a duplicate |
| SeedUniqueness.RunKeepsUnique | backend/alembic/versions/0010_provider_catalogue.py:188-214 | statements that went through leave unique constraints holding over the whole table, not only for the row written |
| SeedUniqueness.StaleHolderBlocks | backend/alembic/versions/0010_provider_catalogue.py:188-189 | a seed fails at a duplicate whenever a row no longer desired holds a unique value that is wanted |
| SeedDesired.DesiredIsValid | backend/scripts/seed_providers.py:125-222 | the builders' rows are keyed by their key columns |
| SeedDesired.DesiredIsClosed | backend/scripts/seed_providers.py:364-375 | in an error-free manifest every reference of a desired row is to a desired row and none is to itself |
| SeedDesired.DesiredIsUnique | backend/scripts/seed_providers.py:179-222 | and no two desired rows want the same unique value |
| CatalogueRows.BuilderHoldsCatalogue | backend/scripts/seed_providers.py:125-222 | the rows built from an error-free manifest are exactly its capabilities, its dependencies (each under `requires` or `optional` as it is listed), providers, adapters and fallbacks, each with the columns the builder sets, enabled, and the attributes of the manifest |
| CatalogueRows.SeedHoldsCapabilities | backend/scripts/seed_providers.py:635-664 | a seed leaves the manifest's capabilities with their columns and all others as they were |
| CatalogueRows.SeedHoldsDependencies | backend/scripts/seed_providers.py:635-664 | exactly the manifest's dependencies, whatever was there |
| CatalogueRows.SeedHoldsProviders | backend/scripts/seed_providers.py:635-664 | its providers, enabled and with their columns; all others stay, not enabled and otherwise as they were |
| CatalogueRows.SeedHoldsAdapters | backend/scripts/seed_providers.py:635-664 | its adapters under their providers, likewise |
| CatalogueRows.SeedHoldsFallbacks | backend/scripts/seed_providers.py:635-664 | exactly its fallbacks, with their ordinals |
| CatalogueRows.SeedHoldsGiven | backend/scripts/seed_providers.py:635-664 | the given policies and profiles, and all others as they were |
| SeedDesired.ManifestSeeds | backend/scripts/seed_providers.py:715-756 | seeding an error-free manifest: foreign keys hold after every statement, it goes through exactly when paths are clear, and always the first time |
| FallbackLists.ListsInTurnIff | backend/alembic/versions/0010_provider_catalogue.py:206-215 | the fallback table goes from old lists to new ones exactly when they fit: where a newcomer takes a place, the old list names it too and the new one names whom it displaces, before it; lists may repeat names |
| FallbackLists.FitsIffAgree | backend/alembic/versions/0010_provider_catalogue.py:206-215 | without repeats lists fit exactly when one is a prefix of the other |
| FallbackLists.BuilderHoldsLists | backend/scripts/seed_providers.py:211-222 | the builder's rows hold the manifest's lists: one row per adapter and name, with the last place as ordinal |
| FallbackLists.SeedHoldsLists | backend/scripts/seed_providers.py:635-664 | and so does the table a seed leaves, whatever was there |
| ManifestChanges.AdaptersInTurnIff | backend/alembic/versions/0010_provider_catalogue.py:188-189 | the adapter table goes to a manifest's adapters exactly when each that takes over what another row serves is there already and that other is listed before it |
| ManifestChanges.ManifestChangeIff | backend/scripts/seed_providers.py:715-756 | seeding an error-free manifest into a database that holds some adapters and lists goes through exactly when both fit, and otherwise fails at a duplicate |
| ManifestChanges.SeedLeaves | backend/scripts/seed_providers.py:635-664 | what a seed of an error-free manifest leaves: its lists, its adapters in their places, constraints holding |
| ManifestChanges.SecondSeedIff | backend/scripts/seed_providers.py:715-756 | so a manifest seeded after another goes through exactly when its adapters fit the table and its lists fit the other's |
| ManifestChanges.OnlyListsChangeIff | backend/scripts/seed_providers.py:211-222 | with the adapters left alone, exactly when the lists fit |
| ManifestChanges.RenameFails | backend/alembic/versions/0010_provider_catalogue.py:188-189 | an adapter under a new id for what an old row serves makes the seed fail |
| ManifestChanges.ExchangeFails | backend/alembic/versions/0010_provider_catalogue.py:188-189 | so do two adapters that exchange what they serve |
| ManifestChanges.SwapBlocks | backend/scripts/seed_providers.py:211-222 | an error-free manifest of three adapters seeded into an empty catalogue, then again with its first list swapped, or without its first entry: the second seed fails at a duplicate; without its last entry it goes through |
| SeedHistory.BuildPlan | backend/scripts/seed_providers.py:452-460 | one plan per table in spec order, and whether the digest changed |
| SeedHistory.Database.ApplyPlan | backend/scripts/seed_providers.py:635-688 | the loops execute exactly the statements of the plan and record digest and revision last |
| SeedHistory.Database.ReadSnapshot | backend/scripts/seed_providers.py:608-620 | the rows of every table, in whatever order they come |
| SeedHistory.Database.PlanAndApply | backend/scripts/seed_providers.py:582-605 | on some read of the tables: skip, dry run, apply, or undo: the state after is the one of the transaction, and the plan returned says digest, change and next revision |
| SeedHistory.TraceKeepsHonest | backend/scripts/seed_providers.py:582-688 | over every run of the seeder as only writer the tables are settled for the digest on record |
| SeedHistory.ShortcutIsSound | backend/scripts/seed_providers.py:598-600 | whenever the digest on record is the one asked for, a full diff against any read would write nothing |
| SeedHistory.RevisionCountsApplied | backend/scripts/seed_providers.py:598-605 | the revision rises by one exactly when a call is forced or its digest is not the one on record, it is no dry run, and its paths are clear; otherwise nothing changes |
| SeedHistory.ShortcutRefinesAlwaysDiff | backend/scripts/seed_providers.py:582-605 | run beside a seeder that always diffs, the one with the shortcut holds the same catalogue and digest after every call |
| SeedHistory.ForcedAlwaysApplies | backend/scripts/seed_providers.py:598-605 | the seeder that always diffs, run with forced calls, counts a revision at every call that is no dry run and meets no duplicate, whatever digest is on record |
| SeedHistory.ManifestIsGood | backend/scripts/seed_providers.py:715-727 | an error-free manifest meets the hypotheses of all of this |
| SeedHistory.EmptyIsHonest | backend/scripts/seed_providers.py:623-632 | and so does an empty catalogue to start from |
| SeedRestore.SeedLeavesSeeded | backend/scripts/seed_providers.py:635-664 | what a seed leaves is where the next theorem starts |
| SeedRestore.RemoveThenRestore | backend/scripts/seed_providers.py:430-449 | seed any closed part of what is there, then the whole again: both go through, and every catalogue column is back, disabled rows enabled and deleted edges there again |
| Leases.LockManager.AcquireLock | backend/app/infrastructure/repositories/distributed_lock_manager.py:85-99 | takes a free or expired key and no other, in one step; a lease that is not positive is refused |
| Leases.LockManager.RenewLock | backend/app/infrastructure/repositories/distributed_lock_manager.py:101-111 | extends only the owner's live row, and never to an end before the lease began |
| Leases.LockManager.ReleaseLock | backend/app/infrastructure/repositories/distributed_lock_manager.py:113-120 | frees only the owner's row |
| Leases.LockManager.ReclaimExpired | backend/app/infrastructure/repositories/distributed_lock_manager.py:122-134 | deletes and counts the rows that ended before the given time |
| Leases.GrantedIff | backend/app/infrastructure/repositories/distributed_lock_manager.py:36-120 | who is granted what: an acquire of a free or expired key, a renewal by the owner before the end, a release by the owner; whatever is refused changes nothing |
| Leases.GrantHolds | backend/app/infrastructure/repositories/distributed_lock_manager.py:36-69 | over every run a grant of a time at a reading ends that time after the reading, with that heartbeat, and until that end, or a later one the owner renews to, nobody is granted the key at a reading up to it, unless the owner releases it or a reclaim is told a later time |
| Leases.KeptWhileSpared | backend/app/application/interfaces/locks.py:52-90 | so an owner that renews before each end keeps its key, and the end of its lease is the one read off its renewals |
| Leases.RunKeepsInv | backend/app/application/interfaces/locks.py:52-100 | over every run, in whatever order overlapping transactions read the clock, a lease ends after it was acquired and every lease an owner still counts on is the row in the table |
| Leases.MutualExclusion | backend/app/application/interfaces/locks.py:52-66 | over all those runs two owners never count on leases of one key |
| Leases.CheckNeverFires | backend/app/application/interfaces/locks.py:38-41 | with a clock that does not go back no renewal breaks the table's check |
| Leases.LiveRowStays | backend/app/application/interfaces/locks.py:52-100 | a live row keeps its owner through any statement but its owner's release and a reclaim told a later time |
| Leases.FencedOut | backend/app/application/interfaces/locks.py:68-90 | an owner that lost its key can neither renew nor release it before acquiring it anew, over any run |
| Leases.OldHandleOfSameOwner | backend/app/application/interfaces/locks.py:18-23 | fencing is by owner token: an old handle of the same token frees the new lease |
| Leases.BoundaryInstant | backend/app/application/interfaces/locks.py:52-66 | at the instant a lease ends only its owner's release changes its row |
| Leases.ReclaimIsSafeIff | backend/app/application/interfaces/locks.py:92-100 | reclaiming spares live rows exactly when none ends before the time given |
| Leases.ReclaimsExactly | backend/app/infrastructure/repositories/distributed_lock_manager.py:122-134 | reclaiming leaves exactly the rows that do not end before the time given, as they were, and counts the others |
| Leases.ReclaimExposesIff | backend/app/application/interfaces/locks.py:92-100 | a reclaim can be followed by a run in which two owners count on one key exactly when a lease an owner counts on ends before the time it was told |
| Leases.FutureReclaimBreaksExclusion | backend/app/application/interfaces/locks.py:92-100 | one such run, for any key and owners |
| Leases.ExpiredKeyIsTaken | backend/app/application/interfaces/locks.py:52-66 | the first to ask gets a free or expired key, and everyone else is then refused |
| PublishJobs.PublishJobRepository.Add | backend/app/infrastructure/repositories/publish_job_repository.py:85-127 | inserts a queued job unless an active one of the same artifact and account exists |
| PublishJobs.PublishJobRepository.GetActive | backend/app/infrastructure/repositories/publish_job_repository.py:129-139 | finds an active job of the pair exactly when there is one |
| PublishJobs.PublishJobRepository.Mark | backend/app/infrastructure/repositories/publish_job_repository.py:180-258 | each transition is one compare-and-swap through the version trigger, and none on another status |
| PublishJobs.RunKeepsInv | backend/app/application/use_cases/publishing/process_publish_job.py:98-164 | over every interleaving of creators, workers and crashes: one active job per pair, one worker per running job, and it holds the current row |
| PublishJobs.Exclusive | backend/alembic/versions/0014_publish_jobs.py:82-91 | at most one queued, running or succeeded job per artifact and account, at most one worker publishing a job, attempts within the bound |
| PublishJobs.CreateIff | backend/alembic/versions/0014_publish_jobs.py:82-91 | over every run a job comes in, queued and untried, exactly when its id is new and no job of its artifact and account waits, runs or was published |
| PublishJobs.JobKeepsItsTerms | backend/app/infrastructure/repositories/publish_job_repository.py:85-258 | over every run a job keeps its artifact, account and bound, and its schedule is the one it was created with or lies between half a minute and an hour after a later retryable failure |
| PublishJobs.ClaimIff | backend/app/infrastructure/repositories/publish_job_repository.py:180-194 | over every run trying a listed job wins exactly when it is still queued, and then counts an attempt and makes the worker its holder |
| PublishJobs.FailureSettles | backend/app/application/use_cases/publishing/process_publish_job.py:271-316 | over every run a failed publish is queued again exactly when the failure was retryable and the claims won so far are below the bound, after 30, 60, 120, ... seconds up to an hour by that number of claims; otherwise it has failed, for good |
| PublishJobs.SuccessSettles | backend/app/application/use_cases/publishing/process_publish_job.py:228-250 | a publish that went out and is settled has succeeded, for good |
| PublishJobs.TerminalIsAbsorbing | backend/app/application/interfaces/repositories.py:2558-2614 | a settled job never changes again |
| PublishJobs.CrashLeavesRunning | backend/app/application/use_cases/publishing/process_publish_job.py:98-164 | a crash after the claim leaves the job running and its pair taken for good |
| PublishJobs.StuckIff | backend/app/application/use_cases/publishing/process_publish_job.py:98-164 | over every run a job is running with nobody on it exactly when a crash hit the worker that held it |
| PublishJobs.Counts | backend/alembic/versions/0001_baseline.py:99-110 | attempt is the number of claims won, version one more than the number of transitions, and a job is posted at most once, exactly once if it succeeded |
| PublishJobs.EarlyClaimIff | backend/app/application/use_cases/publishing/publish_worker.py:57-82 | over every run with a clock that does not go back, a winning claim comes before its job's time exactly when the job was requeued, to a time that has not come, after this worker listed it; the versions then differ |
| PublishJobs.BackoffCanBeSkipped | backend/app/infrastructure/repositories/publish_job_repository.py:167-194 | two workers list a job, one tries and reschedules it, the other claims it at once: a run with such a claim |
| CreditLedger.CreditLedgerTable.Insert | backend/alembic/versions/0001_baseline.py:120-140 | what the trigger and constraints let in, in the order they are checked |
| CreditLedger.Latest | backend/alembic/versions/0001_baseline.py:126-130 | the tenant's row that no other of its rows comes after, if it has any |
| CreditLedger.StepBalancedIff | backend/alembic/versions/0001_baseline.py:120-140 | one insert keeps the trigger's balance equal to the sum exactly when its row is the tenant's latest or moves nothing |
| CreditLedger.ConservesIff | backend/alembic/versions/0001_baseline.py:120-140 | a whole ledger conserves credit throughout exactly when all its rows went in so |
| CreditLedger.AcceptedIff | backend/alembic/versions/0001_baseline.py:120-140 | over every run that was timely so far a row goes in exactly when its amounts fit, its balance is the sum of the tenant's amounts with its own and not negative, and its id and key are new; a refusal names the first that fails |
| CreditLedger.BalancesAreSums | backend/alembic/versions/0001_baseline.py:1115-1133 | then every balance on record is its tenant's sum so far, and not negative |
| CreditLedger.NeverNegative | backend/alembic/versions/0001_baseline.py:1115-1133 | and no prefix of any tenant's amounts sums below zero |
| CreditLedger.KeysOnce | backend/alembic/versions/0001_baseline.py:1128-1130 | a repeated idempotency key adds nothing, in every run |
| CreditLedger.SameInstantLosesCredit | backend/alembic/versions/0001_baseline.py:120-140 | two rows of one instant in the other order: the right next balance is refused and a wrong one accepted |
| Paging.CursorRoundTrip | backend/app/application/pagination.py:70-108 | a cursor comes back from its token and different cursors have different tokens |
| Paging.GoodTokenIff | backend/app/application/pagination.py:80-108 | a token is good exactly when its body is an object of version 1 whose two fields read, and then stands for just those |
| Paging.ListOwned | backend/app/infrastructure/repositories/project_repository.py:107-130 | keys of the tenant's and owner's projects that are not deleted, past the cursor, newest first and by id among equals, up to the limit, and all of them if there are fewer |
| Paging.ListProjects | backend/app/application/use_cases/projects/list_projects.py:38-68 | a bad token is the validation error, anything else a page of the answer |
| Paging.PageIsInterval | backend/app/application/use_cases/projects/list_projects.py:54-68 | a page holds exactly the live rows between where it starts and where it ends, has no cursor exactly when nothing lies past it, and is full if it has one |
| Paging.NoCursorMeansLastIff | backend/app/application/pagination.py:58-67 | for which limits the promise about `next_cursor` holds |
| Paging.ReturnedIff | backend/app/application/interfaces/repositories.py:337-357 | in a walk through a changing table a row is returned exactly when it was there when the one page covering its key was read, by that page alone |
| Paging.WalkReturnsEachOnce | backend/app/application/interfaces/repositories.py:337-357 | no row twice, all in strictly descending order, every row present throughout returned |
| Paging.WalkReturnsOwn | backend/app/application/interfaces/repositories.py:337-357 | in terms of the changing table: a walk returns nothing but projects that were the owner's and not deleted at some page, and all that were so throughout |
| ErdLines.EmptyEntityIff | backend/scripts/compare_erd.py:59 | the scanner reads a line as an empty entity exactly when the regular expression matches it, with the same group |
| ErdLines.OpenEntityIff | backend/scripts/compare_erd.py:57 | likewise for an opened entity |
| ErdLines.EdgeIff | backend/scripts/compare_erd.py:45-55 | likewise for an edge, with its three groups and the label's alternation |
| Erd.PrintErd | backend/scripts/regenerate_erd.py:110-133 | the loop with its `seen` set prints the header, a line per table and a line per kept key |
| Erd.KeptIff | backend/scripts/regenerate_erd.py:121-129 | a key is printed once per shape, and exactly if neither end is a partition child or private |
| Erd.PrintedIff | backend/scripts/regenerate_erd.py:33-48 | a key is printed exactly when the schema has it, under whatever delete rule, between tables whose names are neither private nor those of partitions |
| Erd.ParseErd | backend/scripts/compare_erd.py:70-99 | the loop with its flag collects what the lines inside the fences say |
| Erd.ParsedIff | backend/scripts/compare_erd.py:70-99 | of every document: an entity is read exactly when a line of a block declares it or draws an edge to or from it, and an edge exactly when one draws it, by the three expressions in their order; a line is in a block when a fence was opened above it and none closed since |
| Erd.TrimEndIff | backend/scripts/compare_erd.py:74 | a line is read without the spaces at its end, and with all else |
| Erd.RoundTrip | backend/scripts/compare_erd.py:70-99 | reading what was printed gives the tables with the endpoints of the kept keys, and one edge per parent, child and column |
| Erd.NoDriftIff | backend/scripts/compare_erd.py:117-174 | the verdict on a schema is 0 exactly when the design names its tables and draws only edges it has |
| Erd.AddingKeysNeverDrifts | backend/scripts/compare_erd.py:157-161 | adding foreign keys between existing tables never causes drift |
| CiGate.ParseStageRange | backend/scripts/ci_gate.py:906-920 | the valid stages some chunk names, all without an argument, an error exactly on an invalid chunk |
| CiGate.EnsureDbAtHead | backend/scripts/ci_gate.py:298-338 | true exactly when one of at most eight upgrades was seen at the heads or the last check was; the last reading decides |
| CiGate.RunStages | backend/scripts/ci_gate.py:1030-1065 | the results are the selected stages in order up to and including the first that failed |
| CiGate.DowngradeIsGuarded | backend/scripts/ci_gate.py:430-898 | of the gate's own stages exactly a selected one that downgrades, against a database that stays, calls for the guard |
| CiGate.RunGate | backend/scripts/ci_gate.py:1025-1107 | exit code 0 exactly when every selected stage was skipped or passed and, if the guard ran, the last reading had current equal to non-empty heads; the guard runs on every way out |

## Left out

- Logging, liveness files, signal handlers, event-loop selection, wiring and configuration: no state the properties read. The liveness touch is a call that may raise.
- WorkerHostCode.WorkerHost.Run: advances its tasks with the steps that `KeepAlive.Run` is shown to take, since Dafny methods do not interleave; a pass does not cancel itself, so no task ends in the exception that `_unreportable` reports, and cancellation from outside is not modelled.
- asyncio: `timedelta` does not overflow.
- How long things take: a budget expiring is an event that may come any time after stop.
- `_find_cycle`: Python's recursion limit.
- Manifest.Validate: runs the six rules that read across entities; the others (metadata, adapter integrity, constraints, features, formats, cost, pricing, routing, configuration, registry, devices) are each settled by one branch, add no graph reasoning, and can only refuse more manifests.
- Builders of routing policies and device profiles: their rows are given, keyed by their key columns; the builders' columns that no key, constraint or removal reads are one opaque attribute map.
- Columns with database defaults, timestamps, and CHECK constraints other than the no-self ones.
- JSON, YAML, SHA-256 and base64: comparing JSON text with sorted keys is comparing canonical values, a digest stands for one desired catalogue, and cursor codecs are inverses.
- Writers of the catalogue other than the seeder, and two seeders at once.
- Publish jobs: the order and limit of a listing, which returns some of the due jobs; cancellation, which nothing in the repository performs; the leases, which only limit when a claim is tried; a post is a publish call that returned, so a platform that both posts and reports a failure is not seen.
- CreditLedger: concurrent inserts; the run is serial.
- Paging: rows are their ordering keys; tokens whose id is not a JSON string, on which the decoder raises something else than the validation error.
- ERD: characters beyond ASCII, and splitting the file text into lines.
- CI gate: starting and stopping the ephemeral database, choosing the database URL, and reading digits of a stage selector.
