# Verified model of the CorePOS operations scripts

This project models the operational code of the bike-shop point-of-sale repository and
proves what it keeps over all of its runs. Everything outside the code (git, the database,
the operating system, Slack, clocks, a crash between two writes) is an adversary: it appears
as a parameter of a step, and the theorems quantify over it.

- **Release controller** (`MigrationSets`, `BackupGuard`, `ReleaseHistory`,
  `ReleaseController`, `ReleaseSteps`, `FailedCalls`, `DatabaseCoverage`, `ReleaseLedger`,
  `RollbackCycles`, `SafeTargets`, `UnguardedMigrations`, `ReleaseExamples`): the script that deploys origin/main or rolls back to a recorded release.
  The state is the checkout, the origin/main ref, the two durable release files, the backup
  marker and the set of applied migrations. `ReleaseController.Controller` carries one call
  out step by step on mutable fields and is proved to reach the world that `Deploy` or
  `Rollback` describes; the other modules prove properties of those and of runs over them.
- **Process cleanup** (`CleanupTargets`, `CleanupProtocol`, `ManagedProcesses`): leftover test
  processes become group or single targets, get SIGTERM, a wait, SIGKILL, a second wait. A
  schedule gives the pids alive at each tick; it may only shrink.
- **Health monitor** (`HealthMonitor`): alerts driven by one persisted state.
- **Bike categories** (`BikeCategory`, `CategoryWords`, `Text`), **date keys** (`CivilCalendar`, `DateKeys`),
  **usernames** (`Usernames`).

Assumptions that are not visible in a signature:

- A commit never changes, so one object store serves a whole run; recorded commits are full
  hashes, so resolving one gives the same commit.
- The deploy entrypoint may pull main, then applies some migrations of the tree it is in, and
  may fail at any point (`Entrypoint`, `AppliesCheckedOut`). `scripts/windows/deploy-corepos.cmd`
  does pull, whatever `COREPOS_SKIP_GIT_PULL` says. Run theorems that need main's migration
  set to grow say so (`MainGrows`).
- Pids are not reused and process groups do not change during a cleanup. A wait polls as often
  as the clock allows: any number of times, given as a parameter.

Places where a property fails in general. Each is stated with the exact condition under which
it holds and, where that is not plain from the condition, with an input on which it fails:

- The flags of a record describe HEAD and the fetched or chosen target. Normalising, and
  `docs/deployment.md:223` (previous_safe picks a release "whose migration set matched the
  release before it"), read them as describing the commit recorded before and the commit
  recorded. The two readings agree, over any run, exactly when the last record and HEAD agree
  about each recording call (`ReleaseLedger.FlagsRegainedExactlyWhen`,
  `ReleaseLedger.RecordRegainsItsFlagsExactlyWhen`). They part after a pull
  (`ReleaseExamples.PulledDeployMisstatesItsFlags`), and without one when a deploy is retried
  (`ReleaseExamples.RetriedDeployMisstatesItsFlags`).
- The backup guard compares two commits, while what it protects is the database. A deploy
  migrates behind a guard that would refuse exactly when its target has the checked-out list
  and the entrypoint applies something new
  (`UnguardedMigrations.DeployMigratesUnguardedExactlyWhen`). The entrypoint may have pulled it
  (`ReleaseExamples.PulledDeployMigratesUnguarded`). Without a pull it is possible exactly while
  the database lacks a migration of the checkout
  (`UnguardedMigrations.UnguardedMigrationIsPossibleExactlyWhen`), for one because an earlier
  deploy failed before applying it and is now retried
  (`ReleaseExamples.RetriedDeployMigratesUnguarded`). Over runs without pulls from an up-to-date
  database it takes such a stranding call, or a restore
  (`UnguardedMigrations.UnguardedMigrationFollowsStranding`). Within one call, HEAD changes
  its list unguarded only by a pull (`UnguardedMigrations.HeadChangesListUnguardedExactlyByPulls`).
- A rollback has no backup guard at all (`UnguardedMigrations.RollbackIgnoresTheBackup`,
  `UnguardedMigrations.RollbackMigratesExactlyWhen`): one whose entrypoint pulls main migrates
  without any backup (`ReleaseExamples.PulledRollbackMigratesUnguarded`).
- `docs/deployment.md:224` says that recovery_mode "picks the previous known-good release"; a
  second recovery goes back to the release the first one left (`RollbackCycles.RecoveryPingPongs`).
- previous_safe need not find the latest release with the live migrations: with truthful flags
  and accumulating migrations it reaches only the record directly before the live one, and only
  under the condition of `SafeTargets.PreviousSafeReachesOneBack`. It passes over an equal
  release that a migrating deploy led to (`ReleaseExamples.PreviousSafeSkipsAnEqualRelease`).
- Rollbacks cannot always move HEAD: they can exactly when the rule on the record list allows
  some mode a target (`RollbackCycles.RollbacksMoveHeadExactlyWhen`). A deploy that fails on an
  unrecorded commit and two redeploys of the live commit both leave none
  (`RollbackCycles.FailedDeployStrandsHead`, `RollbackCycles.RedeployingBlocksRollbacks`).
- A cleanup never names a baseline process, but can reach one through its group
  (`ManagedProcesses.BaselineIsHitExactlyThroughItsGroup`,
  `ManagedProcesses.BaselineProcessIsHitThroughItsGroup`).
- Date keys shift where the machine is more than 12 hours ahead of London, or 12 hours or more
  behind it (`DateKeys.NoonKeepsTheDateExactlyWhen`, `DateKeys.ThirteenHoursAheadLosesADay`).
- A state write that is lost or torn can break the alternation of health alerts, after a failed
  check and after a passed one. Which writes keep it is listed for every branch
  (`HealthMonitor.TickKeepsStepExactlyWhen`) and for all runs
  (`HealthMonitor.AlertsBalanceExactlyWhen`). A refused write after a delivered recovery alert
  sends that alert twice (`HealthMonitor.RefusedWriteRepeatsTheRecovery`), and only a torn one
  can end an outage without any (`HealthMonitor.OutagesEndByRecoveryOrTornWrite`).

`dafny verify dfyconfig.toml` checks the whole project.

## Model

| member | source | states |
|---|---|---|
| ReleaseController.Controller.ExecuteDeploy | scripts/manage_production_release.js:770-848 | a deploy call leaves the world and the result that `Deploy` describes, under any surroundings |
| ReleaseController.Controller.ExecuteRollback | scripts/manage_production_release.js:850-939 | a rollback call leaves the world and the result that `Rollback` describes, under any surroundings |
| ReleaseController.Controller.UpdateKnownGoodState | scripts/manage_production_release.js:600-615 | how far the two writes get decides which release files change, and what is thrown |
| ReleaseController.Controller.RunEntrypoint | scripts/manage_production_release.js:514-557 | what the external command does to HEAD, origin/main and the database |
| ReleaseController.Controller.CheckoutTarget | scripts/manage_production_release.js:747-750 | HEAD moves unless the reset fails; a failed clean still leaves HEAD on the target |
| ReleaseHistory.FindReleaseIndexForCommit | scripts/manage_production_release.js:703-710 | the last position that records the commit, or -1 when none does |
| ReleaseHistory.ResolveRollbackTarget | scripts/manage_production_release.js:712-745 | the chosen position lies before a record of the live commit, and is flagged in previous_safe mode; else which refusal |
| ReleaseHistory.NormalizedIsIdempotent | scripts/manage_production_release.js:236-288 | reading a history that was already normalised changes nothing |
| ReleaseHistory.Normalized | scripts/manage_production_release.js:247-287 | normalising keeps length, order and commits, and every object entry ends with both flags |
| ReleaseHistory.NormalizedEntry | scripts/manage_production_release.js:247-282 | field by field what each entry reads as: untouched with both flags, else both flags from the two commits, and safe without an entry before it |
| ReleaseHistory.FirstLegacyRecordIsATarget | scripts/manage_production_release.js:256-262 | a first entry without flags reads as safe, so previous_safe has a target wherever the live commit is recorded after it |
| ReleaseHistory.RefusedExactlyWhen | scripts/manage_production_release.js:712-745 | each of the four refusals in terms of the recorded commits and flags |
| ReleaseHistory.MigrationsListed | scripts/manage_production_release.js:344-358 | a commit's migrations are exactly its directory names in order; a commit git cannot list has none |
| MigrationSets.CompareMigrationSets | scripts/manage_production_release.js:360-373 | no warning exactly when the target holds every current migration; a warning lists at most six, all truly missing |
| MigrationSets.WarningCountsTheMissing | scripts/manage_production_release.js:360-373 | the warning lists the first missing names, at most six, and the right number of others |
| MigrationSets.DifferExactlyWhenSetsDiffer | scripts/manage_production_release.js:228-234 | the positional test, the two one-way comparisons and set equality agree on sorted duplicate-free lists |
| MigrationSets.SortNamesSorts | scripts/manage_production_release.js:353-357 | the names read at a commit are ordered and none is lost or doubled |
| MigrationSets.LeqIsDictionaryOrder | scripts/manage_production_release.js:353-357 | the order of the names is the dictionary order of their characters |
| BackupGuard.GuardOpensExactlyWhen | scripts/manage_production_release.js:432-455 | the guard opens exactly for a dated marker with a path, an existing dump and an age within the configured positive hours, else 24 |
| BackupGuard.GuardRefusesExactlyWhen | scripts/manage_production_release.js:432-455 | which of the five refusals each marker gets |
| BackupGuard.MarkerOpensGuard | scripts/prepare_deploy_backup.js:160-175 | the marker written at t opens the guard exactly while it names an existing dump and the age is at most the limit less the dropped milliseconds; for sure up to limit - 999 ms, never past the limit |
| BackupGuard.GuardWindowIsTight | scripts/manage_production_release.js:443-448 | both ends of that window are reached by some writing time |
| ReleaseSteps.DeploySucceedsExactlyWhen | scripts/manage_production_release.js:803-840 | what a deploy needs to succeed: a readable main, an open guard for a changed list, working surroundings; no history, and no check of the running revision |
| ReleaseSteps.SuccessfulDeployRecords | scripts/manage_production_release.js:827-838 | after success HEAD is main as fetched or pulled, and the one new record, field by field, is also the current release |
| ReleaseSteps.FirstDeployRecordsOnce | scripts/manage_production_release.js:236-245 | a deploy on a machine without a history can succeed and leaves exactly one record |
| ReleaseSteps.FirstRollbackIsRefused | scripts/manage_production_release.js:712-716 | a rollback there is refused for want of a history and leaves everything but origin/main alone |
| FailedCalls.FailedDeployLeaves | scripts/manage_production_release.js:803-847 | what each error of a deploy says of its cause and of the world it leaves |
| FailedCalls.FailedRollbackLeaves | scripts/manage_production_release.js:883-938 | the same of a rollback, whose revision check comes when HEAD has moved |
| FailedCalls.NoTargetExactlyWhen | scripts/manage_production_release.js:886-890 | why a rollback settles on no commit: history, list, or the record that the list offers |
| FailedCalls.DeployReports | scripts/manage_production_release.js:805-812 | the reported target, schema change and history update of a deploy |
| FailedCalls.RollbackReports | scripts/manage_production_release.js:892-908 | the same of a rollback, with its warning in recovery mode |
| ReleaseSteps.ChoiceFollowsTheRule | scripts/manage_production_release.js:883-906 | the target is the one a quantified rule on the record list allows: record before the last one of HEAD, or nearest flagged one holding all live migrations; there is never a second |
| ReleaseSteps.RollbackSucceedsExactlyWhen | scripts/manage_production_release.js:883-931 | a rollback succeeds if and only if that rule offers a target and checkout, entrypoint, health, live revision and writes cooperate |
| ReleaseSteps.SuccessfulRollback | scripts/manage_production_release.js:756-768 | after success HEAD is another commit allowed by the rule, equals the running revision, and is the one new record |
| UnguardedMigrations.DeployMigratesUnguardedExactlyWhen | scripts/manage_production_release.js:808-823 | a deploy adds migrations to the database behind a refusing guard exactly when it checks out the live list and the entrypoint applies a migration the database lacked |
| UnguardedMigrations.UnguardedMigrationIsPossibleExactlyWhen | scripts/manage_production_release.js:808-823 | before the call: without a pull that can happen exactly while the database lacks a migration of the checked-out tree |
| UnguardedMigrations.UpToDateUnlessStranded | scripts/manage_production_release.js:804-848 | over every run without pulls, whatever fails: the database has all migrations of the checkout unless the last call past its reset did not get through its entrypoint, or a restore dropped one since |
| UnguardedMigrations.UnguardedMigrationFollowsStranding | scripts/manage_production_release.js:804-848 | over those runs: a deploy that migrates behind a refusing guard finds the database stranded in that way |
| UnguardedMigrations.HeadChangesListUnguardedExactlyByPulls | scripts/manage_production_release.js:808-822 | within one call, a deploy ends on a different migration list with the guard refusing exactly when the entrypoint pulled one after an unchanged target |
| UnguardedMigrations.RollbackIgnoresTheBackup | scripts/manage_production_release.js:883-938 | a rollback does the same whatever the backup marker holds |
| UnguardedMigrations.RollbackMigratesExactlyWhen | scripts/manage_production_release.js:883-915 | a rollback migrates the database exactly when the rule allows it a target and the entrypoint applies something new |
| ReleaseExamples.PulledDeployMigratesUnguarded | scripts/manage_production_release.js:808-823 | a deploy that pulls migrates the database without any backup |
| ReleaseExamples.RetriedDeployMigratesUnguarded | scripts/manage_production_release.js:808-823 | a deploy that failed before migrating is retried without a pull and migrates under an outdated backup |
| ReleaseExamples.PulledRollbackMigratesUnguarded | scripts/manage_production_release.js:883-918 | a previous_safe rollback that pulls migrates without any backup before its revision check fails |
| ReleaseSteps.FreshBackupAdmitsDeploy | scripts/manage_production_release.js:814-816 | a deploy within the limit less 999 ms of a backup is never refused by the guard |
| DatabaseCoverage.DatabaseStaysCovered | scripts/manage_production_release.js:804-848 | over every admissible run, with failures anywhere, applied migrations stay within the checked-out tree |
| DatabaseCoverage.RecoveryIsCoveredExactlyAfterRestore | scripts/manage_production_release.js:901-908 | a recovery rollback that moves HEAD keeps the database covered exactly when it held only migrations of the tree HEAD ends on, whatever the entrypoint applies of that tree |
| DatabaseCoverage.SafeRollbackKeepsTheSchema | scripts/manage_production_release.js:895-906 | after any run of deploys and previous_safe rollbacks, a previous_safe rollback let through has exactly the live migration set and is recorded safe |
| SafeTargets.PreviousSafeReachesOneBack | scripts/manage_production_release.js:727-745 | with truthful flags and accumulating migrations, previous_safe may go to a commit if and only if it is recorded directly before HEAD's last record with unchanged migrations around it |
| SafeTargets.PreviousSafeReachesOneBackAfterRuns | scripts/manage_production_release.js:883-906 | so it is after every run of deploys and previous_safe rollbacks whose recording calls found last record and HEAD in agreement |
| ReleaseExamples.PreviousSafeSkipsAnEqualRelease | scripts/manage_production_release.js:895-906 | a release with exactly the live migrations is passed over and the rollback refused |
| ReleaseLedger.HistoryOnlyGrows | scripts/manage_production_release.js:600-615 | the history as read stays a prefix and gains one record per success and per half-finished write, over all runs |
| ReleaseLedger.CurrentReleaseTrails | scripts/manage_production_release.js:609-614 | current-release.json is exactly as many records behind as calls were cut short since the last success |
| ReleaseLedger.DurableHistory | scripts/manage_production_release.js:829-847 | with durable writes: one record per success, none on failure, and current-release.json equals the last record |
| ReleaseLedger.LegacyFlagsAreRegained | scripts/manage_production_release.js:247-282 | stripping the flags after an in-line run and normalising gives back exactly the flags stored for the run's records |
| ReleaseLedger.FailureFreeRunsRegainTheirFlags | scripts/manage_production_release.js:247-282 | the same for every run without pulls whose calls all succeed, starting with HEAD at the last record |
| ReleaseLedger.FlagsRegainedExactlyWhen | scripts/manage_production_release.js:236-288 | over every run, with failures, pulls and cut-short writes: the flags of its records are regained if and only if each recording call found the last record and HEAD in agreement |
| ReleaseLedger.RecordRegainsItsFlagsExactlyWhen | scripts/manage_production_release.js:577-598 | for one recording call of either kind: its flags are regained, and its rollback-safe flag tells whether the release before it has the same migrations, exactly when the last record and HEAD agree about it |
| ReleaseExamples.PulledDeployMisstatesItsFlags | scripts/manage_production_release.js:829-836 | a deploy that pulls a migration is recorded as rollback-safe and not regained |
| ReleaseExamples.RetriedDeployMisstatesItsFlags | scripts/manage_production_release.js:808-836 | a retried deploy, without a pull, is recorded as rollback-safe although the release before it lacks its migration |
| RollbackCycles.RecoveryPingPongs | scripts/manage_production_release.js:727-732 | k successful recovery rollbacks end on the second-to-last release for odd k and on the last for even k, whatever older releases exist |
| RollbackCycles.RollbacksMoveHeadExactlyWhen | scripts/manage_production_release.js:850-939 | some deploy-free run moves HEAD if and only if the history can be read and the rule on the record list allows some mode a target |
| RollbackCycles.StuckUntilDeploy | scripts/manage_production_release.js:850-939 | where it allows none, no sequence of rollbacks changes HEAD or the release files |
| RollbackCycles.UnrecordedHeadIsStuck | scripts/manage_production_release.js:718-721 | from a HEAD that no record names, only a deploy moves HEAD or extends the history |
| RollbackCycles.FailedDeployStrandsHead | scripts/manage_production_release.js:818-847 | a deploy that fails past the reset on an unrecorded commit, fetched or pulled, leaves HEAD there through every rollback that follows |
| RollbackCycles.RedeployingBlocksRollbacks | scripts/manage_production_release.js:888-890 | after deploying the live commit twice more, no rollback of either mode moves HEAD |
| CleanupTargets.BuildCleanupTargets | scripts/process_lifecycle.js:391-431 | the three loops build the targets that `Targets` describes, for any list, duplicates included |
| CleanupTargets.TargetsPartition | scripts/process_lifecycle.js:410-430 | group members plus single targets are exactly the input, as multisets |
| CleanupTargets.TargetShape | scripts/process_lifecycle.js:396-430 | groups hold their leader and exactly their listed members, have distinct ids, and no single target belongs to a listed group |
| CleanupTargets.GroupTargetsExactly | scripts/process_lifecycle.js:396-408 | a pid leads a group target exactly when a listed process has it, leads its own group and shows `?` or `??` as terminal |
| CleanupTargets.SingleTargetsExactly | scripts/process_lifecycle.js:419-426 | exactly the processes of no such group are targets of their own |
| CleanupTargets.TargetsInOrder | scripts/process_lifecycle.js:428-431 | groups come first, in the order of their leaders, then the others in list order |
| CleanupProtocol.WaitForProcessesExit | scripts/process_lifecycle.js:433-445 | the loop ends with the sweep and at the tick that `Wait` describes, for any schedule and time budget |
| CleanupProtocol.WaitSifts | scripts/process_lifecycle.js:436-444 | a wait drops only processes that are gone for good, and keeps only listed ones |
| CleanupProtocol.AliveExactlyWhen | scripts/process_lifecycle.js:436-437 | a sweep keeps a process exactly when its own probe finds it alive |
| CleanupProtocol.WaitEndsWithASweep | scripts/process_lifecycle.js:436-444 | what a wait returns is what its last sweep found |
| CleanupProtocol.WaitGivesUpOnlyAtTheEnd | scripts/process_lifecycle.js:436-441 | a process is given up only after every poll the time allowed and the last sweep |
| CleanupProtocol.CleanupManagedRepoProcesses | scripts/process_lifecycle.js:447-507 | cleaned, remaining, the signals sent and the end are those of `Cleaned` |
| CleanupProtocol.CleanupPartitionsTheLive | scripts/process_lifecycle.js:501-506 | for every exit schedule, cleaned and remaining partition the initially live, and no cleaned process is alive then or later |
| CleanupProtocol.CleanupSignalsEveryone | scripts/process_lifecycle.js:470-499 | no SIGTERM after a SIGKILL; one SIGTERM for each live process, one SIGKILL for each survivor and each process reported at the end; a listed process that never exits gets both |
| CleanupProtocol.OrphansAreKilledByPid | scripts/process_lifecycle.js:485-498 | a survivor whose group leader did not survive is killed through its own pid |
| CleanupProtocol.KillsComeAfterTheWait | scripts/process_lifecycle.js:484-496 | a SIGKILL names a process found alive after every SIGTERM and after every poll the first wait allowed |
| CleanupProtocol.RemainingWereAlive | scripts/process_lifecycle.js:498-506 | a process reported at the end was found alive after every SIGKILL and every poll of the second wait |
| CleanupProtocol.LogFollowsTheTargets | scripts/process_lifecycle.js:470-496 | one signal to each target, in target order, to a group by its leader's pid |
| CleanupProtocol.GroupsSignalledExactly | scripts/process_lifecycle.js:470-478 | a group gets SIGTERM exactly when a live process leads it and has no terminal |
| CleanupProtocol.CleanupSignalsOnlyTheListed | scripts/process_lifecycle.js:470-496 | each signal names a listed process that was alive, by its pid or, where it leads a group without a terminal, by the group |
| ManagedProcesses.ClassifiedIsCandidate | scripts/process_lifecycle.js:322-358 | a command without a marker is never classified |
| ManagedProcesses.ClassifiedExactlyWhen | scripts/process_lifecycle.js:325-358 | each kind exactly when the process runs at or below the root and its command holds a word of that kind and of none before it |
| ManagedProcesses.SnapshotHolds | scripts/process_lifecycle.js:363-389 | the snapshot holds exactly the classified rows, with their own fields, directory and kind |
| ManagedProcesses.SnapshotManagedRepoProcesses | scripts/process_lifecycle.js:363-389 | the prefiltered snapshot is the list of all classified processes of the table, each pid once |
| ManagedProcesses.CleanupNewManagedRepoProcesses | scripts/process_lifecycle.js:509-533 | the classified processes outside the baseline are cleaned up, and nothing happens when there are none |
| ManagedProcesses.BaselineIsNeverNamed | scripts/process_lifecycle.js:513-528 | no signal names a baseline pid or a group led by one, and no reported list holds one |
| ManagedProcesses.BaselineIsHitExactlyThroughItsGroup | scripts/process_lifecycle.js:470-499 | over both rounds of a cleanup, some signal reaches a baseline process exactly when it sits in the group of a new, live, detached leader |
| ManagedProcesses.BaselineProcessIsHitThroughItsGroup | scripts/process_lifecycle.js:470-483 | a cleanup sends SIGTERM to the group of a new leader that a baseline process belongs to |
| HealthMonitor.Monitor.Execute | scripts/health_monitor.js:87-120 | one run leaves the state file, alerts and exit code described by `Tick`, including writes that fail |
| HealthMonitor.ReadsUnhealthyExactlyWhen | scripts/health_monitor.js:39-53 | only a stored outage reads as one; a missing or damaged file reads as healthy |
| HealthMonitor.FirstRunAlertsOnFailureOnly | scripts/health_monitor.js:87-118 | a machine's first run sends the failure alert exactly for a failed check, and never a recovery |
| HealthMonitor.TickKeepsStepExactlyWhen | scripts/health_monitor.js:87-120 | for every check, Slack call and both writes: which outcomes keep the stored state in step with the alerts |
| HealthMonitor.InStepExactlyWhen | scripts/health_monitor.js:87-120 | being in step means that the alerts alternate and the next durable run cannot break that |
| HealthMonitor.AlertsBalanceExactlyWhen | scripts/health_monitor.js:87-120 | from any file but a stored outage and over all runs: alternation and the 0 or 1 difference hold after every run if and only if every run's writes are such |
| HealthMonitor.AlertsAlternate | scripts/health_monitor.js:97-116 | over all runs with durable writes failure and returned recovery alerts take turns, and differ by 1 exactly while the stored state is unhealthy |
| HealthMonitor.OutagesEndByRecoveryOrTornWrite | scripts/health_monitor.js:97-116 | over all runs: an open outage that ends up marked over was ended by a passed check whose recovery alert returned, or by a torn write without that |
| HealthMonitor.FailedWriteRaisesFalseAlarm | scripts/health_monitor.js:102-116 | a failed write after a passed check sends a failure alert; the alerts stay in step exactly when the second write then stores the outage |
| HealthMonitor.RefusedWriteRepeatsTheRecovery | scripts/health_monitor.js:97-116 | a refused write after a delivered recovery alert makes the next run announce the recovery again |
| BikeCategory.IsBikeIsOneWordTest | shared/bikeCategory.ts:32-39 | pipeline and keyword scan equal "the lower-cased category contains bike", for every string and every case mapping |
| BikeCategory.NormalizeCategoryIsIdempotent | shared/bikeCategory.ts:24-30 | the normal form has no separators but single inner blanks, and normalising it again changes nothing |
| CategoryWords.NormalizeCategoryJoinsTheWords | shared/bikeCategory.ts:24-30 | for every case mapping the pipeline gives the words of the category, split at slashes, underscores, hyphens and white space, joined by single blanks |
| DateKeys.AddDaysToDateKey | e2e/helpers.js:40-44 | the key of local noon that many days later, through any month arithmetic of setDate |
| DateKeys.GetMondayDateKey | e2e/helpers.js:46-52 | the key of the Monday of the anchor's week |
| DateKeys.GetOperationalWeekStartDateKey | e2e/helpers.js:54-65 | the key of Monday up to Wednesday, of two days back later in the week |
| DateKeys.NoonDate.SetDate | e2e/helpers.js:42-42 | setting the day of the month moves by the difference in days, across months and years |
| DateKeys.WeekdaysAreAnchored | e2e/helpers.js:48-49 | weekdays follow each other, and 1 January 2024 is a Monday |
| DateKeys.NoonKeepsTheDateExactlyWhen | e2e/helpers.js:27-38 | printing local noon gives the same date exactly when the machine leads London by more than -12 and at most 12 hours |
| DateKeys.KeysRoundTripExactlyWhen | e2e/helpers.js:27-38 | every date key survives parse and print exactly when that bound holds on every day |
| DateKeys.AddingDaysIsAddition | e2e/helpers.js:40-44 | under the bound, adding days moves the day number by exactly that much and subtracting undoes it |
| DateKeys.AddingTwiceIsAddingTheSum | e2e/helpers.js:40-44 | under the bound, adding a then b days is adding a + b days |
| DateKeys.ThirteenHoursAheadLosesADay | e2e/helpers.js:38-38 | thirteen hours ahead of London every key is one day early |
| DateKeys.MondayKeys | e2e/helpers.js:46-52 | Monday keys are idempotent, and equal exactly within one Monday-to-Sunday week |
| DateKeys.OperationalWeekKeys | e2e/helpers.js:235-236 | the week start is min(weekday, 2) days back, is monotone, and its seven-day window holds the anchor |
| CivilCalendar.DayNumbersAreUnique | e2e/helpers.js:38-42 | with `DateOf`, dates and day numbers correspond one to one |
| CivilCalendar.DayFromYearIsClosedForm | e2e/helpers.js:38-42 | counting years day by day agrees with DayFromYear of section 21.4.1.3 of ECMA-262 |
| CivilCalendar.MonthStartsInClosedForm | e2e/helpers.js:38-42 | every month begins at the threshold of MonthFromTime in section 21.4.1.4 of ECMA-262 |
| CivilCalendar.DayNumberIsClosedForm | e2e/helpers.js:38-42 | the day number of every date in closed form |
| Usernames.GetUniqueUsername | scripts/create_admin_user.js:34-44 | the unused candidate with the least suffix; failure exactly when all 1000 are used; success on every table of fewer than 1000 names |
| Usernames.SomeCandidateIsFree | scripts/create_admin_user.js:36-43 | pigeonhole: fewer than 1000 usernames leave a candidate free, and 1000 suffice to block all |
| Usernames.CandidatesDiffer | scripts/create_admin_user.js:37-37 | no two attempts try the same name |
| Usernames.CandidateNames | scripts/create_admin_user.js:35-37 | attempt i is the root, the first 80 characters of the base, with a hyphen and the decimal number i |

## Left out

- ReleaseController.Controller.RunEntrypoint: does not report the outcome `skipped`, because a skipped entrypoint is one that does nothing and succeeds; nor that rollbacks set COREPOS_SKIP_GIT_PULL, because the entrypoint the repository ships pulls regardless.
- The HTTP smoke tests and the remaining end-to-end helpers: the services they drive are not modelled.
- git, pm2, health endpoints, Slack, `ps` and `lsof` themselves: their outcomes are parameters of the steps.
- Argument parsing, environment lookup, summaries, PM2 status, timestamps and versions of releases: reporting only.
- A failure of git to read HEAD at the start or end of a call: the call then ends without a result record, in the world reached so far.
- Trimming and splitting of git's directory listing: a commit gives its directory names directly.
- Typed JSON details: a flag or commit of the wrong type counts as missing, an entry that is not an object has no commit.
- Recorded commits that are abbreviations or ref names: only full hashes are written by the controller.
- Signals or probes that fail for lack of permission: the cleanup then throws.
- Single-process termination (`terminateChildProcess`), signal handlers and port waits: short sequences with easy claims.
- The Map keyed by pid in the snapshot: kept as the list of its values, with one table row per pid.
- Time between clock readings in a wait: only the number of polls it allows is kept.
- `toLowerCase` mappings that look at neighbouring characters: idempotence of the normal form is stated for character-wise mappings, the one-word test for all.
- Lone UTF-16 surrogates: strings are sequences of characters.
- Digits and padding of date keys, and keys that are not dates: a key is a valid year, month and day.
- Local noons that a zone change skips or repeats: each day has one noon instant.
- Exit of the monitor by an unhandled rejection: counted as exit code 1, as when the failure is handled.
- Updating an existing admin, password hashing and the transaction around the allocator.
