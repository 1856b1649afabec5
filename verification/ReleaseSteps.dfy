/**
 Runs of the production machine, and what a single controller call does whatever the
 surroundings choose: fetches, failures at any point, pulls by the entrypoint, lost writes.
*/
module ReleaseSteps {
  import opened Wrappers
  import opened MigrationSets
  import opened BackupGuard
  import opened ReleaseHistory
  import opened ReleaseController

  /** One event in the life of the production machine. */
  datatype Action =
    | DeployCall(s: Surroundings)
    | RollbackCall(mode: Mode, s: Surroundings)
    | BackupTaken(t: int, outputPath: string)
    | BackupRestored(kept: set<Name>)

  function Next(repo: Repo, w: World, a: Action): World {
    match a
    case DeployCall(s) => Deploy(repo, w, s).world
    case RollbackCall(mode, s) => Rollback(repo, w, mode, s).world
    case BackupTaken(t, outputPath) => w.(backup := WriteBackupMetadata(t, outputPath))
    case BackupRestored(kept) => w.(database := w.database * kept)
  }

  function Run(repo: Repo, w: World, actions: seq<Action>): World
    decreases |actions|
  {
    if actions == [] then w else Run(repo, Next(repo, w, actions[0]), actions[1..])
  }

  /** The result of a call; the other actions have none. */
  function CallResult(repo: Repo, w: World, a: Action): Option<StepResult> {
    match a
    case DeployCall(s) => Some(Deploy(repo, w, s).result)
    case RollbackCall(mode, s) => Some(Rollback(repo, w, mode, s).result)
    case _ => None
  }

  predicate CallSucceeds(repo: Repo, w: World, a: Action) {
    var r := CallResult(repo, w, a);
    r.Some? && r.value.Succeeded()
  }

  /** The call failed after the history file was replaced and before current-release.json was. */
  predicate HalfWritten(repo: Repo, w: World, a: Action) {
    var r := CallResult(repo, w, a);
    r.Some? && r.value.error == Some(StateNotWritten) && a.s.writes == HistoryOnly
  }

  /** The position records the commit, and no later position does. */
  ghost predicate LastRecord(releases: seq<Release>, commit: Commit, live: nat) {
    && live < |releases|
    && releases[live].Entry? && releases[live].commit == Some(commit)
    && forall j :: live < j < |releases| && releases[j].Entry? ==> releases[j].commit != Some(commit)
  }

  /**
   The rule for rollback positions, stated on the recorded list alone: recovery takes the
   record just before the last one of the live commit, previous_safe the nearest flagged one.
  */
  ghost predicate TargetPosition(releases: seq<Release>, head: Commit, mode: Mode, t: nat) {
    exists live: nat ::
      && LastRecord(releases, head, live)
      && t < live
      && (mode == RecoveryMode ==> t == live - 1)
      && (mode == PreviousSafe ==>
            FlaggedSafe(releases[t]) && forall j :: t < j < live ==> !FlaggedSafe(releases[j]))
  }

  /** The rule with its checks: the record names another commit that git can read, and
      previous_safe asks it to hold every live migration. */
  ghost predicate MayRollBackTo(repo: Repo, releases: seq<Release>, head: Commit, mode: Mode, target: Commit) {
    && (exists t: nat :: TargetPosition(releases, head, mode, t) && CommitOf(releases[t]) == Some(target))
    && target != head
    && Readable(repo, target)
    && (mode == PreviousSafe ==> MigrationSetAt(repo, head) <= MigrationSetAt(repo, target))
  }

  /** The surroundings let a rollback to the commit through to the end. */
  predicate Cooperative(repo: Repo, target: Commit, s: Surroundings)
    requires Readable(repo, target)
  {
    && s.checkout == CheckedOut
    && s.entrypoint.succeeds
    && (s.entrypoint.pulled.None? || s.entrypoint.pulled.value == target)
    && s.healthy
    && s.liveRevision == repo[target].shortCommit
    && s.liveRevision != ""
    && s.writes == BothFiles
  }

  lemma PositionIsForced(releases: seq<Release>, head: Commit, mode: Mode, t: nat)
    ensures TargetPosition(releases, head, mode, t) <==> RollbackTarget(releases, mode, head) == Success(t)
  {
    if TargetPosition(releases, head, mode, t) {
      var live: nat :| LastRecord(releases, head, live) && t < live
        && (mode == RecoveryMode ==> t == live - 1)
        && (mode == PreviousSafe ==>
              FlaggedSafe(releases[t]) && forall j :: t < j < live ==> !FlaggedSafe(releases[j]));
      LastIndexIsUnique(releases, head, live);
      if mode == PreviousSafe {
        LastFlaggedIsUnique(releases, live, t);
      }
    }
    if RollbackTarget(releases, mode, head) == Success(t) {
      assert LastRecord(releases, head, LastIndexOf(releases, head));
    }
  }

  /** The choice the controller makes is the one the rule allows, and there is never another. */
  lemma ChoiceFollowsTheRule(repo: Repo, w: World, mode: Mode, target: Commit)
    ensures
      ReadHistory(repo, w.history).Some?
        && MayRollBackTo(repo, ReadHistory(repo, w.history).value, w.head, mode, target)
      <==>
      ChosenTarget(repo, w, mode) == Success(target)
        && (mode == PreviousSafe ==> MigrationSetAt(repo, w.head) <= MigrationSetAt(repo, target))
  {
    var history := ReadHistory(repo, w.history);
    if history.Some? {
      var choice := RollbackTarget(history.value, mode, w.head);
      if MayRollBackTo(repo, history.value, w.head, mode, target) {
        var t: nat :| TargetPosition(history.value, w.head, mode, t) && CommitOf(history.value[t]) == Some(target);
        PositionIsForced(history.value, w.head, mode, t);
      }
      if choice.Success? {
        PositionIsForced(history.value, w.head, mode, choice.value);
      }
    }
  }

  /** The four worlds the common part of both calls can end in. */
  lemma PerformReleaseWorlds(
    repo: Repo, w: World, operation: Operation, target: Commit, r: StepResult, s: Surroundings)
    requires Readable(repo, target)
    ensures var after := PerformRelease(repo, w, operation, target, r, s).world;
      var run := AfterEntrypoint(w.(head := target), s.entrypoint);
      || after == w
      || after == w.(head := target)
      || after == run
      || after == Recorded(repo, run,
           CreateReleaseEntry(operation, w.head, run.head, target, r.schemaChanged), s.writes)
  {
  }

  /** Where the checkout is once a call has reset it to the target: the entrypoint may pull it on. */
  function CheckoutAfter(target: Commit, s: Surroundings): Commit {
    if s.checkout == CheckedOut && s.entrypoint.pulled.Some? then s.entrypoint.pulled.value else target
  }

  /** What the common part of both calls does to HEAD and the database. */
  lemma ReleaseMoves(repo: Repo, w: World, operation: Operation, target: Commit, r: StepResult, s: Surroundings)
    requires Readable(repo, target)
    ensures var after := PerformRelease(repo, w, operation, target, r, s).world;
      && after.head == (if s.checkout == ResetFails then w.head else CheckoutAfter(target, s))
      && after.database == w.database + (if s.checkout == CheckedOut then s.entrypoint.applied else {})
  {
    PerformReleaseWorlds(repo, w, operation, target, r, s);
  }

  /** When does the common part of both calls succeed, and what has it then done? */
  lemma PerformReleaseSucceeds(
    repo: Repo, w: World, operation: Operation, target: Commit, r: StepResult, s: Surroundings)
    requires Readable(repo, target) && r.error.None?
    ensures var o := PerformRelease(repo, w, operation, target, r, s);
      var final := if s.entrypoint.pulled.Some? then s.entrypoint.pulled.value else target;
      && (o.result.Succeeded() <==>
            && s.checkout == CheckedOut && s.entrypoint.succeeds && s.healthy
            && (operation == RollbackOperation ==> RevisionMismatch(repo, target, final, s.liveRevision).None?)
            && ReadHistory(repo, w.history).Some? && s.writes == BothFiles)
      && (o.result.Succeeded() ==>
            var entry := CreateReleaseEntry(operation, w.head, final, target, r.schemaChanged);
            && o.world.head == final
            && o.world.history == Releases(ReadHistory(repo, w.history).value + [entry])
            && o.world.currentRelease == Some(entry)
            && o.world.backup == w.backup)
  {
  }

  /** The rollback has a target and its migration check lets it go on. */
  predicate RollbackProceeds(repo: Repo, w: World, mode: Mode, s: Surroundings) {
    && s.fetched.Some?
    && ChosenTarget(repo, w, mode).Success?
    && (mode == RecoveryMode ||
        MigrationSetAt(repo, w.head) <= MigrationSetAt(repo, ChosenTarget(repo, w, mode).value))
  }

  function RollbackNotes(repo: Repo, w: World, mode: Mode): StepResult
    requires ChosenTarget(repo, w, mode).Success?
  {
    var target := ChosenTarget(repo, w, mode).value;
    StepResult(Some(target), SchemaChange(repo, w.head, target),
               CompareMigrationSets(MigrationsAt(repo, w.head), MigrationsAt(repo, target)), false, None)
  }

  /** A chosen target comes from a list that could be read, and git can read it too. */
  lemma ChosenTargetIsReadable(repo: Repo, w: World, mode: Mode)
    requires ChosenTarget(repo, w, mode).Success?
    ensures ReadHistory(repo, w.history).Some?
    ensures Readable(repo, ChosenTarget(repo, w, mode).value)
  {
  }

  /** Where `fetchOriginMain` leaves the world. */
  function Fetched(w: World, s: Surroundings): World {
    if s.fetched.Some? then w.(originMain := s.fetched.value) else w
  }

  /** A rollback either stops with only origin/main moved, or carries its chosen target out. */
  lemma RollbackUnfolds(repo: Repo, w: World, mode: Mode, s: Surroundings)
    ensures !RollbackProceeds(repo, w, mode, s) ==>
      var o := Rollback(repo, w, mode, s);
      o.result.error.Some? && o.world == Fetched(w, s)
    ensures RollbackProceeds(repo, w, mode, s) ==>
      Rollback(repo, w, mode, s) ==
      PerformRelease(repo, Fetched(w, s), RollbackOperation,
                     ChosenTarget(repo, w, mode).value, RollbackNotes(repo, w, mode), s)
  {
    if s.fetched.Some? {
      assert ChosenTarget(repo, w.(originMain := s.fetched.value), mode) == ChosenTarget(repo, w, mode);
    }
  }

  /** Where a rollback leaves HEAD and the database. */
  lemma RollbackMoves(repo: Repo, w: World, mode: Mode, s: Surroundings)
    ensures var after := Rollback(repo, w, mode, s).world;
      if RollbackProceeds(repo, w, mode, s) && s.checkout != ResetFails then
        && after.head == CheckoutAfter(ChosenTarget(repo, w, mode).value, s)
        && after.database == w.database + (if s.checkout == CheckedOut then s.entrypoint.applied else {})
      else after.head == w.head && after.database == w.database
  {
    RollbackUnfolds(repo, w, mode, s);
    if RollbackProceeds(repo, w, mode, s) {
      ReleaseMoves(repo, Fetched(w, s), RollbackOperation,
        ChosenTarget(repo, w, mode).value, RollbackNotes(repo, w, mode), s);
    }
  }

  predicate DeployProceeds(repo: Repo, w: World, s: Surroundings) {
    && s.fetched.Some?
    && Readable(repo, s.fetched.value)
    && (SchemaChange(repo, w.head, s.fetched.value) ==>
          EnsureRecentBackup(w.backup, s.now, s.maxAgeHours, s.dumpExists).None?)
  }

  /** A deploy either stops with only origin/main moved, or carries the fetched main out. */
  lemma DeployUnfolds(repo: Repo, w: World, s: Surroundings)
    ensures !DeployProceeds(repo, w, s) ==>
      var o := Deploy(repo, w, s);
      o.result.error.Some? && o.world == Fetched(w, s)
    ensures DeployProceeds(repo, w, s) ==>
      var target := s.fetched.value;
      Deploy(repo, w, s) ==
      PerformRelease(repo, Fetched(w, s), DeployOperation, target,
                     StepResult(Some(target), SchemaChange(repo, w.head, target), None, false, None), s)
  {
  }

  /** Where a deploy leaves HEAD and the database. */
  lemma DeployMoves(repo: Repo, w: World, s: Surroundings)
    ensures var after := Deploy(repo, w, s).world;
      if DeployProceeds(repo, w, s) && s.checkout != ResetFails then
        && after.head == CheckoutAfter(s.fetched.value, s)
        && after.database == w.database + (if s.checkout == CheckedOut then s.entrypoint.applied else {})
      else after.head == w.head && after.database == w.database
  {
    DeployUnfolds(repo, w, s);
    if DeployProceeds(repo, w, s) {
      var target := s.fetched.value;
      ReleaseMoves(repo, Fetched(w, s), DeployOperation, target,
        StepResult(Some(target), SchemaChange(repo, w.head, target), None, false, None), s);
    }
  }

  /** Only the document `null` cannot be read; a missing history is an empty one, and any list is normalised. */
  lemma HistoryIsReadable(repo: Repo, file: HistoryFile)
    ensures ReadHistory(repo, file).Some? <==> !file.JsonNull?
    ensures file.NoReleases? ==> ReadHistory(repo, file) == Some([])
    ensures file.Releases? ==> ReadHistory(repo, file) == Some(Normalized(repo, file.entries))
  {
  }

  /**
   A deploy succeeds exactly when main can be fetched and read, a changed migration list has
   an open backup guard, and checkout, entrypoint, health check and both state files work. Unlike
   a rollback it never compares the running revision with its target, and it needs no history.
  */
  lemma DeploySucceedsExactlyWhen(repo: Repo, w: World, s: Surroundings)
    ensures Deploy(repo, w, s).result.Succeeded() <==>
      && s.fetched.Some? && s.fetched.value in repo && repo[s.fetched.value].hasManifest
      && (MigrationsAt(repo, w.head) != MigrationsAt(repo, s.fetched.value) ==>
            EnsureRecentBackup(w.backup, s.now, s.maxAgeHours, s.dumpExists).None?)
      && s.checkout == CheckedOut && s.entrypoint.succeeds && s.healthy
      && !w.history.JsonNull? && s.writes == BothFiles
  {
    DeployUnfolds(repo, w, s);
    if s.fetched.Some? {
      DifferIsUnequal(MigrationsAt(repo, w.head), MigrationsAt(repo, s.fetched.value));
    }
    if DeployProceeds(repo, w, s) {
      var target := s.fetched.value;
      PerformReleaseSucceeds(repo, Fetched(w, s), DeployOperation, target,
        StepResult(Some(target), SchemaChange(repo, w.head, target), None, false, None), s);
    }
  }

  /**
   A rollback succeeds exactly when the recorded list offers a target the mode allows and
   the surroundings cooperate.
  */
  lemma RollbackSucceedsExactlyWhen(repo: Repo, w: World, mode: Mode, s: Surroundings)
    ensures ReadHistory(repo, w.history).Some? <==> !w.history.JsonNull?
    ensures Rollback(repo, w, mode, s).result.Succeeded() <==>
      && s.fetched.Some? && !w.history.JsonNull?
      && exists target :: MayRollBackTo(repo, ReadHistory(repo, w.history).value, w.head, mode, target)
                       && Cooperative(repo, target, s)
  {
    RollbackUnfolds(repo, w, mode, s);
    forall target { ChoiceFollowsTheRule(repo, w, mode, target); }
    if RollbackProceeds(repo, w, mode, s) {
      PerformReleaseSucceeds(repo, Fetched(w, s), RollbackOperation,
        ChosenTarget(repo, w, mode).value, RollbackNotes(repo, w, mode), s);
    }
  }

  /**
   After a successful rollback the live commit is another one, allowed by the rule, equal to
   the running revision; it is recorded at the end of an otherwise unchanged list with the
   commit it left, and current-release.json names that record.
  */
  lemma SuccessfulRollback(repo: Repo, w: World, mode: Mode, s: Surroundings)
    requires Rollback(repo, w, mode, s).result.Succeeded()
    ensures ReadHistory(repo, w.history).Some?
    ensures var o, h := Rollback(repo, w, mode, s), ReadHistory(repo, w.history).value;
      var changed := SchemaChange(repo, w.head, o.world.head);
      var entry := Entry(Some(o.world.head), Some(changed), Some(!changed),
                         Some(RollbackOperation), Some(w.head), Some(o.world.head));
      && MayRollBackTo(repo, h, w.head, mode, o.world.head)
      && s.liveRevision == repo[o.world.head].shortCommit
      && o.world.history == Releases(h + [entry])
      && o.world.currentRelease == Some(entry)
      && o.world.backup == w.backup
  {
    RollbackUnfolds(repo, w, mode, s);
    PerformReleaseSucceeds(repo, Fetched(w, s), RollbackOperation,
      ChosenTarget(repo, w, mode).value, RollbackNotes(repo, w, mode), s);
    ChoiceFollowsTheRule(repo, w, mode, ChosenTarget(repo, w, mode).value);
  }

  /**
   After a successful deploy HEAD is on main as fetched, or as the entrypoint pulled it. That
   commit is recorded at the end of an otherwise unchanged list, with the commit the deploy
   left, the target it fetched and whether these two differ in migrations.
  */
  lemma SuccessfulDeployRecords(repo: Repo, w: World, s: Surroundings)
    requires Deploy(repo, w, s).result.Succeeded()
    ensures ReadHistory(repo, w.history).Some? && s.fetched.Some?
    ensures var o, target := Deploy(repo, w, s), s.fetched.value;
      var changed := SchemaChange(repo, w.head, target);
      var entry := Entry(Some(o.world.head), Some(changed), Some(!changed),
                         Some(DeployOperation), Some(w.head), Some(target));
      && o.world.head == (if s.entrypoint.pulled.Some? then s.entrypoint.pulled.value else target)
      && o.world.history == Releases(ReadHistory(repo, w.history).value + [entry])
      && o.world.currentRelease == Some(entry)
      && o.world.backup == w.backup
  {
    DeployUnfolds(repo, w, s);
    var target := s.fetched.value;
    PerformReleaseSucceeds(repo, Fetched(w, s), DeployOperation, target,
      StepResult(Some(target), SchemaChange(repo, w.head, target), None, false, None), s);
  }

  /** On a machine without a history a deploy can succeed, and its record is then the only one. */
  lemma FirstDeployRecordsOnce(repo: Repo, w: World, s: Surroundings)
    requires w.history == NoReleases
    requires s.fetched.Some? && s.fetched.value in repo && repo[s.fetched.value].hasManifest
    requires MigrationsAt(repo, w.head) != MigrationsAt(repo, s.fetched.value) ==>
               EnsureRecentBackup(w.backup, s.now, s.maxAgeHours, s.dumpExists).None?
    requires s.checkout == CheckedOut && s.entrypoint.succeeds && s.healthy && s.writes == BothFiles
    ensures var o := Deploy(repo, w, s);
      && o.result.error.None?
      && o.world.history.Releases? && |o.world.history.entries| == 1
      && o.world.history.entries[0].Entry?
      && o.world.history.entries[0].commit == Some(o.world.head)
      && o.world.currentRelease == Some(o.world.history.entries[0])
  {
    DeploySucceedsExactlyWhen(repo, w, s);
    SuccessfulDeployRecords(repo, w, s);
  }

  /** And a rollback there is refused for want of a history, whatever the surroundings. */
  lemma FirstRollbackIsRefused(repo: Repo, w: World, mode: Mode, s: Surroundings)
    requires w.history == NoReleases && s.fetched.Some?
    ensures var o := Rollback(repo, w, mode, s);
      o.result.error == Some(TargetRefused(NoHistory)) && o.world == w.(originMain := s.fetched.value)
  {
    RollbackUnfolds(repo, w, mode, s);
  }

  /** A marker written at `t` keeps the backup guard out of the way up to 999 ms before its limit. */
  lemma FreshBackupAdmitsDeploy(repo: Repo, w: World, t: int, outputPath: string, s: Surroundings)
    requires outputPath != "" && s.dumpExists && s.now - t <= MaxAgeMs(s.maxAgeHours) - 999
    ensures var o := Deploy(repo, Next(repo, w, BackupTaken(t, outputPath)), s);
      o.result.error.Some? ==> !o.result.error.value.BackupRefused?
  {
    MarkerOpensGuard(t, outputPath, s.now, s.maxAgeHours, s.dumpExists);
  }
}
