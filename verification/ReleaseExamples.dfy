/**
 Concrete calls of the release controller in which a property fails whose exact condition
 is stated in another module.
*/
module ReleaseExamples {
  import opened Wrappers
  import opened MigrationSets
  import opened BackupGuard
  import opened ReleaseHistory
  import opened ReleaseController
  import opened ReleaseSteps
  import opened ReleaseLedger
  import opened SafeTargets
  import opened UnguardedMigrations

  /** Two commits without migrations, then one that adds a column and one on top of it. */
  const REPO: Repo := map[
    "a" := CommitInfo("a", true, []),
    "b" := CommitInfo("b", true, []),
    "c" := CommitInfo("c", true, ["add_column"]),
    "d" := CommitInfo("d", true, ["add_column"])]

  const FIRST := CreateReleaseEntry(DeployOperation, "a", "a", "a", false)
  const SECOND := CreateReleaseEntry(DeployOperation, "a", "b", "b", false)

  /** Release a is live, recorded and fully applied. */
  function Start(backup: BackupFile): World {
    World("a", "a", Releases([FIRST]), Some(FIRST), backup, {})
  }

  /** A deploy of the given commit in which everything works except, perhaps, the entrypoint. */
  function Attempt(fetched: Commit, now: int, run: Entrypoint): Surroundings {
    Surroundings(Some(fetched), now, None, true, CheckedOut, run, true, "c", BothFiles)
  }

  lemma Lists()
    ensures MigrationsAt(REPO, "a") == [] && MigrationsAt(REPO, "b") == []
    ensures MigrationsAt(REPO, "c") == ["add_column"] && MigrationsAt(REPO, "d") == ["add_column"]
    ensures !SchemaChange(REPO, "a", "b") && SchemaChange(REPO, "a", "c") && SchemaChange(REPO, "b", "c")
    ensures forall commit :: !SchemaChange(REPO, commit, commit)
  {
  }

  /** Main is fetched at b, and the entrypoint pulls and applies c. */
  const PULLING := Attempt("b", 0, Entrypoint(Some("c"), {"add_column"}, true))

  /** There is no backup at all, and the deploy migrates the database and moves HEAD to another list. */
  lemma PulledDeployMigratesUnguarded()
    ensures var w := Start(BackupFile.Missing);
      var after := Next(REPO, w, DeployCall(PULLING));
      && GuardRefuses(w, PULLING)
      && CallSucceeds(REPO, w, DeployCall(PULLING))
      && SchemaChange(REPO, w.head, after.head)
      && Migrates(w, after)
  {
    Lists();
    var w := Start(BackupFile.Missing);
    DeploySucceedsExactlyWhen(REPO, w, PULLING);
    DeployMigratesUnguardedExactlyWhen(REPO, w, PULLING);
    HeadChangesListUnguardedExactlyByPulls(REPO, w, PULLING);
  }

  /** The record of that deploy says that the schema did not change. */
  lemma PulledDeployMisstatesItsFlags()
    ensures var w := Start(BackupFile.Missing);
      var h := ReadHistory(REPO, Next(REPO, w, DeployCall(PULLING)).history);
      && CallSucceeds(REPO, w, DeployCall(PULLING))
      && h.Some? && |h.value| == 2
      && FlaggedSafe(h.value[1])
      && CommitOf(h.value[1]) == Some("c")
      && !FlagsRegained(REPO, h.value, 1)
  {
    Lists();
    var w := Start(BackupFile.Missing);
    DeploySucceedsExactlyWhen(REPO, w, PULLING);
    RecordRegainsItsFlagsExactlyWhen(REPO, w, DeployCall(PULLING));
    RecordingCall(REPO, w, DeployCall(PULLING));
  }

  /** A deploy of c under a fresh backup, whose entrypoint fails before it migrates. */
  const FAILING := Attempt("c", 0, Entrypoint(None, {}, false))
  const FRESH_BACKUP := WriteBackupMetadata(0, "dump")
  /** The same deploy, tried again a thousand hours later. */
  const RETRY := Attempt("c", 1000 * MS_PER_HOUR, Entrypoint(None, {"add_column"}, true))

  lemma FailingAttemptStrands()
    ensures Next(REPO, Start(FRESH_BACKUP), DeployCall(FAILING))
         == Start(FRESH_BACKUP).(head := "c", originMain := "c")
  {
    Lists();
    var w := Start(FRESH_BACKUP);
    assert EnsureRecentBackup(w.backup, 0, None, true).None?;
    DeployUnfolds(REPO, w, FAILING);
  }

  /** Nothing is pulled, the backup is long out of date, and the retry migrates the database. */
  lemma RetriedDeployMigratesUnguarded()
    ensures var stranded := Next(REPO, Start(FRESH_BACKUP), DeployCall(FAILING));
      && !GuardRefuses(Start(FRESH_BACKUP), FAILING)
      && GuardRefuses(stranded, RETRY)
      && CallSucceeds(REPO, stranded, DeployCall(RETRY))
      && Migrates(stranded, Next(REPO, stranded, DeployCall(RETRY)))
  {
    Lists();
    FailingAttemptStrands();
    var stranded := Next(REPO, Start(FRESH_BACKUP), DeployCall(FAILING));
    DeploySucceedsExactlyWhen(REPO, stranded, RETRY);
    DeployMigratesUnguardedExactlyWhen(REPO, stranded, RETRY);
  }

  /** And it is recorded as safe to roll back to, unlike the release before it. */
  lemma RetriedDeployMisstatesItsFlags()
    ensures var stranded := Next(REPO, Start(FRESH_BACKUP), DeployCall(FAILING));
      var h := ReadHistory(REPO, Next(REPO, stranded, DeployCall(RETRY)).history);
      && CallSucceeds(REPO, stranded, DeployCall(RETRY))
      && h.Some? && |h.value| == 2
      && FlaggedSafe(h.value[1])
      && CommitOf(h.value[0]) == Some("a") && CommitOf(h.value[1]) == Some("c")
      && !FlagsRegained(REPO, h.value, 1)
  {
    Lists();
    FailingAttemptStrands();
    var stranded := Next(REPO, Start(FRESH_BACKUP), DeployCall(FAILING));
    DeploySucceedsExactlyWhen(REPO, stranded, RETRY);
    RecordRegainsItsFlagsExactlyWhen(REPO, stranded, DeployCall(RETRY));
    RecordingCall(REPO, stranded, DeployCall(RETRY));
  }

  /**
   Without any backup, a previous_safe rollback from b to a migrates the database when its
   entrypoint pulls main. The revision check fails the call, but only afterwards.
  */
  lemma PulledRollbackMigratesUnguarded()
    ensures var w := World("b", "b", Releases([FIRST, SECOND]), Some(SECOND), BackupFile.Missing, {});
      var s := Attempt("c", 0, Entrypoint(Some("c"), {"add_column"}, true));
      var o := Rollback(REPO, w, PreviousSafe, s);
      && GuardRefuses(w, s)
      && Migrates(w, o.world)
      && o.result.error == Some(WrongCheckout)
  {
    Lists();
    var w := World("b", "b", Releases([FIRST, SECOND]), Some(SECOND), BackupFile.Missing, {});
    var h := ReadHistory(REPO, w.history).value;
    assert h == [FIRST, SECOND];
    LastIndexIsUnique(h, "b", 1);
    LastFlaggedIsUnique(h, 1, 0);
    assert ChosenTarget(REPO, w, PreviousSafe) == Success("a");
    RollbackUnfolds(REPO, w, PreviousSafe, Attempt("c", 0, Entrypoint(Some("c"), {"add_column"}, true)));
  }

  /** Releases a, c and d, each recorded by a deploy from the one before; d is live. */
  const THREE := [
    FIRST,
    CreateReleaseEntry(DeployOperation, "a", "c", "c", true),
    CreateReleaseEntry(DeployOperation, "c", "d", "d", false)]

  /**
   From d, previous_safe passes over c, which has exactly the live migrations, because a
   deploy of a migration led to it; it picks a, and is refused.
  */
  lemma PreviousSafeSkipsAnEqualRelease(w: World, s: Surroundings)
    requires w.head == "d" && w.history == Releases(THREE) && s.fetched.Some?
    ensures MigrationSetAt(REPO, "c") == MigrationSetAt(REPO, w.head)
    ensures ChosenTarget(REPO, w, PreviousSafe) == Success("a")
    ensures Rollback(REPO, w, PreviousSafe, s).result.error == Some(NewerMigrations)
  {
    Lists();
    var h := ReadHistory(REPO, w.history).value;
    assert h == THREE;
    LastIndexIsUnique(h, "d", 2);
    LastFlaggedIsUnique(h, 2, 0);
    assert "add_column" in MigrationSetAt(REPO, "d") && MigrationSetAt(REPO, "a") == {};
  }
}
