/**
 Which calls can apply migrations to the database although the backup guard would refuse:
 the guard compares two commits, while what it protects is the database.
*/
module UnguardedMigrations {
  import opened Wrappers
  import opened MigrationSets
  import opened BackupGuard
  import opened ReleaseHistory
  import opened ReleaseController
  import opened ReleaseSteps
  import opened DatabaseCoverage
  import opened ReleaseLedger

  /** The guard, were it asked during the call, would refuse. */
  predicate GuardRefuses(w: World, s: Surroundings) {
    EnsureRecentBackup(w.backup, s.now, s.maxAgeHours, s.dumpExists).Some?
  }

  /** The database holds a migration afterwards that it did not hold before. */
  predicate Migrates(w: World, after: World) {
    !(after.database <= w.database)
  }

  /** Every migration of the checked-out tree is applied. */
  predicate UpToDate(repo: Repo, w: World) {
    MigrationSetAt(repo, w.head) <= w.database
  }

  /**
   A deploy migrates the database behind a guard that refuses exactly when its target has
   HEAD's migration list, so that the guard is not asked, and the entrypoint then applies
   something new: migrations it pulled, or some of the checkout's that were still unapplied.
  */
  lemma DeployMigratesUnguardedExactlyWhen(repo: Repo, w: World, s: Surroundings)
    ensures GuardRefuses(w, s) && Migrates(w, Deploy(repo, w, s).world) <==>
      && GuardRefuses(w, s)
      && s.fetched.Some? && Readable(repo, s.fetched.value)
      && !SchemaChange(repo, w.head, s.fetched.value)
      && s.checkout == CheckedOut
      && !(s.entrypoint.applied <= w.database)
  {
    DeployMoves(repo, w, s);
  }

  /** Some entrypoint that pulls nothing and applies migrations of its own tree gets past a refusing guard. */
  ghost predicate MayMigrateUnguarded(repo: Repo, w: World, s: Surroundings) {
    && GuardRefuses(w, s)
    && s.fetched.Some?
    && exists run: Entrypoint ::
         && run.pulled.None?
         && AppliesCheckedOut(repo, s.fetched.value, run)
         && Migrates(w, Deploy(repo, w, s.(entrypoint := run)).world)
  }

  /**
   What can be checked before the call: without a pull, a deploy can migrate behind a
   refusing guard if and only if it deploys the list that is already checked out while the
   database lacks some of it. While the database has it all, no such deploy can.
  */
  lemma UnguardedMigrationIsPossibleExactlyWhen(repo: Repo, w: World, s: Surroundings)
    ensures MayMigrateUnguarded(repo, w, s) <==>
      && GuardRefuses(w, s)
      && s.fetched.Some? && Readable(repo, s.fetched.value)
      && !SchemaChange(repo, w.head, s.fetched.value)
      && s.checkout == CheckedOut
      && !UpToDate(repo, w)
  {
    forall run: Entrypoint { DeployMigratesUnguardedExactlyWhen(repo, w, s.(entrypoint := run)); }
    if s.fetched.Some? && !SchemaChange(repo, w.head, s.fetched.value) {
      EqualListsEqualSets(repo, w.head, s.fetched.value);
      var all := Entrypoint(None, MigrationSetAt(repo, s.fetched.value), true);
      assert AppliesCheckedOut(repo, s.fetched.value, all);
    }
  }

  /** The call gets past its reset: HEAD is on the target. */
  predicate ResetsCheckout(repo: Repo, w: World, a: Action) {
    match a
    case DeployCall(s) => DeployProceeds(repo, w, s) && s.checkout != ResetFails
    case RollbackCall(mode, s) => RollbackProceeds(repo, w, mode, s) && s.checkout != ResetFails
    case _ => false
  }

  /**
   What an entrypoint without a pull does, if the call gets as far as running it: it applies
   migrations of the target only, and when it succeeds none of them is left unapplied.
  */
  predicate MigratesItsTree(repo: Repo, w: World, a: Action) {
    ResetsCheckout(repo, w, a) && a.s.checkout == CheckedOut ==>
      var names := MigrationSetAt(repo, Aimed(repo, w, a).value);
      && a.s.entrypoint.pulled.None?
      && a.s.entrypoint.applied <= names
      && (a.s.entrypoint.succeeds ==> names <= w.database + a.s.entrypoint.applied)
  }

  predicate MigratingRun(repo: Repo, w: World, actions: seq<Action>)
    decreases |actions|
  {
    actions == [] ||
    (MigratesItsTree(repo, w, actions[0]) && MigratingRun(repo, Next(repo, w, actions[0]), actions[1..]))
  }

  /**
   Did the last call of the run that reset the checkout stop before its entrypoint succeeded,
   or has a restore since dropped a migration of the checkout? `before` is the answer at the start.
  */
  predicate Stranded(repo: Repo, w: World, actions: seq<Action>, before: bool)
    decreases |actions|
  {
    if actions == [] then before
    else Stranded(repo, Next(repo, w, actions[0]), actions[1..], StrandedBy(repo, w, actions[0], before))
  }

  predicate StrandedBy(repo: Repo, w: World, a: Action, before: bool) {
    match a
    case BackupTaken(_, _) => before
    case BackupRestored(kept) => before || !(MigrationSetAt(repo, w.head) <= kept)
    case _ =>
      if ResetsCheckout(repo, w, a) then a.s.checkout == CleanFails || !a.s.entrypoint.succeeds else before
  }

  lemma StepStaysUpToDate(repo: Repo, w: World, a: Action, before: bool)
    requires MigratesItsTree(repo, w, a)
    requires !before ==> UpToDate(repo, w)
    ensures !StrandedBy(repo, w, a, before) ==> UpToDate(repo, Next(repo, w, a))
  {
    match a
    case DeployCall(s) => DeployMoves(repo, w, s);
    case RollbackCall(mode, s) => RollbackMoves(repo, w, mode, s);
    case _ =>
  }

  /** Over every run without pulls, whatever fails: the database is up to date unless the run left it stranded. */
  lemma {:induction false} UpToDateUnlessStranded(repo: Repo, w: World, actions: seq<Action>, before: bool)
    requires MigratingRun(repo, w, actions)
    requires !before ==> UpToDate(repo, w)
    ensures !Stranded(repo, w, actions, before) ==> UpToDate(repo, Run(repo, w, actions))
    decreases |actions|
  {
    if actions != [] {
      StepStaysUpToDate(repo, w, actions[0], before);
      UpToDateUnlessStranded(
        repo, Next(repo, w, actions[0]), actions[1..], StrandedBy(repo, w, actions[0], before));
    }
  }

  /**
   Over every run without pulls that starts up to date, whatever fails: a deploy that then
   migrates the database behind a refusing guard finds it stranded by an earlier call that
   got past its reset and not through its entrypoint, or by a restore.
  */
  lemma UnguardedMigrationFollowsStranding(repo: Repo, w: World, actions: seq<Action>, s: Surroundings)
    requires UpToDate(repo, w) && MigratingRun(repo, w, actions)
    requires var end := Run(repo, w, actions);
      && MigratesItsTree(repo, end, DeployCall(s))
      && GuardRefuses(end, s)
      && Migrates(end, Deploy(repo, end, s).world)
    ensures Stranded(repo, w, actions, false)
  {
    var end := Run(repo, w, actions);
    UpToDateUnlessStranded(repo, w, actions, false);
    DeployMigratesUnguardedExactlyWhen(repo, end, s);
    EqualListsEqualSets(repo, end.head, s.fetched.value);
  }

  /**
   Within one call: a deploy leaves HEAD on another migration list behind a refusing guard
   in exactly one way. Main had the live list when it was fetched, and the entrypoint then
   pulled a commit with another.
  */
  lemma HeadChangesListUnguardedExactlyByPulls(repo: Repo, w: World, s: Surroundings)
    ensures var o := Deploy(repo, w, s);
      (SchemaChange(repo, w.head, o.world.head) && GuardRefuses(w, s) <==>
         && GuardRefuses(w, s)
         && s.fetched.Some? && Readable(repo, s.fetched.value)
         && !SchemaChange(repo, w.head, s.fetched.value)
         && s.checkout == CheckedOut
         && s.entrypoint.pulled.Some?
         && SchemaChange(repo, w.head, s.entrypoint.pulled.value))
  {
    DeployMoves(repo, w, s);
  }

  lemma PerformReleaseIgnoresTheBackup(
    repo: Repo, w: World, operation: Operation, target: Commit, r: StepResult, s: Surroundings, backup: BackupFile)
    requires Readable(repo, target)
    ensures var o := PerformRelease(repo, w, operation, target, r, s);
      PerformRelease(repo, w.(backup := backup), operation, target, r, s)
      == Outcome(o.world.(backup := backup), o.result)
  {
    var other := w.(backup := backup);
    var run, otherRun := AfterEntrypoint(w.(head := target), s.entrypoint),
                         AfterEntrypoint(other.(head := target), s.entrypoint);
    assert otherRun == run.(backup := backup);
    var entry := CreateReleaseEntry(operation, w.head, run.head, target, r.schemaChanged);
    assert Recorded(repo, otherRun, entry, s.writes) == Recorded(repo, run, entry, s.writes).(backup := backup);
  }

  lemma SameChoice(repo: Repo, w: World, other: World, mode: Mode)
    requires other.head == w.head && other.history == w.history
    ensures ChosenTarget(repo, other, mode) == ChosenTarget(repo, w, mode)
  {
  }

  /** A rollback never looks at the backup marker: with any other one it does the same. */
  lemma RollbackIgnoresTheBackup(repo: Repo, w: World, mode: Mode, s: Surroundings, backup: BackupFile)
    ensures var o := Rollback(repo, w, mode, s);
      Rollback(repo, w.(backup := backup), mode, s) == Outcome(o.world.(backup := backup), o.result)
  {
    if s.fetched.Some? {
      var main, other := w.(originMain := s.fetched.value), w.(originMain := s.fetched.value, backup := backup);
      SameChoice(repo, main, other, mode);
      if ChosenTarget(repo, main, mode).Success? {
        var target := ChosenTarget(repo, main, mode).value;
        var r := RollbackNotes(repo, main, mode);
        PerformReleaseIgnoresTheBackup(repo, main, RollbackOperation, target, r, s, backup);
      }
    }
  }

  /**
   So a rollback migrates the database whenever the rule allows it a target and the
   entrypoint applies something new, be it the target's or pulled.
  */
  lemma RollbackMigratesExactlyWhen(repo: Repo, w: World, mode: Mode, s: Surroundings)
    ensures Migrates(w, Rollback(repo, w, mode, s).world) <==>
      && s.fetched.Some? && ReadHistory(repo, w.history).Some?
      && (exists target :: MayRollBackTo(repo, ReadHistory(repo, w.history).value, w.head, mode, target))
      && s.checkout == CheckedOut
      && !(s.entrypoint.applied <= w.database)
  {
    RollbackMoves(repo, w, mode, s);
    forall target { ChoiceFollowsTheRule(repo, w, mode, target); }
  }
}
