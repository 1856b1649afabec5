/**
 What the result of a call reports, and what a failed call leaves behind: the error tells how
 far the call got and in which world it stopped.
*/
module FailedCalls {
  import opened Wrappers
  import opened MigrationSets
  import opened BackupGuard
  import opened ReleaseHistory
  import opened ReleaseController
  import opened ReleaseSteps

  /** The world once the entrypoint has been run from the target, before anything is recorded. */
  function Ran(w: World, target: Commit, s: Surroundings): World {
    var pulled := s.entrypoint.pulled;
    w.(head := if pulled.Some? then pulled.value else target,
       originMain := if pulled.Some? then pulled.value else w.originMain,
       database := w.database + s.entrypoint.applied)
  }

  /** How the steps that both calls share can fail, and the world each failure leaves. */
  predicate StoppedOnTheWay(w: World, after: World, target: Commit, s: Surroundings, error: ReleaseError) {
    match error
    case CheckoutFailed =>
      && s.checkout != CheckedOut
      && after == if s.checkout == ResetFails then w else w.(head := target)
    case EntrypointFailed =>
      s.checkout == CheckedOut && !s.entrypoint.succeeds && after == Ran(w, target, s)
    case HealthCheckFailed =>
      s.checkout == CheckedOut && s.entrypoint.succeeds && !s.healthy && after == Ran(w, target, s)
    case HistoryUnreadable =>
      s.checkout == CheckedOut && s.entrypoint.succeeds && s.healthy && w.history.JsonNull?
      && after == Ran(w, target, s)
    case StateNotWritten =>
      s.checkout == CheckedOut && s.entrypoint.succeeds && s.healthy && s.writes != BothFiles
      && after == Ran(w, target, s).(history := after.history)
      && (s.writes == NeitherFile ==> after.history == w.history)
    case _ => false
  }

  lemma PerformReleaseStops(
    repo: Repo, w: World, operation: Operation, target: Commit, r: StepResult, s: Surroundings)
    requires Readable(repo, target) && r.error.None? && !r.historyUpdated
    ensures var o := PerformRelease(repo, w, operation, target, r, s);
      && o.result == r.(error := o.result.error, historyUpdated := o.result.error.None?)
      && (o.result.error.Some? ==>
            || StoppedOnTheWay(w, o.world, target, s, o.result.error.value)
            || (operation == RollbackOperation && o.world == Ran(w, target, s)
                && s.checkout == CheckedOut && s.entrypoint.succeeds && s.healthy
                && o.result.error == RevisionMismatch(repo, target, o.world.head, s.liveRevision)))
  {
  }

  /** What a deploy reports: target, schema change and whether the history was extended. */
  lemma DeployReports(repo: Repo, w: World, s: Surroundings)
    ensures var r := Deploy(repo, w, s).result;
      var found := s.fetched.Some? && s.fetched.value in repo && repo[s.fetched.value].hasManifest;
      && r.target == (if found then s.fetched else None)
      && (r.schemaChanged <==> found && MigrationsAt(repo, w.head) != MigrationsAt(repo, s.fetched.value))
      && r.warning.None?
      && (r.historyUpdated <==> r.error.None?)
  {
    if s.fetched.Some? && Readable(repo, s.fetched.value) {
      var main, target := w.(originMain := s.fetched.value), s.fetched.value;
      DifferIsUnequal(MigrationsAt(repo, w.head), MigrationsAt(repo, target));
      PerformReleaseStops(repo, main, DeployOperation, target,
        StepResult(Some(target), SchemaChange(repo, w.head, target), None, false, None), s);
    }
  }

  /** What a rollback reports: its target once one is settled, and how its migrations compare. */
  lemma RollbackReports(repo: Repo, w: World, mode: Mode, s: Surroundings)
    ensures var r := Rollback(repo, w, mode, s).result;
      && (r.target.Some? <==> s.fetched.Some? && ChosenTarget(repo, w, mode).Success?)
      && (r.target.Some? ==>
            && r.target.value == ChosenTarget(repo, w, mode).value
            && (r.schemaChanged <==> MigrationsAt(repo, w.head) != MigrationsAt(repo, r.target.value))
            && (mode == RecoveryMode ==>
                  r.warning == CompareMigrationSets(MigrationsAt(repo, w.head), MigrationsAt(repo, r.target.value)))
            && (mode == PreviousSafe ==> r.warning.None?))
      && (r.target.None? ==> !r.schemaChanged && r.warning.None? && r.error.Some?)
      && (r.historyUpdated <==> r.error.None?)
  {
    if s.fetched.Some? {
      var main := w.(originMain := s.fetched.value);
      assert ChosenTarget(repo, main, mode) == ChosenTarget(repo, w, mode);
      if ChosenTarget(repo, main, mode).Success? {
        var target := ChosenTarget(repo, main, mode).value;
        DifferIsUnequal(MigrationsAt(repo, w.head), MigrationsAt(repo, target));
        PerformReleaseStops(repo, main, RollbackOperation, target, RollbackNotes(repo, main, mode), s);
      }
    }
  }

  /** What each error of a deploy says: how far it got, why it stopped, and the world it left. */
  lemma FailedDeployLeaves(repo: Repo, w: World, s: Surroundings)
    requires Deploy(repo, w, s).result.error.Some?
    ensures var o := Deploy(repo, w, s);
      var error := o.result.error.value;
      if s.fetched.None? then error == FetchFailed && o.world == w
      else
        var main, target := w.(originMain := s.fetched.value), s.fetched.value;
        match error
        case TargetUnreadable => !(target in repo && repo[target].hasManifest) && o.world == main
        case BackupRefused(guard) =>
          && MigrationsAt(repo, w.head) != MigrationsAt(repo, target)
          && EnsureRecentBackup(w.backup, s.now, s.maxAgeHours, s.dumpExists) == Some(guard)
          && o.world == main
        case _ =>
          target in repo && repo[target].hasManifest && StoppedOnTheWay(main, o.world, target, s, error)
  {
    if s.fetched.Some? && Readable(repo, s.fetched.value) {
      var main, target := w.(originMain := s.fetched.value), s.fetched.value;
      DifferIsUnequal(MigrationsAt(repo, w.head), MigrationsAt(repo, target));
      PerformReleaseStops(repo, main, DeployOperation, target,
        StepResult(Some(target), SchemaChange(repo, w.head, target), None, false, None), s);
    }
  }

  /** What each error of a rollback says. The revision is checked last, when HEAD has long moved. */
  lemma FailedRollbackLeaves(repo: Repo, w: World, mode: Mode, s: Surroundings)
    requires Rollback(repo, w, mode, s).result.error.Some?
    ensures var o := Rollback(repo, w, mode, s);
      var error := o.result.error.value;
      if s.fetched.None? then error == FetchFailed && o.world == w
      else
        var main := w.(originMain := s.fetched.value);
        if ChosenTarget(repo, w, mode).Failure? then
          error == ChosenTarget(repo, w, mode).error && o.world == main
        else
          var target := ChosenTarget(repo, w, mode).value;
          match error
          case NewerMigrations =>
            && mode == PreviousSafe && o.world == main
            && !(MigrationSetAt(repo, w.head) <= MigrationSetAt(repo, target))
          case WrongCheckout =>
            o.world == Ran(main, target, s) && o.world.head != target
          case NoLiveRevision =>
            o.world == Ran(main, target, s) && o.world.head == target && s.liveRevision == ""
          case WrongLiveRevision =>
            && o.world == Ran(main, target, s) && o.world.head == target && target in repo
            && s.liveRevision != "" && s.liveRevision != repo[target].shortCommit
          case _ => StoppedOnTheWay(main, o.world, target, s, error)
  {
    RollbackUnfolds(repo, w, mode, s);
    if s.fetched.Some? {
      assert ChosenTarget(repo, Fetched(w, s), mode) == ChosenTarget(repo, w, mode);
      if RollbackProceeds(repo, w, mode, s) {
        PerformReleaseStops(repo, Fetched(w, s), RollbackOperation,
          ChosenTarget(repo, w, mode).value, RollbackNotes(repo, w, mode), s);
      }
    }
  }

  /**
   Why a rollback settles on no commit: the history cannot be read, its list offers none, or
   the record it offers names none, one git cannot read, or the live one.
  */
  lemma NoTargetExactlyWhen(repo: Repo, w: World, mode: Mode)
    ensures var choice, h := ChosenTarget(repo, w, mode), ReadHistory(repo, w.history);
      && (choice == Failure(HistoryUnreadable) <==> w.history.JsonNull?)
      && (h.Some? ==>
            var t := RollbackTarget(h.value, mode, w.head);
            && (forall e :: choice == Failure(TargetRefused(e)) <==> t == Failure(e))
            && (t.Success? ==>
                  var record := h.value[t.value];
                  var readable := record.Entry? && record.commit.Some? && record.commit.value in repo
                                  && repo[record.commit.value].hasManifest;
                  && (choice == Failure(TargetUnreadable) <==> !readable)
                  && (choice == Failure(AlreadyLive) <==> readable && record.commit == Some(w.head))
                  && (choice.Success? <==> readable && record.commit != Some(w.head))
                  && (choice.Success? ==> record.commit == Some(choice.value))))
  {
  }
}
