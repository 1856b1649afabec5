/**
 Over every run, with failures anywhere, the database holds no migration that the
 checked-out tree lacks; and a previous_safe rollback never changes the migration set.
*/
module DatabaseCoverage {
  import opened Wrappers
  import opened MigrationSets
  import opened ReleaseHistory
  import opened ReleaseController
  import opened ReleaseSteps

  /** Every applied migration is in the checked-out tree. */
  predicate Covered(repo: Repo, w: World) {
    w.database <= MigrationSetAt(repo, w.head)
  }

  /** Main holds the migrations of the checkout and of every recorded release. */
  predicate Tracked(repo: Repo, w: World) {
    var main := MigrationSetAt(repo, w.originMain);
    && MigrationSetAt(repo, w.head) <= main
    && (w.history.Releases? ==>
          forall i :: 0 <= i < |w.history.entries| && CommitOf(w.history.entries[i]).Some? ==>
            MigrationSetAt(repo, CommitOf(w.history.entries[i]).value) <= main)
  }

  /** Main's migration set only grows, whether the controller fetches it or the entrypoint pulls it. */
  predicate MainGrows(repo: Repo, w: World, s: Surroundings) {
    && (s.fetched.Some? ==>
          MigrationSetAt(repo, w.originMain) <= MigrationSetAt(repo, s.fetched.value))
    && (s.fetched.Some? && s.entrypoint.pulled.Some? ==>
          MigrationSetAt(repo, s.fetched.value) <= MigrationSetAt(repo, s.entrypoint.pulled.value))
  }

  /** The entrypoint applies migrations of the tree it runs in, all or some of them. */
  predicate AppliesCheckedOut(repo: Repo, target: Commit, run: Entrypoint) {
    run.applied <= MigrationSetAt(repo, if run.pulled.Some? then run.pulled.value else target)
  }

  /**
   The assumptions on one action. A recovery rollback is run as documented, after a restore:
   the database holds only migrations of the target it is about to check out.
  */
  predicate Admissible(repo: Repo, w: World, a: Action) {
    match a
    case DeployCall(s) =>
      MainGrows(repo, w, s) && (s.fetched.Some? ==> AppliesCheckedOut(repo, s.fetched.value, s.entrypoint))
    case RollbackCall(mode, s) =>
      var target := ChosenTarget(repo, w, mode);
      && MainGrows(repo, w, s)
      && (target.Success? ==> AppliesCheckedOut(repo, target.value, s.entrypoint))
      && (target.Success? && mode == RecoveryMode ==> w.database <= MigrationSetAt(repo, target.value))
    case _ => true
  }

  predicate AdmissibleRun(repo: Repo, w: World, actions: seq<Action>)
    decreases |actions|
  {
    actions == [] ||
    (Admissible(repo, w, actions[0]) && AdmissibleRun(repo, Next(repo, w, actions[0]), actions[1..]))
  }

  lemma TargetIsRecorded(repo: Repo, w: World, mode: Mode)
    requires ChosenTarget(repo, w, mode).Success?
    ensures w.history.Releases?
    ensures exists i :: 0 <= i < |w.history.entries| &&
                        CommitOf(w.history.entries[i]) == Some(ChosenTarget(repo, w, mode).value)
  {
    var releases := ReadHistory(repo, w.history).value;
    var t := RollbackTarget(releases, mode, w.head).value;
    assert CommitOf(w.history.entries[t]) == CommitOf(releases[t]);
  }

  lemma RecordedCommits(repo: Repo, w: World, entry: Release, writes: Writes)
    ensures var after := Recorded(repo, w, entry, writes);
      after.history.Releases? ==>
        forall i :: 0 <= i < |after.history.entries| ==>
          || (w.history.Releases? && i < |w.history.entries|
              && CommitOf(after.history.entries[i]) == CommitOf(w.history.entries[i]))
          || CommitOf(after.history.entries[i]) == CommitOf(entry)
  {
  }

  /** From a chosen target on, whatever happens, the checkout, main and the database stay in order. */
  lemma ReleaseKeepsCoverage(
    repo: Repo, w: World, operation: Operation, target: Commit, r: StepResult, s: Surroundings)
    requires Readable(repo, target)
    requires Covered(repo, w) && Tracked(repo, w)
    requires w.database <= MigrationSetAt(repo, target) <= MigrationSetAt(repo, w.originMain)
    requires AppliesCheckedOut(repo, target, s.entrypoint)
    requires s.entrypoint.pulled.Some? ==>
               MigrationSetAt(repo, w.originMain) <= MigrationSetAt(repo, s.entrypoint.pulled.value)
    ensures var after := PerformRelease(repo, w, operation, target, r, s).world;
      Covered(repo, after) && Tracked(repo, after)
  {
    var run := AfterEntrypoint(w.(head := target), s.entrypoint);
    assert Covered(repo, run) && Tracked(repo, run);
    var entry := CreateReleaseEntry(operation, w.head, run.head, target, r.schemaChanged);
    RecordedCommits(repo, run, entry, s.writes);
    PerformReleaseWorlds(repo, w, operation, target, r, s);
    assert Tracked(repo, Recorded(repo, run, entry, s.writes));
  }

  lemma DeployKeepsCoverage(repo: Repo, w: World, s: Surroundings)
    requires Covered(repo, w) && Tracked(repo, w) && Admissible(repo, w, DeployCall(s))
    ensures var after := Deploy(repo, w, s).world; Covered(repo, after) && Tracked(repo, after)
  {
    assert Covered(repo, Fetched(w, s)) && Tracked(repo, Fetched(w, s));
    DeployUnfolds(repo, w, s);
    if DeployProceeds(repo, w, s) {
      var target := s.fetched.value;
      var r := StepResult(Some(target), SchemaChange(repo, w.head, target), None, false, None);
      ReleaseKeepsCoverage(repo, Fetched(w, s), DeployOperation, target, r, s);
    }
  }

  lemma RollbackKeepsCoverage(repo: Repo, w: World, mode: Mode, s: Surroundings)
    requires Covered(repo, w) && Tracked(repo, w) && Admissible(repo, w, RollbackCall(mode, s))
    ensures var after := Rollback(repo, w, mode, s).world; Covered(repo, after) && Tracked(repo, after)
  {
    assert Covered(repo, Fetched(w, s)) && Tracked(repo, Fetched(w, s));
    RollbackUnfolds(repo, w, mode, s);
    if RollbackProceeds(repo, w, mode, s) {
      TargetIsRecorded(repo, w, mode);
      ReleaseKeepsCoverage(repo, Fetched(w, s), RollbackOperation,
        ChosenTarget(repo, w, mode).value, RollbackNotes(repo, w, mode), s);
    }
  }

  lemma StepKeepsCoverage(repo: Repo, w: World, a: Action)
    requires Covered(repo, w) && Tracked(repo, w) && Admissible(repo, w, a)
    ensures Covered(repo, Next(repo, w, a)) && Tracked(repo, Next(repo, w, a))
  {
    match a
    case DeployCall(s) => DeployKeepsCoverage(repo, w, s);
    case RollbackCall(mode, s) => RollbackKeepsCoverage(repo, w, mode, s);
    case _ =>
  }

  /**
   Over every admissible run, with failures anywhere, the database never holds a migration
   that the checked-out tree lacks. Every prefix of a run is a run, so this is an invariant.
  */
  lemma {:induction false} DatabaseStaysCovered(repo: Repo, w: World, actions: seq<Action>)
    requires Covered(repo, w) && Tracked(repo, w) && AdmissibleRun(repo, w, actions)
    ensures Covered(repo, Run(repo, w, actions)) && Tracked(repo, Run(repo, w, actions))
    decreases |actions|
  {
    if actions != [] {
      StepKeepsCoverage(repo, w, actions[0]);
      DatabaseStaysCovered(repo, Next(repo, w, actions[0]), actions[1..]);
    }
  }

  /**
   The restore before a recovery rollback is needed: once the checkout has moved, and
   whatever the entrypoint applies, pulls or fails at, the database is covered exactly when
   it held only migrations of the tree the checkout ends on before the call.
  */
  lemma RecoveryIsCoveredExactlyAfterRestore(repo: Repo, w: World, s: Surroundings)
    requires s.fetched.Some? && s.checkout != ResetFails
    requires ChosenTarget(repo, w, RecoveryMode).Success?
    requires AppliesCheckedOut(repo, ChosenTarget(repo, w, RecoveryMode).value, s.entrypoint)
    ensures Covered(repo, Rollback(repo, w, RecoveryMode, s).world) <==>
            w.database <= MigrationSetAt(repo, CheckoutAfter(ChosenTarget(repo, w, RecoveryMode).value, s))
  {
    RollbackMoves(repo, w, RecoveryMode, s);
  }

  // ------------------------------------------------- previous_safe is safe

  /** Every recorded release's migrations are in the checked-out tree, and those are in main. */
  predicate Ascending(repo: Repo, w: World) {
    var live := MigrationSetAt(repo, w.head);
    && live <= MigrationSetAt(repo, w.originMain)
    && (w.history.Releases? ==>
          forall i :: 0 <= i < |w.history.entries| && CommitOf(w.history.entries[i]).Some? ==>
            MigrationSetAt(repo, CommitOf(w.history.entries[i]).value) <= live)
  }

  /** A run of deploys and previous_safe rollbacks in which main's migration set only grows. */
  predicate SafeRun(repo: Repo, w: World, actions: seq<Action>)
    decreases |actions|
  {
    actions == [] ||
    (var a := actions[0];
     && (a.DeployCall? || a.RollbackCall? ==> MainGrows(repo, w, a.s))
     && (a.RollbackCall? ==> a.mode == PreviousSafe)
     && SafeRun(repo, Next(repo, w, a), actions[1..]))
  }

  lemma ReleaseKeepsAscending(
    repo: Repo, w: World, operation: Operation, target: Commit, r: StepResult, s: Surroundings)
    requires Readable(repo, target) && Ascending(repo, w)
    requires MigrationSetAt(repo, w.head) <= MigrationSetAt(repo, target) <= MigrationSetAt(repo, w.originMain)
    requires s.entrypoint.pulled.Some? ==>
               MigrationSetAt(repo, w.originMain) <= MigrationSetAt(repo, s.entrypoint.pulled.value)
    ensures Ascending(repo, PerformRelease(repo, w, operation, target, r, s).world)
  {
    var run := AfterEntrypoint(w.(head := target), s.entrypoint);
    assert Ascending(repo, w.(head := target));
    assert Ascending(repo, run);
    var entry := CreateReleaseEntry(operation, w.head, run.head, target, r.schemaChanged);
    RecordedCommits(repo, run, entry, s.writes);
    PerformReleaseWorlds(repo, w, operation, target, r, s);
    assert Ascending(repo, Recorded(repo, run, entry, s.writes));
  }

  lemma DeployKeepsAscending(repo: Repo, w: World, s: Surroundings)
    requires Ascending(repo, w) && SafeRun(repo, w, [DeployCall(s)])
    ensures var after := Deploy(repo, w, s).world; Ascending(repo, after)
  {
    assert Ascending(repo, Fetched(w, s));
    DeployUnfolds(repo, w, s);
    if DeployProceeds(repo, w, s) {
      var target := s.fetched.value;
      var r := StepResult(Some(target), SchemaChange(repo, w.head, target), None, false, None);
      ReleaseKeepsAscending(repo, Fetched(w, s), DeployOperation, target, r, s);
    }
  }

  lemma RollbackKeepsAscending(repo: Repo, w: World, mode: Mode, s: Surroundings)
    requires Ascending(repo, w) && SafeRun(repo, w, [RollbackCall(mode, s)])
    ensures var after := Rollback(repo, w, mode, s).world; Ascending(repo, after)
  {
    assert Ascending(repo, Fetched(w, s));
    RollbackUnfolds(repo, w, mode, s);
    if RollbackProceeds(repo, w, mode, s) {
      TargetIsRecorded(repo, w, mode);
      ReleaseKeepsAscending(repo, Fetched(w, s), RollbackOperation,
        ChosenTarget(repo, w, mode).value, RollbackNotes(repo, w, mode), s);
    }
  }

  lemma StepKeepsAscending(repo: Repo, w: World, a: Action)
    requires Ascending(repo, w) && SafeRun(repo, w, [a])
    ensures Ascending(repo, Next(repo, w, a))
  {
    match a
    case DeployCall(s) => DeployKeepsAscending(repo, w, s);
    case RollbackCall(mode, s) => RollbackKeepsAscending(repo, w, mode, s);
    case _ =>
  }

  lemma {:induction false} AscendingIsKept(repo: Repo, w: World, actions: seq<Action>)
    requires Ascending(repo, w) && SafeRun(repo, w, actions)
    ensures Ascending(repo, Run(repo, w, actions))
    decreases |actions|
  {
    if actions != [] {
      StepKeepsAscending(repo, w, actions[0]);
      AscendingIsKept(repo, Next(repo, w, actions[0]), actions[1..]);
    }
  }

  lemma EqualListsEqualSets(repo: Repo, a: Commit, b: Commit)
    requires !SchemaChange(repo, a, b)
    ensures MigrationSetAt(repo, a) == MigrationSetAt(repo, b)
  {
    assert MigrationsAt(repo, a) == MigrationsAt(repo, b);
  }

  lemma SameSetSameList(repo: Repo, a: Commit, b: Commit)
    requires forall c :: c in repo ==> NoDuplicates(repo[c].migrations)
    requires MigrationSetAt(repo, a) == MigrationSetAt(repo, b)
    ensures !SchemaChange(repo, a, b)
  {
    var left := if a in repo then repo[a].migrations else [];
    var right := if b in repo then repo[b].migrations else [];
    assert MigrationsAt(repo, a) == SortNames(left) && MigrationsAt(repo, b) == SortNames(right);
    SortKeepsNames(left);
    SortKeepsNames(right);
    DifferExactlyWhenSetsDiffer(left, right);
  }

  /**
   After any run of deploys and previous_safe rollbacks, however many of them failed, the
   next previous_safe rollback that is let through goes to a release with exactly the live
   migrations. It is therefore recorded as rollback-safe. The safety comes from the
   comparison of the two sets and the growth of main, not from the target's own flag.
  */
  lemma SafeRollbackKeepsTheSchema(repo: Repo, w: World, actions: seq<Action>, s: Surroundings)
    requires Ascending(repo, w) && SafeRun(repo, w, actions)
    requires forall c :: c in repo ==> NoDuplicates(repo[c].migrations)
    requires RollbackProceeds(repo, Run(repo, w, actions), PreviousSafe, s)
    ensures var live := Run(repo, w, actions);
      && MigrationSetAt(repo, ChosenTarget(repo, live, PreviousSafe).value) == MigrationSetAt(repo, live.head)
      && !Rollback(repo, live, PreviousSafe, s).result.schemaChanged
  {
    var live := Run(repo, w, actions);
    AscendingIsKept(repo, w, actions);
    TargetIsRecorded(repo, live, PreviousSafe);
    RollbackUnfolds(repo, live, PreviousSafe, s);
    SameSetSameList(repo, live.head, ChosenTarget(repo, live, PreviousSafe).value);
  }
}
