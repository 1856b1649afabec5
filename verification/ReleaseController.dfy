/**
 The production release controller: one `deploy` or `rollback` call at a time over the
 checkout, the fetched main branch, the durable state files and the database.

 `Deploy` and `Rollback` say what one call does to the world, given everything the
 surroundings decide during that call (`Surroundings`). The class carries the steps out in
 the order of the program and is proved to reach that world.
*/
module ReleaseController {
  import opened Wrappers
  import opened MigrationSets
  import opened BackupGuard
  import opened ReleaseHistory

  /**
   The file `successful-releases.json`. `NoReleases` is a file that is missing, is not
   JSON, or holds no `releases` array; `JsonNull` is the document `null`, on which reading
   the `releases` property throws.
  */
  datatype HistoryFile = NoReleases | JsonNull | Releases(entries: seq<Release>)

  /** The state that outlives a call. `database` is the set of applied migrations. */
  datatype World = World(
    head: Commit,
    originMain: Commit,
    history: HistoryFile,
    currentRelease: Option<Release>,
    backup: BackupFile,
    database: set<Name>)

  /** How far `git reset --hard` followed by `git clean -fd` gets. */
  datatype Checkout = ResetFails | CleanFails | CheckedOut

  /**
   One run of the deploy entrypoint: it may pull main first, then apply migrations, and it
   may stop anywhere. The skipped entrypoint is the one that does nothing and succeeds.
  */
  datatype Entrypoint = Entrypoint(pulled: Option<Commit>, applied: set<Name>, succeeds: bool)

  /** How far the two atomic writes of `updateKnownGoodState` get. */
  datatype Writes = BothFiles | HistoryOnly | NeitherFile

  /**
   Everything outside the controller that one call meets. `fetched` is origin/main after a
   fetch that works; an empty `liveRevision` means that none was reported.
  */
  datatype Surroundings = Surroundings(
    fetched: Option<Commit>,
    now: int,
    maxAgeHours: Option<int>,
    dumpExists: bool,
    checkout: Checkout,
    entrypoint: Entrypoint,
    healthy: bool,
    liveRevision: string,
    writes: Writes)

  datatype ReleaseError =
    | FetchFailed
    | TargetUnreadable
    | BackupRefused(guard: GuardError)
    | HistoryUnreadable
    | TargetRefused(selection: SelectionError)
    | AlreadyLive
    | NewerMigrations
    | CheckoutFailed
    | EntrypointFailed
    | HealthCheckFailed
    | WrongCheckout
    | NoLiveRevision
    | WrongLiveRevision
    | StateNotWritten

  /** The part of the result record that the later properties speak of. */
  datatype StepResult = StepResult(
    target: Option<Commit>,
    schemaChanged: bool,
    warning: Option<Warning>,
    historyUpdated: bool,
    error: Option<ReleaseError>)
  {
    predicate Succeeded() { error.None? }
  }

  datatype Outcome = Outcome(world: World, result: StepResult)

  const INITIAL_RESULT := StepResult(None, false, None, false, None)

  /** `readSuccessHistory`: None when it throws. */
  function ReadHistory(repo: Repo, file: HistoryFile): Option<seq<Release>> {
    match file
    case NoReleases => Some([])
    case JsonNull => None
    case Releases(entries) => Some(Normalized(repo, entries))
  }

  /** `readReleaseInfoAtRef` on a commit: does it return? */
  predicate Readable(repo: Repo, commit: Commit) {
    commit in repo && repo[commit].hasManifest
  }

  /** `createReleaseEntry` */
  function CreateReleaseEntry(
    operation: Operation, currentBefore: Commit, final: Commit, target: Commit, schemaChanged: bool)
    : (entry: Release)
    ensures HasFlags(entry) && CommitOf(entry) == Some(final)
  {
    Entry(Some(final), Some(schemaChanged), Some(!schemaChanged),
          Some(operation), Some(currentBefore), Some(target))
  }

  /** `ensureReleaseRevisionMatchesTarget`: what it throws, if anything. */
  function RevisionMismatch(repo: Repo, target: Commit, final: Commit, liveRevision: string): Option<ReleaseError>
    requires Readable(repo, target)
  {
    if final != target then Some(WrongCheckout)
    else if liveRevision == "" then Some(NoLiveRevision)
    else if liveRevision != repo[target].shortCommit then Some(WrongLiveRevision)
    else None
  }

  /** What a run of the entrypoint leaves behind. */
  function AfterEntrypoint(w: World, run: Entrypoint): World {
    var moved := if run.pulled.Some? then w.(head := run.pulled.value, originMain := run.pulled.value) else w;
    moved.(database := moved.database + run.applied)
  }

  /** `updateKnownGoodState` */
  function Recorded(repo: Repo, w: World, entry: Release, writes: Writes): World {
    var history := ReadHistory(repo, w.history);
    if history.None? || writes == NeitherFile then w
    else
      var appended := w.(history := Releases(history.value + [entry]));
      if writes == HistoryOnly then appended else appended.(currentRelease := Some(entry))
  }

  /** From the checkout of the chosen target to the recorded release. */
  function PerformRelease(
    repo: Repo, w: World, operation: Operation, target: Commit, r: StepResult, s: Surroundings): Outcome
    requires Readable(repo, target)
  {
    if s.checkout == ResetFails then Outcome(w, r.(error := Some(CheckoutFailed)))
    else
      var atTarget := w.(head := target);
      if s.checkout == CleanFails then Outcome(atTarget, r.(error := Some(CheckoutFailed)))
      else
        var run := AfterEntrypoint(atTarget, s.entrypoint);
        var mismatch := RevisionMismatch(repo, target, run.head, s.liveRevision);
        if !s.entrypoint.succeeds then Outcome(run, r.(error := Some(EntrypointFailed)))
        else if !s.healthy then Outcome(run, r.(error := Some(HealthCheckFailed)))
        else if operation == RollbackOperation && mismatch.Some? then Outcome(run, r.(error := mismatch))
        else
          var entry := CreateReleaseEntry(operation, w.head, run.head, target, r.schemaChanged);
          var recorded := Recorded(repo, run, entry, s.writes);
          if ReadHistory(repo, run.history).None? then Outcome(recorded, r.(error := Some(HistoryUnreadable)))
          else if s.writes != BothFiles then Outcome(recorded, r.(error := Some(StateNotWritten)))
          else Outcome(recorded, r.(historyUpdated := true))
  }

  /** One `deploy` call. */
  function Deploy(repo: Repo, w: World, s: Surroundings): Outcome {
    if s.fetched.None? then Outcome(w, INITIAL_RESULT.(error := Some(FetchFailed)))
    else
      var target := s.fetched.value;
      var fetched := w.(originMain := target);
      if !Readable(repo, target) then Outcome(fetched, INITIAL_RESULT.(error := Some(TargetUnreadable)))
      else
        var changed := SchemaChange(repo, w.head, target);
        var r := INITIAL_RESULT.(target := Some(target), schemaChanged := changed);
        var refusal := EnsureRecentBackup(w.backup, s.now, s.maxAgeHours, s.dumpExists);
        if changed && refusal.Some? then Outcome(fetched, r.(error := Some(BackupRefused(refusal.value))))
        else PerformRelease(repo, fetched, DeployOperation, target, r, s)
  }

  /** The commit a rollback settles on, or why it stops before the migrations are compared. */
  function ChosenTarget(repo: Repo, w: World, mode: Mode): Result<Commit, ReleaseError> {
    var history := ReadHistory(repo, w.history);
    if history.None? then Failure(HistoryUnreadable)
    else
      var choice := RollbackTarget(history.value, mode, w.head);
      if choice.Failure? then Failure(TargetRefused(choice.error))
      else
        var commit := CommitOf(history.value[choice.value]);
        if commit.None? || !Readable(repo, commit.value) then Failure(TargetUnreadable)
        else if commit.value == w.head then Failure(AlreadyLive)
        else Success(commit.value)
  }

  /** One `rollback` call. */
  function Rollback(repo: Repo, w: World, mode: Mode, s: Surroundings): Outcome {
    if s.fetched.None? then Outcome(w, INITIAL_RESULT.(error := Some(FetchFailed)))
    else
      var fetched := w.(originMain := s.fetched.value);
      var choice := ChosenTarget(repo, fetched, mode);
      if choice.Failure? then Outcome(fetched, INITIAL_RESULT.(error := Some(choice.error)))
      else
        var target := choice.value;
        var r := INITIAL_RESULT.(target := Some(target), schemaChanged := SchemaChange(repo, w.head, target));
        var warning := CompareMigrationSets(MigrationsAt(repo, w.head), MigrationsAt(repo, target));
        if warning.Some? && mode != RecoveryMode then Outcome(fetched, r.(error := Some(NewerMigrations)))
        else PerformRelease(repo, fetched, RollbackOperation, target, r.(warning := warning), s)
  }

  /** The running controller: the fields are what the program finds and changes on the machine. */
  class Controller {
    const repo: Repo
    var head: Commit
    var originMain: Commit
    var history: HistoryFile
    var currentRelease: Option<Release>
    var backup: BackupFile
    var database: set<Name>

    function State(): World
      reads this
    {
      World(head, originMain, history, currentRelease, backup, database)
    }

    constructor (repo: Repo, w: World)
      ensures this.repo == repo && State() == w
    {
      this.repo := repo;
      head := w.head;
      originMain := w.originMain;
      history := w.history;
      currentRelease := w.currentRelease;
      backup := w.backup;
      database := w.database;
    }

    /** `checkoutTarget` */
    method CheckoutTarget(target: Commit, outcome: Checkout) returns (ok: bool)
      modifies this`head
      ensures head == if outcome == ResetFails then old(head) else target
      ensures ok == (outcome == CheckedOut)
    {
      if outcome == ResetFails {
        return false;
      }
      head := target;
      return outcome == CheckedOut;
    }

    /** `runEntrypoint`, with what the external command does to the checkout and the database. */
    method RunEntrypoint(run: Entrypoint) returns (ok: bool)
      modifies this
      ensures State() == AfterEntrypoint(old(State()), run)
      ensures ok == run.succeeds
    {
      if run.pulled.Some? {
        originMain := run.pulled.value;
        head := run.pulled.value;
      }
      database := database + run.applied;
      return run.succeeds;
    }

    /** `updateKnownGoodState`: read the history again, write it, then write the current release. */
    method UpdateKnownGoodState(entry: Release, writes: Writes) returns (error: Option<ReleaseError>)
      modifies this
      ensures State() == Recorded(repo, old(State()), entry, writes)
      ensures error == (if ReadHistory(repo, old(history)).None? then Some(HistoryUnreadable)
                        else if writes != BothFiles then Some(StateNotWritten) else None)
    {
      var releases := ReadHistory(repo, history);
      if releases.None? {
        return Some(HistoryUnreadable);
      }
      if writes == NeitherFile {
        return Some(StateNotWritten);
      }
      history := Releases(releases.value + [entry]);
      if writes == HistoryOnly {
        return Some(StateNotWritten);
      }
      currentRelease := Some(entry);
      return None;
    }

    /** `executeDeploy` */
    method ExecuteDeploy(s: Surroundings) returns (result: StepResult)
      modifies this
      ensures Outcome(State(), result) == Deploy(repo, old(State()), s)
    {
      var currentBefore := head;
      result := INITIAL_RESULT;
      if s.fetched.None? {
        result := result.(error := Some(FetchFailed));
        return;
      }
      originMain := s.fetched.value;
      var target := originMain;
      if !Readable(repo, target) {
        result := result.(error := Some(TargetUnreadable));
        return;
      }
      result := result.(target := Some(target));
      var currentNames := MigrationsAt(repo, currentBefore);
      var targetNames := MigrationsAt(repo, target);
      var schemaChanged := MigrationSetsDiffer(currentNames, targetNames);
      result := result.(schemaChanged := schemaChanged);
      if schemaChanged {
        var refusal := EnsureRecentBackup(backup, s.now, s.maxAgeHours, s.dumpExists);
        if refusal.Some? {
          result := result.(error := Some(BackupRefused(refusal.value)));
          return;
        }
      }
      var checkedOut := CheckoutTarget(target, s.checkout);
      if !checkedOut {
        result := result.(error := Some(CheckoutFailed));
        return;
      }
      var entrypointOk := RunEntrypoint(s.entrypoint);
      if !entrypointOk {
        result := result.(error := Some(EntrypointFailed));
        return;
      }
      if !s.healthy {
        result := result.(error := Some(HealthCheckFailed));
        return;
      }
      var final := head;
      var entry := CreateReleaseEntry(DeployOperation, currentBefore, final, target, schemaChanged);
      var writeError := UpdateKnownGoodState(entry, s.writes);
      result := result.(historyUpdated := writeError.None?, error := writeError);
    }

    /** `executeRollback` */
    method ExecuteRollback(mode: Mode, s: Surroundings) returns (result: StepResult)
      modifies this
      ensures Outcome(State(), result) == Rollback(repo, old(State()), mode, s)
    {
      var currentBefore := head;
      result := INITIAL_RESULT;
      if s.fetched.None? {
        result := result.(error := Some(FetchFailed));
        return;
      }
      originMain := s.fetched.value;
      var releases := ReadHistory(repo, history);
      if releases.None? {
        result := result.(error := Some(HistoryUnreadable));
        return;
      }
      var choice := ResolveRollbackTarget(releases.value, mode, currentBefore);
      if choice.Failure? {
        result := result.(error := Some(TargetRefused(choice.error)));
        return;
      }
      var knownGood := CommitOf(releases.value[choice.value]);
      if knownGood.None? || !Readable(repo, knownGood.value) {
        result := result.(error := Some(TargetUnreadable));
        return;
      }
      var target := knownGood.value;
      if target == currentBefore {
        result := result.(error := Some(AlreadyLive));
        return;
      }
      result := result.(target := Some(target));
      var currentNames := MigrationsAt(repo, currentBefore);
      var targetNames := MigrationsAt(repo, target);
      var schemaChanged := MigrationSetsDiffer(currentNames, targetNames);
      result := result.(schemaChanged := schemaChanged);
      var warning := CompareMigrationSets(currentNames, targetNames);
      if warning.Some? {
        if mode != RecoveryMode {
          result := result.(error := Some(NewerMigrations));
          return;
        }
        result := result.(warning := warning);
      }
      var checkedOut := CheckoutTarget(target, s.checkout);
      if !checkedOut {
        result := result.(error := Some(CheckoutFailed));
        return;
      }
      var entrypointOk := RunEntrypoint(s.entrypoint);
      if !entrypointOk {
        result := result.(error := Some(EntrypointFailed));
        return;
      }
      if !s.healthy {
        result := result.(error := Some(HealthCheckFailed));
        return;
      }
      var final := head;
      var mismatch := RevisionMismatch(repo, target, final, s.liveRevision);
      if mismatch.Some? {
        result := result.(error := mismatch);
        return;
      }
      var entry := CreateReleaseEntry(RollbackOperation, currentBefore, final, target, schemaChanged);
      var writeError := UpdateKnownGoodState(entry, s.writes);
      result := result.(historyUpdated := writeError.None?, error := writeError);
    }
  }
}
