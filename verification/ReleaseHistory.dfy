/**
 The known-good release history: the entries of `successful-releases.json`, how
 `readSuccessHistory` fills in the flags of entries written before the flags existed, and
 how a rollback picks its target from it.
*/
module ReleaseHistory {
  import opened Wrappers
  import opened MigrationSets

  type Commit = string

  /** What git knows of a commit: its short name, whether it holds package.json, its migration directories. */
  datatype CommitInfo = CommitInfo(shortCommit: string, hasManifest: bool, migrations: seq<Name>)

  /** The object store. A commit never changes, so one map serves a whole run. */
  type Repo = map<Commit, CommitInfo>

  datatype Operation = DeployOperation | RollbackOperation

  /**
   One element of `releases`. `NotAnObject` stands for any JSON value that is not an
   object; a flag that is not a boolean, or a commit that is missing or empty, is None.
  */
  datatype Release =
    | NotAnObject
    | Entry(
        commit: Option<Commit>,
        schemaChanged: Option<bool>,
        rollbackSafe: Option<bool>,
        operation: Option<Operation>,
        currentBeforeCommit: Option<Commit>,
        targetCommit: Option<Commit>)

  /** `readMigrationNamesAtRef`: a commit git cannot list has no migrations. */
  function MigrationsAt(repo: Repo, commit: Commit): seq<Name> {
    if commit in repo then SortNames(repo[commit].migrations) else []
  }

  function MigrationSetAt(repo: Repo, commit: Commit): set<Name> {
    NameSet(MigrationsAt(repo, commit))
  }

  /** A commit's migrations are its directory names in dictionary order; one git cannot list has none. */
  lemma MigrationsListed(repo: Repo, commit: Commit)
    ensures Sorted(MigrationsAt(repo, commit))
    ensures MigrationSetAt(repo, commit) == if commit in repo then set n | n in repo[commit].migrations else {}
    ensures |MigrationsAt(repo, commit)| == if commit in repo then |repo[commit].migrations| else 0
  {
    if commit in repo {
      SortNamesSorts(repo[commit].migrations);
      SortKeepsNames(repo[commit].migrations);
    }
  }

  /** Would moving from one commit to the other change the migration list? */
  predicate SchemaChange(repo: Repo, from: Commit, to: Commit) {
    MigrationSetsDiffer(MigrationsAt(repo, from), MigrationsAt(repo, to))
  }

  /** `release?.commit` */
  function CommitOf(release: Release): Option<Commit> {
    if release.NotAnObject? then None else release.commit
  }

  /** `candidate?.rollbackSafe === true` */
  predicate FlaggedSafe(release: Release) {
    release.Entry? && release.rollbackSafe == Some(true)
  }

  predicate HasFlags(release: Release) {
    release.Entry? && release.schemaChanged.Some? && release.rollbackSafe.Some?
  }

  function WithFlags(release: Release, schemaChanged: bool): Release
    requires release.Entry?
  {
    release.(schemaChanged := Some(schemaChanged), rollbackSafe := Some(!schemaChanged))
  }

  /** The callback of `history.releases.map` in `readSuccessHistory`. */
  function NormalizedRelease(repo: Repo, releases: seq<Release>, index: nat): Release
    requires index < |releases|
  {
    var release := releases[index];
    if release.NotAnObject? || HasFlags(release) then release
    else if index == 0 then WithFlags(release, false)
    else
      var previous := CommitOf(releases[index - 1]);
      if previous.None? || release.commit.None? then WithFlags(release, false)
      else WithFlags(release, SchemaChange(repo, previous.value, release.commit.value))
  }

  /** The list `readSuccessHistory` returns. */
  function Normalized(repo: Repo, releases: seq<Release>): (r: seq<Release>)
    ensures |r| == |releases|
    ensures forall i :: 0 <= i < |r| ==> CommitOf(r[i]) == CommitOf(releases[i])
    ensures forall i :: 0 <= i < |r| ==> r[i].NotAnObject? || HasFlags(r[i])
  {
    seq(|releases|, i requires 0 <= i < |releases| => NormalizedRelease(repo, releases, i))
  }

  /**
   What an entry reads as. Anything but an object, and an entry with both flags, reads as
   itself. Of any other entry only the flags are set, both from one question: is there an
   entry before it, do both name a commit, and do these two have different migration lists?
  */
  lemma NormalizedEntry(repo: Repo, releases: seq<Release>, i: nat)
    requires i < |releases|
    ensures var before, after := releases[i], Normalized(repo, releases)[i];
      && (before.NotAnObject? ==> after == before)
      && (before.Entry? && before.schemaChanged.Some? && before.rollbackSafe.Some? ==> after == before)
      && (before.Entry? && (before.schemaChanged.None? || before.rollbackSafe.None?) ==>
            var changed :=
              && i > 0 && before.commit.Some?
              && releases[i - 1].Entry? && releases[i - 1].commit.Some?
              && MigrationsAt(repo, releases[i - 1].commit.value) != MigrationsAt(repo, before.commit.value);
            after == Entry(before.commit, Some(changed), Some(!changed),
                           before.operation, before.currentBeforeCommit, before.targetCommit))
  {
    if i > 0 && releases[i].Entry? && releases[i].commit.Some?
       && releases[i - 1].Entry? && releases[i - 1].commit.Some? {
      DifferIsUnequal(
        MigrationsAt(repo, releases[i - 1].commit.value), MigrationsAt(repo, releases[i].commit.value));
    }
  }

  lemma DifferIsUnequal(left: seq<Name>, right: seq<Name>)
    ensures MigrationSetsDiffer(left, right) <==> left != right
  {
  }

  /** Reading what was read changes nothing more. */
  lemma NormalizedIsIdempotent(repo: Repo, releases: seq<Release>)
    ensures Normalized(repo, Normalized(repo, releases)) == Normalized(repo, releases)
  {
  }

  /** An entry that carries its flags can be appended before or after normalising. */
  lemma NormalizedAppend(repo: Repo, releases: seq<Release>, entry: Release)
    requires HasFlags(entry)
    ensures Normalized(repo, releases + [entry]) == Normalized(repo, releases) + [entry]
  {
    forall i | 0 <= i < |releases|
      ensures NormalizedRelease(repo, releases + [entry], i) == NormalizedRelease(repo, releases, i)
    {
    }
  }

  /** The entry as a controller without the two flags would have written it. */
  function WithoutFlags(release: Release): Release {
    if release.NotAnObject? then release
    else release.(schemaChanged := None, rollbackSafe := None)
  }

  function Stripped(releases: seq<Release>): (r: seq<Release>)
    ensures |r| == |releases|
    ensures forall i :: 0 <= i < |r| ==> r[i] == WithoutFlags(releases[i])
  {
    seq(|releases|, i requires 0 <= i < |releases| => WithoutFlags(releases[i]))
  }

  /** The last position that records the commit, or -1. */
  function LastIndexOf(releases: seq<Release>, commit: Commit): (index: int)
    ensures -1 <= index < |releases|
    ensures index >= 0 ==> CommitOf(releases[index]) == Some(commit)
    ensures forall j :: index < j < |releases| ==> CommitOf(releases[j]) != Some(commit)
  {
    if releases == [] then -1
    else if CommitOf(releases[|releases| - 1]) == Some(commit) then |releases| - 1
    else LastIndexOf(releases[..|releases| - 1], commit)
  }

  /** The last flagged position below the bound, or -1. */
  function LastFlaggedBelow(releases: seq<Release>, bound: nat): (index: int)
    requires bound <= |releases|
    ensures -1 <= index < bound
    ensures index >= 0 ==> FlaggedSafe(releases[index])
    ensures forall j :: index < j < bound ==> !FlaggedSafe(releases[j])
  {
    if bound == 0 then -1
    else if FlaggedSafe(releases[bound - 1]) then bound - 1
    else LastFlaggedBelow(releases, bound - 1)
  }

  lemma LastIndexIsUnique(releases: seq<Release>, commit: Commit, index: int)
    requires 0 <= index < |releases| && CommitOf(releases[index]) == Some(commit)
    requires forall j :: index < j < |releases| ==> CommitOf(releases[j]) != Some(commit)
    ensures LastIndexOf(releases, commit) == index
  {
  }

  lemma LastFlaggedIsUnique(releases: seq<Release>, bound: nat, index: int)
    requires 0 <= index < bound <= |releases| && FlaggedSafe(releases[index])
    requires forall j :: index < j < bound ==> !FlaggedSafe(releases[j])
    ensures LastFlaggedBelow(releases, bound) == index
  {
  }

  datatype Mode = PreviousSafe | RecoveryMode

  datatype SelectionError =
    | NoHistory
    | CurrentNotRecorded
    | NoEarlierRelease
    | NoSafeRelease

  /** `resolveRollbackTarget` on the list `readSuccessHistory` returned. */
  function RollbackTarget(releases: seq<Release>, mode: Mode, current: Commit): Result<nat, SelectionError> {
    var currentIndex := LastIndexOf(releases, current);
    if |releases| == 0 then Failure(NoHistory)
    else if currentIndex == -1 then Failure(CurrentNotRecorded)
    else if currentIndex == 0 then Failure(NoEarlierRelease)
    else if mode == RecoveryMode then Success(currentIndex - 1)
    else
      var safe := LastFlaggedBelow(releases, currentIndex);
      if safe == -1 then Failure(NoSafeRelease) else Success(safe)
  }

  /** Which refusal: the list is empty, names the live commit nowhere or only first, or has no flag below it. */
  lemma RefusedExactlyWhen(releases: seq<Release>, mode: Mode, current: Commit)
    ensures var choice, live := RollbackTarget(releases, mode, current), LastIndexOf(releases, current);
      && (choice == Failure(NoHistory) <==> releases == [])
      && (choice == Failure(CurrentNotRecorded) <==>
            releases != [] && forall k :: 0 <= k < |releases| && releases[k].Entry? ==>
              releases[k].commit != Some(current))
      && (choice == Failure(NoEarlierRelease) <==>
            && releases != [] && releases[0].Entry? && releases[0].commit == Some(current)
            && forall k :: 0 < k < |releases| && releases[k].Entry? ==> releases[k].commit != Some(current))
      && (choice == Failure(NoSafeRelease) <==>
            && mode == PreviousSafe && live > 0
            && forall k :: 0 <= k < live && releases[k].Entry? ==> releases[k].rollbackSafe != Some(true))
  {
  }

  /**
   A first entry from before the flags existed counts as safe. So previous_safe finds a
   target wherever the live commit is recorded after it.
  */
  lemma FirstLegacyRecordIsATarget(repo: Repo, releases: seq<Release>, current: Commit)
    requires releases != [] && releases[0].Entry?
    requires releases[0].schemaChanged.None? || releases[0].rollbackSafe.None?
    ensures Normalized(repo, releases)[0] == releases[0].(schemaChanged := Some(false), rollbackSafe := Some(true))
    ensures (exists k :: 0 < k < |releases| && releases[k].Entry? && releases[k].commit == Some(current)) ==>
      RollbackTarget(Normalized(repo, releases), PreviousSafe, current).Success?
  {
    var h := Normalized(repo, releases);
    NormalizedEntry(repo, releases, 0);
    if k :| 0 < k < |releases| && releases[k].Entry? && releases[k].commit == Some(current) {
      assert CommitOf(h[k]) == CommitOf(releases[k]);
      assert LastIndexOf(h, current) >= k;
      assert FlaggedSafe(h[0]);
    }
  }

  /** The downward loop of `findReleaseIndexForCommit`. */
  method FindReleaseIndexForCommit(releases: seq<Release>, commit: Commit) returns (index: int)
    ensures -1 <= index < |releases|
    ensures index >= 0 ==> releases[index].Entry? && releases[index].commit == Some(commit)
    ensures forall j :: index < j < |releases| && releases[j].Entry? ==> releases[j].commit != Some(commit)
    ensures index == LastIndexOf(releases, commit)
  {
    index := |releases| - 1;
    while index >= 0
      invariant -1 <= index < |releases|
      invariant forall j :: index < j < |releases| ==> CommitOf(releases[j]) != Some(commit)
    {
      if CommitOf(releases[index]) == Some(commit) {
        LastIndexIsUnique(releases, commit, index);
        return;
      }
      index := index - 1;
    }
  }

  /** `resolveRollbackTarget`: the chosen position, by the two downward loops. */
  method ResolveRollbackTarget(releases: seq<Release>, mode: Mode, current: Commit)
    returns (target: Result<nat, SelectionError>)
    ensures target == RollbackTarget(releases, mode, current)
    ensures target.Success? ==>
      && target.value < |releases|
      && (exists k :: target.value < k < |releases| && releases[k].Entry? && releases[k].commit == Some(current))
    ensures target.Success? && mode == PreviousSafe ==>
      releases[target.value].Entry? && releases[target.value].rollbackSafe == Some(true)
  {
    if |releases| == 0 {
      return Failure(NoHistory);
    }
    var currentIndex := FindReleaseIndexForCommit(releases, current);
    if currentIndex == -1 {
      return Failure(CurrentNotRecorded);
    }
    if currentIndex == 0 {
      return Failure(NoEarlierRelease);
    }
    if mode == RecoveryMode {
      return Success(currentIndex - 1);
    }
    var index := currentIndex - 1;
    while index >= 0
      invariant -1 <= index < currentIndex
      invariant forall j :: index < j < currentIndex ==> !FlaggedSafe(releases[j])
    {
      if FlaggedSafe(releases[index]) {
        return Success(index);
      }
      index := index - 1;
    }
    return Failure(NoSafeRelease);
  }
}
