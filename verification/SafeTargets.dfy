/**
 How far back previous_safe can reach. While the flags tell the truth and migrations only
 accumulate, it is one record.
*/
module SafeTargets {
  import opened Wrappers
  import opened MigrationSets
  import opened ReleaseHistory
  import opened ReleaseController
  import opened ReleaseSteps
  import opened DatabaseCoverage
  import opened ReleaseLedger

  /** The migration directories of a commit have different names. */
  predicate DistinctNames(repo: Repo) {
    forall c :: c in repo ==> NoDuplicates(repo[c].migrations)
  }

  predicate AllNamed(releases: seq<Release>) {
    forall i :: 0 <= i < |releases| ==> CommitOf(releases[i]).Some?
  }

  function SetOf(repo: Repo, release: Release): set<Name>
    requires CommitOf(release).Some?
  {
    MigrationSetAt(repo, CommitOf(release).value)
  }

  predicate Includes(repo: Repo, earlier: Release, later: Release)
    requires CommitOf(earlier).Some? && CommitOf(later).Some?
  {
    SetOf(repo, earlier) <= SetOf(repo, later)
  }

  /** No record has a migration that a later record lacks. */
  predicate Accumulating(repo: Repo, releases: seq<Release>) {
    && AllNamed(releases)
    && forall i, j {:trigger Includes(repo, releases[i], releases[j])} ::
         0 <= i <= j < |releases| ==> Includes(repo, releases[i], releases[j])
  }

  /** A flag that can be derived again says whether the record before has the same migrations. */
  lemma RegainedFlag(repo: Repo, releases: seq<Release>, i: nat)
    requires DistinctNames(repo) && AllNamed(releases) && FlagsRegained(repo, releases, 0)
    requires 0 < i < |releases|
    ensures FlaggedSafe(releases[i]) <==> SetOf(repo, releases[i - 1]) == SetOf(repo, releases[i])
  {
    var bare := Stripped(releases);
    var a, b := CommitOf(releases[i - 1]).value, CommitOf(releases[i]).value;
    assert Regained(repo, releases)[i];
    assert bare[i] == WithoutFlags(releases[i]) && bare[i - 1] == WithoutFlags(releases[i - 1]);
    assert NormalizedRelease(repo, bare, i) == WithFlags(bare[i], SchemaChange(repo, a, b));
    if SchemaChange(repo, a, b) {
      if MigrationSetAt(repo, a) == MigrationSetAt(repo, b) {
        SameSetSameList(repo, a, b);
      }
    } else {
      EqualListsEqualSets(repo, a, b);
    }
  }

  /** The record and the one before it have the live migrations. The first of the file needs its flag. */
  predicate UnchangedAround(repo: Repo, releases: seq<Release>, head: Commit, t: nat)
    requires t < |releases| && AllNamed(releases)
  {
    && SetOf(repo, releases[t]) == MigrationSetAt(repo, head)
    && (if t == 0 then FlaggedSafe(releases[0]) else SetOf(repo, releases[t - 1]) == MigrationSetAt(repo, head))
  }

  /**
   The commit is on the record directly before the last one of HEAD, has HEAD's migrations,
   and so has the record before that, unless it is the first of the file.
  */
  ghost predicate OneBack(repo: Repo, releases: seq<Release>, head: Commit, target: Commit)
    requires AllNamed(releases)
  {
    && target != head
    && Readable(repo, target)
    && exists live: nat :: IsBeforeLive(repo, releases, head, target, live)
  }

  predicate IsBeforeLive(repo: Repo, releases: seq<Release>, head: Commit, target: Commit, live: nat)
    requires AllNamed(releases)
  {
    && 0 < live < |releases|
    && releases[live].commit == Some(head)
    && (forall j :: live < j < |releases| ==> releases[j].commit != Some(head))
    && releases[live - 1].commit == Some(target)
    && UnchangedAround(repo, releases, head, live - 1)
  }

  predicate FlagTellsTheTruth(repo: Repo, releases: seq<Release>, i: nat)
    requires AllNamed(releases) && 0 < i < |releases|
  {
    FlaggedSafe(releases[i]) <==> SetOf(repo, releases[i - 1]) == SetOf(repo, releases[i])
  }

  predicate TruthfulFlags(repo: Repo, releases: seq<Release>)
    requires AllNamed(releases)
  {
    forall i {:trigger FlagTellsTheTruth(repo, releases, i)} ::
      0 < i < |releases| ==> FlagTellsTheTruth(repo, releases, i)
  }

  lemma RegainedFlagsAreTruthful(repo: Repo, releases: seq<Release>)
    requires DistinctNames(repo) && AllNamed(releases) && FlagsRegained(repo, releases, 0)
    ensures TruthfulFlags(repo, releases)
  {
    forall i | 0 < i < |releases| ensures FlagTellsTheTruth(repo, releases, i) {
      RegainedFlag(repo, releases, i);
    }
  }

  lemma SafePositionIsOneBack(repo: Repo, releases: seq<Release>, head: Commit, live: nat, t: nat)
    requires Accumulating(repo, releases) && TruthfulFlags(repo, releases)
    requires LastRecord(releases, head, live) && t < live
    requires forall j :: t < j < live ==> !FlaggedSafe(releases[j])
    requires MigrationSetAt(repo, head) <= SetOf(repo, releases[t])
    ensures t == live - 1 && SetOf(repo, releases[t]) == MigrationSetAt(repo, head)
  {
    assert Includes(repo, releases[t], releases[live]);
    assert Includes(repo, releases[t], releases[t + 1]) && Includes(repo, releases[t + 1], releases[live]);
    assert FlagTellsTheTruth(repo, releases, t + 1);
  }

  lemma FlaggedWhereUnchanged(repo: Repo, releases: seq<Release>, head: Commit, t: nat)
    requires AllNamed(releases) && TruthfulFlags(repo, releases)
    requires t < |releases| && SetOf(repo, releases[t]) == MigrationSetAt(repo, head)
    ensures FlaggedSafe(releases[t]) <==> UnchangedAround(repo, releases, head, t)
  {
    if t > 0 {
      assert FlagTellsTheTruth(repo, releases, t);
    }
  }

  lemma AllowedPositionIsOneBack(repo: Repo, releases: seq<Release>, head: Commit, t: nat) returns (live: nat)
    requires Accumulating(repo, releases) && TruthfulFlags(repo, releases)
    requires TargetPosition(releases, head, PreviousSafe, t)
    requires t < |releases| && MigrationSetAt(repo, head) <= SetOf(repo, releases[t])
    ensures LastRecord(releases, head, live) && t == live - 1
    ensures UnchangedAround(repo, releases, head, t)
  {
    live :| LastRecord(releases, head, live) && t < live
      && FlaggedSafe(releases[t]) && forall j :: t < j < live ==> !FlaggedSafe(releases[j]);
    SafePositionIsOneBack(repo, releases, head, live, t);
    FlaggedWhereUnchanged(repo, releases, head, t);
  }

  lemma BeforeLiveIsOneBack(repo: Repo, releases: seq<Release>, head: Commit, target: Commit, live: nat)
    requires AllNamed(releases) && 0 < live && LastRecord(releases, head, live)
    requires CommitOf(releases[live - 1]) == Some(target) && UnchangedAround(repo, releases, head, live - 1)
    requires target != head && Readable(repo, target)
    ensures OneBack(repo, releases, head, target)
  {
    assert IsBeforeLive(repo, releases, head, target, live);
  }

  lemma AllowedIsOneBack(repo: Repo, releases: seq<Release>, head: Commit, target: Commit)
    requires Accumulating(repo, releases) && TruthfulFlags(repo, releases)
    requires MayRollBackTo(repo, releases, head, PreviousSafe, target)
    ensures OneBack(repo, releases, head, target)
  {
    var t: nat :| TargetPosition(releases, head, PreviousSafe, t) && CommitOf(releases[t]) == Some(target);
    var live := AllowedPositionIsOneBack(repo, releases, head, t);
    BeforeLiveIsOneBack(repo, releases, head, target, live);
  }

  lemma FlaggedBeforeLiveIsTarget(releases: seq<Release>, head: Commit, live: nat)
    requires 0 < live && LastRecord(releases, head, live) && FlaggedSafe(releases[live - 1])
    ensures TargetPosition(releases, head, PreviousSafe, live - 1)
  {
  }

  lemma PositionIsAllowed(repo: Repo, releases: seq<Release>, head: Commit, target: Commit, t: nat)
    requires TargetPosition(releases, head, PreviousSafe, t)
    requires t < |releases| && CommitOf(releases[t]) == Some(target)
    requires target != head && Readable(repo, target)
    requires MigrationSetAt(repo, head) == MigrationSetAt(repo, target)
    ensures MayRollBackTo(repo, releases, head, PreviousSafe, target)
  {
  }

  lemma OneBackIsAllowed(repo: Repo, releases: seq<Release>, head: Commit, target: Commit)
    requires AllNamed(releases) && TruthfulFlags(repo, releases)
    requires OneBack(repo, releases, head, target)
    ensures MayRollBackTo(repo, releases, head, PreviousSafe, target)
  {
    var live: nat :| IsBeforeLive(repo, releases, head, target, live);
    FlaggedWhereUnchanged(repo, releases, head, live - 1);
    FlaggedBeforeLiveIsTarget(releases, head, live);
    PositionIsAllowed(repo, releases, head, target, live - 1);
  }

  /**
   On a list of accumulating migrations whose flags can be derived again, previous_safe may
   roll back to a commit if and only if it lies one record back with unchanged migrations
   around it. A release further back is out of reach, even one with exactly the live migrations.
  */
  lemma PreviousSafeReachesOneBack(repo: Repo, releases: seq<Release>, head: Commit, target: Commit)
    requires DistinctNames(repo) && Accumulating(repo, releases) && FlagsRegained(repo, releases, 0)
    ensures MayRollBackTo(repo, releases, head, PreviousSafe, target) <==> OneBack(repo, releases, head, target)
  {
    RegainedFlagsAreTruthful(repo, releases);
    if MayRollBackTo(repo, releases, head, PreviousSafe, target) {
      AllowedIsOneBack(repo, releases, head, target);
    }
    if OneBack(repo, releases, head, target) {
      OneBackIsAllowed(repo, releases, head, target);
    }
  }

  lemma AppendAccumulates(repo: Repo, releases: seq<Release>, entry: Release)
    requires Accumulating(repo, releases) && CommitOf(entry).Some?
    requires forall i :: 0 <= i < |releases| ==> SetOf(repo, releases[i]) <= SetOf(repo, entry)
    ensures Accumulating(repo, releases + [entry])
  {
    var all := releases + [entry];
    forall i, j | 0 <= i <= j < |all| ensures Includes(repo, all[i], all[j]) {
      if j < |releases| {
        assert Includes(repo, releases[i], releases[j]);
      }
    }
  }

  lemma StepAccumulates(repo: Repo, w: World, a: Action)
    requires Ascending(repo, w) && SafeRun(repo, w, [a])
    requires ReadHistory(repo, w.history).Some? && Accumulating(repo, ReadHistory(repo, w.history).value)
    ensures var after := Next(repo, w, a);
      && Ascending(repo, after)
      && ReadHistory(repo, after.history).Some?
      && Accumulating(repo, ReadHistory(repo, after.history).value)
  {
    StepKeepsAscending(repo, w, a);
    StepRecords(repo, w, a);
    if Records(repo, w, a) {
      RecordingCall(repo, w, a);
      RecordAccumulates(repo, w, a, Next(repo, w, a));
    }
  }

  lemma RecordAccumulates(repo: Repo, w: World, a: Action, after: World)
    requires ReadHistory(repo, w.history).Some? && Accumulating(repo, ReadHistory(repo, w.history).value)
    requires RecordLeft(repo, w, a, after) && Ascending(repo, after)
    ensures Accumulating(repo, ReadHistory(repo, after.history).value)
  {
    var h, h' := ReadHistory(repo, w.history).value, ReadHistory(repo, after.history).value;
    forall i | 0 <= i < |h| ensures SetOf(repo, h[i]) <= SetOf(repo, h'[|h|]) {
      assert h'[i] == h[i] && CommitOf(after.history.entries[i]) == CommitOf(h'[i]);
    }
    AppendAccumulates(repo, h, h'[|h|]);
    assert h' == h + [h'[|h|]];
  }

  lemma {:induction false} RunAccumulates(repo: Repo, w: World, actions: seq<Action>)
    requires Ascending(repo, w) && SafeRun(repo, w, actions)
    requires ReadHistory(repo, w.history).Some? && Accumulating(repo, ReadHistory(repo, w.history).value)
    ensures var end := Run(repo, w, actions);
      && ReadHistory(repo, end.history).Some?
      && Accumulating(repo, ReadHistory(repo, end.history).value)
    decreases |actions|
  {
    if actions != [] {
      StepAccumulates(repo, w, actions[0]);
      RunAccumulates(repo, Next(repo, w, actions[0]), actions[1..]);
    }
  }

  /**
   After any run of deploys and previous_safe rollbacks in which main only grows and every
   recording call found the last record and HEAD in agreement: the only commit previous_safe
   may go to is the one recorded directly before, under the condition of `OneBack`.
  */
  lemma PreviousSafeReachesOneBackAfterRuns(repo: Repo, w: World, actions: seq<Action>, target: Commit)
    requires DistinctNames(repo) && Ascending(repo, w)
    requires SafeRun(repo, w, actions) && AgreeingRun(repo, w, actions)
    requires ReadHistory(repo, w.history).Some?
    requires var h := ReadHistory(repo, w.history).value; Accumulating(repo, h) && FlagsRegained(repo, h, 0)
    ensures var end := Run(repo, w, actions);
      && ReadHistory(repo, end.history).Some?
      && var h := ReadHistory(repo, end.history).value;
      && AllNamed(h)
      && (MayRollBackTo(repo, h, end.head, PreviousSafe, target) <==> OneBack(repo, h, end.head, target))
  {
    var end := Run(repo, w, actions);
    RunAccumulates(repo, w, actions);
    FlagsRegainedExactlyWhen(repo, w, actions, 0);
    PreviousSafeReachesOneBack(repo, ReadHistory(repo, end.history).value, end.head, target);
  }
}
