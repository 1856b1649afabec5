/**
 The two durable release files over whole runs: the history only grows, by one record per
 success; current-release.json trails it by the writes that were cut short; and the flags
 that a newer controller stores can be derived again from the commits alone.
*/
module ReleaseLedger {
  import opened Wrappers
  import opened MigrationSets
  import opened BackupGuard
  import opened ReleaseHistory
  import opened ReleaseController
  import opened ReleaseSteps

  /** Did the action add a record to the history file? */
  predicate Records(repo: Repo, w: World, a: Action) {
    CallSucceeds(repo, w, a) || HalfWritten(repo, w, a)
  }

  lemma ReadingBackAppended(repo: Repo, file: HistoryFile, entry: Release)
    requires ReadHistory(repo, file).Some? && HasFlags(entry)
    ensures var h := ReadHistory(repo, file).value;
      ReadHistory(repo, Releases(h + [entry])) == Some(h + [entry])
  {
    var h := ReadHistory(repo, file).value;
    NormalizedAppend(repo, h, entry);
    if file.Releases? {
      NormalizedIsIdempotent(repo, file.entries);
    }
  }

  /** What the common part of both calls does to the two files. */
  lemma PerformReleaseRecords(
    repo: Repo, w: World, operation: Operation, target: Commit, r: StepResult, s: Surroundings)
    requires Readable(repo, target) && r.error.None? && ReadHistory(repo, w.history).Some?
    ensures var o, h := PerformRelease(repo, w, operation, target, r, s), ReadHistory(repo, w.history).value;
      var final := if s.entrypoint.pulled.Some? then s.entrypoint.pulled.value else target;
      var entry := CreateReleaseEntry(operation, w.head, final, target, r.schemaChanged);
      var half := o.result.error == Some(StateNotWritten) && s.writes == HistoryOnly;
      && (o.result.Succeeded() || half ==> o.world.history == Releases(h + [entry]))
      && (o.result.Succeeded() ==> o.world.currentRelease == Some(entry))
      && (!o.result.Succeeded() ==> o.world.currentRelease == w.currentRelease)
      && (!o.result.Succeeded() && !half ==> o.world.history == w.history)
  {
  }

  /** The history as read either stays or gains one flagged record, which a success also makes current. */
  predicate RecordsOnce(repo: Repo, w: World, after: World, records: bool, succeeds: bool)
    requires ReadHistory(repo, w.history).Some?
  {
    var h := ReadHistory(repo, w.history).value;
    && ReadHistory(repo, after.history).Some?
    && var h' := ReadHistory(repo, after.history).value;
    && (!records ==> after.history == w.history)
    && (records ==> |h'| == |h| + 1 && h' == h + [h'[|h|]] && HasFlags(h'[|h|]))
    && (succeeds ==> records)
    && after.currentRelease == (if succeeds then Some(h'[|h|]) else w.currentRelease)
  }

  lemma PerformReleaseRecordsOnce(
    repo: Repo, w: World, operation: Operation, target: Commit, r: StepResult, s: Surroundings)
    requires Readable(repo, target) && r.error.None? && ReadHistory(repo, w.history).Some?
    ensures var o := PerformRelease(repo, w, operation, target, r, s);
      var half := o.result.error == Some(StateNotWritten) && s.writes == HistoryOnly;
      RecordsOnce(repo, w, o.world, o.result.Succeeded() || half, o.result.Succeeded())
  {
    PerformReleaseRecords(repo, w, operation, target, r, s);
    var final := if s.entrypoint.pulled.Some? then s.entrypoint.pulled.value else target;
    ReadingBackAppended(repo, w.history, CreateReleaseEntry(operation, w.head, final, target, r.schemaChanged));
  }

  lemma DeployRecords(repo: Repo, w: World, s: Surroundings)
    requires ReadHistory(repo, w.history).Some?
    ensures var a := DeployCall(s);
      RecordsOnce(repo, w, Next(repo, w, a), Records(repo, w, a), CallSucceeds(repo, w, a))
  {
    DeployUnfolds(repo, w, s);
    if DeployProceeds(repo, w, s) {
      var target := s.fetched.value;
      var r := StepResult(Some(target), SchemaChange(repo, w.head, target), None, false, None);
      PerformReleaseRecordsOnce(repo, Fetched(w, s), DeployOperation, target, r, s);
    }
  }

  /** Fetching main first does not touch the files. */
  lemma FetchedRecordsOnce(repo: Repo, w: World, s: Surroundings, after: World, records: bool, succeeds: bool)
    requires ReadHistory(repo, w.history).Some?
    ensures RecordsOnce(repo, Fetched(w, s), after, records, succeeds) <==>
            RecordsOnce(repo, w, after, records, succeeds)
  {
  }

  lemma ProceedingRollbackRecordsOnce(repo: Repo, w: World, mode: Mode, s: Surroundings, o: Outcome)
    requires RollbackProceeds(repo, w, mode, s) && ReadHistory(repo, w.history).Some?
    requires o == PerformRelease(repo, Fetched(w, s), RollbackOperation,
                                 ChosenTarget(repo, w, mode).value, RollbackNotes(repo, w, mode), s)
    ensures var half := o.result.error == Some(StateNotWritten) && s.writes == HistoryOnly;
      RecordsOnce(repo, w, o.world, o.result.Succeeded() || half, o.result.Succeeded())
  {
    PerformReleaseRecordsOnce(repo, Fetched(w, s), RollbackOperation,
      ChosenTarget(repo, w, mode).value, RollbackNotes(repo, w, mode), s);
    var half := o.result.error == Some(StateNotWritten) && s.writes == HistoryOnly;
    FetchedRecordsOnce(repo, w, s, o.world, o.result.Succeeded() || half, o.result.Succeeded());
  }

  lemma RollbackRecords(repo: Repo, w: World, mode: Mode, s: Surroundings)
    requires ReadHistory(repo, w.history).Some?
    ensures var a := RollbackCall(mode, s);
      RecordsOnce(repo, w, Next(repo, w, a), Records(repo, w, a), CallSucceeds(repo, w, a))
  {
    RollbackUnfolds(repo, w, mode, s);
    if RollbackProceeds(repo, w, mode, s) {
      ProceedingRollbackRecordsOnce(repo, w, mode, s, Rollback(repo, w, mode, s));
    }
  }

  lemma StepRecords(repo: Repo, w: World, a: Action)
    requires ReadHistory(repo, w.history).Some?
    ensures RecordsOnce(repo, w, Next(repo, w, a), Records(repo, w, a), CallSucceeds(repo, w, a))
  {
    match a
    case DeployCall(s) => DeployRecords(repo, w, s);
    case RollbackCall(mode, s) => RollbackRecords(repo, w, mode, s);
    case _ =>
  }

  function Successes(repo: Repo, w: World, actions: seq<Action>): nat
    decreases |actions|
  {
    if actions == [] then 0
    else (if CallSucceeds(repo, w, actions[0]) then 1 else 0)
         + Successes(repo, Next(repo, w, actions[0]), actions[1..])
  }

  function HalfWrites(repo: Repo, w: World, actions: seq<Action>): nat
    decreases |actions|
  {
    if actions == [] then 0
    else (if HalfWritten(repo, w, actions[0]) then 1 else 0)
         + HalfWrites(repo, Next(repo, w, actions[0]), actions[1..])
  }

  /** How many records current-release.json is behind, after a run that starts `lag` behind. */
  function LagAfter(repo: Repo, w: World, actions: seq<Action>, lag: nat): nat
    decreases |actions|
  {
    if actions == [] then lag
    else LagAfter(repo, Next(repo, w, actions[0]), actions[1..], NextLag(repo, w, actions[0], lag))
  }

  /** current-release.json names the record `lag` places before the last; with none left it is absent. */
  predicate CurrentLags(w: World, releases: seq<Release>, lag: nat) {
    && lag <= |releases|
    && w.currentRelease == if lag == |releases| then None else Some(releases[|releases| - 1 - lag])
  }

  /**
   Over every run, with writes cut short anywhere: the history as first read stays a prefix,
   and it gains exactly one record per success and per write that stopped between the two files.
  */
  lemma {:induction false} HistoryOnlyGrows(repo: Repo, w: World, actions: seq<Action>)
    requires ReadHistory(repo, w.history).Some?
    ensures var end, h := Run(repo, w, actions), ReadHistory(repo, w.history).value;
      && ReadHistory(repo, end.history).Some?
      && var h' := ReadHistory(repo, end.history).value;
      && h <= h'
      && |h'| == |h| + Successes(repo, w, actions) + HalfWrites(repo, w, actions)
    decreases |actions|
  {
    if actions != [] {
      StepGrows(repo, w, actions[0]);
      HistoryOnlyGrows(repo, Next(repo, w, actions[0]), actions[1..]);
    }
  }

  lemma StepGrows(repo: Repo, w: World, a: Action)
    requires ReadHistory(repo, w.history).Some?
    ensures var after, h := Next(repo, w, a), ReadHistory(repo, w.history).value;
      && ReadHistory(repo, after.history).Some?
      && var h' := ReadHistory(repo, after.history).value;
      && h <= h'
      && |h'| == |h| + (if CallSucceeds(repo, w, a) then 1 else 0) + (if HalfWritten(repo, w, a) then 1 else 0)
  {
    StepRecords(repo, w, a);
  }

  /** How far current-release.json is behind after one more action. */
  function NextLag(repo: Repo, w: World, a: Action, lag: nat): nat {
    if CallSucceeds(repo, w, a) then 0 else if HalfWritten(repo, w, a) then lag + 1 else lag
  }

  lemma RecordLags(repo: Repo, w: World, after: World, records: bool, succeeds: bool, lag: nat)
    requires ReadHistory(repo, w.history).Some?
    requires CurrentLags(w, ReadHistory(repo, w.history).value, lag)
    requires RecordsOnce(repo, w, after, records, succeeds)
    ensures CurrentLags(after, ReadHistory(repo, after.history).value,
                        if succeeds then 0 else if records then lag + 1 else lag)
  {
  }

  lemma StepLags(repo: Repo, w: World, a: Action, lag: nat)
    requires ReadHistory(repo, w.history).Some?
    requires CurrentLags(w, ReadHistory(repo, w.history).value, lag)
    ensures var after := Next(repo, w, a);
      && ReadHistory(repo, after.history).Some?
      && CurrentLags(after, ReadHistory(repo, after.history).value, NextLag(repo, w, a, lag))
  {
    StepRecords(repo, w, a);
    RecordLags(repo, w, Next(repo, w, a), Records(repo, w, a), CallSucceeds(repo, w, a), lag);
  }

  /**
   current-release.json names the record as many places before the last as there were calls
   cut short between the two writes since the last success: one such call, one place.
  */
  lemma {:induction false} CurrentReleaseTrails(repo: Repo, w: World, actions: seq<Action>, lag: nat)
    requires ReadHistory(repo, w.history).Some?
    requires CurrentLags(w, ReadHistory(repo, w.history).value, lag)
    ensures var end := Run(repo, w, actions);
      && ReadHistory(repo, end.history).Some?
      && CurrentLags(end, ReadHistory(repo, end.history).value, LagAfter(repo, w, actions, lag))
    decreases |actions|
  {
    if actions != [] {
      StepLags(repo, w, actions[0], lag);
      CurrentReleaseTrails(repo, Next(repo, w, actions[0]), actions[1..], NextLag(repo, w, actions[0], lag));
    }
  }

  predicate DurableWrites(actions: seq<Action>) {
    forall a :: a in actions && (a.DeployCall? || a.RollbackCall?) ==> a.s.writes == BothFiles
  }

  lemma {:induction false} DurableWritesAreNeverHalf(repo: Repo, w: World, actions: seq<Action>)
    requires DurableWrites(actions)
    ensures HalfWrites(repo, w, actions) == 0
    ensures LagAfter(repo, w, actions, 0) == 0
    decreases |actions|
  {
    if actions != [] {
      assert actions[0] in actions;
      DurableWritesAreNeverHalf(repo, Next(repo, w, actions[0]), actions[1..]);
    }
  }

  /**
   With durable writes: one record per success, none on failure, and current-release.json
   always equals the last record.
  */
  lemma DurableHistory(repo: Repo, w: World, actions: seq<Action>)
    requires ReadHistory(repo, w.history).Some? && DurableWrites(actions)
    requires CurrentLags(w, ReadHistory(repo, w.history).value, 0)
    ensures var end, h := Run(repo, w, actions), ReadHistory(repo, w.history).value;
      && ReadHistory(repo, end.history).Some?
      && var h' := ReadHistory(repo, end.history).value;
      && h <= h'
      && |h'| == |h| + Successes(repo, w, actions)
      && CurrentLags(end, h', 0)
  {
    HistoryOnlyGrows(repo, w, actions);
    CurrentReleaseTrails(repo, w, actions, 0);
    DurableWritesAreNeverHalf(repo, w, actions);
  }

  // ------------------------------------------------- deriving the flags again

  /** Of each record: do stripping and normalising the list give it back, stored flags and all? */
  function Regained(repo: Repo, releases: seq<Release>): (r: seq<bool>)
    ensures |r| == |releases|
  {
    seq(|releases|, i requires 0 <= i < |releases| => Normalized(repo, Stripped(releases))[i] == releases[i])
  }

  /** Every record from that position on is regained, except the first of the file. */
  predicate FlagsRegained(repo: Repo, releases: seq<Release>, from: nat) {
    AllFrom(Regained(repo, releases), from)
  }

  predicate AllFrom(answers: seq<bool>, from: nat) {
    forall i :: from <= i < |answers| && 0 < i ==> answers[i]
  }

  lemma AllFromOneMore(answers: seq<bool>, all: seq<bool>, from: nat)
    requires from <= |answers| && |all| == |answers| + 1 && all[..|answers|] == answers
    ensures AllFrom(all, from) <==> AllFrom(answers, from) && (|answers| > 0 ==> all[|answers|])
  {
    assert forall i :: 0 <= i < |answers| ==> all[i] == answers[i];
  }

  /** The schema change that normalising reads off a record and the commit recorded after it. */
  predicate ImpliedChange(repo: Repo, previous: Release, commit: Commit) {
    CommitOf(previous).Some? && SchemaChange(repo, CommitOf(previous).value, commit)
  }

  /** A record appended to a list changes nothing for the records before it. */
  lemma RegainedBefore(repo: Repo, releases: seq<Release>, entry: Release, i: nat)
    requires i < |releases|
    ensures Regained(repo, releases + [entry])[i] == Regained(repo, releases)[i]
  {
    var bare := Stripped(releases + [entry]);
    assert NormalizedRelease(repo, bare, i) == NormalizedRelease(repo, Stripped(releases), i);
  }

  /** It is itself regained exactly when it stores the change that the record before it implies. */
  lemma RegainedLast(repo: Repo, releases: seq<Release>, entry: Release)
    requires |releases| > 0
    requires CommitOf(entry).Some? && HasFlags(entry) && entry == WithFlags(entry, entry.schemaChanged.value)
    ensures Regained(repo, releases + [entry])[|releases|] <==>
            entry.schemaChanged.value == ImpliedChange(repo, releases[|releases| - 1], CommitOf(entry).value)
  {
    var bare, n := Stripped(releases + [entry]), |releases|;
    assert bare[n] == WithoutFlags(entry) && bare[n - 1] == WithoutFlags(releases[n - 1]);
    assert NormalizedRelease(repo, bare, n) ==
      WithFlags(entry, ImpliedChange(repo, releases[n - 1], CommitOf(entry).value));
  }

  lemma AppendedFlagsRegained(repo: Repo, releases: seq<Release>, entry: Release, from: nat)
    requires from <= |releases|
    requires CommitOf(entry).Some? && HasFlags(entry) && entry == WithFlags(entry, entry.schemaChanged.value)
    ensures FlagsRegained(repo, releases + [entry], from) <==>
      && FlagsRegained(repo, releases, from)
      && (|releases| > 0 ==>
            entry.schemaChanged.value == ImpliedChange(repo, releases[|releases| - 1], CommitOf(entry).value))
  {
    var answers, all := Regained(repo, releases), Regained(repo, releases + [entry]);
    forall i | 0 <= i < |releases| ensures all[i] == answers[i] {
      RegainedBefore(repo, releases, entry, i);
    }
    AllFromOneMore(answers, all, from);
    if |releases| > 0 {
      RegainedLast(repo, releases, entry);
    }
  }

  /** HEAD is the last record, if there is one. */
  predicate InLine(w: World, releases: seq<Release>) {
    |releases| > 0 ==> CommitOf(releases[|releases| - 1]) == Some(w.head)
  }

  /**
   The step succeeded and recorded the schema change of the commit it ended on, or it left
   HEAD and the history alone.
  */
  predicate StaysInLine(repo: Repo, w: World, a: Action) {
    var after, r := Next(repo, w, a), CallResult(repo, w, a);
    || (CallSucceeds(repo, w, a) && r.value.schemaChanged == SchemaChange(repo, w.head, after.head))
    || (after.head == w.head && after.history == w.history)
  }

  predicate InLineRun(repo: Repo, w: World, actions: seq<Action>)
    decreases |actions|
  {
    actions == [] ||
    (StaysInLine(repo, w, actions[0]) && InLineRun(repo, Next(repo, w, actions[0]), actions[1..]))
  }

  /** The commit a call aims at. */
  function Aimed(repo: Repo, w: World, a: Action): Option<Commit> {
    match a
    case DeployCall(s) => s.fetched
    case RollbackCall(mode, _) =>
      var choice := ChosenTarget(repo, w, mode);
      if choice.Success? then Some(choice.value) else None
    case _ => None
  }

  /** The commit a call records: a deploy's entrypoint may have pulled main on. */
  function Landed(repo: Repo, w: World, a: Action): Option<Commit> {
    if a.DeployCall? && a.s.entrypoint.pulled.Some? then a.s.entrypoint.pulled else Aimed(repo, w, a)
  }

  function OperationOf(a: Action): Operation {
    if a.DeployCall? then DeployOperation else RollbackOperation
  }

  /** What a recording call leaves: the commit it ended on, and the record that names it. */
  predicate RecordLeft(repo: Repo, w: World, a: Action, after: World)
    requires ReadHistory(repo, w.history).Some?
  {
    var target, final := Aimed(repo, w, a), Landed(repo, w, a);
    && target.Some? && final.Some?
    && after.head == final.value
    && var changed := SchemaChange(repo, w.head, target.value);
    ReadHistory(repo, after.history) == Some(ReadHistory(repo, w.history).value +
      [Entry(final, Some(changed), Some(!changed), Some(OperationOf(a)), Some(w.head), target)])
  }

  lemma PerformReleaseLeaves(
    repo: Repo, w: World, operation: Operation, target: Commit, r: StepResult, s: Surroundings)
    requires Readable(repo, target) && r.error.None?
    requires var result := PerformRelease(repo, w, operation, target, r, s).result;
      result.Succeeded() || (result.error == Some(StateNotWritten) && s.writes == HistoryOnly)
    ensures ReadHistory(repo, w.history).Some?
    ensures var after := PerformRelease(repo, w, operation, target, r, s).world;
      var final := if s.entrypoint.pulled.Some? then s.entrypoint.pulled.value else target;
      && after.head == final
      && (operation == RollbackOperation ==> final == target)
      && ReadHistory(repo, after.history) == Some(ReadHistory(repo, w.history).value +
           [CreateReleaseEntry(operation, w.head, final, target, r.schemaChanged)])
  {
    if ReadHistory(repo, w.history).Some? {
      var final := if s.entrypoint.pulled.Some? then s.entrypoint.pulled.value else target;
      PerformReleaseRecords(repo, w, operation, target, r, s);
      ReadingBackAppended(repo, w.history, CreateReleaseEntry(operation, w.head, final, target, r.schemaChanged));
    }
  }

  lemma RecordingDeploy(repo: Repo, w: World, s: Surroundings)
    requires Records(repo, w, DeployCall(s))
    ensures ReadHistory(repo, w.history).Some? && RecordLeft(repo, w, DeployCall(s), Deploy(repo, w, s).world)
  {
    DeployUnfolds(repo, w, s);
    var target := s.fetched.value;
    var r := StepResult(Some(target), SchemaChange(repo, w.head, target), None, false, None);
    PerformReleaseLeaves(repo, Fetched(w, s), DeployOperation, target, r, s);
  }

  lemma ProceedingRollbackLeaves(repo: Repo, w: World, mode: Mode, s: Surroundings, o: Outcome)
    requires RollbackProceeds(repo, w, mode, s)
    requires o == PerformRelease(repo, Fetched(w, s), RollbackOperation,
                                 ChosenTarget(repo, w, mode).value, RollbackNotes(repo, w, mode), s)
    requires o.result.Succeeded() || (o.result.error == Some(StateNotWritten) && s.writes == HistoryOnly)
    ensures ReadHistory(repo, w.history).Some?
    ensures RecordLeft(repo, w, RollbackCall(mode, s), o.world)
  {
    ChosenTargetIsReadable(repo, w, mode);
    PerformReleaseLeaves(repo, Fetched(w, s), RollbackOperation,
      ChosenTarget(repo, w, mode).value, RollbackNotes(repo, w, mode), s);
  }

  lemma RecordingRollback(repo: Repo, w: World, mode: Mode, s: Surroundings)
    requires Records(repo, w, RollbackCall(mode, s))
    ensures ReadHistory(repo, w.history).Some?
    ensures RecordLeft(repo, w, RollbackCall(mode, s), Rollback(repo, w, mode, s).world)
  {
    RollbackUnfolds(repo, w, mode, s);
    ProceedingRollbackLeaves(repo, w, mode, s, Rollback(repo, w, mode, s));
  }

  lemma RecordingCall(repo: Repo, w: World, a: Action)
    requires Records(repo, w, a)
    ensures ReadHistory(repo, w.history).Some? && RecordLeft(repo, w, a, Next(repo, w, a))
  {
    match a
    case DeployCall(s) => RecordingDeploy(repo, w, s);
    case RollbackCall(mode, s) => RecordingRollback(repo, w, mode, s);
  }

  /**
   The last record and HEAD agree about the call: moving from the one to the recorded commit
   changes the schema just when moving from the other to the target does.
  */
  predicate LastRecordAgrees(repo: Repo, w: World, a: Action) {
    var h, target, final := ReadHistory(repo, w.history), Aimed(repo, w, a), Landed(repo, w, a);
    h.Some? && |h.value| > 0 && target.Some? && final.Some? ==>
      (ImpliedChange(repo, h.value[|h.value| - 1], final.value) <==> SchemaChange(repo, w.head, target.value))
  }

  lemma RecordRegainsFlags(repo: Repo, w: World, a: Action, after: World, from: nat)
    requires ReadHistory(repo, w.history).Some? && from <= |ReadHistory(repo, w.history).value|
    requires RecordLeft(repo, w, a, after)
    ensures FlagsRegained(repo, ReadHistory(repo, after.history).value, from) <==>
            FlagsRegained(repo, ReadHistory(repo, w.history).value, from) && LastRecordAgrees(repo, w, a)
  {
    var h, target, final := ReadHistory(repo, w.history).value, Aimed(repo, w, a).value, Landed(repo, w, a).value;
    var changed := SchemaChange(repo, w.head, target);
    var entry := CreateReleaseEntry(OperationOf(a), w.head, final, target, changed);
    assert LastRecordAgrees(repo, w, a) <==> (|h| > 0 ==> changed == ImpliedChange(repo, h[|h| - 1], final));
    AppendedFlagsRegained(repo, h, entry, from);
    assert ReadHistory(repo, after.history).value == h + [entry];
  }

  /** The new record's flag is about HEAD and the target; what is read into it, about the last record. */
  lemma FlagIsTrueOfTheLastRecord(repo: Repo, w: World, a: Action, after: World)
    requires ReadHistory(repo, w.history).Some? && |ReadHistory(repo, w.history).value| > 0
    requires RecordLeft(repo, w, a, after)
    ensures var h, h' := ReadHistory(repo, w.history).value, ReadHistory(repo, after.history).value;
      var last := h[|h| - 1];
      && |h'| == |h| + 1
      && (CommitOf(last).Some? ==>
            ((FlaggedSafe(h'[|h|]) <==> !SchemaChange(repo, CommitOf(last).value, Landed(repo, w, a).value))
             <==> LastRecordAgrees(repo, w, a)))
  {
    var h, h' := ReadHistory(repo, w.history).value, ReadHistory(repo, after.history).value;
    assert FlaggedSafe(h'[|h|]) <==> !SchemaChange(repo, w.head, Aimed(repo, w, a).value);
  }

  /**
   One call that adds a record, whether it succeeds or is cut short between the two writes.
   The flags it stores can be derived again exactly when the last record and HEAD agree about
   it; and exactly then does its rollback-safe flag tell whether its migrations are those of
   the release recorded before it, which is what previous_safe is documented to look for.
  */
  lemma RecordRegainsItsFlagsExactlyWhen(repo: Repo, w: World, a: Action)
    requires Records(repo, w, a)
    requires ReadHistory(repo, w.history).Some? && |ReadHistory(repo, w.history).value| > 0
    ensures ReadHistory(repo, Next(repo, w, a).history).Some? && Landed(repo, w, a).Some?
    ensures var h, h' := ReadHistory(repo, w.history).value, ReadHistory(repo, Next(repo, w, a).history).value;
      var last := h[|h| - 1];
      && |h'| == |h| + 1
      && (FlagsRegained(repo, h', |h|) <==> LastRecordAgrees(repo, w, a))
      && (CommitOf(last).Some? ==>
            ((FlaggedSafe(h'[|h|]) <==> !SchemaChange(repo, CommitOf(last).value, Landed(repo, w, a).value))
             <==> LastRecordAgrees(repo, w, a)))
  {
    RecordingCall(repo, w, a);
    RecordRegainsFlags(repo, w, a, Next(repo, w, a), |ReadHistory(repo, w.history).value|);
    FlagIsTrueOfTheLastRecord(repo, w, a, Next(repo, w, a));
  }

  /** Every call of the run that adds a record finds the last record and HEAD in agreement. */
  predicate AgreeingRun(repo: Repo, w: World, actions: seq<Action>)
    decreases |actions|
  {
    actions == [] ||
    ((Records(repo, w, actions[0]) ==> LastRecordAgrees(repo, w, actions[0]))
     && AgreeingRun(repo, Next(repo, w, actions[0]), actions[1..]))
  }

  lemma StepRegainsFlags(repo: Repo, w: World, a: Action, from: nat)
    requires ReadHistory(repo, w.history).Some? && from <= |ReadHistory(repo, w.history).value|
    ensures var after := Next(repo, w, a);
      && ReadHistory(repo, after.history).Some?
      && from <= |ReadHistory(repo, after.history).value|
      && (FlagsRegained(repo, ReadHistory(repo, after.history).value, from) <==>
            && FlagsRegained(repo, ReadHistory(repo, w.history).value, from)
            && (Records(repo, w, a) ==> LastRecordAgrees(repo, w, a)))
  {
    StepRecords(repo, w, a);
    if Records(repo, w, a) {
      RecordingCall(repo, w, a);
      RecordRegainsFlags(repo, w, a, Next(repo, w, a), from);
    }
  }

  /**
   Over every run, whatever fails, is pulled or is cut short: stripping the flags from the
   history and normalising it gives back the flags of the run's own records if and only if
   each call that added one found the last record and HEAD in agreement.
  */
  lemma {:induction false} FlagsRegainedExactlyWhen(repo: Repo, w: World, actions: seq<Action>, from: nat)
    requires ReadHistory(repo, w.history).Some? && from <= |ReadHistory(repo, w.history).value|
    ensures var end := Run(repo, w, actions);
      && ReadHistory(repo, end.history).Some?
      && (FlagsRegained(repo, ReadHistory(repo, end.history).value, from) <==>
            && FlagsRegained(repo, ReadHistory(repo, w.history).value, from)
            && AgreeingRun(repo, w, actions))
    decreases |actions|
  {
    if actions != [] {
      StepRegainsFlags(repo, w, actions[0], from);
      FlagsRegainedExactlyWhen(repo, Next(repo, w, actions[0]), actions[1..], from);
    }
  }

  lemma InLineStepAgrees(repo: Repo, w: World, a: Action)
    requires ReadHistory(repo, w.history).Some? && InLine(w, ReadHistory(repo, w.history).value)
    requires StaysInLine(repo, w, a)
    ensures Records(repo, w, a) ==> LastRecordAgrees(repo, w, a)
    ensures var after := Next(repo, w, a);
      ReadHistory(repo, after.history).Some? && InLine(after, ReadHistory(repo, after.history).value)
  {
    StepRecords(repo, w, a);
    if Records(repo, w, a) {
      RecordingCall(repo, w, a);
      CallChangesTheSchema(repo, w, a);
    }
  }

  lemma PerformReleaseKeepsNotes(
    repo: Repo, w: World, operation: Operation, target: Commit, r: StepResult, s: Surroundings)
    requires Readable(repo, target)
    ensures PerformRelease(repo, w, operation, target, r, s).result.schemaChanged == r.schemaChanged
  {
  }

  lemma CallChangesTheSchema(repo: Repo, w: World, a: Action)
    requires CallSucceeds(repo, w, a)
    ensures Aimed(repo, w, a).Some?
    ensures CallResult(repo, w, a).value.schemaChanged == SchemaChange(repo, w.head, Aimed(repo, w, a).value)
  {
    match a
    case DeployCall(s) =>
      DeployUnfolds(repo, w, s);
    case RollbackCall(mode, s) =>
      RollbackUnfolds(repo, w, mode, s);
      PerformReleaseKeepsNotes(repo, Fetched(w, s), RollbackOperation,
        ChosenTarget(repo, w, mode).value, RollbackNotes(repo, w, mode), s);
  }

  lemma {:induction false} InLineRunsAgree(repo: Repo, w: World, actions: seq<Action>)
    requires ReadHistory(repo, w.history).Some? && InLine(w, ReadHistory(repo, w.history).value)
    requires InLineRun(repo, w, actions)
    ensures AgreeingRun(repo, w, actions)
    decreases |actions|
  {
    if actions != [] {
      InLineStepAgrees(repo, w, actions[0]);
      InLineRunsAgree(repo, Next(repo, w, actions[0]), actions[1..]);
    }
  }

  /**
   Re-deriving legacy flags is faithful: strip the flags from the whole history after a run
   that stayed in line, normalise it as `readSuccessHistory` would, and every record the run
   appended (other than the very first of the file) has the flags the controller stored.
  */
  lemma LegacyFlagsAreRegained(repo: Repo, w: World, actions: seq<Action>)
    requires ReadHistory(repo, w.history).Some? && InLineRun(repo, w, actions)
    requires InLine(w, ReadHistory(repo, w.history).value)
    ensures var h, end := ReadHistory(repo, w.history).value, Run(repo, w, actions);
      && ReadHistory(repo, end.history).Some?
      && FlagsRegained(repo, ReadHistory(repo, end.history).value, |h|)
  {
    FlagsRegainedExactlyWhen(repo, w, actions, |ReadHistory(repo, w.history).value|);
    InLineRunsAgree(repo, w, actions);
  }

  /**
   What staying in line asks of a success: the commit it ended on changes the schema as the
   target does. A rollback always does; a deploy can fail to when its entrypoint pulls.
  */
  lemma SuccessStaysInLineExactlyWhen(repo: Repo, w: World, a: Action)
    requires CallSucceeds(repo, w, a)
    ensures a.RollbackCall? ==> StaysInLine(repo, w, a)
    ensures a.DeployCall? ==>
      var final := if a.s.entrypoint.pulled.Some? then a.s.entrypoint.pulled else a.s.fetched;
      && a.s.fetched.Some?
      && (StaysInLine(repo, w, a) <==>
            (SchemaChange(repo, w.head, a.s.fetched.value) <==> SchemaChange(repo, w.head, final.value)))
  {
    StepRecords(repo, w, a);
    RecordingCall(repo, w, a);
    CallChangesTheSchema(repo, w, a);
  }

  /** Every call of the run succeeds, and no deploy pulls. Backups and restores may lie between them. */
  predicate FailureFree(repo: Repo, w: World, actions: seq<Action>)
    decreases |actions|
  {
    actions == [] ||
    (var a := actions[0];
     && (a.DeployCall? || a.RollbackCall? ==> CallSucceeds(repo, w, a))
     && (a.DeployCall? ==> a.s.entrypoint.pulled.None?)
     && FailureFree(repo, Next(repo, w, a), actions[1..]))
  }

  lemma {:induction false} FailureFreeRunsStayInLine(repo: Repo, w: World, actions: seq<Action>)
    requires FailureFree(repo, w, actions)
    ensures InLineRun(repo, w, actions)
    decreases |actions|
  {
    if actions != [] {
      var a := actions[0];
      if a.DeployCall? || a.RollbackCall? {
        SuccessStaysInLineExactlyWhen(repo, w, a);
      }
      FailureFreeRunsStayInLine(repo, Next(repo, w, a), actions[1..]);
    }
  }

  /**
   So a failure-free run without pulls, starting with HEAD at the last record, leaves only
   records whose flags can be derived again.
  */
  lemma FailureFreeRunsRegainTheirFlags(repo: Repo, w: World, actions: seq<Action>)
    requires ReadHistory(repo, w.history).Some? && FailureFree(repo, w, actions)
    requires InLine(w, ReadHistory(repo, w.history).value)
    ensures var h, end := ReadHistory(repo, w.history).value, Run(repo, w, actions);
      && ReadHistory(repo, end.history).Some?
      && FlagsRegained(repo, ReadHistory(repo, end.history).value, |h|)
  {
    FailureFreeRunsStayInLine(repo, w, actions);
    LegacyFlagsAreRegained(repo, w, actions);
  }
}
