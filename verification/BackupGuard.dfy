/**
 The database-backup marker: written by `prepare_deploy_backup.js` after a dump, read by
 the release controller before a deploy that changes the migration list.
*/
module BackupGuard {
  import opened Wrappers

  /** What `Date.parse` makes of the marker's `timestamp` field; NotText if it is missing, empty or not text. */
  datatype Timestamp = NotText | NotADate | At(ms: int)

  /** The file `last-backup.json`. A `path` that is missing, empty or not text is None. */
  datatype BackupFile =
    | Missing
    | InvalidJson
    | NotAnObject
    | Marker(timestamp: Timestamp, path: Option<string>)

  datatype GuardError =
    | InvalidMetadata
    | NoRecentBackup
    | InvalidTimestamp
    | TooOld
    | DumpNotFound

  const MS_PER_HOUR := 3_600_000
  const DEFAULT_MAX_AGE_HOURS := 24

  /** `maxAgeMs`: the configured hours (None when `parseInt` gives NaN), or 24 unless positive. */
  function MaxAgeMs(configuredHours: Option<int>): int {
    (if configuredHours.Some? && configuredHours.value > 0
     then configuredHours.value else DEFAULT_MAX_AGE_HOURS) * MS_PER_HOUR
  }

  /** `ensureRecentBackup`: None when the guard lets the deploy go on, else what it throws. */
  function EnsureRecentBackup(file: BackupFile, now: int, configuredHours: Option<int>, dumpExists: bool)
    : (error: Option<GuardError>)
  {
    match file
    case Missing => Some(NoRecentBackup)
    case InvalidJson => Some(InvalidMetadata)
    case NotAnObject => Some(InvalidMetadata)
    case Marker(timestamp, path) =>
      if timestamp.NotText? || path.None? then Some(NoRecentBackup)
      else if timestamp.NotADate? then Some(InvalidTimestamp)
      else if now - timestamp.ms > MaxAgeMs(configuredHours) then Some(TooOld)
      else if !dumpExists then Some(DumpNotFound)
      else None
  }

  /**
   The guard opens exactly for a marker with a date and a path, whose dump exists and which
   is at most the configured number of hours old: a positive number, or else 24.
  */
  lemma GuardOpensExactlyWhen(file: BackupFile, now: int, configuredHours: Option<int>, dumpExists: bool)
    ensures var hours := if configuredHours.Some? && configuredHours.value > 0 then configuredHours.value else 24;
      EnsureRecentBackup(file, now, configuredHours, dumpExists).None? <==>
        && file.Marker? && file.timestamp.At? && file.path.Some?
        && now - file.timestamp.ms <= hours * 60 * 60 * 1000
        && dumpExists
  {
    var hours := if configuredHours.Some? && configuredHours.value > 0 then configuredHours.value else 24;
    assert hours * 60 * 60 * 1000 == MaxAgeMs(configuredHours);
  }

  /** Which refusal: what is wrong with the file first, then its age, then the dump. */
  lemma GuardRefusesExactlyWhen(file: BackupFile, now: int, configuredHours: Option<int>, dumpExists: bool)
    ensures var error := EnsureRecentBackup(file, now, configuredHours, dumpExists);
      var hours := if configuredHours.Some? && configuredHours.value > 0 then configuredHours.value else 24;
      var empty := file.Missing? || (file.Marker? && (file.timestamp.NotText? || file.path.None?));
      var dated := file.Marker? && file.timestamp.At? && file.path.Some?;
      && (error == Some(InvalidMetadata) <==> file.InvalidJson? || file.NotAnObject?)
      && (error == Some(NoRecentBackup) <==> empty)
      && (error == Some(InvalidTimestamp) <==> file.Marker? && file.timestamp.NotADate? && file.path.Some?)
      && (error == Some(TooOld) <==> dated && now - file.timestamp.ms > hours * 60 * 60 * 1000)
      && (error == Some(DumpNotFound) <==>
            dated && now - file.timestamp.ms <= hours * 60 * 60 * 1000 && !dumpExists)
  {
    var hours := if configuredHours.Some? && configuredHours.value > 0 then configuredHours.value else 24;
    assert hours * 60 * 60 * 1000 == MaxAgeMs(configuredHours);
  }

  /**
   `writeBackupMetadata` at time `t`: the timestamp drops the milliseconds, so reading it
   back gives the start of the second that `t` falls in. An empty path reads back as none.
  */
  function WriteBackupMetadata(t: int, outputPath: string): BackupFile {
    Marker(At(t - t % 1000), if outputPath == "" then None else Some(outputPath))
  }

  /**
   The marker written at `t` opens the guard at `now` exactly while it names a dump that
   exists and the age is at most the limit less the milliseconds the writer dropped. So it
   opens for sure up to limit - 999 ms, stays shut past the limit, and in between the
   dropped part decides.
  */
  lemma MarkerOpensGuard(t: int, outputPath: string, now: int, configuredHours: Option<int>, dumpExists: bool)
    ensures var error := EnsureRecentBackup(WriteBackupMetadata(t, outputPath), now, configuredHours, dumpExists);
      var limit := MaxAgeMs(configuredHours);
      && (error.None? <==> outputPath != "" && dumpExists && now - t <= limit - t % 1000)
      && (outputPath != "" && dumpExists && now - t <= limit - 999 ==> error.None?)
      && (outputPath != "" && now - t > limit ==> error == Some(TooOld))
      && (outputPath == "" ==> error == Some(NoRecentBackup))
      && limit >= MS_PER_HOUR
  {
    if configuredHours.Some? && configuredHours.value > 0 {
      assert configuredHours.value * MS_PER_HOUR >= MS_PER_HOUR;
    }
  }

  /** Both bounds of the window are the best possible: each is reached by some writing time. */
  lemma GuardWindowIsTight(outputPath: string, configuredHours: Option<int>, age: int)
    requires outputPath != ""
    requires MaxAgeMs(configuredHours) - 999 < age <= MaxAgeMs(configuredHours)
    ensures EnsureRecentBackup(WriteBackupMetadata(0, outputPath), age, configuredHours, true).None?
    ensures EnsureRecentBackup(WriteBackupMetadata(999, outputPath), 999 + age, configuredHours, true) == Some(TooOld)
  {
    MarkerOpensGuard(0, outputPath, age, configuredHours, true);
    MarkerOpensGuard(999, outputPath, 999 + age, configuredHours, true);
  }
}
