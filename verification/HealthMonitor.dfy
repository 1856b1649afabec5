/**
 The health monitor: a script run again and again by a scheduler, whose only memory is a
 state file. It alerts when an outage begins and when it ends.
*/
module HealthMonitor {

  datatype Health = Healthy | Unhealthy

  /** The state file: missing, not the JSON of a known state, or one of the two states. */
  datatype StateFile = Missing | Unknown | Stored(health: Health)

  /** What a Slack call comes to. Without a webhook it returns at once, as if delivered. */
  datatype Slack = NoWebhook | Delivered | Throws

  /** What a write of the state file comes to. A torn write leaves a file that is not JSON. */
  datatype Write = Done | Refused | Torn

  /** The surroundings of one run. The second write happens only if the first one throws. */
  datatype Surroundings = Surroundings(checkPasses: bool, slack: Slack, write: Write, secondWrite: Write)

  /** The alerts a run attempts: failures whether or not they arrive, recoveries by their outcome. */
  datatype Alert = FailureAttempted | RecoveryReturned | RecoveryThrew

  datatype World = World(file: StateFile, alerts: seq<Alert>)

  /** `readPreviousState` */
  function ReadPreviousState(file: StateFile): Health {
    if file.Stored? then file.health else Healthy
  }

  /** A missing, torn or foreign state file reads as healthy: a first run finds no outage. */
  lemma ReadsUnhealthyExactlyWhen(file: StateFile)
    ensures ReadPreviousState(file) == Unhealthy <==> file == Stored(Unhealthy)
  {
  }

  function AfterWrite(file: StateFile, write: Write, health: Health): StateFile {
    match write
    case Done => Stored(health)
    case Refused => file
    case Torn => Unknown
  }

  /** The branch for a check that throws, or for a throw after a check that passed. */
  function Failed(w: World, previous: Health, write: Write): World {
    World(AfterWrite(w.file, write, Unhealthy),
          w.alerts + (if previous == Healthy then [FailureAttempted] else []))
  }

  /** One run of the script. */
  function Tick(w: World, s: Surroundings): World {
    var previous := ReadPreviousState(w.file);
    if !s.checkPasses then Failed(w, previous, s.write)
    else if previous == Unhealthy && s.slack == Throws then
      Failed(World(w.file, w.alerts + [RecoveryThrew]), previous, s.write)
    else
      var alerted := if previous == Unhealthy then w.alerts + [RecoveryReturned] else w.alerts;
      var written := World(AfterWrite(w.file, s.write, Healthy), alerted);
      if s.write == Done then written else Failed(written, previous, s.secondWrite)
  }

  /** The script on its machine. */
  class Monitor {
    var file: StateFile
    var alerts: seq<Alert>
    var exitCode: int

    function State(): World
      reads this
    {
      World(file, alerts)
    }

    constructor (w: World)
      ensures State() == w && exitCode == 0
    {
      file, alerts, exitCode := w.file, w.alerts, 0;
    }

    /** `writeState`: false when it throws. */
    method WriteState(health: Health, write: Write) returns (ok: bool)
      modifies this`file
      ensures file == AfterWrite(old(file), write, health)
      ensures ok == (write == Done)
    {
      match write {
        case Done => file := Stored(health);
        case Refused =>
        case Torn => file := Unknown;
      }
      return write == Done;
    }

    /** `main` */
    method Execute(s: Surroundings)
      modifies this
      ensures State() == Tick(old(State()), s)
      ensures exitCode == if s.checkPasses && s.write == Done
                && (old(file) != Stored(Unhealthy) || s.slack != Throws) then 0 else 1
    {
      exitCode := 0;
      var previous := ReadPreviousState(file);
      var write := s.write;
      if s.checkPasses {
        var sent := true;
        if previous == Unhealthy {
          sent := s.slack != Throws;
          alerts := alerts + [if sent then RecoveryReturned else RecoveryThrew];
        }
        if sent {
          var ok := WriteState(Healthy, s.write);
          if ok {
            return;
          }
          write := s.secondWrite;
        }
      }
      if previous == Healthy {
        alerts := alerts + [FailureAttempted];
      }
      exitCode := 1;
      var _ := WriteState(Unhealthy, write);
    }
  }

  // -------------------------------------------------------------- all runs

  function Run(w: World, ticks: seq<Surroundings>): World {
    if ticks == [] then w else Tick(Run(w, ticks[..|ticks| - 1]), ticks[|ticks| - 1])
  }

  predicate DurableWrites(ticks: seq<Surroundings>) {
    forall s :: s in ticks ==> s.write == Done
  }

  /** The alerts that open and close outages, without recoveries that threw. */
  function Turns(alerts: seq<Alert>): seq<Alert> {
    if alerts == [] then []
    else Turns(alerts[..|alerts| - 1])
         + (if alerts[|alerts| - 1] == RecoveryThrew then [] else [alerts[|alerts| - 1]])
  }

  /** Failure and recovery take turns, failure first. */
  predicate Alternate(turns: seq<Alert>) {
    forall i :: 0 <= i < |turns| ==> turns[i] == if i % 2 == 0 then FailureAttempted else RecoveryReturned
  }

  function Count(alerts: seq<Alert>, kind: Alert): nat {
    if alerts == [] then 0
    else Count(alerts[..|alerts| - 1], kind) + (if alerts[|alerts| - 1] == kind then 1 else 0)
  }

  /** The stored state says whether an outage is open: unhealthy exactly after a failure alert. */
  predicate InStep(w: World) {
    var turns := Turns(w.alerts);
    Alternate(turns) && (w.file == Stored(Unhealthy) <==> |turns| % 2 == 1)
  }

  lemma TurnsAppend(alerts: seq<Alert>, a: Alert)
    ensures Turns(alerts + [a]) == Turns(alerts) + (if a == RecoveryThrew then [] else [a])
  {
    assert (alerts + [a])[..|alerts|] == alerts;
  }

  lemma AlternateAppend(turns: seq<Alert>, a: Alert)
    requires Alternate(turns)
    ensures (|turns| + 1) % 2 == 1 <==> |turns| % 2 == 0
    ensures Alternate(turns + [a]) <==> a == if |turns| % 2 == 0 then FailureAttempted else RecoveryReturned
  {
    assert (turns + [a])[|turns|] == a;
  }

  /** What the writes of one run may come to, branch by branch, without breaking the step. */
  predicate KeepsStep(previous: Health, s: Surroundings) {
    if !s.checkPasses then s.write == Done || (s.write == Refused && previous == Unhealthy)
    else if previous == Healthy then s.write == Done || s.secondWrite == Done
    else if s.slack == Throws then s.write != Torn
    else s.write == Done || s.secondWrite == Torn || (s.write == Torn && s.secondWrite == Refused)
  }

  /** One more alert that takes its turn: in step exactly when the file changes over. */
  lemma TurnTaken(w: World, alert: Alert, file: StateFile)
    requires InStep(w)
    requires alert == if ReadPreviousState(w.file) == Healthy then FailureAttempted else RecoveryReturned
    ensures InStep(World(file, w.alerts + [alert])) <==> ReadPreviousState(file) != ReadPreviousState(w.file)
  {
    TurnsAppend(w.alerts, alert);
    AlternateAppend(Turns(w.alerts), alert);
  }

  /** No alert, or a recovery that threw: in step exactly when the file keeps its meaning. */
  lemma TurnKept(w: World, file: StateFile)
    requires InStep(w)
    ensures InStep(World(file, w.alerts)) <==> ReadPreviousState(file) == ReadPreviousState(w.file)
    ensures InStep(World(file, w.alerts + [RecoveryThrew])) <==>
            ReadPreviousState(file) == ReadPreviousState(w.file)
  {
    TurnsAppend(w.alerts, RecoveryThrew);
    assert Turns(w.alerts) + [] == Turns(w.alerts);
  }

  /**
   One run from a world in step, whatever its check, Slack and its one or two writes come to:
   it stays in step exactly when the writes are among those that `KeepsStep` lists.
  */
  lemma TickKeepsStepExactlyWhen(w: World, s: Surroundings)
    requires InStep(w)
    ensures InStep(Tick(w, s)) <==> KeepsStep(ReadPreviousState(w.file), s)
  {
    var file := Tick(w, s).file;
    TurnTaken(w, if ReadPreviousState(w.file) == Healthy then FailureAttempted else RecoveryReturned, file);
    TurnKept(w, file);
    assert w.alerts + [] == w.alerts && w.alerts + [RecoveryThrew] + [] == w.alerts + [RecoveryThrew];
    assert w.alerts + [RecoveryReturned] + [] == w.alerts + [RecoveryReturned];
  }

  /**
   What a world in step is: its alerts alternate, and the next run with a durable write
   keeps them alternating, whatever its check and Slack do.
  */
  lemma InStepExactlyWhen(w: World)
    ensures InStep(w) <==>
      && Alternate(Turns(w.alerts))
      && forall s: Surroundings :: s.write == Done ==> Alternate(Turns(Tick(w, s).alerts))
  {
    if InStep(w) {
      forall s: Surroundings | s.write == Done ensures Alternate(Turns(Tick(w, s).alerts)) {
        TickKeepsStepExactlyWhen(w, s);
      }
    } else if Alternate(Turns(w.alerts)) {
      var fails := Surroundings(false, Delivered, Done, Done);
      var passes := Surroundings(true, Delivered, Done, Done);
      var next := if ReadPreviousState(w.file) == Healthy then FailureAttempted else RecoveryReturned;
      TurnsAppend(w.alerts, next);
      AlternateAppend(Turns(w.alerts), next);
      assert !Alternate(Turns(Tick(w, if ReadPreviousState(w.file) == Healthy then fails else passes).alerts));
    }
  }

  /** Every run's writes keep the step. */
  predicate WritesKeepStep(w: World, ticks: seq<Surroundings>) {
    ticks == [] ||
    (var init := ticks[..|ticks| - 1];
     WritesKeepStep(w, init) && KeepsStep(ReadPreviousState(Run(w, init).file), ticks[|ticks| - 1]))
  }

  /** After every one of the runs, as well as before the first, the world is in step. */
  ghost predicate AlwaysInStep(w: World, ticks: seq<Surroundings>) {
    forall n :: 0 <= n <= |ticks| ==> InStep(Run(w, ticks[..n]))
  }

  lemma AlwaysSplits(w: World, ticks: seq<Surroundings>)
    requires ticks != []
    ensures AlwaysInStep(w, ticks) <==> AlwaysInStep(w, ticks[..|ticks| - 1]) && InStep(Run(w, ticks))
  {
    var init := ticks[..|ticks| - 1];
    assert ticks[..|ticks|] == ticks;
    forall n | 0 <= n <= |init| ensures init[..n] == ticks[..n] {
    }
    if AlwaysInStep(w, ticks) {
      forall n | 0 <= n <= |init| ensures InStep(Run(w, init[..n])) {
        assert InStep(Run(w, ticks[..n]));
      }
      assert InStep(Run(w, ticks[..|ticks|]));
    }
    if AlwaysInStep(w, init) && InStep(Run(w, ticks)) {
      forall n | 0 <= n <= |ticks| ensures InStep(Run(w, ticks[..n])) {
        if n < |ticks| {
          assert InStep(Run(w, init[..n]));
        }
      }
    }
  }

  lemma {:induction false} AlwaysInStepExactlyWhen(w: World, ticks: seq<Surroundings>)
    requires InStep(w)
    ensures AlwaysInStep(w, ticks) <==> WritesKeepStep(w, ticks)
  {
    if ticks == [] {
      assert ticks[..0] == [];
    } else {
      var init := ticks[..|ticks| - 1];
      AlwaysSplits(w, ticks);
      AlwaysInStepExactlyWhen(w, init);
      if AlwaysInStep(w, init) {
        assert init[..|init|] == init && InStep(Run(w, init[..|init|]));
        TickKeepsStepExactlyWhen(Run(w, init), ticks[|ticks| - 1]);
      }
    }
  }

  lemma {:induction false} TurnCounts(alerts: seq<Alert>)
    requires Alternate(Turns(alerts))
    ensures Count(alerts, FailureAttempted) - Count(alerts, RecoveryReturned) == |Turns(alerts)| % 2
  {
    if alerts != [] {
      var init := alerts[..|alerts| - 1];
      var last, turns := alerts[|alerts| - 1], Turns(init);
      assert Turns(alerts) == turns + (if last == RecoveryThrew then [] else [last]);
      assert forall i :: 0 <= i < |turns| ==> turns[i] == Turns(alerts)[i];
      TurnCounts(init);
      if last != RecoveryThrew {
        assert Turns(alerts)[|turns|] == last;
      }
    }
  }

  /**
   The books balance: failure alerts and returned recovery alerts strictly take turns, and
   their difference is 1 exactly while the file stores an outage, else 0.
  */
  predicate Balanced(w: World) {
    && Alternate(Turns(w.alerts))
    && Count(w.alerts, FailureAttempted) - Count(w.alerts, RecoveryReturned)
       == (if w.file == Stored(Unhealthy) then 1 else 0)
  }

  lemma BalancedIsInStep(w: World)
    ensures Balanced(w) <==> InStep(w)
  {
    if Alternate(Turns(w.alerts)) {
      TurnCounts(w.alerts);
    }
  }

  /**
   From any file but a stored outage, a missing one included, and over any sequence of runs,
   whatever the checks, Slack and the writes do: the books balance after every run if and only
   if every run's writes keep the step.
  */
  lemma AlertsBalanceExactlyWhen(ticks: seq<Surroundings>, file: StateFile)
    requires file != Stored(Unhealthy)
    ensures (forall n :: 0 <= n <= |ticks| ==> Balanced(Run(World(file, []), ticks[..n])))
            <==> WritesKeepStep(World(file, []), ticks)
  {
    var w := World(file, []);
    AlwaysInStepExactlyWhen(w, ticks);
    forall n | 0 <= n <= |ticks| ensures Balanced(Run(w, ticks[..n])) <==> InStep(Run(w, ticks[..n])) {
      BalancedIsInStep(Run(w, ticks[..n]));
    }
  }

  /** A machine's first run: a failed check sends the failure alert, a passed one sends nothing. */
  lemma FirstRunAlertsOnFailureOnly(s: Surroundings)
    requires s.write == Done
    ensures Tick(World(Missing, []), s) ==
      if s.checkPasses then World(Stored(Healthy), []) else World(Stored(Unhealthy), [FailureAttempted])
  {
  }

  lemma {:induction false} DurableWritesKeepStep(w: World, ticks: seq<Surroundings>)
    requires DurableWrites(ticks)
    ensures WritesKeepStep(w, ticks)
  {
    if ticks != [] {
      DurableWritesKeepStep(w, ticks[..|ticks| - 1]);
    }
  }

  /** So they balance over every sequence of runs with durable state writes. */
  lemma AlertsAlternate(ticks: seq<Surroundings>, file: StateFile)
    requires DurableWrites(ticks) && file != Stored(Unhealthy)
    ensures var end := Run(World(file, []), ticks);
      && Alternate(Turns(end.alerts))
      && Count(end.alerts, FailureAttempted) - Count(end.alerts, RecoveryReturned)
         == (if end.file == Stored(Unhealthy) then 1 else 0)
  {
    DurableWritesKeepStep(World(file, []), ticks);
    AlertsBalanceExactlyWhen(ticks, file);
    assert ticks[..|ticks|] == ticks;
    assert Balanced(Run(World(file, []), ticks[..|ticks|]));
  }

  /** The run finds an outage open and ends it: by a returned recovery alert, or without one by a torn write. */
  predicate EndsOutage(w: World, s: Surroundings) {
    && w.file == Stored(Unhealthy)
    && Tick(w, s).file != Stored(Unhealthy)
    && if s.checkPasses && s.slack != Throws
       then Tick(w, s).alerts == w.alerts + [RecoveryReturned]
       else s.write == Torn
  }

  /**
   When a run leaves an open outage marked over, for every check, Slack call and writes; and
   when it does so without a recovery alert that returned: exactly when its first write is
   torn after a failed check or a recovery alert that threw. With a durable first write an
   outage is marked over exactly by a passed check whose recovery alert returned.
  */
  lemma OutageEndsOnlyAfterRecoveryAlert(w: World, s: Surroundings)
    requires w.file == Stored(Unhealthy)
    ensures var after, recovered := Tick(w, s), s.checkPasses && s.slack != Throws;
      var over := after.file != Stored(Unhealthy);
      && (over <==>
            if recovered
            then s.write == Done || s.secondWrite == Torn || (s.write == Torn && s.secondWrite == Refused)
            else s.write == Torn)
      && (over && after.alerts != w.alerts + [RecoveryReturned] <==> !recovered && s.write == Torn)
      && (s.write == Done ==> (over <==> recovered))
  {
    assert w.alerts + [RecoveryReturned] + [] == w.alerts + [RecoveryReturned];
    assert w.alerts + [] == w.alerts && |w.alerts + [RecoveryReturned]| == |w.alerts| + 1;
    assert (w.alerts + [RecoveryThrew])[|w.alerts|] != (w.alerts + [RecoveryReturned])[|w.alerts|];
  }

  /**
   Over every run: if an outage was open and at the end is marked over, some run in between
   found it open, passed its check and had its recovery alert returned, or tore the state
   file without that. Where no write is torn, a recovery alert did return.
  */
  lemma {:induction false} OutagesEndByRecoveryOrTornWrite(w: World, ticks: seq<Surroundings>)
    requires w.file == Stored(Unhealthy) && Run(w, ticks).file != Stored(Unhealthy)
    ensures exists n: nat :: n < |ticks| && EndsOutage(Run(w, ticks[..n]), ticks[n])
  {
    var init, last := ticks[..|ticks| - 1], ticks[|ticks| - 1];
    if Run(w, init).file != Stored(Unhealthy) {
      OutagesEndByRecoveryOrTornWrite(w, init);
      var n: nat :| n < |init| && EndsOutage(Run(w, init[..n]), init[n]);
      assert init[..n] == ticks[..n] && init[n] == ticks[n];
    } else {
      OutageEndsOnlyAfterRecoveryAlert(Run(w, init), last);
      assert ticks[..|ticks| - 1] == init;
      assert EndsOutage(Run(w, ticks[..|ticks| - 1]), last);
    }
  }

  /**
   A write that fails after a passed check raises a failure alert although the service is up;
   the alerts stay in step exactly when the second write then stores that outage.
  */
  lemma FailedWriteRaisesFalseAlarm(w: World, s: Surroundings)
    requires InStep(w) && w.file != Stored(Unhealthy) && s.checkPasses && s.write != Done
    ensures Tick(w, s).alerts == w.alerts + [FailureAttempted]
    ensures InStep(Tick(w, s)) <==> s.secondWrite == Done
  {
    TickKeepsStepExactlyWhen(w, s);
  }

  const OPEN_OUTAGE := World(Stored(Unhealthy), [FailureAttempted])
  const REFUSED := Surroundings(true, Delivered, Refused, Done)
  const DURABLE := Surroundings(true, Delivered, Done, Done)

  lemma RunTwo(w: World, first: Surroundings, second: Surroundings)
    ensures Run(w, [first, second]) == Tick(Tick(w, first), second)
  {
    assert [first, second][..1] == [first] && [first][..0] == [];
    assert Run(w, [first]) == Tick(Run(w, []), first);
  }

  lemma TwoRecoveries()
    ensures Run(OPEN_OUTAGE, [REFUSED, DURABLE]).alerts == [FailureAttempted, RecoveryReturned, RecoveryReturned]
  {
    RunTwo(OPEN_OUTAGE, REFUSED, DURABLE);
    assert Tick(OPEN_OUTAGE, REFUSED).alerts == [FailureAttempted, RecoveryReturned];
  }

  lemma OneTurn()
    ensures Turns([FailureAttempted]) == [FailureAttempted]
  {
    assert [FailureAttempted][..0] == [];
  }

  lemma TwoTurns()
    ensures Turns([FailureAttempted, RecoveryReturned]) == [FailureAttempted, RecoveryReturned]
  {
    OneTurn();
    TurnsAppend([FailureAttempted], RecoveryReturned);
    assert [FailureAttempted] + [RecoveryReturned] == [FailureAttempted, RecoveryReturned];
  }

  lemma ThreeTurns(turns: seq<Alert>)
    requires turns == [FailureAttempted, RecoveryReturned]
    ensures !Alternate(turns + [RecoveryReturned])
  {
    AlternateAppend(turns, RecoveryReturned);
  }

  lemma TwoRecoveriesBreakTheTurns()
    ensures !Alternate(Turns([FailureAttempted, RecoveryReturned, RecoveryReturned]))
  {
    var turns := [FailureAttempted, RecoveryReturned];
    TwoTurns();
    TurnsAppend(turns, RecoveryReturned);
    ThreeTurns(turns);
    assert turns + [RecoveryReturned] == [FailureAttempted, RecoveryReturned, RecoveryReturned];
  }

  /**
   A passed check at its worst: the service is back, the recovery alert arrives, the first
   write is refused and the second one stores the outage again. The next run that finds the
   service up announces the same recovery a second time.
  */
  lemma RefusedWriteRepeatsTheRecovery()
    ensures !KeepsStep(ReadPreviousState(OPEN_OUTAGE.file), REFUSED)
    ensures var alerts := Run(OPEN_OUTAGE, [REFUSED, DURABLE]).alerts;
      alerts == [FailureAttempted, RecoveryReturned, RecoveryReturned] && !Alternate(Turns(alerts))
  {
    TwoRecoveries();
    TwoRecoveriesBreakTheTurns();
  }
}
