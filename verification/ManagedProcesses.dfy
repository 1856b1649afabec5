/**
 Which processes of the process table the repository regards as its own, and the cleanup of
 those that were not there before a test run.
*/
module ManagedProcesses {
  import opened Wrappers
  import opened Text
  import opened CleanupTargets
  import opened CleanupProtocol

  /** One line of `ps`. */
  datatype Row = Row(pid: nat, ppid: nat, pgid: nat, tty: string, command: string)

  const MANAGED_COMMAND_MARKERS := [
    "src/server.ts",
    "scripts/start_test_server.js",
    "vite",
    "node_modules/@playwright/test/cli.js",
    "scripts/run_smoke_test.js",
    "frontend run dev"
  ]

  /** `isManagedCommandCandidate` */
  predicate IsManagedCommandCandidate(command: string) {
    exists i :: 0 <= i < |MANAGED_COMMAND_MARKERS| && Contains(command, MANAGED_COMMAND_MARKERS[i])
  }

  predicate InsideRepo(cwd: string, root: string) {
    cwd == root || cwd == root + "/frontend" || StartsWith(cwd, root + "/")
  }

  /** `classifyManagedRepoProcess` */
  function Classify(cwd: string, command: string, root: string): Option<Kind> {
    if !InsideRepo(cwd, root) then None
    else if Contains(command, "src/server.ts") || Contains(command, "scripts/start_test_server.js") then Some(Backend)
    else if Contains(command, "vite")
      || Contains(command, "npm --prefix frontend run dev")
      || Contains(command, "frontend run dev") then Some(Frontend)
    else if Contains(command, "node_modules/@playwright/test/cli.js") && !Contains(command, "test-server") then
      Some(Playwright)
    else if Contains(command, "scripts/run_smoke_test.js") then Some(SmokeWrapper)
    else None
  }

  lemma NpmMarkerIsRedundant(command: string)
    ensures Contains(command, "npm --prefix frontend run dev") ==> Contains(command, "frontend run dev")
  {
    if Contains(command, "npm --prefix frontend run dev") {
      var long, short := "npm --prefix frontend run dev", "frontend run dev";
      assert long == "npm --prefix " + short;
      ContainsSuffix("npm --prefix ", short);
      ContainsTransitive(command, long, short);
    }
  }

  /** A command without a marker is never classified, so the prefilter hides nothing. */
  lemma ClassifiedIsCandidate(cwd: string, command: string, root: string)
    requires Classify(cwd, command, root).Some?
    ensures IsManagedCommandCandidate(command)
  {
    var markers := MANAGED_COMMAND_MARKERS;
    NpmMarkerIsRedundant(command);
    assert markers[0] == "src/server.ts" && markers[1] == "scripts/start_test_server.js";
    assert markers[2] == "vite" && markers[3] == "node_modules/@playwright/test/cli.js";
    assert markers[4] == "scripts/run_smoke_test.js" && markers[5] == "frontend run dev";
  }

  /** The directory is the repository or lies below it; `frontend` needs no case of its own. */
  ghost predicate AtOrBelow(cwd: string, root: string) {
    cwd == root || exists rest: string :: cwd == root + "/" + rest
  }

  lemma InsideIsAtOrBelow(cwd: string, root: string)
    ensures InsideRepo(cwd, root) <==> AtOrBelow(cwd, root)
  {
    if StartsWith(cwd, root + "/") {
      assert cwd == root + "/" + cwd[|root| + 1..];
    }
    assert root + "/frontend" == root + "/" + "frontend";
    if rest: string :| cwd == root + "/" + rest {
      assert cwd[..|root| + 1] == root + "/";
    }
  }

  /**
   Which processes are the repository's own, and of which kind: it runs at or below the root,
   and its command holds a word of that kind and of no kind before it.
  */
  lemma ClassifiedExactlyWhen(cwd: string, command: string, root: string)
    ensures var kind := Classify(cwd, command, root);
      var backend := Contains(command, "src/server.ts") || Contains(command, "scripts/start_test_server.js");
      var frontend := Contains(command, "vite") || Contains(command, "frontend run dev");
      var playwright := Contains(command, "node_modules/@playwright/test/cli.js") && !Contains(command, "test-server");
      var smoke := Contains(command, "scripts/run_smoke_test.js");
      && (kind == Some(Backend) <==> AtOrBelow(cwd, root) && backend)
      && (kind == Some(Frontend) <==> AtOrBelow(cwd, root) && frontend && !backend)
      && (kind == Some(Playwright) <==> AtOrBelow(cwd, root) && playwright && !backend && !frontend)
      && (kind == Some(SmokeWrapper) <==>
            AtOrBelow(cwd, root) && smoke && !backend && !frontend && !playwright)
  {
    InsideIsAtOrBelow(cwd, root);
    NpmMarkerIsRedundant(command);
  }

  function Enriched(row: Row, cwd: string, kind: Kind): ProcessInfo {
    ProcessInfo(row.pid, row.ppid, row.pgid, row.tty, row.command, cwd, kind)
  }

  /** The entry the table calls for when every row is classified, without any prefilter. */
  function Managed(row: Row, cwdOf: nat -> string, root: string): Option<ProcessInfo> {
    var kind := Classify(cwdOf(row.pid), row.command, root);
    if kind.None? then None else Some(Enriched(row, cwdOf(row.pid), kind.value))
  }

  predicate RowsDistinct(table: seq<Row>) {
    forall i, j :: 0 <= i < j < |table| ==> table[i].pid != table[j].pid
  }

  /** All processes of the table that classify, in table order. */
  function AllManaged(table: seq<Row>, cwdOf: nat -> string, root: string): (r: seq<ProcessInfo>)
  {
    if table == [] then []
    else
      var p := Managed(table[|table| - 1], cwdOf, root);
      AllManaged(table[..|table| - 1], cwdOf, root) + (if p.Some? then [p.value] else [])
  }

  /**
   `snapshotManagedRepoProcesses`: skip the rows without a marker before looking up their
   working directory. The Map is kept as its values in insertion order; with one row per pid
   no key is set twice. The result is the unfiltered one.
  */
  method SnapshotManagedRepoProcesses(table: seq<Row>, cwdOf: nat -> string, root: string)
    returns (snapshot: seq<ProcessInfo>)
    requires RowsDistinct(table)
    ensures snapshot == AllManaged(table, cwdOf, root)
    ensures PidDistinct(snapshot)
  {
    snapshot := [];
    for i := 0 to |table|
      invariant snapshot == AllManaged(table[..i], cwdOf, root)
    {
      assert table[..i + 1][..i] == table[..i];
      var row := table[i];
      if Classify(cwdOf(row.pid), row.command, root).Some? {
        ClassifiedIsCandidate(cwdOf(row.pid), row.command, root);
      }
      if !IsManagedCommandCandidate(row.command) {
        continue;
      }
      var cwd := cwdOf(row.pid);
      var kind := Classify(cwd, row.command, root);
      if kind.None? {
        continue;
      }
      snapshot := snapshot + [Enriched(row, cwd, kind.value)];
    }
    assert table[..|table|] == table;
    ManagedPidsDistinct(table, cwdOf, root);
  }

  lemma {:induction false} ManagedPidsDistinct(table: seq<Row>, cwdOf: nat -> string, root: string)
    requires RowsDistinct(table)
    ensures PidDistinct(AllManaged(table, cwdOf, root))
    ensures forall p :: p in AllManaged(table, cwdOf, root) ==> exists row :: row in table && row.pid == p.pid
  {
    if table != [] {
      var init, last := table[..|table| - 1], table[|table| - 1];
      assert table == init + [last];
      ManagedPidsDistinct(init, cwdOf, root);
    }
  }

  /** The snapshot holds exactly the classified rows, each with its own fields, directory and kind. */
  lemma {:induction false} SnapshotHolds(table: seq<Row>, cwdOf: nat -> string, root: string, p: ProcessInfo)
    ensures p in AllManaged(table, cwdOf, root) <==>
      exists row :: row in table
        && p.pid == row.pid && p.ppid == row.ppid && p.pgid == row.pgid
        && p.tty == row.tty && p.command == row.command
        && p.cwd == cwdOf(row.pid)
        && Classify(p.cwd, p.command, root) == Some(p.kind)
  {
    if table != [] {
      var init, last := table[..|table| - 1], table[|table| - 1];
      assert table == init + [last];
      SnapshotHolds(init, cwdOf, root, p);
    }
  }

  /** It keeps the order of the table: the rows of one part come before those of the next. */
  lemma {:induction false} SnapshotKeepsOrder(a: seq<Row>, b: seq<Row>, cwdOf: nat -> string, root: string)
    ensures AllManaged(a + b, cwdOf, root) == AllManaged(a, cwdOf, root) + AllManaged(b, cwdOf, root)
    decreases |b|
  {
    if b == [] {
      assert a + b == a;
    } else {
      assert (a + b)[..|a + b| - 1] == a + b[..|b| - 1];
      SnapshotKeepsOrder(a, b[..|b| - 1], cwdOf, root);
    }
  }

  /** The managed processes that the baseline does not list. */
  function Leaked(processes: seq<ProcessInfo>, baseline: set<nat>): seq<ProcessInfo> {
    if processes == [] then []
    else (if processes[0].pid in baseline then [] else [processes[0]]) + Leaked(processes[1..], baseline)
  }

  lemma {:induction false} LeakedIs(processes: seq<ProcessInfo>, baseline: set<nat>)
    requires PidDistinct(processes)
    ensures forall p :: p in Leaked(processes, baseline) <==> p in processes && p.pid !in baseline
    ensures PidDistinct(Leaked(processes, baseline))
  {
    if processes != [] {
      assert processes == [processes[0]] + processes[1..];
      LeakedIs(processes[1..], baseline);
    }
  }

  lemma {:induction false} LeakedKeepsOrder(a: seq<ProcessInfo>, b: seq<ProcessInfo>, baseline: set<nat>)
    ensures Leaked(a + b, baseline) == Leaked(a, baseline) + Leaked(b, baseline)
  {
    if a == [] {
      assert a + b == b;
    } else {
      assert (a + b)[1..] == a[1..] + b;
      LeakedKeepsOrder(a[1..], b, baseline);
    }
  }

  /** `cleanupNewManagedRepoProcesses`, over the snapshot taken after the run. */
  method CleanupNewManagedRepoProcesses(
    baseline: set<nat>, table: seq<Row>, cwdOf: nat -> string, root: string,
    alive: Schedule, termPolls: nat, killPolls: nat)
    returns (leaked: seq<ProcessInfo>, cleaned: seq<ProcessInfo>, remaining: seq<ProcessInfo>, log: seq<Sent>)
    requires RowsDistinct(table)
    ensures leaked == Leaked(AllManaged(table, cwdOf, root), baseline)
    ensures var c := Cleaned(alive, leaked, termPolls, killPolls);
      cleaned == c.cleaned && remaining == c.remaining && log == c.log
  {
    var after := SnapshotManagedRepoProcesses(table, cwdOf, root);
    leaked := Leaked(after, baseline);
    if |leaked| == 0 {
      NothingToClean(alive, termPolls, killPolls);
      return leaked, [], [], [];
    }
    var end;
    cleaned, remaining, log, end := CleanupManagedRepoProcesses(alive, leaked, termPolls, killPolls);
  }

  lemma NothingToClean(alive: Schedule, termPolls: nat, killPolls: nat)
    ensures Cleaned(alive, [], termPolls, killPolls) == Cleanup([], [], [], [], [], 0)
  {
  }

  /**
   Cleanup after a run never names a process of the baseline: not as a pid, not as the
   leader of a signalled group, not in any of the lists it reports.
  */
  lemma BaselineIsNeverNamed(
    baseline: set<nat>, managed: seq<ProcessInfo>, alive: Schedule, termPolls: nat, killPolls: nat)
    requires PidDistinct(managed) && Shrinking(alive)
    ensures var c := Cleaned(alive, Leaked(managed, baseline), termPolls, killPolls);
      && (forall i :: 0 <= i < |c.log| ==> Named(c.log[i].to) !in baseline)
      && (forall p :: p in c.live || p in c.cleaned || p in c.remaining ==> p.pid !in baseline)
  {
    var leaked := Leaked(managed, baseline);
    LeakedIs(managed, baseline);
    var c := Cleaned(alive, leaked, termPolls, killPolls);
    CleanupLists(alive, leaked, termPolls, killPolls);
    CleanedAndRemainingPartition(c.live, c.remaining);
    forall i | 0 <= i < |c.log| ensures Named(c.log[i].to) !in baseline {
      var p := CleanupSignalsOnlyTheListed(alive, leaked, termPolls, killPolls, i);
    }
  }

  /**
   One signal to all targets of a list reaches a process whose pid is not in the list exactly
   when that process sits in the group of a listed, detached leader.
  */
  lemma BystanderIsHitExactlyThroughItsGroup(live: seq<ProcessInfo>, signal: Signal, t: nat, bystander: ProcessInfo)
    requires PidDistinct(live)
    requires forall p :: p in live ==> p.pid != bystander.pid
    ensures var log := Signals(signal, Targets(live), t);
      (exists i :: 0 <= i < |log| && Reaches(log[i].to, bystander))
      <==>
      (exists q :: q in live && IsLeader(q) && q.pgid == bystander.pgid)
  {
    var log := Signals(signal, Targets(live), t);
    SignalsAre(signal, Targets(live), t);
    KeysAreLeaders(live);
    if i :| 0 <= i < |log| && Reaches(log[i].to, bystander) {
      var q := SignalledIsListed(live, signal, t, i);
      assert q in live && IsLeader(q);
    }
    if q :| q in live && IsLeader(q) && q.pgid == bystander.pgid {
      var i := ReachedByGroup(live, bystander);
      assert Reaches(log[i].to, bystander);
    }
  }

  lemma ReachedInEitherRound(terms: seq<Sent>, kills: seq<Sent>, bystander: ProcessInfo)
    ensures var log := terms + kills;
      (exists i :: 0 <= i < |log| && Reaches(log[i].to, bystander))
      <==>
      || (exists i :: 0 <= i < |terms| && Reaches(terms[i].to, bystander))
      || (exists i :: 0 <= i < |kills| && Reaches(kills[i].to, bystander))
  {
    var log := terms + kills;
    if i :| 0 <= i < |terms| && Reaches(terms[i].to, bystander) {
      assert log[i] == terms[i];
    }
    if i :| 0 <= i < |kills| && Reaches(kills[i].to, bystander) {
      assert log[|terms| + i] == kills[i];
    }
    if i :| 0 <= i < |log| && Reaches(log[i].to, bystander) {
      assert if i < |terms| then log[i] == terms[i] else log[i] == kills[i - |terms|];
    }
  }

  /**
   Though never named, a baseline process can be hit through its group. Over both rounds of a
   cleanup, some signal reaches it exactly when it sits in the group of a new process that
   was alive at the start and is a detached leader.
  */
  lemma BaselineIsHitExactlyThroughItsGroup(
    baseline: set<nat>, managed: seq<ProcessInfo>, alive: Schedule, termPolls: nat, killPolls: nat, b: ProcessInfo)
    requires PidDistinct(managed) && Shrinking(alive) && b.pid in baseline
    ensures var c := Cleaned(alive, Leaked(managed, baseline), termPolls, killPolls);
      (exists i :: 0 <= i < |c.log| && Reaches(c.log[i].to, b))
      <==>
      (exists q :: q in c.live && IsLeader(q) && q.pgid == b.pgid)
  {
    var leaked := Leaked(managed, baseline);
    LeakedIs(managed, baseline);
    var c := Cleaned(alive, leaked, termPolls, killPolls);
    CleanupLists(alive, leaked, termPolls, killPolls);
    var t, u := |leaked|, KillTick(alive, leaked, termPolls);
    BystanderIsHitExactlyThroughItsGroup(c.live, SigTerm, t, b);
    BystanderIsHitExactlyThroughItsGroup(c.survivors, SigKill, u, b);
    ReachedInEitherRound(Signals(SigTerm, Targets(c.live), t), Signals(SigKill, Targets(c.survivors), u), b);
  }

  const LEADER := ProcessInfo(10, 1, 10, "?", "vite", "/repo/frontend", Frontend)
  const BYSTANDER := ProcessInfo(11, 10, 10, "?", "vite", "/repo/frontend", Frontend)

  lemma OnlyTheLeaderLeaked()
    ensures Leaked([BYSTANDER, LEADER], {BYSTANDER.pid}) == [LEADER]
  {
    assert [BYSTANDER, LEADER][1..] == [LEADER] && [LEADER][1..] == [];
    assert Leaked([LEADER], {BYSTANDER.pid}) == [LEADER] + Leaked([], {BYSTANDER.pid});
  }

  /** For one: a baseline process in the group of a live leader that came later gets its SIGTERM. */
  lemma BaselineProcessIsHitThroughItsGroup(alive: Schedule, termPolls: nat, killPolls: nat)
    requires LEADER.pid in alive(0)
    ensures var log := Cleaned(alive, Leaked([BYSTANDER, LEADER], {BYSTANDER.pid}), termPolls, killPolls).log;
      exists i :: 0 <= i < |log| && log[i].signal == SigTerm && Reaches(log[i].to, BYSTANDER)
  {
    OnlyTheLeaderLeaked();
    assert [LEADER][1..] == [];
    assert Alive(alive, 0, [LEADER]) == [LEADER];
    var terms := Signals(SigTerm, Targets([LEADER]), 1);
    BystanderIsHitExactlyThroughItsGroup([LEADER], SigTerm, 1, BYSTANDER);
    assert LEADER in [LEADER] && IsLeader(LEADER);
    var i :| 0 <= i < |terms| && Reaches(terms[i].to, BYSTANDER);
    SignalsAre(SigTerm, Targets([LEADER]), 1);
    var log := Cleaned(alive, [LEADER], termPolls, killPolls).log;
    assert terms <= log;
    assert log[i] == terms[i];
  }
}
