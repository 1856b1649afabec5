/**
 The escalation from SIGTERM to SIGKILL. The operating system is an adversary: it decides,
 tick by tick, which processes are still there, whatever was signalled; the only thing it
 may not do is bring a pid back. Every probe and every signal takes one tick.
*/
module CleanupProtocol {
  import opened CleanupTargets

  /** The pids alive at each tick. */
  type Schedule = nat -> set<nat>

  ghost predicate Shrinking(alive: Schedule) {
    forall s: nat, t: nat :: s <= t ==> alive(t) <= alive(s)
  }

  datatype Signal = SigTerm | SigKill
  datatype Recipient = ToGroup(pgid: nat) | ToPid(pid: nat)
  /** The number in the call of kill(2): a pid, or the id of a group, which is its leader's pid. */
  function Named(to: Recipient): nat {
    if to.ToGroup? then to.pgid else to.pid
  }

  /** One signal, and the tick at which it is sent. */
  datatype Sent = Sent(signal: Signal, to: Recipient, at: nat)

  predicate Reaches(to: Recipient, p: ProcessInfo) {
    match to
    case ToGroup(pgid) => p.pgid == pgid
    case ToPid(pid) => p.pid == pid
  }

  function RecipientOf(t: Target): Recipient {
    if t.Group? then ToGroup(t.leader.pid) else ToPid(t.process.pid)
  }

  /** The signal goes to every target, in order, one tick after the other. */
  function Signals(signal: Signal, targets: seq<Target>, t: nat): seq<Sent>
    decreases |targets|
  {
    if targets == [] then []
    else [Sent(signal, RecipientOf(targets[0]), t)] + Signals(signal, targets[1..], t + 1)
  }

  lemma {:induction false} SignalsAre(signal: Signal, targets: seq<Target>, t: nat)
    ensures |Signals(signal, targets, t)| == |targets|
    ensures forall i :: 0 <= i < |targets| ==>
      Signals(signal, targets, t)[i] == Sent(signal, RecipientOf(targets[i]), t + i)
    decreases |targets|
  {
    if targets != [] {
      SignalsAre(signal, targets[1..], t + 1);
    }
  }

  /** `processes.filter((p) => pidExists(p.pid))`, started at tick `t`. */
  function Alive(alive: Schedule, t: nat, processes: seq<ProcessInfo>): seq<ProcessInfo>
    decreases |processes|
  {
    if processes == [] then []
    else (if processes[0].pid in alive(t) then [processes[0]] else []) + Alive(alive, t + 1, processes[1..])
  }

  /**
   What `waitForProcessesExit` finds when the clock lets the loop poll `polls` times: the
   processes left by the sweep that ended the wait, and the tick after it.
  */
  function Wait(alive: Schedule, t: nat, processes: seq<ProcessInfo>, polls: nat): (seq<ProcessInfo>, nat)
    decreases polls
  {
    var left, after := Alive(alive, t, processes), t + |processes|;
    if polls == 0 || left == [] then (left, after)
    else Wait(alive, after + 1, processes, polls - 1)
  }

  /** `waitForProcessesExit`: poll and sleep until nothing is left or the time is up. */
  method WaitForProcessesExit(alive: Schedule, start: nat, processes: seq<ProcessInfo>, polls: nat)
    returns (left: seq<ProcessInfo>, end: nat)
    ensures (left, end) == Wait(alive, start, processes, polls)
  {
    var t: nat, budget: nat := start, polls;
    while budget > 0
      invariant Wait(alive, start, processes, polls) == Wait(alive, t, processes, budget)
    {
      var remaining := Alive(alive, t, processes);
      t := t + |processes|;
      if |remaining| == 0 {
        return [], t;
      }
      t := t + 1;
      budget := budget - 1;
    }
    return Alive(alive, t, processes), t + |processes|;
  }

  /** `list.filter((p) => !remaining.some((c) => c.pid === p.pid))` */
  function WithoutPids(processes: seq<ProcessInfo>, remaining: seq<ProcessInfo>): seq<ProcessInfo> {
    if processes == [] then []
    else (if exists c :: c in remaining && c.pid == processes[0].pid then [] else [processes[0]])
         + WithoutPids(processes[1..], remaining)
  }

  /** All of one cleanup: who was alive, who outlived SIGTERM, who is left, and what was sent. */
  datatype Cleanup = Cleanup(
    live: seq<ProcessInfo>,
    survivors: seq<ProcessInfo>,
    remaining: seq<ProcessInfo>,
    cleaned: seq<ProcessInfo>,
    log: seq<Sent>,
    end: nat)

  /** One round: after the signals of the log, wait. An empty list needs no wait. */
  function Round(alive: Schedule, t: nat, processes: seq<ProcessInfo>, log: seq<Sent>, polls: nat)
    : (seq<ProcessInfo>, nat)
  {
    if processes == [] then ([], t) else Wait(alive, t + |log|, processes, polls)
  }

  /** One `cleanupManagedRepoProcesses` call, from tick 0. */
  function Cleaned(alive: Schedule, processes: seq<ProcessInfo>, termPolls: nat, killPolls: nat): Cleanup {
    var live := Alive(alive, 0, processes);
    var terms := Signals(SigTerm, Targets(live), |processes|);
    var (survivors, t1) := Round(alive, |processes|, live, terms, termPolls);
    var kills := Signals(SigKill, Targets(survivors), t1);
    var (remaining, t2) := Round(alive, t1, survivors, kills, killPolls);
    Cleanup(live, survivors, remaining, WithoutPids(live, remaining), terms + kills, t2)
  }

  lemma NoTargetsNoSignals(signal: Signal, t: nat)
    ensures Signals(signal, Targets([]), t) == []
  {
    assert Targets([]) == [];
  }

  /** Send one signal to every target, in order. */
  method SignalAll(signal: Signal, processes: seq<ProcessInfo>, start: nat) returns (log: seq<Sent>)
    ensures log == Signals(signal, Targets(processes), start)
  {
    var targets := BuildCleanupTargets(processes);
    log := [];
    for i := 0 to |targets|
      invariant |log| == i
      invariant forall k :: 0 <= k < i ==> log[k] == Sent(signal, RecipientOf(targets[k]), start + k)
    {
      if targets[i].Group? {
        log := log + [Sent(signal, ToGroup(targets[i].leader.pid), start + i)];
      } else {
        log := log + [Sent(signal, ToPid(targets[i].process.pid), start + i)];
      }
    }
    SignalsAre(signal, targets, start);
    assert log == Signals(signal, targets, start);
  }

  /** The block that both rounds repeat: unless the list is empty, signal its targets and wait. */
  method RunRound(alive: Schedule, start: nat, processes: seq<ProcessInfo>, signal: Signal, polls: nat)
    returns (left: seq<ProcessInfo>, end: nat, log: seq<Sent>)
    ensures log == Signals(signal, Targets(processes), start)
    ensures (left, end) == Round(alive, start, processes, log, polls)
  {
    if |processes| == 0 {
      NoTargetsNoSignals(signal, start);
      return [], start, [];
    }
    log := SignalAll(signal, processes, start);
    left, end := WaitForProcessesExit(alive, start + |log|, processes, polls);
  }

  /** `cleanupManagedRepoProcesses` */
  method CleanupManagedRepoProcesses(
    alive: Schedule, processes: seq<ProcessInfo>, termPolls: nat, killPolls: nat)
    returns (cleaned: seq<ProcessInfo>, remaining: seq<ProcessInfo>, log: seq<Sent>, end: nat)
    ensures var c := Cleaned(alive, processes, termPolls, killPolls);
      cleaned == c.cleaned && remaining == c.remaining && log == c.log && end == c.end
  {
    var live := Alive(alive, 0, processes);
    var terms, kills;
    remaining, end, terms := RunRound(alive, |processes|, live, SigTerm, termPolls);
    remaining, end, kills := RunRound(alive, end, remaining, SigKill, killPolls);
    log := terms + kills;
    cleaned := WithoutPids(live, remaining);
  }

  // ---------------------------------------------------- what a wait tells

  /** `left` holds only listed processes, each once, and those it dropped are gone at `end`. */
  ghost predicate Sifted(alive: Schedule, processes: seq<ProcessInfo>, left: seq<ProcessInfo>, end: nat) {
    && PidDistinct(left)
    && (forall p :: p in left ==> p in processes)
    && (forall p :: p in processes && p !in left ==> p.pid !in alive(end))
  }

  lemma {:induction false} AliveSifts(alive: Schedule, t: nat, processes: seq<ProcessInfo>)
    requires Shrinking(alive) && PidDistinct(processes)
    ensures Sifted(alive, processes, Alive(alive, t, processes), t + |processes|)
    decreases |processes|
  {
    if processes != [] {
      var first, rest := processes[0], processes[1..];
      assert processes == [first] + rest;
      AliveSifts(alive, t + 1, rest);
      var kept := Alive(alive, t + 1, rest);
      var end := t + |processes|;
      assert Sifted(alive, rest, kept, end);
      assert alive(end) <= alive(t);
      FirstSifts(alive, first, rest, kept, first.pid in alive(t), end);
    }
  }

  lemma FirstSifts(
    alive: Schedule, first: ProcessInfo, rest: seq<ProcessInfo>, kept: seq<ProcessInfo>, keep: bool, end: nat)
    requires PidDistinct([first] + rest) && Sifted(alive, rest, kept, end)
    requires !keep ==> first.pid !in alive(end)
    ensures Sifted(alive, [first] + rest, (if keep then [first] else []) + kept, end)
  {
    var all := [first] + rest;
    forall p | p in kept ensures p in all && p.pid != first.pid {
      var k :| 0 <= k < |rest| && rest[k] == p;
      assert all[k + 1] == p && all[0] == first;
      assert all[0].pid != all[k + 1].pid;
    }
    assert [] + kept == kept;
  }

  /** The probe of the process at that place of the list finds it alive. */
  predicate FoundAt(alive: Schedule, t: nat, processes: seq<ProcessInfo>, p: ProcessInfo, k: nat) {
    k < |processes| && processes[k] == p && p.pid in alive(t + k)
  }

  lemma {:induction false} SweepFound(alive: Schedule, t: nat, processes: seq<ProcessInfo>, p: ProcessInfo)
    returns (k: nat)
    requires p in Alive(alive, t, processes)
    ensures FoundAt(alive, t, processes, p, k)
    decreases |processes|
  {
    if processes[0] == p && p.pid in alive(t) {
      k := 0;
    } else {
      var j := SweepFound(alive, t + 1, processes[1..], p);
      k := j + 1;
      assert t + 1 + j == t + k;
    }
  }

  lemma {:induction false} SweepFinds(alive: Schedule, t: nat, processes: seq<ProcessInfo>, p: ProcessInfo, k: nat)
    requires FoundAt(alive, t, processes, p, k)
    ensures p in Alive(alive, t, processes)
    decreases |processes|
  {
    if k > 0 {
      assert t + k == t + 1 + (k - 1);
      SweepFinds(alive, t + 1, processes[1..], p, k - 1);
    }
  }

  /** A sweep keeps a process exactly when its own probe finds it alive. */
  lemma AliveExactlyWhen(alive: Schedule, t: nat, processes: seq<ProcessInfo>, p: ProcessInfo)
    ensures p in Alive(alive, t, processes) <==> exists k: nat :: FoundAt(alive, t, processes, p, k)
  {
    if p in Alive(alive, t, processes) {
      var k := SweepFound(alive, t, processes, p);
    }
    if k: nat :| FoundAt(alive, t, processes, p, k) {
      SweepFinds(alive, t, processes, p, k);
    }
  }

  /** And it keeps the order: first what it finds of one part, then what it finds of the next. */
  lemma {:induction false} AliveKeepsOrder(alive: Schedule, t: nat, a: seq<ProcessInfo>, b: seq<ProcessInfo>)
    ensures Alive(alive, t, a + b) == Alive(alive, t, a) + Alive(alive, t + |a|, b)
    decreases |a|
  {
    if a == [] {
      assert a + b == b;
    } else {
      var found := if a[0].pid in alive(t) then [a[0]] else [];
      assert (a + b)[1..] == a[1..] + b;
      AliveKeepsOrder(alive, t + 1, a[1..], b);
      assert Alive(alive, t, a) == found + Alive(alive, t + 1, a[1..]);
      assert Alive(alive, t, a + b) == found + Alive(alive, t + 1, a[1..] + b);
    }
  }

  /** The ticks that so many polls take: each sweeps a list of the given length and pauses. */
  function PollTicks(polls: nat, length: nat): nat {
    if polls == 0 then 0 else length + 1 + PollTicks(polls - 1, length)
  }

  lemma {:induction false} PollTicksMultiply(polls: nat, length: nat)
    ensures PollTicks(polls, length) == polls * (length + 1)
  {
    if polls > 0 {
      PollTicksMultiply(polls - 1, length);
      assert polls * (length + 1) == (polls - 1) * (length + 1) + length + 1;
    }
  }

  /**
   A wait ends with the sweep whose findings it returns; it finds anyone then only after every
   poll that the time allowed.
  */
  lemma {:induction false} WaitEndsWithASweep(alive: Schedule, t: nat, processes: seq<ProcessInfo>, polls: nat)
    ensures var (left, end) := Wait(alive, t, processes, polls);
      && end >= t + |processes|
      && left == Alive(alive, end - |processes|, processes)
      && (left != [] ==> end == t + PollTicks(polls, |processes|) + |processes|)
    decreases polls
  {
    if polls > 0 && Alive(alive, t, processes) != [] {
      WaitEndsWithASweep(alive, t + |processes| + 1, processes, polls - 1);
    }
  }

  lemma {:induction false} WaitSifts(alive: Schedule, t: nat, processes: seq<ProcessInfo>, polls: nat)
    requires Shrinking(alive) && PidDistinct(processes)
    ensures var (left, end) := Wait(alive, t, processes, polls);
      end >= t + |processes| && Sifted(alive, processes, left, end)
    decreases polls
  {
    AliveSifts(alive, t, processes);
    if polls > 0 && Alive(alive, t, processes) != [] {
      WaitSifts(alive, t + |processes| + 1, processes, polls - 1);
    }
  }

  /** A wait gives up on a process only when its time is up: after every poll and the last sweep. */
  lemma WaitGivesUpOnlyAtTheEnd(alive: Schedule, t: nat, processes: seq<ProcessInfo>, polls: nat)
    ensures var (left, end) := Wait(alive, t, processes, polls);
      left != [] ==> end == t + polls * (|processes| + 1) + |processes|
  {
    WaitEndsWithASweep(alive, t, processes, polls);
    PollTicksMultiply(polls, |processes|);
  }

  // ------------------------------------------------------ one signal each

  predicate Carries(entry: Sent, signal: Signal, p: ProcessInfo) {
    entry.signal == signal && Reaches(entry.to, p)
  }

  /** Entry `i`, and no other entry of the log, carries the signal to the process. */
  predicate CarriedOnlyAt(log: seq<Sent>, signal: Signal, p: ProcessInfo, i: nat) {
    && i < |log| && Carries(log[i], signal, p)
    && forall j :: 0 <= j < |log| && Carries(log[j], signal, p) ==> j == i
  }

  /** Exactly one entry of the log carries the signal to the process. */
  ghost predicate SignalledOnce(log: seq<Sent>, signal: Signal, p: ProcessInfo) {
    exists i: nat :: CarriedOnlyAt(log, signal, p, i)
  }

  lemma {:induction false} OutsideDistinct(processes: seq<ProcessInfo>, grouped: set<nat>)
    requires PidDistinct(processes)
    ensures forall p :: p in Outside(processes, grouped) ==> p in processes
    ensures PidDistinct(Outside(processes, grouped))
  {
    if processes != [] {
      var init, last := processes[..|processes| - 1], processes[|processes| - 1];
      assert processes == init + [last];
      assert PidDistinct(init);
      OutsideDistinct(init, grouped);
      forall p | p in Outside(init, grouped) ensures p.pid != last.pid {
        var k :| 0 <= k < |init| && init[k] == p;
        assert processes[k] == p;
      }
    }
  }

  /** Two targets never reach the same listed process. */
  lemma ReachedByOne(processes: seq<ProcessInfo>, p: ProcessInfo, i: nat, j: nat)
    requires PidDistinct(processes) && p in processes
    requires i < j < |Targets(processes)|
    ensures !(Reaches(RecipientOf(Targets(processes)[i]), p) && Reaches(RecipientOf(Targets(processes)[j]), p))
  {
    var t, u := Targets(processes)[i], Targets(processes)[j];
    TargetAtIsWellFormed(processes, i);
    TargetAtIsWellFormed(processes, j);
    if t.Group? && u.Group? {
      GroupsDiffer(processes, i, j);
    } else if t.Single? && u.Single? {
      TargetAt(processes, i);
      TargetAt(processes, j);
      OutsideDistinct(processes, GroupedPids(processes, GroupIds(processes)));
    }
  }

  /** A process of a keyed group is reached through the group. */
  lemma ReachedByGroup(processes: seq<ProcessInfo>, p: ProcessInfo) returns (i: nat)
    requires p.pgid in GroupIds(processes)
    ensures i < |Targets(processes)| && Reaches(RecipientOf(Targets(processes)[i]), p)
    ensures Targets(processes)[i].Group?
  {
    var ids := GroupIds(processes);
    i :| 0 <= i < |ids| && ids[i] == p.pgid;
    TargetAt(processes, i);
    KeysAreLeaders(processes);
  }

  /** Any other process is a target of its own. */
  lemma ReachedAlone(processes: seq<ProcessInfo>, p: ProcessInfo) returns (i: nat)
    requires PidDistinct(processes) && p in processes && p.pgid !in GroupIds(processes)
    ensures i < |Targets(processes)| && Targets(processes)[i] == Single(p)
  {
    SinglesAreTheRest(processes);
    var singles := Loners(processes);
    assert p in singles;
    var k :| 0 <= k < |singles| && singles[k] == p;
    i := |GroupIds(processes)| + k;
    TargetAt(processes, i);
  }

  lemma EveryoneIsSignalledOnce(processes: seq<ProcessInfo>, signal: Signal, t: nat, p: ProcessInfo)
    requires PidDistinct(processes) && p in processes
    ensures SignalledOnce(Signals(signal, Targets(processes), t), signal, p)
  {
    var log := Signals(signal, Targets(processes), t);
    SignalsAre(signal, Targets(processes), t);
    var i: nat;
    if p.pgid in GroupIds(processes) {
      i := ReachedByGroup(processes, p);
    } else {
      i := ReachedAlone(processes, p);
    }
    forall j | 0 <= j < |log| && Carries(log[j], signal, p) ensures j == i {
      if i < j {
        ReachedByOne(processes, p, i, j);
      } else if j < i {
        ReachedByOne(processes, p, j, i);
      }
    }
    assert CarriedOnlyAt(log, signal, p, i);
  }

  predicate AllCarry(log: seq<Sent>, signal: Signal) {
    forall i :: 0 <= i < |log| ==> log[i].signal == signal
  }

  lemma TermOnceInLog(terms: seq<Sent>, kills: seq<Sent>, p: ProcessInfo)
    requires AllCarry(kills, SigKill) && SignalledOnce(terms, SigTerm, p)
    ensures SignalledOnce(terms + kills, SigTerm, p)
  {
    var i: nat :| CarriedOnlyAt(terms, SigTerm, p, i);
    assert CarriedOnlyAt(terms + kills, SigTerm, p, i);
  }

  lemma KillOnceInLog(terms: seq<Sent>, kills: seq<Sent>, p: ProcessInfo)
    requires AllCarry(terms, SigTerm) && SignalledOnce(kills, SigKill, p)
    ensures SignalledOnce(terms + kills, SigKill, p)
  {
    var i: nat :| CarriedOnlyAt(kills, SigKill, p, i);
    assert CarriedOnlyAt(terms + kills, SigKill, p, |terms| + i);
  }

  // ------------------------------------------------------- the main results

  lemma {:induction false} WithoutPidsIs(processes: seq<ProcessInfo>, remaining: seq<ProcessInfo>)
    requires PidDistinct(processes)
    ensures forall p :: p in WithoutPids(processes, remaining) <==>
              p in processes && !exists c :: c in remaining && c.pid == p.pid
    ensures PidDistinct(WithoutPids(processes, remaining))
  {
    if processes != [] {
      assert processes == [processes[0]] + processes[1..];
      WithoutPidsIs(processes[1..], remaining);
    }
  }

  lemma {:induction false} CountOnce(processes: seq<ProcessInfo>, p: ProcessInfo)
    requires PidDistinct(processes)
    ensures multiset(processes)[p] == if p in processes then 1 else 0
  {
    if processes != [] {
      assert processes == [processes[0]] + processes[1..];
      CountOnce(processes[1..], p);
    }
  }

  lemma SamePid(processes: seq<ProcessInfo>, p: ProcessInfo, q: ProcessInfo)
    requires PidDistinct(processes) && p in processes && q in processes && p.pid == q.pid
    ensures p == q
  {
  }

  lemma CleanedAndRemainingPartition(live: seq<ProcessInfo>, remaining: seq<ProcessInfo>)
    requires PidDistinct(live) && PidDistinct(remaining)
    requires forall p :: p in remaining ==> p in live
    ensures multiset(WithoutPids(live, remaining)) + multiset(remaining) == multiset(live)
    ensures forall p :: p in WithoutPids(live, remaining) <==> p in live && p !in remaining
  {
    var cleaned := WithoutPids(live, remaining);
    WithoutPidsIs(live, remaining);
    forall p ensures p in cleaned <==> p in live && p !in remaining {
      if p in live && p !in remaining && p !in cleaned {
        var c :| c in remaining && c.pid == p.pid;
        SamePid(live, c, p);
      }
    }
    forall p ensures multiset(cleaned)[p] + multiset(remaining)[p] == multiset(live)[p] {
      CountOnce(cleaned, p);
      CountOnce(remaining, p);
      CountOnce(live, p);
    }
  }

  /** The round that sends the signal at tick `t` leaves these processes and is over at `end`. */
  predicate IsRound(
    alive: Schedule, t: nat, processes: seq<ProcessInfo>, signal: Signal, polls: nat, left: seq<ProcessInfo>, end: nat)
  {
    (left, end) == Round(alive, t, processes, Signals(signal, Targets(processes), t), polls)
  }

  lemma RoundSifts(
    alive: Schedule, t: nat, processes: seq<ProcessInfo>, signal: Signal, polls: nat, left: seq<ProcessInfo>, end: nat)
    requires Shrinking(alive) && PidDistinct(processes)
    requires IsRound(alive, t, processes, signal, polls, left, end)
    ensures t <= end && Sifted(alive, processes, left, end)
  {
    if processes != [] {
      WaitSifts(alive, t + |Signals(signal, Targets(processes), t)|, processes, polls);
    }
  }

  /** A round with `n` signals: its last sweep, and when that was. */
  predicate SweptLast(
    alive: Schedule, t: nat, processes: seq<ProcessInfo>, n: nat, polls: nat, left: seq<ProcessInfo>, end: nat)
  {
    && (processes == [] ==> left == [] && end == t)
    && (processes != [] ==>
          end >= t + n + |processes| && left == Alive(alive, end - |processes|, processes))
    && (left != [] ==> end == t + n + PollTicks(polls, |processes|) + |processes|)
  }

  lemma WaitIsOver(
    alive: Schedule, t: nat, processes: seq<ProcessInfo>, n: nat, polls: nat, left: seq<ProcessInfo>, end: nat)
    requires processes != [] && (left, end) == Wait(alive, t + n, processes, polls)
    ensures SweptLast(alive, t, processes, n, polls, left, end)
  {
    WaitEndsWithASweep(alive, t + n, processes, polls);
  }

  lemma RoundIsOver(
    alive: Schedule, t: nat, processes: seq<ProcessInfo>, signal: Signal, polls: nat, left: seq<ProcessInfo>, end: nat)
    requires IsRound(alive, t, processes, signal, polls, left, end)
    ensures SweptLast(alive, t, processes, |Targets(processes)|, polls, left, end)
  {
    SignalsAre(signal, Targets(processes), t);
    if processes != [] {
      WaitIsOver(alive, t, processes, |Signals(signal, Targets(processes), t)|, polls, left, end);
    }
  }

  /** Sifting twice sifts. */
  lemma SiftedTwice(
    alive: Schedule, live: seq<ProcessInfo>, survivors: seq<ProcessInfo>, remaining: seq<ProcessInfo>, t1: nat, t2: nat)
    requires Shrinking(alive) && t1 <= t2
    requires Sifted(alive, live, survivors, t1) && Sifted(alive, survivors, remaining, t2)
    ensures Sifted(alive, live, remaining, t2)
  {
    assert alive(t2) <= alive(t1);
  }

  /** The tick at which the first round is over and SIGKILLs may begin. */
  function KillTick(alive: Schedule, processes: seq<ProcessInfo>, termPolls: nat): nat {
    var live := Alive(alive, 0, processes);
    Round(alive, |processes|, live, Signals(SigTerm, Targets(live), |processes|), termPolls).1
  }

  /** The whole log: SIGTERM to the targets of the live, then SIGKILL to those of the survivors. */
  function BothRounds(live: seq<ProcessInfo>, t: nat, survivors: seq<ProcessInfo>, u: nat): seq<Sent> {
    Signals(SigTerm, Targets(live), t) + Signals(SigKill, Targets(survivors), u)
  }

  /** A cleanup is two rounds, one after the other. */
  lemma CleanedInTwoRounds(alive: Schedule, processes: seq<ProcessInfo>, termPolls: nat, killPolls: nat)
    ensures var c, k := Cleaned(alive, processes, termPolls, killPolls), KillTick(alive, processes, termPolls);
      && c.live == Alive(alive, 0, processes)
      && IsRound(alive, |processes|, c.live, SigTerm, termPolls, c.survivors, k)
      && IsRound(alive, k, c.survivors, SigKill, killPolls, c.remaining, c.end)
      && c.cleaned == WithoutPids(c.live, c.remaining)
      && c.log == BothRounds(c.live, |processes|, c.survivors, k)
  {
  }

  lemma RoundsSift(
    alive: Schedule, t: nat, live: seq<ProcessInfo>, termPolls: nat, survivors: seq<ProcessInfo>, k: nat,
    killPolls: nat, remaining: seq<ProcessInfo>, end: nat)
    requires Shrinking(alive) && PidDistinct(live)
    requires IsRound(alive, t, live, SigTerm, termPolls, survivors, k)
    requires IsRound(alive, k, survivors, SigKill, killPolls, remaining, end)
    ensures PidDistinct(survivors) && Sifted(alive, live, remaining, end)
    ensures forall p :: p in survivors ==> p in live
    ensures forall p :: p in remaining ==> p in survivors
  {
    RoundSifts(alive, t, live, SigTerm, termPolls, survivors, k);
    RoundSifts(alive, k, survivors, SigKill, killPolls, remaining, end);
    SiftedTwice(alive, live, survivors, remaining, k, end);
  }

  /** How the lists of one cleanup lie in each other, who is gone at its end, and what was sent. */
  lemma CleanupLists(alive: Schedule, processes: seq<ProcessInfo>, termPolls: nat, killPolls: nat)
    requires Shrinking(alive) && PidDistinct(processes)
    ensures var c := Cleaned(alive, processes, termPolls, killPolls);
      && Sifted(alive, processes, c.live, |processes|)
      && PidDistinct(c.survivors)
      && (forall p :: p in c.survivors ==> p in c.live)
      && (forall p :: p in c.remaining ==> p in c.survivors)
      && Sifted(alive, c.live, c.remaining, c.end)
      && c.cleaned == WithoutPids(c.live, c.remaining)
      && c.log == BothRounds(c.live, |processes|, c.survivors, KillTick(alive, processes, termPolls))
  {
    var c, k := Cleaned(alive, processes, termPolls, killPolls), KillTick(alive, processes, termPolls);
    AliveSifts(alive, 0, processes);
    CleanedInTwoRounds(alive, processes, termPolls, killPolls);
    RoundsSift(alive, |processes|, c.live, termPolls, c.survivors, k, killPolls, c.remaining, c.end);
  }

  /**
   For any schedule the operating system chooses and any time the waits take: `cleaned` and
   `remaining` partition the processes that were alive at the start, and every cleaned
   process is gone for good when the call returns.
  */
  lemma CleanupPartitionsTheLive(alive: Schedule, processes: seq<ProcessInfo>, termPolls: nat, killPolls: nat)
    requires Shrinking(alive) && PidDistinct(processes)
    ensures var c := Cleaned(alive, processes, termPolls, killPolls);
      && c.live == Alive(alive, 0, processes)
      && multiset(c.cleaned) + multiset(c.remaining) == multiset(c.live)
      && forall p, u: nat :: p in c.cleaned && c.end <= u ==> p.pid !in alive(u)
  {
    var c := Cleaned(alive, processes, termPolls, killPolls);
    CleanupLists(alive, processes, termPolls, killPolls);
    CleanedAndRemainingPartition(c.live, c.remaining);
    forall p, u: nat | p in c.cleaned && c.end <= u ensures p.pid !in alive(u) {
      assert alive(u) <= alive(c.end);
    }
  }

  /** No SIGTERM follows a SIGKILL, and the signals are sent one after the other. */
  predicate TermsFirst(log: seq<Sent>) {
    && (forall i, j :: 0 <= i < j < |log| && log[i].signal == SigKill ==> log[j].signal == SigKill)
    && (forall i, j :: 0 <= i < j < |log| ==> log[i].at < log[j].at)
  }

  lemma EveryoneInBothRounds(live: seq<ProcessInfo>, t: nat, survivors: seq<ProcessInfo>, u: nat, p: ProcessInfo)
    requires PidDistinct(live) && PidDistinct(survivors)
    requires survivors == [] || t + |Targets(live)| <= u
    ensures var log := BothRounds(live, t, survivors, u);
      && TermsFirst(log)
      && (p in live ==> SignalledOnce(log, SigTerm, p))
      && (p in survivors ==> SignalledOnce(log, SigKill, p))
  {
    var terms, kills := Signals(SigTerm, Targets(live), t), Signals(SigKill, Targets(survivors), u);
    SignalsAre(SigTerm, Targets(live), t);
    SignalsAre(SigKill, Targets(survivors), u);
    NoTargetsNoSignals(SigKill, u);
    if p in live {
      EveryoneIsSignalledOnce(live, SigTerm, t, p);
      TermOnceInLog(terms, kills, p);
    }
    if p in survivors {
      EveryoneIsSignalledOnce(survivors, SigKill, u, p);
      KillOnceInLog(terms, kills, p);
    }
  }

  /** No listed leader of the process's group is in the list. */
  ghost predicate Leaderless(processes: seq<ProcessInfo>, p: ProcessInfo) {
    forall q :: q in processes && IsLeader(q) ==> q.pgid != p.pgid
  }

  /** The log sends SIGKILL to the process's own pid. */
  predicate KilledByPid(log: seq<Sent>, p: ProcessInfo) {
    exists i :: 0 <= i < |log| && log[i].signal == SigKill && log[i].to == ToPid(p.pid)
  }

  lemma OrphanIsKilledAlone(live: seq<ProcessInfo>, t: nat, survivors: seq<ProcessInfo>, u: nat, p: ProcessInfo)
    requires PidDistinct(survivors) && p in survivors && Leaderless(survivors, p)
    ensures KilledByPid(BothRounds(live, t, survivors, u), p)
  {
    KeysAreLeaders(survivors);
    SignalsAre(SigKill, Targets(survivors), u);
    var i := ReachedAlone(survivors, p);
    var terms := Signals(SigTerm, Targets(live), t);
    assert BothRounds(live, t, survivors, u)[|terms| + i] == Sent(SigKill, ToPid(p.pid), u + i);
  }

  lemma AliveThroughout(alive: Schedule, t: nat, processes: seq<ProcessInfo>, p: ProcessInfo)
    requires p in processes && forall u: nat :: p.pid in alive(u)
    ensures p in Alive(alive, t, processes)
  {
    var k: nat :| k < |processes| && processes[k] == p;
    SweepFinds(alive, t, processes, p, k);
  }

  lemma AliveIsLeft(
    alive: Schedule, t: nat, processes: seq<ProcessInfo>, n: nat, polls: nat, left: seq<ProcessInfo>, end: nat,
    p: ProcessInfo)
    requires SweptLast(alive, t, processes, n, polls, left, end)
    requires p in processes && forall t: nat :: p.pid in alive(t)
    ensures p in left
  {
    AliveThroughout(alive, end - |processes|, processes, p);
  }

  /** When the two rounds of a cleanup are over. */
  lemma RoundsAreOver(alive: Schedule, processes: seq<ProcessInfo>, termPolls: nat, killPolls: nat)
    ensures var c, k := Cleaned(alive, processes, termPolls, killPolls), KillTick(alive, processes, termPolls);
      && SweptLast(alive, |processes|, c.live, |Targets(c.live)|, termPolls, c.survivors, k)
      && SweptLast(alive, k, c.survivors, |Targets(c.survivors)|, killPolls, c.remaining, c.end)
  {
    var c, k := Cleaned(alive, processes, termPolls, killPolls), KillTick(alive, processes, termPolls);
    CleanedInTwoRounds(alive, processes, termPolls, killPolls);
    RoundIsOver(alive, |processes|, c.live, SigTerm, termPolls, c.survivors, k);
    RoundIsOver(alive, k, c.survivors, SigKill, killPolls, c.remaining, c.end);
  }

  lemma SurvivesEverything(
    alive: Schedule, processes: seq<ProcessInfo>, termPolls: nat, killPolls: nat, p: ProcessInfo)
    requires p in processes && forall t: nat :: p.pid in alive(t)
    ensures var c := Cleaned(alive, processes, termPolls, killPolls);
      p in c.live && p in c.survivors && p in c.remaining
  {
    var c, k := Cleaned(alive, processes, termPolls, killPolls), KillTick(alive, processes, termPolls);
    AliveThroughout(alive, 0, processes, p);
    RoundsAreOver(alive, processes, termPolls, killPolls);
    AliveIsLeft(alive, |processes|, c.live, |Targets(c.live)|, termPolls, c.survivors, k, p);
    AliveIsLeft(alive, k, c.survivors, |Targets(c.survivors)|, killPolls, c.remaining, c.end, p);
  }

  /**
   Whatever the schedule: no SIGTERM follows a SIGKILL. Every process that was alive at the
   start gets exactly one SIGTERM; every survivor of the first wait, and so every process that
   is still reported at the end, exactly one SIGKILL, through its group or its own pid. A
   listed process that never exits gets both and is reported.
  */
  lemma CleanupSignalsEveryone(
    alive: Schedule, processes: seq<ProcessInfo>, termPolls: nat, killPolls: nat, p: ProcessInfo)
    requires Shrinking(alive) && PidDistinct(processes)
    ensures var c := Cleaned(alive, processes, termPolls, killPolls);
      && TermsFirst(c.log)
      && (p in c.live ==> SignalledOnce(c.log, SigTerm, p))
      && (p in c.survivors ==> SignalledOnce(c.log, SigKill, p))
      && (p in c.remaining ==> SignalledOnce(c.log, SigKill, p))
      && (p in processes && (forall t: nat :: p.pid in alive(t)) ==>
            p in c.remaining && SignalledOnce(c.log, SigTerm, p) && SignalledOnce(c.log, SigKill, p))
  {
    var c, k := Cleaned(alive, processes, termPolls, killPolls), KillTick(alive, processes, termPolls);
    CleanupLists(alive, processes, termPolls, killPolls);
    RoundsAreOver(alive, processes, termPolls, killPolls);
    EveryoneInBothRounds(c.live, |processes|, c.survivors, k, p);
    if p in processes && forall t: nat :: p.pid in alive(t) {
      SurvivesEverything(alive, processes, termPolls, killPolls, p);
    }
  }

  /** Whoever a round leaves was still there when it began. */
  lemma LeftWereThere(
    alive: Schedule, t: nat, processes: seq<ProcessInfo>, n: nat, polls: nat, left: seq<ProcessInfo>, end: nat,
    q: ProcessInfo)
    requires Shrinking(alive) && SweptLast(alive, t, processes, n, polls, left, end) && q in left
    ensures q.pid in alive(t)
  {
    var start := end - |processes|;
    var j := SweepFound(alive, start, processes, q);
    assert alive(start + j) <= alive(t);
  }

  /**
   A survivor whose group leader did not survive is killed through its own pid; for one, a
   process reported at the end whose listed leaders were all gone when the SIGTERMs began.
  */
  lemma OrphansAreKilledByPid(
    alive: Schedule, processes: seq<ProcessInfo>, termPolls: nat, killPolls: nat, p: ProcessInfo)
    requires Shrinking(alive) && PidDistinct(processes)
    ensures var c := Cleaned(alive, processes, termPolls, killPolls);
      && (p in c.survivors && Leaderless(c.survivors, p) ==> KilledByPid(c.log, p))
      && (p in c.remaining && (forall q :: q in processes && q.pid == p.pgid ==> q.pid !in alive(|processes|)) ==>
            KilledByPid(c.log, p))
  {
    var c, k := Cleaned(alive, processes, termPolls, killPolls), KillTick(alive, processes, termPolls);
    CleanupLists(alive, processes, termPolls, killPolls);
    RoundsAreOver(alive, processes, termPolls, killPolls);
    if forall q :: q in processes && q.pid == p.pgid ==> q.pid !in alive(|processes|) {
      forall q | q in c.survivors && IsLeader(q) ensures q.pgid != p.pgid {
        LeftWereThere(alive, |processes|, c.live, |Targets(c.live)|, termPolls, c.survivors, k, q);
      }
    }
    if p in c.survivors && Leaderless(c.survivors, p) {
      OrphanIsKilledAlone(c.live, |processes|, c.survivors, k, p);
    }
  }

  lemma SignalledIsListed(processes: seq<ProcessInfo>, signal: Signal, t: nat, i: nat) returns (p: ProcessInfo)
    requires PidDistinct(processes) && i < |Signals(signal, Targets(processes), t)|
    ensures p in processes
    ensures Signals(signal, Targets(processes), t)[i].to == ToPid(p.pid)
         || (Signals(signal, Targets(processes), t)[i].to == ToGroup(p.pid) && IsLeader(p))
  {
    SignalsAre(signal, Targets(processes), t);
    TargetAtIsWellFormed(processes, i);
    var target := Targets(processes)[i];
    p := if target.Group? then target.leader else target.process;
  }

  lemma ListedInBothRounds(live: seq<ProcessInfo>, t: nat, survivors: seq<ProcessInfo>, u: nat, i: nat)
    returns (p: ProcessInfo)
    requires PidDistinct(live) && PidDistinct(survivors)
    requires i < |BothRounds(live, t, survivors, u)|
    ensures if BothRounds(live, t, survivors, u)[i].signal == SigTerm then p in live else p in survivors
    ensures var to := BothRounds(live, t, survivors, u)[i].to;
      to == ToPid(p.pid) || (to == ToGroup(p.pid) && IsLeader(p))
  {
    var terms := Signals(SigTerm, Targets(live), t);
    SignalsAre(SigTerm, Targets(live), t);
    SignalsAre(SigKill, Targets(survivors), u);
    if i < |terms| {
      p := SignalledIsListed(live, SigTerm, t, i);
    } else {
      p := SignalledIsListed(survivors, SigKill, u, i - |terms|);
    }
  }

  /**
   Every signal names the pid of a listed process that was alive at the start, or the group of
   one that leads it and has no terminal.
  */
  lemma CleanupSignalsOnlyTheListed(
    alive: Schedule, processes: seq<ProcessInfo>, termPolls: nat, killPolls: nat, i: nat)
    returns (p: ProcessInfo)
    requires Shrinking(alive) && PidDistinct(processes)
    requires i < |Cleaned(alive, processes, termPolls, killPolls).log|
    ensures p in processes && p in Cleaned(alive, processes, termPolls, killPolls).live
    ensures var entry := Cleaned(alive, processes, termPolls, killPolls).log[i];
      && (entry.signal == SigKill ==> p in Cleaned(alive, processes, termPolls, killPolls).survivors)
      && (entry.to == ToPid(p.pid)
          || (entry.to == ToGroup(p.pid) && p.pid == p.pgid && p.pgid > 0 && (p.tty == "?" || p.tty == "??")))
  {
    var c, k := Cleaned(alive, processes, termPolls, killPolls), KillTick(alive, processes, termPolls);
    CleanupLists(alive, processes, termPolls, killPolls);
    p := ListedInBothRounds(c.live, |processes|, c.survivors, k, i);
  }

  /** The log in full: one signal to each target, in target order; to a group by its leader's pid. */
  lemma LogFollowsTheTargets(alive: Schedule, processes: seq<ProcessInfo>, termPolls: nat, killPolls: nat, i: nat)
    requires Shrinking(alive) && PidDistinct(processes)
    ensures var c := Cleaned(alive, processes, termPolls, killPolls);
      var ts, ks := Targets(c.live), Targets(c.survivors);
      && |c.log| == |ts| + |ks|
      && (i < |ts| ==> c.log[i].signal == SigTerm && c.log[i].at == |processes| + i)
      && (i < |ts| && ts[i].Group? ==> c.log[i].to == ToGroup(ts[i].leader.pid))
      && (i < |ts| && ts[i].Single? ==> c.log[i].to == ToPid(ts[i].process.pid))
      && (i < |ks| ==> c.log[|ts| + i].signal == SigKill)
      && (i < |ks| && ks[i].Group? ==> c.log[|ts| + i].to == ToGroup(ks[i].leader.pid))
      && (i < |ks| && ks[i].Single? ==> c.log[|ts| + i].to == ToPid(ks[i].process.pid))
  {
    var c, k := Cleaned(alive, processes, termPolls, killPolls), KillTick(alive, processes, termPolls);
    CleanupLists(alive, processes, termPolls, killPolls);
    SignalsAre(SigTerm, Targets(c.live), |processes|);
    SignalsAre(SigKill, Targets(c.survivors), k);
  }

  /** A group gets the SIGTERM exactly when a process that was alive leads it and has no terminal. */
  lemma GroupsSignalledExactly(
    alive: Schedule, processes: seq<ProcessInfo>, termPolls: nat, killPolls: nat, g: nat)
    requires Shrinking(alive) && PidDistinct(processes)
    ensures var c := Cleaned(alive, processes, termPolls, killPolls);
      (exists i :: 0 <= i < |c.log| && c.log[i].signal == SigTerm && c.log[i].to == ToGroup(g))
      <==>
      (exists p :: p in c.live && p.pid == g && p.pgid == g && g > 0 && (p.tty == "?" || p.tty == "??"))
  {
    var c, k := Cleaned(alive, processes, termPolls, killPolls), KillTick(alive, processes, termPolls);
    CleanupLists(alive, processes, termPolls, killPolls);
    GroupTermsExactly(c.live, |processes|, c.survivors, k, g);
  }

  lemma GroupTermsExactly(live: seq<ProcessInfo>, t: nat, survivors: seq<ProcessInfo>, u: nat, g: nat)
    ensures var log := BothRounds(live, t, survivors, u);
      (exists i :: 0 <= i < |log| && log[i].signal == SigTerm && log[i].to == ToGroup(g))
      <==>
      (exists p :: p in live && p.pid == g && p.pgid == g && g > 0 && (p.tty == "?" || p.tty == "??"))
  {
    var ts, log := Targets(live), BothRounds(live, t, survivors, u);
    SignalsAre(SigTerm, ts, t);
    SignalsAre(SigKill, Targets(survivors), u);
    GroupTargetsExactly(live, g);
    if i :| 0 <= i < |log| && log[i].signal == SigTerm && log[i].to == ToGroup(g) {
      assert ts[i].Group? && ts[i].leader.pid == g;
    }
    if i :| 0 <= i < |ts| && ts[i].Group? && ts[i].leader.pid == g {
      assert log[i] == Sent(SigTerm, ToGroup(g), t + i);
    }
  }

  /** The tick of an entry of the log. */
  lemma SentAt(live: seq<ProcessInfo>, t: nat, survivors: seq<ProcessInfo>, u: nat, i: nat)
    requires i < |BothRounds(live, t, survivors, u)|
    ensures var entry := BothRounds(live, t, survivors, u)[i];
      if entry.signal == SigTerm then t <= entry.at < t + |Targets(live)|
      else u <= entry.at < u + |Targets(survivors)|
  {
    SignalsAre(SigTerm, Targets(live), t);
    SignalsAre(SigKill, Targets(survivors), u);
  }

  /** Every entry with the signal was sent more than so many ticks before. */
  predicate AllBefore(log: seq<Sent>, signal: Signal, ticks: nat, v: nat) {
    forall j :: 0 <= j < |log| && log[j].signal == signal ==> log[j].at + ticks < v
  }

  lemma TermsBefore(live: seq<ProcessInfo>, t: nat, survivors: seq<ProcessInfo>, u: nat, ticks: nat, v: nat)
    requires t + |Targets(live)| + ticks <= v
    ensures AllBefore(BothRounds(live, t, survivors, u), SigTerm, ticks, v)
  {
    var log := BothRounds(live, t, survivors, u);
    forall j | 0 <= j < |log| && log[j].signal == SigTerm ensures log[j].at + ticks < v {
      SentAt(live, t, survivors, u, j);
    }
  }

  lemma KillsBefore(live: seq<ProcessInfo>, t: nat, survivors: seq<ProcessInfo>, u: nat, ticks: nat, v: nat)
    requires u + |Targets(survivors)| + ticks <= v
    ensures AllBefore(BothRounds(live, t, survivors, u), SigKill, ticks, v)
  {
    var log := BothRounds(live, t, survivors, u);
    forall j | 0 <= j < |log| && log[j].signal == SigKill ensures log[j].at + ticks < v {
      SentAt(live, t, survivors, u, j);
    }
  }

  /**
   SIGKILL is the last resort: it names a process that a sweep found alive before it was sent,
   and that sweep came after every SIGTERM and after every poll the first wait was allowed,
   each of which takes a sweep of the live processes and a pause.
  */
  lemma KillsComeAfterTheWait(
    alive: Schedule, processes: seq<ProcessInfo>, termPolls: nat, killPolls: nat, i: nat)
    returns (p: ProcessInfo, v: nat)
    requires Shrinking(alive) && PidDistinct(processes)
    requires i < |Cleaned(alive, processes, termPolls, killPolls).log|
    requires Cleaned(alive, processes, termPolls, killPolls).log[i].signal == SigKill
    ensures var c := Cleaned(alive, processes, termPolls, killPolls);
      && p in c.live && p.pid == Named(c.log[i].to)
      && p.pid in alive(v) && v < c.log[i].at
      && AllBefore(c.log, SigTerm, PollTicks(termPolls, |c.live|), v)
  {
    var c, k := Cleaned(alive, processes, termPolls, killPolls), KillTick(alive, processes, termPolls);
    p := CleanupSignalsOnlyTheListed(alive, processes, termPolls, killPolls, i);
    CleanupLists(alive, processes, termPolls, killPolls);
    RoundsAreOver(alive, processes, termPolls, killPolls);
    v := FoundBeforeKills(alive, |processes|, c.live, c.survivors, termPolls, k, p);
    SentAt(c.live, |processes|, c.survivors, k, i);
  }

  lemma FoundBeforeKills(
    alive: Schedule, start: nat, live: seq<ProcessInfo>, survivors: seq<ProcessInfo>, polls: nat, k: nat,
    p: ProcessInfo)
    returns (v: nat)
    requires SweptLast(alive, start, live, |Targets(live)|, polls, survivors, k) && p in survivors
    ensures p.pid in alive(v) && v < k
    ensures AllBefore(BothRounds(live, start, survivors, k), SigTerm, PollTicks(polls, |live|), v)
  {
    var j := SweepFound(alive, k - |live|, live, p);
    v := k - |live| + j;
    TermsBefore(live, start, survivors, k, PollTicks(polls, |live|), v);
  }

  lemma FoundBeforeTheEnd(
    alive: Schedule, start: nat, live: seq<ProcessInfo>, survivors: seq<ProcessInfo>, polls: nat, k: nat,
    remaining: seq<ProcessInfo>, end: nat, p: ProcessInfo)
    returns (v: nat)
    requires SweptLast(alive, k, survivors, |Targets(survivors)|, polls, remaining, end) && p in remaining
    ensures p.pid in alive(v) && v < end
    ensures AllBefore(BothRounds(live, start, survivors, k), SigKill, PollTicks(polls, |survivors|), v)
  {
    var j := SweepFound(alive, end - |survivors|, survivors, p);
    v := end - |survivors| + j;
    KillsBefore(live, start, survivors, k, PollTicks(polls, |survivors|), v);
  }

  /**
   A process is reported at the end only if a sweep found it alive after every SIGKILL and
   after every poll the second wait was allowed.
  */
  lemma RemainingWereAlive(
    alive: Schedule, processes: seq<ProcessInfo>, termPolls: nat, killPolls: nat, p: ProcessInfo)
    returns (v: nat)
    requires p in Cleaned(alive, processes, termPolls, killPolls).remaining
    ensures var c := Cleaned(alive, processes, termPolls, killPolls);
      && p.pid in alive(v) && v < c.end
      && AllBefore(c.log, SigKill, PollTicks(killPolls, |c.survivors|), v)
  {
    var c, k := Cleaned(alive, processes, termPolls, killPolls), KillTick(alive, processes, termPolls);
    CleanedInTwoRounds(alive, processes, termPolls, killPolls);
    RoundsAreOver(alive, processes, termPolls, killPolls);
    v := FoundBeforeTheEnd(alive, |processes|, c.live, c.survivors, killPolls, k, c.remaining, c.end, p);
  }
}
