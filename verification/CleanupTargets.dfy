/**
 How leftover test processes become signal targets: whole process groups where the group
 leader is in the list and detached from a terminal, single processes otherwise.
*/
module CleanupTargets {

  datatype Kind = Backend | Frontend | Playwright | SmokeWrapper

  datatype ProcessInfo = ProcessInfo(
    pid: nat, ppid: nat, pgid: nat, tty: string, command: string, cwd: string, kind: Kind)

  datatype Target =
    | Group(leader: ProcessInfo, members: seq<ProcessInfo>)
    | Single(process: ProcessInfo)

  const DETACHED_TTYS: set<string> := {"?", "??"}

  predicate IsLeader(p: ProcessInfo) {
    p.pgid > 0 && p.pid == p.pgid && p.tty in DETACHED_TTYS
  }

  predicate PidDistinct(processes: seq<ProcessInfo>) {
    forall i, j :: 0 <= i < j < |processes| ==> processes[i].pid != processes[j].pid
  }

  /** The keys of `groupedTargets`, in the order in which the Map first met them. */
  function GroupIds(processes: seq<ProcessInfo>): seq<nat> {
    if processes == [] then []
    else
      var ids, p := GroupIds(processes[..|processes| - 1]), processes[|processes| - 1];
      if IsLeader(p) && p.pgid !in ids then ids + [p.pgid] else ids
  }

  /** The leader stored under each key: the last one set. */
  function Leaders(processes: seq<ProcessInfo>): map<nat, ProcessInfo> {
    if processes == [] then map[]
    else
      var leaders, p := Leaders(processes[..|processes| - 1]), processes[|processes| - 1];
      if IsLeader(p) then leaders[p.pgid := p] else leaders
  }

  function Members(processes: seq<ProcessInfo>, pgid: nat): seq<ProcessInfo> {
    if processes == [] then []
    else
      var p := processes[|processes| - 1];
      Members(processes[..|processes| - 1], pgid) + (if p.pgid == pgid then [p] else [])
  }

  /** The set `groupedPids`. */
  function GroupedPids(processes: seq<ProcessInfo>, ids: seq<nat>): set<nat> {
    set p | p in processes && p.pgid in ids :: p.pid
  }

  /** The processes the third loop keeps: those whose pid was not grouped. */
  function Outside(processes: seq<ProcessInfo>, grouped: set<nat>): seq<ProcessInfo> {
    if processes == [] then []
    else
      var p := processes[|processes| - 1];
      Outside(processes[..|processes| - 1], grouped) + (if p.pid !in grouped then [p] else [])
  }

  predicate AllStored(ids: seq<nat>, leaders: map<nat, ProcessInfo>) {
    forall g :: g in ids ==> g in leaders
  }

  function GroupTargets(processes: seq<ProcessInfo>, leaders: map<nat, ProcessInfo>, ids: seq<nat>): seq<Target>
    requires AllStored(ids, leaders)
  {
    if ids == [] then []
    else
      var g := ids[|ids| - 1];
      GroupTargets(processes, leaders, ids[..|ids| - 1]) + [Group(leaders[g], Members(processes, g))]
  }

  function SingleTargets(processes: seq<ProcessInfo>): seq<Target> {
    if processes == [] then []
    else SingleTargets(processes[..|processes| - 1]) + [Single(processes[|processes| - 1])]
  }

  lemma {:induction false} GroupTargetsAre(processes: seq<ProcessInfo>, leaders: map<nat, ProcessInfo>, ids: seq<nat>)
    requires AllStored(ids, leaders)
    ensures var ts := GroupTargets(processes, leaders, ids);
      |ts| == |ids| && forall i :: 0 <= i < |ids| ==> ts[i] == Group(leaders[ids[i]], Members(processes, ids[i]))
  {
    if ids != [] {
      GroupTargetsAre(processes, leaders, ids[..|ids| - 1]);
    }
  }

  lemma {:induction false} SingleTargetsAre(processes: seq<ProcessInfo>)
    ensures var ts := SingleTargets(processes);
      |ts| == |processes| && forall i :: 0 <= i < |ts| ==> ts[i] == Single(processes[i])
  {
    if processes != [] {
      SingleTargetsAre(processes[..|processes| - 1]);
    }
  }

  /** The processes that become targets of their own. */
  function Loners(processes: seq<ProcessInfo>): seq<ProcessInfo> {
    Outside(processes, GroupedPids(processes, GroupIds(processes)))
  }

  /** What `buildCleanupTargets` returns. */
  function Targets(processes: seq<ProcessInfo>): seq<Target> {
    var ids := GroupIds(processes);
    KeysAreLeaders(processes);
    GroupTargets(processes, Leaders(processes), ids) + SingleTargets(Loners(processes))
  }

  /** The keys are the pids of the listed leaders, and each is stored with its leader. */
  lemma {:induction false} KeysAreLeaders(processes: seq<ProcessInfo>)
    ensures forall g :: g in GroupIds(processes) <==> g in Leaders(processes)
    ensures forall g :: g in Leaders(processes) ==>
      var p := Leaders(processes)[g]; p in processes && IsLeader(p) && p.pgid == g
    ensures forall p :: p in processes && IsLeader(p) ==> p.pgid in Leaders(processes)
  {
    if processes != [] {
      var init, p := processes[..|processes| - 1], processes[|processes| - 1];
      KeysAreLeaders(init);
      assert processes == init + [p];
    }
  }

  /**
   `buildCleanupTargets`: three loops over the list, filling a Map (kept as its keys in
   insertion order and their values), a Set and an array.
  */
  method BuildCleanupTargets(processes: seq<ProcessInfo>) returns (targets: seq<Target>)
    ensures targets == Targets(processes)
  {
    var keys, leaders := CollectLeaders(processes);
    var members, grouped := FillGroups(processes, keys);
    var singles := CollectSingles(processes, grouped);
    KeysAreLeaders(processes);
    targets := [];
    for i := 0 to |keys|
      invariant |targets| == i
      invariant forall k :: 0 <= k < i ==> targets[k] == Group(leaders[keys[k]], Members(processes, keys[k]))
    {
      targets := targets + [Group(leaders[keys[i]], members[keys[i]])];
    }
    GroupTargetsAre(processes, leaders, keys);
    assert targets == GroupTargets(processes, leaders, keys);
    targets := targets + SingleTargets(singles);
  }

  /** The first loop: detached group leaders open the groups. */
  method CollectLeaders(processes: seq<ProcessInfo>) returns (keys: seq<nat>, leaders: map<nat, ProcessInfo>)
    ensures keys == GroupIds(processes)
    ensures leaders == Leaders(processes)
  {
    keys, leaders := [], map[];
    for i := 0 to |processes|
      invariant keys == GroupIds(processes[..i])
      invariant leaders == Leaders(processes[..i])
    {
      var p := processes[i];
      assert processes[..i + 1][..i] == processes[..i];
      if IsLeader(p) {
        if p.pgid !in keys {
          keys := keys + [p.pgid];
        }
        leaders := leaders[p.pgid := p];
      }
    }
    assert processes[..|processes|] == processes;
  }

  /** The second loop: each process joins the group of its pgid, if that has a key. */
  method FillGroups(processes: seq<ProcessInfo>, keys: seq<nat>)
    returns (members: map<nat, seq<ProcessInfo>>, grouped: set<nat>)
    ensures forall g :: g in members <==> g in keys
    ensures forall g :: g in members ==> members[g] == Members(processes, g)
    ensures grouped == GroupedPids(processes, keys)
  {
    members := map g | g in keys :: [];
    grouped := {};
    for i := 0 to |processes|
      invariant forall g :: g in members <==> g in keys
      invariant forall g :: g in members ==> members[g] == Members(processes[..i], g)
      invariant grouped == GroupedPids(processes[..i], keys)
    {
      var p := processes[i];
      assert processes[..i + 1][..i] == processes[..i];
      assert processes[..i + 1] == processes[..i] + [p];
      if p.pgid in members {
        members := members[p.pgid := members[p.pgid] + [p]];
        grouped := grouped + {p.pid};
      }
    }
    assert processes[..|processes|] == processes;
  }

  /** The third loop: the processes whose pid joined no group. */
  method CollectSingles(processes: seq<ProcessInfo>, grouped: set<nat>) returns (singles: seq<ProcessInfo>)
    ensures singles == Outside(processes, grouped)
  {
    singles := [];
    for i := 0 to |processes|
      invariant singles == Outside(processes[..i], grouped)
    {
      assert processes[..i + 1][..i] == processes[..i];
      if processes[i].pid !in grouped {
        singles := singles + [processes[i]];
      }
    }
    assert processes[..|processes|] == processes;
  }

  lemma JoinedTargets(
    processes: seq<ProcessInfo>, leaders: map<nat, ProcessInfo>, ids: seq<nat>, singles: seq<ProcessInfo>, i: nat)
    requires AllStored(ids, leaders)
    ensures var ts := GroupTargets(processes, leaders, ids) + SingleTargets(singles);
      && |ts| == |ids| + |singles|
      && (i < |ids| ==> ts[i] == Group(leaders[ids[i]], Members(processes, ids[i])))
      && (|ids| <= i < |ts| ==> ts[i] == Single(singles[i - |ids|]))
  {
    GroupTargetsAre(processes, leaders, ids);
    SingleTargetsAre(singles);
  }

  /** The target at a position: groups first, in key order, then the single processes. */
  lemma TargetAt(processes: seq<ProcessInfo>, i: nat)
    ensures AllStored(GroupIds(processes), Leaders(processes))
    ensures var ids, ts, singles := GroupIds(processes), Targets(processes), Loners(processes);
      && |ts| == |ids| + |singles|
      && (i < |ids| ==> ts[i] == Group(Leaders(processes)[ids[i]], Members(processes, ids[i])))
      && (|ids| <= i < |ts| ==> ts[i] == Single(singles[i - |ids|]))
  {
    KeysAreLeaders(processes);
    JoinedTargets(processes, Leaders(processes), GroupIds(processes), Loners(processes), i);
  }

  // ------------------------------------------------------ an exact partition

  /** The processes a list of targets stands for, target by target. */
  function Concerned(targets: seq<Target>): seq<ProcessInfo> {
    if targets == [] then []
    else
      var init, t := targets[..|targets| - 1], targets[|targets| - 1];
      Concerned(init) + (if t.Group? then t.members else [t.process])
  }

  predicate Distinct(ids: seq<nat>) {
    forall i, j :: 0 <= i < j < |ids| ==> ids[i] != ids[j]
  }

  lemma {:induction false} GroupIdsDistinct(processes: seq<ProcessInfo>)
    ensures Distinct(GroupIds(processes))
  {
    if processes != [] {
      GroupIdsDistinct(processes[..|processes| - 1]);
    }
  }

  /** The processes whose group has a key, and those whose group has none. */
  function InGroups(processes: seq<ProcessInfo>, ids: seq<nat>): seq<ProcessInfo> {
    if processes == [] then []
    else
      var p := processes[|processes| - 1];
      InGroups(processes[..|processes| - 1], ids) + (if p.pgid in ids then [p] else [])
  }

  lemma {:induction false} MembersAre(processes: seq<ProcessInfo>, pgid: nat, p: ProcessInfo)
    ensures p in Members(processes, pgid) <==> p in processes && p.pgid == pgid
  {
    if processes != [] {
      var init, last := processes[..|processes| - 1], processes[|processes| - 1];
      assert processes == init + [last];
      MembersAre(init, pgid, p);
    }
  }

  lemma {:induction false} NoKeysNoGroups(processes: seq<ProcessInfo>)
    ensures InGroups(processes, []) == []
  {
    if processes != [] {
      NoKeysNoGroups(processes[..|processes| - 1]);
    }
  }

  lemma {:induction false} OneMoreGroup(processes: seq<ProcessInfo>, ids: seq<nat>, g: nat)
    requires g !in ids
    ensures multiset(InGroups(processes, ids + [g])) ==
            multiset(InGroups(processes, ids)) + multiset(Members(processes, g))
  {
    if processes != [] {
      OneMoreGroup(processes[..|processes| - 1], ids, g);
    }
  }

  lemma {:induction false} GroupsConcern(processes: seq<ProcessInfo>, leaders: map<nat, ProcessInfo>, ids: seq<nat>)
    requires Distinct(ids) && AllStored(ids, leaders)
    ensures multiset(Concerned(GroupTargets(processes, leaders, ids))) == multiset(InGroups(processes, ids))
  {
    if ids == [] {
      NoKeysNoGroups(processes);
    } else {
      var init, g := ids[..|ids| - 1], ids[|ids| - 1];
      assert ids == init + [g];
      GroupsConcern(processes, leaders, init);
      OneMoreGroup(processes, init, g);
      var ts := GroupTargets(processes, leaders, ids);
      assert ts[..|ts| - 1] == GroupTargets(processes, leaders, init);
    }
  }

  lemma {:induction false} ConcernedConcat(a: seq<Target>, b: seq<Target>)
    ensures Concerned(a + b) == Concerned(a) + Concerned(b)
  {
    if b == [] {
      assert a + b == a;
    } else {
      ConcernedConcat(a, b[..|b| - 1]);
      assert (a + b)[..|a + b| - 1] == a + b[..|b| - 1];
    }
  }

  lemma {:induction false} SinglesConcern(processes: seq<ProcessInfo>)
    ensures Concerned(SingleTargets(processes)) == processes
  {
    if processes != [] {
      var init := processes[..|processes| - 1];
      SinglesConcern(init);
      var ts := SingleTargets(processes);
      assert ts[..|ts| - 1] == SingleTargets(init);
    }
  }

  /** With distinct pids, a pid was grouped exactly when its process's group has a key. */
  lemma GroupedByPid(processes: seq<ProcessInfo>, ids: seq<nat>, p: ProcessInfo)
    requires PidDistinct(processes) && p in processes
    ensures p.pid in GroupedPids(processes, ids) <==> p.pgid in ids
  {
    if p.pid in GroupedPids(processes, ids) {
      var q :| q in processes && q.pgid in ids && q.pid == p.pid;
      assert q == p;
    }
  }

  lemma {:induction false} OutsideIsTheRest(processes: seq<ProcessInfo>, ids: seq<nat>, grouped: set<nat>)
    requires forall p :: p in processes ==> (p.pid in grouped <==> p.pgid in ids)
    ensures multiset(InGroups(processes, ids)) + multiset(Outside(processes, grouped)) == multiset(processes)
    ensures forall p :: p in Outside(processes, grouped) <==> p in processes && p.pgid !in ids
  {
    if processes != [] {
      var init, last := processes[..|processes| - 1], processes[|processes| - 1];
      assert processes == init + [last];
      OutsideIsTheRest(init, ids, grouped);
    }
  }

  lemma SinglesAreTheRest(processes: seq<ProcessInfo>)
    requires PidDistinct(processes)
    ensures var ids := GroupIds(processes);
      var singles := Loners(processes);
      && multiset(InGroups(processes, ids)) + multiset(singles) == multiset(processes)
      && forall p :: p in singles <==> p in processes && p.pgid !in ids
  {
    var ids := GroupIds(processes);
    forall p | p in processes ensures p.pid in GroupedPids(processes, ids) <==> p.pgid in ids {
      GroupedByPid(processes, ids, p);
    }
    OutsideIsTheRest(processes, ids, GroupedPids(processes, ids));
  }

  /** No process is lost, invented or listed twice. */
  lemma TargetsPartition(processes: seq<ProcessInfo>)
    requires PidDistinct(processes)
    ensures multiset(Concerned(Targets(processes))) == multiset(processes)
  {
    var ids := GroupIds(processes);
    GroupIdsDistinct(processes);
    KeysAreLeaders(processes);
    GroupsConcern(processes, Leaders(processes), ids);
    SinglesAreTheRest(processes);
    var singles := Loners(processes);
    SinglesConcern(singles);
    ConcernedConcat(GroupTargets(processes, Leaders(processes), ids), SingleTargets(singles));
  }

  /** The target is a group around a listed leader, or a listed process of no listed group. */
  ghost predicate WellFormed(processes: seq<ProcessInfo>, t: Target) {
    match t
    case Group(leader, members) =>
      IsLeader(leader) && leader in members &&
      forall p :: p in members <==> p in processes && p.pgid == leader.pid
    case Single(p) =>
      p in processes && forall q :: q in processes && IsLeader(q) ==> q.pgid != p.pgid
  }

  lemma GroupTargetWellFormed(processes: seq<ProcessInfo>, g: nat)
    requires g in GroupIds(processes)
    ensures g in Leaders(processes)
    ensures WellFormed(processes, Group(Leaders(processes)[g], Members(processes, g)))
  {
    KeysAreLeaders(processes);
    forall p ensures p in Members(processes, g) <==> p in processes && p.pgid == g {
      MembersAre(processes, g, p);
    }
  }

  lemma SingleTargetWellFormed(processes: seq<ProcessInfo>, p: ProcessInfo)
    requires PidDistinct(processes)
    requires p in Loners(processes)
    ensures WellFormed(processes, Single(p))
  {
    SinglesAreTheRest(processes);
    KeysAreLeaders(processes);
  }

  lemma TargetAtIsWellFormed(processes: seq<ProcessInfo>, i: nat)
    requires PidDistinct(processes) && i < |Targets(processes)|
    ensures WellFormed(processes, Targets(processes)[i])
  {
    TargetAt(processes, i);
    if i < |GroupIds(processes)| {
      GroupTargetWellFormed(processes, GroupIds(processes)[i]);
    } else {
      SingleTargetWellFormed(processes, Targets(processes)[i].process);
    }
  }

  lemma GroupsDiffer(processes: seq<ProcessInfo>, i: nat, j: nat)
    requires i < j < |Targets(processes)| && Targets(processes)[i].Group? && Targets(processes)[j].Group?
    ensures Targets(processes)[i].leader.pid != Targets(processes)[j].leader.pid
  {
    TargetAt(processes, i);
    TargetAt(processes, j);
    KeysAreLeaders(processes);
    GroupIdsDistinct(processes);
  }

  /**
   The shape of the targets: every group holds its leader and exactly the listed processes
   of that group, no two groups share an id, and no single target belongs to a listed group.
  */
  lemma TargetShape(processes: seq<ProcessInfo>)
    requires PidDistinct(processes)
    ensures var ts := Targets(processes);
      && (forall i :: 0 <= i < |ts| ==> WellFormed(processes, ts[i]))
      && (forall i, j :: 0 <= i < j < |ts| && ts[i].Group? && ts[j].Group? ==> ts[i].leader.pid != ts[j].leader.pid)
  {
    var ts := Targets(processes);
    forall i | 0 <= i < |ts| ensures WellFormed(processes, ts[i]) {
      TargetAtIsWellFormed(processes, i);
    }
    forall i, j | 0 <= i < j < |ts| && ts[i].Group? && ts[j].Group? ensures ts[i].leader.pid != ts[j].leader.pid {
      GroupsDiffer(processes, i, j);
    }
  }

  /**
   Which groups are signalled: a pid leads a group target exactly when a listed process has it,
   is the leader of its own group, and has no terminal.
  */
  lemma GroupTargetsExactly(processes: seq<ProcessInfo>, pid: nat)
    ensures var ts := Targets(processes);
      (exists i :: 0 <= i < |ts| && ts[i].Group? && ts[i].leader.pid == pid)
      <==>
      (exists p :: p in processes && p.pid == pid && p.pgid == pid && pid > 0 && (p.tty == "?" || p.tty == "??"))
  {
    var ts, ids := Targets(processes), GroupIds(processes);
    KeysAreLeaders(processes);
    if i :| 0 <= i < |ts| && ts[i].Group? && ts[i].leader.pid == pid {
      TargetAt(processes, i);
      assert ts[i].leader in processes && IsLeader(ts[i].leader);
    }
    if p :| p in processes && p.pid == pid && p.pgid == pid && pid > 0 && (p.tty == "?" || p.tty == "??") {
      assert IsLeader(p);
      var i :| 0 <= i < |ids| && ids[i] == pid;
      TargetAt(processes, i);
    }
  }

  lemma KeysLeadGroupTargets(processes: seq<ProcessInfo>, g: nat)
    ensures var ts := Targets(processes);
      (exists i :: 0 <= i < |ts| && ts[i].Group? && ts[i].leader.pid == g) <==> g in GroupIds(processes)
  {
    var ts, ids := Targets(processes), GroupIds(processes);
    KeysAreLeaders(processes);
    if i :| 0 <= i < |ts| && ts[i].Group? && ts[i].leader.pid == g {
      TargetAt(processes, i);
    }
    if i :| 0 <= i < |ids| && ids[i] == g {
      TargetAt(processes, i);
    }
  }

  lemma LonersAreSingleTargets(processes: seq<ProcessInfo>, p: ProcessInfo)
    ensures var ts := Targets(processes);
      (exists i :: 0 <= i < |ts| && ts[i] == Single(p)) <==> p in Loners(processes)
  {
    var ts, ids, singles := Targets(processes), GroupIds(processes), Loners(processes);
    if i :| 0 <= i < |ts| && ts[i] == Single(p) {
      TargetAt(processes, i);
    }
    if k :| 0 <= k < |singles| && singles[k] == p {
      TargetAt(processes, |ids| + k);
    }
  }

  /** Whoever is in none of these groups is a target of its own, and nobody else is. */
  lemma SingleTargetsExactly(processes: seq<ProcessInfo>, p: ProcessInfo)
    requires PidDistinct(processes)
    ensures var ts := Targets(processes);
      (exists i :: 0 <= i < |ts| && ts[i] == Single(p))
      <==>
      p in processes && !exists i :: 0 <= i < |ts| && ts[i].Group? && ts[i].leader.pid == p.pgid
  {
    SinglesAreTheRest(processes);
    KeysLeadGroupTargets(processes, p.pgid);
    LonersAreSingleTargets(processes, p);
  }

  lemma {:induction false} LeadersInOrder(processes: seq<ProcessInfo>, a: nat, b: nat) returns (i: nat, j: nat)
    requires PidDistinct(processes) && a < b < |processes|
    requires IsLeader(processes[a]) && IsLeader(processes[b])
    ensures i < j < |GroupIds(processes)|
    ensures GroupIds(processes)[i] == processes[a].pid && GroupIds(processes)[j] == processes[b].pid
  {
    var init := processes[..|processes| - 1];
    if b < |init| {
      i, j := LeadersInOrder(init, a, b);
    } else {
      KeysAreLeaders(init);
      assert init[a] in init;
      i :| 0 <= i < |GroupIds(init)| && GroupIds(init)[i] == processes[a].pgid;
      j := |GroupIds(init)|;
    }
  }

  lemma {:induction false} OutsideInOrder(processes: seq<ProcessInfo>, grouped: set<nat>, a: nat, b: nat)
    returns (i: nat, j: nat)
    requires a < b < |processes| && processes[a].pid !in grouped && processes[b].pid !in grouped
    ensures i < j < |Outside(processes, grouped)|
    ensures Outside(processes, grouped)[i] == processes[a] && Outside(processes, grouped)[j] == processes[b]
  {
    var init := processes[..|processes| - 1];
    if b < |init| {
      i, j := OutsideInOrder(init, grouped, a, b);
    } else {
      i := OutsideHolds(init, grouped, a);
      j := |Outside(init, grouped)|;
    }
  }

  lemma {:induction false} OutsideHolds(processes: seq<ProcessInfo>, grouped: set<nat>, a: nat) returns (i: nat)
    requires a < |processes| && processes[a].pid !in grouped
    ensures i < |Outside(processes, grouped)| && Outside(processes, grouped)[i] == processes[a]
  {
    var init := processes[..|processes| - 1];
    if a < |init| {
      i := OutsideHolds(init, grouped, a);
    } else {
      i := |Outside(init, grouped)|;
    }
  }

  /** The order of the targets: groups first, as their leaders are listed, then the others as listed. */
  lemma TargetsInOrder(processes: seq<ProcessInfo>, a: nat, b: nat)
    requires PidDistinct(processes) && a < b < |processes|
    ensures var ts := Targets(processes);
      && (IsLeader(processes[a]) && IsLeader(processes[b]) ==>
            exists i, j :: 0 <= i < j < |ts| && ts[i].Group? && ts[j].Group?
              && ts[i].leader.pid == processes[a].pid && ts[j].leader.pid == processes[b].pid)
      && (Single(processes[a]) in ts && Single(processes[b]) in ts ==>
            exists i, j :: 0 <= i < j < |ts| && ts[i] == Single(processes[a]) && ts[j] == Single(processes[b]))
      && (forall i, j :: 0 <= i < |ts| && 0 <= j < |ts| && ts[i].Group? && ts[j].Single? ==> i < j)
  {
    var ts, ids := Targets(processes), GroupIds(processes);
    KeysAreLeaders(processes);
    if IsLeader(processes[a]) && IsLeader(processes[b]) {
      var i, j := LeadersInOrder(processes, a, b);
      TargetAt(processes, i);
      TargetAt(processes, j);
    }
    if Single(processes[a]) in ts && Single(processes[b]) in ts {
      SingleIsOutside(processes, processes[a]);
      SingleIsOutside(processes, processes[b]);
      var i, j := OutsideInOrder(processes, GroupedPids(processes, ids), a, b);
      TargetAt(processes, |ids| + i);
      TargetAt(processes, |ids| + j);
    }
    forall i, j | 0 <= i < |ts| && 0 <= j < |ts| && ts[i].Group? && ts[j].Single? ensures i < j {
      TargetAt(processes, i);
      TargetAt(processes, j);
    }
  }

  lemma SingleIsOutside(processes: seq<ProcessInfo>, p: ProcessInfo)
    requires PidDistinct(processes) && p in processes && Single(p) in Targets(processes)
    ensures p.pid !in GroupedPids(processes, GroupIds(processes))
  {
    var i :| 0 <= i < |Targets(processes)| && Targets(processes)[i] == Single(p);
    TargetAt(processes, i);
    SinglesAreTheRest(processes);
    GroupedByPid(processes, GroupIds(processes), p);
  }
}
