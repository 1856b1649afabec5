/**
 What repeated rollbacks can and cannot reach: recovery swaps the last two releases for
 ever, and there are worlds from which no sequence of rollbacks moves HEAD at all.
*/
module RollbackCycles {
  import opened Wrappers
  import opened ReleaseHistory
  import opened ReleaseController
  import opened ReleaseSteps
  import opened ReleaseLedger

  /** Recovery rollbacks one after the other, each under its own surroundings. */
  function RecoveryRun(repo: Repo, w: World, calls: seq<Surroundings>): World
    decreases |calls|
  {
    if calls == [] then w
    else RecoveryRun(repo, Rollback(repo, w, RecoveryMode, calls[0]).world, calls[1..])
  }

  predicate RecoveriesSucceed(repo: Repo, w: World, calls: seq<Surroundings>)
    decreases |calls|
  {
    calls == [] ||
    (var o := Rollback(repo, w, RecoveryMode, calls[0]);
     o.result.Succeeded() && RecoveriesSucceed(repo, o.world, calls[1..]))
  }

  /** The last two records are two releases, the later of them live. */
  predicate EndsWith(repo: Repo, w: World, previous: Commit) {
    var h := ReadHistory(repo, w.history);
    && h.Some? && |h.value| >= 2
    && CommitOf(h.value[|h.value| - 1]) == Some(w.head)
    && CommitOf(h.value[|h.value| - 2]) == Some(previous)
    && previous != w.head
  }

  lemma RecoveryAimsOneBack(repo: Repo, w: World, previous: Commit)
    requires EndsWith(repo, w, previous) && ChosenTarget(repo, w, RecoveryMode).Success?
    ensures ChosenTarget(repo, w, RecoveryMode).value == previous
  {
    var h := ReadHistory(repo, w.history).value;
    LastIndexIsUnique(h, w.head, |h| - 1);
  }

  lemma EndsWithAppended(repo: Repo, w: World, a: Action, after: World, previous: Commit)
    requires EndsWith(repo, w, previous) && RecordLeft(repo, w, a, after) && after.head == previous
    ensures EndsWith(repo, after, w.head)
  {
    var h, h' := ReadHistory(repo, w.history).value, ReadHistory(repo, after.history).value;
    assert h'[|h|] == h'[|h'| - 1] && h'[|h| - 1] == h[|h| - 1];
  }

  lemma RecoverySwaps(repo: Repo, w: World, previous: Commit, s: Surroundings)
    requires EndsWith(repo, w, previous) && Rollback(repo, w, RecoveryMode, s).result.Succeeded()
    ensures var after := Rollback(repo, w, RecoveryMode, s).world;
      after.head == previous && EndsWith(repo, after, w.head)
  {
    RecordingRollback(repo, w, RecoveryMode, s);
    RecoveryAimsOneBack(repo, w, previous);
    EndsWithAppended(repo, w, RollbackCall(RecoveryMode, s), Rollback(repo, w, RecoveryMode, s).world, previous);
  }

  lemma ParityFlips(n: nat)
    ensures (n + 1) % 2 == 0 <==> n % 2 != 0
  {
  }

  /**
   Recovery ping-pongs: starting from the last recorded release, with another one recorded
   before it, any number of successful recovery rollbacks in a row ends on the previous
   release if that number is odd and on the starting one if it is even. No older release is
   ever reached, whatever the history holds.
  */
  lemma {:induction false} RecoveryPingPongs(repo: Repo, w: World, previous: Commit, calls: seq<Surroundings>)
    requires EndsWith(repo, w, previous) && RecoveriesSucceed(repo, w, calls)
    ensures RecoveryRun(repo, w, calls).head == if |calls| % 2 == 0 then w.head else previous
    decreases |calls|
  {
    if calls != [] {
      RecoverySwaps(repo, w, previous, calls[0]);
      RecoveryPingPongs(repo, Rollback(repo, w, RecoveryMode, calls[0]).world, w.head, calls[1..]);
      ParityFlips(|calls[1..]|);
    }
  }

  // ---------------------------------------------------------- stuck worlds

  /** Some mode has a target that the rule on the record list allows. */
  ghost predicate RollbackIsOpen(repo: Repo, w: World) {
    var h := ReadHistory(repo, w.history);
    h.Some? && exists mode, target :: MayRollBackTo(repo, h.value, w.head, mode, target)
  }

  predicate NoDeploys(actions: seq<Action>) {
    forall a :: a in actions ==> !a.DeployCall?
  }

  lemma ProceedingRollbackIsOpen(repo: Repo, w: World, mode: Mode, s: Surroundings)
    requires RollbackProceeds(repo, w, mode, s)
    ensures RollbackIsOpen(repo, w)
  {
    ChoiceFollowsTheRule(repo, w, mode, ChosenTarget(repo, w, mode).value);
  }

  lemma StuckForOneStep(repo: Repo, w: World, a: Action)
    requires !RollbackIsOpen(repo, w) && !a.DeployCall?
    ensures var after := Next(repo, w, a);
      && after.head == w.head
      && after.history == w.history
      && after.currentRelease == w.currentRelease
  {
    if a.RollbackCall? {
      RollbackUnfolds(repo, w, a.mode, a.s);
      if RollbackProceeds(repo, w, a.mode, a.s) {
        ProceedingRollbackIsOpen(repo, w, a.mode, a.s);
      }
    }
  }

  /**
   While no mode has a target it may go to, no sequence of rollbacks (with backups and
   restores between them) changes HEAD or either release file. Only a deploy can.
  */
  lemma {:induction false} StuckUntilDeploy(repo: Repo, w: World, actions: seq<Action>)
    requires !RollbackIsOpen(repo, w) && NoDeploys(actions)
    ensures var end := Run(repo, w, actions);
      && end.head == w.head
      && end.history == w.history
      && end.currentRelease == w.currentRelease
    decreases |actions|
  {
    if actions != [] {
      assert actions[0] in actions;
      StuckForOneStep(repo, w, actions[0]);
      StuckUntilDeploy(repo, Next(repo, w, actions[0]), actions[1..]);
    }
  }

  /** Surroundings under which an open rollback at least moves HEAD. */
  function Resetting(w: World): Surroundings {
    Surroundings(Some(w.originMain), 0, None, false, CheckedOut, Entrypoint(None, {}, true), false, "", NeitherFile)
  }

  lemma OpenRollbackMovesHead(repo: Repo, w: World, mode: Mode, target: Commit)
    requires ReadHistory(repo, w.history).Some?
    requires MayRollBackTo(repo, ReadHistory(repo, w.history).value, w.head, mode, target)
    ensures Run(repo, w, [RollbackCall(mode, Resetting(w))]).head == target
  {
    ChoiceFollowsTheRule(repo, w, mode, target);
    RollbackMoves(repo, w, mode, Resetting(w));
  }

  /**
   HEAD can be moved without a deploy exactly when the history can be read and the rule on
   the record list allows some mode a target. In every other world both modes are blocked
   for good, be it for want of a record or of the live migrations in the only one on offer.
  */
  lemma RollbacksMoveHeadExactlyWhen(repo: Repo, w: World)
    ensures (exists actions :: NoDeploys(actions) && Run(repo, w, actions).head != w.head)
            <==> RollbackIsOpen(repo, w)
  {
    if RollbackIsOpen(repo, w) {
      var mode, target :| MayRollBackTo(repo, ReadHistory(repo, w.history).value, w.head, mode, target);
      OpenRollbackMovesHead(repo, w, mode, target);
      assert NoDeploys([RollbackCall(mode, Resetting(w))]);
    } else {
      forall actions | NoDeploys(actions) ensures Run(repo, w, actions).head == w.head {
        StuckUntilDeploy(repo, w, actions);
      }
    }
  }

  /** Neither mode has a target, allowed or not. */
  predicate NoTarget(repo: Repo, w: World) {
    ChosenTarget(repo, w, PreviousSafe).Failure? && ChosenTarget(repo, w, RecoveryMode).Failure?
  }

  lemma NoTargetIsNotOpen(repo: Repo, w: World)
    requires NoTarget(repo, w)
    ensures !RollbackIsOpen(repo, w)
  {
    forall mode: Mode, target { ChoiceFollowsTheRule(repo, w, mode, target); }
  }

  /** HEAD is on no recorded release. */
  predicate Unrecorded(releases: seq<Release>, head: Commit) {
    forall i :: 0 <= i < |releases| ==> CommitOf(releases[i]) != Some(head)
  }

  /**
   From an unrecorded HEAD no sequence of rollbacks of either mode changes HEAD or the
   release files: only a deploy can.
  */
  lemma UnrecordedHeadIsStuck(repo: Repo, w: World, actions: seq<Action>)
    requires ReadHistory(repo, w.history).Some? && Unrecorded(ReadHistory(repo, w.history).value, w.head)
    requires NoDeploys(actions)
    ensures NoTarget(repo, w)
    ensures var end := Run(repo, w, actions);
      && end.head == w.head
      && end.history == w.history
      && end.currentRelease == w.currentRelease
  {
    assert LastIndexOf(ReadHistory(repo, w.history).value, w.head) == -1;
    NoTargetIsNotOpen(repo, w);
    StuckUntilDeploy(repo, w, actions);
  }

  /**
   A deploy that fails after it moved the checkout, onto a commit that was never recorded
   (main as fetched, or what the entrypoint pulled before the failure), leaves the machine
   in such a world: every rollback that follows leaves HEAD stranded.
  */
  lemma FailedDeployStrandsHead(repo: Repo, w: World, s: Surroundings, actions: seq<Action>)
    requires ReadHistory(repo, w.history).Some?
    requires DeployProceeds(repo, w, s) && s.checkout != ResetFails
    requires !s.entrypoint.succeeds || !s.healthy || s.checkout == CleanFails || s.writes == NeitherFile
    requires Unrecorded(ReadHistory(repo, w.history).value, CheckoutAfter(s.fetched.value, s))
    requires NoDeploys(actions)
    ensures var end := Run(repo, w, [DeployCall(s)] + actions);
      && end.head == CheckoutAfter(s.fetched.value, s)
      && end.history == w.history
      && end.currentRelease == w.currentRelease
  {
    var after := Deploy(repo, w, s).world;
    assert after.head == CheckoutAfter(s.fetched.value, s);
    assert after.history == w.history && after.currentRelease == w.currentRelease;
    UnrecordedHeadIsStuck(repo, after, actions);
    assert ([DeployCall(s)] + actions)[1..] == actions;
  }

  /** The last two records are both of the live release, and the earlier of them is flagged. */
  predicate Redeployed(repo: Repo, w: World) {
    var h := ReadHistory(repo, w.history);
    && h.Some? && |h.value| >= 2
    && CommitOf(h.value[|h.value| - 1]) == Some(w.head)
    && CommitOf(h.value[|h.value| - 2]) == Some(w.head)
    && FlaggedSafe(h.value[|h.value| - 2])
  }

  lemma RedeployedHasNoTarget(repo: Repo, w: World)
    requires Redeployed(repo, w)
    ensures NoTarget(repo, w)
  {
    var h := ReadHistory(repo, w.history).value;
    LastIndexIsUnique(h, w.head, |h| - 1);
    LastFlaggedIsUnique(h, |h| - 1, |h| - 2);
  }

  /** The call deploys the commit that is already live, and succeeds. */
  predicate RedeploysHead(repo: Repo, w: World, a: Action) {
    && CallSucceeds(repo, w, a)
    && a.DeployCall?
    && a.s.fetched == Some(w.head)
    && a.s.entrypoint.pulled.None?
  }

  /** A redeploy leaves HEAD and appends a record of it that is flagged. */
  lemma RedeployAppendsHead(repo: Repo, w: World, a: Action)
    requires RedeploysHead(repo, w, a)
    ensures ReadHistory(repo, w.history).Some? && Next(repo, w, a).head == w.head
    ensures var h, h' := ReadHistory(repo, w.history).value, ReadHistory(repo, Next(repo, w, a).history);
      && h'.Some? && |h'.value| == |h| + 1 && h'.value[..|h|] == h
      && CommitOf(h'.value[|h|]) == Some(w.head) && FlaggedSafe(h'.value[|h|])
  {
    RecordingCall(repo, w, a);
  }

  lemma TwoRedeploys(repo: Repo, w: World, first: Action, second: Action)
    requires RedeploysHead(repo, w, first) && RedeploysHead(repo, Next(repo, w, first), second)
    ensures Redeployed(repo, Next(repo, Next(repo, w, first), second))
    ensures Next(repo, Next(repo, w, first), second).head == w.head
  {
    var w1 := Next(repo, w, first);
    RedeployAppendsHead(repo, w, first);
    RedeployAppendsHead(repo, w1, second);
    var h1, h2 := ReadHistory(repo, w1.history).value, ReadHistory(repo, Next(repo, w1, second).history).value;
    assert h2[|h1| - 1] == h2[..|h1|][|h1| - 1];
  }

  /**
   Deploying the live commit again, twice, blocks both rollback modes for good, however many
   older releases are recorded: the record each mode looks at first is the live commit itself.
  */
  lemma RedeployingBlocksRollbacks(repo: Repo, w: World, first: Action, second: Action, actions: seq<Action>)
    requires RedeploysHead(repo, w, first) && RedeploysHead(repo, Next(repo, w, first), second)
    requires NoDeploys(actions)
    ensures Run(repo, w, [first, second] + actions).head == w.head
    ensures Run(repo, w, [first, second] + actions).history ==
            Next(repo, Next(repo, w, first), second).history
  {
    var w1 := Next(repo, w, first);
    var w2 := Next(repo, w1, second);
    TwoRedeploys(repo, w, first, second);
    RedeployedHasNoTarget(repo, w2);
    NoTargetIsNotOpen(repo, w2);
    StuckUntilDeploy(repo, w2, actions);
    TwoThenTheRest(repo, w, first, second, actions);
  }

  lemma TwoThenTheRest(repo: Repo, w: World, first: Action, second: Action, actions: seq<Action>)
    ensures Run(repo, w, [first, second] + actions) ==
            Run(repo, Next(repo, Next(repo, w, first), second), actions)
  {
    var all := [first, second] + actions;
    assert all[1..] == [second] + actions && all[1..][1..] == actions;
    assert Run(repo, w, all) == Run(repo, Next(repo, w, first), all[1..]);
  }
}
