/**
 Can a version that was applied still be rolled back? Its rollback goes through the recommendation
 that records it, and approving or rejecting that recommendation again takes the way back away.
 */
module PolicyRecovery {
  import opened Wrappers
  import opened Principals
  import opened PolicyLifecycle
  import opened PolicyStack
  import opened PolicyRuns
  import opened PolicyRetirement

  /** Some applied recommendation records the row as the one it put in place. */
  ghost predicate Recoverable(s: State, i: nat) {
    exists id :: Holds(s, id, i)
  }

  predicate Holds(s: State, id: string, i: nat) {
    Applied(s, id) && s.recs[id].appliedPolicyId == Some(i)
  }

  // ---- decisions do not look at the status

  /** A decision comes out the same, accepted or refused, whatever status the recommendation had before. */
  lemma DecisionIgnoresStatus(
    s: State, recId: string, principal: Option<Principal>, approved: bool, reason: string, autoApprove: bool, status: RecommendationStatus
  )
    requires recId in s.recs
    ensures var other := s.(recs := s.recs[recId := s.recs[recId].(status := status)]);
            Decide(other, recId, principal, approved, reason, autoApprove) == Decide(s, recId, principal, approved, reason, autoApprove)
  {
    var other := s.(recs := s.recs[recId := s.recs[recId].(status := status)]);
    var a, b := Decide(s, recId, principal, approved, reason, autoApprove), Decide(other, recId, principal, approved, reason, autoApprove);
    if a.Ok? {
      assert b.value.recs == a.value.recs;
    }
  }

  // ---- one step

  /** What applying guarantees of the recorded ids, from any start in which nothing is applied yet. */
  ghost predicate WellRecorded(s: State) {
    && (forall id :: Applied(s, id) ==>
          && s.recs[id].appliedPolicyId.Some? && s.recs[id].appliedPolicyId.value < |s.policies|
          && (s.recs[id].supersededPolicyId.Some? ==> s.recs[id].supersededPolicyId.value < s.recs[id].appliedPolicyId.value))
    && AppliedOnce(s)
  }

  /** An accepted decision on, or rollback of, the recommendation that records the row. */
  predicate Withdraws(s: State, step: Step, i: nat) {
    (step.Decision? || step.Undo?) && Succeeds(s, step) && Holds(s, step.recId, i)
  }

  lemma ApplyKeepsRecords(s: State, recId: string, a: Activation)
    requires WellRecorded(s) && Applicable(s, recId)
    ensures WellRecorded(Apply(s, recId, a).value)
  {
    ApplyEffect(s, recId, a);
    PushKeepsRecords(s, recId, TargetKey(s.recs[recId], a.catalogue), Apply(s, recId, a).value);
  }

  lemma PushKeepsRecords(s: State, recId: string, target: RoutingKey, t: State)
    requires WellRecorded(s) && Pushes(s, recId, target, t)
    ensures WellRecorded(t)
  {
    assert LiveBest(s.policies, target).Some? ==> LiveBest(s.policies, target).value < |s.policies|;
    forall id | Applied(t, id) && id != recId ensures Applied(s, id) && t.recs[id] == s.recs[id] {
    }
  }

  lemma StepKeepsRecords(s: State, step: Step)
    requires WellRecorded(s)
    ensures WellRecorded(Next(s, step))
  {
    if step.Activate? && Applicable(s, step.recId) {
      ApplyKeepsRecords(s, step.recId, step.activation);
    } else {
      var t := Next(s, step);
      forall id | Applied(t, id) ensures Applied(s, id) && t.recs[id] == s.recs[id] {
      }
    }
  }

  lemma HolderKept(s: State, step: Step, id: string, i: nat)
    requires i < |s.policies|
    ensures Holds(Next(s, step), id, i) <==> Holds(s, id, i) && !(Withdraws(s, step, i) && step.recId == id)
  {
  }

  /** A row stops being recoverable exactly by an accepted decision on, or rollback of, the recommendation that records it. */
  lemma StepLosesExactlyWhen(s: State, step: Step, i: nat)
    requires AppliedOnce(s) && i < |s.policies| && Recoverable(s, i)
    ensures !Recoverable(Next(s, step), i) <==> Withdraws(s, step, i)
  {
    var id :| Holds(s, id, i);
    HolderKept(s, step, id, i);
    forall other ensures Holds(Next(s, step), other, i) <==> Holds(s, other, i) && !(Withdraws(s, step, i) && step.recId == other) {
      HolderKept(s, step, other, i);
    }
  }

  /** In particular a decision forfeits a rollback exactly when it is accepted on an applied recommendation, that of the row. */
  lemma DecisionForfeitsExactlyWhen(s: State, st: Stacks, step: Step, i: nat)
    requires Inv(s, st) && Recoverable(s, i)
    requires step.Decision?
    ensures !Recoverable(Next(s, step), i) <==>
      Succeeds(s, step) && s.recs[step.recId].status == RecApplied && s.recs[step.recId].appliedPolicyId == Some(i)
  {
    var id :| Holds(s, id, i);
    assert Linked(s, st, id);
    StepLosesExactlyWhen(s, step, i);
  }

  /** Nothing makes an old row recoverable again. */
  lemma LostForGood(s: State, step: Step, i: nat)
    requires i < |s.policies| && !Recoverable(s, i)
    ensures !Recoverable(Next(s, step), i)
  {
    forall id ensures !Holds(Next(s, step), id, i) {
      HolderKept(s, step, id, i);
    }
  }

  /** A new row is recoverable from the start, and not rolled back. */
  lemma AddedIsRecoverable(s: State, step: Step)
    requires |Next(s, step).policies| > |s.policies|
    ensures |Next(s, step).policies| == |s.policies| + 1
    ensures Recoverable(Next(s, step), |s.policies|) && !Retired(Next(s, step).policies, |s.policies|)
  {
    StepPreservesHistory(s, step);
    assert step.Activate? && Applicable(s, step.recId);
    ApplyEffect(s, step.recId, step.activation);
    assert Holds(Next(s, step), step.recId, |s.policies|);
  }

  // ---- whole runs

  predicate WithdrawnAt(s: State, steps: seq<Step>, i: nat, k: nat) {
    k < |steps| && Withdraws(Run(s, steps[..k]), steps[k], i)
  }

  /** Some step of the run accepted a decision on, or a rollback of, the recommendation that records the row. */
  ghost predicate EverWithdrawn(s: State, steps: seq<Step>, i: nat) {
    exists k: nat :: WithdrawnAt(s, steps, i, k)
  }

  lemma EverWithdrawnStep(s: State, steps: seq<Step>, i: nat)
    requires steps != []
    ensures EverWithdrawn(s, steps, i) <==>
      EverWithdrawn(s, steps[..|steps| - 1], i) || Withdraws(Run(s, steps[..|steps| - 1]), steps[|steps| - 1], i)
  {
    var front := steps[..|steps| - 1];
    if k: nat :| WithdrawnAt(s, steps, i, k) {
      if k < |front| {
        assert front[..k] == steps[..k];
        assert WithdrawnAt(s, front, i, k);
      }
    }
    if k: nat :| WithdrawnAt(s, front, i, k) {
      assert front[..k] == steps[..k];
      assert WithdrawnAt(s, steps, i, k);
    }
    if Withdraws(Run(s, front), steps[|front|], i) {
      assert WithdrawnAt(s, steps, i, |front|);
    }
  }

  lemma {:induction false} RunKeepsRecords(s: State, steps: seq<Step>)
    requires WellRecorded(s)
    ensures WellRecorded(Run(s, steps))
  {
    if steps != [] {
      RunKeepsRecords(s, steps[..|steps| - 1]);
      StepKeepsRecords(Run(s, steps[..|steps| - 1]), steps[|steps| - 1]);
    }
  }

  lemma RowsOnlyGrow(s: State, steps: seq<Step>, k: nat)
    requires k <= |steps|
    ensures |Run(s, steps[..k]).policies| <= |Run(s, steps).policies|
  {
    assert steps[..k] + steps[k..] == steps;
    RunConcat(s, steps[..k], steps[k..]);
    HistoryIsImmutable(Run(s, steps[..k]), steps[k..]);
  }

  /** A row that is not there yet is recorded by nothing, so nothing withdraws it. */
  lemma NeverWithdrawnBefore(s: State, steps: seq<Step>, i: nat)
    requires WellRecorded(s) && |Run(s, steps).policies| <= i
    ensures !EverWithdrawn(s, steps, i)
  {
    if k: nat :| WithdrawnAt(s, steps, i, k) {
      RowsOnlyGrow(s, steps, k);
      RunKeepsRecords(s, steps[..k]);
      NothingHeldYet(Run(s, steps[..k]), steps[k], i);
      assert false;
    }
  }

  lemma NothingHeldYet(s: State, step: Step, i: nat)
    requires WellRecorded(s) && |s.policies| <= i
    ensures !Withdraws(s, step, i)
  {
  }

  lemma NewRowStep(s: State, step: Step, i: nat)
    requires WellRecorded(s) && |s.policies| <= i < |Next(s, step).policies|
    ensures Recoverable(Next(s, step), i) && !Retired(Next(s, step).policies, i) && !Withdraws(s, step, i)
  {
    AddedIsRecoverable(s, step);
    NothingHeldYet(s, step, i);
  }

  lemma OldRowStep(s: State, step: Step, i: nat)
    requires WellRecorded(s) && i < |s.policies|
    ensures Recoverable(Next(s, step), i) <==> Recoverable(s, i) && !Withdraws(s, step, i)
  {
    if Recoverable(s, i) {
      StepLosesExactlyWhen(s, step, i);
    } else {
      LostForGood(s, step, i);
    }
  }

  /**
   In any run at all, a row the run added is recoverable at the end exactly when no step on the way
   accepted a decision on, or a rollback of, the recommendation that records it.
   */
  lemma {:induction false} RecoverableExactlyWhen(s: State, steps: seq<Step>, i: nat)
    requires WellRecorded(s)
    requires |s.policies| <= i < |Run(s, steps).policies|
    ensures Recoverable(Run(s, steps), i) <==> !EverWithdrawn(s, steps, i)
  {
    var front, step := steps[..|steps| - 1], steps[|steps| - 1];
    RunKeepsRecords(s, front);
    EverWithdrawnStep(s, steps, i);
    if i < |Run(s, front).policies| {
      RecoverableExactlyWhen(s, front, i);
      OldRowStep(Run(s, front), step, i);
    } else {
      NewRowStep(Run(s, front), step, i);
      NeverWithdrawnBefore(s, front, i);
    }
  }

  // ---- runs in which no decision is accepted on an applied recommendation

  predicate DecidesOnApplied(s: State, step: Step) {
    step.Decision? && Succeeds(s, step) && Applied(s, step.recId)
  }

  predicate LeavesAppliedAlone(s: State, steps: seq<Step>) {
    steps == []
    || (LeavesAppliedAlone(s, steps[..|steps| - 1]) && !DecidesOnApplied(Run(s, steps[..|steps| - 1]), steps[|steps| - 1]))
  }

  /** Only the rollback of the recommendation that records it turns a row ROLLED_BACK. */
  lemma StepRetiresExactlyWhen(s: State, step: Step, i: nat)
    requires WellRecorded(s) && i < |s.policies| && !Retired(s.policies, i)
    ensures Retired(Next(s, step).policies, i) <==> step.Undo? && Holds(s, step.recId, i)
  {
    if step.Activate? && Applicable(s, step.recId) {
      ApplyRetiresNothing(s, step.recId, step.activation);
    }
  }

  predicate RetiredAt(s: State, steps: seq<Step>, i: nat, k: nat) {
    k <= |steps| && Retired(Run(s, steps[..k]).policies, i)
  }

  /** At some point of the run the row was ROLLED_BACK. */
  ghost predicate EverRetired(s: State, steps: seq<Step>, i: nat) {
    exists k: nat :: RetiredAt(s, steps, i, k)
  }

  lemma EverRetiredStep(s: State, steps: seq<Step>, i: nat)
    requires steps != []
    ensures EverRetired(s, steps, i) <==> EverRetired(s, steps[..|steps| - 1], i) || Retired(Run(s, steps).policies, i)
    ensures Retired(Run(s, steps[..|steps| - 1]).policies, i) ==> EverRetired(s, steps[..|steps| - 1], i)
  {
    var front := steps[..|steps| - 1];
    assert steps[..|steps|] == steps && front[..|front|] == front;
    if k: nat :| RetiredAt(s, steps, i, k) {
      if k < |steps| {
        assert front[..k] == steps[..k];
        assert RetiredAt(s, front, i, k);
      }
    }
    if k: nat :| RetiredAt(s, front, i, k) {
      assert front[..k] == steps[..k];
      assert RetiredAt(s, steps, i, k);
    }
    assert Retired(Run(s, steps).policies, i) ==> RetiredAt(s, steps, i, |steps|);
    assert Retired(Run(s, front).policies, i) ==> RetiredAt(s, front, i, |front|);
  }

  lemma NeverRetiredBefore(s: State, steps: seq<Step>, i: nat)
    requires |Run(s, steps).policies| <= i
    ensures !EverRetired(s, steps, i)
  {
    if k: nat :| RetiredAt(s, steps, i, k) {
      RowsOnlyGrow(s, steps, k);
      assert false;
    }
  }

  /**
   As long as no decision is accepted on an applied recommendation, a row the run added is
   recoverable exactly when it was never rolled back.
   */
  lemma {:induction false} RecoverableUnlessRetired(s: State, steps: seq<Step>, i: nat)
    requires WellRecorded(s) && LeavesAppliedAlone(s, steps)
    requires |s.policies| <= i < |Run(s, steps).policies|
    ensures Recoverable(Run(s, steps), i) <==> !EverRetired(s, steps, i)
  {
    var front, step := steps[..|steps| - 1], steps[|steps| - 1];
    RunKeepsRecords(s, front);
    EverRetiredStep(s, steps, i);
    if i < |Run(s, front).policies| {
      RecoverableUnlessRetired(s, front, i);
      UndecidedStep(Run(s, front), step, i);
    } else {
      NewRowStep(Run(s, front), step, i);
      NeverRetiredBefore(s, front, i);
    }
  }

  lemma UndecidedStep(s: State, step: Step, i: nat)
    requires WellRecorded(s) && i < |s.policies| && !DecidesOnApplied(s, step)
    ensures Recoverable(s, i) && !Retired(s.policies, i) ==> (Recoverable(Next(s, step), i) <==> !Retired(Next(s, step).policies, i))
    ensures !Recoverable(s, i) ==> !Recoverable(Next(s, step), i)
  {
    OldRowStep(s, step, i);
    if !Retired(s.policies, i) {
      StepRetiresExactlyWhen(s, step, i);
    }
  }

  /**
   If besides every accepted rollback is of a live row, then every live row the run added can be
   rolled back at the end.
   */
  lemma LiveRowsAreRecoverable(s: State, st: Stacks, steps: seq<Step>, i: nat)
    requires Inv(s, st) && NoneRetired(s.policies, st) && WellRecorded(s)
    requires TargetsLiveRows(s, steps) && LeavesAppliedAlone(s, steps)
    requires |s.policies| <= i < |Run(s, steps).policies| && Run(s, steps).policies[i].Live()
    ensures Recoverable(Run(s, steps), i)
  {
    RecoverableUnlessRetired(s, steps, i);
    if EverRetired(s, steps, i) {
      EverRetiredIsRetired(s, st, steps, i);
    }
  }

  lemma EverRetiredIsRetired(s: State, st: Stacks, steps: seq<Step>, i: nat)
    requires Inv(s, st) && NoneRetired(s.policies, st) && TargetsLiveRows(s, steps)
    requires EverRetired(s, steps, i)
    ensures Retired(Run(s, steps).policies, i)
  {
    RolledBackStays(s, st, steps);
    var k: nat :| RetiredAt(s, steps, i, k);
  }

  /** The start of every such run: nothing applied yet. */
  lemma NothingAppliedIsWellRecorded(s: State)
    requires forall id :: !Applied(s, id)
    ensures WellRecorded(s)
  {
  }

  /** Keeping one live row per key is not enough: the version revived by rolling back a buried row first cannot be rolled back again. */
  lemma RevivedVersionIsStuck()
    ensures var steps := [Activate("A", DEMO_ACTIVATION), Activate("B", DEMO_ACTIVATION), Undo("A"), Undo("B")];
            && WellRecorded(FRESH) && GuardedRun(FRESH, steps) && LeavesAppliedAlone(FRESH, steps)
            && Run(FRESH, steps).policies == A_AGAIN.policies && A_AGAIN.policies[0].Live() && !Recoverable(Run(FRESH, steps), 0)
  {
    var a, b := Activate("A", DEMO_ACTIVATION), Activate("B", DEMO_ACTIVATION);
    var steps := [a, b, Undo("A"), Undo("B")];
    RolledBackVersionServesAgain();
    NoDecisions(FRESH, steps);
    NothingAppliedIsWellRecorded(FRESH);
    assert steps[..3] == [a, b, Undo("A")];
    assert RetiredAt(FRESH, steps, 0, 3);
    RecoverableUnlessRetired(FRESH, steps, 0);
  }

  lemma {:induction false} NoDecisions(s: State, steps: seq<Step>)
    requires forall step :: step in steps ==> !step.Decision?
    ensures LeavesAppliedAlone(s, steps)
  {
    if steps != [] {
      NoDecisions(s, steps[..|steps| - 1]);
    }
  }

  // ---- what a second decision does

  const ADMIN := Principal("admin", "tenant", [RoleAssignment(Admin, TenantScope, "tenant")])
  const REAPPROVE := Decision("A", Some(ADMIN), true, "", false)
  const REJECT := Decision("A", Some(ADMIN), false, "", false)

  /** Approving an applied recommendation again is accepted, and its live version can then no longer be rolled back. */
  lemma ReapprovalForfeitsRollback()
    ensures Succeeds(DEMO_A, REAPPROVE)
    ensures Recoverable(DEMO_A, 1) && !Recoverable(Next(DEMO_A, REAPPROVE), 1)
    ensures Next(DEMO_A, REAPPROVE).policies == DEMO_A.policies && DEMO_A.policies[1].Live()
    ensures Outcome(Next(DEMO_A, REAPPROVE), Undo("A")) == Err(Conflict)
  {
    AdminDecides();
    assert Holds(DEMO_A, "A", 1);
  }

  /** Rejecting one that is applied leaves its version live under a rejected recommendation, again beyond rollback. */
  lemma RejectionLeavesVersionLive()
    ensures Succeeds(DEMO_A, REJECT)
    ensures Next(DEMO_A, REJECT).recs["A"].status == RecRejected
    ensures Next(DEMO_A, REJECT).policies == DEMO_A.policies && DEMO_A.policies[1].Live()
    ensures Outcome(Next(DEMO_A, REJECT), Undo("A")) == Err(Conflict)
    ensures !Recoverable(Next(DEMO_A, REJECT), 1)
  {
    AdminDecides();
  }

  lemma AdminDecides()
    ensures HoldsApprovalRole(ADMIN)
  {
    assert ADMIN.assignments[0] in ADMIN.assignments;
  }

  /** Applied a second time, it records the new row over its own first one, and the version it first replaced is out of reach. */
  lemma ReapplicationOverwritesIds()
    ensures var again := Next(Next(DEMO_A, REAPPROVE), Activate("A", DEMO_ACTIVATION));
            && again.recs["A"].appliedPolicyId == Some(2) && again.recs["A"].supersededPolicyId == Some(1)
            && !Recoverable(again, 1)
            && DEMO_A.recs["A"].appliedPolicyId == Some(1) && DEMO_A.recs["A"].supersededPolicyId == Some(0)
  {
    ReapprovalForfeitsRollback();
    var approved := Next(DEMO_A, REAPPROVE);
    assert LiveAt(approved.policies, 1, DEMO_KEY) && !LiveAt(approved.policies, 0, DEMO_KEY);
    assert LiveBest(approved.policies, DEMO_KEY) == Some(1);
    LostForGood(approved, Activate("A", DEMO_ACTIVATION), 1);
  }

  /** Asked to auto-approve, a low-risk recommendation is approved for nobody in particular. */
  lemma OverrideNeedsNobody()
    ensures var override := Decision("A", None, true, "", true);
            Succeeds(DEMO_START, override) && Next(DEMO_START, override).recs["A"].approvedBy == Some("system_auto_approver")
    ensures Outcome(DEMO_START, Decision("A", None, true, "", false)) == Err(NotAuthorized)
  {
  }
}
