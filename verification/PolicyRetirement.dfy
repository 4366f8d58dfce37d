/**
 Does a rolled-back version stay out of service? Only as long as every rollback targets a live row:
 rolling back a buried row first leaves its id behind as the predecessor of the row above it, and
 rolling that one back brings it into service again.
 */
module PolicyRetirement {
  import opened Wrappers
  import opened PolicyLifecycle
  import opened PolicyStack
  import opened PolicyRuns

  predicate Retired(policies: seq<RoutingPolicy>, i: int) {
    0 <= i < |policies| && policies[i].status == RolledBack
  }

  /** A rollback, if it is accepted at all, is of a live row. */
  predicate TargetsLiveRow(s: State, step: Step) {
    step.Undo? && Applied(s, step.recId) ==> Pops(s, step.recId)
  }

  predicate TargetsLiveRows(s: State, steps: seq<Step>) {
    steps == []
    || (TargetsLiveRows(s, steps[..|steps| - 1]) && TargetsLiveRow(Run(s, steps[..|steps| - 1]), steps[|steps| - 1]))
  }

  // ---- one rollback

  /** A rollback revives a rolled-back row exactly when the recommendation's superseded row is one. */
  lemma RollbackRevivesExactlyWhen(s: State, recId: string)
    requires Applied(s, recId)
    ensures (exists i :: Retired(s.policies, i) && !Retired(Rollback(s, recId).value.policies, i))
       <==> s.recs[recId].supersededPolicyId.Some? && Retired(s.policies, s.recs[recId].supersededPolicyId.value)
  {
    var superseded, after := s.recs[recId].supersededPolicyId, Rollback(s, recId).value.policies;
    if superseded.Some? && Retired(s.policies, superseded.value) {
      assert after[superseded.value].status == Active;
    }
  }

  // ---- runs whose rollbacks all target a live row

  ghost predicate NoneRetired(policies: seq<RoutingPolicy>, st: Stacks) {
    forall key, j :: 0 <= j < |StackOf(st, key)| ==> !Retired(policies, StackOf(st, key)[j])
  }

  lemma InitialNoneRetired(s: State)
    requires AtMostOneLive(s.policies) && forall id :: !Applied(s, id)
    ensures Inv(s, InitialStacks(s.policies)) && NoneRetired(s.policies, InitialStacks(s.policies))
  {
    InitialInv(s);
  }

  /** An apply changes the status of a live row only, and the row it adds is live. */
  lemma ApplyRetiresNothing(s: State, recId: string, a: Activation)
    requires Applicable(s, recId)
    ensures forall i :: Retired(Apply(s, recId, a).value.policies, i) <==> Retired(s.policies, i)
  {
    var best := LiveBest(s.policies, TargetKey(s.recs[recId], a.catalogue));
    assert best.Some? ==> LiveAt(s.policies, best.value, TargetKey(s.recs[recId], a.catalogue));
  }

  lemma PushKeepsUnretired(policies: seq<RoutingPolicy>, after: seq<RoutingPolicy>, st: Stacks, key: RoutingKey, id: nat)
    requires NoneRetired(policies, st) && !Retired(policies, id)
    requires forall i :: Retired(after, i) <==> Retired(policies, i)
    ensures NoneRetired(after, Perform(st, Push(key, id)))
  {
    var grown := Perform(st, Push(key, id));
    forall k, j | 0 <= j < |StackOf(grown, k)| ensures !Retired(after, StackOf(grown, k)[j]) {
      assert j < |StackOf(st, k)| ==> StackOf(grown, k)[j] == StackOf(st, k)[j];
    }
  }

  lemma RollbackOfLiveRetiresOne(s: State, st: Stacks, recId: string)
    requires Inv(s, st) && NoneRetired(s.policies, st)
    requires Pops(s, recId)
    ensures NoneRetired(Next(s, Undo(recId)).policies, Perform(st, OpOf(s, Undo(recId))))
    ensures forall i :: Retired(s.policies, i) ==> Retired(Next(s, Undo(recId)).policies, i)
  {
    var applied := s.recs[recId].appliedPolicyId.value;
    var key := s.policies[applied].key;
    var stack := StackOf(st, key);
    assert StackRows(s.policies, key, stack) && Linked(s, st, recId);
    PoppedIsTop(s, stack, st, recId);
    var after, shrunk := Next(s, Undo(recId)).policies, Perform(st, OpOf(s, Undo(recId)));
    forall other, j | 0 <= j < |StackOf(shrunk, other)| ensures !Retired(after, StackOf(shrunk, other)[j]) {
      assert StackRows(s.policies, other, StackOf(st, other));
      assert StackOf(shrunk, other)[j] == StackOf(st, other)[j] != applied;
    }
  }

  lemma StepRetiresForGood(s: State, st: Stacks, step: Step)
    requires Inv(s, st) && NoneRetired(s.policies, st)
    requires TargetsLiveRow(s, step)
    ensures Inv(Next(s, step), Perform(st, OpOf(s, step))) && NoneRetired(Next(s, step).policies, Perform(st, OpOf(s, step)))
    ensures forall i :: Retired(s.policies, i) ==> Retired(Next(s, step).policies, i)
  {
    StepRefines(s, st, step);
    match step
    case Activate(id, _) =>
      if Applicable(s, id) {
        ApplyRetiresNothing(s, id, step.activation);
        PushKeepsUnretired(s.policies, Next(s, step).policies, st, TargetKey(s.recs[id], step.activation.catalogue), |s.policies|);
      }
    case Undo(id) =>
      if Applied(s, id) {
        RollbackOfLiveRetiresOne(s, st, id);
      }
    case _ =>
  }

  /** In every run whose rollbacks all target a live row, a row that is ROLLED_BACK at any point stays so to the end. */
  lemma {:induction false} RolledBackStays(s: State, st: Stacks, steps: seq<Step>)
    requires Inv(s, st) && NoneRetired(s.policies, st)
    requires TargetsLiveRows(s, steps)
    ensures Inv(Run(s, steps), Stacked(s, st, steps)) && NoneRetired(Run(s, steps).policies, Stacked(s, st, steps))
    ensures forall k, i :: 0 <= k <= |steps| && Retired(Run(s, steps[..k]).policies, i) ==> Retired(Run(s, steps).policies, i)
  {
    assert steps[..|steps|] == steps;
    if steps != [] {
      var front := steps[..|steps| - 1];
      RolledBackStays(s, st, front);
      StepRetiresForGood(Run(s, front), Stacked(s, st, front), steps[|steps| - 1]);
      forall k, i | 0 <= k <= |steps| && Retired(Run(s, steps[..k]).policies, i) ensures Retired(Run(s, steps).policies, i) {
        if k < |steps| {
          assert front[..k] == steps[..k];
        }
      }
    }
  }

  // ---- a rolled-back version that serves again

  /** Nothing live, two approved recommendations; A applied, B applied over it, then A rolled back, then B. */
  const FRESH := State([], map["A" := DemoRec(RecApproved, None, None), "B" := DemoRec(RecApproved, None, None)])
  const WITH_A :=
    State([DemoRow(1, Active, Some("finops"))],
          map["A" := DemoRec(RecApplied, Some(0), None), "B" := DemoRec(RecApproved, None, None)])
  const WITH_B :=
    State([DemoRow(1, Superseded, Some("finops")), DemoRow(2, Active, Some("finops"))],
          map["A" := DemoRec(RecApplied, Some(0), None), "B" := DemoRec(RecApplied, Some(1), Some(0))])
  const WITHOUT_A :=
    State([DemoRow(1, RolledBack, Some("finops")), DemoRow(2, Active, Some("finops"))],
          map["A" := DemoRec(RecRolledBack, Some(0), None), "B" := DemoRec(RecApplied, Some(1), Some(0))])
  const A_AGAIN :=
    State([DemoRow(1, Active, Some("finops")), DemoRow(2, RolledBack, Some("finops"))],
          map["A" := DemoRec(RecRolledBack, Some(0), None), "B" := DemoRec(RecRolledBack, Some(1), Some(0))])

  lemma FreshAppliesA()
    ensures Next(FRESH, Activate("A", DEMO_ACTIVATION)) == WITH_A
  {
    assert Next(FRESH, Activate("A", DEMO_ACTIVATION)).policies == WITH_A.policies;
  }

  lemma FreshAppliesB()
    ensures Next(WITH_A, Activate("B", DEMO_ACTIVATION)) == WITH_B
  {
    var policies := WITH_A.policies;
    assert LiveAt(policies, 0, DEMO_KEY);
    assert LiveBest(policies, DEMO_KEY) == Some(0);
    assert policies[..0] == [];
    assert LatestVersion(policies, DEMO_KEY) == Some(1);
    assert Next(WITH_A, Activate("B", DEMO_ACTIVATION)).policies == WITH_B.policies;
  }

  lemma FreshUndoes()
    ensures Next(WITH_B, Undo("A")) == WITHOUT_A && Next(WITHOUT_A, Undo("B")) == A_AGAIN
    ensures SafeToRollBack(WITH_B, "A") && SafeToRollBack(WITHOUT_A, "B")
  {
    assert Next(WITH_B, Undo("A")).policies == WITHOUT_A.policies;
    assert Next(WITH_B, Undo("A")).recs == WITHOUT_A.recs;
    assert Next(WITHOUT_A, Undo("B")).policies == A_AGAIN.policies;
    assert Next(WITHOUT_A, Undo("B")).recs == A_AGAIN.recs;
  }

  ghost predicate Reaches(s: State, steps: seq<Step>, t: State) {
    GuardedRun(s, steps) && Run(s, steps) == t
  }

  lemma ReachNext(s: State, steps: seq<Step>, t: State, step: Step, longer: seq<Step>)
    requires Reaches(s, steps, t) && Guarded(t, step)
    requires longer == steps + [step]
    ensures Reaches(s, longer, Next(t, step))
  {
    RunNext(s, steps, t, step, longer);
    assert longer[..|longer| - 1] == steps;
  }

  /** Every rollback of this run keeps one live row per key, and yet version A, rolled back, ends up ACTIVE. */
  lemma RolledBackVersionServesAgain()
    ensures var a, b := Activate("A", DEMO_ACTIVATION), Activate("B", DEMO_ACTIVATION);
            && GuardedRun(FRESH, [a, b, Undo("A"), Undo("B")])
            && Retired(Run(FRESH, [a, b, Undo("A")]).policies, 0)
            && Run(FRESH, [a, b, Undo("A"), Undo("B")]).policies == A_AGAIN.policies && A_AGAIN.policies[0].Live()
  {
    var a, b := Activate("A", DEMO_ACTIVATION), Activate("B", DEMO_ACTIVATION);
    FreshAppliesA();
    FreshAppliesB();
    FreshUndoes();
    ReachNext(FRESH, [], FRESH, a, [a]);
    ReachNext(FRESH, [a], WITH_A, b, [a, b]);
    ReachNext(FRESH, [a, b], WITH_B, Undo("A"), [a, b, Undo("A")]);
    ReachNext(FRESH, [a, b, Undo("A")], WITHOUT_A, Undo("B"), [a, b, Undo("A"), Undo("B")]);
  }
}
