/** What holds over every run of the lifecycle, whatever steps were taken and refused in between. */
module PolicyRuns {
  import opened Wrappers
  import opened Principals
  import opened PolicyLifecycle
  import opened PolicyStack

  /** A recommendation enters the system pending approval, with no policy ids; everything else is a service call. */
  datatype Step =
    | Propose(recId: string, rec: Recommendation)
    | Decision(recId: string, principal: Option<Principal>, approved: bool, reason: string, autoApprove: bool)
    | Activate(recId: string, activation: Activation)
    | Undo(recId: string)

  predicate Proposable(s: State, recId: string, rec: Recommendation) {
    recId !in s.recs && rec.status == RecPending && rec.appliedPolicyId.None? && rec.supersededPolicyId.None?
  }

  function Outcome(s: State, step: Step): Result<State, LifecycleError> {
    match step
    case Propose(id, rec) => if Proposable(s, id, rec) then Ok(s.(recs := s.recs[id := rec])) else Err(Conflict)
    case Decision(id, p, approved, reason, auto) => Decide(s, id, p, approved, reason, auto)
    case Activate(id, a) => Apply(s, id, a)
    case Undo(id) => Rollback(s, id)
  }

  /** A refused step changes nothing. */
  function Next(s: State, step: Step): State {
    match Outcome(s, step)
    case Ok(after) => after
    case Err(_) => s
  }

  function Run(s: State, steps: seq<Step>): State {
    if steps == [] then s else Next(Run(s, steps[..|steps| - 1]), steps[|steps| - 1])
  }

  lemma {:induction false} RunConcat(s: State, a: seq<Step>, b: seq<Step>)
    ensures Run(s, a + b) == Run(Run(s, a), b)
  {
    if b == [] {
      assert a + b == a;
    } else {
      var front := b[..|b| - 1];
      RunConcat(s, a, front);
      assert (a + b)[..|a + b| - 1] == a + front;
    }
  }

  // ---- refinement of the stack machine over whole runs

  datatype StackOp = Push(key: RoutingKey, id: nat) | Pop(key: RoutingKey) | Keep

  function OpOf(s: State, step: Step): StackOp {
    match step
    case Activate(id, a) => if Applicable(s, id) then Push(TargetKey(s.recs[id], a.catalogue), |s.policies|) else Keep
    case Undo(id) => if Pops(s, id) then Pop(s.policies[s.recs[id].appliedPolicyId.value].key) else Keep
    case _ => Keep
  }

  function Perform(st: Stacks, op: StackOp): Stacks {
    match op
    case Push(key, id) => st[key := StackOf(st, key) + [id]]
    case Pop(key) =>
      var stack := StackOf(st, key);
      if stack == [] then st else st[key := stack[..|stack| - 1]]
    case Keep => st
  }

  function Stacked(s: State, st: Stacks, steps: seq<Step>): Stacks {
    if steps == [] then st
    else
      var front := steps[..|steps| - 1];
      Perform(Stacked(s, st, front), OpOf(Run(s, front), steps[|steps| - 1]))
  }

  predicate Guarded(s: State, step: Step) {
    step.Undo? ==> SafeToRollBack(s, step.recId)
  }

  predicate GuardedRun(s: State, steps: seq<Step>) {
    steps == []
    || (GuardedRun(s, steps[..|steps| - 1]) && Guarded(Run(s, steps[..|steps| - 1]), steps[|steps| - 1]))
  }

  lemma RecordOnlyStepKeepsInv(s: State, st: Stacks, id: string, rec: Recommendation)
    requires Inv(s, st)
    requires rec.status != RecApplied
    ensures Inv(s.(recs := s.recs[id := rec]), st)
  {
    var s' := s.(recs := s.recs[id := rec]);
    forall other | other in s'.recs ensures Linked(s', st, other) {
      if other != id {
        assert Linked(s, st, other);
      }
    }
    forall a | Applied(s', a) ensures Applied(s, a) && s'.recs[a] == s.recs[a] {
    }
  }

  lemma RecordStepRefines(s: State, st: Stacks, step: Step)
    requires Inv(s, st)
    requires step.Propose? || step.Decision?
    ensures Inv(Next(s, step), st)
  {
    if Outcome(s, step).Ok? {
      RecordOnlyStepKeepsInv(s, st, step.recId, Next(s, step).recs[step.recId]);
    }
  }

  lemma UndoRefines(s: State, st: Stacks, recId: string)
    requires Inv(s, st)
    requires SafeToRollBack(s, recId)
    ensures Inv(Next(s, Undo(recId)), Perform(st, OpOf(s, Undo(recId))))
  {
    if Pops(s, recId) {
      RollbackPops(s, st, recId);
    } else if Applied(s, recId) {
      RollbackOfBuriedBottom(s, st, recId);
    }
  }

  lemma ActivateRefines(s: State, st: Stacks, step: Step)
    requires Inv(s, st)
    requires step.Activate?
    ensures Inv(Next(s, step), Perform(st, OpOf(s, step)))
  {
    if Applicable(s, step.recId) {
      ApplyPushes(s, st, step.recId, step.activation);
    }
  }

  lemma StepRefines(s: State, st: Stacks, step: Step)
    requires Inv(s, st)
    requires Guarded(s, step)
    ensures Inv(Next(s, step), Perform(st, OpOf(s, step)))
  {
    match step
    case Propose(_, _) => RecordStepRefines(s, st, step);
    case Decision(_, _, _, _, _) => RecordStepRefines(s, st, step);
    case Activate(_, _) => ActivateRefines(s, st, step);
    case Undo(id) => UndoRefines(s, st, id);
  }

  /**
   Over every run in which each rollback is safe, the two tables refine one stack per routing
   key: applies push, rollbacks of the live row pop, and at every point there is at most one
   live row per key, the top of its stack.
   */
  lemma {:induction false} RunRefines(s: State, st: Stacks, steps: seq<Step>)
    requires Inv(s, st)
    requires GuardedRun(s, steps)
    ensures Inv(Run(s, steps), Stacked(s, st, steps))
    ensures AtMostOneLive(Run(s, steps).policies)
  {
    if steps != [] {
      var front := steps[..|steps| - 1];
      RunRefines(s, st, front);
      StepRefines(Run(s, front), Stacked(s, st, front), steps[|steps| - 1]);
    }
    InvImpliesAtMostOneLive(Run(s, steps), Stacked(s, st, steps));
  }

  const DEMO_KEY := RoutingKey("tenant", "quality_check", MEDIUM)
  const DEMO_ACTIVATION := Activation(None, false, None, "", map[])

  function DemoRow(version: int, status: PolicyStatus, approver: Option<string>): RoutingPolicy {
    RoutingPolicy(DEMO_KEY, version, status, None, None, if approver.Some? then Some("system") else None, approver)
  }

  function DemoRec(status: RecommendationStatus, applied: Option<nat>, superseded: Option<nat>): Recommendation {
    Recommendation("tenant", Some("quality_check"), Some("smaller model"), Some(1.0), Some(Low), None,
                   status, Some("finops"), applied, superseded)
  }

  /** A live version 0 under two approved recommendations; then A applied; then B applied over it. */
  const DEMO_START :=
    State([DemoRow(1, Active, None)], map["A" := DemoRec(RecApproved, None, None), "B" := DemoRec(RecApproved, None, None)])
  const DEMO_A :=
    State([DemoRow(1, Superseded, None), DemoRow(2, Active, Some("finops"))],
          map["A" := DemoRec(RecApplied, Some(1), Some(0)), "B" := DemoRec(RecApproved, None, None)])
  const DEMO_AB :=
    State([DemoRow(1, Superseded, None), DemoRow(2, Superseded, Some("finops")), DemoRow(3, Active, Some("finops"))],
          map["A" := DemoRec(RecApplied, Some(1), Some(0)), "B" := DemoRec(RecApplied, Some(2), Some(1))])

  lemma DemoAppliesA()
    ensures Next(DEMO_START, Activate("A", DEMO_ACTIVATION)) == DEMO_A
  {
    var policies := DEMO_START.policies;
    assert policies[..0] == [];
    assert LiveBest(policies, DEMO_KEY) == Some(0);
    assert LatestVersion(policies, DEMO_KEY) == Some(1);
  }

  lemma DemoAppliesB()
    ensures Next(DEMO_A, Activate("B", DEMO_ACTIVATION)) == DEMO_AB
  {
    var policies := DEMO_A.policies;
    assert LiveAt(policies, 1, DEMO_KEY) && !LiveAt(policies, 0, DEMO_KEY);
    assert LiveBest(policies, DEMO_KEY) == Some(1);
    assert policies[..1] == [DemoRow(1, Superseded, None)];
    assert [DemoRow(1, Superseded, None)][..0] == [];
    assert LatestVersion(policies, DEMO_KEY) == Some(2);
    assert Next(DEMO_A, Activate("B", DEMO_ACTIVATION)).policies == DEMO_AB.policies;
  }

  /** Rolling A back now kills A's row and revives version 0 beside B's. */
  const DEMO_BROKEN :=
    State([DemoRow(1, Active, None), DemoRow(2, RolledBack, Some("finops")), DemoRow(3, Active, Some("finops"))],
          map["A" := DemoRec(RecRolledBack, Some(1), Some(0)), "B" := DemoRec(RecApplied, Some(2), Some(1))])

  lemma DemoUndo()
    ensures Next(DEMO_AB, Undo("A")) == DEMO_BROKEN
    ensures GetActive(DEMO_BROKEN.policies, DEMO_KEY) == ManyRows
  {
    var after := Next(DEMO_AB, Undo("A"));
    assert after.policies == DEMO_BROKEN.policies;
    assert after.recs == DEMO_BROKEN.recs;
    assert ActiveAt(DEMO_BROKEN.policies, 0, DEMO_KEY) && ActiveAt(DEMO_BROKEN.policies, 2, DEMO_KEY);
  }

  lemma RunNext(s: State, steps: seq<Step>, t: State, step: Step, longer: seq<Step>)
    requires Run(s, steps) == t && longer == steps + [step]
    ensures Run(s, longer) == Next(t, step)
  {
    assert longer[..|longer| - 1] == steps;
  }

  lemma RunOfThree(s: State, a: Step, b: Step, c: Step, afterA: State, afterB: State)
    requires Next(s, a) == afterA && Next(afterA, b) == afterB
    ensures Run(s, [a, b, c]) == Next(afterB, c)
  {
    RunNext(s, [], s, a, [a]);
    RunNext(s, [a], afterA, b, [a, b]);
    RunNext(s, [a, b], afterB, c, [a, b, c]);
  }

  /**
   A run that rolls back out of order: over a live version 0, apply A and then B, then roll A
   back. Version 0 is live again beside B, and the orchestrator's lookup sees two rows.
   */
  lemma OutOfOrderRollbackBreaksLookup()
    ensures Inv(DEMO_START, InitialStacks(DEMO_START.policies))
    ensures var steps := [Activate("A", DEMO_ACTIVATION), Activate("B", DEMO_ACTIVATION), Undo("A")];
            GetActive(Run(DEMO_START, steps).policies, DEMO_KEY) == ManyRows
  {
    DemoInitial();
    DemoAppliesA();
    DemoAppliesB();
    RunOfThree(DEMO_START, Activate("A", DEMO_ACTIVATION), Activate("B", DEMO_ACTIVATION), Undo("A"), DEMO_A, DEMO_AB);
    DemoUndo();
  }

  lemma DemoInitial()
    ensures Inv(DEMO_START, InitialStacks(DEMO_START.policies))
  {
    assert forall id :: !Applied(DEMO_START, id);
    InitialInv(DEMO_START);
  }

  /** Applying A as a canary supersedes the ACTIVE version, so that the lookup finds no version at all although one is live. */
  lemma CanaryIsInvisible()
    ensures var after := Next(DEMO_START, Activate("A", DEMO_ACTIVATION.(canary := true))).policies;
            GetActive(after, DEMO_KEY) == NoRow && LiveBest(after, DEMO_KEY) == Some(1)
  {
    DemoInitial();
    var policies := DEMO_START.policies;
    assert policies[..0] == [];
    assert LiveBest(policies, DEMO_KEY) == Some(0);
    var after := Next(DEMO_START, Activate("A", DEMO_ACTIVATION.(canary := true))).policies;
    assert LiveAt(after, 1, DEMO_KEY) && !LiveAt(after, 0, DEMO_KEY);
  }

  // ---- history of the table

  ghost predicate OnlyStatusDiffers(p: RoutingPolicy, q: RoutingPolicy) {
    p.(status := q.status) == q
  }

  /** Each row's version is above every earlier row of its tenant and workload type, from row `from` on. */
  ghost predicate VersionsClimb(policies: seq<RoutingPolicy>, from: nat) {
    forall i, j :: 0 <= i < j < |policies| && from <= j && SameFamily(policies[i], policies[j].key)
              ==> policies[i].version < policies[j].version
  }

  lemma StepPreservesHistory(s: State, step: Step)
    ensures var after := Next(s, step).policies;
            && |s.policies| <= |after| <= |s.policies| + 1
            && (forall i :: 0 <= i < |s.policies| ==> OnlyStatusDiffers(s.policies[i], after[i]))
            && (|after| == |s.policies| + 1 ==>
                  forall i :: 0 <= i < |s.policies| && SameFamily(s.policies[i], after[|s.policies|].key)
                         ==> s.policies[i].version < after[|s.policies|].version)
  {
    if step.Activate? && Applicable(s, step.recId) {
      var rec := s.recs[step.recId];
      var key := TargetKey(rec, step.activation.catalogue);
      forall i | 0 <= i < |s.policies| && SameFamily(s.policies[i], key)
        ensures s.policies[i].version < NextVersion(s.policies, key) {
        assert s.policies[i] in s.policies;
      }
    }
  }

  /**
   No run deletes a policy row or changes anything in it but its status, and every version
   it adds exceeds all versions ever present for the tenant and workload type, rollbacks included.
   */
  lemma {:induction false} HistoryIsImmutable(s: State, steps: seq<Step>)
    ensures var after := Run(s, steps).policies;
            && |s.policies| <= |after|
            && (forall i :: 0 <= i < |s.policies| ==> OnlyStatusDiffers(s.policies[i], after[i]))
            && VersionsClimb(after, |s.policies|)
  {
    if steps != [] {
      var front := steps[..|steps| - 1];
      HistoryIsImmutable(s, front);
      var mid := Run(s, front);
      StepPreservesHistory(mid, steps[|steps| - 1]);
      var after := Run(s, steps).policies;
      forall i, j | 0 <= i < j < |after| && |s.policies| <= j && SameFamily(after[i], after[j].key)
        ensures after[i].version < after[j].version {
        assert OnlyStatusDiffers(mid.policies[i], after[i]);
        if j < |mid.policies| {
          assert OnlyStatusDiffers(mid.policies[j], after[j]);
        }
      }
    }
  }

  /** The two rows a recommendation names share a routing key. */
  predicate NamesOneKey(policies: seq<RoutingPolicy>, rec: Recommendation) {
    && (rec.appliedPolicyId.Some? ==> rec.appliedPolicyId.value < |policies|)
    && (rec.supersededPolicyId.Some? ==>
          && rec.appliedPolicyId.Some?
          && rec.supersededPolicyId.value < |policies|
          && policies[rec.supersededPolicyId.value].key == policies[rec.appliedPolicyId.value].key)
  }

  ghost predicate StoredIdsShareKey(s: State) {
    forall id :: id in s.recs ==> NamesOneKey(s.policies, s.recs[id])
  }

  function TouchedKey(s: State, step: Step): Option<RoutingKey> {
    match step
    case Activate(id, a) => if Applicable(s, id) then Some(TargetKey(s.recs[id], a.catalogue)) else None
    case Undo(id) =>
      if Applied(s, id) && s.recs[id].appliedPolicyId.Some? && s.recs[id].appliedPolicyId.value < |s.policies|
      then Some(s.policies[s.recs[id].appliedPolicyId.value].key) else None
    case _ => None
  }

  lemma StillNamesOneKey(before: seq<RoutingPolicy>, after: seq<RoutingPolicy>, rec: Recommendation)
    requires NamesOneKey(before, rec) && |before| <= |after|
    requires forall i :: 0 <= i < |before| ==> OnlyStatusDiffers(before[i], after[i])
    ensures NamesOneKey(after, rec)
  {
  }

  /** A recommendation names what it did before, or, just applied, the new row and its predecessor. */
  lemma StepNames(s: State, step: Step, id: string)
    requires StoredIdsShareKey(s) && id in Next(s, step).recs
    ensures NamesOneKey(Next(s, step).policies, Next(s, step).recs[id])
  {
    StepPreservesHistory(s, step);
    if step.Activate? && step.recId == id && Applicable(s, id) {
      var best := LiveBest(s.policies, TargetKey(s.recs[id], step.activation.catalogue));
      assert best.Some? ==> s.policies[best.value].key == TargetKey(s.recs[id], step.activation.catalogue);
    } else if id in s.recs {
      StillNamesOneKey(s.policies, Next(s, step).policies, s.recs[id]);
    }
  }

  lemma StepTouchesOneKey(s: State, step: Step)
    requires StoredIdsShareKey(s)
    ensures StoredIdsShareKey(Next(s, step))
    ensures forall i :: 0 <= i < |s.policies| && Some(s.policies[i].key) != TouchedKey(s, step)
              ==> Next(s, step).policies[i] == s.policies[i]
  {
    forall id | id in Next(s, step).recs ensures NamesOneKey(Next(s, step).policies, Next(s, step).recs[id]) {
      StepNames(s, step, id);
    }
    if step.Undo? && Applied(s, step.recId) {
      assert NamesOneKey(s.policies, s.recs[step.recId]);
    }
  }

  /** Rows of a key that no step of the run touched are exactly as they were, in any run from consistent stored ids. */
  lemma {:induction false} OtherKeysUntouched(s: State, steps: seq<Step>, key: RoutingKey)
    requires StoredIdsShareKey(s)
    requires forall n :: 0 <= n < |steps| ==> TouchedKey(Run(s, steps[..n]), steps[n]) != Some(key)
    ensures StoredIdsShareKey(Run(s, steps))
    ensures |s.policies| <= |Run(s, steps).policies|
    ensures forall i :: 0 <= i < |s.policies| && s.policies[i].key == key ==> Run(s, steps).policies[i] == s.policies[i]
  {
    if steps != [] {
      var front := steps[..|steps| - 1];
      forall n | 0 <= n < |front| ensures TouchedKey(Run(s, front[..n]), front[n]) != Some(key) {
        assert front[..n] == steps[..n];
      }
      OtherKeysUntouched(s, front, key);
      HistoryIsImmutable(s, front);
      StepTouchesOneKey(Run(s, front), steps[|steps| - 1]);
      StepPreservesHistory(Run(s, front), steps[|steps| - 1]);
    }
  }

  // ---- where a policy's approval came from

  predicate Succeeds(s: State, step: Step) {
    Outcome(s, step).Ok?
  }

  /** A step that approves this recommendation, by an authorised decider or by low-risk auto-approval. */
  predicate Approves(s: State, step: Step, recId: string) {
    && step.Decision? && step.recId == recId && step.approved && recId in s.recs
    && (CanAutoApprove(s.recs[recId], step.autoApprove) || (step.principal.Some? && HoldsApprovalRole(step.principal.value)))
  }

  /** A successful step on the recommendation: a decision either way, an apply or a rollback. */
  predicate Settles(s: State, step: Step, recId: string) {
    !step.Propose? && step.recId == recId && Succeeds(s, step)
  }

  /** Step `i` approved the recommendation and nothing has been settled about it since. */
  ghost predicate StandingApproval(s: State, steps: seq<Step>, i: nat, upTo: nat, recId: string) {
    && i < upTo <= |steps|
    && ApprovedAt(s, steps, i, recId)
    && forall k :: i < k < upTo ==> !SettledAt(s, steps, k, recId)
  }

  predicate ApprovedAt(s: State, steps: seq<Step>, k: nat, recId: string) {
    k < |steps| && Approves(Run(s, steps[..k]), steps[k], recId)
  }

  predicate SettledAt(s: State, steps: seq<Step>, k: nat, recId: string) {
    k < |steps| && Settles(Run(s, steps[..k]), steps[k], recId)
  }

  lemma StepsExtend(s: State, steps: seq<Step>, i: nat, upTo: nat, recId: string)
    requires steps != []
    requires StandingApproval(s, steps[..|steps| - 1], i, upTo, recId)
    ensures StandingApproval(s, steps, i, upTo, recId)
  {
    var front := steps[..|steps| - 1];
    forall k: nat | k < |front|
      ensures ApprovedAt(s, front, k, recId) == ApprovedAt(s, steps, k, recId)
      ensures SettledAt(s, front, k, recId) == SettledAt(s, steps, k, recId) {
      assert front[..k] == steps[..k];
    }
  }

  lemma ApprovalStands(s: State, steps: seq<Step>, i: nat, recId: string)
    requires steps != []
    requires StandingApproval(s, steps[..|steps| - 1], i, |steps| - 1, recId)
    requires !SettledAt(s, steps, |steps| - 1, recId)
    ensures StandingApproval(s, steps, i, |steps|, recId)
  {
    StepsExtend(s, steps, i, |steps| - 1, recId);
  }

  lemma ApprovalOrUnchanged(s: State, step: Step, recId: string)
    requires recId in Next(s, step).recs && Next(s, step).recs[recId].status == RecApproved
    ensures if Settles(s, step, recId)
            then Approves(s, step, recId) && Next(s, step).recs[recId].approvedBy == Some(Decider(step.principal))
            else recId in s.recs && Next(s, step).recs[recId] == s.recs[recId]
  {
  }

  /** In every run that starts with nothing approved, an APPROVED recommendation has a standing approval by its recorded approver. */
  lemma {:induction false} ApprovedHasStandingApproval(s: State, steps: seq<Step>, recId: string) returns (i: nat)
    requires forall id :: id in s.recs ==> s.recs[id].status != RecApproved
    requires recId in Run(s, steps).recs && Run(s, steps).recs[recId].status == RecApproved
    ensures StandingApproval(s, steps, i, |steps|, recId)
    ensures Run(s, steps).recs[recId].approvedBy == Some(Decider(steps[i].principal))
  {
    var front, step := steps[..|steps| - 1], steps[|steps| - 1];
    var mid := Run(s, front);
    ApprovalOrUnchanged(mid, step, recId);
    if Settles(mid, step, recId) {
      i := |front|;
      assert steps[..i] == front;
    } else {
      i := ApprovedHasStandingApproval(s, front, recId);
      ApprovalStands(s, steps, i, recId);
    }
  }

  /**
   Every policy row a run adds was created by applying a recommendation under a standing
   approval, made since that recommendation's last rejection, apply or rollback, by a holder of
   FINOPS_MANAGER or ADMIN or by auto-approval of a low risk, and the row records that approver.
   */
  lemma {:induction false} EveryPolicyWasApproved(s: State, steps: seq<Step>, row: nat) returns (i: nat, j: nat)
    requires forall id :: id in s.recs ==> s.recs[id].status != RecApproved
    requires |s.policies| <= row < |Run(s, steps).policies|
    ensures j < |steps| && steps[j].Activate? && Succeeds(Run(s, steps[..j]), steps[j])
    ensures |Run(s, steps[..j]).policies| == row
    ensures StandingApproval(s, steps, i, j, steps[j].recId)
    ensures steps[i].Decision? && steps[i].approved && steps[i].recId == steps[j].recId && steps[i].recId in Run(s, steps[..i]).recs
    ensures || (steps[i].autoApprove && Run(s, steps[..i]).recs[steps[i].recId].riskLevel == Some(Low))
            || (steps[i].principal.Some? && (FinopsManager in Roles(steps[i].principal.value) || Admin in Roles(steps[i].principal.value)))
    ensures Run(s, steps).policies[row].approvedBy ==
              Some(if steps[i].principal.Some? then steps[i].principal.value.subject else "system_auto_approver")
  {
    var front, step := steps[..|steps| - 1], steps[|steps| - 1];
    var mid := Run(s, front);
    assert steps[..|front|] == front;
    StepPreservesHistory(mid, step);
    if row < |mid.policies| {
      i, j := EveryPolicyWasApproved(s, front, row);
      assert front[..j] == steps[..j];
      StepsExtend(s, steps, i, j, steps[j].recId);
      assert OnlyStatusDiffers(mid.policies[row], Run(s, steps).policies[row]);
    } else {
      j := |front|;
      i := ApprovedHasStandingApproval(s, front, step.recId);
      StepsExtend(s, steps, i, j, step.recId);
    }
  }
}
