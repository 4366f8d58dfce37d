/**
 Applies and rollbacks that nest like brackets leave the table as it was. Each apply of such a run
 is closed by the rollback of the same recommendation, with whole blocks in between and after:
 apply A, apply B, undo B, apply C, undo C, undo A.
 */
module PolicyNesting {
  import opened Wrappers
  import opened PolicyLifecycle
  import opened PolicyStack
  import opened PolicyRuns

  datatype Nest = Done | Block(apply: Step, inner: Nest, rest: Nest)

  function Steps(nest: Nest): seq<Step> {
    match nest
    case Done => []
    case Block(apply, inner, rest) => [apply] + Steps(inner) + [Undo(apply.recId)] + Steps(rest)
  }

  /** The state in which the block of `apply` closes. */
  function Closed(s: State, apply: Step, inner: Nest): State {
    Next(Run(Next(s, apply), Steps(inner)), Undo(apply.recId))
  }

  /** Every apply of the run is accepted when its turn comes. */
  predicate Fits(s: State, nest: Nest)
    decreases nest
  {
    match nest
    case Done => true
    case Block(apply, inner, rest) =>
      apply.Activate? && Applicable(s, apply.recId) && Fits(Next(s, apply), inner) && Fits(Closed(s, apply, inner), rest)
  }

  function Applies(nest: Nest): nat {
    match nest
    case Done => 0
    case Block(_, inner, rest) => 1 + Applies(inner) + Applies(rest)
  }

  function Ids(nest: Nest): set<string> {
    match nest
    case Done => {}
    case Block(apply, inner, rest) => {apply.recId} + Ids(inner) + Ids(rest)
  }

  /** The routing keys the run touches. */
  function Keys(recs: map<string, Recommendation>, nest: Nest): set<RoutingKey> {
    match nest
    case Done => {}
    case Block(apply, inner, rest) => KeyOf(recs, apply) + Keys(recs, inner) + Keys(recs, rest)
  }

  function KeyOf(recs: map<string, Recommendation>, apply: Step): set<RoutingKey> {
    if apply.Activate? && apply.recId in recs then {TargetKey(recs[apply.recId], apply.activation.catalogue)} else {}
  }

  lemma {:induction false} KeysAgree(a: map<string, Recommendation>, b: map<string, Recommendation>, nest: Nest)
    requires forall id :: id in Ids(nest) ==> id in a && id in b && a[id] == b[id]
    ensures Keys(a, nest) == Keys(b, nest)
  {
    match nest
    case Done =>
    case Block(_, inner, rest) =>
      KeysAgree(a, b, inner);
      KeysAgree(a, b, rest);
  }

  /** The original row, except that the live row of a touched key is ACTIVE even if it was a canary. */
  function Restored(policies: seq<RoutingPolicy>, keys: set<RoutingKey>, i: nat): RoutingPolicy
    requires i < |policies|
  {
    var p := policies[i];
    if LiveBest(policies, p.key) == Some(i) && p.key in keys then p.(status := Active) else p
  }

  /** Every original row is back, the added ones are rolled back, and other recommendations are untouched. */
  ghost predicate ComesBack(s: State, keys: set<RoutingKey>, ids: set<string>, added: nat, t: State) {
    && |t.policies| == |s.policies| + added
    && (forall i :: 0 <= i < |s.policies| ==> t.policies[i] == Restored(s.policies, keys, i))
    && (forall i :: |s.policies| <= i < |t.policies| ==> t.policies[i].status == RolledBack)
    && t.recs.Keys == s.recs.Keys
    && (forall id :: id in s.recs ==> if id in ids then t.recs[id].status == RecRolledBack else t.recs[id] == s.recs[id])
  }

  // ---- one apply and one rollback

  /** The table and the recommendation right after one successful apply. */
  ghost predicate Advances(s: State, step: Step, t: State)
    requires step.Activate? && step.recId in s.recs
  {
    var target := TargetKey(s.recs[step.recId], step.activation.catalogue);
    var n := |s.policies|;
    && |t.policies| == n + 1
    && (forall i :: 0 <= i < n ==>
          t.policies[i] == if LiveBest(s.policies, target) == Some(i) then s.policies[i].(status := Superseded) else s.policies[i])
    && LiveAt(t.policies, n, target)
    && (forall i :: 0 <= i < n && s.policies[i].key == target ==> s.policies[i].version < t.policies[n].version)
    && OnlyRecChanged(s, step.recId, t)
    && t.recs.Keys == s.recs.Keys
    && t.recs[step.recId].status == RecApplied
    && t.recs[step.recId].appliedPolicyId == Some(n)
    && t.recs[step.recId].supersededPolicyId == LiveBest(s.policies, target)
  }

  lemma ApplyAdvances(s: State, step: Step)
    requires step.Activate? && Applicable(s, step.recId)
    ensures Advances(s, step, Next(s, step))
  {
    StepPreservesHistory(s, step);
    ApplyEffect(s, step.recId, step.activation);
  }

  lemma {:induction false} LiveBestAgrees(a: seq<RoutingPolicy>, b: seq<RoutingPolicy>, key: RoutingKey)
    requires |a| == |b|
    requires forall i :: 0 <= i < |a| ==> (LiveAt(a, i, key) <==> LiveAt(b, i, key)) && a[i].version == b[i].version
    ensures LiveBest(a, key) == LiveBest(b, key)
  {
    if a != [] {
      var last := |a| - 1;
      assert forall i :: 0 <= i < last ==> (LiveAt(a[..last], i, key) <==> LiveAt(a, i, key));
      assert forall i :: 0 <= i < last ==> (LiveAt(b[..last], i, key) <==> LiveAt(b, i, key));
      LiveBestAgrees(a[..last], b[..last], key);
    }
  }

  lemma LiveBestAfterApply(s: State, step: Step, t: State, key: RoutingKey)
    requires step.Activate? && step.recId in s.recs
    requires Advances(s, step, t)
    ensures LiveBest(t.policies, key) ==
      if key == TargetKey(s.recs[step.recId], step.activation.catalogue) then Some(|s.policies|) else LiveBest(s.policies, key)
  {
    var target, n := TargetKey(s.recs[step.recId], step.activation.catalogue), |s.policies|;
    if key == target {
      assert LiveAt(t.policies, n, key);
      assert forall i :: LiveAt(t.policies, i, key) && i < n ==> s.policies[i].key == key;
    } else {
      var front := t.policies[..n];
      forall i | 0 <= i < n ensures (LiveAt(s.policies, i, key) <==> LiveAt(front, i, key)) && s.policies[i].version == front[i].version {
        assert LiveBest(s.policies, target) == Some(i) ==> s.policies[i].key == target;
      }
      LiveBestAgrees(s.policies, front, key);
      assert !LiveAt(t.policies, n, key);
    }
  }

  /** Exactly what a rollback does to the rows and the recommendations. */
  ghost predicate Reverts(s: State, recId: string, t: State)
    requires recId in s.recs
  {
    var rec := s.recs[recId];
    && t.policies == WithStatus(WithStatus(s.policies, rec.appliedPolicyId, RolledBack), rec.supersededPolicyId, Active)
    && OnlyRecChanged(s, recId, t)
    && t.recs.Keys == s.recs.Keys
    && t.recs[recId].status == RecRolledBack
  }

  lemma RollbackReverts(s: State, recId: string)
    requires Applied(s, recId)
    ensures Reverts(s, recId, Next(s, Undo(recId)))
  {
  }

  // ---- blocks one after the other

  /** Rows that are not live at the end of the table do not change what is found. */
  lemma {:induction false} LiveBestOfPrefix(policies: seq<RoutingPolicy>, n: nat, key: RoutingKey)
    requires n <= |policies| && forall i :: n <= i < |policies| ==> !policies[i].Live()
    ensures LiveBest(policies, key) == LiveBest(policies[..n], key)
  {
    if n == |policies| {
      assert policies[..n] == policies;
    } else {
      LiveBestOfPrefix(policies[..|policies| - 1], n, key);
      assert policies[..|policies| - 1][..n] == policies[..n];
    }
  }

  lemma LiveBestComesBack(s: State, keys: set<RoutingKey>, ids: set<string>, added: nat, t: State, key: RoutingKey)
    requires ComesBack(s, keys, ids, added, t)
    ensures LiveBest(t.policies, key) == LiveBest(s.policies, key)
  {
    var n := |s.policies|;
    LiveBestOfPrefix(t.policies, n, key);
    forall i | 0 <= i < n
      ensures (LiveAt(s.policies, i, key) <==> LiveAt(t.policies[..n], i, key)) && s.policies[i].version == t.policies[..n][i].version {
      assert t.policies[i] == Restored(s.policies, keys, i);
      assert LiveBest(s.policies, s.policies[i].key) == Some(i) ==> s.policies[i].Live();
    }
    LiveBestAgrees(s.policies, t.policies[..n], key);
  }

  lemma RowAfterBoth(
    s: State, k1: set<RoutingKey>, ids1: set<string>, n1: nat, m: State, k2: set<RoutingKey>, i: nat
  )
    requires ComesBack(s, k1, ids1, n1, m) && i < |s.policies|
    ensures Restored(m.policies, k2, i) == Restored(s.policies, k1 + k2, i)
  {
    LiveBestComesBack(s, k1, ids1, n1, m, s.policies[i].key);
    assert m.policies[i] == Restored(s.policies, k1, i);
  }

  lemma OneAfterTheOther(
    s: State, k1: set<RoutingKey>, ids1: set<string>, n1: nat, m: State, k2: set<RoutingKey>, ids2: set<string>, n2: nat, t: State
  )
    requires ComesBack(s, k1, ids1, n1, m) && ComesBack(m, k2, ids2, n2, t)
    ensures ComesBack(s, k1 + k2, ids1 + ids2, n1 + n2, t)
  {
    forall i | 0 <= i < |s.policies| ensures t.policies[i] == Restored(s.policies, k1 + k2, i) {
      RowAfterBoth(s, k1, ids1, n1, m, k2, i);
    }
    forall i | |s.policies| <= i < |t.policies| ensures t.policies[i].status == RolledBack {
      if i < |m.policies| {
        assert t.policies[i] == Restored(m.policies, k2, i);
        assert LiveBest(m.policies, m.policies[i].key) == Some(i) ==> m.policies[i].Live();
      }
    }
  }

  // ---- one block around another

  /** One row across: apply, what comes back inside, roll back. */
  lemma RowAround(s: State, step: Step, t: State, keys: set<RoutingKey>, i: nat)
    requires step.Activate? && step.recId in s.recs && Advances(s, step, t)
    requires i < |s.policies|
    ensures var target := TargetKey(s.recs[step.recId], step.activation.catalogue);
            var inside := Restored(t.policies, keys, i);
            Restored(s.policies, {target} + keys, i)
            == if LiveBest(s.policies, target) == Some(i) then inside.(status := Active) else inside
  {
    var target := TargetKey(s.recs[step.recId], step.activation.catalogue);
    LiveBestAfterApply(s, step, t, s.policies[i].key);
    assert LiveBest(s.policies, target) == Some(i) ==> s.policies[i].key == target;
  }

  lemma Around(s: State, step: Step, t: State, keys: set<RoutingKey>, ids: set<string>, added: nat, m: State, u: State)
    requires step.Activate? && step.recId in s.recs && Advances(s, step, t)
    requires ComesBack(t, keys, ids, added, m) && step.recId !in ids
    requires step.recId in m.recs && Reverts(m, step.recId, u)
    ensures ComesBack(s, {TargetKey(s.recs[step.recId], step.activation.catalogue)} + keys, {step.recId} + ids, 1 + added, u)
  {
    var target := TargetKey(s.recs[step.recId], step.activation.catalogue);
    assert LiveBest(s.policies, target).Some? ==> LiveBest(s.policies, target).value < |s.policies|;
    forall i | 0 <= i < |s.policies| ensures u.policies[i] == Restored(s.policies, {target} + keys, i) {
      RowAround(s, step, t, keys, i);
    }
  }

  // ---- whole nested runs

  lemma RunOfBlock(s: State, apply: Step, inner: Nest, rest: Nest)
    ensures Run(s, Steps(Block(apply, inner, rest))) == Run(Closed(s, apply, inner), Steps(rest))
  {
    var start := [apply] + Steps(inner);
    RunNext(s, [], s, apply, [apply]);
    RunConcat(s, [apply], Steps(inner));
    RunNext(s, start, Run(s, start), Undo(apply.recId), start + [Undo(apply.recId)]);
    RunConcat(s, start + [Undo(apply.recId)], Steps(rest));
  }

  lemma EmptyNest(s: State)
    ensures ComesBack(s, {}, {}, 0, s)
  {
  }

  /** None of the recommendations a nested run applies is anything but approved at its start. */
  ghost predicate AllApproved(s: State, ids: set<string>) {
    forall id :: id in ids ==> id in s.recs && s.recs[id].status == RecApproved
  }

  /**
   Every properly nested run of accepted applies and their rollbacks, from any state at all: every
   original row is back as it was, a canary that had been superseded comes back ACTIVE, and the new
   rows stay, rolled back.
   */
  lemma {:induction false} NestedRunRestores(s: State, nest: Nest)
    requires Fits(s, nest)
    ensures ComesBack(s, Keys(s.recs, nest), Ids(nest), Applies(nest), Run(s, Steps(nest)))
    ensures AllApproved(s, Ids(nest))
    decreases nest
  {
    match nest
    case Done => EmptyNest(s);
    case Block(apply, inner, rest) =>
      var t, u := Next(s, apply), Closed(s, apply, inner);
      NestedRunRestores(t, inner);
      NestedRunRestores(u, rest);
      RunOfBlock(s, apply, inner, rest);
      BlockRestores(s, apply, t, Keys(t.recs, inner), Ids(inner), Applies(inner), Run(t, Steps(inner)), u,
                    Keys(u.recs, rest), Ids(rest), Applies(rest), Run(u, Steps(rest)));
      KeysAgree(s.recs, t.recs, inner);
      KeysAgree(s.recs, u.recs, rest);
  }

  lemma BlockRestores(
    s: State, apply: Step, t: State, k1: set<RoutingKey>, ids1: set<string>, n1: nat, m: State, u: State,
    k2: set<RoutingKey>, ids2: set<string>, n2: nat, v: State
  )
    requires apply.Activate? && Applicable(s, apply.recId) && t == Next(s, apply)
    requires ComesBack(t, k1, ids1, n1, m) && AllApproved(t, ids1)
    requires u == Next(m, Undo(apply.recId))
    requires ComesBack(u, k2, ids2, n2, v) && AllApproved(u, ids2)
    ensures ComesBack(s, {TargetKey(s.recs[apply.recId], apply.activation.catalogue)} + k1 + k2, {apply.recId} + ids1 + ids2, 1 + n1 + n2, v)
    ensures AllApproved(s, {apply.recId} + ids1 + ids2)
    ensures forall id :: id in ids1 ==> t.recs[id] == s.recs[id]
    ensures forall id :: id in ids2 ==> u.recs[id] == s.recs[id]
  {
    var target := TargetKey(s.recs[apply.recId], apply.activation.catalogue);
    ApplyAdvances(s, apply);
    assert apply.recId !in ids1;
    RollbackReverts(m, apply.recId);
    Around(s, apply, t, k1, ids1, n1, m, u);
    OneAfterTheOther(s, {target} + k1, {apply.recId} + ids1, 1 + n1, u, k2, ids2, n2, v);
  }

  // ---- applies undone in reverse order

  function Rollbacks(applies: seq<Step>): seq<Step> {
    if applies == [] then [] else Rollbacks(applies[1..]) + [Undo(applies[0].recId)]
  }

  /** Distinct, approved, valid recommendations: each apply of the list will succeed. */
  ghost predicate Batch(s: State, applies: seq<Step>) {
    && (forall i :: 0 <= i < |applies| ==> applies[i].Activate? && Applicable(s, applies[i].recId))
    && (forall i, j :: 0 <= i < j < |applies| ==> applies[i].recId != applies[j].recId)
  }

  function NestOf(applies: seq<Step>): Nest {
    if applies == [] then Done else Block(applies[0], NestOf(applies[1..]), Done)
  }

  lemma {:induction false} StepsOfNest(applies: seq<Step>)
    ensures Steps(NestOf(applies)) == applies + Rollbacks(applies)
    ensures Applies(NestOf(applies)) == |applies|
  {
    if applies != [] {
      StepsOfNest(applies[1..]);
      assert applies == [applies[0]] + applies[1..];
    }
  }

  lemma {:induction false} BatchFits(s: State, applies: seq<Step>)
    requires Batch(s, applies)
    ensures Fits(s, NestOf(applies))
    decreases |applies|
  {
    if applies != [] {
      var first, rest := applies[0], applies[1..];
      var t := Next(s, first);
      ApplyAdvances(s, first);
      forall i | 0 <= i < |rest| ensures rest[i].Activate? && Applicable(t, rest[i].recId) {
        assert rest[i] == applies[i + 1] && first.recId != applies[i + 1].recId;
      }
      BatchFits(t, rest);
    }
  }

  /** n applies, of any keys, undone in reverse order: the deepest nesting. */
  lemma UndoingInReverseRestores(s: State, applies: seq<Step>)
    requires Batch(s, applies)
    ensures Fits(s, NestOf(applies))
    ensures ComesBack(s, Keys(s.recs, NestOf(applies)), Ids(NestOf(applies)), |applies|, Run(s, applies + Rollbacks(applies)))
  {
    BatchFits(s, applies);
    StepsOfNest(applies);
    NestedRunRestores(s, NestOf(applies));
  }

  /** A live canary, one apply over it, and its rollback: the canary comes back ACTIVE. */
  lemma CanaryComesBackActive()
    ensures var s := DEMO_START.(policies := [DemoRow(1, Canary, None)]);
            var after := Run(s, [Activate("A", DEMO_ACTIVATION), Undo("A")]).policies;
            |after| == 2 && after[0] == DemoRow(1, Active, None)
  {
    var s, apply := DEMO_START.(policies := [DemoRow(1, Canary, None)]), Activate("A", DEMO_ACTIVATION);
    NestedRunRestores(s, Block(apply, Done, Done));
    assert s.policies[..0] == [];
    assert LiveBest(s.policies, DEMO_KEY) == Some(0);
    assert Steps(Block(apply, Done, Done)) == [apply, Undo("A")];
    assert DEMO_KEY in Keys(s.recs, Block(apply, Done, Done));
  }
}
