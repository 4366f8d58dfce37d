/**
 The two policy ids stored on a recommendation implement one stack of policies per routing key:
 applying pushes, rolling back the live policy pops, and the top is the only live row.
 */
module PolicyStack {
  import opened Wrappers
  import opened PolicyLifecycle

  type Stacks = map<RoutingKey, seq<nat>>

  function StackOf(st: Stacks, key: RoutingKey): seq<nat> {
    if key in st then st[key] else []
  }

  ghost predicate AtMostOneLive(policies: seq<RoutingPolicy>) {
    forall i, j, key :: LiveAt(policies, i, key) && LiveAt(policies, j, key) ==> i == j
  }

  /** The rows of a key's stack; only the top one is live. */
  ghost predicate StackRows(policies: seq<RoutingPolicy>, key: RoutingKey, stack: seq<nat>) {
    && (forall j :: 0 <= j < |stack| ==> stack[j] < |policies| && policies[stack[j]].key == key)
    && (forall j, k :: 0 <= j < k < |stack| ==> stack[j] != stack[k])
    && (forall i :: LiveAt(policies, i, key) <==> stack != [] && i == stack[|stack| - 1])
  }

  /** The policy lies at position `j` of the stack and the superseded id names the row just below it. */
  predicate PointsInto(stack: seq<nat>, j: nat, applied: nat, superseded: Option<nat>) {
    && j < |stack|
    && stack[j] == applied
    && superseded == if j == 0 then None else Some(stack[j - 1])
  }

  ghost predicate Linked(s: State, st: Stacks, id: string)
    requires id in s.recs
  {
    var rec := s.recs[id];
    rec.status == RecApplied ==>
      && rec.appliedPolicyId.Some?
      && rec.appliedPolicyId.value < |s.policies|
      && exists j :: PointsInto(StackOf(st, s.policies[rec.appliedPolicyId.value].key), j, rec.appliedPolicyId.value, rec.supersededPolicyId)
  }

  ghost predicate AllLinked(s: State, st: Stacks) {
    forall id :: id in s.recs ==> Linked(s, st, id)
  }

  ghost predicate AppliedOnce(s: State) {
    forall a, b :: Applied(s, a) && Applied(s, b) && s.recs[a].appliedPolicyId == s.recs[b].appliedPolicyId ==> a == b
  }

  ghost predicate Inv(s: State, st: Stacks) {
    && (forall key :: StackRows(s.policies, key, StackOf(st, key)))
    && AllLinked(s, st)
    && AppliedOnce(s)
  }

  function Best(policies: seq<RoutingPolicy>, key: RoutingKey): seq<nat> {
    match LiveBest(policies, key)
    case None => []
    case Some(i) => [i]
  }

  ghost function InitialStacks(policies: seq<RoutingPolicy>): Stacks {
    map key | key in (set p | p in policies :: p.key) :: Best(policies, key)
  }

  /** The scheme can start from any table with at most one live row per key and nothing applied yet. */
  lemma InitialInv(s: State)
    requires AtMostOneLive(s.policies)
    requires forall id :: !Applied(s, id)
    ensures Inv(s, InitialStacks(s.policies))
  {
    var st := InitialStacks(s.policies);
    forall key ensures StackRows(s.policies, key, StackOf(st, key)) {
      if key in st {
      } else {
        assert forall p :: p in s.policies ==> p.key != key;
      }
    }
    forall id | id in s.recs ensures Linked(s, st, id) {
      assert !Applied(s, id);
    }
  }

  /** The query that looks for a predecessor finds the top of the stack. */
  lemma PredecessorIsTop(policies: seq<RoutingPolicy>, key: RoutingKey, stack: seq<nat>)
    requires StackRows(policies, key, stack)
    ensures LiveBest(policies, key) == if stack == [] then None else Some(stack[|stack| - 1])
  {
    var best := LiveBest(policies, key);
    if stack != [] {
      assert LiveAt(policies, stack[|stack| - 1], key);
    }
    if best.Some? {
      assert LiveAt(policies, best.value, key);
    }
  }

  lemma InvImpliesAtMostOneLive(s: State, st: Stacks)
    requires Inv(s, st)
    ensures AtMostOneLive(s.policies)
  {
    forall i, j, key | LiveAt(s.policies, i, key) && LiveAt(s.policies, j, key) ensures i == j {
      assert StackRows(s.policies, key, StackOf(st, key));
    }
  }

  /** The orchestrator's lookup never sees two rows: it finds the top of the stack, unless that is still a canary. */
  lemma LookupFindsTop(s: State, st: Stacks, key: RoutingKey)
    requires Inv(s, st)
    ensures var stack := StackOf(st, key);
            GetActive(s.policies, key) ==
              if stack != [] && s.policies[stack[|stack| - 1]].status == Active then OneRow(stack[|stack| - 1]) else NoRow
  {
    InvImpliesAtMostOneLive(s, st);
    assert StackRows(s.policies, key, StackOf(st, key));
    var r := GetActive(s.policies, key);
    assert forall i :: ActiveAt(s.policies, i, key) ==> LiveAt(s.policies, i, key);
    if StackOf(st, key) != [] {
      var top := StackOf(st, key)[|StackOf(st, key)| - 1];
      assert LiveAt(s.policies, top, key);
      assert s.policies[top].status == Active ==> ActiveAt(s.policies, top, key);
    }
  }

  lemma UntouchedRows(before: seq<RoutingPolicy>, after: seq<RoutingPolicy>, key: RoutingKey, stack: seq<nat>)
    requires StackRows(before, key, stack)
    requires KeysKept(before, after)
    requires forall i :: LiveAt(after, i, key) <==> LiveAt(before, i, key)
    ensures StackRows(after, key, stack)
  {
  }

  ghost predicate KeysKept(before: seq<RoutingPolicy>, after: seq<RoutingPolicy>) {
    |before| <= |after| && forall i :: 0 <= i < |before| ==> after[i].key == before[i].key
  }

  ghost predicate OnlyRecChanged(s: State, recId: string, t: State) {
    && recId in t.recs
    && forall id :: id != recId ==> (id in t.recs <==> id in s.recs) && (id in s.recs ==> t.recs[id] == s.recs[id])
  }

  // ---- pushing

  /** What one apply does: one row added live, its predecessor no longer live, both recorded on the recommendation. */
  ghost predicate Pushes(s: State, recId: string, target: RoutingKey, t: State) {
    var n := |s.policies|;
    && |t.policies| == n + 1
    && KeysKept(s.policies, t.policies)
    && LiveAt(t.policies, n, target)
    && (forall i, key :: 0 <= i < n ==>
          (LiveAt(t.policies, i, key) <==> LiveAt(s.policies, i, key) && Some(i) != LiveBest(s.policies, target)))
    && OnlyRecChanged(s, recId, t)
    && t.recs[recId].status == RecApplied
    && t.recs[recId].appliedPolicyId == Some(n)
    && t.recs[recId].supersededPolicyId == LiveBest(s.policies, target)
  }

  lemma ApplyEffect(s: State, recId: string, a: Activation)
    requires Applicable(s, recId)
    ensures Pushes(s, recId, TargetKey(s.recs[recId], a.catalogue), Apply(s, recId, a).value)
  {
  }

  lemma PushedRows(s: State, st: Stacks, recId: string, target: RoutingKey, t: State, key: RoutingKey)
    requires StackRows(s.policies, key, StackOf(st, key))
    requires Pushes(s, recId, target, t)
    ensures StackRows(t.policies, key, StackOf(st[target := StackOf(st, target) + [|s.policies|]], key))
  {
    var stack, n := StackOf(st, key), |s.policies|;
    var best := LiveBest(s.policies, target);
    if key == target {
      forall i ensures LiveAt(t.policies, i, key) <==> i == n {
        if 0 <= i < n && LiveAt(s.policies, i, key) {
          assert i == stack[|stack| - 1];
          assert best.Some? && LiveAt(s.policies, best.value, key);
        }
      }
    } else {
      forall i ensures LiveAt(t.policies, i, key) <==> LiveAt(s.policies, i, key) {
        assert best.Some? ==> s.policies[best.value].key == target;
      }
      UntouchedRows(s.policies, t.policies, key, stack);
    }
  }

  lemma PushKeepsLink(s: State, st: Stacks, recId: string, target: RoutingKey, t: State, id: string)
    requires StackRows(s.policies, target, StackOf(st, target))
    requires Pushes(s, recId, target, t)
    requires id in t.recs && (id != recId ==> Linked(s, st, id))
    ensures Linked(t, st[target := StackOf(st, target) + [|s.policies|]], id)
  {
    var stack := StackOf(st, target);
    var st' := st[target := stack + [|s.policies|]];
    if id == recId {
      PredecessorIsTop(s.policies, target, stack);
      assert PointsInto(StackOf(st', target), |stack|, |s.policies|, t.recs[id].supersededPolicyId);
    } else if s.recs[id].status == RecApplied {
      var p := s.recs[id].appliedPolicyId.value;
      var key := s.policies[p].key;
      var j :| PointsInto(StackOf(st, key), j, p, s.recs[id].supersededPolicyId);
      assert PointsInto(StackOf(st', key), j, p, s.recs[id].supersededPolicyId);
    }
  }

  lemma PushKeepsLinks(s: State, st: Stacks, recId: string, target: RoutingKey, t: State)
    requires AllLinked(s, st) && StackRows(s.policies, target, StackOf(st, target))
    requires Pushes(s, recId, target, t)
    ensures AllLinked(t, st[target := StackOf(st, target) + [|s.policies|]])
  {
    forall id | id in t.recs ensures Linked(t, st[target := StackOf(st, target) + [|s.policies|]], id) {
      assert id != recId ==> Linked(s, st, id);
      PushKeepsLink(s, st, recId, target, t, id);
    }
  }

  lemma PushKeepsAppliedOnce(s: State, st: Stacks, recId: string, target: RoutingKey, t: State)
    requires AllLinked(s, st) && AppliedOnce(s)
    requires Pushes(s, recId, target, t)
    ensures AppliedOnce(t)
  {
    forall id | Applied(s, id) ensures s.recs[id].appliedPolicyId != Some(|s.policies|) {
      assert Linked(s, st, id);
    }
  }

  lemma PushKeepsInv(s: State, st: Stacks, recId: string, target: RoutingKey, t: State)
    requires Inv(s, st)
    requires Pushes(s, recId, target, t)
    ensures Inv(t, st[target := StackOf(st, target) + [|s.policies|]])
  {
    var st' := st[target := StackOf(st, target) + [|s.policies|]];
    forall key ensures StackRows(t.policies, key, StackOf(st', key)) {
      PushedRows(s, st, recId, target, t, key);
    }
    PushKeepsLinks(s, st, recId, target, t);
    PushKeepsAppliedOnce(s, st, recId, target, t);
  }

  /** Applying a recommendation pushes the new row onto its key's stack. */
  lemma ApplyPushes(s: State, st: Stacks, recId: string, a: Activation)
    requires Inv(s, st)
    requires Applicable(s, recId)
    ensures var key := TargetKey(s.recs[recId], a.catalogue);
            Inv(Apply(s, recId, a).value, st[key := StackOf(st, key) + [|s.policies|]])
  {
    ApplyEffect(s, recId, a);
    PushKeepsInv(s, st, recId, TargetKey(s.recs[recId], a.catalogue), Apply(s, recId, a).value);
  }

  // ---- popping

  predicate Pops(s: State, recId: string) {
    && Applied(s, recId)
    && s.recs[recId].appliedPolicyId.Some?
    && s.recs[recId].appliedPolicyId.value < |s.policies|
    && s.policies[s.recs[recId].appliedPolicyId.value].Live()
  }

  /** Checkable before the call: the row to roll back is the live one, or it replaced nothing. */
  predicate SafeToRollBack(s: State, recId: string) {
    Applied(s, recId) ==> Pops(s, recId) || s.recs[recId].supersededPolicyId.None?
  }

  /** What one rollback does: the applied row dies, the superseded row is live, the recommendation is closed. */
  ghost predicate Unlinks(s: State, recId: string, t: State)
    requires recId in s.recs
  {
    var rec := s.recs[recId];
    && |t.policies| == |s.policies|
    && KeysKept(s.policies, t.policies)
    && (forall i, key :: 0 <= i < |t.policies| ==>
         (LiveAt(t.policies, i, key) <==>
            s.policies[i].key == key
            && (Some(i) == rec.supersededPolicyId || (s.policies[i].Live() && Some(i) != rec.appliedPolicyId))))
    && OnlyRecChanged(s, recId, t)
    && t.recs[recId].status == RecRolledBack
  }

  lemma RollbackEffect(s: State, recId: string)
    requires Applied(s, recId)
    ensures Unlinks(s, recId, Rollback(s, recId).value)
  {
  }

  /** The applied row of a rollback that pops is the top of its stack, over the superseded row. */
  lemma PoppedIsTop(s: State, stack: seq<nat>, st: Stacks, recId: string)
    requires Pops(s, recId) && Linked(s, st, recId)
    requires stack == StackOf(st, s.policies[s.recs[recId].appliedPolicyId.value].key)
    requires StackRows(s.policies, s.policies[s.recs[recId].appliedPolicyId.value].key, stack)
    ensures stack != [] && s.recs[recId].appliedPolicyId == Some(stack[|stack| - 1])
    ensures s.recs[recId].supersededPolicyId == if |stack| == 1 then None else Some(stack[|stack| - 2])
  {
    var p := s.recs[recId].appliedPolicyId.value;
    assert LiveAt(s.policies, p, s.policies[p].key);
    var j :| PointsInto(stack, j, p, s.recs[recId].supersededPolicyId);
    assert j == |stack| - 1;
  }

  lemma PoppedRows(s: State, stack: seq<nat>, target: RoutingKey, recId: string, t: State)
    requires recId in s.recs && Unlinks(s, recId, t)
    requires StackRows(s.policies, target, stack)
    requires stack != [] && s.recs[recId].appliedPolicyId == Some(stack[|stack| - 1])
    requires s.recs[recId].supersededPolicyId == if |stack| == 1 then None else Some(stack[|stack| - 2])
    ensures StackRows(t.policies, target, stack[..|stack| - 1])
    ensures forall key, i :: key != target ==> (LiveAt(t.policies, i, key) <==> LiveAt(s.policies, i, key))
  {
    var popped := stack[..|stack| - 1];
    forall i ensures LiveAt(t.policies, i, target) <==> popped != [] && i == popped[|popped| - 1] {
      if 0 <= i < |s.policies| {
        assert LiveAt(s.policies, i, target) <==> i == stack[|stack| - 1];
      }
    }
  }

  lemma PopKeepsLink(s: State, st: Stacks, target: RoutingKey, recId: string, t: State, id: string)
    requires recId in s.recs && Unlinks(s, recId, t)
    requires id in s.recs && Linked(s, st, id)
    requires StackRows(s.policies, target, StackOf(st, target)) && StackOf(st, target) != []
    requires s.recs[recId].appliedPolicyId == Some(StackOf(st, target)[|StackOf(st, target)| - 1])
    requires id != recId && s.recs[id].status == RecApplied ==> s.recs[id].appliedPolicyId != s.recs[recId].appliedPolicyId
    ensures Linked(t, st[target := StackOf(st, target)[..|StackOf(st, target)| - 1]], id)
  {
    var stack := StackOf(st, target);
    var st' := st[target := stack[..|stack| - 1]];
    if id != recId && s.recs[id].status == RecApplied {
      var q := s.recs[id].appliedPolicyId.value;
      var key := s.policies[q].key;
      var j :| PointsInto(StackOf(st, key), j, q, s.recs[id].supersededPolicyId);
      assert PointsInto(StackOf(st', key), j, q, s.recs[id].supersededPolicyId);
    }
  }

  lemma PopKeepsInv(s: State, st: Stacks, recId: string, t: State)
    requires Inv(s, st)
    requires Pops(s, recId) && Unlinks(s, recId, t)
    ensures var key := s.policies[s.recs[recId].appliedPolicyId.value].key;
            var stack := StackOf(st, key);
            stack != [] && Inv(t, st[key := stack[..|stack| - 1]])
  {
    var target := s.policies[s.recs[recId].appliedPolicyId.value].key;
    var stack := StackOf(st, target);
    assert StackRows(s.policies, target, stack) && Linked(s, st, recId);
    PoppedIsTop(s, stack, st, recId);
    PoppedRows(s, stack, target, recId, t);
    var st' := st[target := stack[..|stack| - 1]];
    forall key ensures StackRows(t.policies, key, StackOf(st', key)) {
      if key != target {
        assert StackRows(s.policies, key, StackOf(st, key));
        UntouchedRows(s.policies, t.policies, key, StackOf(st, key));
      }
    }
    assert AllLinked(t, st') by {
      forall id | id in t.recs ensures Linked(t, st', id) {
        assert Applied(s, recId) && Linked(s, st, id);
        assert id != recId && s.recs[id].status == RecApplied ==> Applied(s, id);
        PopKeepsLink(s, st, target, recId, t, id);
      }
    }
    assert AppliedOnce(t) by {
      forall id | Applied(t, id) ensures Applied(s, id) && t.recs[id] == s.recs[id] {
      }
    }
  }

  /** Rolling back the live policy pops its key's stack. */
  lemma RollbackPops(s: State, st: Stacks, recId: string)
    requires Inv(s, st)
    requires Pops(s, recId)
    ensures var key := s.policies[s.recs[recId].appliedPolicyId.value].key;
            var stack := StackOf(st, key);
            stack != [] && Inv(Rollback(s, recId).value, st[key := stack[..|stack| - 1]])
  {
    RollbackEffect(s, recId);
    PopKeepsInv(s, st, recId, Rollback(s, recId).value);
  }

  lemma BuriedRollbackKeepsInv(s: State, st: Stacks, recId: string, t: State)
    requires Inv(s, st)
    requires Applied(s, recId) && !Pops(s, recId) && s.recs[recId].supersededPolicyId.None?
    requires Unlinks(s, recId, t)
    ensures Inv(t, st)
  {
    assert Linked(s, st, recId);
    forall key ensures StackRows(t.policies, key, StackOf(st, key)) {
      assert StackRows(s.policies, key, StackOf(st, key));
      UntouchedRows(s.policies, t.policies, key, StackOf(st, key));
    }
    assert AllLinked(t, st) by {
      forall id | id in t.recs ensures Linked(t, st, id) {
        assert Linked(s, st, id);
      }
    }
    assert AppliedOnce(t) by {
      forall id | Applied(t, id) ensures Applied(s, id) && t.recs[id] == s.recs[id] {
      }
    }
  }

  /** Rolling back a bottom row that is no longer live leaves the live row and the stack alone. */
  lemma RollbackOfBuriedBottom(s: State, st: Stacks, recId: string)
    requires Inv(s, st)
    requires Applied(s, recId) && SafeToRollBack(s, recId) && !Pops(s, recId)
    ensures Inv(Rollback(s, recId).value, st)
  {
    RollbackEffect(s, recId);
    BuriedRollbackKeepsInv(s, st, recId, Rollback(s, recId).value);
  }

  lemma UnsafeRollbackRevives(s: State, st: Stacks, recId: string, t: State)
    requires Inv(s, st)
    requires Applied(s, recId) && !SafeToRollBack(s, recId)
    requires Unlinks(s, recId, t)
    ensures !AtMostOneLive(t.policies)
  {
    assert Linked(s, st, recId);
    var rec := s.recs[recId];
    var p := rec.appliedPolicyId.value;
    var key := s.policies[p].key;
    var stack := StackOf(st, key);
    assert StackRows(s.policies, key, stack);
    var j: nat :| PointsInto(stack, j, p, rec.supersededPolicyId);
    var top, revived := stack[|stack| - 1], stack[j - 1];
    assert LiveAt(s.policies, top, key);
    assert p != top;
    assert LiveAt(t.policies, top, key);
    assert LiveAt(t.policies, revived, key);
  }

  /**
   Arbitrary rollback order breaks the scheme. Rolling back a policy that a later one replaced
   revives its predecessor beside the newer live row; this happens exactly when the policy is
   not live and had a predecessor.
   */
  lemma RollbackKeepsUniquenessExactlyWhen(s: State, st: Stacks, recId: string)
    requires Inv(s, st)
    requires Applied(s, recId)
    ensures AtMostOneLive(Rollback(s, recId).value.policies) <==> SafeToRollBack(s, recId)
  {
    RollbackEffect(s, recId);
    var t := Rollback(s, recId).value;
    if Pops(s, recId) {
      PopKeepsInv(s, st, recId, t);
      var key := s.policies[s.recs[recId].appliedPolicyId.value].key;
      InvImpliesAtMostOneLive(t, st[key := StackOf(st, key)[..|StackOf(st, key)| - 1]]);
    } else if SafeToRollBack(s, recId) {
      BuriedRollbackKeepsInv(s, st, recId, t);
      InvImpliesAtMostOneLive(t, st);
    } else {
      UnsafeRollbackRevives(s, st, recId, t);
    }
  }
}
