/**
 The routing-policy lifecycle: recommendations are approved, applied and rolled back over an
 append-only table of policy versions. A policy's id is its row position; ids are therefore
 always fresh. Timestamps, logging and audit writes are not modelled.
 */
module PolicyLifecycle {
  import opened Wrappers
  import opened Principals

  datatype PolicyStatus = Draft | PendingApproval | Canary | Active | Superseded | RolledBack

  datatype RoutingKey = RoutingKey(tenantId: string, workloadType: string, complexity: string)

  datatype RoutingPolicy = RoutingPolicy(
    key: RoutingKey,
    version: int,
    status: PolicyStatus,
    canaryTrafficPercent: Option<real>,
    reason: Option<string>,
    createdBy: Option<string>,
    approvedBy: Option<string>
  ) {
    predicate Live() {
      status == Active || status == Canary
    }
  }

  datatype RiskLevel = Low | Medium | High | Critical

  datatype RecommendationStatus = RecDraft | RecPending | RecApproved | RecRejected | RecApplied | RecRolledBack

  datatype Recommendation = Recommendation(
    tenantId: string,
    workloadId: Option<string>,
    recommendedStrategy: Option<string>,
    estimatedSaving: Option<real>,
    riskLevel: Option<RiskLevel>,
    reason: Option<string>,
    status: RecommendationStatus,
    approvedBy: Option<string>,
    appliedPolicyId: Option<nat>,
    supersededPolicyId: Option<nat>
  )

  datatype State = State(policies: seq<RoutingPolicy>, recs: map<string, Recommendation>)

  datatype LifecycleError = NotFound | NotAuthorized | Conflict

  // ---- queries on the policy table

  predicate LiveAt(policies: seq<RoutingPolicy>, i: int, key: RoutingKey) {
    0 <= i < |policies| && policies[i].key == key && policies[i].Live()
  }

  /** `get_active_policy`: the live row of the key with the highest version. */
  function LiveBest(policies: seq<RoutingPolicy>, key: RoutingKey): (r: Option<nat>)
    ensures r.None? <==> forall i :: !LiveAt(policies, i, key)
    ensures r.Some? ==> LiveAt(policies, r.value, key)
    ensures r.Some? ==> forall i :: LiveAt(policies, i, key) ==> policies[i].version <= policies[r.value].version
  {
    if policies == [] then None
    else
      var last := |policies| - 1;
      var best := LiveBest(policies[..last], key);
      assert forall i :: 0 <= i < last ==> (LiveAt(policies[..last], i, key) <==> LiveAt(policies, i, key));
      if LiveAt(policies, last, key) && (best.None? || policies[best.value].version < policies[last].version)
      then Some(last) else best
  }

  predicate SameFamily(p: RoutingPolicy, key: RoutingKey) {
    p.key.tenantId == key.tenantId && p.key.workloadType == key.workloadType
  }

  /** `get_latest_version_number`: over every complexity of the tenant and workload type; 0 if there is no row. */
  function LatestVersion(policies: seq<RoutingPolicy>, key: RoutingKey): (v: Option<int>)
    ensures v.None? <==> forall p :: p in policies ==> !SameFamily(p, key)
    ensures v.Some? ==> exists p :: p in policies && SameFamily(p, key) && p.version == v.value
    ensures v.Some? ==> forall p :: p in policies && SameFamily(p, key) ==> p.version <= v.value
  {
    if policies == [] then None
    else
      var last := policies[|policies| - 1];
      var front := LatestVersion(policies[..|policies| - 1], key);
      assert policies == policies[..|policies| - 1] + [last];
      assert last in policies && forall p :: p in policies[..|policies| - 1] ==> p in policies;
      if SameFamily(last, key) && (front.None? || front.value < last.version) then Some(last.version) else front
  }

  function NextVersion(policies: seq<RoutingPolicy>, key: RoutingKey): int {
    match LatestVersion(policies, key)
    case None => 1
    case Some(v) => v + 1
  }

  predicate ActiveAt(policies: seq<RoutingPolicy>, i: int, key: RoutingKey) {
    0 <= i < |policies| && policies[i].key == key && policies[i].status == Active
  }

  datatype Lookup = NoRow | OneRow(id: nat) | ManyRows

  /** `get_active`: the orchestrator's lookup, which fails when two rows are ACTIVE. */
  function GetActive(policies: seq<RoutingPolicy>, key: RoutingKey): (r: Lookup)
    ensures r.NoRow? <==> forall i :: !ActiveAt(policies, i, key)
    ensures r.OneRow? ==> ActiveAt(policies, r.id, key) && forall i :: ActiveAt(policies, i, key) ==> i == r.id
    ensures r.ManyRows? ==> exists i, j :: i != j && ActiveAt(policies, i, key) && ActiveAt(policies, j, key)
  {
    if policies == [] then NoRow
    else
      var last := |policies| - 1;
      var front := GetActive(policies[..last], key);
      assert forall i :: 0 <= i < last ==> (ActiveAt(policies[..last], i, key) <==> ActiveAt(policies, i, key));
      if !ActiveAt(policies, last, key) then front
      else match front {
        case NoRow => OneRow(last)
        case OneRow(id) => assert ActiveAt(policies, id, key); ManyRows
        case ManyRows =>
          assert exists i, j :: i != j && ActiveAt(policies[..last], i, key) && ActiveAt(policies[..last], j, key);
          ManyRows
      }
  }

  // ---- the three transitions

  const MEDIUM := "medium"

  function ValidatePolicy(rec: Recommendation): bool {
    && rec.recommendedStrategy.Some? && rec.recommendedStrategy.value != ""
    && rec.estimatedSaving.Some? && rec.estimatedSaving.value >= 0.0
  }

  predicate HoldsApprovalRole(principal: Principal) {
    exists a :: a in principal.assignments && (a.role == FinopsManager || a.role == Admin)
  }

  predicate CanAutoApprove(rec: Recommendation, autoApprove: bool) {
    autoApprove && rec.riskLevel == Some(Low)
  }

  function Decider(principal: Option<Principal>): string {
    match principal
    case Some(p) => p.subject
    case None => "system_auto_approver"
  }

  function TextOf(s: Option<string>): string {
    match s
    case None => "None"
    case Some(t) => t
  }

  /** `autoApprove` is the service setting or the per-call override. The current status is not consulted. */
  function Decide(
    s: State, recId: string, principal: Option<Principal>, approved: bool, reason: string, autoApprove: bool
  ): Result<State, LifecycleError> {
    if recId !in s.recs then Err(NotFound)
    else
      var rec := s.recs[recId];
      if !CanAutoApprove(rec, autoApprove) && (principal.None? || !HoldsApprovalRole(principal.value)) then Err(NotAuthorized)
      else
        var decided :=
          if approved then rec.(status := RecApproved, approvedBy := Some(Decider(principal)))
          else rec.(status := RecRejected, reason := Some(TextOf(rec.reason) + " [REJECTED: " + reason + "]"));
        Ok(s.(recs := s.recs[recId := decided]))
  }

  /** The workload catalogue maps an id to its type; an unknown id stands for itself. */
  function ResolveWorkloadType(catalogue: map<string, string>, workloadId: Option<string>): string {
    match workloadId
    case None => ""
    case Some(id) => if id != "" && id in catalogue then catalogue[id] else id
  }

  function TargetKey(rec: Recommendation, catalogue: map<string, string>): RoutingKey {
    RoutingKey(rec.tenantId, ResolveWorkloadType(catalogue, rec.workloadId), MEDIUM)
  }

  function WithStatus(policies: seq<RoutingPolicy>, id: Option<nat>, status: PolicyStatus): seq<RoutingPolicy> {
    if id.Some? && id.value < |policies| then policies[id.value := policies[id.value].(status := status)] else policies
  }

  datatype Activation = Activation(
    principal: Option<Principal>, canary: bool, canaryTrafficPercent: Option<real>, reason: string,
    catalogue: map<string, string>)

  function NewPolicy(s: State, rec: Recommendation, a: Activation): RoutingPolicy {
    var key := TargetKey(rec, a.catalogue);
    RoutingPolicy(
      key,
      NextVersion(s.policies, key),
      if a.canary then Canary else Active,
      if a.canary then a.canaryTrafficPercent else None,
      if a.reason != "" then Some(a.reason) else rec.reason,
      Some(match a.principal case Some(p) => p.subject case None => "system"),
      rec.approvedBy)
  }

  predicate Applicable(s: State, recId: string) {
    recId in s.recs && s.recs[recId].status == RecApproved && ValidatePolicy(s.recs[recId])
  }

  function Apply(s: State, recId: string, a: Activation): Result<State, LifecycleError> {
    if recId !in s.recs then Err(NotFound)
    else if !Applicable(s, recId) then Err(Conflict)
    else
      var rec := s.recs[recId];
      var superseded := LiveBest(s.policies, TargetKey(rec, a.catalogue));
      var policies := WithStatus(s.policies, superseded, Superseded) + [NewPolicy(s, rec, a)];
      var applied := rec.(status := RecApplied, appliedPolicyId := Some(|s.policies|), supersededPolicyId := superseded);
      Ok(State(policies, s.recs[recId := applied]))
  }

  predicate Applied(s: State, recId: string) {
    recId in s.recs && s.recs[recId].status == RecApplied
  }

  /** The superseded version comes back ACTIVE whatever it was before. */
  function Rollback(s: State, recId: string): Result<State, LifecycleError> {
    if recId !in s.recs then Err(NotFound)
    else if !Applied(s, recId) then Err(Conflict)
    else
      var rec := s.recs[recId];
      var policies := WithStatus(WithStatus(s.policies, rec.appliedPolicyId, RolledBack), rec.supersededPolicyId, Active);
      Ok(State(policies, s.recs[recId := rec.(status := RecRolledBack)]))
  }

  // ---- what the transitions come to

  /** Low risk with auto-approval on, or a caller who holds one of the two approving roles. */
  predicate MayDecide(principal: Option<Principal>, rec: Recommendation, autoApprove: bool) {
    || (autoApprove && rec.riskLevel == Some(Low))
    || (principal.Some? && (FinopsManager in Roles(principal.value) || Admin in Roles(principal.value)))
  }

  /**
   A decision is accepted exactly when the recommendation exists and either it is of low risk with
   auto-approval on, or the caller is there and holds FINOPS_MANAGER or ADMIN at some scope. It sets
   the status and, when approving, the approver, or when rejecting, the reason; nothing else.
   */
  lemma DecidedExactlyWhen(s: State, recId: string, principal: Option<Principal>, approved: bool, reason: string, autoApprove: bool)
    ensures var r := Decide(s, recId, principal, approved, reason, autoApprove);
            && (r == Err(NotFound) <==> recId !in s.recs)
            && (r.Ok? <==> recId in s.recs && MayDecide(principal, s.recs[recId], autoApprove))
            && (r.Err? && recId in s.recs ==> r == Err(NotAuthorized))
            && (r.Ok? ==>
                  && r.value.policies == s.policies
                  && r.value.recs == s.recs[recId := r.value.recs[recId]]
                  && (var rec, decided := s.recs[recId], r.value.recs[recId];
                      if approved then
                        decided == rec.(status := RecApproved,
                                        approvedBy := Some(if principal.Some? then principal.value.subject else "system_auto_approver"))
                      else
                        decided == rec.(status := RecRejected,
                                        reason := Some((if rec.reason.Some? then rec.reason.value else "None") + " [REJECTED: " + reason + "]"))))
  {
    if principal.Some? {
      var p := principal.value;
      if HoldsApprovalRole(p) {
        var a :| a in p.assignments && (a.role == FinopsManager || a.role == Admin);
        assert a.role in Roles(p);
      }
      if role :| role in Roles(p) && (role == FinopsManager || role == Admin) {
        var a :| a in p.assignments && a.role == role;
      }
    }
  }

  /** The routing key of an activation: the catalogue's type for a workload it knows, the id itself otherwise, always at medium complexity. */
  predicate KeyedFor(key: RoutingKey, rec: Recommendation, catalogue: map<string, string>) {
    && key.tenantId == rec.tenantId && key.complexity == "medium"
    && (rec.workloadId.None? ==> key.workloadType == "")
    && (rec.workloadId.Some? && rec.workloadId.value != "" && rec.workloadId.value in catalogue ==>
          key.workloadType == catalogue[rec.workloadId.value])
    && (rec.workloadId.Some? && (rec.workloadId.value == "" || rec.workloadId.value !in catalogue) ==> key.workloadType == rec.workloadId.value)
  }

  /** The version after the highest one of the tenant and workload type, whatever the complexity; the first is 1. */
  ghost predicate NextInFamily(policies: seq<RoutingPolicy>, row: RoutingPolicy) {
    var family := set p | p in policies && p.key.tenantId == row.key.tenantId && p.key.workloadType == row.key.workloadType;
    && (forall p :: p in family ==> p.version < row.version)
    && (if family == {} then row.version == 1 else exists p :: p in family && p.version == row.version - 1)
  }

  /** The newest active or canary row of the key, if it has one. */
  ghost predicate NewestLive(policies: seq<RoutingPolicy>, key: RoutingKey, found: Option<nat>) {
    var live := set i: nat | i < |policies| && policies[i].key == key && (policies[i].status == Active || policies[i].status == Canary);
    && (found.None? <==> live == {})
    && (found.Some? ==> found.value in live && forall i :: i in live ==> policies[i].version <= policies[found.value].version)
  }

  lemma NextIsInFamily(policies: seq<RoutingPolicy>, row: RoutingPolicy)
    requires row.version == NextVersion(policies, row.key)
    ensures NextInFamily(policies, row)
  {
    var family := set p | p in policies && p.key.tenantId == row.key.tenantId && p.key.workloadType == row.key.workloadType;
    assert forall p :: p in family <==> p in policies && SameFamily(p, row.key);
  }

  lemma LiveBestIsNewest(policies: seq<RoutingPolicy>, key: RoutingKey)
    ensures NewestLive(policies, key, LiveBest(policies, key))
  {
    var live := set i: nat | i < |policies| && policies[i].key == key && (policies[i].status == Active || policies[i].status == Canary);
    assert forall i: nat :: i in live <==> LiveAt(policies, i, key);
  }

  /**
   An apply is accepted exactly for an existing, APPROVED recommendation with a strategy and a known
   nonnegative saving. It adds one row that says everything about the activation, supersedes the
   newest live row of the same key, and records both on the recommendation.
   */
  lemma AppliedExactlyWhen(s: State, recId: string, a: Activation)
    ensures var r := Apply(s, recId, a);
            && (r == Err(NotFound) <==> recId !in s.recs)
            && (r.Ok? <==>
                  && recId in s.recs && s.recs[recId].status == RecApproved
                  && s.recs[recId].recommendedStrategy.Some? && s.recs[recId].recommendedStrategy.value != ""
                  && s.recs[recId].estimatedSaving.Some? && s.recs[recId].estimatedSaving.value >= 0.0)
            && (r.Err? && recId in s.recs ==> r == Err(Conflict))
            && (r.Ok? ==> AppliesAs(s, s.recs[recId], recId, a, r.value))
  {
    if Apply(s, recId, a).Ok? {
      ApplyReads(s, recId, a);
    }
  }

  lemma ApplyReads(s: State, recId: string, a: Activation)
    requires Apply(s, recId, a).Ok?
    ensures AppliesAs(s, s.recs[recId], recId, a, Apply(s, recId, a).value)
  {
    var row := Apply(s, recId, a).value.policies[|s.policies|];
    NextIsInFamily(s.policies, row);
    LiveBestIsNewest(s.policies, row.key);
  }

  ghost predicate AppliesAs(s: State, rec: Recommendation, recId: string, a: Activation, t: State) {
    var n := |s.policies|;
    && |t.policies| == n + 1
    && (var row := t.policies[n];
        && KeyedFor(row.key, rec, a.catalogue)
        && row.status == (if a.canary then Canary else Active)
        && row.canaryTrafficPercent == (if a.canary then a.canaryTrafficPercent else None)
        && row.reason == (if a.reason == "" then rec.reason else Some(a.reason))
        && row.createdBy == Some(if a.principal.Some? then a.principal.value.subject else "system")
        && row.approvedBy == rec.approvedBy
        && NextInFamily(s.policies, row)
        && (var superseded := LiveBest(s.policies, row.key);
            && NewestLive(s.policies, row.key, superseded)
            && (forall i :: 0 <= i < n ==>
                  t.policies[i] == if superseded == Some(i) then s.policies[i].(status := Superseded) else s.policies[i])
            && t.recs == s.recs[recId := rec.(status := RecApplied, appliedPolicyId := Some(n), supersededPolicyId := superseded)]))
  }

  /** A rollback is accepted exactly for an existing, APPLIED recommendation; it touches the two rows named there and its status. */
  lemma RolledBackExactlyWhen(s: State, recId: string)
    ensures var r := Rollback(s, recId);
            && (r == Err(NotFound) <==> recId !in s.recs)
            && (r.Ok? <==> recId in s.recs && s.recs[recId].status == RecApplied)
            && (r.Err? && recId in s.recs ==> r == Err(Conflict))
            && (r.Ok? ==>
                  && r.value.recs == s.recs[recId := s.recs[recId].(status := RecRolledBack)]
                  && |r.value.policies| == |s.policies|
                  && (forall i :: 0 <= i < |s.policies| ==>
                       r.value.policies[i] ==
                         if s.recs[recId].supersededPolicyId == Some(i) then s.policies[i].(status := Active)
                         else if s.recs[recId].appliedPolicyId == Some(i) then s.policies[i].(status := RolledBack)
                         else s.policies[i]))
  {
  }

  // ---- the service over its two tables

  class PolicyLifecycleService {
    var policies: seq<RoutingPolicy>
    var recs: map<string, Recommendation>
    const autoApproveLowRisk: bool
    const catalogue: map<string, string>

    constructor (policies: seq<RoutingPolicy>, recs: map<string, Recommendation>, autoApproveLowRisk: bool,
                 catalogue: map<string, string>)
      ensures Tables() == State(policies, recs)
      ensures this.autoApproveLowRisk == autoApproveLowRisk && this.catalogue == catalogue
    {
      this.policies, this.recs := policies, recs;
      this.autoApproveLowRisk, this.catalogue := autoApproveLowRisk, catalogue;
    }

    function Tables(): State
      reads this
    {
      State(policies, recs)
    }

    method GetActivePolicy(key: RoutingKey) returns (best: Option<nat>)
      ensures best == LiveBest(policies, key)
    {
      best := None;
      for i := 0 to |policies|
        invariant best == LiveBest(policies[..i], key)
      {
        assert policies[..i + 1][..i] == policies[..i];
        if policies[i].key == key && policies[i].Live()
           && (best.None? || policies[best.value].version < policies[i].version) {
          best := Some(i);
        }
      }
      assert policies[..|policies|] == policies;
    }

    method GetLatestVersionNumber(key: RoutingKey) returns (version: int)
      ensures version == NextVersion(policies, key) - 1
    {
      var max: Option<int> := None;
      for i := 0 to |policies|
        invariant max == LatestVersion(policies[..i], key)
      {
        assert policies[..i + 1][..i] == policies[..i];
        if SameFamily(policies[i], key) && (max.None? || max.value < policies[i].version) {
          max := Some(policies[i].version);
        }
      }
      assert policies[..|policies|] == policies;
      version := if max.Some? then max.value else 0;
    }

    /** Nothing happens to an unknown id; otherwise the changed row is handed back. */
    method SetStatus(id: nat, status: PolicyStatus) returns (row: Option<RoutingPolicy>)
      modifies this`policies
      ensures policies == WithStatus(old(policies), Some(id), status)
      ensures row == if id < |old(policies)| then Some(old(policies)[id].(status := status)) else None
    {
      if id >= |policies| {
        return None;
      }
      policies := policies[id := policies[id].(status := status)];
      return Some(policies[id]);
    }

    method ApproveRecommendation(
      recId: string, principal: Option<Principal>, approved: bool, reason: string, autoApproveOverride: bool
    ) returns (error: Option<LifecycleError>)
      modifies this`recs
      ensures match Decide(old(Tables()), recId, principal, approved, reason, autoApproveLowRisk || autoApproveOverride)
              case Ok(s) => error == None && Tables() == s
              case Err(e) => error == Some(e) && Tables() == old(Tables())
    {
      if recId !in recs {
        return Some(NotFound);
      }
      var rec := recs[recId];
      var canAutoApprove := (autoApproveLowRisk || autoApproveOverride) && rec.riskLevel == Some(Low);
      if !canAutoApprove {
        if principal.None? || !HoldsApprovalRole(principal.value) {
          return Some(NotAuthorized);
        }
      }
      if approved {
        rec := rec.(status := RecApproved, approvedBy := Some(Decider(principal)));
      } else {
        rec := rec.(status := RecRejected, reason := Some(TextOf(rec.reason) + " [REJECTED: " + reason + "]"));
      }
      recs := recs[recId := rec];
      error := None;
    }

    method ApplyPolicy(
      recId: string, principal: Option<Principal>, canary: bool, canaryTrafficPercent: Option<real>, reason: string
    ) returns (r: Result<nat, LifecycleError>)
      modifies this
      ensures match Apply(old(Tables()), recId, Activation(principal, canary, canaryTrafficPercent, reason, catalogue))
              case Ok(s) => Tables() == s && r == Ok(|old(policies)|)
              case Err(e) => Tables() == old(Tables()) && r == Err(e)
    {
      if recId !in recs {
        return Err(NotFound);
      }
      var rec := recs[recId];
      if rec.status != RecApproved || !ValidatePolicy(rec) {
        return Err(Conflict);
      }
      var key := TargetKey(rec, catalogue);
      var newPolicyId := |policies|;
      var currentActive := GetActivePolicy(key);
      var latest := GetLatestVersionNumber(key);
      var row := RoutingPolicy(
        key, latest + 1, if canary then Canary else Active, if canary then canaryTrafficPercent else None,
        if reason != "" then Some(reason) else rec.reason,
        Some(match principal case Some(p) => p.subject case None => "system"), rec.approvedBy);
      if currentActive.Some? {
        var _ := SetStatus(currentActive.value, Superseded);
      }
      policies := policies + [row];
      recs := recs[recId := rec.(status := RecApplied, appliedPolicyId := Some(newPolicyId), supersededPolicyId := currentActive)];
      r := Ok(newPolicyId);
    }

    method RollbackPolicy(recId: string) returns (r: Result<Option<nat>, LifecycleError>)
      modifies this
      ensures match Rollback(old(Tables()), recId)
              case Ok(s) => Tables() == s && r.Ok?
              case Err(e) => Tables() == old(Tables()) && r == Err(e)
      ensures r.Ok? ==> recId in recs
      ensures r.Ok? ==> r.value == (var id := recs[recId].supersededPolicyId; if id.Some? && id.value < |policies| then id else None)
    {
      if recId !in recs {
        return Err(NotFound);
      }
      var rec := recs[recId];
      if rec.status != RecApplied {
        return Err(Conflict);
      }
      if rec.appliedPolicyId.Some? {
        var _ := SetStatus(rec.appliedPolicyId.value, RolledBack);
      }
      var reactivated: Option<nat> := None;
      if rec.supersededPolicyId.Some? && rec.supersededPolicyId.value < |policies| {
        var _ := SetStatus(rec.supersededPolicyId.value, Active);
        reactivated := rec.supersededPolicyId;
      }
      recs := recs[recId := rec.(status := RecRolledBack)];
      r := Ok(reactivated);
    }
  }
}
