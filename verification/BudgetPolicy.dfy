/**
 Budget states, outcomes and precedence. Money is exact rational arithmetic, as the source's
 decimals intend. Several limits are composed by taking the most restrictive outcome.
 */
module BudgetPolicy {
  import opened Wrappers
  import opened Ordering

  datatype BudgetState = Normal | Warning | Critical | Exceeded

  datatype PolicyOutcome = Allow | Downgrade | RequireApproval | Block

  function Severity(o: PolicyOutcome): nat {
    match o
    case Allow => 0
    case Downgrade => 1
    case RequireApproval => 2
    case Block => 3
  }

  datatype BudgetScope =
    | RequestScope | ModelScope | AgentScope | WorkloadScope | DepartmentScope | PlantScope | TenantScope | EnterpriseScope

  /** Narrowest first. */
  function ScopeRank(s: BudgetScope): nat {
    match s
    case RequestScope => 0
    case ModelScope => 1
    case AgentScope => 2
    case WorkloadScope => 3
    case DepartmentScope => 4
    case PlantScope => 5
    case TenantScope => 6
    case EnterpriseScope => 7
  }

  datatype Policy = Policy(outcomeByState: map<BudgetState, PolicyOutcome>, approvalOnProjectedBreach: bool) {
    /** An unmapped state is blocked. */
    function OutcomeFor(s: BudgetState): PolicyOutcome {
      if s in outcomeByState then outcomeByState[s] else Block
    }
  }

  const DEFAULT_POLICY :=
    Policy(map[Normal := Allow, Warning := Allow, Critical := Downgrade, Exceeded := Block], true)

  datatype Limit = Limit(
    scope: BudgetScope,
    scopeId: string,
    amount: real,
    consumedActual: real,
    consumedEstimated: real,
    warningThreshold: real,
    criticalThreshold: real,
    budgetId: Option<string>,
    unevaluableReason: Option<string>
  ) {
    function Consumed(): real {
      consumedActual + consumedEstimated
    }
  }

  datatype Why = Unevaluable(text: string) | InState(state: BudgetState) | ProjectedBreach

  datatype Evaluation = Evaluation(
    limit: Limit, consumedPercent: real, projectedPercent: real, state: Option<BudgetState>, outcome: PolicyOutcome, reason: Why)

  function Percent(consumed: real, amount: real): real {
    if amount <= 0.0 then 100.0 else consumed / amount * 100.0
  }

  function ClassifyState(percent: real, warning: real, critical: real): BudgetState {
    if percent >= 100.0 then Exceeded
    else if percent >= critical then Critical
    else if percent >= warning then Warning
    else Normal
  }

  function EvaluateLimit(limit: Limit, requestCost: real, policy: Policy): Evaluation {
    var consumed := Percent(limit.Consumed(), limit.amount);
    var projected := Percent(limit.Consumed() + requestCost, limit.amount);
    if limit.unevaluableReason.Some? then
      Evaluation(limit, consumed, projected, None, RequireApproval, Unevaluable(limit.unevaluableReason.value))
    else
      var state := ClassifyState(consumed, limit.warningThreshold, limit.criticalThreshold);
      if policy.approvalOnProjectedBreach && state != Exceeded && projected >= 100.0
      then Evaluation(limit, consumed, projected, Some(state), RequireApproval, ProjectedBreach)
      else Evaluation(limit, consumed, projected, Some(state), policy.OutcomeFor(state), InState(state))
  }

  /** An empty budget id falls back to the scope id, as `or` does. */
  function SortId(e: Evaluation): string {
    if e.limit.budgetId.Some? && e.limit.budgetId.value != "" then e.limit.budgetId.value else e.limit.scopeId
  }

  /** The more severe outcome precedes; ties go to the smaller scope rank, and then to the smaller id. */
  predicate Before(a: Evaluation, b: Evaluation) {
    || Severity(a.outcome) > Severity(b.outcome)
    || (Severity(a.outcome) == Severity(b.outcome)
        && (|| ScopeRank(a.limit.scope) < ScopeRank(b.limit.scope)
            || (ScopeRank(a.limit.scope) == ScopeRank(b.limit.scope) && TextLe(SortId(a), SortId(b)))))
  }

  lemma BeforeIsOrder()
    ensures TotalPreorder(Before)
  {
    TextOrder();
    forall a, b ensures Before(a, b) || Before(b, a) {
    }
    forall a, b, c | Before(a, b) && Before(b, c) ensures Before(a, c) {
    }
  }

  function Evaluations(limits: seq<Limit>, requestCost: real, policy: Policy): seq<Evaluation> {
    Map(l => EvaluateLimit(l, requestCost, policy), limits)
  }

  datatype Decision = Decision(outcome: PolicyOutcome, deciding: Option<Evaluation>, evaluations: seq<Evaluation>)

  function Decide(limits: seq<Limit>, requestCost: real, policy: Policy): Decision {
    var ordered := Sort(Before, Evaluations(limits, requestCost, policy));
    if ordered == [] then Decision(Allow, None, [])
    else Decision(ordered[0].outcome, Some(ordered[0]), ordered)
  }

  // ---- what a decision contains

  function MoreSevere(a: PolicyOutcome, b: PolicyOutcome): PolicyOutcome {
    if Severity(a) >= Severity(b) then a else b
  }

  /** `evaluations` is the sorted permutation of one evaluation per limit, and no evaluation is more severe than the outcome. */
  lemma DecisionIsSortedAndWorst(limits: seq<Limit>, requestCost: real, policy: Policy)
    ensures var d := Decide(limits, requestCost, policy);
            && multiset(d.evaluations) == multiset(Evaluations(limits, requestCost, policy))
            && Sorted(Before, d.evaluations)
            && (forall l :: l in limits ==> Severity(EvaluateLimit(l, requestCost, policy).outcome) <= Severity(d.outcome))
            && (limits != [] ==> exists l :: l in limits && EvaluateLimit(l, requestCost, policy).outcome == d.outcome)
            && (limits == [] ==> d.outcome == Allow)
  {
    var es := Evaluations(limits, requestCost, policy);
    var d := Decide(limits, requestCost, policy);
    BeforeIsOrder();
    SortPermutes(Before, es);
    SortSorts(Before, es);
    SortMembers(Before, es);
    forall l | l in limits ensures Severity(EvaluateLimit(l, requestCost, policy).outcome) <= Severity(d.outcome) {
      var i :| 0 <= i < |limits| && limits[i] == l;
      assert es[i] in d.evaluations;
      var j :| 0 <= j < |d.evaluations| && d.evaluations[j] == es[i];
      assert j > 0 ==> Before(d.evaluations[0], d.evaluations[j]);
    }
    if limits != [] {
      assert d.evaluations[0] in es;
      var i :| 0 <= i < |es| && es[i] == d.evaluations[0];
      assert limits[i] in limits && EvaluateLimit(limits[i], requestCost, policy).outcome == d.outcome;
    }
  }

  lemma OutcomeIsWorst(limits: seq<Limit>, requestCost: real, policy: Policy, o: PolicyOutcome)
    requires forall l :: l in limits ==> Severity(EvaluateLimit(l, requestCost, policy).outcome) <= Severity(o)
    requires if limits == [] then o == Allow else exists l :: l in limits && EvaluateLimit(l, requestCost, policy).outcome == o
    ensures Decide(limits, requestCost, policy).outcome == o
  {
    DecisionIsSortedAndWorst(limits, requestCost, policy);
  }

  /** Composing limits composes outcomes: two groups together decide as the more severe of the two would. */
  lemma DecisionIsHomomorphism(a: seq<Limit>, b: seq<Limit>, requestCost: real, policy: Policy)
    ensures Decide(a + b, requestCost, policy).outcome
         == MoreSevere(Decide(a, requestCost, policy).outcome, Decide(b, requestCost, policy).outcome)
  {
    DecisionIsSortedAndWorst(a, requestCost, policy);
    DecisionIsSortedAndWorst(b, requestCost, policy);
    WorstOfBoth(a, b, requestCost, policy, Decide(a, requestCost, policy).outcome, Decide(b, requestCost, policy).outcome);
  }

  ghost predicate IsWorst(limits: seq<Limit>, requestCost: real, policy: Policy, o: PolicyOutcome) {
    && (forall l :: l in limits ==> Severity(EvaluateLimit(l, requestCost, policy).outcome) <= Severity(o))
    && (if limits == [] then o == Allow else exists l :: l in limits && EvaluateLimit(l, requestCost, policy).outcome == o)
  }

  lemma WorstOfBoth(a: seq<Limit>, b: seq<Limit>, requestCost: real, policy: Policy, worstA: PolicyOutcome, worstB: PolicyOutcome)
    requires IsWorst(a, requestCost, policy, worstA) && IsWorst(b, requestCost, policy, worstB)
    ensures Decide(a + b, requestCost, policy).outcome == MoreSevere(worstA, worstB)
  {
    var worse := MoreSevere(worstA, worstB);
    assert forall l :: l in a + b <==> l in a || l in b;
    if a + b != [] {
      var group := if worstA == worse && a != [] then a else b;
      var l :| l in group && EvaluateLimit(l, requestCost, policy).outcome == worse;
      assert l in a + b;
    }
    OutcomeIsWorst(a + b, requestCost, policy, worse);
  }

  /** The outcome does not depend on the order the limits were loaded in. */
  lemma OutcomeOrderIndependent(a: seq<Limit>, b: seq<Limit>, requestCost: real, policy: Policy)
    requires multiset(a) == multiset(b)
    ensures Decide(a, requestCost, policy).outcome == Decide(b, requestCost, policy).outcome
  {
    SameContents(a, b);
    DecisionIsSortedAndWorst(b, requestCost, policy);
    OutcomeIsWorst(a, requestCost, policy, Decide(b, requestCost, policy).outcome);
  }

  // ---- the whole decision, deciding limit included

  ghost predicate OrderIndependent(limits: seq<Limit>, requestCost: real, policy: Policy) {
    forall other: seq<Limit> :: multiset(other) == multiset(limits) ==>
      Decide(other, requestCost, policy) == Decide(limits, requestCost, policy)
  }

  /** Two different evaluations that tie come out in the order their limits went in. */
  lemma TieShows(x: Limit, y: Limit, rest: seq<Limit>, requestCost: real, policy: Policy)
    requires var a, b := EvaluateLimit(x, requestCost, policy), EvaluateLimit(y, requestCost, policy);
             a != b && Before(a, b) && Before(b, a)
    ensures Decide([x, y] + rest, requestCost, policy) != Decide([y, x] + rest, requestCost, policy)
  {
    var a, b := EvaluateLimit(x, requestCost, policy), EvaluateLimit(y, requestCost, policy);
    var others := Evaluations(rest, requestCost, policy);
    assert Evaluations([x, y] + rest, requestCost, policy) == [a, b] + others;
    assert Evaluations([y, x] + rest, requestCost, policy) == [b, a] + others;
    BeforeIsOrder();
    TiedHeadsShow(a, b, others);
  }

  lemma TiedHeadsShow(a: Evaluation, b: Evaluation, others: seq<Evaluation>)
    requires TotalPreorder(Before)
    requires a != b && Before(a, b) && Before(b, a)
    ensures Sort(Before, [a, b] + others) != Sort(Before, [b, a] + others)
    ensures Sort(Before, [a, b] + others) != [] && Sort(Before, [b, a] + others) != []
  {
    var ab, ba := [a, b] + others, [b, a] + others;
    SortStable(Before, a, ab);
    SortStable(Before, a, ba);
    assert Filter(Ties(Before, a), ab)[0] == a;
    assert Filter(Ties(Before, a), ba)[0] == b;
    SortPermutes(Before, ab);
    SortPermutes(Before, ba);
  }

  lemma WithoutTiesIndependent(limits: seq<Limit>, requestCost: real, policy: Policy)
    requires NoTies(Before, Evaluations(limits, requestCost, policy))
    ensures OrderIndependent(limits, requestCost, policy)
  {
    BeforeIsOrder();
    forall other: seq<Limit> | multiset(other) == multiset(limits)
      ensures Decide(other, requestCost, policy) == Decide(limits, requestCost, policy) {
      MapContents(l => EvaluateLimit(l, requestCost, policy), limits, other);
      SortOrderIndependent(Before, Evaluations(limits, requestCost, policy), Evaluations(other, requestCost, policy));
    }
  }

  lemma TwoDifferentTie(limits: seq<Limit>, requestCost: real, policy: Policy) returns (i: nat, j: nat)
    requires !NoTies(Before, Evaluations(limits, requestCost, policy))
    ensures i < j < |limits|
    ensures var a, b := EvaluateLimit(limits[i], requestCost, policy), EvaluateLimit(limits[j], requestCost, policy);
            a != b && Before(a, b) && Before(b, a)
  {
    var es := Evaluations(limits, requestCost, policy);
    i, j := TiedPair(Before, es);
  }

  lemma SwapShows(limits: seq<Limit>, i: nat, j: nat, requestCost: real, policy: Policy)
    requires i < j < |limits|
    requires var a, b := EvaluateLimit(limits[i], requestCost, policy), EvaluateLimit(limits[j], requestCost, policy);
             a != b && Before(a, b) && Before(b, a)
    ensures !OrderIndependent(limits, requestCost, policy)
  {
    var rest := WithoutTwo(limits, i, j);
    TwoToFront(limits, i, j);
    TieShows(limits[i], limits[j], rest, requestCost, policy);
    if OrderIndependent(limits, requestCost, policy) {
      IndependentAt(limits, [limits[i], limits[j]] + rest, requestCost, policy);
      IndependentAt(limits, [limits[j], limits[i]] + rest, requestCost, policy);
      assert false;
    }
  }

  lemma IndependentAt(limits: seq<Limit>, other: seq<Limit>, requestCost: real, policy: Policy)
    requires OrderIndependent(limits, requestCost, policy)
    requires multiset(other) == multiset(limits)
    ensures Decide(other, requestCost, policy) == Decide(limits, requestCost, policy)
  {
  }

  /**
   The decision, including which limit is reported as deciding, is independent of load order
   exactly when no two different evaluations share outcome severity, scope and id.
   */
  lemma OrderIndependentExactlyWhen(limits: seq<Limit>, requestCost: real, policy: Policy)
    ensures OrderIndependent(limits, requestCost, policy) <==> NoTies(Before, Evaluations(limits, requestCost, policy))
  {
    if NoTies(Before, Evaluations(limits, requestCost, policy)) {
      WithoutTiesIndependent(limits, requestCost, policy);
    } else {
      var i, j := TwoDifferentTie(limits, requestCost, policy);
      SwapShows(limits, i, j, requestCost, policy);
    }
  }

  // ---- never looser

  /** The same limit with at least as much spend recorded. */
  predicate FullerBy(l: Limit, fuller: Limit) {
    && fuller == l.(consumedActual := fuller.consumedActual, consumedEstimated := fuller.consumedEstimated)
    && l.Consumed() <= fuller.Consumed()
  }

  ghost predicate NeverLooser(policy: Policy) {
    forall l, fuller: Limit, cost: real, more: real :: FullerBy(l, fuller) && cost <= more ==>
      Severity(EvaluateLimit(l, cost, policy).outcome) <= Severity(EvaluateLimit(fuller, more, policy).outcome)
  }

  /** Severity climbs with the state, and a projected breach sits between CRITICAL and EXCEEDED. */
  predicate Graduated(policy: Policy) {
    && Severity(policy.OutcomeFor(Normal)) <= Severity(policy.OutcomeFor(Warning))
    && Severity(policy.OutcomeFor(Warning)) <= Severity(policy.OutcomeFor(Critical))
    && Severity(policy.OutcomeFor(Critical)) <= Severity(policy.OutcomeFor(Exceeded))
    && (policy.approvalOnProjectedBreach ==>
          Severity(policy.OutcomeFor(Critical)) <= Severity(RequireApproval) <= Severity(policy.OutcomeFor(Exceeded)))
  }

  lemma PercentMonotone(a: real, b: real, amount: real)
    requires a <= b
    ensures Percent(a, amount) <= Percent(b, amount)
  {
    if amount > 0.0 {
      var gap := (b - a) / amount;
      assert gap >= 0.0;
      assert b / amount == a / amount + gap;
    }
  }

  lemma GraduatedNeverLooser(policy: Policy, l: Limit, fuller: Limit, cost: real, more: real)
    requires Graduated(policy)
    requires FullerBy(l, fuller) && cost <= more
    ensures Severity(EvaluateLimit(l, cost, policy).outcome) <= Severity(EvaluateLimit(fuller, more, policy).outcome)
  {
    PercentMonotone(l.Consumed(), fuller.Consumed(), l.amount);
    PercentMonotone(l.Consumed() + cost, fuller.Consumed() + more, l.amount);
  }

  /** A limit of 100 with the given spend, warning at 50 percent and critical at 90. */
  function Sample(consumed: real): Limit {
    Limit(TenantScope, "tenant", 100.0, consumed, 0.0, 50.0, 90.0, None, None)
  }

  function SampleOutcome(consumed: real, cost: real, policy: Policy): PolicyOutcome {
    var state := if consumed >= 100.0 then Exceeded else if consumed >= 90.0 then Critical
                 else if consumed >= 50.0 then Warning else Normal;
    if policy.approvalOnProjectedBreach && state != Exceeded && consumed + cost >= 100.0
    then RequireApproval else policy.OutcomeFor(state)
  }

  lemma SamplesCompare(policy: Policy, low: real, high: real, cost: real, more: real)
    requires NeverLooser(policy)
    requires 0.0 <= low <= high && 0.0 <= cost <= more
    ensures Severity(SampleOutcome(low, cost, policy)) <= Severity(SampleOutcome(high, more, policy))
  {
    assert Percent(low, 100.0) == low && Percent(low + cost, 100.0) == low + cost;
    assert Percent(high, 100.0) == high && Percent(high + more, 100.0) == high + more;
    assert FullerBy(Sample(low), Sample(high));
    assert EvaluateLimit(Sample(low), cost, policy).outcome == SampleOutcome(low, cost, policy);
    assert EvaluateLimit(Sample(high), more, policy).outcome == SampleOutcome(high, more, policy);
  }

  lemma NeverLooserIsGraduated(policy: Policy)
    requires NeverLooser(policy)
    ensures Graduated(policy)
  {
    SamplesCompare(policy, 0.0, 50.0, 0.0, 0.0);
    SamplesCompare(policy, 50.0, 90.0, 0.0, 0.0);
    SamplesCompare(policy, 90.0, 100.0, 0.0, 0.0);
    SamplesCompare(policy, 90.0, 90.0, 0.0, 10.0);
    SamplesCompare(policy, 90.0, 100.0, 10.0, 10.0);
  }

  /**
   More spend or a dearer request never loosens the outcome exactly for the graduated policies.
   Monotone outcomes alone are not enough: a projected breach always asks for approval, so a
   policy that allows EXCEEDED would become looser as the budget fills.
   */
  lemma NeverLooserExactlyWhen(policy: Policy)
    ensures NeverLooser(policy) <==> Graduated(policy)
  {
    if Graduated(policy) {
      forall l, fuller: Limit, cost: real, more: real | FullerBy(l, fuller) && cost <= more
        ensures Severity(EvaluateLimit(l, cost, policy).outcome) <= Severity(EvaluateLimit(fuller, more, policy).outcome) {
        GraduatedNeverLooser(policy, l, fuller, cost, more);
      }
    } else if NeverLooser(policy) {
      NeverLooserIsGraduated(policy);
    }
  }

  /**
   Under a graduated policy a decision never gets looser when every limit is at least as full,
   the request costs at least as much, and further limits are added.
   */
  lemma DecisionNeverLoosens(limits: seq<Limit>, fuller: seq<Limit>, extra: seq<Limit>, cost: real, more: real, policy: Policy)
    requires Graduated(policy)
    requires |limits| == |fuller| && forall i :: 0 <= i < |limits| ==> FullerBy(limits[i], fuller[i])
    requires cost <= more
    ensures Severity(Decide(limits, cost, policy).outcome) <= Severity(Decide(fuller + extra, more, policy).outcome)
  {
    DecisionIsHomomorphism(fuller, extra, more, policy);
    DecisionIsSortedAndWorst(limits, cost, policy);
    DecisionIsSortedAndWorst(fuller, more, policy);
    if limits != [] {
      var l :| l in limits && EvaluateLimit(l, cost, policy).outcome == Decide(limits, cost, policy).outcome;
      var i :| 0 <= i < |limits| && limits[i] == l;
      GraduatedNeverLooser(policy, l, fuller[i], cost, more);
      assert fuller[i] in fuller;
    }
  }

  /** The shipped policy is graduated, so all of this holds by default. */
  lemma DefaultPolicyNeverLooser()
    ensures Graduated(DEFAULT_POLICY) && NeverLooser(DEFAULT_POLICY)
  {
    NeverLooserExactlyWhen(DEFAULT_POLICY);
  }

  const LENIENT :=
    Policy(map[Normal := Allow, Warning := Allow, Critical := Downgrade, Exceeded := Allow], true)

  /** Under a policy that allows EXCEEDED, a limit that asked for approval lets the same request through once it is full. */
  lemma LenientPolicyLoosens()
    ensures !Graduated(LENIENT) && FullerBy(Sample(95.0), Sample(100.0))
    ensures EvaluateLimit(Sample(95.0), 10.0, LENIENT).outcome == RequireApproval
    ensures EvaluateLimit(Sample(100.0), 10.0, LENIENT).outcome == Allow
  {
    assert Percent(95.0, 100.0) == 95.0 && Percent(105.0, 100.0) == 105.0 && Percent(100.0, 100.0) == 100.0;
  }

  // ---- the decision on one limit, from its numbers

  lemma PercentReaches(spent: real, amount: real, percent: real)
    requires amount > 0.0
    ensures Percent(spent, amount) >= percent <==> spent * 100.0 >= percent * amount
  {
    var share := spent / amount;
    assert share * amount == spent;
    if share * 100.0 >= percent {
      assert (share * 100.0 - percent) * amount >= 0.0;
    } else {
      assert (percent - share * 100.0) * amount > 0.0;
    }
  }

  /**
   The state of an evaluable limit: EXCEEDED when the amount is nothing or all of it is spent, CRITICAL
   and WARNING when their share of it is. A full amount also counts as every threshold up to a hundred.
   */
  lemma StateExactlyWhen(l: Limit, cost: real, policy: Policy)
    requires l.unevaluableReason.None?
    ensures var state := EvaluateLimit(l, cost, policy).state;
            var spent := l.consumedActual + l.consumedEstimated;
            && (state == Some(Exceeded) <==> l.amount <= 0.0 || spent >= l.amount)
            && (state == Some(Critical) <==>
                  l.amount > 0.0 && spent < l.amount && spent * 100.0 >= l.criticalThreshold * l.amount)
            && (state == Some(Warning) <==>
                  && l.amount > 0.0 && spent < l.amount && spent * 100.0 < l.criticalThreshold * l.amount
                  && spent * 100.0 >= l.warningThreshold * l.amount)
            && (state == Some(Normal) <==>
                  && l.amount > 0.0 && spent < l.amount && spent * 100.0 < l.criticalThreshold * l.amount
                  && spent * 100.0 < l.warningThreshold * l.amount)
  {
    if l.amount > 0.0 {
      var spent := l.consumedActual + l.consumedEstimated;
      PercentReaches(spent, l.amount, 100.0);
      PercentReaches(spent, l.amount, l.criticalThreshold);
      PercentReaches(spent, l.amount, l.warningThreshold);
    }
  }

  /** What a limit says under the default policy, told from its amount, spend, critical threshold and the cost of the request. */
  function Vote(amount: real, spent: real, critical: real, cost: real): PolicyOutcome {
    if amount <= 0.0 || spent >= amount then Block
    else if spent + cost >= amount then RequireApproval
    else if spent * 100.0 >= critical * amount then Downgrade
    else Allow
  }

  /**
   Under the default policy: blocked when the amount is nothing or all spent, approval when the request
   would spend the rest, downgraded at the critical threshold, and allowed otherwise, warning or not.
   A limit that cannot be evaluated asks for approval.
   */
  lemma DefaultOutcomeExactly(l: Limit, cost: real)
    ensures EvaluateLimit(l, cost, DEFAULT_POLICY).outcome ==
      if l.unevaluableReason.Some? then RequireApproval
      else Vote(l.amount, l.consumedActual + l.consumedEstimated, l.criticalThreshold, cost)
  {
    if l.unevaluableReason.None? && l.amount > 0.0 {
      StateExactlyWhen(l, cost, DEFAULT_POLICY);
      PercentReaches(l.consumedActual + l.consumedEstimated + cost, l.amount, 100.0);
    }
  }

  /** For any policy: a projected breach asks for approval if the policy says so, and otherwise the state's outcome holds, BLOCK when it has none. */
  lemma OutcomeExactly(l: Limit, cost: real, policy: Policy)
    requires l.unevaluableReason.None?
    ensures var e := EvaluateLimit(l, cost, policy);
            var spent := l.consumedActual + l.consumedEstimated;
            && e.state.Some?
            && e.limit == l
            && e.outcome == (if policy.approvalOnProjectedBreach && l.amount > 0.0 && spent < l.amount && spent + cost >= l.amount then RequireApproval
                             else if e.state.value in policy.outcomeByState then policy.outcomeByState[e.state.value] else Block)
  {
    StateExactlyWhen(l, cost, policy);
    if l.amount > 0.0 {
      PercentReaches(l.consumedActual + l.consumedEstimated + cost, l.amount, 100.0);
    }
  }

  /** How much is shown as consumed and projected: percent of a positive amount. */
  lemma PercentsAreShares(l: Limit, cost: real, policy: Policy)
    ensures var e := EvaluateLimit(l, cost, policy);
            && (l.amount > 0.0 ==>
                  && e.consumedPercent * l.amount == (l.consumedActual + l.consumedEstimated) * 100.0
                  && e.projectedPercent * l.amount == (l.consumedActual + l.consumedEstimated + cost) * 100.0)
            && (l.amount <= 0.0 ==> e.consumedPercent == 100.0 && e.projectedPercent == 100.0)
  {
    if l.amount > 0.0 {
      ShareTimes(l.consumedActual + l.consumedEstimated, l.amount);
      ShareTimes(l.consumedActual + l.consumedEstimated + cost, l.amount);
    }
  }

  lemma ShareTimes(spent: real, amount: real)
    requires amount > 0.0
    ensures Percent(spent, amount) * amount == spent * 100.0
  {
    var share := spent / amount;
    assert share * amount == spent;
    assert share * 100.0 * amount == share * amount * 100.0;
  }

  // ---- the composed decision

  ghost predicate SomeVote(limits: seq<Limit>, cost: real, policy: Policy, outcome: PolicyOutcome) {
    exists l :: l in limits && EvaluateLimit(l, cost, policy).outcome == outcome
  }

  /** Any BLOCK blocks; failing that any approval is asked for; failing that any downgrade counts; otherwise the request is allowed. */
  lemma ComposedExactly(limits: seq<Limit>, cost: real, policy: Policy)
    ensures Decide(limits, cost, policy).outcome ==
      if SomeVote(limits, cost, policy, Block) then Block
      else if SomeVote(limits, cost, policy, RequireApproval) then RequireApproval
      else if SomeVote(limits, cost, policy, Downgrade) then Downgrade
      else Allow
  {
    DecisionIsSortedAndWorst(limits, cost, policy);
  }

  const NARROWEST_FIRST: seq<BudgetScope> :=
    [RequestScope, ModelScope, AgentScope, WorkloadScope, DepartmentScope, PlantScope, TenantScope, EnterpriseScope]

  /**
   The limit reported as deciding has the decided outcome; among those that do, none has a narrower
   scope, and none of its own scope an earlier id, the scope id standing in for an empty budget id.
   */
  lemma DecidingExactly(limits: seq<Limit>, cost: real, policy: Policy)
    ensures var d := Decide(limits, cost, policy);
            && (d.deciding.None? <==> limits == [])
            && (d.deciding.Some? ==>
                  && d.deciding.value in d.evaluations
                  && d.deciding.value.outcome == d.outcome
                  && forall e :: e in d.evaluations && e.outcome == d.outcome ==> ReportedBefore(d.deciding.value, e))
  {
    BeforeIsOrder();
    var es := Evaluations(limits, cost, policy);
    var d := Decide(limits, cost, policy);
    SortPermutes(Before, es);
    SortSorts(Before, es);
    if limits != [] {
      forall e | e in d.evaluations && e.outcome == d.outcome ensures ReportedBefore(d.deciding.value, e) {
        var j :| 0 <= j < |d.evaluations| && d.evaluations[j] == e;
        assert Before(d.evaluations[0], e);
        TiedReport(d.evaluations[0], e);
      }
    }
  }

  ghost predicate ReportedBefore(a: Evaluation, b: Evaluation) {
    exists i, j :: 0 <= i <= j < 8 && NARROWEST_FIRST[i] == a.limit.scope && NARROWEST_FIRST[j] == b.limit.scope
      && (i == j ==> TextLe(IdOf(a.limit), IdOf(b.limit)))
  }

  function IdOf(l: Limit): string {
    match l.budgetId
    case Some(id) => if id == "" then l.scopeId else id
    case None => l.scopeId
  }

  lemma TiedReport(a: Evaluation, b: Evaluation)
    requires Before(a, b) && a.outcome == b.outcome
    ensures ReportedBefore(a, b)
  {
    var i, j := ScopeRank(a.limit.scope), ScopeRank(b.limit.scope);
    assert NARROWEST_FIRST[i] == a.limit.scope && NARROWEST_FIRST[j] == b.limit.scope;
  }
}
