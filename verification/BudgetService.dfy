/**
 Budget evaluation end to end: which stored budgets gate a request, how full each one is over its
 current calendar window, and the composed decision with the request's own ceiling. Currency codes
 arrive already normalised; the empty code stands for an absent one.
 */
module BudgetService {
  import opened Wrappers
  import opened Ordering
  import opened BudgetPolicy
  import opened CostAggregation
  import Calendar
  import opened CostEngine

  type Scope = BudgetPolicy.BudgetScope

  function ScopeName(s: Scope): string {
    match s
    case RequestScope => "REQUEST"
    case ModelScope => "MODEL"
    case AgentScope => "AGENT"
    case WorkloadScope => "WORKLOAD"
    case DepartmentScope => "DEPARTMENT"
    case PlantScope => "PLANT"
    case TenantScope => "TENANT"
    case EnterpriseScope => "ENTERPRISE"
  }

  datatype Budget = Budget(
    id: string,
    tenantId: string,
    scope: Scope,
    scopeId: string,
    amount: real,
    currency: string,
    period: Calendar.Period,
    warningThreshold: real,
    criticalThreshold: real,
    active: bool
  )

  /** The scopes a request belongs to. */
  datatype RequestContext = RequestContext(
    tenantId: string,
    plantId: Option<string>,
    departmentId: Option<string>,
    workloadId: Option<string>,
    agentId: Option<string>,
    modelId: Option<string>
  ) {
    function ScopePairs(): seq<(Scope, string)> {
      [(EnterpriseScope, tenantId), (TenantScope, tenantId)]
      + Pair(PlantScope, plantId) + Pair(DepartmentScope, departmentId) + Pair(WorkloadScope, workloadId)
      + Pair(AgentScope, agentId) + Pair(ModelScope, modelId)
    }
  }

  /** An absent or empty dimension contributes no pair. */
  function Pair(scope: Scope, id: Option<string>): seq<(Scope, string)> {
    if id.Some? && id.value != "" then [(scope, id.value)] else []
  }

  datatype Converter = Converter(baseCurrency: string, rates: map<string, real>) {
    predicate CanConvert(code: string) {
      code != "" && (code == baseCurrency || code in rates)
    }

    function ToBase(amount: real, code: string): real
      requires CanConvert(code)
    {
      if code == baseCurrency then amount else amount * rates[code]
    }
  }

  const NOT_CONVERTIBLE := "currency_not_convertible"

  // ---- which budgets gate a request

  /** Ordered by one column, and by the rest where it ties. */
  predicate Then(a: string, b: string, rest: bool) {
    if a == b then rest else TextLe(a, b)
  }

  /** By scope type, scope id and id, as the query orders them. */
  predicate LoadOrder(a: Budget, b: Budget) {
    Then(ScopeName(a.scope), ScopeName(b.scope), Then(a.scopeId, b.scopeId, TextLe(a.id, b.id)))
  }

  function Gates(context: RequestContext): Budget -> bool {
    (b: Budget) => b.tenantId == context.tenantId && b.active && (b.scope, b.scopeId) in context.ScopePairs()
  }

  function ListForScopes(budgets: seq<Budget>, context: RequestContext): seq<Budget> {
    Sort(LoadOrder, Filter(Gates(context), budgets))
  }

  /** The usage event the request itself would leave behind. */
  function EventOf(context: RequestContext, timestamp: int): UsageEvent {
    UsageEvent(Some(context.tenantId), context.plantId, context.departmentId, context.workloadId, context.agentId, context.modelId,
               timestamp, None)
  }

  function Target(b: Budget): CostAggregation.BudgetScope {
    CostAggregation.BudgetScope(b.tenantId, ScopeName(b.scope), b.scopeId)
  }

  /** Which scopes a request falls under. */
  predicate FallsUnder(context: RequestContext, scope: Scope, id: string) {
    match scope
    case RequestScope => false
    case EnterpriseScope => id == context.tenantId
    case TenantScope => id == context.tenantId
    case PlantScope => id != "" && context.plantId == Some(id)
    case DepartmentScope => id != "" && context.departmentId == Some(id)
    case WorkloadScope => id != "" && context.workloadId == Some(id)
    case AgentScope => id != "" && context.agentId == Some(id)
    case ModelScope => id != "" && context.modelId == Some(id)
  }

  lemma PairsOf(context: RequestContext, scope: Scope, id: string)
    ensures (scope, id) in context.ScopePairs() <==> FallsUnder(context, scope, id)
  {
    var fixed := [(EnterpriseScope, context.tenantId), (TenantScope, context.tenantId)];
    assert fixed[0] in fixed && fixed[1] in fixed;
    assert (scope, id) in context.ScopePairs() <==>
      || (scope, id) in fixed
      || (scope, id) in Pair(PlantScope, context.plantId) || (scope, id) in Pair(DepartmentScope, context.departmentId)
      || (scope, id) in Pair(WorkloadScope, context.workloadId) || (scope, id) in Pair(AgentScope, context.agentId)
      || (scope, id) in Pair(ModelScope, context.modelId);
  }

  /**
   A budget gates a request exactly when it is active and the request's own spend would count
   against it. Two kinds of row count spend without gating: an enterprise budget filed under an id
   other than the tenant's, and a budget filed under the empty id.
   */
  lemma GatesExactlyWhenSpendCounts(budgets: seq<Budget>, context: RequestContext, b: Budget, timestamp: int)
    requires b.scope != RequestScope
    ensures b in ListForScopes(budgets, context) <==>
      && b in budgets && b.active && b.tenantId == context.tenantId
      && AgainstScope(EventOf(context, timestamp), b.tenantId, ScopeName(b.scope), b.scopeId)
      && (b.scope == EnterpriseScope ==> b.scopeId == b.tenantId)
      && (b.scope != EnterpriseScope && b.scope != TenantScope ==> b.scopeId != "")
  {
    FilterMembers(Gates(context), budgets);
    SortMembers(LoadOrder, Filter(Gates(context), budgets));
    PairsOf(context, b.scope, b.scopeId);
  }

  lemma ThenTransitive(a: string, b: string, c: string, ab: bool, bc: bool, ac: bool)
    requires Then(a, b, ab) && Then(b, c, bc)
    requires ab && bc ==> ac
    ensures Then(a, c, ac)
  {
    if a != b && b != c {
      TextTransitive(a, b, c);
      TextTotal(a, b);
    }
  }

  lemma LoadOrderTransitive(a: Budget, b: Budget, c: Budget)
    requires LoadOrder(a, b) && LoadOrder(b, c)
    ensures LoadOrder(a, c)
  {
    if TextLe(a.id, b.id) && TextLe(b.id, c.id) {
      TextTransitive(a.id, b.id, c.id);
    }
    var ab, bc, ac := Then(a.scopeId, b.scopeId, TextLe(a.id, b.id)), Then(b.scopeId, c.scopeId, TextLe(b.id, c.id)),
                      Then(a.scopeId, c.scopeId, TextLe(a.id, c.id));
    if ab && bc {
      ThenTransitive(a.scopeId, b.scopeId, c.scopeId, TextLe(a.id, b.id), TextLe(b.id, c.id), TextLe(a.id, c.id));
    }
    ThenTransitive(ScopeName(a.scope), ScopeName(b.scope), ScopeName(c.scope), ab, bc, ac);
  }

  lemma LoadOrderTotal(a: Budget, b: Budget)
    ensures LoadOrder(a, b) || LoadOrder(b, a)
    ensures LoadOrder(a, b) && LoadOrder(b, a) ==> a.id == b.id
  {
    TextTotal(ScopeName(a.scope), ScopeName(b.scope));
    TextTotal(a.scopeId, b.scopeId);
    TextTotal(a.id, b.id);
  }

  lemma LoadOrderIsOrder()
    ensures TotalPreorder(LoadOrder)
    ensures forall a, b :: LoadOrder(a, b) && LoadOrder(b, a) ==> a.id == b.id
  {
    forall a, b ensures (LoadOrder(a, b) || LoadOrder(b, a)) && (LoadOrder(a, b) && LoadOrder(b, a) ==> a.id == b.id) {
      LoadOrderTotal(a, b);
    }
    forall a, b, c | LoadOrder(a, b) && LoadOrder(b, c) ensures LoadOrder(a, c) {
      LoadOrderTransitive(a, b, c);
    }
  }

  predicate InLoadOrder(a: Budget, b: Budget) {
    && TextLe(ScopeName(a.scope), ScopeName(b.scope))
    && (a.scope == b.scope ==> TextLe(a.scopeId, b.scopeId))
    && (a.scope == b.scope && a.scopeId == b.scopeId ==> TextLe(a.id, b.id))
  }

  lemma LoadOrderReads(a: Budget, b: Budget)
    requires LoadOrder(a, b)
    ensures InLoadOrder(a, b)
  {
    TextTotal(ScopeName(a.scope), ScopeName(a.scope));
    TextTotal(a.scopeId, a.scopeId);
  }

  /** Loaded are the tenant's active budgets of the scopes the request falls under, ordered by scope name, then scope id, then id. */
  lemma LoadedExactly(budgets: seq<Budget>, context: RequestContext)
    ensures var loaded := ListForScopes(budgets, context);
            && (forall b :: b in loaded <==>
                  b in budgets && b.active && b.tenantId == context.tenantId && FallsUnder(context, b.scope, b.scopeId))
            && (forall i, j :: 0 <= i < j < |loaded| ==> InLoadOrder(loaded[i], loaded[j]))
  {
    var loaded, gated := ListForScopes(budgets, context), Filter(Gates(context), budgets);
    FilterMembers(Gates(context), budgets);
    SortMembers(LoadOrder, gated);
    LoadOrderIsOrder();
    SortSorts(LoadOrder, gated);
    forall b ensures b in loaded <==> b in budgets && b.active && b.tenantId == context.tenantId && FallsUnder(context, b.scope, b.scopeId) {
      PairsOf(context, b.scope, b.scopeId);
    }
    forall i, j | 0 <= i < j < |loaded| ensures InLoadOrder(loaded[i], loaded[j]) {
      LoadOrderReads(loaded[i], loaded[j]);
    }
  }

  /** An id identifies a budget. */
  ghost predicate UniqueIds(budgets: seq<Budget>) {
    forall a, b :: a in budgets && b in budgets && a.id == b.id ==> a == b
  }

  /** The budgets loaded for a request do not depend on how the table happens to be laid out. */
  lemma LoadingIsReproducible(budgets: seq<Budget>, shuffled: seq<Budget>, context: RequestContext)
    requires multiset(budgets) == multiset(shuffled) && UniqueIds(budgets)
    ensures ListForScopes(budgets, context) == ListForScopes(shuffled, context)
  {
    LoadOrderIsOrder();
    FilterContents(Gates(context), budgets, shuffled);
    FilterMembers(Gates(context), budgets);
    SortOrderIndependent(LoadOrder, Filter(Gates(context), budgets), Filter(Gates(context), shuffled));
  }

  // ---- from budget to limit

  function ToLimit(b: Budget, rows: seq<Row>, converter: Converter, now: Calendar.Moment): Result<Limit, Calendar.CalendarError>
    requires now.Valid()
  {
    if Calendar.PeriodWindow(b.period, now).Err? then Err(Calendar.OutOfRange)
    else
      var spend := PeriodSpend(rows, Target(b), b.period, now);
      var convertible := converter.CanConvert(b.currency);
      Ok(Limit(b.scope, b.scopeId, if convertible then converter.ToBase(b.amount, b.currency) else b.amount,
               spend.actualCost, spend.estimatedCost, b.warningThreshold, b.criticalThreshold, Some(b.id),
               if convertible then None else Some(NOT_CONVERTIBLE)))
  }

  function LimitsOf(loaded: seq<Budget>, rows: seq<Row>, converter: Converter, now: Calendar.Moment): Result<seq<Limit>, Calendar.CalendarError>
    requires now.Valid()
  {
    if loaded == [] then Ok([])
    else
      var n := |loaded| - 1;
      var before, last := LimitsOf(loaded[..n], rows, converter, now), ToLimit(loaded[n], rows, converter, now);
      if before.Err? then before else if last.Err? then Err(last.error) else Ok(before.value + [last.value])
  }

  /** A ceiling on one request, set by the routing policy or by the caller. */
  datatype RequestLimit = RequestLimit(maxCost: real, currency: string, source: string)

  /** A limit nothing has been spent against, at the default thresholds. */
  function CeilingLimit(ceiling: RequestLimit, converter: Converter): Limit {
    var convertible := converter.CanConvert(ceiling.currency);
    Limit(RequestScope, ceiling.source, if convertible then converter.ToBase(ceiling.maxCost, ceiling.currency) else ceiling.maxCost,
          0.0, 0.0, 80.0, 95.0, None, if convertible then None else Some(NOT_CONVERTIBLE))
  }

  function CeilingLimits(ceiling: Option<RequestLimit>, converter: Converter): seq<Limit> {
    if ceiling.Some? then [CeilingLimit(ceiling.value, converter)] else []
  }

  /** What a request is measured against: stored budgets, recorded spend, conversion rates, the time and the policy. */
  datatype Books = Books(budgets: seq<Budget>, rows: seq<Row>, converter: Converter, now: Calendar.Moment, policy: Policy)

  function StoredLimits(books: Books, context: RequestContext): Result<seq<Limit>, Calendar.CalendarError>
    requires books.now.Valid()
  {
    LimitsOf(ListForScopes(books.budgets, context), books.rows, books.converter, books.now)
  }

  function Evaluated(books: Books, context: RequestContext, requestCost: real, ceiling: Option<RequestLimit>): Result<Decision, Calendar.CalendarError>
    requires books.now.Valid()
  {
    var stored := StoredLimits(books, context);
    if stored.Err? then Err(stored.error)
    else Ok(Decide(stored.value + CeilingLimits(ceiling, books.converter), requestCost, books.policy))
  }

  method LoadLimits(books: Books, context: RequestContext) returns (limits: Result<seq<Limit>, Calendar.CalendarError>)
    requires books.now.Valid()
    ensures limits == StoredLimits(books, context)
  {
    var loaded := ListForScopes(books.budgets, context);
    var built := [];
    for i := 0 to |loaded|
      invariant LimitsOf(loaded[..i], books.rows, books.converter, books.now) == Ok(built)
    {
      LimitsStep(loaded, i, books);
      var limit := ToLimit(loaded[i], books.rows, books.converter, books.now);
      if limit.Err? {
        ErrorsStick(loaded, i + 1, books);
        return Err(limit.error);
      }
      built := built + [limit.value];
    }
    assert loaded[..|loaded|] == loaded;
    return Ok(built);
  }

  lemma LimitsStep(loaded: seq<Budget>, i: nat, books: Books)
    requires books.now.Valid() && i < |loaded|
    ensures var before, last := LimitsOf(loaded[..i], books.rows, books.converter, books.now),
                                ToLimit(loaded[i], books.rows, books.converter, books.now);
            LimitsOf(loaded[..i + 1], books.rows, books.converter, books.now) ==
              if before.Err? then before else if last.Err? then Err(last.error) else Ok(before.value + [last.value])
  {
    assert loaded[..i + 1][..i] == loaded[..i];
  }

  lemma {:induction false} ErrorsStick(loaded: seq<Budget>, i: nat, books: Books)
    requires books.now.Valid() && i <= |loaded|
    requires LimitsOf(loaded[..i], books.rows, books.converter, books.now).Err?
    ensures LimitsOf(loaded, books.rows, books.converter, books.now) == LimitsOf(loaded[..i], books.rows, books.converter, books.now)
  {
    if i < |loaded| {
      assert loaded[..|loaded| - 1][..i] == loaded[..i];
      ErrorsStick(loaded[..|loaded| - 1], i, books);
    } else {
      assert loaded[..i] == loaded;
    }
  }

  method Evaluate(books: Books, context: RequestContext, requestCost: real, ceiling: Option<RequestLimit>)
    returns (decision: Result<Decision, Calendar.CalendarError>)
    requires books.now.Valid()
    ensures decision == Evaluated(books, context, requestCost, ceiling)
  {
    var stored := LoadLimits(books, context);
    if stored.Err? {
      return Err(stored.error);
    }
    var limits := stored.value;
    if ceiling.Some? {
      limits := limits + [CeilingLimit(ceiling.value, books.converter)];
    } else {
      assert limits + [] == limits;
    }
    return Ok(Decide(limits, requestCost, books.policy));
  }

  // ---- recorded spend only ever tightens the decision

  ghost predicate NoRefunds(rows: seq<Row>) {
    forall r :: r in rows ==> OrZero(r.cost.actualCost) >= 0.0 && OrZero(r.cost.estimatedCost) >= 0.0
  }

  lemma {:induction false} SumOfConcat(f: Row -> real, a: seq<Row>, b: seq<Row>)
    ensures SumOf(f, a + b) == SumOf(f, a) + SumOf(f, b)
  {
    if a == [] {
      assert a + b == b;
    } else {
      assert (a + b)[1..] == a[1..] + b;
      SumOfConcat(f, a[1..], b);
    }
  }

  lemma {:induction false} SumOfNonNegative(f: Row -> real, rows: seq<Row>)
    requires forall r :: r in rows ==> f(r) >= 0.0
    ensures SumOf(f, rows) >= 0.0
  {
    if rows != [] {
      SumOfNonNegative(f, rows[1..]);
    }
  }

  lemma MoreSpend(rows: seq<Row>, more: seq<Row>, keep: Row -> bool)
    requires NoRefunds(more)
    ensures Sum(Filter(keep, rows)).actualCost <= Sum(Filter(keep, rows + more)).actualCost
    ensures Sum(Filter(keep, rows)).estimatedCost <= Sum(Filter(keep, rows + more)).estimatedCost
  {
    FilterConcat(keep, rows, more);
    FilterMembers(keep, more);
    SumOfConcat(ActualMoney, Filter(keep, rows), Filter(keep, more));
    SumOfConcat(EstimatedMoney, Filter(keep, rows), Filter(keep, more));
    SumOfNonNegative(ActualMoney, Filter(keep, more));
    SumOfNonNegative(EstimatedMoney, Filter(keep, more));
  }

  lemma LimitFills(b: Budget, books: Books, more: seq<Row>)
    requires books.now.Valid() && NoRefunds(more)
    ensures var l, fuller := ToLimit(b, books.rows, books.converter, books.now), ToLimit(b, books.rows + more, books.converter, books.now);
            (l.Ok? <==> fuller.Ok?) && (l.Ok? ==> FullerBy(l.value, fuller.value))
  {
    if Calendar.PeriodWindow(b.period, books.now).Ok? {
      var w := Calendar.PeriodWindow(b.period, books.now).value;
      MoreSpend(books.rows, more, Between(Against(Target(b)), w.start, w.end));
    }
  }

  ghost predicate AllFuller(limits: seq<Limit>, fuller: seq<Limit>) {
    |limits| == |fuller| && forall i :: 0 <= i < |limits| ==> FullerBy(limits[i], fuller[i])
  }

  lemma {:induction false} LimitsFill(loaded: seq<Budget>, books: Books, more: seq<Row>)
    requires books.now.Valid() && NoRefunds(more)
    ensures var l, fuller := LimitsOf(loaded, books.rows, books.converter, books.now), LimitsOf(loaded, books.rows + more, books.converter, books.now);
            (l.Ok? <==> fuller.Ok?) && (l.Ok? ==> AllFuller(l.value, fuller.value))
  {
    if loaded != [] {
      LimitsFill(loaded[..|loaded| - 1], books, more);
      LimitFills(loaded[|loaded| - 1], books, more);
    }
  }

  /**
   Recording further nonnegative spend, or asking for a dearer request, never loosens the decision
   on a request, whatever the budgets, the spend so far and the ceiling.
   */
  lemma SpendingNeverLoosens(
    books: Books, more: seq<Row>, context: RequestContext, cost: real, dearer: real, ceiling: Option<RequestLimit>
  )
    requires books.now.Valid() && Graduated(books.policy)
    requires NoRefunds(more) && cost <= dearer
    ensures var before, after := Evaluated(books, context, cost, ceiling),
                                 Evaluated(books.(rows := books.rows + more), context, dearer, ceiling);
            && (before.Ok? <==> after.Ok?)
            && (before.Ok? ==> Severity(before.value.outcome) <= Severity(after.value.outcome))
  {
    var loaded := ListForScopes(books.budgets, context);
    LimitsFill(loaded, books, more);
    if StoredLimits(books, context).Ok? {
      var stored := StoredLimits(books, context).value;
      var fuller := StoredLimits(books.(rows := books.rows + more), context).value;
      var extra := CeilingLimits(ceiling, books.converter);
      AllFullerConcat(stored, fuller, extra);
      DecisionNeverLoosens(stored + extra, fuller + extra, [], cost, dearer, books.policy);
      assert fuller + extra + [] == fuller + extra;
    }
  }

  lemma AllFullerConcat(a: seq<Limit>, b: seq<Limit>, extra: seq<Limit>)
    requires AllFuller(a, b)
    ensures AllFuller(a + extra, b + extra)
  {
    forall l: Limit ensures FullerBy(l, l) {
    }
  }

  // ---- other tenants' spend is invisible

  ghost predicate Foreign(rows: seq<Row>, tenantId: string) {
    forall r :: r in rows ==> r.usage.tenantId != Some(tenantId)
  }

  lemma {:induction false} NothingKept(keep: Row -> bool, rows: seq<Row>)
    requires forall r :: r in rows ==> !keep(r)
    ensures Filter(keep, rows) == []
  {
    if rows != [] {
      NothingKept(keep, rows[1..]);
    }
  }

  lemma ForeignSpendIgnored(b: Budget, books: Books, foreign: seq<Row>)
    requires books.now.Valid() && Foreign(foreign, b.tenantId)
    ensures ToLimit(b, books.rows + foreign, books.converter, books.now) == ToLimit(b, books.rows, books.converter, books.now)
  {
    if Calendar.PeriodWindow(b.period, books.now).Ok? {
      var w := Calendar.PeriodWindow(b.period, books.now).value;
      var keep := Between(Against(Target(b)), w.start, w.end);
      FilterConcat(keep, books.rows, foreign);
      NothingKept(keep, foreign);
      assert Filter(keep, books.rows) + [] == Filter(keep, books.rows);
    }
  }

  lemma {:induction false} ForeignSpendIgnoredByAll(loaded: seq<Budget>, books: Books, foreign: seq<Row>, tenantId: string)
    requires books.now.Valid() && Foreign(foreign, tenantId)
    requires forall b :: b in loaded ==> b.tenantId == tenantId
    ensures LimitsOf(loaded, books.rows + foreign, books.converter, books.now) == LimitsOf(loaded, books.rows, books.converter, books.now)
  {
    if loaded != [] {
      ForeignSpendIgnoredByAll(loaded[..|loaded| - 1], books, foreign, tenantId);
      ForeignSpendIgnored(loaded[|loaded| - 1], books, foreign);
    }
  }

  /** Neither the budgets nor the spend of other tenants bear on a decision. */
  lemma TenantsAreIsolated(
    books: Books, foreign: seq<Row>, foreignBudgets: seq<Budget>, context: RequestContext, cost: real, ceiling: Option<RequestLimit>
  )
    requires books.now.Valid() && Foreign(foreign, context.tenantId)
    requires forall b :: b in foreignBudgets ==> b.tenantId != context.tenantId
    ensures Evaluated(books.(rows := books.rows + foreign, budgets := books.budgets + foreignBudgets), context, cost, ceiling)
         == Evaluated(books, context, cost, ceiling)
  {
    ForeignBudgetsNotLoaded(books.budgets, foreignBudgets, context);
    ForeignSpendIgnoredByAll(ListForScopes(books.budgets, context), books, foreign, context.tenantId);
  }

  lemma ForeignBudgetsNotLoaded(budgets: seq<Budget>, foreign: seq<Budget>, context: RequestContext)
    requires forall b :: b in foreign ==> b.tenantId != context.tenantId
    ensures ListForScopes(budgets + foreign, context) == ListForScopes(budgets, context)
    ensures forall b :: b in ListForScopes(budgets, context) ==> b.tenantId == context.tenantId
  {
    var gates := Gates(context);
    FilterConcat(gates, budgets, foreign);
    NoneGates(foreign, context);
    assert Filter(gates, budgets) + [] == Filter(gates, budgets);
    FilterMembers(gates, budgets);
    SortMembers(LoadOrder, Filter(gates, budgets));
  }

  lemma {:induction false} NoneGates(budgets: seq<Budget>, context: RequestContext)
    requires forall b :: b in budgets ==> b.tenantId != context.tenantId
    ensures Filter(Gates(context), budgets) == []
  {
    if budgets != [] {
      NoneGates(budgets[1..], context);
    }
  }

  // ---- the request's own ceiling

  /** An amount in the base currency: itself, or times the configured rate. */
  function InBase(converter: Converter, amount: real, code: string): Option<real> {
    if code == "" then None
    else if code == converter.baseCurrency then Some(amount)
    else if code in converter.rates then Some(amount * converter.rates[code])
    else None
  }

  /** What a ceiling alone asks for under the default policy. */
  function CeilingOutcome(ceiling: RequestLimit, converter: Converter, cost: real): PolicyOutcome {
    match InBase(converter, ceiling.maxCost, ceiling.currency)
    case None => RequireApproval
    case Some(amount) => if amount <= 0.0 then Block else if cost >= amount then RequireApproval else Allow
  }

  lemma CeilingEvaluation(ceiling: RequestLimit, converter: Converter, cost: real)
    ensures EvaluateLimit(CeilingLimit(ceiling, converter), cost, DEFAULT_POLICY).outcome == CeilingOutcome(ceiling, converter, cost)
  {
    DefaultOutcomeExactly(CeilingLimit(ceiling, converter), cost);
  }

  /** A ceiling is a limit nothing has been spent against, at the default thresholds, under its source's name. */
  lemma CeilingExactly(ceiling: RequestLimit, converter: Converter)
    ensures var l := CeilingLimit(ceiling, converter);
            var amount := InBase(converter, ceiling.maxCost, ceiling.currency);
            && l.scope == RequestScope && l.scopeId == ceiling.source && l.budgetId == None
            && l.consumedActual == 0.0 && l.consumedEstimated == 0.0
            && l.warningThreshold == 80.0 && l.criticalThreshold == 95.0
            && l.amount == (if amount.Some? then amount.value else ceiling.maxCost)
            && l.unevaluableReason == (if amount.Some? then None else Some("currency_not_convertible"))
  {
  }

  /**
   Under the default policy a ceiling acts like one more vote: approval is asked for exactly when
   the request would reach it or its currency is unknown, a ceiling of nothing blocks, and
   otherwise the stored budgets decide alone.
   */
  lemma CeilingIsEnforced(books: Books, context: RequestContext, cost: real, ceiling: RequestLimit)
    requires books.now.Valid() && books.policy == DEFAULT_POLICY
    ensures var without, whole := Evaluated(books, context, cost, None), Evaluated(books, context, cost, Some(ceiling));
            && (without.Ok? <==> whole.Ok?)
            && (whole.Ok? ==> whole.value.outcome == MoreSevere(without.value.outcome, CeilingOutcome(ceiling, books.converter, cost)))
  {
    if StoredLimits(books, context).Ok? {
      var stored := StoredLimits(books, context).value;
      var l := CeilingLimit(ceiling, books.converter);
      assert stored + [] == stored;
      DecisionIsHomomorphism(stored, [l], cost, books.policy);
      DecisionIsSortedAndWorst([l], cost, books.policy);
      CeilingEvaluation(ceiling, books.converter, cost);
      OutcomeIsWorst([l], cost, books.policy, EvaluateLimit(l, cost, books.policy).outcome);
    }
  }

  /** An active enterprise budget filed under another id than the tenant's: the request's spend counts, and it never gates. */
  lemma EnterpriseBudgetNeverGates(context: RequestContext, id: string, timestamp: int)
    requires id != context.tenantId
    ensures var b := Budget("b", context.tenantId, EnterpriseScope, id, 100.0, "USD", Calendar.Monthly, 80.0, 95.0, true);
            && AgainstScope(EventOf(context, timestamp), b.tenantId, ScopeName(b.scope), b.scopeId)
            && b !in ListForScopes([b], context)
  {
    var b := Budget("b", context.tenantId, EnterpriseScope, id, 100.0, "USD", Calendar.Monthly, 80.0, 95.0, true);
    GatesExactlyWhenSpendCounts([b], context, b, timestamp);
  }

  // ---- what a request is told, from the books alone

  /** Which usage counts against a budget of this scope. */
  predicate CountsAgainst(u: UsageEvent, b: Budget) {
    && u.tenantId == Some(b.tenantId)
    && match b.scope
       case TenantScope => b.scopeId == b.tenantId
       case PlantScope => u.plantId == Some(b.scopeId)
       case DepartmentScope => u.departmentId == Some(b.scopeId)
       case WorkloadScope => u.workloadId == Some(b.scopeId)
       case AgentScope => u.agentId == Some(b.scopeId)
       case ModelScope => u.modelId == Some(b.scopeId)
       case EnterpriseScope => true
       case RequestScope => true
  }

  lemma CountsAgainstColumn(u: UsageEvent, b: Budget)
    ensures AgainstScope(u, b.tenantId, ScopeName(b.scope), b.scopeId) <==> CountsAgainst(u, b)
  {
  }

  /** The money of one row: actual where it is known, estimated where only that is. */
  function Money(r: Row): real {
    match r.cost.provenance
    case Actual => if r.cost.actualCost.Some? then r.cost.actualCost.value else 0.0
    case Estimated => if r.cost.estimatedCost.Some? then r.cost.estimatedCost.value else 0.0
    case Unavailable => 0.0
  }

  /** The row was recorded against the budget from one instant to another, both included. */
  predicate IsRecorded(r: Row, b: Budget, start: int, end: int) {
    CountsAgainst(r.usage, b) && start <= r.usage.timestamp <= end
  }

  /** The money of one provenance recorded against a budget. */
  function Recorded(provenance: Provenance, rows: seq<Row>, b: Budget, start: int, end: int): real {
    if rows == [] then 0.0
    else
      var rest := Recorded(provenance, rows[1..], b, start, end);
      if IsRecorded(rows[0], b, start, end) && rows[0].cost.provenance == provenance then Money(rows[0]) + rest else rest
  }

  /** How many of the rows recorded have no known cost. */
  function Unpriced(rows: seq<Row>, b: Budget, start: int, end: int): int {
    if rows == [] then 0
    else
      var rest := Unpriced(rows[1..], b, start, end);
      if IsRecorded(rows[0], b, start, end) && rows[0].cost.provenance == Unavailable then 1 + rest else rest
  }

  lemma {:induction false} RecordedIsSpend(rows: seq<Row>, b: Budget, start: int, end: int)
    ensures SpendForScope(rows, Target(b), start, end)
         == ScopeSpend(Recorded(Actual, rows, b, start, end), Recorded(Estimated, rows, b, start, end), Unpriced(rows, b, start, end))
  {
    if rows != [] {
      var keep := Between(Against(Target(b)), start, end);
      RecordedIsSpend(rows[1..], b, start, end);
      CountsAgainstColumn(rows[0].usage, b);
      assert ([rows[0]] + Filter(keep, rows[1..]))[1..] == Filter(keep, rows[1..]);
    }
  }

  /** What a stored budget says to a request under the default policy. */
  function BudgetVote(b: Budget, books: Books, cost: real): PolicyOutcome
    requires books.now.Valid() && Calendar.PeriodWindow(b.period, books.now).Ok?
  {
    match InBase(books.converter, b.amount, b.currency)
    case None => RequireApproval
    case Some(amount) =>
      var w := Calendar.PeriodWindow(b.period, books.now).value;
      var spent := Recorded(Actual, books.rows, b, w.start, w.end) + Recorded(Estimated, books.rows, b, w.start, w.end);
      Vote(amount, spent, b.criticalThreshold, cost)
  }

  lemma LimitVotes(b: Budget, books: Books, cost: real)
    requires books.now.Valid() && Calendar.PeriodWindow(b.period, books.now).Ok?
    ensures ToLimit(b, books.rows, books.converter, books.now).Ok?
    ensures EvaluateLimit(ToLimit(b, books.rows, books.converter, books.now).value, cost, DEFAULT_POLICY).outcome == BudgetVote(b, books, cost)
  {
    var w := Calendar.PeriodWindow(b.period, books.now).value;
    RecordedIsSpend(books.rows, b, w.start, w.end);
    DefaultOutcomeExactly(ToLimit(b, books.rows, books.converter, books.now).value, cost);
  }

  ghost predicate Windowed(loaded: seq<Budget>, now: Calendar.Moment)
    requires now.Valid()
  {
    forall b :: b in loaded ==> Calendar.PeriodWindow(b.period, now).Ok?
  }

  /** Limits can be built exactly when every loaded budget has a window; they are then the budgets' own, in order. */
  lemma {:induction false} LimitsAreTheBudgets(loaded: seq<Budget>, books: Books)
    requires books.now.Valid()
    ensures var limits := LimitsOf(loaded, books.rows, books.converter, books.now);
            && (limits.Ok? <==> Windowed(loaded, books.now))
            && (limits.Ok? ==>
                  && |limits.value| == |loaded|
                  && forall i :: 0 <= i < |loaded| ==> Ok(limits.value[i]) == ToLimit(loaded[i], books.rows, books.converter, books.now))
  {
    if loaded != [] {
      var n := |loaded| - 1;
      LimitsAreTheBudgets(loaded[..n], books);
      assert loaded == loaded[..n] + [loaded[n]];
    }
  }

  /** Some budget that gates the request, or its ceiling, says this. */
  ghost predicate Says(books: Books, context: RequestContext, cost: real, ceiling: Option<RequestLimit>, outcome: PolicyOutcome)
    requires books.now.Valid() && Windowed(ListForScopes(books.budgets, context), books.now)
  {
    || (exists b :: b in ListForScopes(books.budgets, context) && BudgetVote(b, books, cost) == outcome)
    || (ceiling.Some? && CeilingOutcome(ceiling.value, books.converter, cost) == outcome)
  }

  /** The limit of a loaded budget votes as the budget does. */
  lemma LoadedVotes(books: Books, loaded: seq<Budget>, limits: seq<Limit>, cost: real, i: nat)
    requires books.now.Valid() && Windowed(loaded, books.now)
    requires i < |limits| == |loaded|
    requires Ok(limits[i]) == ToLimit(loaded[i], books.rows, books.converter, books.now)
    ensures EvaluateLimit(limits[i], cost, DEFAULT_POLICY).outcome == BudgetVote(loaded[i], books, cost)
  {
    LimitVotes(loaded[i], books, cost);
  }

  lemma VoteOfBudgets(books: Books, loaded: seq<Budget>, limits: seq<Limit>, cost: real, outcome: PolicyOutcome)
    requires books.now.Valid() && Windowed(loaded, books.now)
    requires |limits| == |loaded|
    requires forall i :: 0 <= i < |loaded| ==> Ok(limits[i]) == ToLimit(loaded[i], books.rows, books.converter, books.now)
    ensures SomeVote(limits, cost, DEFAULT_POLICY, outcome)
       <==> exists b :: b in loaded && BudgetVote(b, books, cost) == outcome
  {
    forall i | 0 <= i < |loaded| ensures EvaluateLimit(limits[i], cost, DEFAULT_POLICY).outcome == BudgetVote(loaded[i], books, cost) {
      LoadedVotes(books, loaded, limits, cost, i);
    }
    if b :| b in loaded && BudgetVote(b, books, cost) == outcome {
      var i :| 0 <= i < |loaded| && loaded[i] == b;
      assert limits[i] in limits;
    }
    if l :| l in limits && EvaluateLimit(l, cost, DEFAULT_POLICY).outcome == outcome {
      var i :| 0 <= i < |limits| && limits[i] == l;
      assert loaded[i] in loaded;
    }
  }

  lemma VoteOfCeiling(ceiling: Option<RequestLimit>, converter: Converter, cost: real, outcome: PolicyOutcome)
    ensures SomeVote(CeilingLimits(ceiling, converter), cost, DEFAULT_POLICY, outcome)
       <==> ceiling.Some? && CeilingOutcome(ceiling.value, converter, cost) == outcome
  {
    if ceiling.Some? {
      CeilingEvaluation(ceiling.value, converter, cost);
    }
  }

  lemma VotesTogether(a: seq<Limit>, b: seq<Limit>, cost: real, outcome: PolicyOutcome)
    ensures SomeVote(a + b, cost, DEFAULT_POLICY, outcome)
       <==> SomeVote(a, cost, DEFAULT_POLICY, outcome) || SomeVote(b, cost, DEFAULT_POLICY, outcome)
  {
    assert forall l :: l in a + b <==> l in a || l in b;
  }

  lemma SaysIsVote(books: Books, context: RequestContext, cost: real, ceiling: Option<RequestLimit>, outcome: PolicyOutcome)
    requires books.now.Valid() && StoredLimits(books, context).Ok?
    requires Windowed(ListForScopes(books.budgets, context), books.now)
    ensures SomeVote(StoredLimits(books, context).value + CeilingLimits(ceiling, books.converter), cost, DEFAULT_POLICY, outcome)
       <==> Says(books, context, cost, ceiling, outcome)
  {
    var loaded, limits := ListForScopes(books.budgets, context), StoredLimits(books, context).value;
    LimitsAreTheBudgets(loaded, books);
    VoteOfBudgets(books, loaded, limits, cost, outcome);
    VoteOfCeiling(ceiling, books.converter, cost, outcome);
    VotesTogether(limits, CeilingLimits(ceiling, books.converter), cost, outcome);
  }

  /**
   Under the default policy a request is blocked exactly when some budget that gates it has an amount of
   nothing, or all of it recorded as spent in its window, actual and estimated together, or its ceiling
   is nothing; otherwise it needs approval exactly when it would spend the rest of one or one is in an
   unknown currency; otherwise it is downgraded exactly when one is critical; otherwise it is allowed.
   It cannot be evaluated exactly when a gating budget's period has no window.
   */
  lemma EvaluatedExactly(books: Books, context: RequestContext, cost: real, ceiling: Option<RequestLimit>)
    requires books.now.Valid() && books.policy == DEFAULT_POLICY
    ensures Evaluated(books, context, cost, ceiling).Ok? <==> Windowed(ListForScopes(books.budgets, context), books.now)
    ensures Evaluated(books, context, cost, ceiling).Ok? ==>
              Evaluated(books, context, cost, ceiling).value.outcome ==
                if Says(books, context, cost, ceiling, Block) then Block
                else if Says(books, context, cost, ceiling, RequireApproval) then RequireApproval
                else if Says(books, context, cost, ceiling, Downgrade) then Downgrade
                else Allow
  {
    var loaded := ListForScopes(books.budgets, context);
    LimitsAreTheBudgets(loaded, books);
    if Windowed(loaded, books.now) {
      var all := StoredLimits(books, context).value + CeilingLimits(ceiling, books.converter);
      ComposedExactly(all, cost, DEFAULT_POLICY);
      SaysIsVote(books, context, cost, ceiling, Block);
      SaysIsVote(books, context, cost, ceiling, RequireApproval);
      SaysIsVote(books, context, cost, ceiling, Downgrade);
    }
  }

  /** Every figure of a stored budget's limit comes from the budget, its window's spend and the configured rate. */
  lemma LimitExactly(b: Budget, books: Books)
    requires books.now.Valid() && Calendar.PeriodWindow(b.period, books.now).Ok?
    ensures var l := ToLimit(b, books.rows, books.converter, books.now).value;
            var spend := PeriodSpend(books.rows, Target(b), b.period, books.now);
            var amount := InBase(books.converter, b.amount, b.currency);
            && l.scope == b.scope && l.scopeId == b.scopeId && l.budgetId == Some(b.id)
            && l.consumedActual == spend.actualCost && l.consumedEstimated == spend.estimatedCost
            && l.warningThreshold == b.warningThreshold && l.criticalThreshold == b.criticalThreshold
            && l.amount == (if amount.Some? then amount.value else b.amount)
            && l.unevaluableReason == (if amount.Some? then None else Some("currency_not_convertible"))
  {
  }
}
