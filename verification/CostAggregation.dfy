/**
 Spend aggregated over cost events joined to the usage events they belong to. Sums skip NULLs;
 actual and estimated money are never blended and unknown costs are counted, not zeroed.
 */
module CostAggregation {
  import opened Wrappers
  import opened Ordering
  import opened Principals
  import opened CostEngine
  import Scope
  import Calendar

  datatype UsageEvent = UsageEvent(
    tenantId: Option<string>,
    plantId: Option<string>,
    departmentId: Option<string>,
    workloadId: Option<string>,
    agentId: Option<string>,
    modelId: Option<string>,
    timestamp: int,
    totalTokens: Option<int>
  )

  datatype CostEvent = CostEvent(
    usageEventId: string, actualCost: Option<real>, estimatedCost: Option<real>, provenance: Provenance)

  datatype Row = Row(cost: CostEvent, usage: UsageEvent)

  /** The inner join: a cost event without its usage event contributes nothing. */
  function Join(costs: seq<CostEvent>, usages: map<string, UsageEvent>): seq<Row> {
    if costs == [] then []
    else
      var rest := Join(costs[1..], usages);
      if costs[0].usageEventId in usages then [Row(costs[0], usages[costs[0].usageEventId])] + rest else rest
  }

  /** Rows with the same usage event id carry the same usage event. */
  ghost predicate Joined(rows: seq<Row>) {
    forall a, b :: a in rows && b in rows && a.cost.usageEventId == b.cost.usageEventId ==> a.usage == b.usage
  }

  lemma {:induction false} JoinRows(costs: seq<CostEvent>, usages: map<string, UsageEvent>)
    ensures forall r :: r in Join(costs, usages) ==> r.cost.usageEventId in usages && r.usage == usages[r.cost.usageEventId]
  {
    if costs != [] {
      JoinRows(costs[1..], usages);
    }
  }

  lemma JoinIsJoined(costs: seq<CostEvent>, usages: map<string, UsageEvent>)
    ensures Joined(Join(costs, usages))
  {
    JoinRows(costs, usages);
  }

  // ---- totals

  datatype Amounts = Amounts(actualCost: real, estimatedCost: real, unavailableCostEvents: int, totalTokens: int)

  const NOTHING := Amounts(0.0, 0.0, 0, 0)

  function Plus(a: Amounts, b: Amounts): Amounts {
    Amounts(a.actualCost + b.actualCost, a.estimatedCost + b.estimatedCost,
            a.unavailableCostEvents + b.unavailableCostEvents, a.totalTokens + b.totalTokens)
  }

  function OrZero(x: Option<real>): real {
    if x.Some? then x.value else 0.0
  }

  // The CASE branches of the aggregated columns; NULL adds nothing.

  function ActualMoney(r: Row): real {
    if r.cost.provenance == Actual then OrZero(r.cost.actualCost) else 0.0
  }

  function EstimatedMoney(r: Row): real {
    if r.cost.provenance == Estimated then OrZero(r.cost.estimatedCost) else 0.0
  }

  function UnavailableEvent(r: Row): int {
    if r.cost.provenance != Actual && r.cost.provenance != Estimated then 1 else 0
  }

  function TokensUsed(r: Row): int {
    if r.usage.totalTokens.Some? then r.usage.totalTokens.value else 0
  }

  function SumOf(f: Row -> real, rows: seq<Row>): real {
    if rows == [] then 0.0 else f(rows[0]) + SumOf(f, rows[1..])
  }

  function CountOf(f: Row -> int, rows: seq<Row>): int {
    if rows == [] then 0 else f(rows[0]) + CountOf(f, rows[1..])
  }

  function Sum(rows: seq<Row>): Amounts {
    Amounts(SumOf(ActualMoney, rows), SumOf(EstimatedMoney, rows), CountOf(UnavailableEvent, rows), CountOf(TokensUsed, rows))
  }

  /** `count(distinct usage id)`. */
  function RequestIds(rows: seq<Row>): set<string> {
    set r | r in rows :: r.cost.usageEventId
  }

  datatype CostTotals = CostTotals(amounts: Amounts, totalRequests: int)

  function Totals(rows: seq<Row>): CostTotals {
    CostTotals(Sum(rows), |RequestIds(rows)|)
  }

  function Negated(keep: Row -> bool): Row -> bool {
    (r: Row) => !keep(r)
  }

  lemma {:induction false} SumOfSplits(f: Row -> real, keep: Row -> bool, rows: seq<Row>)
    ensures SumOf(f, rows) == SumOf(f, Filter(keep, rows)) + SumOf(f, Filter(Negated(keep), rows))
  {
    if rows != [] {
      SumOfSplits(f, keep, rows[1..]);
      var kept, other := Filter(keep, rows[1..]), Filter(Negated(keep), rows[1..]);
      assert ([rows[0]] + kept)[1..] == kept && ([rows[0]] + other)[1..] == other;
    }
  }

  lemma {:induction false} CountOfSplits(f: Row -> int, keep: Row -> bool, rows: seq<Row>)
    ensures CountOf(f, rows) == CountOf(f, Filter(keep, rows)) + CountOf(f, Filter(Negated(keep), rows))
  {
    if rows != [] {
      CountOfSplits(f, keep, rows[1..]);
      var kept, other := Filter(keep, rows[1..]), Filter(Negated(keep), rows[1..]);
      assert ([rows[0]] + kept)[1..] == kept && ([rows[0]] + other)[1..] == other;
    }
  }

  lemma SumSplits(keep: Row -> bool, rows: seq<Row>)
    ensures Sum(rows) == Plus(Sum(Filter(keep, rows)), Sum(Filter(Negated(keep), rows)))
  {
    SumOfSplits(ActualMoney, keep, rows);
    SumOfSplits(EstimatedMoney, keep, rows);
    CountOfSplits(UnavailableEvent, keep, rows);
    CountOfSplits(TokensUsed, keep, rows);
  }

  /** The tokens of every row that reports them, whatever its provenance. */
  function TokensReported(rows: seq<Row>): int {
    if rows == [] then 0
    else match rows[0].usage.totalTokens
      case Some(tokens) => tokens + TokensReported(rows[1..])
      case None => TokensReported(rows[1..])
  }

  /**
   Each cost event counts toward exactly one figure: actual money comes only from ACTUAL rows,
   estimated money only from ESTIMATED rows, every other row is counted, and the three groups
   make up all the rows.
   */
  lemma {:induction false} EveryEventCountsOnce(rows: seq<Row>)
    ensures var isActual, isEstimated := (r: Row) => r.cost.provenance == Actual, (r: Row) => r.cost.provenance == Estimated;
            var t := Sum(rows);
            && t.actualCost == SumOf((r: Row) => OrZero(r.cost.actualCost), Filter(isActual, rows))
            && t.estimatedCost == SumOf((r: Row) => OrZero(r.cost.estimatedCost), Filter(isEstimated, rows))
            && |rows| == |Filter(isActual, rows)| + |Filter(isEstimated, rows)| + t.unavailableCostEvents
            && t.totalTokens == TokensReported(rows)
  {
    if rows != [] {
      EveryEventCountsOnce(rows[1..]);
      var isActual, isEstimated := (r: Row) => r.cost.provenance == Actual, (r: Row) => r.cost.provenance == Estimated;
      var actual, estimated := Filter(isActual, rows[1..]), Filter(isEstimated, rows[1..]);
      assert ([rows[0]] + actual)[1..] == actual && ([rows[0]] + estimated)[1..] == estimated;
    }
  }

  /** Requests are counted once each, however many cost events they have. */
  lemma RequestsCountOnce(rows: seq<Row>)
    ensures Totals(rows).totalRequests == |set r | r in rows :: r.cost.usageEventId|
    ensures Totals(rows).amounts == Sum(rows)
  {
  }

  /** The join keeps exactly the cost events that have a usage event, in order, each beside its own. */
  lemma {:induction false} JoinExactly(costs: seq<CostEvent>, usages: map<string, UsageEvent>)
    ensures Map((r: Row) => r.cost, Join(costs, usages)) == Filter((c: CostEvent) => c.usageEventId in usages, costs)
    ensures forall r :: r in Join(costs, usages) ==> r.cost.usageEventId in usages && r.usage == usages[r.cost.usageEventId]
  {
    JoinRows(costs, usages);
    if costs != [] {
      JoinExactly(costs[1..], usages);
      var f, rest := (r: Row) => r.cost, Join(costs[1..], usages);
      if costs[0].usageEventId in usages {
        var row := Row(costs[0], usages[costs[0].usageEventId]);
        assert Map(f, [row] + rest) == [f(row)] + Map(f, rest);
      }
    }
  }

  // ---- scope and dates

  function Visible(scope: Scope.AuthorizedScope, from: Option<int>, to: Option<int>): Row -> bool {
    (r: Row) =>
      && Scope.Eval(Scope.ScopePredicate(scope), Scope.OwnershipRow(r.usage.tenantId, r.usage.plantId, r.usage.departmentId)) == Scope.True
      && (from.Some? ==> r.usage.timestamp >= from.value)
      && (to.Some? ==> r.usage.timestamp <= to.value)
  }

  function Summary(rows: seq<Row>, scope: Scope.AuthorizedScope, from: Option<int>, to: Option<int>): CostTotals {
    Totals(Filter(Visible(scope, from, to), rows))
  }

  /** In range, in the requested plant and department, and owned by someone the caller has the permission over. */
  ghost predicate MayRead(
    r: Row, principal: Principal, permission: Permission,
    plant: Option<string>, department: Option<string>, from: Option<int>, to: Option<int>
  ) {
    && (from.Some? ==> r.usage.timestamp >= from.value) && (to.Some? ==> r.usage.timestamp <= to.value)
    && r.usage.tenantId.Some?
    && var owner := ResourceScope(r.usage.tenantId.value, r.usage.plantId, r.usage.departmentId);
       && Scope.AuthorizeResourcePermission(principal, owner, permission).Ok?
       && Scope.InPlant(owner, plant) && Scope.InDepartment(owner, department)
  }

  lemma VisibleIsReadable(
    r: Row, principal: Principal, permission: Permission,
    tenant: Option<string>, plant: Option<string>, department: Option<string>, from: Option<int>, to: Option<int>
  )
    requires Scope.ResolveScope(principal, permission, tenant, plant, department).Ok?
    ensures Visible(Scope.ResolveScope(principal, permission, tenant, plant, department).value, from, to)(r)
       <==> MayRead(r, principal, permission, plant, department, from, to)
  {
    var scope := Scope.ResolveScope(principal, permission, tenant, plant, department).value;
    Scope.ResolutionIsExact(principal, permission, tenant, plant, department);
    Scope.ResolvedScopeIsValid(principal, permission, tenant, plant, department);
    Scope.FilterIsCoverage(scope, Scope.OwnershipRow(r.usage.tenantId, r.usage.plantId, r.usage.departmentId));
  }

  /**
   A summary under a resolved scope, client filters included, reads exactly the rows in range whose
   owner the caller may touch and asked for; rows without a tenant are never read.
   */
  lemma SummaryReadsAuthorizedRows(
    rows: seq<Row>, principal: Principal, permission: Permission,
    tenant: Option<string>, plant: Option<string>, department: Option<string>, from: Option<int>, to: Option<int>
  )
    requires Scope.ResolveScope(principal, permission, tenant, plant, department).Ok?
    ensures var scope := Scope.ResolveScope(principal, permission, tenant, plant, department).value;
            var readable := Filter(Visible(scope, from, to), rows);
            && Summary(rows, scope, from, to) == Totals(readable)
            && forall r :: r in readable <==> r in rows && MayRead(r, principal, permission, plant, department, from, to)
  {
    var scope := Scope.ResolveScope(principal, permission, tenant, plant, department).value;
    FilterMembers(Visible(scope, from, to), rows);
    forall r ensures Visible(scope, from, to)(r) <==> MayRead(r, principal, permission, plant, department, from, to) {
      VisibleIsReadable(r, principal, permission, tenant, plant, department, from, to);
    }
  }

  // ---- grouping

  type GroupKey = Option<string>

  /** NULL first, then by text. */
  predicate KeyLe(a: GroupKey, b: GroupKey) {
    a.None? || (b.Some? && TextLe(a.value, b.value))
  }

  function GroupKeys(rows: seq<Row>, key: UsageEvent -> GroupKey): seq<GroupKey> {
    Sort(KeyLe, Distinct(Map((r: Row) => key(r.usage), rows)))
  }

  function Has(key: UsageEvent -> GroupKey, k: GroupKey): Row -> bool {
    (r: Row) => key(r.usage) == k
  }

  function Group(rows: seq<Row>, key: UsageEvent -> GroupKey, k: GroupKey): seq<Row> {
    Filter(Has(key, k), rows)
  }

  datatype BreakdownRow = BreakdownRow(id: GroupKey, totals: CostTotals)

  /** GROUP BY a column of the usage event, or a bucket computed from its timestamp. */
  function Breakdown(rows: seq<Row>, key: UsageEvent -> GroupKey): seq<BreakdownRow> {
    Map(GroupTotals(rows, key), GroupKeys(rows, key))
  }

  function GroupTotals(rows: seq<Row>, key: UsageEvent -> GroupKey): GroupKey -> BreakdownRow {
    k => BreakdownRow(k, Totals(Group(rows, key, k)))
  }

  function Grand(groups: seq<BreakdownRow>): CostTotals {
    if groups == [] then CostTotals(NOTHING, 0)
    else
      var rest := Grand(groups[1..]);
      CostTotals(Plus(groups[0].totals.amounts, rest.amounts), groups[0].totals.totalRequests + rest.totalRequests)
  }

  /** The rows of a key are untouched by taking away another key's rows. */
  lemma {:induction false} GroupOfRest(rows: seq<Row>, key: UsageEvent -> GroupKey, gone: GroupKey, k: GroupKey)
    requires k != gone
    ensures Group(Filter(Negated(Has(key, gone)), rows), key, k) == Group(rows, key, k)
  {
    if rows != [] {
      GroupOfRest(rows[1..], key, gone, k);
      var rest := Filter(Negated(Has(key, gone)), rows[1..]);
      assert ([rows[0]] + rest)[1..] == rest;
    }
  }

  /** No usage event falls into two groups, because the key is read off the usage event. */
  lemma RequestsSplit(rows: seq<Row>, key: UsageEvent -> GroupKey, k: GroupKey)
    requires Joined(rows)
    ensures |RequestIds(rows)| == |RequestIds(Group(rows, key, k))| + |RequestIds(Filter(Negated(Has(key, k)), rows))|
  {
    var group, rest := Group(rows, key, k), Filter(Negated(Has(key, k)), rows);
    FilterMembers(Has(key, k), rows);
    FilterMembers(Negated(Has(key, k)), rows);
    assert RequestIds(rows) == RequestIds(group) + RequestIds(rest);
    assert RequestIds(group) !! RequestIds(rest);
  }

  lemma TotalsSplit(rows: seq<Row>, key: UsageEvent -> GroupKey, k: GroupKey)
    requires Joined(rows)
    ensures var group, rest := Totals(Group(rows, key, k)), Totals(Filter(Negated(Has(key, k)), rows));
            Totals(rows) == CostTotals(Plus(group.amounts, rest.amounts), group.totalRequests + rest.totalRequests)
  {
    SumSplits(Has(key, k), rows);
    RequestsSplit(rows, key, k);
  }

  lemma OtherGroupsUnchanged(rows: seq<Row>, key: UsageEvent -> GroupKey, keys: seq<GroupKey>)
    requires keys != [] && NoDuplicates(keys)
    ensures Map(GroupTotals(rows, key), keys)[1..]
         == Map(GroupTotals(Filter(Negated(Has(key, keys[0])), rows), key), keys[1..])
  {
    forall i | 1 <= i < |keys|
      ensures Group(Filter(Negated(Has(key, keys[0])), rows), key, keys[i]) == Group(rows, key, keys[i]) {
      GroupOfRest(rows, key, keys[0], keys[i]);
    }
  }

  /** Summing the groups of distinct keys that cover all rows gives the totals of the rows. */
  lemma {:induction false} GroupsAddUp(rows: seq<Row>, key: UsageEvent -> GroupKey, keys: seq<GroupKey>)
    requires Joined(rows) && NoDuplicates(keys)
    requires forall r :: r in rows ==> key(r.usage) in keys
    ensures Grand(Map(GroupTotals(rows, key), keys)) == Totals(rows)
    decreases |keys|
  {
    if keys == [] {
      assert forall r :: r !in rows;
      assert rows == [];
    } else {
      var rest := Filter(Negated(Has(key, keys[0])), rows);
      FilterMembers(Negated(Has(key, keys[0])), rows);
      GroupsAddUp(rest, key, keys[1..]);
      TotalsSplit(rows, key, keys[0]);
      OtherGroupsUnchanged(rows, key, keys);
    }
  }

  lemma KeyOrder()
    ensures TotalPreorder(KeyLe)
    ensures forall a, b :: KeyLe(a, b) && KeyLe(b, a) ==> a == b
  {
    TextOrder();
  }

  lemma KeysOccur(rows: seq<Row>, key: UsageEvent -> GroupKey, k: GroupKey)
    ensures k in Map((r: Row) => key(r.usage), rows) <==> exists r :: r in rows && key(r.usage) == k
  {
    var all := Map((r: Row) => key(r.usage), rows);
    if k in all {
      var i :| 0 <= i < |all| && all[i] == k;
      assert rows[i] in rows;
    }
    if r :| r in rows && key(r.usage) == k {
      var i :| 0 <= i < |rows| && rows[i] == r;
      assert all[i] == k;
    }
  }

  lemma KeysInOrder(keys: seq<GroupKey>)
    requires Sorted(KeyLe, keys)
    ensures forall i, j :: 0 <= i < j < |keys| ==> keys[i].None? || (keys[j].Some? && TextLe(keys[i].value, keys[j].value))
  {
    forall i, j | 0 <= i < j < |keys|
      ensures keys[i].None? || (keys[j].Some? && TextLe(keys[i].value, keys[j].value)) {
      assert KeyLe(keys[i], keys[j]);
    }
  }

  lemma GroupKeysAreKeys(rows: seq<Row>, key: UsageEvent -> GroupKey)
    ensures var keys := GroupKeys(rows, key);
            && NoDuplicates(keys)
            && (forall i, j :: 0 <= i < j < |keys| ==> keys[i].None? || (keys[j].Some? && TextLe(keys[i].value, keys[j].value)))
            && (forall k :: k in keys <==> exists r :: r in rows && key(r.usage) == k)
  {
    var distinct, keys := Distinct(Map((r: Row) => key(r.usage), rows)), GroupKeys(rows, key);
    DistinctMembers(Map((r: Row) => key(r.usage), rows));
    KeyOrder();
    SortSorts(KeyLe, distinct);
    SortMembers(KeyLe, distinct);
    SortPermutes(KeyLe, distinct);
    ContentsDuplicateFree(distinct, keys);
    KeysInOrder(keys);
    forall k ensures k in keys <==> exists r :: r in rows && key(r.usage) == k {
      KeysOccur(rows, key, k);
    }
  }

  lemma NoGroupIsEmpty(rows: seq<Row>, key: UsageEvent -> GroupKey, b: BreakdownRow)
    requires b in Breakdown(rows, key)
    ensures Group(rows, key, b.id) != [] && b.totals == Totals(Group(rows, key, b.id))
  {
    GroupKeysAreKeys(rows, key);
    var keys := GroupKeys(rows, key);
    var i :| 0 <= i < |keys| && Breakdown(rows, key)[i] == b;
    assert keys[i] in keys && b.id == keys[i];
    var r :| r in rows && key(r.usage) == b.id;
    FilterMembers(Has(key, b.id), rows);
    assert r in Group(rows, key, b.id);
  }

  /**
   A breakdown conserves the summary: over any dimension, with the NULL group included, and
   over any time bucketing, the groups add up field by field to the totals. Groups come in
   order, each key once, and none is empty.
   */
  lemma BreakdownConserves(costs: seq<CostEvent>, usages: map<string, UsageEvent>, visible: Row -> bool, key: UsageEvent -> GroupKey)
    ensures var rows := Filter(visible, Join(costs, usages));
            && Grand(Breakdown(rows, key)) == Totals(rows)
            && NoDuplicates(GroupKeys(rows, key)) && Sorted(KeyLe, GroupKeys(rows, key))
            && (forall b :: b in Breakdown(rows, key) ==> Group(rows, key, b.id) != [])
  {
    var rows := Filter(visible, Join(costs, usages));
    JoinIsJoined(costs, usages);
    FilterMembers(visible, Join(costs, usages));
    GroupKeysAreKeys(rows, key);
    GroupsAddUp(rows, key, GroupKeys(rows, key));
    forall b | b in Breakdown(rows, key) ensures Group(rows, key, b.id) != [] {
      NoGroupIsEmpty(rows, key, b);
    }
  }

  /** What the summary endpoint reports is what any breakdown or trend under the same scope and dates adds up to. */
  lemma BreakdownAddsUpToSummary(
    costs: seq<CostEvent>, usages: map<string, UsageEvent>, scope: Scope.AuthorizedScope,
    from: Option<int>, to: Option<int>, key: UsageEvent -> GroupKey
  )
    ensures var rows := Join(costs, usages);
            Grand(Breakdown(Filter(Visible(scope, from, to), rows), key)) == Summary(rows, scope, from, to)
  {
    BreakdownConserves(costs, usages, Visible(scope, from, to), key);
  }

  // ---- budget spend

  datatype ScopeSpend = ScopeSpend(actualCost: real, estimatedCost: real, unavailableCostEvents: int)

  const NO_SPEND := ScopeSpend(0.0, 0.0, 0)

  function PlusSpend(a: ScopeSpend, b: ScopeSpend): ScopeSpend {
    ScopeSpend(a.actualCost + b.actualCost, a.estimatedCost + b.estimatedCost, a.unavailableCostEvents + b.unavailableCostEvents)
  }

  /** The column a scope type matches; ENTERPRISE and anything unlisted match the whole tenant. */
  predicate AgainstScope(u: UsageEvent, tenantId: string, scopeType: string, scopeId: string) {
    && u.tenantId == Some(tenantId)
    && match scopeType {
         case "TENANT" => u.tenantId == Some(scopeId)
         case "PLANT" => u.plantId == Some(scopeId)
         case "DEPARTMENT" => u.departmentId == Some(scopeId)
         case "WORKLOAD" => u.workloadId == Some(scopeId)
         case "AGENT" => u.agentId == Some(scopeId)
         case "MODEL" => u.modelId == Some(scopeId)
         case _ => true
       }
  }

  datatype BudgetScope = BudgetScope(tenantId: string, scopeType: string, scopeId: string)

  function Against(b: BudgetScope): Row -> bool {
    (r: Row) => AgainstScope(r.usage, b.tenantId, b.scopeType, b.scopeId)
  }

  /** Both bounds are inclusive. */
  function Between(inScope: Row -> bool, from: int, to: int): Row -> bool {
    (r: Row) => inScope(r) && from <= r.usage.timestamp <= to
  }

  function Spend(a: Amounts): ScopeSpend {
    ScopeSpend(a.actualCost, a.estimatedCost, a.unavailableCostEvents)
  }

  function SpendBetween(rows: seq<Row>, inScope: Row -> bool, from: int, to: int): ScopeSpend {
    Spend(Sum(Filter(Between(inScope, from, to), rows)))
  }

  function SpendForScope(rows: seq<Row>, b: BudgetScope, from: int, to: int): ScopeSpend {
    SpendBetween(rows, Against(b), from, to)
  }

  lemma {:induction false} FilterTwice(p: Row -> bool, q: Row -> bool, both: Row -> bool, rows: seq<Row>)
    requires forall r :: both(r) <==> p(r) && q(r)
    ensures Filter(q, Filter(p, rows)) == Filter(both, rows)
  {
    if rows != [] {
      FilterTwice(p, q, both, rows[1..]);
      assert ([rows[0]] + Filter(p, rows[1..]))[1..] == Filter(p, rows[1..]);
    }
  }

  /** Spend over adjoining intervals adds up: the microsecond between the inclusive bounds loses and repeats nothing. */
  lemma SpendAdjoins(rows: seq<Row>, inScope: Row -> bool, from: int, middle: int, to: int)
    requires from <= middle + 1 <= to + 1
    ensures SpendBetween(rows, inScope, from, to)
         == PlusSpend(SpendBetween(rows, inScope, from, middle), SpendBetween(rows, inScope, middle + 1, to))
  {
    var whole := Filter(Between(inScope, from, to), rows);
    var early := (r: Row) => r.usage.timestamp <= middle;
    SumSplits(early, whole);
    FilterTwice(Between(inScope, from, to), early, Between(inScope, from, middle), rows);
    FilterTwice(Between(inScope, from, to), Negated(early), Between(inScope, middle + 1, to), rows);
  }

  // ---- spend is conserved across periods

  /** Spend measured over an interval with inclusive bounds, adding up over adjoining intervals. */
  ghost predicate Additive(spend: (int, int) -> ScopeSpend) {
    forall from, middle, next, to :: next == middle + 1 && from <= next <= to + 1 ==>
      spend(from, to) == PlusSpend(spend(from, middle), spend(next, to))
  }

  function WindowsSpend(spend: (int, int) -> ScopeSpend, windows: seq<Calendar.Window>): ScopeSpend {
    if windows == [] then NO_SPEND
    else
      var last := windows[|windows| - 1];
      PlusSpend(WindowsSpend(spend, windows[..|windows| - 1]), spend(last.start, last.end))
  }

  /** Windows that follow one another without a gap. */
  ghost predicate Adjoining(windows: seq<Calendar.Window>) {
    && (forall i :: 0 <= i < |windows| ==> windows[i].start <= windows[i].end + 1)
    && forall i :: 0 <= i < |windows| - 1 ==> windows[i + 1].start == windows[i].end + 1
  }

  lemma {:induction false} AdjoiningWindowsAddUp(spend: (int, int) -> ScopeSpend, windows: seq<Calendar.Window>)
    requires Additive(spend)
    requires windows != [] && Adjoining(windows)
    ensures windows[0].start <= windows[|windows| - 1].end + 1
    ensures WindowsSpend(spend, windows) == spend(windows[0].start, windows[|windows| - 1].end)
  {
    var n := |windows| - 1;
    if n == 0 {
      assert windows[..0] == [];
    } else {
      AdjoiningWindowsAddUp(spend, windows[..n]);
      assert windows[n - 1 + 1].start == windows[n - 1].end + 1;
    }
  }

  function SpendOver(rows: seq<Row>, b: BudgetScope): (int, int) -> ScopeSpend {
    (from, to) => SpendForScope(rows, b, from, to)
  }

  lemma SpendIsAdditive(rows: seq<Row>, b: BudgetScope)
    ensures Additive(SpendOver(rows, b))
  {
    var spend := SpendOver(rows, b);
    forall from, middle, next, to | next == middle + 1 && from <= next <= to + 1
      ensures spend(from, to) == PlusSpend(spend(from, middle), spend(next, to)) {
      SpendAdjoins(rows, Against(b), from, middle, to);
    }
  }

  function PeriodSpend(rows: seq<Row>, b: BudgetScope, period: Calendar.Period, now: Calendar.Moment): ScopeSpend
    requires now.Valid() && Calendar.PeriodWindow(period, now).Ok?
  {
    var w := Calendar.PeriodWindow(period, now).value;
    SpendForScope(rows, b, w.start, w.end)
  }

  ghost predicate Measurable(period: Calendar.Period, moments: seq<Calendar.Moment>) {
    forall i :: 0 <= i < |moments| ==> moments[i].Valid() && Calendar.PeriodWindow(period, moments[i]).Ok?
  }

  ghost function WindowsOf(period: Calendar.Period, moments: seq<Calendar.Moment>): seq<Calendar.Window>
    requires Measurable(period, moments)
  {
    seq(|moments|, i requires 0 <= i < |moments| => Calendar.PeriodWindow(period, moments[i]).value)
  }

  /** The spend of several periods, one per moment. */
  ghost function ChainSpend(rows: seq<Row>, b: BudgetScope, period: Calendar.Period, moments: seq<Calendar.Moment>): ScopeSpend
    requires Measurable(period, moments)
  {
    WindowsSpend(SpendOver(rows, b), WindowsOf(period, moments))
  }

  /** Each moment starts the period after the one before. */
  ghost predicate Chain(period: Calendar.Period, moments: seq<Calendar.Moment>) {
    && moments != []
    && Measurable(period, moments)
    && forall i :: 0 <= i < |moments| - 1 ==> moments[i + 1] == Calendar.NextStart(period, moments[i])
  }

  lemma ChainAdjoins(period: Calendar.Period, moments: seq<Calendar.Moment>)
    requires Chain(period, moments)
    ensures Adjoining(WindowsOf(period, moments))
  {
    var windows := WindowsOf(period, moments);
    forall i | 0 <= i < |windows| ensures windows[i].start <= windows[i].end + 1 {
      Calendar.WindowIsPeriod(period, moments[i], moments[i]);
    }
    forall i | 0 <= i < |windows| - 1 ensures windows[i + 1].start == windows[i].end + 1 {
      assert moments[i + 1] == Calendar.NextStart(period, moments[i]);
      Calendar.WindowsTouch(period, moments[i]);
    }
  }

  /** The spend of consecutive periods is the spend from the start of the first to the end of the last. */
  lemma ChainAddsUp(rows: seq<Row>, b: BudgetScope, period: Calendar.Period, moments: seq<Calendar.Moment>)
    requires Chain(period, moments)
    ensures ChainSpend(rows, b, period, moments)
         == SpendForScope(rows, b, WindowsOf(period, moments)[0].start, WindowsOf(period, moments)[|moments| - 1].end)
  {
    ChainAdjoins(period, moments);
    SpendIsAdditive(rows, b);
    AdjoiningWindowsAddUp(SpendOver(rows, b), WindowsOf(period, moments));
  }

  function DaysOfMonth(now: Calendar.Moment): seq<Calendar.Moment> {
    seq(Calendar.DaysIn(now.year, now.month), i => Calendar.Moment(now.year, now.month, i + 1, 0))
  }

  function MonthsFrom(year: int, first: int, count: nat): seq<Calendar.Moment> {
    seq(count, i => Calendar.Moment(year, first + i, 1, 0))
  }

  function QuartersOf(year: int): seq<Calendar.Moment> {
    seq(4, i => Calendar.Moment(year, 3 * i + 1, 1, 0))
  }

  /** The parts chain together, from the whole's start to its end. */
  ghost predicate Partitions(
    part: Calendar.Period, moments: seq<Calendar.Moment>, whole: Calendar.Period, now: Calendar.Moment
  )
    requires now.Valid() && Calendar.PeriodWindow(whole, now).Ok?
  {
    && Chain(part, moments)
    && WindowsOf(part, moments)[0].start == Calendar.PeriodWindow(whole, now).value.start
    && WindowsOf(part, moments)[|moments| - 1].end == Calendar.PeriodWindow(whole, now).value.end
  }

  lemma DaysPartitionMonth(now: Calendar.Moment)
    requires now.Valid() && Calendar.PeriodWindow(Calendar.Monthly, now).Ok?
    ensures Partitions(Calendar.Daily, DaysOfMonth(now), Calendar.Monthly, now)
  {
    var days := DaysOfMonth(now);
    forall i | 0 <= i < |days| ensures days[i].Valid() && Calendar.PeriodWindow(Calendar.Daily, days[i]).Ok? {
      Calendar.WindowFailsExactlyWhen(Calendar.Daily, days[i]);
    }
  }

  lemma MonthsChain(year: int, first: int, count: nat)
    requires 1 <= year <= Calendar.MAX_YEAR && 1 <= first && 1 <= count && first + count <= 13
    requires !(year == Calendar.MAX_YEAR && first + count == 13)
    ensures Chain(Calendar.Monthly, MonthsFrom(year, first, count))
  {
    var months := MonthsFrom(year, first, count);
    forall i | 0 <= i < |months| ensures months[i].Valid() && Calendar.PeriodWindow(Calendar.Monthly, months[i]).Ok? {
      Calendar.WindowFailsExactlyWhen(Calendar.Monthly, months[i]);
    }
  }

  lemma MonthsPartitionQuarter(now: Calendar.Moment)
    requires now.Valid() && Calendar.PeriodWindow(Calendar.Quarterly, now).Ok?
    ensures Partitions(Calendar.Monthly, MonthsFrom(now.year, Calendar.FirstMonth(now), 3), Calendar.Quarterly, now)
  {
    MonthsChain(now.year, Calendar.FirstMonth(now), 3);
  }

  lemma MonthsPartitionYear(now: Calendar.Moment)
    requires now.Valid() && Calendar.PeriodWindow(Calendar.Annual, now).Ok?
    ensures Partitions(Calendar.Monthly, MonthsFrom(now.year, 1, 12), Calendar.Annual, now)
  {
    MonthsChain(now.year, 1, 12);
    Calendar.WindowIsDaySpan(Calendar.Monthly, Calendar.Moment(now.year, 12, 1, 0));
    Calendar.WindowIsDaySpan(Calendar.Annual, now);
    Calendar.YearFollowsYear(now.year);
  }

  lemma QuarterBegins(year: int, i: nat)
    requires 1 <= year < Calendar.MAX_YEAR && i < 4
    ensures var m := Calendar.Moment(year, 3 * i + 1, 1, 0);
            && m.Valid() && Calendar.PeriodWindow(Calendar.Quarterly, m).Ok?
            && (i < 3 ==> Calendar.NextStart(Calendar.Quarterly, m) == Calendar.Moment(year, 3 * (i + 1) + 1, 1, 0))
  {
    Calendar.WindowFailsExactlyWhen(Calendar.Quarterly, Calendar.Moment(year, 3 * i + 1, 1, 0));
  }

  lemma QuartersChain(year: int)
    requires 1 <= year < Calendar.MAX_YEAR
    ensures Chain(Calendar.Quarterly, QuartersOf(year))
  {
    var quarters := QuartersOf(year);
    forall i | 0 <= i < 4
      ensures quarters[i].Valid() && Calendar.PeriodWindow(Calendar.Quarterly, quarters[i]).Ok?
      ensures i < 3 ==> quarters[i + 1] == Calendar.NextStart(Calendar.Quarterly, quarters[i]) {
      QuarterBegins(year, i);
    }
  }

  lemma FirstQuarterStartsYear(now: Calendar.Moment)
    requires now.Valid() && now.year < Calendar.MAX_YEAR
    ensures var first := Calendar.Moment(now.year, 1, 1, 0);
            && first.Valid() && Calendar.PeriodWindow(Calendar.Quarterly, first).Ok? && Calendar.PeriodWindow(Calendar.Annual, now).Ok?
            && Calendar.PeriodWindow(Calendar.Quarterly, first).value.start == Calendar.PeriodWindow(Calendar.Annual, now).value.start
  {
    assert Calendar.FirstMonth(Calendar.Moment(now.year, 1, 1, 0)) == 1;
  }

  lemma LastQuarterEndsYear(now: Calendar.Moment)
    requires now.Valid() && now.year < Calendar.MAX_YEAR
    ensures var last := Calendar.Moment(now.year, 10, 1, 0);
            && last.Valid() && Calendar.PeriodWindow(Calendar.Quarterly, last).Ok? && Calendar.PeriodWindow(Calendar.Annual, now).Ok?
            && Calendar.PeriodWindow(Calendar.Quarterly, last).value.end == Calendar.PeriodWindow(Calendar.Annual, now).value.end
  {
    var last := Calendar.Moment(now.year, 10, 1, 0);
    Calendar.WindowFailsExactlyWhen(Calendar.Quarterly, last);
    Calendar.WindowFailsExactlyWhen(Calendar.Annual, now);
    Calendar.WindowIsDaySpan(Calendar.Quarterly, last);
    Calendar.WindowIsDaySpan(Calendar.Annual, now);
    Calendar.FourthQuarterSpan(now);
  }

  lemma QuartersPartitionYear(now: Calendar.Moment)
    requires now.Valid() && Calendar.PeriodWindow(Calendar.Annual, now).Ok?
    ensures Partitions(Calendar.Quarterly, QuartersOf(now.year), Calendar.Annual, now)
  {
    QuartersChain(now.year);
    FirstQuarterStartsYear(now);
    LastQuarterEndsYear(now);
    ChainEnds(Calendar.Quarterly, QuartersOf(now.year));
  }

  lemma ChainEnds(part: Calendar.Period, moments: seq<Calendar.Moment>)
    requires Chain(part, moments)
    ensures var n := |moments| - 1;
            && WindowsOf(part, moments)[0] == Calendar.PeriodWindow(part, moments[0]).value
            && WindowsOf(part, moments)[n] == Calendar.PeriodWindow(part, moments[n]).value
  {
  }

  lemma PartsConserve(
    rows: seq<Row>, b: BudgetScope, part: Calendar.Period, moments: seq<Calendar.Moment>, whole: Calendar.Period, now: Calendar.Moment
  )
    requires now.Valid() && Calendar.PeriodWindow(whole, now).Ok?
    requires Partitions(part, moments, whole, now)
    ensures Measurable(part, moments) && ChainSpend(rows, b, part, moments) == PeriodSpend(rows, b, whole, now)
  {
    ChainAddsUp(rows, b, part, moments);
  }

  /**
   Spend is conserved across periods: for any events and any budget scope, the days of a month
   add up to the month although both bounds of every window are inclusive.
   */
  lemma MonthIsItsDays(rows: seq<Row>, b: BudgetScope, now: Calendar.Moment)
    requires now.Valid() && Calendar.PeriodWindow(Calendar.Monthly, now).Ok?
    ensures Measurable(Calendar.Daily, DaysOfMonth(now))
    ensures ChainSpend(rows, b, Calendar.Daily, DaysOfMonth(now)) == PeriodSpend(rows, b, Calendar.Monthly, now)
  {
    DaysPartitionMonth(now);
    PartsConserve(rows, b, Calendar.Daily, DaysOfMonth(now), Calendar.Monthly, now);
  }

  lemma QuarterIsItsMonths(rows: seq<Row>, b: BudgetScope, now: Calendar.Moment)
    requires now.Valid() && Calendar.PeriodWindow(Calendar.Quarterly, now).Ok?
    ensures Measurable(Calendar.Monthly, MonthsFrom(now.year, Calendar.FirstMonth(now), 3))
    ensures ChainSpend(rows, b, Calendar.Monthly, MonthsFrom(now.year, Calendar.FirstMonth(now), 3))
         == PeriodSpend(rows, b, Calendar.Quarterly, now)
  {
    MonthsPartitionQuarter(now);
    PartsConserve(rows, b, Calendar.Monthly, MonthsFrom(now.year, Calendar.FirstMonth(now), 3), Calendar.Quarterly, now);
  }

  lemma YearIsItsMonthsAndQuarters(rows: seq<Row>, b: BudgetScope, now: Calendar.Moment)
    requires now.Valid() && Calendar.PeriodWindow(Calendar.Annual, now).Ok?
    ensures Measurable(Calendar.Monthly, MonthsFrom(now.year, 1, 12)) && Measurable(Calendar.Quarterly, QuartersOf(now.year))
    ensures ChainSpend(rows, b, Calendar.Monthly, MonthsFrom(now.year, 1, 12)) == PeriodSpend(rows, b, Calendar.Annual, now)
    ensures ChainSpend(rows, b, Calendar.Quarterly, QuartersOf(now.year)) == PeriodSpend(rows, b, Calendar.Annual, now)
  {
    MonthsPartitionYear(now);
    QuartersPartitionYear(now);
    PartsConserve(rows, b, Calendar.Monthly, MonthsFrom(now.year, 1, 12), Calendar.Annual, now);
    PartsConserve(rows, b, Calendar.Quarterly, QuartersOf(now.year), Calendar.Annual, now);
  }
}
