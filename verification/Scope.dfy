/**
 Which records a caller may see. The relation is coded four times: a record-level check,
 a resolved scope with its own `covers`, the WHERE clause generated from that scope, and the
 context guard's loop. This module states that the four are one relation, and that filters
 supplied by a client intersect it and never widen it.
 */
module Scope {
  import opened Wrappers
  import opened Ordering
  import opened Principals

  /** CrossTenant is reported as 404, Forbidden as 403. */
  datatype AccessError = CrossTenant | Forbidden

  /** One branch; a level left out is not constrained. */
  datatype ScopeConstraint = ScopeConstraint(tenantId: string, plantId: Option<string>, departmentId: Option<string>) {
    predicate Covers(resource: ResourceScope) {
      && resource.tenantId == tenantId
      && (plantId.None? || resource.plantId == plantId)
      && (departmentId.None? || resource.departmentId == departmentId)
    }

    predicate IsTenantWide() {
      plantId.None? && departmentId.None?
    }
  }

  /** A disjunction of branches; a scope with none is never built. */
  datatype AuthorizedScope = AuthorizedScope(tenantId: string, branches: seq<ScopeConstraint>) {
    predicate Covers(resource: ResourceScope) {
      exists b :: b in branches && b.Covers(resource)
    }

    ghost predicate Valid() {
      branches != [] && forall b :: b in branches ==> b.tenantId == tenantId
    }
  }

  function Collect<A, B>(f: A -> Option<B>, s: seq<A>): seq<B> {
    if s == [] then []
    else match f(s[0]) {
      case Some(b) => [b] + Collect(f, s[1..])
      case None => Collect(f, s[1..])
    }
  }

  lemma {:induction false} CollectMembers<A, B>(f: A -> Option<B>, s: seq<A>)
    ensures forall b :: b in Collect(f, s) <==> exists a :: a in s && f(a) == Some(b)
  {
    if s != [] {
      CollectMembers(f, s[1..]);
      assert s == [s[0]] + s[1..];
    }
  }

  lemma {:induction false} CollectStep<A, B>(f: A -> Option<B>, s: seq<A>, i: nat)
    requires i < |s|
    ensures Collect(f, s[..i + 1]) == Collect(f, s[..i]) + Collect(f, [s[i]])
  {
    if i == 0 {
      assert s[..1] == [s[0]];
    } else {
      var t := s[1..];
      CollectStep(f, t, i - 1);
      assert s[..i + 1][1..] == t[..i] && s[..i][1..] == t[..i - 1];
      assert s[..i + 1][0] == s[0] == s[..i][0];
    }
  }

  // ---- record-level check

  predicate AssignmentCovers(a: RoleAssignment, resource: ResourceScope) {
    match a.scopeType
    case TenantScope => a.scopeId == resource.tenantId
    case PlantScope => resource.plantId == Some(a.scopeId)
    case DepartmentScope => resource.departmentId == Some(a.scopeId)
  }

  function AuthorizeResourcePermission(
    principal: Principal, resource: ResourceScope, permission: Permission
  ): Result<(), AccessError> {
    if resource.tenantId != principal.tenantId then Err(CrossTenant)
    else if !HasPermission(principal, permission) then Err(Forbidden)
    else if exists a :: a in AssignmentsGranting(principal, permission) && AssignmentCovers(a, resource) then Ok(())
    else Err(Forbidden)
  }

  // ---- client filters

  function AtPlant(b: ScopeConstraint, plant: string): Option<ScopeConstraint> {
    if b.plantId.None? then Some(b.(plantId := Some(plant)))
    else if b.plantId == Some(plant) then Some(b)
    else None
  }

  function AtDepartment(b: ScopeConstraint, department: string): Option<ScopeConstraint> {
    if b.departmentId.None? then Some(b.(departmentId := Some(department)))
    else if b.departmentId == Some(department) then Some(b)
    else None
  }

  function Narrowed(scope: AuthorizedScope, f: ScopeConstraint -> Option<ScopeConstraint>): Result<AuthorizedScope, AccessError> {
    var kept := Collect(f, scope.branches);
    if kept == [] then Err(Forbidden) else Ok(AuthorizedScope(scope.tenantId, kept))
  }

  function NarrowPlant(scope: AuthorizedScope, plant: Option<string>): Result<AuthorizedScope, AccessError> {
    match plant
    case None => Ok(scope)
    case Some(p) => Narrowed(scope, b => AtPlant(b, p))
  }

  function NarrowDepartment(scope: AuthorizedScope, department: Option<string>): Result<AuthorizedScope, AccessError> {
    match department
    case None => Ok(scope)
    case Some(d) => Narrowed(scope, b => AtDepartment(b, d))
  }

  /** Plant first, as resolution does it. */
  function NarrowBoth(scope: AuthorizedScope, plant: Option<string>, department: Option<string>): Result<AuthorizedScope, AccessError> {
    match NarrowPlant(scope, plant)
    case Err(e) => Err(e)
    case Ok(inPlant) => NarrowDepartment(inPlant, department)
  }

  method NarrowedToPlant(scope: AuthorizedScope, plant: string) returns (r: Result<AuthorizedScope, AccessError>)
    ensures r == NarrowPlant(scope, Some(plant))
  {
    var narrowed: seq<ScopeConstraint> := [];
    ghost var f := b => AtPlant(b, plant);
    for i := 0 to |scope.branches|
      invariant narrowed == Collect(f, scope.branches[..i])
    {
      var branch := scope.branches[i];
      CollectStep(f, scope.branches, i);
      if branch.plantId.None? {
        narrowed := narrowed + [ScopeConstraint(branch.tenantId, Some(plant), branch.departmentId)];
      } else if branch.plantId == Some(plant) {
        narrowed := narrowed + [branch];
      }
    }
    assert scope.branches[..|scope.branches|] == scope.branches;
    r := if narrowed == [] then Err(Forbidden) else Ok(AuthorizedScope(scope.tenantId, narrowed));
  }

  method NarrowedToDepartment(scope: AuthorizedScope, department: string) returns (r: Result<AuthorizedScope, AccessError>)
    ensures r == NarrowDepartment(scope, Some(department))
  {
    var narrowed: seq<ScopeConstraint> := [];
    ghost var f := b => AtDepartment(b, department);
    for i := 0 to |scope.branches|
      invariant narrowed == Collect(f, scope.branches[..i])
    {
      var branch := scope.branches[i];
      CollectStep(f, scope.branches, i);
      if branch.departmentId.None? {
        narrowed := narrowed + [ScopeConstraint(branch.tenantId, branch.plantId, Some(department))];
      } else if branch.departmentId == Some(department) {
        narrowed := narrowed + [branch];
      }
    }
    assert scope.branches[..|scope.branches|] == scope.branches;
    r := if narrowed == [] then Err(Forbidden) else Ok(AuthorizedScope(scope.tenantId, narrowed));
  }

  // ---- resolution

  /** The branch an assignment contributes; tenant scope over another tenant contributes none. */
  function BranchOf(tenant: string, a: RoleAssignment): Option<ScopeConstraint> {
    match a.scopeType
    case TenantScope => if a.scopeId == tenant then Some(ScopeConstraint(tenant, None, None)) else None
    case PlantScope => Some(ScopeConstraint(tenant, Some(a.scopeId), None))
    case DepartmentScope => Some(ScopeConstraint(tenant, None, Some(a.scopeId)))
  }

  predicate AnyTenantWide(branches: seq<ScopeConstraint>) {
    exists b :: b in branches && b.IsTenantWide()
  }

  function UnfilteredScope(principal: Principal, permission: Permission): Result<AuthorizedScope, AccessError> {
    var tenant := principal.tenantId;
    var branches := Collect(a => BranchOf(tenant, a), AssignmentsGranting(principal, permission));
    if branches == [] then Err(Forbidden)
    else if AnyTenantWide(branches)
    then Ok(AuthorizedScope(tenant, [ScopeConstraint(tenant, None, None)]))
    else Ok(AuthorizedScope(tenant, Distinct(branches)))
  }

  function ResolveScope(
    principal: Principal, permission: Permission,
    tenant: Option<string>, plant: Option<string>, department: Option<string>
  ): Result<AuthorizedScope, AccessError> {
    if tenant.Some? && tenant.value != principal.tenantId then Err(CrossTenant)
    else match UnfilteredScope(principal, permission) {
      case Err(e) => Err(e)
      case Ok(scope) => NarrowBoth(scope, plant, department)
    }
  }

  method BranchesOf(tenant: string, grants: seq<RoleAssignment>) returns (branches: seq<ScopeConstraint>)
    ensures branches == Collect(a => BranchOf(tenant, a), grants)
  {
    branches := [];
    ghost var f := a => BranchOf(tenant, a);
    for i := 0 to |grants|
      invariant branches == Collect(f, grants[..i])
    {
      CollectStep(f, grants, i);
      var scopeId := grants[i].scopeId;
      match grants[i].scopeType {
        case TenantScope =>
          if scopeId == tenant {
            branches := branches + [ScopeConstraint(tenant, None, None)];
          }
        case PlantScope => branches := branches + [ScopeConstraint(tenant, Some(scopeId), None)];
        case DepartmentScope => branches := branches + [ScopeConstraint(tenant, None, Some(scopeId))];
      }
    }
    assert grants[..|grants|] == grants;
  }

  method ResolveUnfiltered(principal: Principal, permission: Permission) returns (r: Result<AuthorizedScope, AccessError>)
    ensures r == UnfilteredScope(principal, permission)
  {
    var grants := AssignmentsGranting(principal, permission);
    if grants == [] {
      return Err(Forbidden);
    }
    var branches := BranchesOf(principal.tenantId, grants);
    if branches == [] {
      return Err(Forbidden);
    }
    if AnyTenantWide(branches) {
      branches := [ScopeConstraint(principal.tenantId, None, None)];
      DistinctSingleton(branches[0]);
    }
    return Ok(AuthorizedScope(principal.tenantId, Distinct(branches)));
  }

  method ResolveAuthorizedScope(
    principal: Principal, permission: Permission,
    tenant: Option<string>, plant: Option<string>, department: Option<string>
  ) returns (r: Result<AuthorizedScope, AccessError>)
    ensures r == ResolveScope(principal, permission, tenant, plant, department)
  {
    if tenant.Some? && tenant.value != principal.tenantId {
      return Err(CrossTenant);
    }
    r := ResolveUnfiltered(principal, permission);
    if r.Ok? && plant.Some? {
      r := NarrowedToPlant(r.value, plant.value);
    }
    if r.Ok? && department.Some? {
      r := NarrowedToDepartment(r.value, department.value);
    }
  }

  // ---- the generated WHERE clause, under SQL's three-valued logic

  datatype Truth = True | False | Unknown

  datatype Column = TenantColumn | PlantColumn | DepartmentColumn

  datatype OwnershipRow = OwnershipRow(tenantId: Option<string>, plantId: Option<string>, departmentId: Option<string>) {
    function At(c: Column): Option<string> {
      match c
      case TenantColumn => tenantId
      case PlantColumn => plantId
      case DepartmentColumn => departmentId
    }
  }

  datatype Sql = Equals(column: Column, literal: string) | And(left: Sql, right: Sql) | Or(args: seq<Sql>)

  function And3(a: Truth, b: Truth): Truth {
    if a == False || b == False then False else if a == Unknown || b == Unknown then Unknown else True
  }

  function Or3(a: Truth, b: Truth): Truth {
    if a == True || b == True then True else if a == Unknown || b == Unknown then Unknown else False
  }

  /** Comparing a NULL column yields UNKNOWN; WHERE keeps a row only on TRUE. */
  function Eval(e: Sql, row: OwnershipRow): Truth {
    match e
    case Equals(c, literal) =>
      (match row.At(c) case None => Unknown case Some(v) => if v == literal then True else False)
    case And(l, r) => And3(Eval(l, row), Eval(r, row))
    case Or(args) => EvalAny(args, row)
  }

  function EvalAny(args: seq<Sql>, row: OwnershipRow): Truth {
    if args == [] then False else Or3(Eval(args[0], row), EvalAny(args[1..], row))
  }

  lemma {:induction false} EvalAnyTrue(args: seq<Sql>, row: OwnershipRow)
    ensures EvalAny(args, row) == True <==> exists e :: e in args && Eval(e, row) == True
  {
    if args != [] {
      EvalAnyTrue(args[1..], row);
      assert EvalAny(args, row) == Or3(Eval(args[0], row), EvalAny(args[1..], row));
      assert forall e :: e in args <==> e == args[0] || e in args[1..];
    }
  }

  /** None for the tenant-wide branch, which makes the whole disjunction collapse. */
  function BranchPredicate(b: ScopeConstraint): Option<Sql> {
    match (b.plantId, b.departmentId)
    case (Some(p), Some(d)) => Some(And(Equals(PlantColumn, p), Equals(DepartmentColumn, d)))
    case (Some(p), None) => Some(Equals(PlantColumn, p))
    case (None, Some(d)) => Some(Equals(DepartmentColumn, d))
    case (None, None) => None
  }

  function ScopePredicate(scope: AuthorizedScope): Sql {
    var tenant := Equals(TenantColumn, scope.tenantId);
    if AnyTenantWide(scope.branches) then tenant
    else And(tenant, Or(Collect(BranchPredicate, scope.branches)))
  }

  method AuthorizedScopeFilter(scope: AuthorizedScope) returns (predicate_: Sql)
    ensures predicate_ == ScopePredicate(scope)
  {
    var branchPredicates: seq<Sql> := [];
    for i := 0 to |scope.branches|
      invariant branchPredicates == Collect(BranchPredicate, scope.branches[..i])
      invariant forall j :: 0 <= j < i ==> !scope.branches[j].IsTenantWide()
    {
      var branch := scope.branches[i];
      var conditions: seq<Sql> := [];
      if branch.plantId.Some? {
        conditions := conditions + [Equals(PlantColumn, branch.plantId.value)];
      }
      if branch.departmentId.Some? {
        conditions := conditions + [Equals(DepartmentColumn, branch.departmentId.value)];
      }
      if conditions == [] {
        assert branch in scope.branches && branch.IsTenantWide();
        return Equals(TenantColumn, scope.tenantId);
      }
      var conjunction := conditions[0];
      for k := 1 to |conditions|
        invariant conjunction == if k == 1 then conditions[0] else And(conditions[0], conditions[1])
      {
        conjunction := And(conjunction, conditions[k]);
      }
      CollectStep(BranchPredicate, scope.branches, i);
      branchPredicates := branchPredicates + [conjunction];
    }
    assert scope.branches[..|scope.branches|] == scope.branches;
    predicate_ := And(Equals(TenantColumn, scope.tenantId), Or(branchPredicates));
  }

  // ---- the context guard's own coding

  predicate WithinScope(fragment: ResourceScope, authorized: AuthorizedScope) {
    && fragment.tenantId == authorized.tenantId
    && exists b :: b in authorized.branches
         && (b.plantId.None? || b.plantId == fragment.plantId)
         && (b.departmentId.None? || b.departmentId == fragment.departmentId)
  }

  // ---- the four codings agree

  lemma ResolvedScopeShape(principal: Principal, permission: Permission)
    requires UnfilteredScope(principal, permission).Ok?
    ensures var scope := UnfilteredScope(principal, permission).value;
            && scope.Valid()
            && scope.tenantId == principal.tenantId
            && (forall b :: b in scope.branches && b.IsTenantWide() ==> scope.branches == [b])
            && (forall b :: b in scope.branches ==> b.plantId.None? || b.departmentId.None?)
  {
    var f := a => BranchOf(principal.tenantId, a);
    var grants := AssignmentsGranting(principal, permission);
    var branches := Collect(f, grants);
    CollectMembers(f, grants);
    DistinctMembers(branches);
    assert branches[0] in branches;
  }

  /** A branch covers a record of its own tenant exactly when the assignment behind it does. */
  lemma BranchMirrorsAssignment(tenant: string, a: RoleAssignment, resource: ResourceScope)
    requires resource.tenantId == tenant
    ensures AssignmentCovers(a, resource) <==> BranchOf(tenant, a).Some? && BranchOf(tenant, a).value.Covers(resource)
  {
  }

  lemma GrantsMirrorBranches(tenant: string, grants: seq<RoleAssignment>, resource: ResourceScope)
    requires resource.tenantId == tenant
    ensures (exists a :: a in grants && AssignmentCovers(a, resource))
       <==> exists b :: b in Collect(a => BranchOf(tenant, a), grants) && b.Covers(resource)
  {
    var f := a => BranchOf(tenant, a);
    CollectMembers(f, grants);
    if a :| a in grants && AssignmentCovers(a, resource) {
      BranchMirrorsAssignment(tenant, a, resource);
      assert f(a) == Some(BranchOf(tenant, a).value);
      assert BranchOf(tenant, a).value in Collect(f, grants);
    }
    if b: ScopeConstraint :| b in Collect(f, grants) && b.Covers(resource) {
      var a :| a in grants && f(a) == Some(b);
      BranchMirrorsAssignment(tenant, a, resource);
    }
  }

  /** Dropping duplicates, or everything but a tenant-wide branch, leaves coverage unchanged. */
  lemma SimplifyingKeepsCoverage(principal: Principal, permission: Permission, resource: ResourceScope)
    requires resource.tenantId == principal.tenantId
    requires UnfilteredScope(principal, permission).Ok?
    ensures UnfilteredScope(principal, permission).value.Covers(resource)
       <==> exists b :: b in Collect(a => BranchOf(principal.tenantId, a), AssignmentsGranting(principal, permission)) && b.Covers(resource)
  {
    var tenant := principal.tenantId;
    var branches := Collect(a => BranchOf(tenant, a), AssignmentsGranting(principal, permission));
    CollectMembers(a => BranchOf(tenant, a), AssignmentsGranting(principal, permission));
    DistinctMembers(branches);
    if AnyTenantWide(branches) {
      var b :| b in branches && b.IsTenantWide();
      assert b.Covers(resource);
      var wide := ScopeConstraint(tenant, None, None);
      assert wide in [wide] && wide.Covers(resource);
    }
  }

  /** The record check accepts a record exactly when a scope resolves and covers it. */
  lemma RecordCheckIsCoverage(principal: Principal, permission: Permission, resource: ResourceScope)
    ensures AuthorizeResourcePermission(principal, resource, permission).Ok?
       <==> (var s := UnfilteredScope(principal, permission); s.Ok? && s.value.Covers(resource))
  {
    var s := UnfilteredScope(principal, permission);
    if resource.tenantId == principal.tenantId {
      HoldingMeansGranting(principal, permission);
      GrantsMirrorBranches(principal.tenantId, AssignmentsGranting(principal, permission), resource);
      if s.Ok? {
        SimplifyingKeepsCoverage(principal, permission, resource);
      }
    } else if s.Ok? {
      ResolvedScopeShape(principal, permission);
    }
  }

  lemma BranchPredicateIsCoverage(b: ScopeConstraint, row: OwnershipRow)
    requires row.tenantId == Some(b.tenantId)
    requires !b.IsTenantWide()
    ensures BranchPredicate(b).Some?
    ensures Eval(BranchPredicate(b).value, row) == True
       <==> b.Covers(ResourceScope(b.tenantId, row.plantId, row.departmentId))
  {
  }

  lemma DisjunctionIsCoverage(scope: AuthorizedScope, row: OwnershipRow)
    requires scope.Valid()
    requires !AnyTenantWide(scope.branches)
    requires row.tenantId == Some(scope.tenantId)
    ensures EvalAny(Collect(BranchPredicate, scope.branches), row) == True
       <==> scope.Covers(ResourceScope(scope.tenantId, row.plantId, row.departmentId))
  {
    var preds := Collect(BranchPredicate, scope.branches);
    var r := ResourceScope(scope.tenantId, row.plantId, row.departmentId);
    CollectMembers(BranchPredicate, scope.branches);
    EvalAnyTrue(preds, row);
    if scope.Covers(r) {
      var b :| b in scope.branches && b.Covers(r);
      BranchPredicateIsCoverage(b, row);
      assert BranchPredicate(b).value in preds;
    }
    if EvalAny(preds, row) == True {
      var e :| e in preds && Eval(e, row) == True;
      var b :| b in scope.branches && BranchPredicate(b) == Some(e);
      BranchPredicateIsCoverage(b, row);
    }
  }

  /** The WHERE clause keeps a row exactly when the scope covers its ownership; a NULL tenant never passes. */
  lemma FilterIsCoverage(scope: AuthorizedScope, row: OwnershipRow)
    requires scope.Valid()
    ensures Eval(ScopePredicate(scope), row) == True
       <==> row.tenantId.Some? && scope.Covers(ResourceScope(row.tenantId.value, row.plantId, row.departmentId))
  {
    if row.tenantId == Some(scope.tenantId) {
      if AnyTenantWide(scope.branches) {
        var b :| b in scope.branches && b.IsTenantWide();
        assert b.Covers(ResourceScope(row.tenantId.value, row.plantId, row.departmentId));
      } else {
        DisjunctionIsCoverage(scope, row);
      }
    }
  }

  /** The row is known to lie outside the branch. */
  predicate Excludes(b: ScopeConstraint, row: OwnershipRow) {
    || (b.plantId.Some? && row.plantId.Some? && row.plantId.value != b.plantId.value)
    || (b.departmentId.Some? && row.departmentId.Some? && row.departmentId.value != b.departmentId.value)
  }

  lemma {:induction false} EvalAnyFalse(args: seq<Sql>, row: OwnershipRow)
    ensures EvalAny(args, row) == False <==> forall e :: e in args ==> Eval(e, row) == False
  {
    if args != [] {
      EvalAnyFalse(args[1..], row);
      assert EvalAny(args, row) == Or3(Eval(args[0], row), EvalAny(args[1..], row));
      assert forall e :: e in args <==> e == args[0] || e in args[1..];
    }
  }

  lemma BranchPredicateExcludes(b: ScopeConstraint, row: OwnershipRow)
    requires !b.IsTenantWide()
    ensures BranchPredicate(b).Some? && (Eval(BranchPredicate(b).value, row) == False <==> Excludes(b, row))
  {
  }

  lemma DisjunctionExcludes(branches: seq<ScopeConstraint>, row: OwnershipRow)
    requires !AnyTenantWide(branches)
    ensures EvalAny(Collect(BranchPredicate, branches), row) == False <==> forall b :: b in branches ==> Excludes(b, row)
  {
    var preds := Collect(BranchPredicate, branches);
    CollectMembers(BranchPredicate, branches);
    EvalAnyFalse(preds, row);
    forall b | b in branches ensures BranchPredicate(b).Some? && (Eval(BranchPredicate(b).value, row) == False <==> Excludes(b, row)) {
      BranchPredicateExcludes(b, row);
    }
    if forall e :: e in preds ==> Eval(e, row) == False {
      forall b | b in branches ensures Excludes(b, row) {
        assert BranchPredicate(b).value in preds;
      }
    }
  }

  /** The clause is FALSE exactly for another known tenant, or a row known to lie outside every branch; what is neither FALSE nor TRUE is UNKNOWN. */
  lemma FilterIsFalseExactlyWhen(scope: AuthorizedScope, row: OwnershipRow)
    ensures Eval(ScopePredicate(scope), row) == False <==>
      || (row.tenantId.Some? && row.tenantId.value != scope.tenantId)
      || forall b :: b in scope.branches ==> Excludes(b, row)
  {
    if AnyTenantWide(scope.branches) {
      var b :| b in scope.branches && b.IsTenantWide();
      assert !Excludes(b, row);
    } else {
      DisjunctionExcludes(scope.branches, row);
    }
  }

  lemma GuardIsCoverage(scope: AuthorizedScope, resource: ResourceScope)
    requires scope.Valid()
    ensures WithinScope(resource, scope) <==> scope.Covers(resource)
  {
    if WithinScope(resource, scope) {
      var b :| b in scope.branches
            && (b.plantId.None? || b.plantId == resource.plantId)
            && (b.departmentId.None? || b.departmentId == resource.departmentId);
      assert b.Covers(resource);
    }
  }

  /** One relation: record check, resolved scope, generated SQL and context guard accept the same records. */
  lemma FourCodingsAgree(principal: Principal, permission: Permission, resource: ResourceScope)
    ensures var allowed := AuthorizeResourcePermission(principal, resource, permission).Ok?;
            var s := UnfilteredScope(principal, permission);
            var row := OwnershipRow(Some(resource.tenantId), resource.plantId, resource.departmentId);
            && (allowed <==> s.Ok? && s.value.Covers(resource))
            && (allowed <==> s.Ok? && Eval(ScopePredicate(s.value), row) == True)
            && (allowed <==> s.Ok? && WithinScope(resource, s.value))
  {
    RecordCheckIsCoverage(principal, permission, resource);
    var s := UnfilteredScope(principal, permission);
    if s.Ok? {
      ResolvedScopeShape(principal, permission);
      FilterIsCoverage(s.value, OwnershipRow(Some(resource.tenantId), resource.plantId, resource.departmentId));
      GuardIsCoverage(s.value, resource);
    }
  }

  // ---- narrowing is intersection

  predicate InPlant(r: ResourceScope, plant: Option<string>) {
    plant.None? || r.plantId == plant
  }

  predicate InDepartment(r: ResourceScope, department: Option<string>) {
    department.None? || r.departmentId == department
  }

  /** Some record is covered by every branch, so a non-empty scope is never an empty set of records. */
  lemma BranchWitness(b: ScopeConstraint)
    ensures b.Covers(ResourceScope(b.tenantId, b.plantId, b.departmentId))
  {
  }

  lemma PlantNarrowingIntersects(scope: AuthorizedScope, plant: Option<string>)
    requires scope.Valid()
    ensures var n := NarrowPlant(scope, plant);
            && (n.Ok? ==> n.value.Valid() && n.value.tenantId == scope.tenantId)
            && (n.Ok? ==> forall r: ResourceScope :: n.value.Covers(r) <==> scope.Covers(r) && InPlant(r, plant))
            && (n.Err? ==> n == Err(Forbidden))
            && (n.Err? <==> forall r: ResourceScope :: !(scope.Covers(r) && InPlant(r, plant)))
  {
    var n := NarrowPlant(scope, plant);
    if plant.None? {
      BranchWitness(scope.branches[0]);
      assert scope.branches[0] in scope.branches;
      var r := ResourceScope(scope.branches[0].tenantId, scope.branches[0].plantId, scope.branches[0].departmentId);
      assert scope.Covers(r) && InPlant(r, plant);
    } else {
      var f := b => AtPlant(b, plant.value);
      var kept := Collect(f, scope.branches);
      CollectMembers(f, scope.branches);
      forall r: ResourceScope
        ensures (exists b :: b in kept && b.Covers(r)) <==> scope.Covers(r) && InPlant(r, plant) {
        if scope.Covers(r) && InPlant(r, plant) {
          var b :| b in scope.branches && b.Covers(r);
          assert f(b) == Some(b.(plantId := plant));
          assert b.(plantId := plant) in kept;
        }
        if exists b :: b in kept && b.Covers(r) {
          var c :| c in kept && c.Covers(r);
          var b :| b in scope.branches && f(b) == Some(c);
          assert b.Covers(r);
        }
      }
      if n.Ok? {
        BranchWitness(kept[0]);
        assert kept[0] in kept;
        var r := ResourceScope(kept[0].tenantId, kept[0].plantId, kept[0].departmentId);
        assert scope.Covers(r) && InPlant(r, plant);
      }
    }
  }

  lemma DepartmentNarrowingIntersects(scope: AuthorizedScope, department: Option<string>)
    requires scope.Valid()
    ensures var n := NarrowDepartment(scope, department);
            && (n.Ok? ==> n.value.Valid() && n.value.tenantId == scope.tenantId)
            && (n.Ok? ==> forall r: ResourceScope :: n.value.Covers(r) <==> scope.Covers(r) && InDepartment(r, department))
            && (n.Err? ==> n == Err(Forbidden))
            && (n.Err? <==> forall r: ResourceScope :: !(scope.Covers(r) && InDepartment(r, department)))
  {
    var n := NarrowDepartment(scope, department);
    if department.None? {
      BranchWitness(scope.branches[0]);
      assert scope.branches[0] in scope.branches;
      var r := ResourceScope(scope.branches[0].tenantId, scope.branches[0].plantId, scope.branches[0].departmentId);
      assert scope.Covers(r) && InDepartment(r, department);
    } else {
      var f := b => AtDepartment(b, department.value);
      var kept := Collect(f, scope.branches);
      CollectMembers(f, scope.branches);
      forall r: ResourceScope
        ensures (exists b :: b in kept && b.Covers(r)) <==> scope.Covers(r) && InDepartment(r, department) {
        if scope.Covers(r) && InDepartment(r, department) {
          var b :| b in scope.branches && b.Covers(r);
          assert f(b) == Some(b.(departmentId := department));
          assert b.(departmentId := department) in kept;
        }
        if exists b :: b in kept && b.Covers(r) {
          var c :| c in kept && c.Covers(r);
          var b :| b in scope.branches && f(b) == Some(c);
          assert b.Covers(r);
        }
      }
      if n.Ok? {
        BranchWitness(kept[0]);
        assert kept[0] in kept;
        var r := ResourceScope(kept[0].tenantId, kept[0].plantId, kept[0].departmentId);
        assert scope.Covers(r) && InDepartment(r, department);
      }
    }
  }

  /**
   A resolved scope covers exactly the records the caller may touch and asked for. A foreign
   tenant is refused first; otherwise the request is refused exactly when no record whatever
   would satisfy both the grant and the filters.
   */
  lemma ResolutionIsExact(
    principal: Principal, permission: Permission,
    tenant: Option<string>, plant: Option<string>, department: Option<string>
  )
    ensures var s := ResolveScope(principal, permission, tenant, plant, department);
            && (s == Err(CrossTenant) <==> tenant.Some? && tenant.value != principal.tenantId)
            && (s.Ok? ==> forall r: ResourceScope :: s.value.Covers(r) <==>
                  (AuthorizeResourcePermission(principal, r, permission).Ok? && InPlant(r, plant) && InDepartment(r, department)))
            && (s == Err(Forbidden) <==>
                  && (tenant.None? || tenant.value == principal.tenantId)
                  && forall r: ResourceScope ::
                       !(AuthorizeResourcePermission(principal, r, permission).Ok? && InPlant(r, plant) && InDepartment(r, department)))
  {
    var u := UnfilteredScope(principal, permission);
    forall r: ResourceScope
      ensures AuthorizeResourcePermission(principal, r, permission).Ok? <==> u.Ok? && u.value.Covers(r) {
      RecordCheckIsCoverage(principal, permission, r);
    }
    if u.Ok? {
      ResolvedScopeShape(principal, permission);
      PlantNarrowingIntersects(u.value, plant);
      var p := NarrowPlant(u.value, plant);
      if p.Ok? {
        DepartmentNarrowingIntersects(p.value, department);
        var d := NarrowDepartment(p.value, department);
        if d.Ok? {
          BranchWitness(d.value.branches[0]);
          assert d.value.branches[0] in d.value.branches;
          var b := d.value.branches[0];
          assert d.value.Covers(ResourceScope(b.tenantId, b.plantId, b.departmentId));
        }
      }
    }
  }

  function NarrowBothDepartmentFirst(scope: AuthorizedScope, plant: Option<string>, department: Option<string>): Result<AuthorizedScope, AccessError> {
    match NarrowDepartment(scope, department)
    case Err(e) => Err(e)
    case Ok(inDepartment) => NarrowPlant(inDepartment, plant)
  }

  lemma {:induction false} CollectsCommute(branches: seq<ScopeConstraint>, plant: string, department: string)
    ensures Collect(b => AtDepartment(b, department), Collect(b => AtPlant(b, plant), branches))
         == Collect(b => AtPlant(b, plant), Collect(b => AtDepartment(b, department), branches))
  {
    var p, d := b => AtPlant(b, plant), b => AtDepartment(b, department);
    if branches != [] {
      CollectsCommute(branches[1..], plant, department);
      var b, rest := branches[0], branches[1..];
      if p(b).Some? {
        assert ([p(b).value] + Collect(p, rest))[1..] == Collect(p, rest);
      }
      if d(b).Some? {
        assert ([d(b).value] + Collect(d, rest))[1..] == Collect(d, rest);
      }
    }
  }

  lemma ResolvedScopeIsValid(
    principal: Principal, permission: Permission,
    tenant: Option<string>, plant: Option<string>, department: Option<string>
  )
    requires ResolveScope(principal, permission, tenant, plant, department).Ok?
    ensures ResolveScope(principal, permission, tenant, plant, department).value.Valid()
  {
    ResolvedScopeShape(principal, permission);
    var u := UnfilteredScope(principal, permission).value;
    PlantNarrowingIntersects(u, plant);
    DepartmentNarrowingIntersects(NarrowPlant(u, plant).value, department);
  }

  /** Filtering by plant then department builds the same scope, or the same refusal, as the other order. */
  lemma NarrowingsCommute(scope: AuthorizedScope, plant: Option<string>, department: Option<string>)
    ensures NarrowBoth(scope, plant, department) == NarrowBothDepartmentFirst(scope, plant, department)
  {
    if plant.Some? && department.Some? {
      CollectsCommute(scope.branches, plant.value, department.value);
    }
  }

  // ---- ownership read off a persisted record

  /** Empty strings are read as missing; a record without a tenant cannot be authorized at all. */
  function FromRecord(row: OwnershipRow): Option<ResourceScope> {
    if row.tenantId.None? || row.tenantId.value == "" then None
    else Some(ResourceScope(row.tenantId.value, NonEmpty(row.plantId), NonEmpty(row.departmentId)))
  }

  function NonEmpty(v: Option<string>): Option<string> {
    if v == Some("") then None else v
  }

  ghost predicate FilterMatchesRecords(scope: AuthorizedScope) {
    forall row: OwnershipRow ::
      Eval(ScopePredicate(scope), row) == True
      <==> FromRecord(row).Some? && scope.Covers(FromRecord(row).value)
  }

  /** A branch that no empty id occurs in. */
  predicate NamesRealIds(b: ScopeConstraint) {
    b.plantId != Some("") && b.departmentId != Some("")
  }

  /** Whatever the narrower branch covers, the wider one does. */
  predicate Subsumes(wider: ScopeConstraint, narrower: ScopeConstraint) {
    && (wider.plantId.None? || wider.plantId == narrower.plantId)
    && (wider.departmentId.None? || wider.departmentId == narrower.departmentId)
  }

  ghost predicate WithinRealBranch(scope: AuthorizedScope, b: ScopeConstraint) {
    exists c :: c in scope.branches && NamesRealIds(c) && Subsumes(c, b)
  }

  /** Every branch is free of empty ids, or lies within one that is. */
  ghost predicate FreeOfEmptyIds(scope: AuthorizedScope) {
    && scope.tenantId != ""
    && forall b {:trigger WithinRealBranch(scope, b)} :: b in scope.branches ==> WithinRealBranch(scope, b)
  }

  lemma RealBranchReadsAlike(b: ScopeConstraint, row: OwnershipRow)
    requires row.tenantId.Some? && row.tenantId.value != ""
    requires NamesRealIds(b)
    ensures b.Covers(ResourceScope(row.tenantId.value, row.plantId, row.departmentId)) <==> b.Covers(FromRecord(row).value)
  {
  }

  lemma CoveringARecordIsReal(b: ScopeConstraint, row: OwnershipRow)
    requires FromRecord(row).Some? && b.Covers(FromRecord(row).value)
    ensures NamesRealIds(b)
  {
  }

  lemma FreeScopeMatches(scope: AuthorizedScope, row: OwnershipRow)
    requires scope.Valid() && FreeOfEmptyIds(scope)
    ensures Eval(ScopePredicate(scope), row) == True
       <==> FromRecord(row).Some? && scope.Covers(FromRecord(row).value)
  {
    FilterIsCoverage(scope, row);
    if row.tenantId == Some(scope.tenantId) {
      var raw := ResourceScope(scope.tenantId, row.plantId, row.departmentId);
      if b :| b in scope.branches && b.Covers(raw) {
        assert WithinRealBranch(scope, b);
        var c :| c in scope.branches && NamesRealIds(c) && Subsumes(c, b);
        assert c.Covers(raw);
        RealBranchReadsAlike(c, row);
      }
      if b :| b in scope.branches && b.Covers(FromRecord(row).value) {
        CoveringARecordIsReal(b, row);
        RealBranchReadsAlike(b, row);
      }
    }
  }

  /** The record a branch itself describes: read by the filter, and mistaken once read off if the branch names an empty id. */
  function Described(b: ScopeConstraint): OwnershipRow {
    OwnershipRow(Some(b.tenantId), b.plantId, b.departmentId)
  }

  lemma DescribedRowIsRead(scope: AuthorizedScope, b: ScopeConstraint)
    requires scope.Valid() && b in scope.branches
    ensures Eval(ScopePredicate(scope), Described(b)) == True
  {
    FilterIsCoverage(scope, Described(b));
    assert b.Covers(ResourceScope(b.tenantId, b.plantId, b.departmentId));
  }

  /** A filter that agrees with the record check on what a branch describes has a branch without empty ids around it. */
  lemma AgreementSubsumes(scope: AuthorizedScope, b: ScopeConstraint)
    requires scope.Valid() && b in scope.branches
    requires FilterMatchesRecords(scope)
    ensures scope.tenantId != ""
    ensures WithinRealBranch(scope, b)
  {
    DescribedRowIsRead(scope, b);
    var c :| c in scope.branches && c.Covers(FromRecord(Described(b)).value);
    CoveringARecordIsReal(c, Described(b));
  }

  /**
   A row survives the filter exactly when the scope covers the ownership read off it, for all rows,
   if and only if the tenant is named and every branch that names an empty id lies within one that
   does not. SQL matches a stored empty string; reading the record turns it into "none".
   */
  lemma FilterMatchesRecordsExactlyWhen(scope: AuthorizedScope)
    requires scope.Valid()
    ensures FilterMatchesRecords(scope) <==> FreeOfEmptyIds(scope)
  {
    if FreeOfEmptyIds(scope) {
      forall row: OwnershipRow
        ensures Eval(ScopePredicate(scope), row) == True
           <==> FromRecord(row).Some? && scope.Covers(FromRecord(row).value) {
        FreeScopeMatches(scope, row);
      }
    }
    if FilterMatchesRecords(scope) {
      AgreementSubsumes(scope, scope.branches[0]);
      forall b | b in scope.branches
        ensures WithinRealBranch(scope, b) {
        AgreementSubsumes(scope, b);
      }
    }
  }

  /** What the claims mapper guarantees: a tenant, and a scope id in every assignment. */
  predicate HasRealIds(principal: Principal) {
    principal.tenantId != "" && forall a :: a in principal.assignments ==> a.scopeId != ""
  }

  lemma UnfilteredIdsAreReal(principal: Principal, permission: Permission)
    requires HasRealIds(principal) && UnfilteredScope(principal, permission).Ok?
    ensures forall b :: b in UnfilteredScope(principal, permission).value.branches ==> NamesRealIds(b)
  {
    var f := a => BranchOf(principal.tenantId, a);
    HoldingMeansGranting(principal, permission);
    CollectMembers(f, AssignmentsGranting(principal, permission));
    DistinctMembers(Collect(f, AssignmentsGranting(principal, permission)));
  }

  lemma PlantFilterPins(scope: AuthorizedScope, plant: Option<string>)
    requires NarrowPlant(scope, plant).Ok?
    requires forall b :: b in scope.branches ==> NamesRealIds(b)
    ensures forall b :: b in NarrowPlant(scope, plant).value.branches ==>
              (plant.Some? ==> b.plantId == plant) && b.departmentId != Some("") && (b.plantId == Some("") <==> plant == Some(""))
  {
    if plant.Some? {
      CollectMembers(b => AtPlant(b, plant.value), scope.branches);
    }
  }

  lemma DepartmentFilterPins(scope: AuthorizedScope, department: Option<string>)
    requires NarrowDepartment(scope, department).Ok?
    requires forall b :: b in scope.branches ==> b.departmentId != Some("")
    ensures forall b :: b in NarrowDepartment(scope, department).value.branches ==>
              && (b.departmentId == Some("") <==> department == Some(""))
              && exists u :: u in scope.branches && u.plantId == b.plantId
  {
    if department.Some? {
      CollectMembers(b => AtDepartment(b, department.value), scope.branches);
    }
  }

  lemma FiltersPin(scope: AuthorizedScope, plant: Option<string>, department: Option<string>)
    requires scope.Valid() && NarrowBoth(scope, plant, department).Ok?
    requires forall b :: b in scope.branches ==> NamesRealIds(b)
    ensures var narrowed := NarrowBoth(scope, plant, department).value;
            && narrowed.Valid()
            && forall b :: b in narrowed.branches ==> (NamesRealIds(b) <==> plant != Some("") && department != Some(""))
  {
    PlantNarrowingIntersects(scope, plant);
    PlantFilterPins(scope, plant);
    var inPlant := NarrowPlant(scope, plant).value;
    DepartmentNarrowingIntersects(inPlant, department);
    DepartmentFilterPins(inPlant, department);
  }

  /** For a caller with real ids, a resolved branch names an empty id exactly when an empty filter was asked for. */
  lemma EmptyIdsComeFromFilters(
    principal: Principal, permission: Permission,
    tenant: Option<string>, plant: Option<string>, department: Option<string>
  )
    requires HasRealIds(principal)
    requires ResolveScope(principal, permission, tenant, plant, department).Ok?
    ensures var scope := ResolveScope(principal, permission, tenant, plant, department).value;
            && scope.Valid() && scope.tenantId == principal.tenantId
            && forall b :: b in scope.branches ==> (NamesRealIds(b) <==> plant != Some("") && department != Some(""))
  {
    ResolvedScopeShape(principal, permission);
    UnfilteredIdsAreReal(principal, permission);
    FiltersPin(UnfilteredScope(principal, permission).value, plant, department);
  }

  /**
   For every caller the claims mapper can produce, the generated filter reads exactly the rows the
   record check accepts if and only if neither requested filter is the empty string, which a
   request can send and resolution takes for a real id.
   */
  lemma RequestedFilterMatchesExactlyWhen(
    principal: Principal, permission: Permission,
    tenant: Option<string>, plant: Option<string>, department: Option<string>
  )
    requires HasRealIds(principal)
    requires ResolveScope(principal, permission, tenant, plant, department).Ok?
    ensures FilterMatchesRecords(ResolveScope(principal, permission, tenant, plant, department).value)
       <==> plant != Some("") && department != Some("")
  {
    var scope := ResolveScope(principal, permission, tenant, plant, department).value;
    EmptyIdsComeFromFilters(principal, permission, tenant, plant, department);
    FilterMatchesRecordsExactlyWhen(scope);
    if plant != Some("") && department != Some("") {
      forall b | b in scope.branches
        ensures WithinRealBranch(scope, b) {
        assert NamesRealIds(b) && Subsumes(b, b);
      }
    } else {
      assert scope.branches[0] in scope.branches && !WithinRealBranch(scope, scope.branches[0]);
    }
  }

  /** Asked for the empty plant, an administrator's query returns a row whose owner, once read off, is not in the scope. */
  lemma EmptyPlantFilterMisreads()
    ensures var admin := Principal("admin", "t", [RoleAssignment(Admin, TenantScope, "t")]);
            var r := ResolveScope(admin, CostRead, None, Some(""), None);
            var row := OwnershipRow(Some("t"), Some(""), None);
            && HasRealIds(admin)
            && r == Ok(AuthorizedScope("t", [ScopeConstraint("t", Some(""), None)]))
            && Eval(ScopePredicate(r.value), row) == True
            && !r.value.Covers(FromRecord(row).value)
  {
    var admin := Principal("admin", "t", [RoleAssignment(Admin, TenantScope, "t")]);
    var wide, narrow := ScopeConstraint("t", None, None), ScopeConstraint("t", Some(""), None);
    var row := OwnershipRow(Some("t"), Some(""), None);
    assert AssignmentsGranting(admin, CostRead) == admin.assignments;
    assert Collect(a => BranchOf("t", a), admin.assignments) == [wide];
    assert wide in [wide] && wide.IsTenantWide();
    assert Collect(b => AtPlant(b, ""), [wide]) == [narrow];
    DescribedRowIsRead(AuthorizedScope("t", [narrow]), narrow);
    assert narrow in [narrow];
  }

  /** The scope an assignment gives over a record: the whole tenant, its plant or its department. */
  predicate Within(a: RoleAssignment, resource: ResourceScope) {
    || (a.scopeType == TenantScope && a.scopeId == resource.tenantId)
    || (a.scopeType == PlantScope && resource.plantId.Some? && resource.plantId.value == a.scopeId)
    || (a.scopeType == DepartmentScope && resource.departmentId.Some? && resource.departmentId.value == a.scopeId)
  }

  /** A record of one's own tenant may be touched exactly through an assignment that both grants the permission and reaches the record. */
  lemma AuthorizedExactlyWhen(principal: Principal, resource: ResourceScope, permission: Permission)
    ensures var r := AuthorizeResourcePermission(principal, resource, permission);
            && (r == Err(CrossTenant) <==> resource.tenantId != principal.tenantId)
            && (r == Ok(()) <==>
                  && resource.tenantId == principal.tenantId
                  && exists a :: a in principal.assignments && permission in RolePermissions(a.role) && Within(a, resource))
  {
    HoldingMeansGranting(principal, permission);
    if a :| a in principal.assignments && permission in RolePermissions(a.role) && Within(a, resource) {
      assert a in AssignmentsGranting(principal, permission) && AssignmentCovers(a, resource);
    }
  }
}
