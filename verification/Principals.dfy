/** The authenticated caller, what each role may do, and who owns a record. */
module Principals {
  import opened Wrappers
  import opened Ordering

  datatype Role = Admin | FinopsManager | AiEngineer | PlantManager | Analyst | Viewer

  datatype ScopeType = TenantScope | PlantScope | DepartmentScope

  datatype RoleAssignment = RoleAssignment(role: Role, scopeType: ScopeType, scopeId: string)

  datatype Principal = Principal(subject: string, tenantId: string, assignments: seq<RoleAssignment>)

  /** Ownership of a record. A level is None for a resource that has no plant or department. */
  datatype ResourceScope = ResourceScope(tenantId: string, plantId: Option<string>, departmentId: Option<string>)

  datatype Permission =
    | AiExecute | CostRead | BudgetRead | BudgetManage | ForecastRead | AnomalyRead
    | OptimizationRead | OptimizationAnalyze | OptimizationApprove | OptimizationApply
    | ModelRead | ModelManage | WorkloadRead | OrganizationRead | PolicyRead
    | ApprovalRead | ApprovalDecide | AuditRead

  const READ_ONLY: set<Permission> :=
    {CostRead, BudgetRead, ForecastRead, AnomalyRead, OptimizationRead, ModelRead,
     WorkloadRead, OrganizationRead, PolicyRead}

  const ALL_PERMISSIONS: set<Permission> :=
    {AiExecute, CostRead, BudgetRead, BudgetManage, ForecastRead, AnomalyRead,
     OptimizationRead, OptimizationAnalyze, OptimizationApprove, OptimizationApply,
     ModelRead, ModelManage, WorkloadRead, OrganizationRead, PolicyRead,
     ApprovalRead, ApprovalDecide, AuditRead}

  function RolePermissions(role: Role): set<Permission> {
    match role
    case Admin => ALL_PERMISSIONS
    case FinopsManager =>
      READ_ONLY + {BudgetManage, OptimizationAnalyze, OptimizationApprove, ApprovalRead, ApprovalDecide, AuditRead}
    case AiEngineer =>
      READ_ONLY + {AiExecute, ModelManage, OptimizationAnalyze, OptimizationApply, ApprovalRead}
    case PlantManager => READ_ONLY + {AiExecute, ApprovalRead, ApprovalDecide}
    case Analyst => READ_ONLY + {OptimizationAnalyze, ApprovalRead}
    case Viewer => READ_ONLY
  }

  /** The union over the given roles: nothing is granted that some role does not grant. */
  function PermissionsOf(roles: set<Role>): (granted: set<Permission>)
    ensures forall p :: p in granted <==> exists role :: role in roles && p in RolePermissions(role)
  {
    set p | p in ALL_PERMISSIONS && exists role :: role in roles && p in RolePermissions(role)
  }

  method PermissionsFor(roles: seq<Role>) returns (granted: set<Permission>)
    ensures granted == PermissionsOf(set role | role in roles)
  {
    granted := {};
    for i := 0 to |roles|
      invariant forall p :: p in granted <==> exists j :: 0 <= j < i && p in RolePermissions(roles[j])
    {
      granted := granted + RolePermissions(roles[i]);
    }
  }

  function Roles(principal: Principal): set<Role> {
    set a | a in principal.assignments :: a.role
  }

  /** The endpoint check looks in the union of what the caller's roles grant, at whatever scope they are held. */
  predicate HasPermission(principal: Principal, permission: Permission) {
    permission in PermissionsOf(Roles(principal))
  }

  /** Only the assignments whose own role grants the permission. */
  function AssignmentsGranting(principal: Principal, permission: Permission): seq<RoleAssignment> {
    Filter((a: RoleAssignment) => permission in RolePermissions(a.role), principal.assignments)
  }

  /** The endpoint check and the assignments used for the resource check never disagree. */
  lemma HoldingMeansGranting(principal: Principal, permission: Permission)
    ensures forall a :: a in AssignmentsGranting(principal, permission)
                   <==> a in principal.assignments && permission in RolePermissions(a.role)
    ensures HasPermission(principal, permission) <==> AssignmentsGranting(principal, permission) != []
  {
    var grants := AssignmentsGranting(principal, permission);
    FilterMembers((a: RoleAssignment) => permission in RolePermissions(a.role), principal.assignments);
    if HasPermission(principal, permission) {
      var role :| role in Roles(principal) && permission in RolePermissions(role);
      var a :| a in principal.assignments && permission in RolePermissions(a.role);
      assert a in grants;
    }
    if grants != [] {
      assert grants[0] in grants && grants[0].role in Roles(principal);
    }
  }

  /** Who may do what, permission by permission: reading is for everyone, everything is for ADMIN. */
  lemma GrantedExactlyWhen(role: Role, permission: Permission)
    ensures permission in RolePermissions(role) <==>
      (match permission
       case AiExecute => role == Admin || role == AiEngineer || role == PlantManager
       case BudgetManage => role == Admin || role == FinopsManager
       case OptimizationAnalyze => role == Admin || role == FinopsManager || role == AiEngineer || role == Analyst
       case OptimizationApprove => role == Admin || role == FinopsManager
       case OptimizationApply => role == Admin || role == AiEngineer
       case ModelManage => role == Admin || role == AiEngineer
       case ApprovalRead => role != Viewer
       case ApprovalDecide => role == Admin || role == FinopsManager || role == PlantManager
       case AuditRead => role == Admin || role == FinopsManager
       case _ => true)
  {
  }

  /** Duties are separated: a caller who may approve an optimization and apply one is an ADMIN or holds two roles. */
  lemma DutiesAreSeparated(principal: Principal)
    requires HasPermission(principal, OptimizationApprove) && HasPermission(principal, OptimizationApply)
    ensures Admin in Roles(principal) || (FinopsManager in Roles(principal) && AiEngineer in Roles(principal))
  {
    var approver :| approver in Roles(principal) && OptimizationApprove in RolePermissions(approver);
    var applier :| applier in Roles(principal) && OptimizationApply in RolePermissions(applier);
    GrantedExactlyWhen(approver, OptimizationApprove);
    GrantedExactlyWhen(applier, OptimizationApply);
  }
}
