/**
 From the claims of a validated token to a principal. Role names and scope types arrive already
 looked up: None where the token's text names no known one. Validation itself is not part of this model.
 */
module Identity {
  import opened Wrappers
  import opened Ordering
  import opened Principals
  import opened Scope

  /** An entry of the roles claim: a plain role name, a role with its scope, or anything else. */
  datatype RoleClaim =
    | PlainRole(role: Option<Role>)
    | ScopedRole(role: Option<Role>, scopeType: Option<ScopeType>, scopeId: Option<string>)
    | Unrecognised

  datatype Claims = Claims(subject: string, tenant: Option<string>, roles: seq<RoleClaim>)

  datatype TokenError = InvalidToken

  /** A plain role is held over the whole tenant; an entry that is incomplete in any way grants nothing. */
  function ParseAssignment(tenant: string, claim: RoleClaim): Option<RoleAssignment> {
    match claim
    case PlainRole(Some(role)) => Some(RoleAssignment(role, TenantScope, tenant))
    case ScopedRole(Some(role), Some(scopeType), Some(scopeId)) =>
      if scopeId == "" then None else Some(RoleAssignment(role, scopeType, scopeId))
    case _ => None
  }

  function PrincipalOf(claims: Claims): Result<Principal, TokenError> {
    if claims.tenant.None? || claims.tenant.value == "" then Err(InvalidToken)
    else Ok(Principal(claims.subject, claims.tenant.value, Collect(c => ParseAssignment(claims.tenant.value, c), claims.roles)))
  }

  method ToPrincipal(claims: Claims) returns (r: Result<Principal, TokenError>)
    ensures r == PrincipalOf(claims)
  {
    if claims.tenant.None? || claims.tenant.value == "" {
      return Err(InvalidToken);
    }
    var assignments: seq<RoleAssignment> := [];
    ghost var parse := c => ParseAssignment(claims.tenant.value, c);
    for i := 0 to |claims.roles|
      invariant assignments == Collect(parse, claims.roles[..i])
    {
      CollectStep(parse, claims.roles, i);
      var assignment := ParseAssignment(claims.tenant.value, claims.roles[i]);
      if assignment.Some? {
        assignments := assignments + [assignment.value];
      }
    }
    assert claims.roles[..|claims.roles|] == claims.roles;
    return Ok(Principal(claims.subject, claims.tenant.value, assignments));
  }

  /** Claims that spell out every assignment of a principal. */
  function ClaimsOf(p: Principal): Claims {
    Claims(p.subject, Some(p.tenantId),
           Map((a: RoleAssignment) => ScopedRole(Some(a.role), Some(a.scopeType), Some(a.scopeId)), p.assignments))
  }

  lemma {:induction false} SpelledOut(tenant: string, assignments: seq<RoleAssignment>)
    requires forall a :: a in assignments ==> a.scopeId != ""
    ensures Collect(c => ParseAssignment(tenant, c),
                    Map((a: RoleAssignment) => ScopedRole(Some(a.role), Some(a.scopeType), Some(a.scopeId)), assignments))
         == assignments
  {
    if assignments != [] {
      var claim := (a: RoleAssignment) => ScopedRole(Some(a.role), Some(a.scopeType), Some(a.scopeId));
      SpelledOut(tenant, assignments[1..]);
      assert Map(claim, assignments)[1..] == Map(claim, assignments[1..]);
    }
  }

  /** The principals that claims can produce are exactly those with a tenant and a scope id in every assignment. */
  lemma MappedExactlyWhen(p: Principal)
    ensures (exists claims :: PrincipalOf(claims) == Ok(p)) <==> HasRealIds(p)
  {
    if claims :| PrincipalOf(claims) == Ok(p) {
      CollectMembers(c => ParseAssignment(p.tenantId, c), claims.roles);
    }
    if HasRealIds(p) {
      SpelledOut(p.tenantId, p.assignments);
      assert PrincipalOf(ClaimsOf(p)) == Ok(p);
    }
  }

  /** Where an assignment comes from: a plain role held over the tenant, or a complete entry that names role, type and id. */
  lemma AssignedExactlyWhen(claims: Claims, a: RoleAssignment)
    requires PrincipalOf(claims).Ok?
    ensures a in PrincipalOf(claims).value.assignments <==>
      || (PlainRole(Some(a.role)) in claims.roles && a.scopeType == TenantScope && a.scopeId == claims.tenant.value)
      || (ScopedRole(Some(a.role), Some(a.scopeType), Some(a.scopeId)) in claims.roles && a.scopeId != "")
    ensures PrincipalOf(claims).value.subject == claims.subject && Some(PrincipalOf(claims).value.tenantId) == claims.tenant
  {
    CollectMembers(c => ParseAssignment(claims.tenant.value, c), claims.roles);
    if PlainRole(Some(a.role)) in claims.roles && a.scopeType == TenantScope && a.scopeId == claims.tenant.value {
      assert ParseAssignment(claims.tenant.value, PlainRole(Some(a.role))) == Some(a);
    }
    if ScopedRole(Some(a.role), Some(a.scopeType), Some(a.scopeId)) in claims.roles && a.scopeId != "" {
      assert ParseAssignment(claims.tenant.value, ScopedRole(Some(a.role), Some(a.scopeType), Some(a.scopeId))) == Some(a);
    }
  }
}
