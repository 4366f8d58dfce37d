/**
 Assembling retrieved context under a token ceiling: fragments are admitted greedily in order,
 and the rest are recorded with the reason they were withheld.
 */
module ContextGuard {
  import opened Wrappers
  import opened Principals
  import opened Scope

  datatype Classification = Public | Internal | Confidential | Restricted

  datatype Fragment = Fragment(
    text: string, owner: Option<ResourceScope>, classification: Classification, relevance: real, estimatedTokens: Option<int>)

  datatype Reason =
    | NoOwnerRecorded | CrossTenantOwner | OutOfScope | NotSendable | BelowRelevanceFloor | ContextBudgetExhausted

  datatype Guard = Guard(maxContextTokens: Option<int>, minimumRelevance: real, sendable: set<Classification>)

  datatype Drop = Drop(fragment: Fragment, reason: Reason)

  datatype Decision = Decision(admitted: seq<Fragment>, dropped: seq<Drop>, totalTokens: int)

  function Cost(f: Fragment): int {
    if f.estimatedTokens.Some? then f.estimatedTokens.value else 0
  }

  /** The first of the checks that refuses the fragment, if any does. */
  function RejectReason(g: Guard, f: Fragment, principal: Principal, scope: Option<AuthorizedScope>): Option<Reason> {
    if f.owner.None? then Some(NoOwnerRecorded)
    else if f.owner.value.tenantId != principal.tenantId then Some(CrossTenantOwner)
    else if scope.Some? && !WithinScope(f.owner.value, scope.value) then Some(OutOfScope)
    else if f.classification !in g.sendable then Some(NotSendable)
    else if f.relevance < g.minimumRelevance then Some(BelowRelevanceFloor)
    else None
  }

  predicate Exceeds(g: Guard, tokens: int) {
    g.maxContextTokens.Some? && tokens > g.maxContextTokens.value
  }

  function Judge(g: Guard, d: Decision, f: Fragment, principal: Principal, scope: Option<AuthorizedScope>): Decision {
    var reason := RejectReason(g, f, principal, scope);
    if reason.Some? then d.(dropped := d.dropped + [Drop(f, reason.value)])
    else if Exceeds(g, d.totalTokens + Cost(f)) then d.(dropped := d.dropped + [Drop(f, ContextBudgetExhausted)])
    else d.(admitted := d.admitted + [f], totalTokens := d.totalTokens + Cost(f))
  }

  function Decide(g: Guard, fragments: seq<Fragment>, principal: Principal, scope: Option<AuthorizedScope>): Decision {
    if fragments == [] then Decision([], [], 0)
    else
      var last := |fragments| - 1;
      Judge(g, Decide(g, fragments[..last], principal, scope), fragments[last], principal, scope)
  }

  method FilterFragments(g: Guard, fragments: seq<Fragment>, principal: Principal, scope: Option<AuthorizedScope>)
    returns (d: Decision)
    ensures d == Decide(g, fragments, principal, scope)
  {
    var admitted: seq<Fragment>, dropped: seq<Drop>, total := [], [], 0;
    for i := 0 to |fragments|
      invariant Decision(admitted, dropped, total) == Decide(g, fragments[..i], principal, scope)
    {
      assert fragments[..i + 1][..i] == fragments[..i];
      var f := fragments[i];
      var reason := RejectReason(g, f, principal, scope);
      if reason.Some? {
        dropped := dropped + [Drop(f, reason.value)];
        continue;
      }
      var tokens := if f.estimatedTokens.Some? then f.estimatedTokens.value else 0;
      if g.maxContextTokens.Some? && total + tokens > g.maxContextTokens.value {
        dropped := dropped + [Drop(f, ContextBudgetExhausted)];
        continue;
      }
      admitted := admitted + [f];
      total := total + tokens;
    }
    assert fragments[..|fragments|] == fragments;
    d := Decision(admitted, dropped, total);
  }

  // ---- nothing is lost, reordered or admitted without cause

  function Fragments(dropped: seq<Drop>): seq<Fragment> {
    seq(|dropped|, i requires 0 <= i < |dropped| => dropped[i].fragment)
  }

  /** `whole` is `a` and `b` riffled together, each in its own order. */
  ghost predicate Interleaves<T>(a: seq<T>, b: seq<T>, whole: seq<T>) {
    if whole == [] then a == [] && b == []
    else
      var front, last := whole[..|whole| - 1], whole[|whole| - 1];
      || (a != [] && a[|a| - 1] == last && Interleaves(a[..|a| - 1], b, front))
      || (b != [] && b[|b| - 1] == last && Interleaves(a, b[..|b| - 1], front))
  }

  lemma InterleavesGrows<T>(a: seq<T>, b: seq<T>, whole: seq<T>, x: T)
    requires Interleaves(a, b, whole)
    ensures Interleaves(a + [x], b, whole + [x]) && Interleaves(a, b + [x], whole + [x])
  {
    assert (whole + [x])[..|whole + [x]| - 1] == whole;
    assert (a + [x])[..|a + [x]| - 1] == a && (b + [x])[..|b + [x]| - 1] == b;
  }

  lemma {:induction false} FilterInterleaves(g: Guard, fragments: seq<Fragment>, principal: Principal, scope: Option<AuthorizedScope>)
    ensures var d := Decide(g, fragments, principal, scope);
            Interleaves(d.admitted, Fragments(d.dropped), fragments)
  {
    if fragments != [] {
      var front, f := fragments[..|fragments| - 1], fragments[|fragments| - 1];
      FilterInterleaves(g, front, principal, scope);
      var before := Decide(g, front, principal, scope);
      InterleavesGrows(before.admitted, Fragments(before.dropped), front, f);
      assert front + [f] == fragments;
      JudgedFragments(g, before, f, principal, scope);
    }
  }

  lemma JudgedFragments(g: Guard, d: Decision, f: Fragment, principal: Principal, scope: Option<AuthorizedScope>)
    ensures var after := Judge(g, d, f, principal, scope);
            || (after.admitted == d.admitted + [f] && Fragments(after.dropped) == Fragments(d.dropped))
            || (after.admitted == d.admitted && Fragments(after.dropped) == Fragments(d.dropped) + [f])
  {
  }

  function TotalCost(fs: seq<Fragment>): int {
    if fs == [] then 0 else TotalCost(fs[..|fs| - 1]) + Cost(fs[|fs| - 1])
  }

  /** The total is the cost of what was admitted, and within the ceiling as soon as anything was. */
  ghost predicate Totalled(g: Guard, d: Decision) {
    d.totalTokens == TotalCost(d.admitted) && (d.admitted != [] ==> !Exceeds(g, d.totalTokens))
  }

  lemma AdmittingTotals(g: Guard, d: Decision, f: Fragment)
    requires d.totalTokens == TotalCost(d.admitted) && !Exceeds(g, d.totalTokens + Cost(f))
    ensures Totalled(g, d.(admitted := d.admitted + [f], totalTokens := d.totalTokens + Cost(f)))
  {
    var grown := d.admitted + [f];
    assert grown[..|grown| - 1] == d.admitted;
  }

  lemma JudgeTotals(g: Guard, d: Decision, f: Fragment, principal: Principal, scope: Option<AuthorizedScope>)
    requires Totalled(g, d)
    ensures Totalled(g, Judge(g, d, f, principal, scope))
  {
    var after := Judge(g, d, f, principal, scope);
    if after.admitted != d.admitted {
      AdmittingTotals(g, d, f);
    }
  }

  lemma {:induction false} DecisionTotals(g: Guard, fragments: seq<Fragment>, principal: Principal, scope: Option<AuthorizedScope>)
    ensures Totalled(g, Decide(g, fragments, principal, scope))
  {
    if fragments != [] {
      var last := |fragments| - 1;
      DecisionTotals(g, fragments[..last], principal, scope);
      JudgeTotals(g, Decide(g, fragments[..last], principal, scope), fragments[last], principal, scope);
    }
  }

  /** The reported total is the cost of what was admitted, and it is within the ceiling as soon as anything was. */
  lemma CeilingHolds(g: Guard, fragments: seq<Fragment>, principal: Principal, scope: Option<AuthorizedScope>)
    ensures var d := Decide(g, fragments, principal, scope);
            && d.totalTokens == TotalCost(d.admitted)
            && (d.admitted != [] ==> !Exceeds(g, d.totalTokens))
  {
    DecisionTotals(g, fragments, principal, scope);
  }

  /** With nonnegative token counts, no fragment dropped for the budget would fit beside the final admitted set. */
  lemma {:induction false} BudgetDropsWouldNotFit(g: Guard, fragments: seq<Fragment>, principal: Principal, scope: Option<AuthorizedScope>)
    requires forall f :: f in fragments ==> Cost(f) >= 0
    ensures var d := Decide(g, fragments, principal, scope);
            forall drop :: drop in d.dropped && drop.reason == ContextBudgetExhausted ==> Exceeds(g, d.totalTokens + Cost(drop.fragment))
  {
    if fragments != [] {
      BudgetDropsWouldNotFit(g, fragments[..|fragments| - 1], principal, scope);
      assert fragments[|fragments| - 1] in fragments;
    }
  }

  ghost predicate InScope(f: Fragment, scope: Option<AuthorizedScope>) {
    f.owner.Some? && (scope.Some? ==> scope.value.Covers(f.owner.value))
  }

  /** What may be sent at all: owned by the caller's tenant, in scope, sendable and relevant. */
  ghost predicate MaySend(g: Guard, f: Fragment, principal: Principal, scope: Option<AuthorizedScope>) {
    && f.owner.Some? && f.owner.value.tenantId == principal.tenantId && InScope(f, scope)
    && f.classification in g.sendable && f.relevance >= g.minimumRelevance
  }

  /** What a recorded reason says of the fragment. */
  ghost predicate Explains(reason: Reason, g: Guard, f: Fragment, principal: Principal, scope: Option<AuthorizedScope>) {
    match reason
    case NoOwnerRecorded => f.owner.None?
    case CrossTenantOwner => f.owner.Some? && f.owner.value.tenantId != principal.tenantId
    case OutOfScope => f.owner.Some? && f.owner.value.tenantId == principal.tenantId && !InScope(f, scope)
    case NotSendable => InScope(f, scope) && f.classification !in g.sendable
    case BelowRelevanceFloor => InScope(f, scope) && f.classification in g.sendable && f.relevance < g.minimumRelevance
    case ContextBudgetExhausted => MaySend(g, f, principal, scope)
  }

  lemma ReasonExplains(g: Guard, f: Fragment, principal: Principal, scope: Option<AuthorizedScope>)
    requires scope.Some? ==> scope.value.Valid()
    ensures match RejectReason(g, f, principal, scope)
            case Some(reason) => reason != ContextBudgetExhausted && Explains(reason, g, f, principal, scope) && !MaySend(g, f, principal, scope)
            case None => MaySend(g, f, principal, scope)
  {
    if f.owner.Some? && scope.Some? {
      GuardIsCoverage(scope.value, f.owner.value);
    }
  }

  /** Everything admitted may be sent, and every recorded reason is true of its fragment; only the budget drops one that may be sent. */
  lemma {:induction false} ReasonsAreTrue(g: Guard, fragments: seq<Fragment>, principal: Principal, scope: Option<AuthorizedScope>)
    requires scope.Some? ==> scope.value.Valid()
    ensures var d := Decide(g, fragments, principal, scope);
            && (forall f :: f in d.admitted ==> f in fragments && MaySend(g, f, principal, scope))
            && (forall drop :: drop in d.dropped ==>
                  && Explains(drop.reason, g, drop.fragment, principal, scope)
                  && (MaySend(g, drop.fragment, principal, scope) <==> drop.reason == ContextBudgetExhausted))
  {
    if fragments != [] {
      ReasonsAreTrue(g, fragments[..|fragments| - 1], principal, scope);
      ReasonExplains(g, fragments[|fragments| - 1], principal, scope);
    }
  }

  /** Under the scope resolved for a permission, everything admitted would pass the record-level check for it. */
  lemma AdmittedAreAuthorized(g: Guard, fragments: seq<Fragment>, principal: Principal, permission: Permission)
    requires UnfilteredScope(principal, permission).Ok?
    ensures var scope := Some(UnfilteredScope(principal, permission).value);
            forall f :: f in Decide(g, fragments, principal, scope).admitted ==>
              f.owner.Some? && AuthorizeResourcePermission(principal, f.owner.value, permission).Ok?
  {
    var scope := Some(UnfilteredScope(principal, permission).value);
    ResolvedScopeShape(principal, permission);
    ReasonsAreTrue(g, fragments, principal, scope);
    forall f | f in Decide(g, fragments, principal, scope).admitted
      ensures f.owner.Some? && AuthorizeResourcePermission(principal, f.owner.value, permission).Ok? {
      assert MaySend(g, f, principal, scope);
      FourCodingsAgree(principal, permission, f.owner.value);
    }
  }

  // ---- refusing outright

  datatype Refusal = ContextRejected | ContextTooLarge

  function Enforce(g: Guard, fragments: seq<Fragment>, principal: Principal, scope: Option<AuthorizedScope>): Result<Decision, Refusal> {
    var d := Decide(g, fragments, principal, scope);
    if fragments != [] && d.admitted == [] then Err(ContextRejected)
    else if Exceeds(g, d.totalTokens) then Err(ContextTooLarge)
    else Ok(d)
  }

  /**
   The too-large refusal is dead code for every nonnegative ceiling: it needs a negative ceiling
   and no fragments at all.
   */
  lemma TooLargeExactlyWhen(g: Guard, fragments: seq<Fragment>, principal: Principal, scope: Option<AuthorizedScope>)
    ensures Enforce(g, fragments, principal, scope) == Err(ContextTooLarge)
       <==> fragments == [] && g.maxContextTokens.Some? && g.maxContextTokens.value < 0
  {
    CeilingHolds(g, fragments, principal, scope);
  }

  /** Nothing at all is too large for a negative ceiling. */
  lemma NothingIsTooLarge(principal: Principal)
    ensures Enforce(Guard(Some(-1), 0.0, {}), [], principal, None) == Err(ContextTooLarge)
  {
    TooLargeExactlyWhen(Guard(Some(-1), 0.0, {}), [], principal, None);
  }

  /** The tokens of the fragments, unknown counts costing nothing. */
  function Tokens(fs: seq<Fragment>): int {
    if fs == [] then 0
    else match fs[|fs| - 1].estimatedTokens
      case Some(tokens) => Tokens(fs[..|fs| - 1]) + tokens
      case None => Tokens(fs[..|fs| - 1])
  }

  lemma {:induction false} CostIsTokens(fs: seq<Fragment>)
    ensures TotalCost(fs) == Tokens(fs)
  {
    if fs != [] {
      CostIsTokens(fs[..|fs| - 1]);
    }
  }

  /** The total reported is the tokens admitted, never more than a ceiling that is set, as soon as anything is admitted. */
  lemma TotalExactly(g: Guard, fragments: seq<Fragment>, principal: Principal, scope: Option<AuthorizedScope>)
    ensures var d := Decide(g, fragments, principal, scope);
            && d.totalTokens == Tokens(d.admitted)
            && (d.admitted != [] && g.maxContextTokens.Some? ==> d.totalTokens <= g.maxContextTokens.value)
  {
    CeilingHolds(g, fragments, principal, scope);
    CostIsTokens(Decide(g, fragments, principal, scope).admitted);
  }

  /** Everything refused is an error, nothing to refuse is not; otherwise the decision is handed on. */
  lemma EnforcedExactly(g: Guard, fragments: seq<Fragment>, principal: Principal, scope: Option<AuthorizedScope>)
    ensures var d, r := Decide(g, fragments, principal, scope), Enforce(g, fragments, principal, scope);
            && (r == Err(ContextRejected) <==> fragments != [] && d.admitted == [])
            && (r.Ok? ==> r.value == d)
            && (r.Ok? <==> d.admitted != [] || (fragments == [] && (g.maxContextTokens.None? || g.maxContextTokens.value >= 0)))
  {
    CeilingHolds(g, fragments, principal, scope);
    TooLargeExactlyWhen(g, fragments, principal, scope);
  }
}
