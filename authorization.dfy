/** The per-request current-user context (CurrentUser.cs), the claims
    transformation that fills it (CurrentUserAuthorization.cs), and the
    authorization handler that admits a request only when a stored user was
    found (CurrentUserAuthorizationHandler.cs). */
module Authorization {
  import opened Wrappers
  import opened Text
  import opened Identity

  /** `ClaimTypes.NameIdentifier` and `ClaimTypes.Role`. */
  const NameIdentifierClaimType: string := "http://schemas.xmlsoap.org/ws/2005/05/identity/claims/nameidentifier"
  const RoleClaimType: string := "http://schemas.microsoft.com/ws/2008/06/identity/claims/role"
  const AdminRole: string := "admin"

  datatype Claim = Claim(claimType: string, value: string)

  datatype ClaimsPrincipal = ClaimsPrincipal(claims: seq<Claim>)

  /** Claim types are compared ignoring case (`StringComparison.OrdinalIgnoreCase`). */
  predicate SameClaimType(a: string, b: string) {
    |a| == |b| && forall i :: 0 <= i < |a| ==> UpperChar(a[i]) == UpperChar(b[i])
  }

  /** `FindFirstValue`: the value of the first claim whose type matches,
      ignoring case. */
  function FindFirstValue(claims: seq<Claim>, claimType: string): (r: Option<string>)
    ensures r.None? <==> forall i :: 0 <= i < |claims| ==> !SameClaimType(claims[i].claimType, claimType)
    ensures r.Some? ==> exists i :: 0 <= i < |claims| && SameClaimType(claims[i].claimType, claimType)
                                    && claims[i].value == r.value
                                    && forall j :: 0 <= j < i ==> !SameClaimType(claims[j].claimType, claimType)
  {
    if claims == [] then None
    else if SameClaimType(claims[0].claimType, claimType) then Some(claims[0].value)
    else
      var r := FindFirstValue(claims[1..], claimType);
      assert r.Some? ==> exists i :: 0 <= i < |claims[1..]| && SameClaimType(claims[1..][i].claimType, claimType)
                                    && claims[1..][i].value == r.value
                                    && (forall j :: 0 <= j < i ==> !SameClaimType(claims[1..][j].claimType, claimType));
      assert r.Some? ==> exists i :: 1 <= i < |claims| && SameClaimType(claims[i].claimType, claimType)
                                    && claims[i].value == r.value
                                    && (forall j :: 0 <= j < i ==> !SameClaimType(claims[j].claimType, claimType));
      r
  }

  /** The lookup does not depend on the letter case of the type asked for:
      a NameIdentifier claim written in capitals is found all the same. */
  lemma {:induction false} FindFirstValueIgnoresTypeCase(claims: seq<Claim>, t1: string, t2: string)
    requires SameClaimType(t1, t2)
    ensures FindFirstValue(claims, t1) == FindFirstValue(claims, t2)
  {
    if claims != [] {
      assert SameClaimType(claims[0].claimType, t1) <==> SameClaimType(claims[0].claimType, t2);
      FindFirstValueIgnoresTypeCase(claims[1..], t1, t2);
    }
  }

  /** `IsInRole`: some claim of the role type (ignoring case) carries exactly the role. */
  predicate IsInRole(principal: ClaimsPrincipal, role: string) {
    exists i :: 0 <= i < |principal.claims| && SameClaimType(principal.claims[i].claimType, RoleClaimType)
                && principal.claims[i].value == role
  }

  /** What the todo handlers read from the current user: `Id` and `IsAdmin`. */
  datatype Caller = Caller(id: string, isAdmin: bool)

  /** The scoped `CurrentUser`: both properties start out null. */
  class CurrentUser {
    var user: Option<User>
    var principal: Option<ClaimsPrincipal>

    constructor ()
      ensures user == None && principal == None
    {
      user, principal := None, None;
    }

    /** `Id`: the first NameIdentifier claim (the `!` does not make it non-null). */
    function Id(): Option<string>
      reads this
      requires principal.Some?
    {
      FindFirstValue(principal.value.claims, NameIdentifierClaimType)
    }

    predicate IsAdmin()
      reads this
      requires principal.Some?
    {
      IsInRole(principal.value, AdminRole)
    }

    function AsCaller(): Caller
      reads this
      requires principal.Some? && Id().Some?
    {
      Caller(Id().value, IsAdmin())
    }
  }

  /** `ClaimsTransformation.TransformAsync`: record the principal, look the
      user up by a non-empty NameIdentifier, and hand the principal back. */
  method TransformAsync(currentUser: CurrentUser, userManager: UserStore, principal: ClaimsPrincipal)
    returns (r: ClaimsPrincipal)
    modifies currentUser
    ensures r == principal
    ensures currentUser.principal == Some(principal)
    ensures match FindFirstValue(principal.claims, NameIdentifierClaimType)
      case Some(name) =>
        currentUser.user == (if |name| > 0 then userManager.FindByName(name) else old(currentUser.user))
      case None => currentUser.user == old(currentUser.user)
  {
    currentUser.principal := Some(principal);
    var name := FindFirstValue(principal.claims, NameIdentifierClaimType);
    if name.Some? && |name.value| > 0 {
      currentUser.user := userManager.FindByName(name.value);
    }
    r := principal;
  }

  datatype Requirement = CheckCurrentUserRequirement

  /** The framework's `AuthorizationHandlerContext`, reduced to what a handler
      can change: the pending requirements and whether Succeed or Fail was called. */
  class AuthorizationHandlerContext {
    var pendingRequirements: set<Requirement>
    var succeedCalled: bool
    var failCalled: bool

    constructor (requirements: set<Requirement>)
      ensures pendingRequirements == requirements && !succeedCalled && !failCalled
    {
      pendingRequirements, succeedCalled, failCalled := requirements, false, false;
    }

    method Succeed(requirement: Requirement)
      modifies this
      ensures pendingRequirements == old(pendingRequirements) - {requirement}
      ensures succeedCalled && failCalled == old(failCalled)
    {
      pendingRequirements := pendingRequirements - {requirement};
      succeedCalled := true;
    }

    /** `HasSucceeded`: nothing pending, Succeed called, Fail never called. */
    predicate HasSucceeded()
      reads this
    {
      pendingRequirements == {} && succeedCalled && !failCalled
    }
  }

  /** `CurrentUserAuthorizationHandler.HandleRequirementAsync`: succeed iff a
      stored user was found; otherwise leave the requirement pending without
      calling Fail. The current user is only read. */
  method HandleRequirementAsync(currentUser: CurrentUser, context: AuthorizationHandlerContext,
                                requirement: Requirement)
    modifies context
    ensures currentUser.user.Some? ==>
      context.pendingRequirements == old(context.pendingRequirements) - {requirement} && context.succeedCalled
    ensures currentUser.user.None? ==>
      context.pendingRequirements == old(context.pendingRequirements)
      && context.succeedCalled == old(context.succeedCalled)
    ensures context.failCalled == old(context.failCalled)
  {
    if currentUser.user.Some? {
      context.Succeed(requirement);
    }
  }

  /** One request through both steps with a fresh scoped CurrentUser and the
      single current-user requirement: it is admitted exactly when the principal
      carries a non-empty NameIdentifier naming a stored user, and then the
      handlers see that name as the caller's id. */
  method AuthorizeRequest(userManager: UserStore, principal: ClaimsPrincipal)
    returns (admitted: bool, caller: Option<Caller>)
    ensures admitted <==>
      exists name :: FindFirstValue(principal.claims, NameIdentifierClaimType) == Some(name)
                     && |name| > 0 && userManager.FindByName(name).Some?
    ensures admitted ==> caller == Some(Caller(FindFirstValue(principal.claims, NameIdentifierClaimType).value,
                                               IsInRole(principal, AdminRole)))
    ensures !admitted ==> caller == None
  {
    var currentUser := new CurrentUser();
    var _ := TransformAsync(currentUser, userManager, principal);
    var context := new AuthorizationHandlerContext({CheckCurrentUserRequirement});
    HandleRequirementAsync(currentUser, context, CheckCurrentUserRequirement);
    admitted := context.HasSucceeded();
    ghost var id := FindFirstValue(principal.claims, NameIdentifierClaimType);
    assert admitted <==> currentUser.user.Some?;
    assert currentUser.user.Some? <==> id.Some? && |id.value| > 0 && userManager.FindByName(id.value).Some?;
    if admitted {
      caller := Some(currentUser.AsCaller());
    } else {
      caller := None;
    }
  }
}
