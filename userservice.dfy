/** `UserService`: account creation, password token issuance, and
    get-or-create of a user by an external (provider, key) login. */
module UserService {
  import opened Wrappers
  import opened Authorization
  import opened Identity
  import opened Tokens

  /** `UserInfo` and `ExternalUserInfo`, the request bodies. */
  datatype UserInfo = UserInfo(username: string, password: string)
  datatype ExternalUserInfo = ExternalUserInfo(username: string, keyProvider: string)

  datatype AuthenticationToken = AuthenticationToken(token: SecurityToken)

  /** The subject a token was issued for. */
  function Subject(t: AuthenticationToken): Option<string> {
    if |t.token.claims| > 0 && t.token.claims[0].claimType == SubClaimType
    then Some(t.token.claims[0].value) else None
  }

  /** `CreateUserAsync`: a user named as submitted, with the submitted password. */
  method CreateUser(userManager: UserStore, newUser: UserInfo) returns (result: IdentityResult)
    requires userManager.Valid()
    modifies userManager
    ensures userManager.Valid()
    ensures result.Succeeded? <==>
      && userManager.passwordPolicy(newUser.password)
      && ValidUserName(newUser.username)
      && old(userManager.FindByName(newUser.username)).None?
    ensures result.Succeeded? ==>
      && userManager.FindByName(newUser.username) == Some(User(newUser.username))
      && userManager.CheckPassword(User(newUser.username), newUser.password)
      && userManager.users == old(userManager.users)[Normalize(newUser.username) := User(newUser.username)]
    ensures !result.Succeeded? ==>
      userManager.users == old(userManager.users) && userManager.passwords == old(userManager.passwords)
    ensures userManager.logins == old(userManager.logins)
  {
    result := userManager.Create(User(newUser.username), Some(newUser.password));
  }

  /** `GenerateTokenAsync`: a token iff a user of that name exists and the
      password matches; the token is for the stored user name and never admin. */
  method GenerateToken(userManager: UserStore, tokenService: TokenService, userInfo: UserInfo,
                       now: int, jti: string)
    returns (r: Option<AuthenticationToken>)
    requires WellFormed(tokenService)
    ensures r.Some? <==>
      userManager.FindByName(userInfo.username).Some?
      && userManager.CheckPassword(userManager.FindByName(userInfo.username).value, userInfo.password)
    ensures r.Some? ==> Subject(r.value) == Some(userManager.FindByName(userInfo.username).value.userName)
    ensures r.Some? ==> Claim(RoleClaimType, AdminRole) !in r.value.token.claims
    ensures r.Some? ==> r.value.token.issuedAt == now && r.value.token.expires == now + TokenLifetimeSeconds
  {
    var user := userManager.FindByName(userInfo.username);
    if user.Some? && userManager.CheckPassword(user.value, userInfo.password) {
      var token := Tokens.GenerateToken(tokenService, user.value.userName, false, now, jti);
      assert token.claims[0] == token.claims[..2][0];
      return Some(AuthenticationToken(token));
    }
    return None;
  }

  /** `GenerateExternalTokenAsync`: reuse the user bound to (provider, key);
      otherwise create a user with the submitted name and bind the login to it
      only if creation succeeded. A token, for the stored user's name, comes
      back iff the overall result succeeded; on failure nothing is stored. */
  method GenerateExternalToken(userManager: UserStore, tokenService: TokenService, provider: string,
                               userInfo: ExternalUserInfo, now: int, jti: string)
    returns (token: Option<AuthenticationToken>, result: IdentityResult)
    requires userManager.Valid() && WellFormed(tokenService)
    modifies userManager
    ensures userManager.Valid()
    ensures token.Some? <==> result.Succeeded?
    ensures token.Some? ==> Claim(RoleClaimType, AdminRole) !in token.value.token.claims
    ensures old(userManager.FindByLogin(provider, userInfo.keyProvider)).Some? ==>
      && result.Succeeded?
      && userManager.users == old(userManager.users)
      && userManager.logins == old(userManager.logins)
      && Subject(token.value) == Some(old(userManager.FindByLogin(provider, userInfo.keyProvider)).value.userName)
    ensures old(userManager.FindByLogin(provider, userInfo.keyProvider)).None? ==>
      (result.Succeeded? <==> ValidUserName(userInfo.username) && old(userManager.FindByName(userInfo.username)).None?)
    ensures old(userManager.FindByLogin(provider, userInfo.keyProvider)).None? && result.Succeeded? ==>
      && userManager.users == old(userManager.users)[Normalize(userInfo.username) := User(userInfo.username)]
      && userManager.logins == old(userManager.logins)[(provider, userInfo.keyProvider) := Normalize(userInfo.username)]
      && Subject(token.value) == Some(userInfo.username)
    ensures result.Succeeded? ==>
      userManager.FindByLogin(provider, userInfo.keyProvider).Some?
      && Subject(token.value) == Some(userManager.FindByLogin(provider, userInfo.keyProvider).value.userName)
    ensures !result.Succeeded? ==>
      userManager.users == old(userManager.users) && userManager.logins == old(userManager.logins)
    ensures userManager.passwords == old(userManager.passwords)
  {
    var user := userManager.FindByLogin(provider, userInfo.keyProvider);
    result := Succeeded;
    var found: User;
    if user.None? {
      found := User(userInfo.username);
      result := userManager.Create(found, None);
      if result.Succeeded? {
        result := userManager.AddLogin(found, provider, userInfo.keyProvider);
      }
    } else {
      found := user.value;
    }
    if result.Succeeded? {
      var t := Tokens.GenerateToken(tokenService, found.userName, false, now, jti);
      assert t.claims[0] == t.claims[..2][0];
      return Some(AuthenticationToken(t)), result;
    }
    return None, result;
  }

  /** Signing in twice with the same external identity: once the first call
      succeeded, the second reuses that user, adds no user or login, and issues
      a token for the same subject. */
  method ExternalLoginTwice(userManager: UserStore, tokenService: TokenService, provider: string,
                            first: ExternalUserInfo, second: ExternalUserInfo, now: int, jti1: string, jti2: string)
    returns (token1: Option<AuthenticationToken>, token2: Option<AuthenticationToken>)
    requires userManager.Valid() && WellFormed(tokenService)
    requires first.keyProvider == second.keyProvider
    modifies userManager
    ensures userManager.Valid()
    ensures token1.Some? ==> token2.Some? && Subject(token2.value) == Subject(token1.value)
    ensures token1.Some? ==> userManager.users.Keys <= old(userManager.users.Keys) + {Normalize(first.username)}
  {
    var r1, r2;
    token1, r1 := GenerateExternalToken(userManager, tokenService, provider, first, now, jti1);
    token2, r2 := GenerateExternalToken(userManager, tokenService, provider, second, now, jti2);
  }
}
