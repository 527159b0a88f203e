/** `TokenService`: the bearer-token issuer. Construction reads the signing
    key, the issuer and the audiences from the Bearer scheme's configuration;
    `GenerateToken` assembles the registered JWT claims of RFC 7519
    (sub, section 4.1.2; jti, section 4.1.7; aud, section 4.1.3) plus an
    optional admin role, with issuer (section 4.1.1) and a 30-minute validity
    window (nbf, iat and exp, sections 4.1.4 to 4.1.6). HS256 signing
    (RFC 7518 section 3.2) and serialisation are not modelled: the token is
    its payload and the key it would be signed with. */
module Tokens {
  import opened Wrappers
  import opened Authorization

  /** `JwtRegisteredClaimNames.Sub`, `.Jti` and `.Aud`. */
  const SubClaimType: string := "sub"
  const JtiClaimType: string := "jti"
  const AudClaimType: string := "aud"

  /** `expires: DateTime.UtcNow.AddMinutes(30)`, in seconds. */
  const TokenLifetimeSeconds: int := 30 * 60

  /** The Bearer scheme's configuration section: `SigningKeys:0:Value`,
      `ValidIssuer` and the values of the `ValidAudiences` children. */
  datatype BearerConfig = BearerConfig(
    signingKeyValue: Option<string>,
    validIssuer: Option<string>,
    validAudiences: seq<Option<string>>)

  /** The two `InvalidOperationException`s of the constructor, and the
      `ArgumentException` of `SymmetricSecurityKey` for a key of zero bytes. */
  datatype ConfigError = SigningKeyNotSpecified | IssuerNotSpecified | EmptySigningKey

  /** The characters `Convert.FromBase64String` skips. */
  predicate Base64WhiteSpace(c: char) {
    c == ' ' || c == '\t' || c == '\r' || c == '\n'
  }

  /** A key value that decodes to zero bytes: empty, or only skipped white space. */
  predicate DecodesToNoBytes(key: string) {
    forall i :: 0 <= i < |key| ==> Base64WhiteSpace(key[i])
  }

  datatype TokenService = TokenService(issuer: string, signingKey: string, audiences: seq<Claim>)

  /** A token as the JWT handler would sign it. */
  datatype SecurityToken = SecurityToken(
    issuer: string,
    claims: seq<Claim>,
    notBefore: int,
    expires: int,
    issuedAt: int,
    signingKey: string)

  /** `Where(s => !string.IsNullOrEmpty(s.Value)).Select(s => new Claim(Aud, s.Value))`. */
  function AudienceClaims(values: seq<Option<string>>): seq<Claim> {
    if values == [] then []
    else (if values[0].Some? && values[0].value != "" then [Claim(AudClaimType, values[0].value)] else [])
         + AudienceClaims(values[1..])
  }

  /** The audience claims are exactly the non-empty configured values. */
  lemma {:induction false} AudienceClaimsMembers(values: seq<Option<string>>)
    ensures forall c :: c in AudienceClaims(values) ==> c.claimType == AudClaimType && c.value != ""
    ensures forall v :: Claim(AudClaimType, v) in AudienceClaims(values) <==> v != "" && Some(v) in values
  {
    if values != [] {
      AudienceClaimsMembers(values[1..]);
      assert forall o :: o in values <==> o == values[0] || o in values[1..];
    }
  }

  /** The audience claims keep the configuration order. */
  lemma {:induction false} AudienceClaimsAppend(a: seq<Option<string>>, b: seq<Option<string>>)
    ensures AudienceClaims(a + b) == AudienceClaims(a) + AudienceClaims(b)
  {
    if a == [] {
      assert a + b == b;
    } else {
      assert (a + b)[0] == a[0] && (a + b)[1..] == a[1..] + b;
      AudienceClaimsAppend(a[1..], b);
    }
  }

  /** What the constructor builds: every audience claim is an `aud` claim. */
  predicate WellFormed(service: TokenService) {
    forall c :: c in service.audiences ==> c.claimType == AudClaimType
  }

  /** The constructor: a missing signing key is reported first, then a missing
      issuer, then a key that decodes to no bytes; otherwise the service keeps
      the issuer, the key and the non-empty audiences. */
  function NewTokenService(config: BearerConfig): (r: Result<TokenService, ConfigError>)
    ensures r.Failure? <==> config.signingKeyValue.None? || config.validIssuer.None?
                            || DecodesToNoBytes(config.signingKeyValue.value)
    ensures config.signingKeyValue.None? ==> r == Failure(SigningKeyNotSpecified)
    ensures config.signingKeyValue.Some? && config.validIssuer.None? ==> r == Failure(IssuerNotSpecified)
    ensures config.signingKeyValue.Some? && config.validIssuer.Some? && DecodesToNoBytes(config.signingKeyValue.value)
            ==> r == Failure(EmptySigningKey)
    ensures r.Success? ==> r.value.issuer == config.validIssuer.value
                           && r.value.signingKey == config.signingKeyValue.value
                           && r.value.signingKey != ""
                           && r.value.audiences == AudienceClaims(config.validAudiences)
                           && WellFormed(r.value)
  {
    match config.signingKeyValue
    case None => Failure(SigningKeyNotSpecified)
    case Some(key) =>
      match config.validIssuer
      case None => Failure(IssuerNotSpecified)
      case Some(issuer) =>
        if DecodesToNoBytes(key) then Failure(EmptySigningKey)
        else
          AudienceClaimsMembers(config.validAudiences);
          Success(TokenService(issuer, key, AudienceClaims(config.validAudiences)))
  }

  /** `GenerateToken`: sub and jti first, the admin role claim iff asked for,
      then every audience claim; issued by the configured issuer, valid from
      `now` for 30 minutes. `jti` stands for the random token id. */
  method GenerateToken(service: TokenService, username: string, isAdministrator: bool, now: int, jti: string)
    returns (token: SecurityToken)
    requires WellFormed(service)
    ensures |token.claims| == 2 + (if isAdministrator then 1 else 0) + |service.audiences|
    ensures token.claims[..2] == [Claim(SubClaimType, username), Claim(JtiClaimType, jti)]
    ensures Claim(RoleClaimType, AdminRole) in token.claims <==> isAdministrator
    ensures token.claims[|token.claims| - |service.audiences|..] == service.audiences
    ensures token.issuer == service.issuer && token.signingKey == service.signingKey
    ensures token.notBefore == now && token.issuedAt == now
    ensures token.expires == now + TokenLifetimeSeconds
  {
    var claims: seq<Claim> := [];
    claims := claims + [Claim(SubClaimType, username)];
    claims := claims + [Claim(JtiClaimType, jti)];
    if isAdministrator {
      claims := claims + [Claim(RoleClaimType, AdminRole)];
    }
    claims := claims + service.audiences;
    token := SecurityToken(service.issuer, claims, now, now + TokenLifetimeSeconds, now, service.signingKey);
  }
}
