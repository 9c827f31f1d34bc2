/** Bearer-token authentication and role checks. Signing and verifying a
    token (a JSON Web Token signed with the server secret, expiring after 24
    hours) and comparing a password with its bcrypt hash are foreign code;
    they enter as function parameters. */
module Auth {
  import opened Records
  import opened Database

  /** The claims a session token carries. The tenant's slug and plan are
      copied from the user record, where they are absent when the user's
      tenant is missing. */
  datatype Payload = Payload(userId: int, email: string, role: Role, tenantId: int,
                             tenantSlug: Option<string>, tenantPlan: Option<Plan>)

  /** The ways `jwt.verify` throws: a malformed token, a bad signature, an
      expired token. */
  datatype JwtFailure = Malformed | BadSignature | Expired

  /** What `jwt.verify` does with one token: decodes it, or throws. */
  datatype JwtOutcome = Decoded(payload: Payload) | Thrown(failure: JwtFailure)

  /** The errors `requireAuth` and `requireRole` throw. */
  datatype AuthError = AuthenticationRequired | InvalidOrExpiredToken | AdminAccessRequired

  /** The outcome of `requireRole`: it returns, or it throws. */
  datatype Check = Pass | Fail(error: AuthError)

  /** The message of the thrown error, which the handlers test. */
  function Message(e: AuthError): string
  {
    match e
    case AuthenticationRequired => "Authentication required"
    case InvalidOrExpiredToken => "Invalid or expired token"
    case AdminAccessRequired => "Admin access required"
  }

  /** The handlers tell the error kinds apart by message alone. */
  lemma MessagesDistinguishErrors(a: AuthError, b: AuthError)
    ensures Message(a) == Message(b) <==> a == b
  {
    if a != b {
      match a
      case AuthenticationRequired => assert Message(a)[1] != Message(b)[1];
      case InvalidOrExpiredToken => assert Message(a)[1] != Message(b)[1];
      case AdminAccessRequired => assert Message(a)[1] != Message(b)[1];
    }
  }

  /** `generateToken`'s payload: the user's id, email, role and tenant, with
      the tenant's slug and plan. */
  function TokenPayload(user: UserView): (p: Payload)
    ensures p.userId == user.user.id && p.email == user.user.email && p.role == user.user.role
    ensures p.tenantId == user.user.tenantId
    ensures p.tenantSlug == user.tenantSlug && p.tenantPlan == user.tenantPlan
  {
    Payload(user.user.id, user.user.email, user.user.role, user.user.tenantId, user.tenantSlug, user.tenantPlan)
  }

  /** `generateToken`: `sign` stands for `jwt.sign` with the server secret
      and the 24-hour expiry. */
  function GenerateToken(user: UserView, sign: Payload -> string): string
  {
    sign(TokenPayload(user))
  }

  /** `verifyToken`: whatever makes `jwt.verify` throw becomes "no payload";
      nothing escapes to the caller. */
  function VerifyToken(token: string, jwtVerify: string -> JwtOutcome): (r: Option<Payload>)
    ensures r.None? <==> jwtVerify(token).Thrown?
    ensures r.Some? ==> r.value == jwtVerify(token).payload
  {
    match jwtVerify(token)
    case Decoded(p) => Some(p)
    case Thrown(_) => None
  }

  /** `authenticateUser`: the user with this email when the password matches
      its hash; nothing when no user has the email or the password is wrong.
      `passwordMatches` stands for `bcrypt.compareSync`. */
  function AuthenticateUser(db: Store, email: string, password: string,
                            passwordMatches: (string, string) -> bool): (r: Option<UserView>)
    reads db
    ensures r.None? <==>
      (forall i :: 0 <= i < |db.users| ==> db.users[i].email != email) ||
      !passwordMatches(password, db.GetUserByEmail(email).value.user.passwordHash)
    ensures r.Some? ==>
      r.value.user in db.users && r.value.user.email == email &&
      passwordMatches(password, r.value.user.passwordHash)
    ensures r.Some? ==> r == db.GetUserByEmail(email)
  {
    var user := db.GetUserByEmail(email);
    if user.None? then None
    else if !passwordMatches(password, user.value.user.passwordHash) then None
    else user
  }

  /** A token issued at login names the user's email and an existing tenant
      of the user, with that tenant's slug and plan. */
  lemma LoginPayloadNamesTenant(db: Store, email: string, password: string,
                                passwordMatches: (string, string) -> bool)
    requires db.Valid()
    requires AuthenticateUser(db, email, password, passwordMatches).Some?
    ensures var p := TokenPayload(AuthenticateUser(db, email, password, passwordMatches).value);
      && p.email == email && p.tenantSlug.Some? && p.tenantPlan.Some?
      && exists k :: 0 <= k < |db.tenants| && db.tenants[k].id == p.tenantId &&
           db.tenants[k].slug == p.tenantSlug.value && db.tenants[k].plan == p.tenantPlan.value
  {
    var u := db.GetUserByEmail(email).value;
    assert u == db.JoinTenant(u.user);
  }

  /** `extractTokenFromHeader`: the text after the literal "Bearer " prefix;
      nothing for a missing header or one without that prefix. */
  function ExtractTokenFromHeader(authHeader: Option<string>): (r: Option<string>)
    ensures r.Some? <==>
      authHeader.Some? && |authHeader.value| >= 7 && authHeader.value[..7] == "Bearer "
    ensures r.Some? ==> authHeader.value == "Bearer " + r.value
  {
    if authHeader.None? || authHeader.value == "" || !("Bearer " <= authHeader.value) then None
    else Some(authHeader.value[7..])
  }

  /** Extraction undoes putting the prefix in front of a token. */
  lemma ExtractBearer(token: string)
    ensures ExtractTokenFromHeader(Some("Bearer " + token)) == Some(token)
  {
    assert ("Bearer " + token)[..7] == "Bearer ";
  }

  /** `requireAuth`: "Authentication required" for a missing or empty token,
      "Invalid or expired token" when verification fails, and otherwise the
      verified payload as it is. */
  function RequireAuth(token: Option<string>, jwtVerify: string -> JwtOutcome): (r: Result<Payload, AuthError>)
    ensures r == Failure(AuthenticationRequired) <==> token.None? || token.value == ""
    ensures r == Failure(InvalidOrExpiredToken) <==>
      token.Some? && token.value != "" && jwtVerify(token.value).Thrown?
    ensures r.Success? ==> token.Some? && jwtVerify(token.value) == Decoded(r.value)
    ensures r.Failure? ==> r.error != AdminAccessRequired
  {
    if token.None? || token.value == "" then Failure(AuthenticationRequired)
    else
      var payload := VerifyToken(token.value, jwtVerify);
      if payload.None? then Failure(InvalidOrExpiredToken)
      else Success(payload.value)
  }

  /** The header "Bearer " carries an empty token: that is a missing
      credential, not an invalid one. */
  lemma EmptyBearerIsUnauthenticated(jwtVerify: string -> JwtOutcome)
    ensures RequireAuth(ExtractTokenFromHeader(Some("Bearer ")), jwtVerify) == Failure(AuthenticationRequired)
  {
    ExtractBearer("");
    assert "Bearer " + "" == "Bearer ";
  }

  /** A token issued for a user, when `jwt.verify` decodes what `jwt.sign`
      produced, authenticates as exactly that user's payload. */
  lemma IssuedTokenAuthenticates(user: UserView, sign: Payload -> string, jwtVerify: string -> JwtOutcome)
    requires GenerateToken(user, sign) != ""
    requires jwtVerify(GenerateToken(user, sign)) == Decoded(TokenPayload(user))
    ensures RequireAuth(ExtractTokenFromHeader(Some("Bearer " + GenerateToken(user, sign))), jwtVerify)
            == Success(TokenPayload(user))
  {
    ExtractBearer(GenerateToken(user, sign));
  }

  /** `requireRole`: throws "Admin access required" exactly when an admin is
      required and the payload's role is not admin. */
  function RequireRole(user: Payload, requiredRole: Role): (r: Check)
    ensures r.Fail? <==> requiredRole == Admin && user.role != Admin
    ensures r.Fail? ==> r.error == AdminAccessRequired
  {
    if requiredRole == Admin && user.role != Admin then Fail(AdminAccessRequired) else Pass
  }
}
