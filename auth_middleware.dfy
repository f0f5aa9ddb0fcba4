/** The two route guards: `authenticate`, which reads a bearer token from the `Authorization`
    header and attaches the user it names to the request, and `isAdmin`, which lets through
    only a request whose attached user has the `admin` role. */
module AuthGate {
  import opened Js
  import opened Crypto
  import opened UserStore
  import opened Auth

  /** The parts of an Express request the guards use: the `Authorization` header, which they
      only read, and `req.user`, which `authenticate` sets. */
  class Request {
    const authorization: Option<string>
    var user: Option<UserDto>

    constructor (authorization: Option<string>)
      ensures this.authorization == authorization && user == None
    {
      this.authorization := authorization;
      user := None;
    }
  }

  /** What a guard does with a request: call `next()`, or answer with a status and a JSON
      `message`. */
  datatype GateOutcome = Next | Respond(status: int, message: string)

  const AuthRequired := "Authentification requise"
  const TokenRejected := "Token invalide ou expiré"
  const AdminRequired := "Accès refusé. Droits d'administrateur requis"
  const BearerPrefix := "Bearer "
  const AdminRole := "admin"

  /** The token of an `Authorization` header: none unless the header is present, non-empty and
      starts with `Bearer `; otherwise the second piece of the header split on single spaces,
      that is, the text after `Bearer ` up to the next space. */
  function BearerToken(header: Option<string>): (token: Option<string>)
    ensures token.Some? <==> header.Some? && StartsWith(header.value, BearerPrefix)
    ensures token.Some? ==>
              var rest := header.value[|BearerPrefix|..];
              && ' ' !in token.value
              && StartsWith(rest, token.value)
              && (|token.value| == |rest| || rest[|token.value|] == ' ')
  {
    if header.None? || header.value == "" || !StartsWith(header.value, BearerPrefix) then None
    else
      var rest := header.value[|BearerPrefix|..];
      assert header.value == "Bearer" + " " + rest;
      SplitAfterWord("Bearer", rest);
      SplitFirstPiece(rest);
      SplitOnSpaceJoins(rest);
      Some(SplitOnSpace(header.value)[1])
  }

  /** A header that is `Bearer ` followed by a space-free token yields exactly that token. */
  lemma {:induction false} BearerTokenOfHeader(token: string)
    requires ' ' !in token
    ensures BearerToken(Some(BearerPrefix + token)) == Some(token)
  {
    var header := BearerPrefix + token;
    assert header[..|BearerPrefix|] == BearerPrefix;
    assert header[|BearerPrefix|..] == token;
    SplitAfterWord("Bearer", token);
    assert header == "Bearer" + " " + token;
    SplitWithoutSpace(token);
  }

  /** What `authenticate` decides: the user to attach, or the message of its 401 answer. */
  datatype Authentication = Authenticated(user: UserDto) | Unauthenticated(message: string)

  /** `authenticate`'s decision over the table as it is: a missing or non-bearer header is
      refused as unauthenticated, a token that does not validate as invalid or expired, and
      otherwise the request goes on with the user `validateToken` returned. */
  function AuthenticateOn(s: Settings, t: Table, header: Option<string>, now: Timestamp): (a: Authentication)
    ensures BearerToken(header).None? ==> a == Unauthenticated(AuthRequired)
    ensures BearerToken(header).Some? && ValidateTokenOn(s, t, BearerToken(header).value, now).None?
            ==> a == Unauthenticated(TokenRejected)
    ensures a.Authenticated? <==>
            BearerToken(header).Some? && ValidateTokenOn(s, t, BearerToken(header).value, now).Some?
    ensures a.Authenticated? ==> a.user == ValidateTokenOn(s, t, BearerToken(header).value, now).value
    ensures a.Authenticated? ==>
              exists i | 0 <= i < |t.rows| ::
                && t.rows[i].id == s.crypto.verify(BearerToken(header).value, s.secret, now).value.id
                && a.user == ToDto(t.rows[i])
  {
    var token := BearerToken(header);
    if token.None? then Unauthenticated(AuthRequired)
    else
      var user := ValidateTokenOn(s, t, token.value, now);
      if user.None? then Unauthenticated(TokenRejected) else Authenticated(user.value)
  }

  /** `isAdmin`: 401 when no user is attached, 403 when the attached user is not an
      administrator, `next()` otherwise. */
  function IsAdmin(user: Option<UserDto>): (out: GateOutcome)
    ensures out == Next <==> user.Some? && user.value.role == AdminRole
    ensures out == Respond(401, AuthRequired) <==> user.None?
    ensures out == Respond(403, AdminRequired) <==> user.Some? && user.value.role != AdminRole
  {
    if user.None? then Respond(401, AuthRequired)
    else if user.value.role != AdminRole then Respond(403, AdminRequired)
    else Next
  }

  /** An admin-only route: `authenticate`, then `isAdmin` on the request it passed on. */
  function AdminRoute(s: Settings, t: Table, header: Option<string>, now: Timestamp): GateOutcome {
    match AuthenticateOn(s, t, header, now)
    case Unauthenticated(message) => Respond(401, message)
    case Authenticated(user) => IsAdmin(Some(user))
  }

  /** A validated user is an administrator exactly when the token verifies and the row with its
      id is stored with the role `admin`. */
  lemma ValidatedAdmin(s: Settings, t: Table, token: string, now: Timestamp)
    requires Consistent(t)
    ensures (ValidateTokenOn(s, t, token, now).Some? && ValidateTokenOn(s, t, token, now).value.role == AdminRole)
            <==>
            && s.crypto.verify(token, s.secret, now).Some?
            && exists i | 0 <= i < |t.rows| ::
                 t.rows[i].id == s.crypto.verify(token, s.secret, now).value.id && t.rows[i].role == AdminRole
  {
    var decoded := s.crypto.verify(token, s.secret, now);
    if decoded.Some? && exists i | 0 <= i < |t.rows| :: t.rows[i].id == decoded.value.id {
      var i :| 0 <= i < |t.rows| && t.rows[i].id == decoded.value.id;
      LookupsFindTheRow(t, i);
      assert forall j | 0 <= j < |t.rows| && t.rows[j].id == decoded.value.id :: j == i;
    }
  }

  /** An admin-only route goes on exactly when the token verifies and the row with its id is
      stored with the role `admin`, whatever role the token itself claims. */
  lemma AdminRouteNeedsStoredAdmin(s: Settings, t: Table, header: Option<string>, now: Timestamp)
    requires Consistent(t)
    ensures AdminRoute(s, t, header, now) == Next <==>
            && BearerToken(header).Some?
            && s.crypto.verify(BearerToken(header).value, s.secret, now).Some?
            && exists i | 0 <= i < |t.rows| ::
                 && t.rows[i].id == s.crypto.verify(BearerToken(header).value, s.secret, now).value.id
                 && t.rows[i].role == AdminRole
  {
    var token := BearerToken(header);
    if token.Some? {
      ValidatedAdmin(s, t, token.value, now);
    }
  }

  /** The account a registration creates passes `authenticate` with its own token until the
      token expires, and is then refused by `isAdmin` with 403. */
  lemma RegisteredUserIsNotAdmin(s: Settings, t: Table, data: RegisterData, salt: Salt, now: Timestamp, later: Timestamp)
    requires Lawful(s.crypto) && Consistent(t)
    requires RegisterOn(s, t, data, salt, now).outcome.Returned?
    requires later < now + s.crypto.lifetime(s.expiresIn)
    ensures var r := RegisterOn(s, t, data, salt, now);
            var header := Some(BearerPrefix + r.outcome.value.token);
            && AuthenticateOn(s, r.table, header, later) == Authenticated(r.outcome.value.user)
            && AdminRoute(s, r.table, header, later) == Respond(403, AdminRequired)
  {
    var r := RegisterOn(s, t, data, salt, now);
    BearerTokenOfHeader(r.outcome.value.token);
    RegisterThenValidate(s, t, data, salt, now, later);
  }

  /** Once a registration's token has expired, `authenticate` answers 401 with the invalid-token
      message. */
  lemma ExpiredTokenIsRejected(s: Settings, t: Table, data: RegisterData, salt: Salt, now: Timestamp, later: Timestamp)
    requires Lawful(s.crypto) && Consistent(t)
    requires RegisterOn(s, t, data, salt, now).outcome.Returned?
    requires now + s.crypto.lifetime(s.expiresIn) <= later
    ensures var r := RegisterOn(s, t, data, salt, now);
            AuthenticateOn(s, r.table, Some(BearerPrefix + r.outcome.value.token), later)
            == Unauthenticated(TokenRejected)
  {
    var r := RegisterOn(s, t, data, salt, now);
    BearerTokenOfHeader(r.outcome.value.token);
    RegisterThenValidate(s, t, data, salt, now, later);
  }

  /** With `JWT_SECRET` unset, tokens are signed with the public default secret: anyone can sign
      the id of an administrator's row with it, and that token opens every admin-only route. */
  lemma DefaultSecretOpensAdminRoutes(env: map<string, string>, crypto: Primitives, t: Table, k: nat,
                                      anyRole: string, expiresIn: string, issuedAt: Timestamp, now: Timestamp)
    requires Lawful(crypto) && Consistent(t)
    requires "JWT_SECRET" !in env
    requires k < |t.rows| && t.rows[k].role == AdminRole
    requires now < issuedAt + crypto.lifetime(expiresIn)
    ensures var forged := crypto.sign(Claims(t.rows[k].id, anyRole), DefaultSecret, expiresIn, issuedAt);
            AdminRoute(SettingsFromEnv(env, crypto), t, Some(BearerPrefix + forged), now) == Next
  {
    var s := SettingsFromEnv(env, crypto);
    var forged := crypto.sign(Claims(t.rows[k].id, anyRole), DefaultSecret, expiresIn, issuedAt);
    BearerTokenOfHeader(forged);
    ValidatedRoleIsStoredRole(s, t, forged, now, k);
  }

  /** The guard object; it builds its own auth service over the shared table. */
  class AuthMiddleware {
    const authService: AuthService

    constructor (env: map<string, string>, crypto: Primitives, db: UserTable)
      ensures authService.Config() == SettingsFromEnv(env, crypto) && authService.db == db
    {
      authService := new AuthService(env, crypto, db);
    }

    /** `authenticate`: answers or calls `next()` as `AuthenticateOn` decides over the current
        table, and attaches the user to the request only when it calls `next()`. */
    method Authenticate(req: Request, now: Timestamp) returns (out: GateOutcome)
      modifies req
      ensures var a := AuthenticateOn(authService.Config(), authService.db.Value(), req.authorization, now);
              && (a.Authenticated? ==> out == Next && req.user == Some(a.user))
              && (a.Unauthenticated? ==> out == Respond(401, a.message) && req.user == old(req.user))
    {
      var token := BearerToken(req.authorization);
      if token.None? {
        return Respond(401, AuthRequired);
      }
      var user := ValidateTokenOn(authService.Config(), authService.db.Value(), token.value, now);
      if user.None? {
        return Respond(401, TokenRejected);
      }
      req.user := user;
      out := Next;
    }
  }
}
