/** The auth service: registration, login, token validation and token generation over the
    `user` table, with bcrypt and jsonwebtoken taken as parameters. */
module Auth {
  import opened Js
  import opened Crypto
  import opened UserStore

  /** `RegisterDTO`. */
  datatype RegisterData = RegisterData(username: string, email: string, password: string)

  /** `LoginDTO`. */
  datatype LoginData = LoginData(email: string, password: string)

  /** `AuthResponseDTO`. */
  datatype AuthResponse = AuthResponse(user: UserDto, token: string)

  /** What the service was built with: the signing secret, the `expiresIn` text, the libraries. */
  datatype Settings = Settings(secret: string, expiresIn: string, crypto: Primitives)

  const EmailExists := "Un utilisateur avec cet email existe déjà"
  const UsernameTaken := "Ce nom d'utilisateur est déjà pris"
  const DefaultSecret := "default_secret"
  const DefaultExpiresIn := "24h"
  /** The role every self-registered account gets. */
  const NewUserRole := "user"

  /** The constructor's defaults: `JWT_SECRET || "default_secret"` and `JWT_EXPIRES_IN || "24h"`. */
  function SettingsFromEnv(env: map<string, string>, crypto: Primitives): (s: Settings)
    ensures s.secret != "" && s.expiresIn != "" && s.crypto == crypto
    ensures "JWT_SECRET" in env && env["JWT_SECRET"] != "" ==> s.secret == env["JWT_SECRET"]
    ensures "JWT_SECRET" !in env || env["JWT_SECRET"] == "" ==> s.secret == DefaultSecret
    ensures "JWT_EXPIRES_IN" in env && env["JWT_EXPIRES_IN"] != "" ==> s.expiresIn == env["JWT_EXPIRES_IN"]
    ensures "JWT_EXPIRES_IN" !in env || env["JWT_EXPIRES_IN"] == "" ==> s.expiresIn == DefaultExpiresIn
  {
    Settings(EnvOr(env, "JWT_SECRET", DefaultSecret), EnvOr(env, "JWT_EXPIRES_IN", DefaultExpiresIn), crypto)
  }

  /** `generateToken(userId, role)`: signs exactly `{ id, role }` with the configured secret and
      lifetime. Under lawful libraries the token has no space, and a token that lives at all
      verifies at the instant it is issued to exactly those claims. */
  function GenerateToken(s: Settings, userId: int, role: string, now: Timestamp): (token: string)
    ensures Lawful(s.crypto) ==> ' ' !in token
    ensures Lawful(s.crypto) && s.crypto.lifetime(s.expiresIn) > 0 ==>
              s.crypto.verify(token, s.secret, now) == Some(Claims(userId, role))
  {
    s.crypto.sign(Claims(userId, role), s.secret, s.expiresIn, now)
  }

  /** A generated token decodes, under the same secret, to the id and role it was made from,
      until it expires. */
  lemma TokenCarriesClaims(s: Settings, userId: int, role: string, issuedAt: Timestamp, now: Timestamp)
    requires Lawful(s.crypto)
    ensures s.crypto.verify(GenerateToken(s, userId, role, issuedAt), s.secret, now)
            == if now < issuedAt + s.crypto.lifetime(s.expiresIn) then Some(Claims(userId, role)) else None
  {
  }

  // ---------------------------------------------------------------------------
  // register

  /** The outcome of `register` and the table it leaves behind. */
  datatype Registration = Registration(outcome: Outcome<AuthResponse>, table: Table)

  /** The row a successful registration inserts: the next id, role `user`, and the password
      replaced by its hash. */
  function NewRow(s: Settings, t: Table, data: RegisterData, salt: Salt, now: Timestamp): UserRow {
    UserRow(t.nextId, data.username, data.email, s.crypto.hash(data.password, salt), NewUserRole, now, now)
  }

  /** `register`, as one atomic step over the table. The email is checked before the username;
      a failure throws and leaves the table as it was; a success inserts exactly one row and
      returns that row without its password, with a token signed over its id and role. */
  function RegisterOn(s: Settings, t: Table, data: RegisterData, salt: Salt, now: Timestamp): (r: Registration)
    ensures (exists i | 0 <= i < |t.rows| :: t.rows[i].email == data.email)
            ==> r == Registration(Threw(EmailExists), t)
    ensures (forall i | 0 <= i < |t.rows| :: t.rows[i].email != data.email)
            && (exists i | 0 <= i < |t.rows| :: t.rows[i].username == data.username)
            ==> r == Registration(Threw(UsernameTaken), t)
    ensures r.outcome.Returned? <==>
            forall i | 0 <= i < |t.rows| :: t.rows[i].email != data.email && t.rows[i].username != data.username
    ensures r.outcome.Returned? ==>
            var row := NewRow(s, t, data, salt, now);
            && r.table.rows == t.rows + [row]
            && r.table.nextId == t.nextId + 1
            && r.outcome.value == AuthResponse(ToDto(row), GenerateToken(s, row.id, row.role, now))
    ensures r.outcome.Threw? ==> r.table == t
    ensures Consistent(t) ==> Consistent(r.table)
  {
    if FindByEmail(t.rows, data.email).Some? then Registration(Threw(EmailExists), t)
    else if FindByUsername(t.rows, data.username).Some? then Registration(Threw(UsernameTaken), t)
    else
      var row := NewRow(s, t, data, salt, now);
      var t' := Inserted(t, data.username, data.email, row.password, row.role, now);
      assert t'.rows == t.rows + [row];
      Registration(Returned(AuthResponse(ToDto(row), GenerateToken(s, row.id, row.role, now))), t')
  }

  /** One call of `register`, with the salt bcrypt drew and the clock reading. */
  datatype RegisterCall = RegisterCall(data: RegisterData, salt: Salt, now: Timestamp)

  /** The table after a sequence of `register` calls, each on the table the previous one left. */
  function RegisterAll(s: Settings, t: Table, calls: seq<RegisterCall>): Table
    decreases |calls|
  {
    if calls == [] then t
    else RegisterAll(s, RegisterOn(s, t, calls[0].data, calls[0].salt, calls[0].now).table, calls[1..])
  }

  /** Any sequence of registrations keeps the table consistent: ids, emails and usernames stay
      unique. */
  lemma {:induction false} RegisterAllKeepsConsistency(s: Settings, t: Table, calls: seq<RegisterCall>)
    requires Consistent(t)
    ensures Consistent(RegisterAll(s, t, calls))
    decreases |calls|
  {
    if calls != [] {
      var next := RegisterOn(s, t, calls[0].data, calls[0].salt, calls[0].now).table;
      RegisterAllKeepsConsistency(s, next, calls[1..]);
    }
  }

  /** One registration keeps every row in place and adds at most one row, with role `user`. */
  lemma RegisterOnOnlyAddsUser(s: Settings, t: Table, call: RegisterCall)
    ensures var next := RegisterOn(s, t, call.data, call.salt, call.now).table;
            && |t.rows| <= |next.rows| <= |t.rows| + 1 && next.rows[..|t.rows|] == t.rows
            && (|next.rows| > |t.rows| ==> next.rows[|t.rows|].role == NewUserRole)
  {
    var r := RegisterOn(s, t, call.data, call.salt, call.now);
    if r.outcome.Returned? {
      assert r.table.rows[..|t.rows|] == t.rows;
    }
  }

  /** Any sequence of registrations keeps every earlier row in place and adds only rows with
      the role `user`. */
  lemma {:induction false} RegisterAllOnlyAddsUsers(s: Settings, t: Table, calls: seq<RegisterCall>)
    ensures var r := RegisterAll(s, t, calls);
            && |t.rows| <= |r.rows| && r.rows[..|t.rows|] == t.rows
            && forall i | |t.rows| <= i < |r.rows| :: r.rows[i].role == NewUserRole
    decreases |calls|
  {
    if calls != [] {
      var next := RegisterOn(s, t, calls[0].data, calls[0].salt, calls[0].now).table;
      RegisterOnOnlyAddsUser(s, t, calls[0]);
      RegisterAllOnlyAddsUsers(s, next, calls[1..]);
      var r := RegisterAll(s, next, calls[1..]);
      assert r == RegisterAll(s, t, calls);
      assert r.rows[..|t.rows|] == r.rows[..|next.rows|][..|t.rows|];
      forall i | |t.rows| <= i < |r.rows|
        ensures r.rows[i].role == NewUserRole
      {
        if i < |next.rows| {
          assert r.rows[i] == r.rows[..|next.rows|][i];
        }
      }
    }
  }

  /** Registration never creates an administrator: every `admin` row after any sequence of
      registrations was already there before. */
  lemma {:induction false} RegistrationNeverCreatesAdmin(s: Settings, t: Table, calls: seq<RegisterCall>, k: nat)
    requires k < |RegisterAll(s, t, calls).rows| && RegisterAll(s, t, calls).rows[k].role == "admin"
    ensures k < |t.rows| && RegisterAll(s, t, calls).rows[k] == t.rows[k]
  {
    RegisterAllOnlyAddsUsers(s, t, calls);
    var r := RegisterAll(s, t, calls);
    assert r.rows[k] == r.rows[..|t.rows|][k];
  }

  // ---------------------------------------------------------------------------
  // login

  /** `login`: an unknown email and a wrong password both give `null`, the same value. */
  function LoginOn(s: Settings, t: Table, credentials: LoginData, now: Timestamp): (r: Option<AuthResponse>)
    ensures r.Some? ==> exists i | 0 <= i < |t.rows| ::
              && t.rows[i].email == credentials.email
              && s.crypto.compare(credentials.password, t.rows[i].password)
              && r.value == AuthResponse(ToDto(t.rows[i]), GenerateToken(s, t.rows[i].id, t.rows[i].role, now))
    ensures (forall i | 0 <= i < |t.rows| :: t.rows[i].email != credentials.email) ==> r == None
  {
    var found := FindByEmail(t.rows, credentials.email);
    if found.None? then None
    else if !s.crypto.compare(credentials.password, found.value.password) then None
    else Some(AuthResponse(ToDto(found.value), GenerateToken(s, found.value.id, found.value.role, now)))
  }

  /** In a consistent table, login succeeds exactly when the row with that email exists and the
      password matches its hash; a wrong password gives the same `None` as an unknown email. */
  lemma LoginSucceedsIffPasswordMatches(s: Settings, t: Table, credentials: LoginData, now: Timestamp, k: nat)
    requires Consistent(t) && k < |t.rows| && t.rows[k].email == credentials.email
    ensures LoginOn(s, t, credentials, now).Some? <==> s.crypto.compare(credentials.password, t.rows[k].password)
    ensures LoginOn(s, t, credentials, now).Some? ==> LoginOn(s, t, credentials, now).value.user == ToDto(t.rows[k])
  {
    LookupsFindTheRow(t, k);
  }

  // ---------------------------------------------------------------------------
  // validateToken

  /** `validateToken`: any failure to decode gives `None`, and so does an id no longer in the
      table; otherwise the user as the table has it now (its current role, not the token's). */
  function ValidateTokenOn(s: Settings, t: Table, token: string, now: Timestamp): (r: Option<UserDto>)
    ensures s.crypto.verify(token, s.secret, now).None? ==> r == None
    ensures r.Some? <==>
            && s.crypto.verify(token, s.secret, now).Some?
            && exists i | 0 <= i < |t.rows| :: t.rows[i].id == s.crypto.verify(token, s.secret, now).value.id
    ensures r.Some? ==> exists i | 0 <= i < |t.rows| ::
              t.rows[i].id == s.crypto.verify(token, s.secret, now).value.id && r.value == ToDto(t.rows[i])
  {
    var decoded := s.crypto.verify(token, s.secret, now);
    if decoded.None? then None
    else
      var user := FindById(t.rows, decoded.value.id);
      if user.None? then None else Some(ToDto(user.value))
  }

  /** The role `validateToken` reports is the one stored in the table, whatever role the token
      was signed with. */
  lemma ValidatedRoleIsStoredRole(s: Settings, t: Table, token: string, now: Timestamp, k: nat)
    requires Consistent(t) && k < |t.rows|
    requires s.crypto.verify(token, s.secret, now).Some?
    requires s.crypto.verify(token, s.secret, now).value.id == t.rows[k].id
    ensures ValidateTokenOn(s, t, token, now) == Some(ToDto(t.rows[k]))
    ensures ValidateTokenOn(s, t, token, now).value.role == t.rows[k].role
  {
    LookupsFindTheRow(t, k);
  }

  // ---------------------------------------------------------------------------
  // Round trips

  /** The token a registration returns validates, until it expires, to the registered user;
      from its expiry on it validates to nothing. */
  lemma RegisterThenValidate(s: Settings, t: Table, data: RegisterData, salt: Salt, now: Timestamp, later: Timestamp)
    requires Lawful(s.crypto) && Consistent(t)
    requires RegisterOn(s, t, data, salt, now).outcome.Returned?
    ensures var r := RegisterOn(s, t, data, salt, now);
            ValidateTokenOn(s, r.table, r.outcome.value.token, later)
            == if later < now + s.crypto.lifetime(s.expiresIn) then Some(r.outcome.value.user) else None
  {
    var r := RegisterOn(s, t, data, salt, now);
    TokenCarriesClaims(s, t.nextId, NewUserRole, now, later);
    LookupsFindTheRow(r.table, |t.rows|);
  }

  /** After a registration, logging in with the same email and password succeeds and returns
      the registered user. */
  lemma RegisterThenLogin(s: Settings, t: Table, data: RegisterData, salt: Salt, now: Timestamp, later: Timestamp)
    requires Lawful(s.crypto) && Consistent(t)
    requires RegisterOn(s, t, data, salt, now).outcome.Returned?
    ensures var r := RegisterOn(s, t, data, salt, now);
            LoginOn(s, r.table, LoginData(data.email, data.password), later)
            == Some(AuthResponse(r.outcome.value.user, GenerateToken(s, t.nextId, NewUserRole, later)))
  {
    var r := RegisterOn(s, t, data, salt, now);
    LookupsFindTheRow(r.table, |t.rows|);
  }

  // ---------------------------------------------------------------------------
  // The service object

  /** The service object. The table is a shared object: every service instance built over the
      same table sees the others' insertions. */
  class AuthService {
    const jwtSecret: string
    const jwtExpiresIn: string
    const crypto: Primitives
    const db: UserTable

    constructor (env: map<string, string>, crypto: Primitives, db: UserTable)
      ensures Config() == SettingsFromEnv(env, crypto) && this.db == db
    {
      var s := SettingsFromEnv(env, crypto);
      this.jwtSecret := s.secret;
      this.jwtExpiresIn := s.expiresIn;
      this.crypto := crypto;
      this.db := db;
    }

    function Config(): Settings {
      Settings(jwtSecret, jwtExpiresIn, crypto)
    }

    /** `register`: the table afterwards and the result are those of `RegisterOn`. */
    method Register(data: RegisterData, salt: Salt, now: Timestamp) returns (result: Outcome<AuthResponse>)
      requires db.Valid()
      modifies db
      ensures db.Valid()
      ensures Registration(result, db.Value()) == RegisterOn(Config(), old(db.Value()), data, salt, now)
    {
      var existingByEmail := FindByEmail(db.rows, data.email);
      if existingByEmail.Some? {
        return Threw(EmailExists);
      }
      var existingByUsername := FindByUsername(db.rows, data.username);
      if existingByUsername.Some? {
        return Threw(UsernameTaken);
      }
      var hashedPassword := crypto.hash(data.password, salt);
      var newUser := db.Create(data.username, data.email, hashedPassword, NewUserRole, now);
      var token := GenerateToken(Config(), newUser.id, newUser.role, now);
      result := Returned(AuthResponse(ToDto(newUser), token));
    }
  }
}
