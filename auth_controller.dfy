/** The HTTP handlers of the `/auth` routes: `register`, `login` and `me`. Each turns the request
    body into a call of the auth service and the outcome into a status and a JSON body. */
module AuthController {
  import opened Js
  import opened Crypto
  import opened UserStore
  import opened Auth
  import opened AuthGate

  /** A JSON response body: `{ message }`, the service's `AuthResponseDTO`, or `{ user }`. */
  datatype Body = Message(text: string) | Session(response: AuthResponse) | Profile(user: Option<UserDto>)

  datatype Response = Response(status: int, body: Body)

  /** The fields of a `register` request body the handler reads. */
  datatype RegisterBody = RegisterBody(email: Field<string>, password: Field<string>, username: Field<string>)

  /** The fields of a `login` request body the handler reads. */
  datatype LoginBody = LoginBody(email: Field<string>, password: Field<string>)

  const RegisterFieldsRequired := "Email, nom d'utilisateur et mot de passe requis"
  const RegisterFailed := "Erreur lors de l'inscription"
  const LoginFieldsRequired := "Email et mot de passe requis"
  const BadCredentials := "Email ou mot de passe incorrect"
  const LoginFailed := "Erreur lors de la connexion"

  // ---------------------------------------------------------------------------
  // register

  /** All three fields are truthy: present, not null, not empty. */
  predicate RegisterFieldsGiven(b: RegisterBody) {
    Truthy(b.email) && Truthy(b.password) && Truthy(b.username)
  }

  function RegisterDataOf(b: RegisterBody): RegisterData
    requires RegisterFieldsGiven(b)
  {
    RegisterData(b.username.value, b.email.value, b.password.value)
  }

  /** A thrown message the handler reports as a conflict. */
  predicate IsConflict(message: string) {
    Includes(message, "existe déjà") || Includes(message, "déjà pris")
  }

  /** How `register` answers once the service has returned or thrown: 201 with the result; 409
      with the thrown message when it names a duplicate; 500 with a fixed message otherwise, so
      no other error text reaches the client. */
  function RegisterReply(result: Outcome<AuthResponse>): (res: Response)
    ensures res.status in {201, 409, 500}
    ensures res.status == 201 <==> result.Returned?
    ensures res.status == 201 ==> res.body == Session(result.value)
    ensures res.status == 409 <==> result.Threw? && IsConflict(result.message)
    ensures res.status == 409 ==> res.body == Message(result.message)
    ensures res.status == 500 ==> res.body == Message(RegisterFailed)
  {
    match result
    case Returned(value) => Response(201, Session(value))
    case Threw(message) =>
      if IsConflict(message) then Response(409, Message(message)) else Response(500, Message(RegisterFailed))
  }

  /** Both duplicate-account messages of the service are recognised as conflicts. */
  lemma ServiceConflictsAre409()
    ensures RegisterReply(Threw(EmailExists)) == Response(409, Message(EmailExists))
    ensures RegisterReply(Threw(UsernameTaken)) == Response(409, Message(UsernameTaken))
  {
    assert OccursAt(EmailExists, "existe déjà", 30);
    assert OccursAt(UsernameTaken, "déjà pris", 25);
  }

  /** The response and the table after a `register` request. */
  datatype Handled = Handled(response: Response, table: Table)

  /** `register` over the table as it is: a falsy field gives 400 and leaves the table alone;
      otherwise the service runs and its outcome is answered by `RegisterReply`. Since the
      service itself only throws its two duplicate-account errors, the handler never answers
      500, and it answers 201 exactly when the email and the username are both unused. */
  function RegisterHandlerOn(s: Settings, t: Table, body: RegisterBody, salt: Salt, now: Timestamp): (h: Handled)
    ensures !RegisterFieldsGiven(body) ==> h == Handled(Response(400, Message(RegisterFieldsRequired)), t)
    ensures RegisterFieldsGiven(body) ==>
              var r := RegisterOn(s, t, RegisterDataOf(body), salt, now);
              h == Handled(RegisterReply(r.outcome), r.table)
    ensures h.response.status != 500
    ensures h.response.status == 201 <==>
            RegisterFieldsGiven(body)
            && forall i | 0 <= i < |t.rows| ::
                 t.rows[i].email != body.email.value && t.rows[i].username != body.username.value
    ensures h.response.status != 201 ==> h.table == t
    ensures Consistent(t) ==> Consistent(h.table)
  {
    if !RegisterFieldsGiven(body) then Handled(Response(400, Message(RegisterFieldsRequired)), t)
    else
      var r := RegisterOn(s, t, RegisterDataOf(body), salt, now);
      ServiceConflictsAre409();
      Handled(RegisterReply(r.outcome), r.table)
  }

  /** Registering with an email that is already taken answers 409 with the service's message
      and changes nothing, whatever the username. */
  lemma DuplicateEmailIsConflict(s: Settings, t: Table, body: RegisterBody, salt: Salt, now: Timestamp, k: nat)
    requires RegisterFieldsGiven(body)
    requires k < |t.rows| && t.rows[k].email == body.email.value
    ensures RegisterHandlerOn(s, t, body, salt, now) == Handled(Response(409, Message(EmailExists)), t)
  {
    ServiceConflictsAre409();
  }

  /** Registering with a fresh email but a taken username answers 409 with the service's
      username message and changes nothing. */
  lemma DuplicateUsernameIsConflict(s: Settings, t: Table, body: RegisterBody, salt: Salt, now: Timestamp, k: nat)
    requires RegisterFieldsGiven(body)
    requires forall i | 0 <= i < |t.rows| :: t.rows[i].email != body.email.value
    requires k < |t.rows| && t.rows[k].username == body.username.value
    ensures RegisterHandlerOn(s, t, body, salt, now) == Handled(Response(409, Message(UsernameTaken)), t)
  {
    ServiceConflictsAre409();
  }

  // ---------------------------------------------------------------------------
  // login

  predicate LoginFieldsGiven(b: LoginBody) {
    Truthy(b.email) && Truthy(b.password)
  }

  /** How `login` answers once the service has returned or thrown: 200 with the result, 401 for
      `null`, 500 with a fixed message for any error. */
  function LoginReply(result: Outcome<Option<AuthResponse>>): (res: Response)
    ensures res.status == 200 <==> result.Returned? && result.value.Some?
    ensures res.status == 200 ==> res.body == Session(result.value.value)
    ensures res.status == 401 <==> result == Returned(None)
    ensures res.status != 200 ==> res.body.Message?
    ensures result.Threw? ==> res == Response(500, Message(LoginFailed))
  {
    match result
    case Threw(_) => Response(500, Message(LoginFailed))
    case Returned(None) => Response(401, Message(BadCredentials))
    case Returned(Some(auth)) => Response(200, Session(auth))
  }

  /** `login` over the table as it is: a falsy field gives 400; otherwise the service's answer. */
  function LoginHandlerOn(s: Settings, t: Table, body: LoginBody, now: Timestamp): (res: Response)
    ensures !LoginFieldsGiven(body) ==> res == Response(400, Message(LoginFieldsRequired))
    ensures LoginFieldsGiven(body) ==>
              res == LoginReply(Returned(LoginOn(s, t, LoginData(body.email.value, body.password.value), now)))
    ensures res.status == 400 <==> !LoginFieldsGiven(body)
    ensures res.status in {200, 400, 401}
    ensures res.status == 200 ==>
              exists i | 0 <= i < |t.rows| ::
                && t.rows[i].email == body.email.value
                && s.crypto.compare(body.password.value, t.rows[i].password)
                && res.body == Session(AuthResponse(ToDto(t.rows[i]), GenerateToken(s, t.rows[i].id, t.rows[i].role, now)))
  {
    if !LoginFieldsGiven(body) then Response(400, Message(LoginFieldsRequired))
    else LoginReply(Returned(LoginOn(s, t, LoginData(body.email.value, body.password.value), now)))
  }

  /** A wrong password for a known email and an unknown email get the very same answer, so the
      response does not tell which emails have accounts. */
  lemma LoginDoesNotRevealAccounts(s: Settings, t: Table, known: LoginBody, unknown: LoginBody, now: Timestamp, k: nat)
    requires Consistent(t) && LoginFieldsGiven(known) && LoginFieldsGiven(unknown)
    requires k < |t.rows| && t.rows[k].email == known.email.value
    requires !s.crypto.compare(known.password.value, t.rows[k].password)
    requires forall i | 0 <= i < |t.rows| :: t.rows[i].email != unknown.email.value
    ensures LoginHandlerOn(s, t, known, now) == LoginHandlerOn(s, t, unknown, now)
    ensures LoginHandlerOn(s, t, known, now) == Response(401, Message(BadCredentials))
  {
    LoginSucceedsIffPasswordMatches(s, t, LoginData(known.email.value, known.password.value), now, k);
  }

  /** After a successful registration, logging in with the same email and password answers 200
      with the registered user. */
  lemma RegisterThenLoginAnswers200(s: Settings, t: Table, body: RegisterBody, salt: Salt, now: Timestamp, later: Timestamp)
    requires Lawful(s.crypto) && Consistent(t)
    requires RegisterHandlerOn(s, t, body, salt, now).response.status == 201
    ensures var h := RegisterHandlerOn(s, t, body, salt, now);
            var res := LoginHandlerOn(s, h.table, LoginBody(body.email, body.password), later);
            && res.status == 200
            && res.body.response.user == h.response.body.response.user
  {
    RegisterThenLogin(s, t, RegisterDataOf(body), salt, now, later);
  }

  // ---------------------------------------------------------------------------
  // me

  /** `me`: 200 with whatever user the authentication guard attached. */
  function Me(user: Option<UserDto>): (res: Response)
    ensures res.status == 200 && res.body.Profile? && res.body.user == user
  {
    Response(200, Profile(user))
  }

  /** Behind `authenticate`, `me` with the token a registration returned shows the registered
      user, as the table stores it. */
  lemma MeShowsRegisteredUser(s: Settings, t: Table, data: RegisterData, salt: Salt, now: Timestamp, later: Timestamp)
    requires Lawful(s.crypto) && Consistent(t)
    requires RegisterOn(s, t, data, salt, now).outcome.Returned?
    requires later < now + s.crypto.lifetime(s.expiresIn)
    ensures var r := RegisterOn(s, t, data, salt, now);
            var a := AuthenticateOn(s, r.table, Some(BearerPrefix + r.outcome.value.token), later);
            && a.Authenticated?
            && Me(Some(a.user)) == Response(200, Profile(Some(r.outcome.value.user)))
            && a.user == ToDto(r.table.rows[|t.rows|])
  {
    RegisteredUserIsNotAdmin(s, t, data, salt, now, later);
  }

  // ---------------------------------------------------------------------------
  // The controller object

  /** The controller; it builds its own auth service over the shared table. */
  class AuthHandlers {
    const authService: AuthService

    constructor (env: map<string, string>, crypto: Primitives, db: UserTable)
      ensures authService.Config() == SettingsFromEnv(env, crypto) && authService.db == db
    {
      authService := new AuthService(env, crypto, db);
    }

    /** `register`: the response and the table afterwards are those of `RegisterHandlerOn`. */
    method Register(body: RegisterBody, salt: Salt, now: Timestamp) returns (res: Response)
      requires authService.db.Valid()
      modifies authService.db
      ensures authService.db.Valid()
      ensures Handled(res, authService.db.Value())
              == RegisterHandlerOn(authService.Config(), old(authService.db.Value()), body, salt, now)
    {
      if !Truthy(body.email) || !Truthy(body.password) || !Truthy(body.username) {
        return Response(400, Message(RegisterFieldsRequired));
      }
      var result := authService.Register(RegisterDataOf(body), salt, now);
      res := RegisterReply(result);
    }
  }
}
