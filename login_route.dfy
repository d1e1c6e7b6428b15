/**
 * src/app/api/auth/login/route.ts: POST looks the username up, compares the
 * password with the stored bcrypt hash, and answers with a signed token. An
 * unknown username and a wrong password get the same answer. Every exception
 * becomes 500 "Internal Server Error".
 *
 * `bcrypt.compare` is the parameter `matches(password, hash)`, token signing
 * the parameter `sign`.
 */
module LoginRoute {
  import opened JsText
  import opened Auth
  import opened Http
  import opened Users

  const InvalidCredentials: string := "Invalid credentials."

  /** Where the handler's awaited work can throw: the lookup, the comparison,
      or the signing. */
  datatype LoginFault = NoFault | LookupThrows | CompareThrows | SignThrows

  /** Some row carries this username and a hash the password matches. */
  predicate Credentials(rows: seq<User>, username: string, password: string, matches: (string, string) -> bool) {
    exists i :: 0 <= i < |rows| && rows[i].username == username && matches(password, rows[i].passwordHash)
  }

  /** Both fields passed the `!username || !password` test (lines 14-19). */
  predicate FieldsGiven(body: RequestBody) {
    body.Fields? && Truthy(Field(body, "username")) && Truthy(Field(body, "password"))
  }

  /** POST (lines 10-49). */
  function Login(rows: seq<User>, body: RequestBody, matches: (string, string) -> bool,
                 sign: Identity -> string, fault: LoginFault): (r: Response<string>)
    ensures r.status == 200 || r.status == 400 || r.status == 500
    ensures body.Unreadable? ==> r == Response(500, Message(InternalError))
    ensures body.Fields? && (!Truthy(Field(body, "username")) || !Truthy(Field(body, "password"))) ==>
              r == Response(400, Message(FieldsRequired))
    ensures r.status == 400 ==>
              r.body == Message(FieldsRequired) || r.body == Message(InvalidCredentials)
    ensures r.status == 500 ==> r.body == Message(InternalError) && (body.Unreadable? || fault != NoFault)
    // past the field check, each awaited step either throws (500) or decides
    ensures FieldsGiven(body) && fault == LookupThrows ==> r == Response(500, Message(InternalError))
    ensures FieldsGiven(body) && fault != LookupThrows && FindUser(rows, Field(body, "username").value).None? ==>
              r == Response(400, Message(InvalidCredentials))
    ensures FieldsGiven(body) && fault == CompareThrows && FindUser(rows, Field(body, "username").value).Some? ==>
              r == Response(500, Message(InternalError))
    ensures FieldsGiven(body) && fault != LookupThrows && fault != CompareThrows
            && FindUser(rows, Field(body, "username").value).Some?
            && !matches(Field(body, "password").value, FindUser(rows, Field(body, "username").value).value.passwordHash) ==>
              r == Response(400, Message(InvalidCredentials))
    ensures FieldsGiven(body) && fault == SignThrows
            && FindUser(rows, Field(body, "username").value).Some?
            && matches(Field(body, "password").value, FindUser(rows, Field(body, "username").value).value.passwordHash) ==>
              r == Response(500, Message(InternalError))
    // a token goes only to a caller whose password matches that user's hash
    ensures r.status == 200 ==>
              && body.Fields? && fault == NoFault
              && exists i :: 0 <= i < |rows| && rows[i].username == Field(body, "username").value
                          && matches(Field(body, "password").value, rows[i].passwordHash)
                          && r.body == Data(sign(Identity(rows[i].id, rows[i].username)))
    // and every such caller gets one, where usernames are unique
    ensures UniqueUsernames(rows) && body.Fields? && fault == NoFault
            && Truthy(Field(body, "username")) && Truthy(Field(body, "password")) ==>
              (r.status == 200 <==>
                 Credentials(rows, Field(body, "username").value, Field(body, "password").value, matches))
  {
    if body.Unreadable? then Response(500, Message(InternalError))
    else
      var username := Field(body, "username");
      var password := Field(body, "password");
      if !Truthy(username) || !Truthy(password) then Response(400, Message(FieldsRequired))
      else if fault == LookupThrows then Response(500, Message(InternalError))
      else match FindUser(rows, username.value)
        case None => Response(400, Message(InvalidCredentials))
        case Some(user) =>
          if fault == CompareThrows then Response(500, Message(InternalError))
          else if !matches(password.value, user.passwordHash) then Response(400, Message(InvalidCredentials))
          else if fault == SignThrows then Response(500, Message(InternalError))
          else
            assert fault.NoFault?;
            Response(200, Data(sign(Identity(user.id, user.username))))
  }

  /** The request body `{ username, password }`. */
  function LoginBody(username: string, password: string): RequestBody {
    Fields(map["username" := username, "password" := password])
  }

  /** Failing to log in does not reveal whether the username exists: an
      unknown user and a known user with a wrong password get the same answer. */
  lemma UnknownUserLooksLikeWrongPassword(rows: seq<User>, unknown: string, known: string,
                                          password: string, matches: (string, string) -> bool,
                                          sign: Identity -> string)
    requires unknown != "" && known != "" && password != ""
    requires forall i :: 0 <= i < |rows| ==> rows[i].username != unknown
    requires FindUser(rows, known).Some? && !matches(password, FindUser(rows, known).value.passwordHash)
    ensures Login(rows, LoginBody(unknown, password), matches, sign, NoFault)
         == Login(rows, LoginBody(known, password), matches, sign, NoFault)
         == Response(400, Message(InvalidCredentials))
  {
    assert Field(LoginBody(unknown, password), "username") == Some(unknown);
    assert Field(LoginBody(known, password), "username") == Some(known);
    assert Field(LoginBody(unknown, password), "password") == Some(password);
    assert Field(LoginBody(known, password), "password") == Some(password);
  }

  /** A user the register route has just added can log in with the password
      they registered with: the stored hash is `hash(password)`, and bcrypt's
      comparison accepts a password against its own hash. */
  lemma RegisteredUserCanLogIn(rows: seq<User>, id: int, username: string, password: string,
                               hash: string -> string, matches: (string, string) -> bool,
                               sign: Identity -> string)
    requires username != "" && password != ""
    requires FindUser(rows, username).None?
    requires matches(password, hash(password))
    ensures Login(rows + [User(id, username, hash(password))], LoginBody(username, password), matches, sign, NoFault)
         == Response(200, Data(sign(Identity(id, username))))
  {
    var user := User(id, username, hash(password));
    var body := LoginBody(username, password);
    assert Field(body, "username") == Some(username);
    assert Field(body, "password") == Some(password);
    FindAppended(rows, user);
    assert FindUser(rows + [user], username) == Some(user);
    assert matches(password, user.passwordHash);
  }
}
