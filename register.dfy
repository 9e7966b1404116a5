/** Account creation on the server (`RegisterResource.registerUser`): an ordered chain of checks,
  * each of which answers 400 with its own message, and on success a new persisted account, a
  * token for it and its full view, answered with 201. Whether a username is taken and the token
  * issued for an id are parameters. */
module Registration {
  import opened Grid
  import opened Accounts

  /** The JSON body: `body.get(key)` is null both for a missing key and for a JSON null. */
  type RequestBody = map<string, Option<string>>

  function Field(body: RequestBody, key: string): Option<string>
  {
    if key in body then body[key] else None
  }

  const MISSING_USERNAME := "Missing a 'username' field."
  const MISSING_PASSWORD := "Missing a 'password' field."
  const BAD_USERNAME := "Username must be between 3 - 20 characters."
  const BAD_PASSWORD := "Password must be between 8 - 64 characters."
  const TAKEN := "Username already taken."

  /** The message of the first check the body fails, if any. */
  function RegisterError(body: RequestBody, usernameAvailable: string -> bool): (e: Option<string>)
    ensures e.None? <==>
      IsValidUsername(Field(body, "username")) && IsValidPassword(Field(body, "password")) &&
      usernameAvailable(Field(body, "username").value)
  {
    var username, password := Field(body, "username"), Field(body, "password");
    if username.None? then Some(MISSING_USERNAME)
    else if password.None? then Some(MISSING_PASSWORD)
    else if !IsValidUsername(username) then Some(BAD_USERNAME)
    else if !IsValidPassword(password) then Some(BAD_PASSWORD)
    else if !usernameAvailable(username.value) then Some(TAKEN)
    else None
  }

  /** The checks run in a fixed order: a failure is reported only when every earlier check
    * passed, whatever the later ones would say. */
  lemma FirstFailureReported(body: RequestBody, usernameAvailable: string -> bool)
    ensures Field(body, "username").None? ==> RegisterError(body, usernameAvailable) == Some(MISSING_USERNAME)
    ensures Field(body, "username").Some? && Field(body, "password").None? ==>
      RegisterError(body, usernameAvailable) == Some(MISSING_PASSWORD)
    ensures Field(body, "username").Some? && Field(body, "password").Some? && !IsValidUsername(Field(body, "username")) ==>
      RegisterError(body, usernameAvailable) == Some(BAD_USERNAME)
    ensures IsValidUsername(Field(body, "username")) && Field(body, "password").Some? && !IsValidPassword(Field(body, "password")) ==>
      RegisterError(body, usernameAvailable) == Some(BAD_PASSWORD)
    ensures RegisterError(body, usernameAvailable) == Some(TAKEN) <==>
      IsValidUsername(Field(body, "username")) && IsValidPassword(Field(body, "password")) &&
      !usernameAvailable(Field(body, "username").value)
  {
  }

  /** The email is neither required nor checked: changing it never changes the outcome. */
  lemma EmailNotChecked(body: RequestBody, email: Option<string>, usernameAvailable: string -> bool)
    ensures RegisterError(body["email" := email], usernameAvailable) == RegisterError(body, usernameAvailable)
  {
    assert Field(body["email" := email], "username") == Field(body, "username");
    assert Field(body["email" := email], "password") == Field(body, "password");
  }

  datatype RegisterResponse =
    | BadRequest(message: string)
    | Created(message: string, token: string, user: Dto)

  /** `registerUser`: every failed check answers before any account exists; otherwise the account
    * is built from the body (email as given), persisted under the id the database assigns, and
    * answered with its token and full view. */
  method RegisterUser(body: RequestBody, usernameAvailable: string -> bool, salt: int, today: int, newId: int,
                      tokenFor: int -> string)
    returns (r: RegisterResponse, user: User?)
    ensures r.BadRequest? <==> RegisterError(body, usernameAvailable).Some?
    ensures r.BadRequest? ==> r.message == RegisterError(body, usernameAvailable).value && user == null
    ensures r.Created? ==> user != null && fresh(user)
    ensures r.Created? ==> user.id == Some(newId) && user.username == Field(body, "username")
    ensures r.Created? ==> user.password == Digest(Field(body, "password").value, salt) && user.email == Field(body, "email")
    ensures r.Created? ==> user.tempPassword == None && !user.isAdmin && user.createdAt == today
    ensures r.Created? ==> r == Created("User registered successfully!", tokenFor(newId), user.FullDto())
  {
    var username := Field(body, "username");
    var password := Field(body, "password");
    var email := Field(body, "email");
    if username.None? {
      return BadRequest(MISSING_USERNAME), null;
    }
    if password.None? {
      return BadRequest(MISSING_PASSWORD), null;
    }
    if !IsValidUsername(username) {
      return BadRequest(BAD_USERNAME), null;
    }
    if !IsValidPassword(password) {
      return BadRequest(BAD_PASSWORD), null;
    }
    if !usernameAvailable(username.value) {
      return BadRequest(TAKEN), null;
    }
    user := new User(username, password.value, email, salt, today);
    user.Persist(newId);
    r := Created("User registered successfully!", tokenFor(newId), user.FullDto());
  }
}
