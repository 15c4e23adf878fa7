/**
 * The authentication handlers over the user store. Password hashing and
 * checking (bcrypt) and token signing (JSON Web Tokens, RFC 7519) are
 * parameters; a request field that may be missing is an `Option`.
 */
module AuthController {
  import opened Optional
  import opened Strings
  import opened Records
  import opened UserStore
  import opened Http

  /** The body of a successful `register` or `login`: the user without the
      password, and the token. */
  datatype Session = Session(user: PublicUser, token: string)

  /** `bcrypt.hash(password, 10)`, `bcrypt.compare(password, hash)` and
      `jwt.sign({ id, email }, secret, { expiresIn })`. */
  datatype AuthEnv = AuthEnv(
    hash: string -> string,
    verify: (string, string) -> bool,
    sign: (string, string) -> string)

  /** No two stored users share an email. */
  ghost predicate EmailsDistinct(model: UserModel)
    reads model
  {
    forall j, k :: j in model.users && k in model.users && j != k ==> model.users[j].email != model.users[k].email
  }

  /** `register`: creates a user with the hashed password unless a field is
      missing or the email is taken. */
  method Register(model: UserModel, name: Option<string>, email: Option<string>, password: Option<string>,
                  env: AuthEnv, now: int)
    returns (r: Reply<Session>)
    requires model.Valid()
    modifies model
    ensures model.Valid()
    ensures old(EmailsDistinct(model)) ==> EmailsDistinct(model)
    ensures !(Truthy(name) && Truthy(email) && Truthy(password)) ==>
              r == Failure(BadRequest, "All fields are required") && unchanged(model)
    ensures (Truthy(name) && Truthy(email) && Truthy(password) &&
             exists k :: k in old(model.users) && old(model.users)[k].email == email.value) ==>
              r == Failure(BadRequest, "User already exists") && unchanged(model)
    ensures (Truthy(name) && Truthy(email) && Truthy(password) &&
             forall k :: k in old(model.users) ==> old(model.users)[k].email != email.value) ==> (
              var u := User(NatToString(old(model.idCounter)), name.value, email.value, env.hash(password.value), now);
              r == Success(Created, Session(Public(u), env.sign(u.id, u.email))) &&
              u.id !in old(model.users) &&
              model.users == old(model.users)[u.id := u] &&
              model.order == old(model.order) + [u.id] &&
              model.idCounter == old(model.idCounter) + 1)
  {
    if !(Truthy(name) && Truthy(email) && Truthy(password)) {
      return Failure(BadRequest, "All fields are required");
    }
    var existingUser := model.FindByEmail(email.value);
    if existingUser.Some? {
      return Failure(BadRequest, "User already exists");
    }
    var hashedPassword := env.hash(password.value);
    var user := model.Create(name.value, email.value, hashedPassword, now);
    var token := env.sign(user.id, user.email);
    return Success(Created, Session(Public(user), token));
  }

  /** `login`: the same 401 answer for an unknown email and for a wrong
      password. */
  method Login(model: UserModel, email: Option<string>, password: Option<string>, env: AuthEnv)
    returns (r: Reply<Session>)
    requires model.Valid()
    ensures !(Truthy(email) && Truthy(password)) ==> r == Failure(BadRequest, "Email and password are required")
    ensures Truthy(email) && Truthy(password) && model.FindByEmail(email.value).None? ==>
              r == Failure(Unauthorized, "Invalid credentials")
    ensures Truthy(email) && Truthy(password) && model.FindByEmail(email.value).Some? ==> (
              var u := model.FindByEmail(email.value).value;
              if env.verify(password.value, u.password) then r == Success(Ok, Session(Public(u), env.sign(u.id, u.email)))
              else r == Failure(Unauthorized, "Invalid credentials"))
    ensures r.Success? ==> Truthy(email) && r.body.user.email == email.value && r.body.user.id in model.users
  {
    if !(Truthy(email) && Truthy(password)) {
      return Failure(BadRequest, "Email and password are required");
    }
    var user := model.FindByEmail(email.value);
    if user.None? {
      return Failure(Unauthorized, "Invalid credentials");
    }
    var isValidPassword := env.verify(password.value, user.value.password);
    if !isValidPassword {
      return Failure(Unauthorized, "Invalid credentials");
    }
    var token := env.sign(user.value.id, user.value.email);
    return Success(Ok, Session(Public(user.value), token));
  }

  /** `getCurrentUser`: the authenticated user's public fields. */
  method GetCurrentUser(model: UserModel, authUser: Option<string>) returns (r: Reply<PublicUser>)
    ensures authUser.None? ==> r == Failure(Unauthorized, "Unauthorized")
    ensures authUser.Some? && authUser.value !in model.users ==> r == Failure(NotFound, "User not found")
    ensures authUser.Some? && authUser.value in model.users ==> r == Success(Ok, Public(model.users[authUser.value]))
  {
    if authUser.None? {
      return Failure(Unauthorized, "Unauthorized");
    }
    var user := model.FindById(authUser.value);
    if user.None? {
      return Failure(NotFound, "User not found");
    }
    return Success(Ok, Public(user.value));
  }
}
