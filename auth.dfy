/**
 * The `/signup` and `/login` handlers: early-return ladders that pick a
 * status and message, with at most one insertion into the users
 * collection. `fault` names the awaited call that throws, if any; every
 * thrown error ends in the handler's `catch` with a 500.
 */
module Auth {
  import opened Wrappers
  import opened Tokens
  import opened Firebase
  import opened Http

  const FieldsRequired: string := "All fields are required"
  const UserExists: string := "User already exists"
  const UserCreated: string := "User created successfully"
  const BadCredentials: string := "Invalid credentials"

  /** `req.body` of a signup; None for a field that is absent. */
  datatype SignupBody = SignupBody(username: Option<string>, email: Option<string>, password: Option<string>)

  /** `req.body` of a login. */
  datatype LoginBody = LoginBody(usernameOrEmail: Option<string>, password: Option<string>)

  /** The awaited calls of the signup handler, in order. */
  datatype SignupStep = LookupEmail | LookupUsername | HashPassword | InsertUser | SignToken

  /** The awaited calls of the login handler, in order. */
  datatype LoginStep = LookupUser | ComparePassword | SignSession

  /** A field that is present and not the empty string (`!field` is false). */
  predicate Given(field: Option<string>) {
    field.Some? && field.value != ""
  }

  predicate SignupComplete(body: SignupBody) {
    Given(body.username) && Given(body.email) && Given(body.password)
  }

  /** An existing user has the email, or (independently) the username. */
  predicate Taken(users: seq<User>, body: SignupBody)
    requires SignupComplete(body)
  {
    UserByEmail(users, body.email.value).Some? || UserByUsername(users, body.username.value).Some?
  }

  /** One of the two lookups throws. */
  predicate LookupFails(fault: Option<SignupStep>) {
    fault == Some(LookupEmail) || fault == Some(LookupUsername)
  }

  /** The record a signup stores: the submitted names and the hash of the password. */
  function Registered(crypto: Crypto, body: SignupBody, salt: string, id: string): (u: User)
    requires SignupComplete(body)
    ensures u.id == id && u.username == body.username.value && u.email == body.email.value
    ensures u.password == crypto.hash(body.password.value, salt)
  {
    User(id, body.username.value, body.email.value, crypto.hash(body.password.value, salt))
  }

  /** The signup reaches `createUser` and it succeeds (signing the token may still throw afterwards). */
  predicate Inserts(users: seq<User>, body: SignupBody, fault: Option<SignupStep>) {
    SignupComplete(body) && !LookupFails(fault) && !Taken(users, body) &&
    (fault.None? || fault == Some(SignToken))
  }

  /**
   * `POST /signup`. `salt` is the salt bcrypt draws, `freshId` the id
   * Firestore assigns, `nowMs` the clock `jwt.sign` reads.
   */
  method Signup(store: Store, crypto: Crypto, body: SignupBody, salt: string, nowMs: int, freshId: string,
                fault: Option<SignupStep>)
    returns (r: Response)
    requires store.Valid() && freshId !in UserIds(store.users)
    modifies store
    ensures store.Valid() && store.workouts == old(store.workouts)
    ensures store.users ==
      if Inserts(old(store.users), body, fault)
      then old(store.users) + [Registered(crypto, body, salt, freshId)]
      else old(store.users)
    ensures !SignupComplete(body) ==> r == Response(400, Message(FieldsRequired))
    ensures SignupComplete(body) && !LookupFails(fault) && Taken(old(store.users), body) ==>
      r == Response(400, Message(UserExists))
    ensures r.status == 500 <==>
      SignupComplete(body) && (LookupFails(fault) || (!Taken(old(store.users), body) && fault.Some?))
    ensures r.status == 500 ==> r == InternalError
    ensures r.status == 201 <==> SignupComplete(body) && !Taken(old(store.users), body) && fault.None?
    ensures r.status == 201 ==>
      r.body == SignedUp(UserCreated, Sign(crypto, freshId, body.username.value, nowMs), body.username.value)
  {
    if !SignupComplete(body) {
      return Response(400, Message(FieldsRequired));
    }
    var username, email, password := body.username.value, body.email.value, body.password.value;
    if fault == Some(LookupEmail) {
      return InternalError;
    }
    var byEmail := UserByEmail(store.users, email);
    if fault == Some(LookupUsername) {
      return InternalError;
    }
    var byUsername := UserByUsername(store.users, username);
    if byEmail.Some? || byUsername.Some? {
      return Response(400, Message(UserExists));
    }
    assert !Taken(store.users, body);
    if fault == Some(HashPassword) {
      return InternalError;
    }
    var hashed := crypto.hash(password, salt);
    if fault == Some(InsertUser) {
      return InternalError;
    }
    assert fault.Some? ==> fault.value.SignToken?;
    assert Inserts(store.users, body, fault);
    var newUser := store.CreateUser(username, email, hashed, freshId);
    if fault == Some(SignToken) {
      return InternalError;
    }
    var token := Sign(crypto, newUser.id, username, nowMs);
    return Response(201, SignedUp(UserCreated, token, username));
  }

  predicate LoginComplete(body: LoginBody) {
    Given(body.usernameOrEmail) && Given(body.password)
  }

  /**
   * The login handler gets as far as the awaited call `step`: the lookup
   * always runs, `bcrypt.compare` once a user is found, and `jwt.sign` once
   * the password matches.
   */
  predicate Reaches(users: seq<User>, crypto: Crypto, body: LoginBody, step: LoginStep)
    requires LoginComplete(body)
  {
    var found := UserByUsernameOrEmail(users, body.usernameOrEmail.value);
    step == LookupUser ||
    (found.Some? && (step == ComparePassword || crypto.compare(body.password.value, found.value.password)))
  }

  /**
   * `POST /login`: a token for the stored user (its id and stored username,
   * whichever of username or email was typed), and one identical 401 for an
   * unknown user and for a wrong password.
   */
  function Login(users: seq<User>, crypto: Crypto, body: LoginBody, nowMs: int, fault: Option<LoginStep>): (r: Response)
    ensures !LoginComplete(body) ==> r == Response(400, Message(FieldsRequired))
    ensures r.status == 401 ==> r == Response(401, Message(BadCredentials))
    ensures LoginComplete(body) && fault.None? ==>
      var found := UserByUsernameOrEmail(users, body.usernameOrEmail.value);
      if found.Some? && crypto.compare(body.password.value, found.value.password)
      then r == Response(200, LoggedIn(Sign(crypto, found.value.id, found.value.username, nowMs), found.value.username))
      else r == Response(401, Message(BadCredentials))
    ensures LoginComplete(body) && fault.Some? && Reaches(users, crypto, body, fault.value) ==> r == InternalError
    ensures LoginComplete(body) && fault.Some? && !Reaches(users, crypto, body, fault.value) ==>
      r == Response(401, Message(BadCredentials))
    ensures r.status == 500 ==> r == InternalError && LoginComplete(body) && fault.Some?
    ensures r.status == 200 ==> exists u :: u in users && r.body == LoggedIn(Sign(crypto, u.id, u.username, nowMs), u.username)
  {
    if !LoginComplete(body) then Response(400, Message(FieldsRequired))
    else if fault == Some(LookupUser) then InternalError
    else
      var found := UserByUsernameOrEmail(users, body.usernameOrEmail.value);
      if found.None? then Response(401, Message(BadCredentials))
      else if fault == Some(ComparePassword) then InternalError
      else if !crypto.compare(body.password.value, found.value.password) then Response(401, Message(BadCredentials))
      else if fault == Some(SignSession) then InternalError
      else Response(200, LoggedIn(Sign(crypto, found.value.id, found.value.username, nowMs), found.value.username))
  }

  /**
   * A signup that went through makes the same credentials log in, as long
   * as bcrypt accepts the password it hashed: the token names the new
   * user's id and username.
   */
  lemma LoginAfterSignup(users: seq<User>, crypto: Crypto, body: SignupBody, salt: string, id: string, nowMs: int)
    requires SignupComplete(body) && !Taken(users, body)
    requires crypto.compare(body.password.value, crypto.hash(body.password.value, salt))
    ensures var user := Registered(crypto, body, salt, id);
      Login(users + [user], crypto, LoginBody(body.username, body.password), nowMs, None)
        == Response(200, LoggedIn(Sign(crypto, id, user.username, nowMs), user.username))
  {
    CreatedUserFound(users, Registered(crypto, body, salt, id));
  }

  /** Logging in by email finds the user whose username nobody shares with that email text. */
  lemma LoginByEmail(users: seq<User>, crypto: Crypto, email: string, password: string, nowMs: int, user: User)
    requires email != "" && password != ""
    requires UserByUsername(users, email).None?
    requires UserByEmail(users, email) == Some(user)
    requires crypto.compare(password, user.password)
    ensures Login(users, crypto, LoginBody(Some(email), Some(password)), nowMs, None)
      == Response(200, LoggedIn(Sign(crypto, user.id, user.username, nowMs), user.username))
  {
  }
}
