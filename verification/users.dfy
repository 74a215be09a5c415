/** The user registry behind register and login: a table of users keyed by
    email. Password hashing, password comparison and token signing belong to
    external libraries and enter as function parameters; a session's token is
    represented by the claims it is signed over. */
module Users {
  import opened Outcomes
  import opened Identity

  /** One row of the users table. */
  datatype User = User(id: int, name: string, email: string, passwordHash: string, role: Role)

  /** The users table, keyed by email, and the next value of its id sequence. */
  datatype Registry = Registry(users: map<string, User>, nextId: int)

  /** Each user is stored under its own email, and every id was handed out by
      the id sequence. */
  ghost predicate Valid(g: Registry)
  {
    && g.nextId >= 1
    && forall e :: e in g.users ==> g.users[e].email == e && 1 <= g.users[e].id < g.nextId
  }

  const NoUsers: Registry := Registry(map[], 1)

  lemma NoUsersIsValid()
    ensures Valid(NoUsers) && |NoUsers.users| == 0
  {
  }

  /** The public part of a user, as register and login answer with it. */
  datatype Profile = Profile(id: int, name: string, email: string, role: Role)

  /** What register and login answer with: the user and the claims the issued
      token is signed over. */
  datatype Session = Session(user: Profile, token: Claims)

  function SessionOf(u: User): Session
  {
    Session(Profile(u.id, u.name, u.email, u.role), Claims(u.id, u.role))
  }

  /** The body of a register request; None stands for a field left out. */
  datatype Registration = Registration(
    name: Option<string>, email: Option<string>,
    password: Option<string>, role: Option<string>)

  /** The stored role: admin exactly when the request asks for "admin". */
  function NormalizeRole(requested: Option<string>): (r: Role)
    ensures r == Admin <==> requested == Some("admin")
    ensures r == Customer <==> requested != Some("admin")
  {
    if requested == Some("admin") then Admin else Customer
  }

  /** Registers a new user: required fields first, then the duplicate-email
      check, then the insert under a fresh id. */
  function Register(g: Registry, form: Registration, hash: string -> string): (r: Step<Session, Registry>)
    requires Valid(g)
    ensures Valid(r.state)
    ensures !(Truthy(form.name) && Truthy(form.email) && Truthy(form.password))
            ==> r == Step(Err(MissingFields), g)
    ensures Truthy(form.name) && Truthy(form.email) && Truthy(form.password)
            && form.email.value in g.users
            ==> r == Step(Err(Conflict), g)
    ensures r.outcome.Ok? <==>
            Truthy(form.name) && Truthy(form.email) && Truthy(form.password)
            && form.email.value !in g.users
    ensures r.outcome.Ok? ==>
      && r.state.users.Keys == g.users.Keys + {form.email.value}
      && |r.state.users| == |g.users| + 1
    ensures r.outcome.Ok? ==>
      var u := r.state.users[form.email.value];
      && (forall e :: e in g.users ==> r.state.users[e] == g.users[e])
      && (forall e :: e in g.users ==> g.users[e].id != u.id)
      && u.name == form.name.value
      && u.passwordHash == hash(form.password.value)
      && u.role == NormalizeRole(form.role)
      && r.outcome.value == SessionOf(u)
  {
    if !(Truthy(form.name) && Truthy(form.email) && Truthy(form.password)) then
      Step(Err(MissingFields), g)
    else if form.email.value in g.users then
      Step(Err(Conflict), g)
    else
      var email := form.email.value;
      var u := User(g.nextId, form.name.value, email, hash(form.password.value), NormalizeRole(form.role));
      Step(Ok(SessionOf(u)), Registry(g.users[email := u], g.nextId + 1))
  }

  /** Logs a user in: required fields first, then the lookup by email, then
      the password comparison. An unknown email and a wrong password get the
      same answer. */
  function Login(g: Registry, email: Option<string>, password: Option<string>,
                 compare: (string, string) -> bool): (r: Result<Session>)
    ensures !(Truthy(email) && Truthy(password)) ==> r == Err(MissingFields)
    ensures Truthy(email) && Truthy(password) && email.value !in g.users
            ==> r == Err(InvalidCredentials)
    ensures Truthy(email) && Truthy(password) && email.value in g.users
            && !compare(password.value, g.users[email.value].passwordHash)
            ==> r == Err(InvalidCredentials)
    ensures r.Ok? <==>
            && Truthy(email) && Truthy(password) && email.value in g.users
            && compare(password.value, g.users[email.value].passwordHash)
    ensures r.Ok? ==> r.value == SessionOf(g.users[email.value])
  {
    if !(Truthy(email) && Truthy(password)) then Err(MissingFields)
    else if email.value !in g.users then Err(InvalidCredentials)
    else
      var u := g.users[email.value];
      if !compare(password.value, u.passwordHash) then Err(InvalidCredentials)
      else Ok(SessionOf(u))
  }

  /** Registering the same email twice: the second attempt conflicts and
      changes nothing, whatever its other fields. */
  lemma RegisterTwiceConflicts(g: Registry, form: Registration, again: Registration, hash: string -> string)
    requires Valid(g)
    requires Truthy(form.name) && Truthy(form.email) && Truthy(form.password)
    requires form.email.value !in g.users
    requires Truthy(again.name) && Truthy(again.password) && again.email == form.email
    ensures var g' := Register(g, form, hash).state;
      Register(g', again, hash) == Step(Err(Conflict), g')
  {
  }

  /** A user who has just registered can log in with the same password, and
      gets the same session register answered with, provided the comparison
      accepts a password against its own hash. */
  lemma RegisterThenLogin(g: Registry, form: Registration, hash: string -> string,
                          compare: (string, string) -> bool)
    requires Valid(g)
    requires Truthy(form.name) && Truthy(form.email) && Truthy(form.password)
    requires form.email.value !in g.users
    requires compare(form.password.value, hash(form.password.value))
    ensures var r := Register(g, form, hash);
      Login(r.state, form.email, form.password, compare) == Ok(r.outcome.value)
  {
  }

  /** A password the comparison rejects never logs in, even for a registered
      email. */
  lemma WrongPasswordRejected(g: Registry, form: Registration, hash: string -> string,
                              compare: (string, string) -> bool, guess: string)
    requires Valid(g)
    requires Truthy(form.name) && Truthy(form.email) && Truthy(form.password)
    requires form.email.value !in g.users
    requires guess != "" && !compare(guess, hash(form.password.value))
    ensures Login(Register(g, form, hash).state, form.email, Some(guess), compare)
            == Err(InvalidCredentials)
  {
  }
}
