/**
 * The authentication service: the login and register form strategies, the
 * authenticator's session keys and the registry that names the strategies.
 *
 * A submitted form is a map from field name to value; a field that is absent
 * or empty is falsy, and a strategy reports the first such field it checks.
 */
module AuthServer {
  import opened Results
  import opened Auth

  type Form = map<string, string>

  const EmailRequired := "Email is required"
  const PasswordRequired := "Password is required"
  const FirstNameRequired := "First name is required"
  const LastNameRequired := "Last name is required"

  /** The fields each strategy checks, in order, with the message for a missing one. */
  const LoginChecks: seq<(string, string)> :=
    [("email", EmailRequired), ("password", PasswordRequired)]
  const RegisterChecks: seq<(string, string)> :=
    [("firstname", FirstNameRequired), ("lastname", LastNameRequired),
     ("email", EmailRequired), ("password", PasswordRequired)]

  /** A field the form does not carry, or carries as the empty string. */
  predicate Missing(form: Form, key: string)
  {
    key !in form || form[key] == ""
  }

  /** Check `i` is the first of `checks` whose field is missing. */
  ghost predicate FirstMissing(form: Form, checks: seq<(string, string)>, i: int)
  {
    && 0 <= i < |checks|
    && Missing(form, checks[i].0)
    && forall j :: 0 <= j < i ==> !Missing(form, checks[j].0)
  }

  ghost predicate AllPresent(form: Form, checks: seq<(string, string)>)
  {
    forall j :: 0 <= j < |checks| ==> !Missing(form, checks[j].0)
  }

  /** A missing field at `k` means some check is the first to fail, at or before `k`. */
  lemma {:induction false} FirstMissingAtOrBefore(form: Form, checks: seq<(string, string)>, k: int)
    requires 0 <= k < |checks| && Missing(form, checks[k].0)
    ensures exists i :: 0 <= i <= k && FirstMissing(form, checks, i)
    decreases k
  {
    if forall j :: 0 <= j < k ==> !Missing(form, checks[j].0) {
      assert FirstMissing(form, checks, k);
    } else {
      var j :| 0 <= j < k && Missing(form, checks[j].0);
      FirstMissingAtOrBefore(form, checks, j);
    }
  }

  /** Exactly one of the two holds: some check fails first, or every field is present. */
  lemma FirstMissingOrAllPresent(form: Form, checks: seq<(string, string)>)
    ensures AllPresent(form, checks) <==> !exists i :: FirstMissing(form, checks, i)
  {
    if !AllPresent(form, checks) {
      var k :| 0 <= k < |checks| && Missing(form, checks[k].0);
      FirstMissingAtOrBefore(form, checks, k);
    }
  }

  /** The login strategy: check email, then password, then delegate to `login`. */
  function LoginStrategy(users: map<string, UserRecord>, form: Form): (r: Result<User>)
    ensures forall i :: FirstMissing(form, LoginChecks, i) ==> r == Err(LoginChecks[i].1)
    ensures AllPresent(form, LoginChecks) ==>
      assert !Missing(form, LoginChecks[0].0) && !Missing(form, LoginChecks[1].0);
      r == Login(users, form["email"], form["password"])
  {
    assert LoginChecks[0].0 == "email" && LoginChecks[1].0 == "password";
    if Missing(form, "email") then Err(EmailRequired)
    else if Missing(form, "password") then Err(PasswordRequired)
    else Login(users, form["email"], form["password"])
  }

  /** The fields the register strategy hands to `register`. */
  datatype Registrant = Registrant(firstName: string, lastName: string, email: string, password: string)

  /** The register strategy's field checks, in order, before any store access. */
  function ReadRegisterForm(form: Form): (r: Result<Registrant>)
    ensures forall i :: FirstMissing(form, RegisterChecks, i) ==> r == Err(RegisterChecks[i].1)
    ensures AllPresent(form, RegisterChecks) ==>
      assert !Missing(form, RegisterChecks[0].0) && !Missing(form, RegisterChecks[1].0);
      assert !Missing(form, RegisterChecks[2].0) && !Missing(form, RegisterChecks[3].0);
      r == Ok(Registrant(form["firstname"], form["lastname"], form["email"], form["password"]))
  {
    assert RegisterChecks[0].0 == "firstname" && RegisterChecks[1].0 == "lastname";
    assert RegisterChecks[2].0 == "email" && RegisterChecks[3].0 == "password";
    if Missing(form, "firstname") then Err(FirstNameRequired)
    else if Missing(form, "lastname") then Err(LastNameRequired)
    else if Missing(form, "email") then Err(EmailRequired)
    else if Missing(form, "password") then Err(PasswordRequired)
    else Ok(Registrant(form["firstname"], form["lastname"], form["email"], form["password"]))
  }

  /**
   * What the register strategy does to the store and returns: a form that
   * fails the checks leaves the store as it was and returns the first
   * missing field's message; otherwise the result and new store are those
   * of `register` on the form's fields, with a salt of the default cost.
   */
  twostate predicate RegisteredFromForm(store: CredentialStore, form: Form, nonce: nat, new r: Result<User>)
    reads store
  {
    var fields := ReadRegisterForm(form);
    if fields.Err? then
      r == Err(fields.message) && store.users == old(store.users) && store.nextId == old(store.nextId)
    else
      var f := fields.value;
      var reg := RegisterOutcome(old(store.users), old(store.nextId), f.firstName, f.lastName, f.email, f.password,
                                 Bcrypt.GenSalt(Bcrypt.SaltRounds, nonce));
      r == reg.result && store.users == reg.users && store.nextId == reg.nextId
  }

  /**
   * The register strategy: a form that fails the checks leaves the store as it
   * was; otherwise the result and new store are those of `register`.
   */
  method RegisterStrategy(store: CredentialStore, form: Form, nonce: nat) returns (r: Result<User>)
    requires store.Valid()
    modifies store
    ensures store.Valid()
    ensures RegisteredFromForm(store, form, nonce, r)
  {
    var fields := ReadRegisterForm(form);
    if fields.Err? {
      return Err(fields.message);
    }
    var f := fields.value;
    r := store.Register(f.firstName, f.lastName, f.email, f.password, nonce);
  }

  /**
   * A complete registration form for a new email, followed by a login form
   * with the same email and password, logs in as the user just registered.
   */
  lemma RegisterFormThenLoginForm(users: map<string, UserRecord>, nextId: nat, form: Form, salt: Bcrypt.Salt)
    requires AllPresent(form, RegisterChecks)
    requires "email" in form && form["email"] !in users
    ensures var f := ReadRegisterForm(form).value;
      var reg := RegisterOutcome(users, nextId, f.firstName, f.lastName, f.email, f.password, salt);
      && reg.result.Ok?
      && LoginStrategy(reg.users, map["email" := form["email"], "password" := form["password"]]) == reg.result
  {
  }

  /** The strategies the authenticator can run; `RunStrategy` says what each tag runs. */
  datatype StrategyKind = FormLogin | FormRegister

  /** Runs the strategy a registry tag names on a submitted form. */
  method RunStrategy(kind: StrategyKind, store: CredentialStore, form: Form, nonce: nat) returns (r: Result<User>)
    requires store.Valid()
    modifies store
    ensures store.Valid()
    ensures kind == FormLogin ==>
      r == LoginStrategy(old(store.users), form) && store.users == old(store.users) && store.nextId == old(store.nextId)
    ensures kind == FormRegister ==> RegisteredFromForm(store, form, nonce, r)
  {
    match kind
    case FormLogin =>
      r := LoginStrategy(store.users, form);
    case FormRegister =>
      r := RegisterStrategy(store, form, nonce);
  }

  /** Strategy names as registered with the authenticator. */
  const Registry: map<string, StrategyKind> := map["login" := FormLogin, "register" := FormRegister]

  /** The authenticator's configuration: its session keys and its named strategies. */
  class Authenticator {
    const sessionKey: string
    const sessionErrorKey: string
    var strategies: map<string, StrategyKind>

    constructor (sessionKey: string, sessionErrorKey: string)
      ensures this.sessionKey == sessionKey && this.sessionErrorKey == sessionErrorKey
      ensures strategies == map[]
    {
      this.sessionKey := sessionKey;
      this.sessionErrorKey := sessionErrorKey;
      strategies := map[];
    }

    /** Registers `strategy` under `name` and returns the authenticator for chaining. */
    method Use(strategy: StrategyKind, name: string) returns (self: Authenticator)
      modifies this
      ensures self == this
      ensures strategies == old(strategies)[name := strategy]
    {
      strategies := strategies[name := strategy];
      self := this;
    }
  }

  /** Module set-up: the authenticator with its keys and both strategies registered. */
  method CreateAuthenticator() returns (a: Authenticator)
    ensures fresh(a)
    ensures a.sessionKey == "sessionKey" && a.sessionErrorKey == "sessionErrorKey"
    ensures a.sessionKey != a.sessionErrorKey
    ensures a.strategies == Registry
    ensures a.strategies["login"] == FormLogin && a.strategies["register"] == FormRegister
  {
    a := new Authenticator("sessionKey", "sessionErrorKey");
    var chained := a.Use(FormLogin, "login");
    chained := chained.Use(FormRegister, "register");
  }
}
