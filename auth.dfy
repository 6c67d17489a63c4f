/**
 * The credential store and its two operations: `login`, a read-only lookup
 * with three ordered failure cases, and `register`, a guarded insert of a
 * user together with its password credential.
 *
 * The user table is a map from email to user record, so a lookup by email is
 * a map lookup; the table invariant ties each key to the record's own email.
 */
module Auth {
  import opened Results
  import opened Bcrypt

  type UserId = nat

  const UserNotFound := "User not found"
  const NoPassword := "no password"
  const InvalidCredentials := "Invalid credentials"
  const UserExists := "User already exists with this email"

  /** The one-to-one password row owned by a user. */
  datatype Credential = Credential(hash: Digest)

  /** A user row as stored, with its optional credential. */
  datatype UserRecord = UserRecord(
    id: UserId,
    firstName: string,
    lastName: string,
    email: string,
    password: Option<Credential>)

  /** A user as handed out of the store: every field except the credential. */
  datatype User = User(id: UserId, firstName: string, lastName: string, email: string)

  function WithoutPassword(rec: UserRecord): User
  {
    User(rec.id, rec.firstName, rec.lastName, rec.email)
  }

  /**
   * The table invariant: every record is filed under its own email (so emails
   * are unique), ids are below the next id to hand out, and ids are distinct.
   */
  ghost predicate TableInvariant(users: map<string, UserRecord>, nextId: nat)
  {
    && (forall e :: e in users ==> users[e].email == e && users[e].id < nextId)
    && (forall e1, e2 :: e1 in users && e2 in users && users[e1].id == users[e2].id ==> e1 == e2)
  }

  /** `login(email, password)`: the first failing check decides the error. */
  function Login(users: map<string, UserRecord>, email: string, password: string): (r: Result<User>)
    ensures email !in users ==> r == Err(UserNotFound)
    ensures email in users && users[email].password.None? ==> r == Err(NoPassword)
    ensures email in users && users[email].password.Some? && !Compare(password, users[email].password.value.hash)
      ==> r == Err(InvalidCredentials)
    ensures r.Ok? <==> email in users && users[email].password.Some? && Compare(password, users[email].password.value.hash)
    ensures r.Ok? ==> r.value == WithoutPassword(users[email])
  {
    if email !in users then Err(UserNotFound)
    else
      var user := users[email];
      if user.password.None? then Err(NoPassword)
      else if !Compare(password, user.password.value.hash) then Err(InvalidCredentials)
      else Ok(WithoutPassword(user))
  }

  /** Under the table invariant a successful login returns the submitted email, case for case. */
  lemma LoginReturnsSubmittedEmail(users: map<string, UserRecord>, nextId: nat, email: string, password: string)
    requires TableInvariant(users, nextId)
    requires Login(users, email, password).Ok?
    ensures Login(users, email, password).value.email == email
  {
  }

  /** What `register` returns and what the table looks like afterwards. */
  datatype Registration = Registration(result: Result<User>, users: map<string, UserRecord>, nextId: nat)

  function NewRecord(id: UserId, firstName: string, lastName: string, email: string, password: string, salt: Salt): UserRecord
  {
    UserRecord(id, firstName, lastName, email, Some(Credential(Hash(password, salt))))
  }

  /** `register`: fail on a taken email, otherwise insert one user with a hashed credential. */
  function RegisterOutcome(
    users: map<string, UserRecord>, nextId: nat,
    firstName: string, lastName: string, email: string, password: string, salt: Salt): (reg: Registration)
    ensures email in users ==> reg == Registration(Err(UserExists), users, nextId)
    ensures email !in users ==>
      && reg.result == Ok(User(nextId, firstName, lastName, email))
      && reg.users.Keys == users.Keys + {email}
      && reg.users[email] == NewRecord(nextId, firstName, lastName, email, password, salt)
      && (forall e :: e in users ==> reg.users[e] == users[e])
      && reg.nextId == nextId + 1
  {
    if email in users then Registration(Err(UserExists), users, nextId)
    else
      var record := NewRecord(nextId, firstName, lastName, email, password, salt);
      Registration(Ok(WithoutPassword(record)), users[email := record], nextId + 1)
  }

  lemma RegisterKeepsInvariant(
    users: map<string, UserRecord>, nextId: nat,
    firstName: string, lastName: string, email: string, password: string, salt: Salt)
    requires TableInvariant(users, nextId)
    ensures var reg := RegisterOutcome(users, nextId, firstName, lastName, email, password, salt);
      TableInvariant(reg.users, reg.nextId)
  {
  }

  /** Registering and then logging in with the same email and password succeeds with the new user. */
  lemma RegisterThenLogin(
    users: map<string, UserRecord>, nextId: nat,
    firstName: string, lastName: string, email: string, password: string, salt: Salt)
    requires email !in users
    ensures var reg := RegisterOutcome(users, nextId, firstName, lastName, email, password, salt);
      reg.result.Ok? && Login(reg.users, email, password) == reg.result
  {
  }

  /**
   * After registering, any other password is refused as invalid credentials.
   * This rests on the idealised, collision-free digest: real bcrypt ignores
   * everything past the 72nd byte of a password, so there two passwords that
   * agree on their first 72 bytes would both be accepted.
   */
  lemma RegisterThenWrongPassword(
    users: map<string, UserRecord>, nextId: nat,
    firstName: string, lastName: string, email: string, password: string, other: string, salt: Salt)
    requires email !in users
    requires other != password
    ensures var reg := RegisterOutcome(users, nextId, firstName, lastName, email, password, salt);
      Login(reg.users, email, other) == Err(InvalidCredentials)
  {
  }

  /** A second registration with the same email fails and leaves the first user in place. */
  lemma RegisterTwice(
    users: map<string, UserRecord>, nextId: nat,
    firstName: string, lastName: string, email: string, password: string, salt: Salt,
    firstName': string, lastName': string, password': string, salt': Salt)
    ensures var first := RegisterOutcome(users, nextId, firstName, lastName, email, password, salt);
      var second := RegisterOutcome(first.users, first.nextId, firstName', lastName', email, password', salt');
      && second.result == Err(UserExists)
      && second.users == first.users
      && email in second.users
  {
  }

  /** The user table, updated in place by `register`. */
  class CredentialStore {
    var users: map<string, UserRecord>
    var nextId: nat

    ghost predicate Valid()
      reads this
    {
      TableInvariant(users, nextId)
    }

    constructor ()
      ensures Valid()
      ensures users == map[] && nextId == 0
    {
      users := map[];
      nextId := 0;
    }

    /**
     * `register`; `nonce` stands for the randomness of salt generation.
     * The new state and result are those of `RegisterOutcome`.
     */
    method Register(firstName: string, lastName: string, email: string, password: string, nonce: nat)
      returns (r: Result<User>)
      requires Valid()
      modifies this
      ensures Valid()
      ensures var reg := RegisterOutcome(old(users), old(nextId), firstName, lastName, email, password,
                                         GenSalt(SaltRounds, nonce));
        r == reg.result && users == reg.users && nextId == reg.nextId
    {
      if email in users {
        return Err(UserExists);
      }
      var salt := GenSalt(SaltRounds, nonce);
      var hashed := Hash(password, salt);
      var record := UserRecord(nextId, firstName, lastName, email, Some(Credential(hashed)));
      users := users[email := record];
      nextId := nextId + 1;
      r := Ok(WithoutPassword(record));
    }
  }
}
