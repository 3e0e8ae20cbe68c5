/** `AuthService`: registration and password login. The key derivation
    (PBKDF2 over the password and a salt) is a deterministic function passed
    in as `hash`; the random salt is passed in as `salt`. */
module Auth {
  import opened Results
  import opened ErrorCodes
  import opened Entities
  import opened Database

  /** The deterministic key derivation `H(password, salt)`. */
  type Hash = (string, string) -> string

  /** Some user has this email. */
  predicate EmailTaken(users: seq<User>, email: string) {
    exists j :: 0 <= j < |users| && users[j].email == email
  }

  /** Some user has this nickname. */
  predicate NicknameTaken(users: seq<User>, nickname: string) {
    exists j :: 0 <= j < |users| && users[j].nickname == nickname
  }

  /** `findOne({ where: { email } })`: the first user with this email, if
      any. */
  function EmailOwner(users: seq<User>, email: string): (r: Option<UserId>)
    ensures r.None? <==> !EmailTaken(users, email)
    ensures r.Some? ==> && r.value < |users| && users[r.value].email == email
                        && forall j :: 0 <= j < r.value ==> users[j].email != email
    decreases |users|
  {
    if users == [] then None
    else if users[0].email == email then Some(0)
    else match EmailOwner(users[1..], email)
      case None => None
      case Some(k) => Some(k + 1)
  }

  /** `register({nickname, email, password, confirmPassword})`. The checks
      run in order: the two passwords must match, then the email and then
      the nickname must be free. The stored password is the derived key of
      the password and the salt, and the new user takes the default role
      and the initial point balance. */
  function Register(st: Store, nickname: string, email: string, password: string, confirmPassword: string,
                    salt: string, hash: Hash): (r: Result<(Store, UserId), Failure>)
    ensures password != confirmPassword ==> r == Err(BadRequest("Passwords do not match"))
    ensures password == confirmPassword && EmailTaken(st.users, email)
      ==> r == Err(BadRequest("Email already exists"))
    ensures (password == confirmPassword && !EmailTaken(st.users, email)
             && NicknameTaken(st.users, nickname)) ==> r == Err(BadRequest("Nickname already exists"))
    ensures (password == confirmPassword && !EmailTaken(st.users, email)
             && !NicknameTaken(st.users, nickname)) ==> r.Ok?
    ensures r.Err? ==> r.error in {BadRequest("Passwords do not match"), BadRequest("Email already exists"),
                                   BadRequest("Nickname already exists")}
    ensures r.Ok? ==> var (st', id) := r.value;
      && id == |st.users|
      && st'.users == st.users + [User(nickname, email, None, DefaultRole, hash(password, salt), salt, InitialPoint)]
      && st'.(users := st.users) == st
  {
    if password != confirmPassword then Err(BadRequest("Passwords do not match"))
    else if EmailOwner(st.users, email).Some? then Err(BadRequest("Email already exists"))
    else if NicknameTaken(st.users, nickname) then Err(BadRequest("Nickname already exists"))
    else
      var u := User(nickname, email, None, DefaultRole, hash(password, salt), salt, InitialPoint);
      Ok((st.(users := st.users + [u]), |st.users|))
  }

  /** `login({email, password})`: the subject of the issued token, which is
      the id of the user the email names. An unknown email and a wrong
      password fail alike. */
  function Login(st: Store, email: string, password: string, hash: Hash): (r: Result<UserId, Failure>)
    ensures r.Err? ==> r.error == NotAuthorized("Invalid credentials")
    ensures !EmailTaken(st.users, email) ==> r.Err?
    ensures r.Ok? ==> && r.value < |st.users|
                      && st.users[r.value].email == email
                      && hash(password, st.users[r.value].salt) == st.users[r.value].password
  {
    match EmailOwner(st.users, email)
    case None => Err(NotAuthorized("Invalid credentials"))
    case Some(k) =>
      if hash(password, st.users[k].salt) != st.users[k].password then Err(NotAuthorized("Invalid credentials"))
      else Ok(k)
  }

  /** With unique emails, login succeeds exactly for the one user holding
      the email whose stored key matches the password's. */
  lemma LoginSucceedsIff(st: Store, email: string, password: string, hash: Hash, k: UserId)
    requires EmailsUnique(st.users)
    ensures Login(st, email, password, hash) == Ok(k)
      <==> k < |st.users| && st.users[k].email == email && hash(password, st.users[k].salt) == st.users[k].password
  {
  }

  /** Registration keeps emails and nicknames unique, and every other
      constraint. */
  lemma RegisterPreservesValid(st: Store, nickname: string, email: string, password: string, confirmPassword: string,
                               salt: string, hash: Hash)
    requires Valid(st)
    requires Register(st, nickname, email, password, confirmPassword, salt, hash).Ok?
    ensures Valid(Register(st, nickname, email, password, confirmPassword, salt, hash).value.0)
  {
  }

  /** Round trip: after a successful registration, logging in with the same
      email and password yields the new user, and any password whose key
      differs is refused. */
  lemma RegisterThenLogin(st: Store, nickname: string, email: string, password: string, salt: string,
                          hash: Hash, other: string)
    requires Register(st, nickname, email, password, password, salt, hash).Ok?
    ensures var (st', id) := Register(st, nickname, email, password, password, salt, hash).value;
      && Login(st', email, password, hash) == Ok(id)
      && (hash(other, salt) != hash(password, salt) ==> Login(st', email, other, hash).Err?)
  {
    var (st', id) := Register(st, nickname, email, password, password, salt, hash).value;
    assert !EmailTaken(st.users, email);
    assert st'.users[id].email == email;
    assert EmailTaken(st'.users, email);
  }
}
