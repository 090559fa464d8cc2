/** The `/signup`, `/login` and `/logout` handlers. bcrypt is a parameter:
    `hash` turns a password into the stored credential, `check` is
    `bcrypt.compare(password, stored)`. */
module Auth {
  import opened Wrappers
  import opened JsValues
  import opened ServerState

  /** Some registered user has this email. */
  predicate Registered(users: seq<User>, email: string) {
    exists i :: 0 <= i < |users| && users[i].email == email
  }

  /** The index of the first user with this email (`results[0]` of the
      lookup), or `|users|` when there is none. */
  function FindByEmail(users: seq<User>, email: string): (i: nat)
    ensures i <= |users|
    ensures forall j :: 0 <= j < i ==> users[j].email != email
    ensures i < |users| ==> users[i].email == email
    ensures i == |users| <==> !Registered(users, email)
    decreases |users|
  {
    if |users| == 0 || users[0].email == email then 0
    else 1 + FindByEmail(users[1..], email)
  }

  /** `POST /signup`: all three fields required, then a password of at least
      six characters, then an unused email; on success one user is appended
      with the hashed password and id `newId` (the table's auto-increment). */
  function Signup(s: State, name: Option<string>, email: Option<string>, password: Option<string>,
                  hash: string -> string, newId: int): (res: (Reply, State))
    ensures !(Filled(name) && Filled(email) && Filled(password)) ==> res == (MissingFields, s)
    ensures res.0 == SignedUp <==>
      Filled(name) && Filled(email) && Filled(password)
      && |password.value| >= MinPasswordLength && !Registered(s.users, email.value)
    ensures res.0 != SignedUp ==> res.1 == s
    ensures res.0 == SignedUp ==>
      res.1 == s.(users := s.users + [User(newId, name.value, email.value, hash(password.value))])
  {
    if !Filled(name) || !Filled(email) || !Filled(password) then (MissingFields, s)
    else if |password.value| < MinPasswordLength then (ShortPassword, s)
    else if FindByEmail(s.users, email.value) < |s.users| then (EmailTaken, s)
    else (SignedUp, s.(users := s.users + [User(newId, name.value, email.value, hash(password.value))]))
  }

  /** `POST /login`: both fields required; the first user with the email
      must exist and its stored hash must match; only then is the session
      set to that user's id, name and email. */
  function Login(s: State, email: Option<string>, password: Option<string>,
                 check: (string, string) -> bool): (res: (Reply, State))
    ensures res.0 == LoggedIn <==>
      Filled(email) && Filled(password) && Registered(s.users, email.value)
      && check(password.value, s.users[FindByEmail(s.users, email.value)].passwordHash)
    ensures res.0 != LoggedIn ==> res.1 == s
    ensures res.0 == LoggedIn ==>
      var u := s.users[FindByEmail(s.users, email.value)];
      u.email == email.value && res.1 == s.(session := Some(SessionUser(u.id, u.name, u.email)))
  {
    if !Filled(email) || !Filled(password) then (MissingCredentials, s)
    else
      var i := FindByEmail(s.users, email.value);
      if i == |s.users| then (UnknownUser, s)
      else if !check(password.value, s.users[i].passwordHash) then (BadCredentials, s)
      else
        var u := s.users[i];
        (LoggedIn, s.(session := Some(SessionUser(u.id, u.name, u.email))))
  }

  /** `POST /logout`: the session is destroyed. */
  function Logout(s: State): (res: (Reply, State))
    ensures res.1.session.None?
    ensures res.1.users == s.users && res.1.cart == s.cart && res.1.medicines == s.medicines
  {
    (LoggedOut, s.(session := None))
  }

  /** Signup keeps emails unique. */
  lemma SignupKeepsEmailsUnique(s: State, name: Option<string>, email: Option<string>, password: Option<string>,
                                hash: string -> string, newId: int)
    requires UniqueEmails(s.users)
    ensures UniqueEmails(Signup(s, name, email, password, hash, newId).1.users)
  {
    var res := Signup(s, name, email, password, hash, newId);
    if res.0 == SignedUp {
      var us := res.1.users;
      forall i, j | 0 <= i < j < |us|
        ensures us[i].email != us[j].email
      {
        if j == |s.users| {
          assert us[i] == s.users[i];
        }
      }
    }
  }

  /** A second signup with the same email is refused. */
  lemma SignupTwiceRefused(s: State, name: Option<string>, email: Option<string>, password: Option<string>,
                           hash: string -> string, newId: int,
                           name2: Option<string>, password2: Option<string>, newId2: int)
    requires Signup(s, name, email, password, hash, newId).0 == SignedUp
    requires Filled(name2) && Filled(password2) && |password2.value| >= MinPasswordLength
    ensures Signup(Signup(s, name, email, password, hash, newId).1, name2, email, password2, hash, newId2).0 == EmailTaken
  {
    var s1 := Signup(s, name, email, password, hash, newId).1;
    assert s1.users[|s.users|].email == email.value;
  }

  /** With a `check` that accepts a password against its own hash, signing up
      and then logging in with the same email and password logs in as the
      new user. */
  lemma SignupThenLogin(s: State, name: Option<string>, email: Option<string>, password: Option<string>,
                        hash: string -> string, check: (string, string) -> bool, newId: int)
    requires Signup(s, name, email, password, hash, newId).0 == SignedUp
    requires forall pw :: check(pw, hash(pw))
    ensures var s1 := Signup(s, name, email, password, hash, newId).1;
      Login(s1, email, password, check) == (LoggedIn, s1.(session := Some(SessionUser(newId, name.value, email.value))))
  {
    var s1 := Signup(s, name, email, password, hash, newId).1;
    var n := |s.users|;
    assert s1.users[n].email == email.value;
    assert Registered(s1.users, email.value);
    assert FindByEmail(s1.users, email.value) == n;
  }
}
