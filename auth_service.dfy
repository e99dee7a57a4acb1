/** Sign-up and log-in of the backend (AuthService.java). The user repository
    is a map from email, the table's primary key, to the stored user; the
    password encoder is a pair of functions the service is given. */
module Auth {
  import opened Wrappers

  /** A row of the `users` table. */
  datatype AppUser = AppUser(email: string, username: string, passwordHash: string)

  /** The two IllegalArgumentExceptions signup throws. */
  datatype SignupError = EmailExists | UsernameExists {
    function Message(): string {
      match this
      case EmailExists => "Email already exists"
      case UsernameExists => "Username already exists"
    }
  }

  type Users = map<string, AppUser>

  /** Every user is stored under its own email, and no two users share a
      username (the table's key and unique constraints). */
  ghost predicate Consistent(users: Users) {
    && (forall e :: e in users ==> users[e].email == e)
    && (forall e1, e2 :: e1 in users && e2 in users && users[e1].username == users[e2].username ==> e1 == e2)
  }

  /** findByUsername(username).isPresent() */
  predicate UsernameTaken(users: Users, username: string) {
    exists e :: e in users && users[e].username == username
  }

  /** The outcome of signup and the repository after it, for a password whose
      encoding is `hash`: the email is checked first, then the username, and
      only a request that passes both is saved. */
  function SignedUp(users: Users, email: string, username: string, hash: string): (Result<AppUser, SignupError>, Users) {
    if email in users then (Err(EmailExists), users)
    else if UsernameTaken(users, username) then (Err(UsernameExists), users)
    else
      var user := AppUser(email, username, hash);
      (Ok(user), users[email := user])
  }

  /** login: an unknown email is refused, a known one is checked against its
      stored hash. */
  function LoginAccepted(users: Users, email: string, rawPassword: string, matches: (string, string) -> bool): bool {
    email in users && matches(rawPassword, users[email].passwordHash)
  }

  // ---------------------------------------------------------------------------
  // Properties of signup and login

  /** Signup fails with "Email already exists" exactly when the email is
      stored, with "Username already exists" exactly when only the username
      is taken, and otherwise adds exactly one user, leaving the others as
      they were. A failed signup stores nothing. */
  lemma SignupOutcome(users: Users, email: string, username: string, hash: string)
    ensures var (r, after) := SignedUp(users, email, username, hash);
      && (r == Err(EmailExists) <==> email in users)
      && (r == Err(UsernameExists) <==> email !in users && UsernameTaken(users, username))
      && (r.Err? ==> after == users)
      && (r.Ok? ==>
            && r.value == AppUser(email, username, hash)
            && after.Keys == users.Keys + {email}
            && |after| == |users| + 1
            && after[email] == r.value
            && (forall e :: e in users ==> after[e] == users[e]))
  {
    var (r, after) := SignedUp(users, email, username, hash);
    if r.Ok? {
      assert after.Keys == users.Keys + {email};
      assert email !in users.Keys;
      assert |after.Keys| == |users.Keys| + 1;
    }
  }

  /** Signup keeps emails and usernames unique. */
  lemma {:induction false} SignupKeepsConsistent(users: Users, email: string, username: string, hash: string)
    requires Consistent(users)
    ensures Consistent(SignedUp(users, email, username, hash).1)
  {
    var after := SignedUp(users, email, username, hash).1;
    if email !in users && !UsernameTaken(users, username) {
      assert forall e :: e in users ==> users[e].username != username;
      assert forall e :: e in after && e != email ==> after[e] == users[e];
    }
  }

  /** Signing up again with a registered email fails, whatever the username. */
  lemma SecondSignupFails(users: Users, email: string, username: string, hash: string, otherName: string, otherHash: string)
    requires SignedUp(users, email, username, hash).0.Ok?
    ensures SignedUp(SignedUp(users, email, username, hash).1, email, otherName, otherHash).0 == Err(EmailExists)
  {
  }

  /** Right after a successful signup, logging in with the same email checks
      the password against the hash just stored. */
  lemma SignupThenLogin(users: Users, email: string, username: string, rawPassword: string, attempt: string,
                        encode: string -> string, matches: (string, string) -> bool)
    requires SignedUp(users, email, username, encode(rawPassword)).0.Ok?
    ensures LoginAccepted(SignedUp(users, email, username, encode(rawPassword)).1, email, attempt, matches)
            == matches(attempt, encode(rawPassword))
  {
  }

  /** An email nobody signed up with never logs in. */
  lemma UnknownEmailRefused(users: Users, email: string, rawPassword: string, matches: (string, string) -> bool)
    requires email !in users
    ensures !LoginAccepted(users, email, rawPassword, matches)
  {
  }

  class AuthService {
    var users: Users
    const encode: string -> string
    const matches: (string, string) -> bool

    ghost predicate Valid()
      reads this
    {
      Consistent(users)
    }

    constructor (repository: Users, encode: string -> string, matches: (string, string) -> bool)
      requires Consistent(repository)
      ensures Valid()
      ensures users == repository && this.encode == encode && this.matches == matches
    {
      users := repository;
      this.encode := encode;
      this.matches := matches;
    }

    /** signup: the error, or the saved user, as SignedUp describes. */
    method Signup(email: string, username: string, rawPassword: string) returns (r: Result<AppUser, SignupError>)
      requires Valid()
      modifies this`users
      ensures Valid()
      ensures (r, users) == SignedUp(old(users), email, username, encode(rawPassword))
    {
      if email in users {
        return Err(EmailExists);
      }
      if UsernameTaken(users, username) {
        return Err(UsernameExists);
      }
      var user := AppUser(email, username, encode(rawPassword));
      users := users[email := user];
      SignupKeepsConsistent(old(users), email, username, encode(rawPassword));
      return Ok(user);
    }

    /** login: reads the repository and changes nothing. */
    method Login(email: string, rawPassword: string) returns (ok: bool)
      ensures ok == LoginAccepted(users, email, rawPassword, matches)
    {
      if email !in users {
        return false;
      }
      return matches(rawPassword, users[email].passwordHash);
    }

    /** getUserByEmail: the user stored under `email`, None for Java's null. */
    method GetUserByEmail(email: string) returns (r: Option<AppUser>)
      requires Valid()
      ensures r.Some? <==> email in users
      ensures r.Some? ==> r.value == users[email] && r.value.email == email
    {
      if email in users {
        return Some(users[email]);
      }
      return None;
    }
  }
}
