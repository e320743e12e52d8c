/** The account controller: signup, login and the profile lookup over the
    `users` table. Password hashing, hash comparison and token signing are
    library calls and appear as function parameters. */
module Auth {
  import opened Common

  /** A row of `users`; `createdAt` is the insertion time. */
  datatype UserRow = UserRow(id: Id, username: string, email: string, passwordHash: string, createdAt: int)

  /** The user object of signup and login replies. */
  datatype PublicUser = PublicUser(id: Id, username: string, email: string)

  /** The user object of the profile reply. */
  datatype Profile = Profile(id: Id, username: string, email: string, createdAt: int)

  /** The body of a successful signup or login. */
  datatype Session = Session(message: string, token: string, user: PublicUser)

  function PublicOf(u: UserRow): (r: PublicUser)
    ensures r.id == u.id && r.username == u.username && r.email == u.email
  {
    PublicUser(u.id, u.username, u.email)
  }

  /** `SELECT ... FROM users WHERE email = ?`, first row. */
  function UserByEmail(users: seq<UserRow>, email: string): (r: Option<UserRow>)
    ensures r.Some? ==> r.value in users && r.value.email == email
    ensures r.None? <==> forall i :: 0 <= i < |users| ==> users[i].email != email
  {
    First(users, (u: UserRow) => u.email == email)
  }

  /** `SELECT id FROM users WHERE email = ? OR username = ?` finds a row. */
  predicate Taken(users: seq<UserRow>, email: string, username: string) {
    First(users, (u: UserRow) => u.email == email || u.username == username).Some?
  }

  lemma TakenIff(users: seq<UserRow>, email: string, username: string)
    ensures Taken(users, email, username) <==>
      exists i :: 0 <= i < |users| && (users[i].email == email || users[i].username == username)
  {
  }

  /** No two users share an email or a username, and ids are the increasing
      auto-increment values below `nextId`. */
  ghost predicate UsersOk(users: seq<UserRow>, nextId: Id) {
    && 1 <= nextId
    && (forall i :: 0 <= i < |users| ==> 1 <= users[i].id < nextId)
    && (forall i, j :: 0 <= i < j < |users| ==> users[i].id < users[j].id)
    && (forall i, j :: 0 <= i < j < |users| ==>
         users[i].email != users[j].email && users[i].username != users[j].username)
  }

  /** Appending a user whose email and username are both free keeps the
      table consistent. */
  lemma {:induction false} AppendFreeUser(users: seq<UserRow>, nextId: Id, row: UserRow)
    requires UsersOk(users, nextId) && row.id == nextId
    requires !Taken(users, row.email, row.username)
    ensures UsersOk(users + [row], nextId + 1)
  {
    TakenIff(users, row.email, row.username);
    var s := users + [row];
    forall i, j | 0 <= i < j < |s|
      ensures s[i].id < s[j].id
      ensures s[i].email != s[j].email && s[i].username != s[j].username
    {
      assert s[i] == users[i];
      if j < |users| {
        assert s[j] == users[j];
      }
    }
  }

  /** Signing up and then logging in with the same email and password finds
      the new user, whenever the comparison accepts a password against its
      own hash. */
  lemma {:induction false} LoginFindsNewUser(users: seq<UserRow>, row: UserRow)
    requires !Taken(users, row.email, row.username)
    ensures UserByEmail(users + [row], row.email) == Some(row)
  {
    TakenIff(users, row.email, row.username);
    FirstOfAppended(users, row, (u: UserRow) => u.email == row.email);
  }

  class UserTable {
    var users: seq<UserRow>
    /** The next auto-increment id. */
    var nextId: Id

    ghost predicate Valid()
      reads this
    {
      UsersOk(users, nextId)
    }

    constructor()
      ensures Valid() && users == [] && nextId == 1
    {
      users := [];
      nextId := 1;
    }

    /** `signup`: the three fields are required, the password needs six
        characters, email and username must both be free; the user is stored
        with the hash of the password and a token for the new id comes back. */
    method Signup(username: Option<string>, email: Option<string>, password: Option<string>,
                  now: int, hash: string -> string, sign: Id -> string)
      returns (reply: Reply<Session>)
      modifies this
      ensures Falsy(username) || Falsy(email) || Falsy(password) ==>
        reply == Err(BadRequest, "All fields are required")
      ensures !(Falsy(username) || Falsy(email) || Falsy(password)) && |password.value| < 6 ==>
        reply == Err(BadRequest, "Password must be at least 6 characters")
      ensures !(Falsy(username) || Falsy(email) || Falsy(password)) && |password.value| >= 6 &&
              Taken(old(users), email.value, username.value) ==>
        reply == Err(BadRequest, "User already exists with this email or username")
      ensures reply.Err? ==> users == old(users) && nextId == old(nextId)
      ensures reply.IsSuccess() <==>
        !(Falsy(username) || Falsy(email) || Falsy(password)) && |password.value| >= 6 &&
        !Taken(old(users), email.value, username.value)
      ensures reply.IsSuccess() ==>
        && username.Some? && email.Some? && password.Some?
        && var row := UserRow(old(nextId), username.value, email.value, hash(password.value), now);
        && users == old(users) + [row]
        && nextId == old(nextId) + 1
        && reply == Created(Session("User created successfully", sign(row.id), PublicOf(row)))
        && UserByEmail(users, email.value) == Some(row)
      ensures old(Valid()) ==> Valid()
    {
      if Falsy(username) || Falsy(email) || Falsy(password) {
        return Err(BadRequest, "All fields are required");
      }
      if |password.value| < 6 {
        return Err(BadRequest, "Password must be at least 6 characters");
      }
      if Taken(users, email.value, username.value) {
        return Err(BadRequest, "User already exists with this email or username");
      }
      var passwordHash := hash(password.value);
      var row := UserRow(nextId, username.value, email.value, passwordHash, now);
      if Valid() {
        AppendFreeUser(users, nextId, row);
      }
      LoginFindsNewUser(users, row);
      users := users + [row];
      nextId := nextId + 1;
      reply := Created(Session("User created successfully", sign(row.id), PublicOf(row)));
    }

    /** `login`: both fields are required; an unknown email and a rejected
        password give the same 401 reply. */
    function Login(email: Option<string>, password: Option<string>,
                   compare: (string, string) -> bool, sign: Id -> string): (r: Reply<Session>)
      reads this
      ensures Falsy(email) || Falsy(password) ==> r == Err(BadRequest, "Email and password are required")
      ensures !(Falsy(email) || Falsy(password)) && UserByEmail(users, email.value).None? ==>
        r == Err(Unauthorized, "Invalid credentials")
      ensures r.IsSuccess() <==>
        && !Falsy(email) && !Falsy(password)
        && UserByEmail(users, email.value).Some?
        && compare(password.value, UserByEmail(users, email.value).value.passwordHash)
      ensures r.IsSuccess() ==>
        var u := UserByEmail(users, email.value).value;
        r == Ok(Session("Login successful", sign(u.id), PublicOf(u)))
      ensures r.Err? && r.status == Unauthorized ==> r.message == "Invalid credentials"
    {
      if Falsy(email) || Falsy(password) then Err(BadRequest, "Email and password are required")
      else
        match UserByEmail(users, email.value)
        case None => Err(Unauthorized, "Invalid credentials")
        case Some(u) =>
          if !compare(password.value, u.passwordHash) then Err(Unauthorized, "Invalid credentials")
          else Ok(Session("Login successful", sign(u.id), PublicOf(u)))
    }

    /** `getProfile` for the id carried by the caller's token. */
    function GetProfile(userId: Id): (r: Reply<Profile>)
      reads this
      ensures r.Ok? <==> exists i :: 0 <= i < |users| && users[i].id == userId
      ensures !r.Ok? ==> r == Err(NotFound, "User not found")
      ensures r.Ok? ==> exists i :: (0 <= i < |users| && users[i].id == userId &&
        r.body == Profile(userId, users[i].username, users[i].email, users[i].createdAt))
    {
      match First(users, (u: UserRow) => u.id == userId)
      case None => Err(NotFound, "User not found")
      case Some(u) => Ok(Profile(u.id, u.username, u.email, u.createdAt))
    }
  }

  /** Whatever the table, a login right after a successful signup with the
      same email and password succeeds for the new user when the comparison
      accepts a password against its own hash. */
  method SignupThenLogin(t: UserTable, username: string, email: string, password: string, now: int,
                         hash: string -> string, compare: (string, string) -> bool, sign: Id -> string)
      returns (signedUp: Reply<Session>, loggedIn: Reply<Session>)
    requires forall p :: compare(p, hash(p))
    modifies t
    ensures signedUp.IsSuccess() ==> loggedIn == Ok(Session("Login successful", sign(signedUp.body.user.id), signedUp.body.user))
    ensures email != "" && username != "" && |password| >= 6 && !Taken(old(t.users), email, username) ==>
      signedUp.IsSuccess()
  {
    signedUp := t.Signup(Some(username), Some(email), Some(password), now, hash, sign);
    loggedIn := t.Login(Some(email), Some(password), compare, sign);
    if signedUp.IsSuccess() {
      assert compare(password, hash(password));
    }
  }
}
