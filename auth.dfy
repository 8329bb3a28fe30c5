/** The registration and login resolvers and the token they issue. */
module Auth {
  import opened Common
  import opened Text
  import opened Store
  import opened Integrity

  /** The claims a token carries. Signing with the application secret and the
      one-hour expiry are not modelled: a token is its claim set. */
  datatype Claims = Claims(userId: Id, email: string, username: string)

  /** What `register` and `login` return. */
  datatype AuthPayload = AuthPayload(token: Claims, user: User)

  /** bcrypt as the resolvers see it: `hash(plaintext)` and
      `compare(plaintext, hashed)`. */
  datatype Hasher = Hasher(hash: string -> string, compare: (string, string) -> bool)

  /** The one property of bcrypt the resolvers rely on: a password verifies
      against its own hash. */
  ghost predicate Sound(h: Hasher) {
    forall p :: h.compare(p, h.hash(p))
  }

  /** `generateToken(user)`: the claims name the user it was issued for. */
  function GenerateToken(u: User): (t: Claims)
    ensures t.userId == u.id && t.email == u.email && t.username == u.username
  {
    Claims(u.id, u.email, u.username)
  }

  /** In a valid store the claims of a token identify one stored user. */
  lemma TokenIdentifiesUser(db: Db, a: Id, b: Id)
    requires Valid(db) && a in db.users && b in db.users
    ensures GenerateToken(db.users[a]) == GenerateToken(db.users[b]) <==> a == b
  {
  }

  /** `register(username, email, password)`. The emptiness test trims, but
      the duplicate test and the stored user use the fields as given. */
  function Register(db: Db, h: Hasher, username: string, email: string, password: string): (o: Outcome<AuthPayload>)
    ensures o.result.Err? ==> o.db == db
    ensures o.result == Err(InvalidArgument) <==> IsBlank(username) || IsBlank(email) || IsBlank(password)
    ensures o.result == Err(Conflict) <==>
      !IsBlank(username) && !IsBlank(email) && !IsBlank(password) && (NameTaken(db, username) || EmailTaken(db, email))
    ensures o.result.Ok? <==>
      !IsBlank(username) && !IsBlank(email) && !IsBlank(password) && !NameTaken(db, username) && !EmailTaken(db, email)
    ensures o.result.Ok? ==>
      var user := o.result.value.user;
      && user.username == username && user.email == email && user.password == h.hash(password)
      && user.comments == {} && user.likes == {}
      && o.db.users == db.users[user.id := user]
      && o.db.posts == db.posts && o.db.comments == db.comments && o.db.likes == db.likes
      && o.result.value.token == Claims(user.id, email, username)
      && user.id == db.nextId && o.db.nextId == db.nextId + 1
  {
    if IsBlank(username) || IsBlank(email) || IsBlank(password) then Outcome(db, Err(InvalidArgument))
    else if NameTaken(db, username) || EmailTaken(db, email) then Outcome(db, Err(Conflict))
    else
      var after := InsertUser(db, username, email, h.hash(password));
      var user := after.users[db.nextId];
      Outcome(after, Ok(AuthPayload(GenerateToken(user), user)))
  }

  /** `login(username, password)`: reads the store and never writes it. */
  function Login(db: Db, h: Hasher, username: string, password: string): (r: Result<AuthPayload>)
    ensures r == Err(NotFound) <==> !NameTaken(db, username)
    ensures r.Err? ==> r.error == NotFound || r.error == BadPassword
    ensures r == Err(BadPassword) ==>
      exists id :: id in db.users && db.users[id].username == username && !h.compare(password, db.users[id].password)
    ensures r.Ok? ==>
      var user := r.value.user;
      && (exists id :: id in db.users && db.users[id] == user)
      && user.username == username && h.compare(password, user.password)
      && r.value.token == Claims(user.id, user.email, user.username)
  {
    match UserByName(db, username)
    case None => Err(NotFound)
    case Some(id) =>
      var user := db.users[id];
      if !h.compare(password, user.password) then Err(BadPassword)
      else Ok(AuthPayload(GenerateToken(user), user))
  }

  // ---------------------------------------------------------------------------
  // Properties

  lemma RegisterAddsOne(db: Db, h: Hasher, username: string, email: string, password: string)
    requires FreshIds(db)
    ensures var o := Register(db, h, username, email, password);
      o.result.Ok? ==> o.result.value.user.id !in db.users && |o.db.users| == |db.users| + 1
  {
  }

  lemma RegisterValid(db: Db, h: Hasher, username: string, email: string, password: string)
    requires Valid(db)
    ensures Valid(Register(db, h, username, email, password).db)
  {
    if Register(db, h, username, email, password).result.Ok? {
      InsertUserValid(db, username, email, h.hash(password));
    }
  }

  /** With usernames unique, login succeeds exactly when the named user's
      stored hash verifies the password, and fails with BadPassword exactly
      when that user exists and verification fails. */
  lemma LoginDecides(db: Db, h: Hasher, username: string, password: string)
    requires UniqueUsers(db)
    ensures Login(db, h, username, password).Ok? <==>
      exists id :: id in db.users && db.users[id].username == username && h.compare(password, db.users[id].password)
    ensures Login(db, h, username, password) == Err(BadPassword) <==>
      exists id :: id in db.users && db.users[id].username == username && !h.compare(password, db.users[id].password)
  {
    var found := UserByName(db, username);
    if found.Some? {
      forall id | id in db.users && db.users[id].username == username ensures id == found.value {
      }
    }
  }

  /** After a successful registration, logging in with the same username and
      password returns the registered user and a token for its id. */
  lemma RegisterThenLogin(db: Db, h: Hasher, username: string, email: string, password: string)
    requires Sound(h)
    requires Register(db, h, username, email, password).result.Ok?
    ensures var o := Register(db, h, username, email, password);
      && Login(o.db, h, username, password) == o.result
      && o.result.value.token.userId == o.result.value.user.id == db.nextId
  {
    var o := Register(db, h, username, email, password);
    var n := db.nextId;
    var found := set id | id in o.db.users && o.db.users[id].username == username;
    assert n in found;
    assert found == {n};
    assert UserByName(o.db, username) == Some(n);
    assert h.compare(password, h.hash(password));
  }

  /** A second registration with a username already taken fails with Conflict. */
  lemma RegisterSameNameConflicts(db: Db, h: Hasher, username: string, email: string, password: string,
                                  email2: string, password2: string)
    requires Register(db, h, username, email, password).result.Ok?
    requires !IsBlank(email2) && !IsBlank(password2)
    ensures Register(Register(db, h, username, email, password).db, h, username, email2, password2).result == Err(Conflict)
  {
    var o := Register(db, h, username, email, password);
    assert o.db.users[o.result.value.user.id].username == username;
  }

  /** A second registration with an email already taken fails with Conflict. */
  lemma RegisterSameEmailConflicts(db: Db, h: Hasher, username: string, email: string, password: string,
                                   username2: string, password2: string)
    requires Register(db, h, username, email, password).result.Ok?
    requires !IsBlank(username2) && !IsBlank(password2)
    ensures Register(Register(db, h, username, email, password).db, h, username2, email, password2).result == Err(Conflict)
  {
    var o := Register(db, h, username, email, password);
    assert o.db.users[o.result.value.user.id].email == email;
  }
}
