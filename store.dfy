/** The relational store the resolvers write to: one table per record kind,
    keyed by id, with the `comments` and `likes` relations of users and posts
    kept as id-sets so that each `connect` write of the resolvers is a write
    of its own. */
module Store {
  import opened Common

  datatype User = User(id: Id, username: string, email: string, password: string,
                       comments: set<Id>, likes: set<Id>)
  datatype Post = Post(id: Id, body: string, author: Id, comments: set<Id>, likes: set<Id>)
  datatype Comment = Comment(id: Id, body: string, author: Id, post: Id)
  datatype Like = Like(id: Id, author: Id, post: Id)

  /** A snapshot of the whole store. `nextId` is the next identifier to hand out. */
  datatype Db = Db(users: map<Id, User>, posts: map<Id, Post>, comments: map<Id, Comment>,
                   likes: map<Id, Like>, nextId: Id)

  /** What a resolver leaves behind: the new store and its answer. */
  datatype Outcome<T> = Outcome(db: Db, result: Result<T>)

  const Empty := Db(map[], map[], map[], map[], 0)

  // ---------------------------------------------------------------------------
  // Queries

  lemma {:induction false} MinExists(s: set<Id>)
    requires s != {}
    ensures exists m :: m in s && forall x :: x in s ==> m <= x
  {
    var y :| y in s;
    if s != {y} {
      MinExists(s - {y});
      var m :| m in s - {y} && forall x :: x in s - {y} ==> m <= x;
      var least := if y < m then y else m;
      forall x | x in s ensures least <= x {
        if x != y { assert x in s - {y}; }
      }
      assert least in s;
    } else {
      assert forall x :: x in s ==> y <= x;
    }
  }

  /** The oldest record of a non-empty set of ids: the first one the store lists. */
  function MinId(s: set<Id>): (m: Id)
    requires s != {}
    ensures m in s && forall x :: x in s ==> m <= x
  {
    MinExists(s);
    var m :| m in s && forall x :: x in s ==> m <= x;
    m
  }

  /** `prisma.user({ username })`: the user with that username, if any. */
  function UserByName(db: Db, username: string): (r: Option<Id>)
    ensures r.Some? ==> r.value in db.users && db.users[r.value].username == username
    ensures r.None? <==> forall id :: id in db.users ==> db.users[id].username != username
  {
    var found := set id | id in db.users && db.users[id].username == username;
    if found == {} then
      assert forall id :: id in db.users && db.users[id].username == username ==> id in found;
      None
    else Some(MinId(found))
  }

  /** `$exists.user({ username })` */
  predicate NameTaken(db: Db, username: string)
    ensures NameTaken(db, username) <==> UserByName(db, username).Some?
  {
    exists id :: id in db.users && db.users[id].username == username
  }

  /** `$exists.user({ email })` */
  predicate EmailTaken(db: Db, email: string) {
    exists id :: id in db.users && db.users[id].email == email
  }

  /** `post({ id }).likes({ where: { author: { id } } })`: the likes in the
      post's `likes` relation whose author is `author`. */
  function LikesBy(db: Db, postId: Id, author: Id): (r: set<Id>)
    requires postId in db.posts
    ensures forall l :: l in r <==> l in db.posts[postId].likes && l in db.likes && db.likes[l].author == author
    ensures r <= db.posts[postId].likes
    ensures r == {} <==> author !in Likers(db, postId)
  {
    var mine := set l | l in db.posts[postId].likes && l in db.likes && db.likes[l].author == author;
    assert author in Likers(db, postId) ==> mine != {} by {
      if author in Likers(db, postId) {
        var l :| l in db.posts[postId].likes && l in db.likes && db.likes[l].author == author;
        assert l in mine;
      }
    }
    mine
  }

  /** The authors who like post `p`, read through its `likes` relation. */
  function Likers(db: Db, p: Id): (r: set<Id>)
    requires p in db.posts
  {
    set l | l in db.posts[p].likes && l in db.likes :: db.likes[l].author
  }

  /** The length of the post's `likes` relation. */
  function LikeCount(db: Db, p: Id): (n: nat)
    requires p in db.posts
  {
    |db.posts[p].likes|
  }

  // ---------------------------------------------------------------------------
  // Writes. Each is one call of the store client; a create takes the next
  // fresh id.

  /** `createUser({ username, email, password })` */
  function InsertUser(db: Db, username: string, email: string, password: string): (d: Db) {
    db.(users := db.users[db.nextId := User(db.nextId, username, email, password, {}, {})], nextId := db.nextId + 1)
  }

  /** `createPost({ body, author: { connect } })` */
  function InsertPost(db: Db, body: string, author: Id): (d: Db) {
    db.(posts := db.posts[db.nextId := Post(db.nextId, body, author, {}, {})], nextId := db.nextId + 1)
  }

  /** `deletePost({ id })` */
  function ErasePost(db: Db, postId: Id): (d: Db) {
    db.(posts := db.posts - {postId})
  }

  /** `createComment({ body, post: { connect }, author: { connect } })` */
  function InsertComment(db: Db, body: string, author: Id, post: Id): (d: Db) {
    db.(comments := db.comments[db.nextId := Comment(db.nextId, body, author, post)], nextId := db.nextId + 1)
  }

  /** `updateUser({ data: { comments: { connect } } })` */
  function ConnectUserComment(db: Db, u: Id, c: Id): (d: Db)
    requires u in db.users
  {
    db.(users := db.users[u := db.users[u].(comments := db.users[u].comments + {c})])
  }

  /** `updatePost({ data: { comments: { connect } } })` */
  function ConnectPostComment(db: Db, p: Id, c: Id): (d: Db)
    requires p in db.posts
  {
    db.(posts := db.posts[p := db.posts[p].(comments := db.posts[p].comments + {c})])
  }

  /** `createLike({ post: { connect }, author: { connect } })` */
  function InsertLike(db: Db, author: Id, post: Id): (d: Db) {
    db.(likes := db.likes[db.nextId := Like(db.nextId, author, post)], nextId := db.nextId + 1)
  }

  /** `updateUser({ data: { likes: { connect } } })` */
  function ConnectUserLike(db: Db, u: Id, l: Id): (d: Db)
    requires u in db.users
  {
    db.(users := db.users[u := db.users[u].(likes := db.users[u].likes + {l})])
  }

  /** `updatePost({ data: { likes: { connect } } })` */
  function ConnectPostLike(db: Db, p: Id, l: Id): (d: Db)
    requires p in db.posts
  {
    db.(posts := db.posts[p := db.posts[p].(likes := db.posts[p].likes + {l})])
  }

  // ---------------------------------------------------------------------------
  // Deletes. The store removes a deleted record from every relation that
  // lists it.

  function RemoveComment(db: Db, c: Id): (d: Db) {
    db.(comments := db.comments - {c},
        users := map u | u in db.users :: db.users[u].(comments := db.users[u].comments - {c}),
        posts := map p | p in db.posts :: db.posts[p].(comments := db.posts[p].comments - {c}))
  }

  function RemoveLike(db: Db, l: Id): (d: Db) {
    db.(likes := db.likes - {l},
        users := map u | u in db.users :: db.users[u].(likes := db.users[u].likes - {l}),
        posts := map p | p in db.posts :: db.posts[p].(likes := db.posts[p].likes - {l}))
  }

  // ---------------------------------------------------------------------------
  // The store invariant

  /** Every id in use, as a key or as the post a comment or like refers to,
      is below `nextId`: a freshly handed out id names no record, not even a
      deleted one. */
  ghost predicate FreshIds(db: Db) {
    && (forall k :: k in db.users ==> k < db.nextId)
    && (forall k :: k in db.posts ==> k < db.nextId)
    && (forall k :: k in db.comments ==> k < db.nextId && db.comments[k].post < db.nextId)
    && (forall k :: k in db.likes ==> k < db.nextId && db.likes[k].post < db.nextId)
  }

  /** Each record carries the id it is stored under. */
  ghost predicate IdsMatch(db: Db) {
    && (forall k :: k in db.users ==> db.users[k].id == k)
    && (forall k :: k in db.posts ==> db.posts[k].id == k)
    && (forall k :: k in db.comments ==> db.comments[k].id == k)
    && (forall k :: k in db.likes ==> db.likes[k].id == k)
  }

  /** No two users share a username or an email. */
  ghost predicate UniqueUsers(db: Db) {
    forall a, b :: a in db.users && b in db.users && a != b ==>
      db.users[a].username != db.users[b].username && db.users[a].email != db.users[b].email
  }

  /** Every post has an existing author. */
  ghost predicate PostsAuthored(db: Db) {
    forall p :: p in db.posts ==> db.posts[p].author in db.users
  }

  /** The `comments` relations agree with the comments' own author and post. */
  ghost predicate CommentsLinked(db: Db) {
    && (forall c :: c in db.comments ==>
          db.comments[c].author in db.users && c in db.users[db.comments[c].author].comments)
    && (forall c :: c in db.comments && db.comments[c].post in db.posts ==>
          c in db.posts[db.comments[c].post].comments)
    && (forall u, c :: u in db.users && c in db.users[u].comments ==>
          c in db.comments && db.comments[c].author == u)
    && (forall p, c :: p in db.posts && c in db.posts[p].comments ==>
          c in db.comments && db.comments[c].post == p)
  }

  /** The `likes` relations agree with the likes' own author and post. */
  ghost predicate LikesLinked(db: Db) {
    && (forall l :: l in db.likes ==>
          db.likes[l].author in db.users && l in db.users[db.likes[l].author].likes)
    && (forall l :: l in db.likes && db.likes[l].post in db.posts ==>
          l in db.posts[db.likes[l].post].likes)
    && (forall u, l :: u in db.users && l in db.users[u].likes ==>
          l in db.likes && db.likes[l].author == u)
    && (forall p, l :: p in db.posts && l in db.posts[p].likes ==>
          l in db.likes && db.likes[l].post == p)
  }

  /** At most one like per (author, post) pair. */
  ghost predicate OneLikePerAuthor(db: Db) {
    forall a, b ::
      (a in db.likes && b in db.likes &&
       db.likes[a].author == db.likes[b].author && db.likes[a].post == db.likes[b].post) ==> a == b
  }

  ghost predicate Valid(db: Db) {
    && FreshIds(db) && IdsMatch(db) && UniqueUsers(db) && PostsAuthored(db)
    && CommentsLinked(db) && LikesLinked(db) && OneLikePerAuthor(db)
  }

  lemma EmptyValid()
    ensures Valid(Empty)
  {
  }

  /** Once the likes are linked and one per author, a user's likes on a
      post are at most one. */
  lemma LikesBySingleton(db: Db, p: Id, u: Id)
    requires LikesLinked(db) && OneLikePerAuthor(db) && p in db.posts
    ensures forall l :: l in LikesBy(db, p, u) ==> LikesBy(db, p, u) == {l}
  {
  }
}
