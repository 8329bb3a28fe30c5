/** The resolvers as methods of the store client they write through
    (`ctx.prisma`). Each method issues the source's writes one at a time and
    is proved to end in the outcome its specification function in Posts or
    Auth describes; each keeps the store invariant. The caller is the identity
    `checkAuth` extracted from the request, or None when there is none. */
module Resolvers {
  import opened Common
  import opened Text
  import opened Store
  import Integrity
  import Posts
  import Auth

  class Database {
    var users: map<Id, User>
    var posts: map<Id, Post>
    var comments: map<Id, Comment>
    var likes: map<Id, Like>
    var nextId: Id

    /** The tables as one store value. */
    function State(): Db
      reads this
    {
      Db(users, posts, comments, likes, nextId)
    }

    ghost predicate Valid()
      reads this
    {
      Store.Valid(State())
    }

    constructor ()
      ensures Valid() && State() == Empty
    {
      users, posts, comments, likes, nextId := map[], map[], map[], map[], 0;
      EmptyValid();
    }

    // -------------------------------------------------------------------------
    // Store client calls. Each is one write; none checks the invariant.

    /** `createUser` */
    method InsertUser(username: string, email: string, password: string) returns (id: Id)
      modifies this
      ensures id == old(nextId) && State() == Store.InsertUser(old(State()), username, email, password)
    {
      id := nextId;
      users := users[id := User(id, username, email, password, {}, {})];
      nextId := nextId + 1;
    }

    /** `createPost` */
    method InsertPost(body: string, author: Id) returns (id: Id)
      modifies this
      ensures id == old(nextId) && State() == Store.InsertPost(old(State()), body, author)
    {
      id := nextId;
      posts := posts[id := Post(id, body, author, {}, {})];
      nextId := nextId + 1;
    }

    /** `deletePost` */
    method ErasePost(postId: Id)
      modifies this
      ensures State() == Store.ErasePost(old(State()), postId)
    {
      posts := posts - {postId};
    }

    /** `createComment` */
    method InsertComment(body: string, author: Id, post: Id) returns (id: Id)
      modifies this
      ensures id == old(nextId) && State() == Store.InsertComment(old(State()), body, author, post)
    {
      id := nextId;
      comments := comments[id := Comment(id, body, author, post)];
      nextId := nextId + 1;
    }

    /** `updateUser` connecting a comment */
    method ConnectUserComment(u: Id, c: Id)
      requires u in users
      modifies this
      ensures State() == Store.ConnectUserComment(old(State()), u, c)
    {
      users := users[u := users[u].(comments := users[u].comments + {c})];
    }

    /** `updatePost` connecting a comment */
    method ConnectPostComment(p: Id, c: Id)
      requires p in posts
      modifies this
      ensures State() == Store.ConnectPostComment(old(State()), p, c)
    {
      posts := posts[p := posts[p].(comments := posts[p].comments + {c})];
    }

    /** `deleteComment`, which also drops the comment from every relation */
    method RemoveComment(c: Id)
      modifies this
      ensures State() == Store.RemoveComment(old(State()), c)
    {
      comments := comments - {c};
      users := map u | u in users :: users[u].(comments := users[u].comments - {c});
      posts := map p | p in posts :: posts[p].(comments := posts[p].comments - {c});
    }

    /** `createLike` */
    method InsertLike(author: Id, post: Id) returns (id: Id)
      modifies this
      ensures id == old(nextId) && State() == Store.InsertLike(old(State()), author, post)
    {
      id := nextId;
      likes := likes[id := Like(id, author, post)];
      nextId := nextId + 1;
    }

    /** `updateUser` connecting a like */
    method ConnectUserLike(u: Id, l: Id)
      requires u in users
      modifies this
      ensures State() == Store.ConnectUserLike(old(State()), u, l)
    {
      users := users[u := users[u].(likes := users[u].likes + {l})];
    }

    /** `updatePost` connecting a like */
    method ConnectPostLike(p: Id, l: Id)
      requires p in posts
      modifies this
      ensures State() == Store.ConnectPostLike(old(State()), p, l)
    {
      posts := posts[p := posts[p].(likes := posts[p].likes + {l})];
    }

    /** `deleteLike`, which also drops the like from every relation */
    method RemoveLike(l: Id)
      modifies this
      ensures State() == Store.RemoveLike(old(State()), l)
    {
      likes := likes - {l};
      users := map u | u in users :: users[u].(likes := users[u].likes - {l});
      posts := map p | p in posts :: posts[p].(likes := posts[p].likes - {l});
    }

    // -------------------------------------------------------------------------
    // Resolvers

    method CreatePost(caller: Option<Id>, body: string) returns (r: Result<Post>)
      requires Valid()
      modifies this
      ensures Valid()
      ensures Outcome(State(), r) == Posts.CreatePost(old(State()), caller, body)
    {
      if caller.None? {
        return Err(Unauthenticated);
      }
      var userId := caller.value;
      if IsBlank(body) {
        return Err(InvalidArgument);
      }
      if userId !in users {
        return Err(NotFound);
      }
      var id := InsertPost(body, userId);
      r := Ok(posts[id]);
      Integrity.InsertPostValid(old(State()), body, userId);
    }

    method DeletePost(caller: Option<Id>, postId: Id) returns (r: Result<Post>)
      requires Valid()
      modifies this
      ensures Valid()
      ensures Outcome(State(), r) == Posts.DeletePost(old(State()), caller, postId)
    {
      if caller.None? {
        return Err(Unauthenticated);
      }
      // `$exists.post({ id, author })`: computed, never consulted
      var owned := postId in posts && posts[postId].author == caller.value;
      if postId !in posts {
        return Err(NotFound);
      }
      r := Ok(posts[postId]);
      ErasePost(postId);
      Integrity.ErasePostValid(old(State()), postId);
    }

    method CreateComment(caller: Option<Id>, postId: Id, body: string) returns (r: Result<Post>)
      requires Valid()
      modifies this
      ensures Valid()
      ensures Outcome(State(), r) == Posts.CreateComment(old(State()), caller, postId, body)
    {
      if caller.None? {
        return Err(Unauthenticated);
      }
      var userId := caller.value;
      if IsBlank(body) {
        return Err(InvalidArgument);
      }
      if postId !in posts {
        return Err(NotFound);
      }
      if userId !in users {
        return Err(NotFound);
      }
      var id := InsertComment(body, userId, postId);
      ConnectUserComment(userId, id);
      ConnectPostComment(postId, id);
      r := Ok(posts[postId]);
      Integrity.CommentWritesValid(old(State()), userId, postId, body);
    }

    method DeleteComment(caller: Option<Id>, postId: Id, commentId: Id) returns (r: Result<Option<Post>>)
      requires Valid()
      modifies this
      ensures Valid()
      ensures Outcome(State(), r) == Posts.DeleteComment(old(State()), caller, postId, commentId)
    {
      if caller.None? {
        return Err(Unauthenticated);
      }
      var userId := caller.value;
      // `$exists.comment({ id, author })`
      var owned := commentId in comments && comments[commentId].author == userId;
      if !owned {
        return Err(Forbidden);
      }
      // deleteComment answers with the deleted record, or nothing
      var deleted := if commentId in comments then Some(comments[commentId]) else None;
      if deleted.None? {
        return Err(InternalError);
      }
      RemoveComment(commentId);
      r := Ok(if postId in posts then Some(posts[postId]) else None);
      Integrity.RemoveCommentValid(old(State()), commentId);
    }

    method LikePost(caller: Option<Id>, postId: Id) returns (r: Result<Post>)
      requires Valid()
      modifies this
      ensures Valid()
      ensures Outcome(State(), r) == Posts.LikePost(old(State()), caller, postId)
    {
      if caller.None? {
        return Err(Unauthenticated);
      }
      var userId := caller.value;
      // `$exists.post({ id })`
      if postId !in posts {
        return Err(NotFound);
      }
      var mine := LikesBy(State(), postId, userId);
      if mine != {} {
        // the first of the caller's likes
        var l := MinId(mine);
        RemoveLike(l);
        r := Ok(posts[postId]);
        Integrity.RemoveLikeValid(old(State()), l);
      } else {
        if userId !in users {
          return Err(NotFound);
        }
        var l := InsertLike(userId, postId);
        ConnectUserLike(userId, l);
        ConnectPostLike(postId, l);
        r := Ok(posts[postId]);
        Integrity.LikeWritesValid(old(State()), userId, postId);
      }
    }

    method Register(h: Auth.Hasher, username: string, email: string, password: string)
      returns (r: Result<Auth.AuthPayload>)
      requires Valid()
      modifies this
      ensures Valid()
      ensures Outcome(State(), r) == Auth.Register(old(State()), h, username, email, password)
    {
      if IsBlank(username) || IsBlank(email) || IsBlank(password) {
        return Err(InvalidArgument);
      }
      var userExists := NameTaken(State(), username) || EmailTaken(State(), email);
      if userExists {
        return Err(Conflict);
      }
      var hashed := h.hash(password);
      var id := InsertUser(username, email, hashed);
      var user := users[id];
      r := Ok(Auth.AuthPayload(Auth.GenerateToken(user), user));
      Integrity.InsertUserValid(old(State()), username, email, hashed);
    }

    /** Reads the store and writes nothing. */
    method Login(h: Auth.Hasher, username: string, password: string) returns (r: Result<Auth.AuthPayload>)
      ensures r == Auth.Login(State(), h, username, password)
    {
      var found := UserByName(State(), username);
      if found.None? {
        return Err(NotFound);
      }
      var user := users[found.value];
      var valid := h.compare(password, user.password);
      if !valid {
        return Err(BadPassword);
      }
      r := Ok(Auth.AuthPayload(Auth.GenerateToken(user), user));
    }
  }
}
