/** The store invariant is kept by every write sequence the resolvers issue.
    Each part of the invariant is proved in a lemma of its own, so that every
    proof sees only the facts it needs. */
module Integrity {
  import opened Common
  import opened Store

  ghost predicate Basic(db: Db) {
    FreshIds(db) && IdsMatch(db) && UniqueUsers(db) && PostsAuthored(db)
  }

  // ---------------------------------------------------------------------------
  // register

  lemma InsertUserBasic(db: Db, username: string, email: string, password: string)
    requires Basic(db) && !NameTaken(db, username) && !EmailTaken(db, email)
    ensures Basic(InsertUser(db, username, email, password))
  {
    var d := InsertUser(db, username, email, password);
    var n := db.nextId;
    forall a, b | a in d.users && b in d.users && a != b
      ensures d.users[a].username != d.users[b].username && d.users[a].email != d.users[b].email
    {
      if a == n {
        assert b in db.users;
      } else if b == n {
        assert a in db.users;
      }
    }
  }

  lemma InsertUserComments(db: Db, username: string, email: string, password: string)
    requires FreshIds(db) && CommentsLinked(db)
    ensures CommentsLinked(InsertUser(db, username, email, password))
  {
    var d := InsertUser(db, username, email, password);
    forall v, k | v in d.users && k in d.users[v].comments
      ensures k in d.comments && d.comments[k].author == v
    {
      assert v in db.users;
    }
  }

  lemma InsertUserLikes(db: Db, username: string, email: string, password: string)
    requires FreshIds(db) && LikesLinked(db)
    ensures LikesLinked(InsertUser(db, username, email, password))
  {
    var d := InsertUser(db, username, email, password);
    forall v, k | v in d.users && k in d.users[v].likes
      ensures k in d.likes && d.likes[k].author == v
    {
      assert v in db.users;
    }
  }

  lemma InsertUserValid(db: Db, username: string, email: string, password: string)
    requires Valid(db) && !NameTaken(db, username) && !EmailTaken(db, email)
    ensures Valid(InsertUser(db, username, email, password))
  {
    InsertUserBasic(db, username, email, password);
    InsertUserComments(db, username, email, password);
    InsertUserLikes(db, username, email, password);
  }

  // ---------------------------------------------------------------------------
  // createPost

  lemma InsertPostBasic(db: Db, body: string, author: Id)
    requires Basic(db) && author in db.users
    ensures Basic(InsertPost(db, body, author))
  {
  }

  lemma InsertPostComments(db: Db, body: string, author: Id)
    requires FreshIds(db) && CommentsLinked(db)
    ensures CommentsLinked(InsertPost(db, body, author))
  {
    var d := InsertPost(db, body, author);
    forall k | k in d.comments && d.comments[k].post in d.posts
      ensures k in d.posts[d.comments[k].post].comments
    {
      assert d.comments[k].post != db.nextId;
    }
  }

  lemma InsertPostLikes(db: Db, body: string, author: Id)
    requires FreshIds(db) && LikesLinked(db)
    ensures LikesLinked(InsertPost(db, body, author))
  {
    var d := InsertPost(db, body, author);
    forall k | k in d.likes && d.likes[k].post in d.posts
      ensures k in d.posts[d.likes[k].post].likes
    {
      assert d.likes[k].post != db.nextId;
    }
  }

  lemma InsertPostValid(db: Db, body: string, author: Id)
    requires Valid(db) && author in db.users
    ensures Valid(InsertPost(db, body, author))
  {
    InsertPostBasic(db, body, author);
    InsertPostComments(db, body, author);
    InsertPostLikes(db, body, author);
  }

  // ---------------------------------------------------------------------------
  // deletePost

  lemma ErasePostBasic(db: Db, postId: Id)
    requires Basic(db)
    ensures Basic(ErasePost(db, postId))
  {
  }

  lemma ErasePostComments(db: Db, postId: Id)
    requires CommentsLinked(db)
    ensures CommentsLinked(ErasePost(db, postId))
  {
  }

  lemma ErasePostLikes(db: Db, postId: Id)
    requires LikesLinked(db)
    ensures LikesLinked(ErasePost(db, postId))
  {
  }

  lemma ErasePostValid(db: Db, postId: Id)
    requires Valid(db)
    ensures Valid(ErasePost(db, postId))
  {
    ErasePostBasic(db, postId);
    ErasePostComments(db, postId);
    ErasePostLikes(db, postId);
  }

  // ---------------------------------------------------------------------------
  // createComment: createComment, then updateUser, then updatePost

  function CommentWrites(db: Db, u: Id, postId: Id, body: string): (d: Db)
    requires u in db.users && postId in db.posts
  {
    ConnectPostComment(ConnectUserComment(InsertComment(db, body, u, postId), u, db.nextId), postId, db.nextId)
  }

  lemma CommentWritesKeys(db: Db, u: Id, postId: Id, body: string)
    requires FreshIds(db) && IdsMatch(db) && u in db.users && postId in db.posts
    ensures FreshIds(CommentWrites(db, u, postId, body)) && IdsMatch(CommentWrites(db, u, postId, body))
  {
  }

  lemma CommentWritesUsers(db: Db, u: Id, postId: Id, body: string)
    requires UniqueUsers(db) && PostsAuthored(db) && u in db.users && postId in db.posts
    ensures UniqueUsers(CommentWrites(db, u, postId, body)) && PostsAuthored(CommentWrites(db, u, postId, body))
  {
    var d := CommentWrites(db, u, postId, body);
    assert d.users.Keys == db.users.Keys;
    forall a, b | a in d.users && b in d.users && a != b
      ensures d.users[a].username != d.users[b].username && d.users[a].email != d.users[b].email
    {
      assert db.users[a].username != db.users[b].username;
    }
  }

  lemma CommentWritesComments(db: Db, u: Id, postId: Id, body: string)
    requires FreshIds(db) && CommentsLinked(db) && u in db.users && postId in db.posts
    ensures CommentsLinked(CommentWrites(db, u, postId, body))
  {
    var c := db.nextId;
    var d := CommentWrites(db, u, postId, body);
    assert d.comments == db.comments[c := Comment(c, body, u, postId)];
    forall k | k in d.comments
      ensures d.comments[k].author in d.users && k in d.users[d.comments[k].author].comments
    {
      if k != c {
        assert k in db.users[db.comments[k].author].comments;
      }
    }
    forall k | k in d.comments && d.comments[k].post in d.posts
      ensures k in d.posts[d.comments[k].post].comments
    {
      if k != c {
        assert k in db.posts[db.comments[k].post].comments;
      }
    }
    forall v, k | v in d.users && k in d.users[v].comments
      ensures k in d.comments && d.comments[k].author == v
    {
      assert d.users[v].comments == if v == u then db.users[u].comments + {c} else db.users[v].comments;
      assert k in db.users[v].comments ==> k in db.comments && k != c;
      if k != c {
        assert k in db.users[v].comments;
      }
    }
    forall q, k | q in d.posts && k in d.posts[q].comments
      ensures k in d.comments && d.comments[k].post == q
    {
      assert d.posts[q].comments == if q == postId then db.posts[postId].comments + {c} else db.posts[q].comments;
      assert k in db.posts[q].comments ==> k in db.comments && k != c;
      if k != c {
        assert k in db.posts[q].comments;
      }
    }
  }

  lemma CommentWritesLikes(db: Db, u: Id, postId: Id, body: string)
    requires LikesLinked(db) && u in db.users && postId in db.posts
    ensures LikesLinked(CommentWrites(db, u, postId, body))
  {
  }

  lemma CommentWritesValid(db: Db, u: Id, postId: Id, body: string)
    requires Valid(db) && u in db.users && postId in db.posts
    ensures Valid(CommentWrites(db, u, postId, body))
  {
    CommentWritesKeys(db, u, postId, body);
    CommentWritesUsers(db, u, postId, body);
    CommentWritesComments(db, u, postId, body);
    CommentWritesLikes(db, u, postId, body);
  }

  // ---------------------------------------------------------------------------
  // likePost, liking: createLike, then updateUser, then updatePost

  function LikeWrites(db: Db, u: Id, postId: Id): (d: Db)
    requires u in db.users && postId in db.posts
  {
    ConnectPostLike(ConnectUserLike(InsertLike(db, u, postId), u, db.nextId), postId, db.nextId)
  }

  lemma LikeWritesKeys(db: Db, u: Id, postId: Id)
    requires FreshIds(db) && IdsMatch(db) && u in db.users && postId in db.posts
    ensures FreshIds(LikeWrites(db, u, postId)) && IdsMatch(LikeWrites(db, u, postId))
  {
  }

  lemma LikeWritesUsers(db: Db, u: Id, postId: Id)
    requires UniqueUsers(db) && PostsAuthored(db) && u in db.users && postId in db.posts
    ensures UniqueUsers(LikeWrites(db, u, postId)) && PostsAuthored(LikeWrites(db, u, postId))
  {
    var d := LikeWrites(db, u, postId);
    assert d.users.Keys == db.users.Keys;
    forall a, b | a in d.users && b in d.users && a != b
      ensures d.users[a].username != d.users[b].username && d.users[a].email != d.users[b].email
    {
      assert db.users[a].username != db.users[b].username;
    }
  }

  lemma LikeWritesComments(db: Db, u: Id, postId: Id)
    requires CommentsLinked(db) && u in db.users && postId in db.posts
    ensures CommentsLinked(LikeWrites(db, u, postId))
  {
  }

  lemma LikeWritesLikes(db: Db, u: Id, postId: Id)
    requires FreshIds(db) && LikesLinked(db) && u in db.users && postId in db.posts
    ensures LikesLinked(LikeWrites(db, u, postId))
  {
    var l := db.nextId;
    var d := LikeWrites(db, u, postId);
    assert d.likes == db.likes[l := Like(l, u, postId)];
    forall k | k in d.likes
      ensures d.likes[k].author in d.users && k in d.users[d.likes[k].author].likes
    {
      if k != l {
        assert k in db.users[db.likes[k].author].likes;
      }
    }
    forall k | k in d.likes && d.likes[k].post in d.posts
      ensures k in d.posts[d.likes[k].post].likes
    {
      if k != l {
        assert k in db.posts[db.likes[k].post].likes;
      }
    }
    forall v, k | v in d.users && k in d.users[v].likes
      ensures k in d.likes && d.likes[k].author == v
    {
      assert d.users[v].likes == if v == u then db.users[u].likes + {l} else db.users[v].likes;
      assert k in db.users[v].likes ==> k in db.likes && k != l;
      if k != l {
        assert k in db.users[v].likes;
      }
    }
    forall q, k | q in d.posts && k in d.posts[q].likes
      ensures k in d.likes && d.likes[k].post == q
    {
      assert d.posts[q].likes == if q == postId then db.posts[postId].likes + {l} else db.posts[q].likes;
      assert k in db.posts[q].likes ==> k in db.likes && k != l;
      if k != l {
        assert k in db.posts[q].likes;
      }
    }
  }

  /** A new like keeps "one like per (author, post)" only because the caller
      had none on the post: that is what the toggle's test guarantees. */
  lemma LikeWritesOneLike(db: Db, u: Id, postId: Id)
    requires FreshIds(db) && LikesLinked(db) && OneLikePerAuthor(db)
    requires u in db.users && postId in db.posts && LikesBy(db, postId, u) == {}
    ensures OneLikePerAuthor(LikeWrites(db, u, postId))
  {
    var l := db.nextId;
    var d := LikeWrites(db, u, postId);
    assert d.likes == db.likes[l := Like(l, u, postId)];
    assert forall a :: a in db.likes && db.likes[a].author == u && db.likes[a].post == postId ==>
      a in LikesBy(db, postId, u);
  }

  lemma LikeWritesValid(db: Db, u: Id, postId: Id)
    requires Valid(db) && u in db.users && postId in db.posts && LikesBy(db, postId, u) == {}
    ensures Valid(LikeWrites(db, u, postId))
  {
    LikeWritesKeys(db, u, postId);
    LikeWritesUsers(db, u, postId);
    LikeWritesComments(db, u, postId);
    LikeWritesLikes(db, u, postId);
    LikeWritesOneLike(db, u, postId);
  }

  // ---------------------------------------------------------------------------
  // deleteComment

  lemma RemoveCommentBasic(db: Db, c: Id)
    requires Basic(db)
    ensures Basic(RemoveComment(db, c))
  {
    var d := RemoveComment(db, c);
    forall a, b | a in d.users && b in d.users && a != b
      ensures d.users[a].username != d.users[b].username && d.users[a].email != d.users[b].email
    {
      assert db.users[a].username != db.users[b].username;
    }
  }

  lemma RemoveCommentComments(db: Db, c: Id)
    requires CommentsLinked(db)
    ensures CommentsLinked(RemoveComment(db, c))
  {
    var d := RemoveComment(db, c);
    forall k | k in d.comments
      ensures d.comments[k].author in d.users && k in d.users[d.comments[k].author].comments
    {
      assert k in db.users[db.comments[k].author].comments;
    }
    forall k | k in d.comments && d.comments[k].post in d.posts
      ensures k in d.posts[d.comments[k].post].comments
    {
      assert k in db.posts[db.comments[k].post].comments;
    }
    forall v, k | v in d.users && k in d.users[v].comments
      ensures k in d.comments && d.comments[k].author == v
    {
      assert k in db.users[v].comments;
    }
    forall q, k | q in d.posts && k in d.posts[q].comments
      ensures k in d.comments && d.comments[k].post == q
    {
      assert k in db.posts[q].comments;
    }
  }

  lemma RemoveCommentLikes(db: Db, c: Id)
    requires LikesLinked(db)
    ensures LikesLinked(RemoveComment(db, c))
  {
    var d := RemoveComment(db, c);
    forall k | k in d.likes
      ensures d.likes[k].author in d.users && k in d.users[d.likes[k].author].likes
    {
      assert k in db.users[db.likes[k].author].likes;
    }
    forall k | k in d.likes && d.likes[k].post in d.posts
      ensures k in d.posts[d.likes[k].post].likes
    {
      assert k in db.posts[db.likes[k].post].likes;
    }
  }

  lemma RemoveCommentValid(db: Db, c: Id)
    requires Valid(db)
    ensures Valid(RemoveComment(db, c))
  {
    RemoveCommentBasic(db, c);
    RemoveCommentComments(db, c);
    RemoveCommentLikes(db, c);
  }

  // ---------------------------------------------------------------------------
  // likePost, unliking: deleteLike

  lemma RemoveLikeBasic(db: Db, l: Id)
    requires Basic(db)
    ensures Basic(RemoveLike(db, l))
  {
    var d := RemoveLike(db, l);
    forall a, b | a in d.users && b in d.users && a != b
      ensures d.users[a].username != d.users[b].username && d.users[a].email != d.users[b].email
    {
      assert db.users[a].username != db.users[b].username;
    }
  }

  lemma RemoveLikeComments(db: Db, l: Id)
    requires CommentsLinked(db)
    ensures CommentsLinked(RemoveLike(db, l))
  {
    var d := RemoveLike(db, l);
    forall k | k in d.comments
      ensures d.comments[k].author in d.users && k in d.users[d.comments[k].author].comments
    {
      assert k in db.users[db.comments[k].author].comments;
    }
    forall k | k in d.comments && d.comments[k].post in d.posts
      ensures k in d.posts[d.comments[k].post].comments
    {
      assert k in db.posts[db.comments[k].post].comments;
    }
  }

  lemma RemoveLikeLikes(db: Db, l: Id)
    requires LikesLinked(db)
    ensures LikesLinked(RemoveLike(db, l))
  {
    var d := RemoveLike(db, l);
    forall k | k in d.likes
      ensures d.likes[k].author in d.users && k in d.users[d.likes[k].author].likes
    {
      assert k in db.users[db.likes[k].author].likes;
    }
    forall k | k in d.likes && d.likes[k].post in d.posts
      ensures k in d.posts[d.likes[k].post].likes
    {
      assert k in db.posts[db.likes[k].post].likes;
    }
    forall v, k | v in d.users && k in d.users[v].likes
      ensures k in d.likes && d.likes[k].author == v
    {
      assert k in db.users[v].likes;
    }
    forall q, k | q in d.posts && k in d.posts[q].likes
      ensures k in d.likes && d.likes[k].post == q
    {
      assert k in db.posts[q].likes;
    }
  }

  lemma RemoveLikeValid(db: Db, l: Id)
    requires Valid(db)
    ensures Valid(RemoveLike(db, l))
  {
    RemoveLikeBasic(db, l);
    RemoveLikeComments(db, l);
    RemoveLikeLikes(db, l);
  }
}
