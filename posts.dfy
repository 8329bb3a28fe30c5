/** The post, comment and like resolvers, each as the store it leaves behind
    and the answer it gives. The `Database` class in module Resolvers performs
    the same writes one at a time and is proved to end in these outcomes. */
module Posts {
  import opened Common
  import opened Text
  import opened Store
  import opened Integrity

  /** `createPost(body)`: a new post authored by the caller. */
  function CreatePost(db: Db, caller: Option<Id>, body: string): (o: Outcome<Post>)
    ensures o.result.Err? ==> o.db == db
    ensures o.result == Err(Unauthenticated) <==> caller.None?
    ensures o.result == Err(InvalidArgument) <==> caller.Some? && IsBlank(body)
    ensures o.result == Err(NotFound) <==> caller.Some? && !IsBlank(body) && caller.value !in db.users
    ensures o.result.Ok? <==> caller.Some? && !IsBlank(body) && caller.value in db.users
    ensures o.result.Ok? ==>
      var p := o.result.value;
      && p.body == body && p.author == caller.value && p.comments == {} && p.likes == {}
      && o.db.posts == db.posts[p.id := p]
      && o.db.users == db.users && o.db.comments == db.comments && o.db.likes == db.likes
      && p.id == db.nextId && o.db.nextId == db.nextId + 1
  {
    if caller.None? then Outcome(db, Err(Unauthenticated))
    else if IsBlank(body) then Outcome(db, Err(InvalidArgument))
    // connecting the author fails when the caller's user record is missing
    else if caller.value !in db.users then Outcome(db, Err(NotFound))
    else
      var after := InsertPost(db, body, caller.value);
      Outcome(after, Ok(after.posts[db.nextId]))
  }

  /** `deletePost(postId)`: the ownership test the source computes is never
      consulted, so any authenticated caller deletes any existing post. */
  function DeletePost(db: Db, caller: Option<Id>, postId: Id): (o: Outcome<Post>)
    ensures o.result.Err? ==> o.db == db
    ensures o.result == Err(Unauthenticated) <==> caller.None?
    ensures o.result == Err(NotFound) <==> caller.Some? && postId !in db.posts
    ensures o.result.Ok? <==> caller.Some? && postId in db.posts
    ensures o.result.Ok? ==>
      && postId in db.posts && o.result.value == db.posts[postId]
      && o.db.posts == db.posts - {postId}
      && o.db.users == db.users && o.db.comments == db.comments && o.db.likes == db.likes
      && o.db.nextId == db.nextId
  {
    if caller.None? then Outcome(db, Err(Unauthenticated))
    else if postId !in db.posts then Outcome(db, Err(NotFound))
    // the ownership test of the source, `$exists.post({ id, author })`, would
    // be `db.posts[postId].author == caller.value`; its result is discarded
    else Outcome(ErasePost(db, postId), Ok(db.posts[postId]))
  }

  /** `createComment(postId, body)`: a comment by the caller on an existing
      post, then linked into the caller's and the post's `comments`. */
  function CreateComment(db: Db, caller: Option<Id>, postId: Id, body: string): (o: Outcome<Post>)
    ensures o.result.Err? ==> o.db == db
    ensures o.result == Err(Unauthenticated) <==> caller.None?
    ensures o.result == Err(InvalidArgument) <==> caller.Some? && IsBlank(body)
    ensures o.result == Err(NotFound) <==>
      caller.Some? && !IsBlank(body) && (postId !in db.posts || caller.value !in db.users)
    ensures o.result.Ok? <==>
      caller.Some? && !IsBlank(body) && postId in db.posts && caller.value in db.users
    ensures o.result.Ok? ==>
      var c, u := db.nextId, caller.value;
      && o.db.comments == db.comments[c := Comment(c, body, u, postId)]
      && o.db.users == db.users[u := db.users[u].(comments := db.users[u].comments + {c})]
      && o.db.posts == db.posts[postId := db.posts[postId].(comments := db.posts[postId].comments + {c})]
      && o.db.likes == db.likes
      && o.result.value == o.db.posts[postId]
      && o.db.nextId == db.nextId + 1
  {
    if caller.None? then Outcome(db, Err(Unauthenticated))
    else if IsBlank(body) then Outcome(db, Err(InvalidArgument))
    else if postId !in db.posts then Outcome(db, Err(NotFound))
    else if caller.value !in db.users then Outcome(db, Err(NotFound))
    else
      var after := CommentWrites(db, caller.value, postId, body);
      Outcome(after, Ok(after.posts[postId]))
  }

  /** `deleteComment(postId, commentId)`: only the comment's author may delete
      it; the post returned is whatever `postId` names afterwards, which need
      not be the comment's post. */
  function DeleteComment(db: Db, caller: Option<Id>, postId: Id, commentId: Id): (o: Outcome<Option<Post>>)
    ensures o.result.Err? ==> o.db == db
    ensures o.result == Err(Unauthenticated) <==> caller.None?
    ensures o.result == Err(Forbidden) <==>
      caller.Some? && !(commentId in db.comments && db.comments[commentId].author == caller.value)
    ensures o.result != Err(InternalError)
    ensures o.result.Ok? <==>
      caller.Some? && commentId in db.comments && db.comments[commentId].author == caller.value
    ensures o.result.Ok? ==>
      && o.db == RemoveComment(db, commentId)
      && o.db.comments == db.comments - {commentId}
      && o.result.value == (if postId in o.db.posts then Some(o.db.posts[postId]) else None)
  {
    if caller.None? then Outcome(db, Err(Unauthenticated))
    else if !(commentId in db.comments && db.comments[commentId].author == caller.value) then
      Outcome(db, Err(Forbidden))
    else
      var deleted := if commentId in db.comments then Some(db.comments[commentId]) else None;
      if deleted.None? then Outcome(db, Err(InternalError))
      else
        var after := RemoveComment(db, commentId);
        Outcome(after, Ok(if postId in after.posts then Some(after.posts[postId]) else None))
  }

  /** `likePost(postId)`: deletes the caller's first like on the post if
      there is one, and otherwise creates one and links it into the caller's
      and the post's `likes`. */
  function LikePost(db: Db, caller: Option<Id>, postId: Id): (o: Outcome<Post>)
    ensures o.result.Err? ==> o.db == db
    ensures o.result == Err(Unauthenticated) <==> caller.None?
    ensures o.result == Err(NotFound) <==>
      caller.Some? && (postId !in db.posts || (LikesBy(db, postId, caller.value) == {} && caller.value !in db.users))
    ensures o.result.Ok? <==>
      caller.Some? && postId in db.posts && (LikesBy(db, postId, caller.value) != {} || caller.value in db.users)
    ensures o.result.Ok? ==> postId in o.db.posts && o.result.value == o.db.posts[postId]
    ensures o.db.users.Keys == db.users.Keys && o.db.posts.Keys == db.posts.Keys
    ensures o.result.Ok? && LikesBy(db, postId, caller.value) != {} ==>
      var l := MinId(LikesBy(db, postId, caller.value));
      o.db == RemoveLike(db, l) && o.db.likes == db.likes - {l}
    ensures o.result.Ok? && LikesBy(db, postId, caller.value) == {} ==>
      var l, u := db.nextId, caller.value;
      && o.db.likes == db.likes[l := Like(l, u, postId)]
      && o.db.users == db.users[u := db.users[u].(likes := db.users[u].likes + {l})]
      && o.db.posts == db.posts[postId := db.posts[postId].(likes := db.posts[postId].likes + {l})]
      && o.db.comments == db.comments
      && o.db.nextId == db.nextId + 1
  {
    if caller.None? then Outcome(db, Err(Unauthenticated))
    else if postId !in db.posts then Outcome(db, Err(NotFound))
    else
      var u := caller.value;
      var mine := LikesBy(db, postId, u);
      if mine != {} then
        var after := RemoveLike(db, MinId(mine));
        Outcome(after, Ok(after.posts[postId]))
      else if u !in db.users then Outcome(db, Err(NotFound))
      else
        var after := LikeWrites(db, u, postId);
        Outcome(after, Ok(after.posts[postId]))
  }

  // ---------------------------------------------------------------------------
  // The store invariant is kept

  lemma CreatePostValid(db: Db, caller: Option<Id>, body: string)
    requires Valid(db)
    ensures Valid(CreatePost(db, caller, body).db)
  {
    var o := CreatePost(db, caller, body);
    if o.result.Ok? {
      InsertPostValid(db, body, caller.value);
    }
  }

  lemma DeletePostValid(db: Db, caller: Option<Id>, postId: Id)
    requires Valid(db)
    ensures Valid(DeletePost(db, caller, postId).db)
  {
    var o := DeletePost(db, caller, postId);
    if o.result.Ok? {
      ErasePostValid(db, postId);
    }
  }

  lemma CreateCommentValid(db: Db, caller: Option<Id>, postId: Id, body: string)
    requires Valid(db)
    ensures Valid(CreateComment(db, caller, postId, body).db)
  {
    var o := CreateComment(db, caller, postId, body);
    if o.result.Ok? {
      CommentWritesValid(db, caller.value, postId, body);
    }
  }

  lemma DeleteCommentValid(db: Db, caller: Option<Id>, postId: Id, commentId: Id)
    requires Valid(db)
    ensures Valid(DeleteComment(db, caller, postId, commentId).db)
  {
    var o := DeleteComment(db, caller, postId, commentId);
    if o.result.Ok? {
      RemoveCommentValid(db, commentId);
    }
  }

  lemma LikePostValid(db: Db, caller: Option<Id>, postId: Id)
    requires Valid(db)
    ensures Valid(LikePost(db, caller, postId).db)
  {
    var o := LikePost(db, caller, postId);
    if o.result.Ok? {
      if LikesBy(db, postId, caller.value) != {} {
        RemoveLikeValid(db, MinId(LikesBy(db, postId, caller.value)));
      } else {
        LikeWritesValid(db, caller.value, postId);
      }
    }
  }

  // ---------------------------------------------------------------------------
  // Creation adds exactly one record under an unused id

  lemma CreatePostAddsOne(db: Db, caller: Option<Id>, body: string)
    requires FreshIds(db)
    ensures var o := CreatePost(db, caller, body);
      o.result.Ok? ==> o.result.value.id !in db.posts && |o.db.posts| == |db.posts| + 1
  {
  }

  lemma CreateCommentAddsOne(db: Db, caller: Option<Id>, postId: Id, body: string)
    requires FreshIds(db)
    ensures var o := CreateComment(db, caller, postId, body);
      o.result.Ok? ==> db.nextId !in db.comments && |o.db.comments| == |db.comments| + 1
  {
  }

  // ---------------------------------------------------------------------------
  // likePost is a toggle

  /** Removing the caller's like takes the caller out of the post's likers
      and the like count down by one. */
  lemma UnlikeDrops(db: Db, u: Id, postId: Id)
    requires LikesLinked(db) && OneLikePerAuthor(db) && postId in db.posts && LikesBy(db, postId, u) != {}
    ensures var d := RemoveLike(db, MinId(LikesBy(db, postId, u)));
      && postId in d.posts
      && Likers(d, postId) == Likers(db, postId) - {u}
      && LikeCount(d, postId) == LikeCount(db, postId) - 1
  {
    LikesBySingleton(db, postId, u);
    var l := MinId(LikesBy(db, postId, u));
    var d := RemoveLike(db, l);
    assert d.posts[postId].likes == db.posts[postId].likes - {l};
    forall x | x in Likers(d, postId) ensures x in Likers(db, postId) && x != u {
      var k :| k in d.posts[postId].likes && k in d.likes && d.likes[k].author == x;
      assert k in db.posts[postId].likes && k != l;
      assert k !in LikesBy(db, postId, u);
    }
    forall x | x in Likers(db, postId) && x != u ensures x in Likers(d, postId) {
      var k :| k in db.posts[postId].likes && k in db.likes && db.likes[k].author == x;
      assert k != l && k in d.posts[postId].likes;
    }
  }

  /** Adding a like for a caller who has none puts the caller among the
      post's likers and the like count up by one. */
  lemma LikeAdds(db: Db, u: Id, postId: Id)
    requires FreshIds(db) && LikesLinked(db) && postId in db.posts && u in db.users
    ensures var d := LikeWrites(db, u, postId);
      && postId in d.posts
      && Likers(d, postId) == Likers(db, postId) + {u}
      && LikeCount(d, postId) == LikeCount(db, postId) + 1
  {
    var l := db.nextId;
    var d := LikeWrites(db, u, postId);
    assert l in db.posts[postId].likes ==> l in db.likes;
    assert l !in db.posts[postId].likes;
    assert d.posts[postId].likes == db.posts[postId].likes + {l};
    assert d.likes == db.likes[l := Like(l, u, postId)];
    forall x | x in Likers(d, postId) ensures x in Likers(db, postId) || x == u {
      var k :| k in d.posts[postId].likes && k in d.likes && d.likes[k].author == x;
      if k != l {
        assert k in db.posts[postId].likes && db.likes[k].author == x;
      }
    }
    forall x | x in Likers(db, postId) ensures x in Likers(d, postId) {
      var k :| k in db.posts[postId].likes && k in db.likes && db.likes[k].author == x;
      assert k != l && k in d.posts[postId].likes;
    }
    assert l in d.posts[postId].likes && d.likes[l].author == u;
  }

  /** One call by an existing user on an existing post succeeds, flips the
      caller's membership among the post's likers and moves the like count by
      exactly one. */
  lemma LikeToggles(db: Db, u: Id, postId: Id)
    requires Valid(db) && u in db.users && postId in db.posts
    ensures var o := LikePost(db, Some(u), postId);
      && o.result.Ok? && postId in o.db.posts
      && (u in Likers(db, postId) ==>
            Likers(o.db, postId) == Likers(db, postId) - {u} && LikeCount(o.db, postId) == LikeCount(db, postId) - 1)
      && (u !in Likers(db, postId) ==>
            Likers(o.db, postId) == Likers(db, postId) + {u} && LikeCount(o.db, postId) == LikeCount(db, postId) + 1)
  {
    LikesBySingleton(db, postId, u);
    if u in Likers(db, postId) {
      UnlikeDrops(db, u, postId);
    } else {
      LikeAdds(db, u, postId);
    }
  }

  /** Two calls in a row give the post back its likers and its like count. */
  lemma LikeTwiceRestores(db: Db, u: Id, postId: Id)
    requires Valid(db) && u in db.users && postId in db.posts
    ensures var o1 := LikePost(db, Some(u), postId);
      var o2 := LikePost(o1.db, Some(u), postId);
      && o2.result.Ok? && postId in o2.db.posts
      && Likers(o2.db, postId) == Likers(db, postId)
      && LikeCount(o2.db, postId) == LikeCount(db, postId)
  {
    var mid := LikePost(db, Some(u), postId).db;
    LikeToggles(db, u, postId);
    LikePostValid(db, Some(u), postId);
    LikeToggles(mid, u, postId);
    var fin := LikePost(mid, Some(u), postId).db;
    ToggleTwice(Likers(db, postId), Likers(mid, postId), Likers(fin, postId),
                LikeCount(db, postId), LikeCount(mid, postId), LikeCount(fin, postId), u);
  }

  /** Two toggles of the same member, each moving a count by one, cancel. */
  lemma ToggleTwice(a: set<Id>, b: set<Id>, c: set<Id>, na: int, nb: int, nc: int, u: Id)
    requires u in a ==> b == a - {u} && nb == na - 1
    requires u !in a ==> b == a + {u} && nb == na + 1
    requires u in b ==> c == b - {u} && nc == nb - 1
    requires u !in b ==> c == b + {u} && nc == nb + 1
    ensures c == a && nc == na
  {
    if u in a {
      assert u !in b;
    } else {
      assert u in b;
    }
  }

  /** Creating a like and then deleting it leaves the store as it was, apart
      from the identifier the like consumed. */
  lemma RemoveLikeUndoesLike(db: Db, u: Id, postId: Id)
    requires FreshIds(db) && LikesLinked(db) && u in db.users && postId in db.posts
    ensures RemoveLike(LikeWrites(db, u, postId), db.nextId) == db.(nextId := db.nextId + 1)
  {
    var d := RemoveLike(LikeWrites(db, u, postId), db.nextId);
    assert d.likes == db.likes by {
      assert db.nextId !in db.likes;
    }
    UndoLikeUsers(db, u, postId);
    UndoLikePosts(db, u, postId);
  }

  lemma UndoLikeUsers(db: Db, u: Id, postId: Id)
    requires FreshIds(db) && LikesLinked(db) && u in db.users && postId in db.posts
    ensures RemoveLike(LikeWrites(db, u, postId), db.nextId).users == db.users
  {
    var d := RemoveLike(LikeWrites(db, u, postId), db.nextId);
    var l := db.nextId;
    forall v | v in db.users ensures d.users[v] == db.users[v] {
      assert l in db.users[v].likes ==> l in db.likes;
    }
  }

  lemma UndoLikePosts(db: Db, u: Id, postId: Id)
    requires FreshIds(db) && LikesLinked(db) && u in db.users && postId in db.posts
    ensures RemoveLike(LikeWrites(db, u, postId), db.nextId).posts == db.posts
  {
    var d := RemoveLike(LikeWrites(db, u, postId), db.nextId);
    var l := db.nextId;
    forall q | q in db.posts ensures d.posts[q] == db.posts[q] {
      assert l in db.posts[q].likes ==> l in db.likes;
    }
  }

  /** After the like is created the caller's likes on the post are exactly it. */
  lemma LikesByAfterLike(db: Db, u: Id, postId: Id)
    requires FreshIds(db) && LikesLinked(db) && u in db.users && postId in db.posts
    requires LikesBy(db, postId, u) == {}
    ensures LikesBy(LikeWrites(db, u, postId), postId, u) == {db.nextId}
  {
    var l := db.nextId;
    var d := LikeWrites(db, u, postId);
    assert d.posts[postId].likes == db.posts[postId].likes + {l};
    forall k | k in LikesBy(d, postId, u) ensures k == l {
      assert k in d.posts[postId].likes && d.likes[k].author == u;
    }
    assert l in LikesBy(d, postId, u);
  }

  /** Liking and then unliking a post the caller did not like leaves the
      whole store as it was, apart from the identifier the like consumed. */
  lemma LikeUnlikeRestoresStore(db: Db, u: Id, postId: Id)
    requires Valid(db) && u in db.users && postId in db.posts && u !in Likers(db, postId)
    ensures var o1 := LikePost(db, Some(u), postId);
      LikePost(o1.db, Some(u), postId).db == db.(nextId := db.nextId + 1)
  {
    LikesBySingleton(db, postId, u);
    LikesByAfterLike(db, u, postId);
    RemoveLikeUndoesLike(db, u, postId);
  }
}
