# merng-demo mutation resolvers in Dafny

This project models the GraphQL mutation resolvers of the merng-demo server. They write through a Prisma client to a store of users, posts, comments and likes.

- `createPost`, `deletePost`, `createComment`, `deleteComment` and `likePost` are in `src/resolvers/Mutation/post.ts`.
- `register`, `login` and `generateToken` are in `src/resolvers/Mutation/auth.ts`.

The store is in-memory and relational. Each record kind has a table keyed by id, and ids are handed out by a counter. The `comments` and `likes` relations of users and posts are kept as id-sets, so each `connect` write of a resolver is a write of its own. Deleting a comment or a like removes its id from every relation that lists it.

Files, one module each:

- `common.dfy`: ids, `Option`, `Result` and the error kinds. The kinds are `Unauthenticated`, `InvalidArgument`, `Conflict`, `NotFound`, `Forbidden`, `InternalError` and `BadPassword`.
- `text.dfy`: JavaScript's `String.prototype.trim`, with white space as defined in ECMA-262 sections 12.2 and 12.3, and the `trim() === ''` test.
- `store.dfy`: the records and the store value `Db`. It also holds the store-client queries and writes, as functions, and the store invariant `Valid`:
  - fresh ids are unused, and every record carries its key;
  - usernames and emails are unique;
  - every post has an author;
  - the relations agree with the records;
  - there is at most one like per author and post.
- `integrity.dfy`: proofs that each write sequence a resolver issues keeps `Valid`.
- `posts.dfy`: one function per post resolver. Each gives the store the resolver leaves behind and its answer. The file also holds the lemmas about them: the toggle behaviour of `likePost`, invariant preservation, and one record added per creation.
- `auth.dfy`: `generateToken`, `register` and `login` as functions, with the registration and login properties.
- `resolvers.dfy`: class `Database`, with the tables as fields.
  - A method per store-client call performs that one write.
  - A method per resolver runs the source's checks and writes in order.
  - Every resolver method is proved to end in the outcome of the matching function in `Posts` or `Auth`, and to keep the invariant.
  - `Login` has no `modifies` clause.

The caller's identity, which the source obtains from `checkAuth(ctx)`, is a parameter: `Some(userId)`, or `None` when the request carries no valid token. bcrypt is a parameter `Hasher` made of a `hash` and a `compare` function. Its one law, that a password verifies against its own hash, is the predicate `Auth.Sound`. Only the login round trip assumes it.

## Model

| member | source | states |
|---|---|---|
| Text.TrimStart | src/resolvers/Mutation/post.ts:11 | the result is a suffix of the input, everything dropped is white space, and the result does not start with white space |
| Text.TrimEnd | src/resolvers/Mutation/post.ts:11 | the result is a prefix of the input, everything dropped is white space, and the result does not end with white space |
| Text.BlankIffAllSpace | src/resolvers/Mutation/post.ts:11 | `body.trim() === ''` holds exactly when every character of the string is white space |
| Text.IsBlank | src/resolvers/Mutation/post.ts:11 | the `x.trim() === ''` test of every resolver argument (also post.ts:51 and auth.ts:21-23); Text.BlankIffAllSpace characterises it |
| Store.NameTaken | src/resolvers/Mutation/auth.ts:29-30 | `$exists.user({ username })` holds exactly when the lookup `user({ username })` finds a user |
| Store.EmailTaken | src/resolvers/Mutation/auth.ts:31 | `$exists.user({ email })`: some stored user has that email; Auth.Register reports Conflict exactly when it or Store.NameTaken holds |
| Store.LikesBy | src/resolvers/Mutation/post.ts:141-145 | `post({ id }).likes({ where: { author } })` lists exactly the likes in the post's `likes` relation whose author is `author`, and is empty exactly when the author is not among the post's likers |
| Store.UserByName | src/resolvers/Mutation/auth.ts:55 | `user({ username })` returns a stored user with that username, and returns nothing exactly when no stored user has it |
| Store.MinId | src/resolvers/Mutation/post.ts:149 | `like[0]` is a member of the caller's likes and is the oldest of them |
| Store.LikesBySingleton | src/resolvers/Mutation/post.ts:141-147 | in a store whose likes are linked and one per author, the caller's likes on a post hold at most one id |
| Posts.CreatePost | src/resolvers/Mutation/post.ts:9-22 | Unauthenticated exactly without a caller; InvalidArgument exactly when the body trims to empty; NotFound exactly when the author to connect is missing; success exactly when a caller with a user record sends a non-blank body; every error leaves the store unchanged; on success one post with the given body and the caller as author is stored under the fresh id, and no other table changes |
| Posts.DeletePost | src/resolvers/Mutation/post.ts:30-41 | succeeds exactly when there is a caller and the post exists, so any authenticated caller deletes any existing post, because the ownership result is never consulted; NotFound exactly when the post is missing; on success the deleted post is returned, only that post is removed, the id counter is untouched, and errors change nothing |
| Posts.CreateComment | src/resolvers/Mutation/post.ts:49-98 | Unauthenticated, InvalidArgument on a blank body, and NotFound on a missing post or author, each an iff and each with no write; success exactly when none of them applies; on success exactly one comment with that post and author is stored under the fresh id, its id joins the caller's and the post's comments, and the updated post is returned |
| Posts.DeleteComment | src/resolvers/Mutation/post.ts:106-125 | Forbidden exactly when the comment is missing or has another author, with the store unchanged; success exactly when the caller is the comment's author; InternalError never occurs; on success only that comment is removed, from its table and from every relation, and the answer is whatever post `postId` names afterwards, possibly none |
| Posts.LikePost | src/resolvers/Mutation/post.ts:133-186 | NotFound on a missing post, with no change; success exactly when the post exists and the caller either has a like on it or has a user record; with a like of the caller's on the post, the first one is deleted; with none, exactly one like is created under the fresh id and linked into the caller's and the post's likes; the user and post key sets never change; the post returned is the post as stored afterwards |
| Posts.CreatePostValid | src/resolvers/Mutation/post.ts:14-22 | createPost keeps the store invariant |
| Posts.DeletePostValid | src/resolvers/Mutation/post.ts:37-39 | deletePost keeps the store invariant, even though the deleted post's comments and likes stay |
| Posts.CreateCommentValid | src/resolvers/Mutation/post.ts:60-98 | the three writes of createComment together keep the store invariant |
| Posts.DeleteCommentValid | src/resolvers/Mutation/post.ts:117-119 | deleteComment keeps the store invariant |
| Posts.LikePostValid | src/resolvers/Mutation/post.ts:147-186 | both branches of likePost keep the store invariant, including at most one like per author and post |
| Posts.CreatePostAddsOne | src/resolvers/Mutation/post.ts:14-22 | a successful createPost stores its post under an id no post had, so the post count goes up by exactly one |
| Posts.CreateCommentAddsOne | src/resolvers/Mutation/post.ts:60-72 | a successful createComment stores its comment under an id no comment had, so the comment count goes up by exactly one |
| Posts.UnlikeDrops | src/resolvers/Mutation/post.ts:147-151 | deleting the caller's like takes the caller out of the post's likers and the like count down by exactly one |
| Posts.LikeAdds | src/resolvers/Mutation/post.ts:152-186 | creating and linking a like puts the caller among the post's likers and the like count up by exactly one |
| Posts.LikeToggles | src/resolvers/Mutation/post.ts:135-186 | for an existing user and post, one call succeeds and flips the caller's membership among the post's likers, moving the like count by exactly one in the matching direction |
| Posts.LikeTwiceRestores | src/resolvers/Mutation/post.ts:135-186 | two calls in a row by the same caller both succeed and give the post back its likers and its like count |
| Posts.LikesByAfterLike | src/resolvers/Mutation/post.ts:141-183 | after a like is created and linked, the caller's likes on the post are exactly that like |
| Posts.RemoveLikeUndoesLike | src/resolvers/Mutation/post.ts:149-183 | deleting the like that was just created and linked restores every table, and only the consumed id counter differs |
| Posts.LikeUnlikeRestoresStore | src/resolvers/Mutation/post.ts:141-186 | liking and then unliking a post the caller did not like leaves the whole store as it was, apart from the id the like consumed |
| Auth.GenerateToken | src/resolvers/Mutation/auth.ts:7-13 | the claims are exactly the id, the email and the username of the user passed in |
| Auth.TokenIdentifiesUser | src/resolvers/Mutation/auth.ts:7-13 | in a valid store, two users receive the same claims exactly when they are the same user |
| Auth.Register | src/resolvers/Mutation/auth.ts:20-47 | InvalidArgument exactly when some field trims to empty; Conflict exactly when the untrimmed username or email is taken; success exactly when neither applies; errors leave the store unchanged; on success exactly one user with the given username and email is stored under the fresh id, its password is the hash of the plaintext, and the token carries its id, email and username |
| Auth.RegisterAddsOne | src/resolvers/Mutation/auth.ts:37-40 | a successful register stores its user under an id no user had, so the user count goes up by exactly one |
| Auth.RegisterValid | src/resolvers/Mutation/auth.ts:28-40 | register keeps the store invariant, in particular the uniqueness of usernames and of emails |
| Auth.RegisterSameNameConflicts | src/resolvers/Mutation/auth.ts:28-34 | after a successful registration, a second one with the same username fails with Conflict whatever its email |
| Auth.RegisterSameEmailConflicts | src/resolvers/Mutation/auth.ts:28-34 | after a successful registration, a second one with the same email fails with Conflict whatever its username |
| Auth.Login | src/resolvers/Mutation/auth.ts:55-70 | NotFound exactly when no user has the username; BadPassword only when such a user's stored hash does not verify; on success the user is a stored one with that username whose hash verifies, and the token carries its fields; the store is not an argument it can change |
| Auth.LoginDecides | src/resolvers/Mutation/auth.ts:55-63 | with unique usernames, login succeeds exactly when the named user's hash verifies the password, and fails with BadPassword exactly when it does not |
| Auth.RegisterThenLogin | src/resolvers/Mutation/auth.ts:36-70 | given that a password verifies against its own hash, logging in after a successful register with the same username and password returns the registered user and a token carrying its id |
| Resolvers.Database.CreatePost | src/resolvers/Mutation/post.ts:9-22 | the method's writes end in the outcome of Posts.CreatePost and keep the invariant |
| Resolvers.Database.DeletePost | src/resolvers/Mutation/post.ts:30-41 | computes the unused ownership test, deletes, ends in the outcome of Posts.DeletePost and keeps the invariant |
| Resolvers.Database.CreateComment | src/resolvers/Mutation/post.ts:49-98 | createComment, then updateUser, then updatePost end in the outcome of Posts.CreateComment and keep the invariant |
| Resolvers.Database.DeleteComment | src/resolvers/Mutation/post.ts:106-125 | the ownership gate, then deleteComment and the re-read of the post, end in the outcome of Posts.DeleteComment and keep the invariant |
| Resolvers.Database.LikePost | src/resolvers/Mutation/post.ts:133-186 | deleteLike, or createLike then updateUser then updatePost, end in the outcome of Posts.LikePost and keep the invariant |
| Resolvers.Database.Register | src/resolvers/Mutation/auth.ts:20-47 | the guards, then createUser with the hashed password, end in the outcome of Auth.Register and keep the invariant |
| Resolvers.Database.Login | src/resolvers/Mutation/auth.ts:55-70 | the lookup and the compare answer as Auth.Login does, and the method changes nothing |

## Left out

- `checkAuth` (`util/check-auth`) is not part of this model. The caller arrives as an `Option<Id>`, and no caller gives `Unauthenticated`. How tokens are verified is not modelled.
- bcrypt's salt and work factor are not modelled: `hash` and `compare` are arbitrary functions passed in.
- JSON Web Token signing, the application secret and the one-hour expiry are not modelled: a token is its claim set.
- `src/index.ts`, the GraphQL server bootstrap and context wiring, has no logic and is not modelled.
- The await ordering, the non-atomic check-then-act sequences and store failures part-way through a write sequence are not modelled. Each resolver runs alone and its writes all succeed.
- Error messages are reduced to error kinds. The source's `Invalid password` appears as `BadPassword`, and its failed `connect` to a missing user or post appears as `NotFound`.
- The store's behaviour is an assumption of this model, because the Prisma datamodel is not part of it:
  - a `connect` to a missing record fails with no write;
  - deleting a missing post fails;
  - deleting a post leaves its comments and likes in place;
  - deleting a comment or a like removes it from every relation.
- `like[0]` is taken to be the oldest of the caller's likes. Ids are handed out in creation order, and the order of the store's listing is not modelled otherwise.
- The `Error occured` result of `deleteComment` never arises. The branch stays in the model and is proved unreachable, because the ownership check has just established that the comment exists.
- For `trim`, white space follows the ECMA-262 WhiteSpace and LineTerminator sets with the Unicode Zs category written out. Strings are sequences of code points, with no UTF-16 surrogate detail.
