/** The three tables of the blog and the integrity rules their column and
    relationship declarations impose: non-null foreign keys, unique user
    names, and the cascades that delete a post's comments with it and a
    user's posts and comments with the user. */
module Models {
  import opened Text
  import opened Hashing
  import opened Usernames

  type UserId = nat
  type PostId = nat
  type CommentId = nat

  datatype User = User(username: string, passwordHash: Digest)
  {
    /** `set_password`: a new digest of `password`; nothing else changes. */
    function SetPassword(password: string, salt: nat): (u: User)
      ensures u.username == username
      ensures u.CheckPassword(password)
    {
      this.(passwordHash := Hash(password, salt))
    }

    /** `check_password`: does `password` verify against the stored digest? */
    predicate CheckPassword(password: string)
    {
      Verify(password, passwordHash)
    }
  }

  /** A post row; `userId` is the non-null foreign key to its author. */
  datatype Post = Post(title: string, content: string, datePosted: nat, userId: UserId)

  /** A comment row; both foreign keys are non-null. */
  datatype Comment = Comment(content: string, dateCommented: nat, postId: PostId, userId: UserId)

  /** No two users have names that are equal once lower-cased. */
  ghost predicate UniqueUsernames(users: map<UserId, User>)
  {
    forall a, b :: a in users && b in users && a != b ==>
      !SameUsername(users[a].username, users[b].username)
  }

  /** Referential integrity: every post has an existing author, every comment
      an existing post and an existing author. */
  ghost predicate ForeignKeys(users: map<UserId, User>, posts: map<PostId, Post>,
                              comments: map<CommentId, Comment>)
  {
    && (forall p :: p in posts ==> posts[p].userId in users)
    && (forall c :: c in comments ==> comments[c].postId in posts && comments[c].userId in users)
  }

  /** A required text field as the handlers store it: stripped and not blank. */
  predicate Filled(s: string)
  {
    s != [] && Trimmed(s)
  }

  /** The non-nullable columns: every required text is filled, and every
      user has a password digest. */
  ghost predicate FilledFields(users: map<UserId, User>, posts: map<PostId, Post>,
                               comments: map<CommentId, Comment>)
  {
    && (forall u :: u in users ==> Filled(users[u].username) && users[u].passwordHash.Sealed?)
    && (forall p :: p in posts ==> Filled(posts[p].title) && Filled(posts[p].content))
    && (forall c :: c in comments ==> Filled(comments[c].content))
  }

  /** The `date_posted` column, keyed by post id. */
  function PostDates(posts: map<PostId, Post>): (d: map<PostId, nat>)
  {
    map p | p in posts :: posts[p].datePosted
  }

  /** The `date_commented` column, keyed by comment id. */
  function CommentDates(comments: map<CommentId, Comment>): (d: map<CommentId, nat>)
  {
    map c | c in comments :: comments[c].dateCommented
  }

  /** `filter_by(author=user)`: the posts written by `uid`. */
  function PostsBy(posts: map<PostId, Post>, uid: UserId): (r: map<PostId, Post>)
  {
    map p | p in posts && posts[p].userId == uid :: posts[p]
  }

  /** `filter_by(post=post)`: the comments on post `pid`. */
  function CommentsOn(comments: map<CommentId, Comment>, pid: PostId): (r: map<CommentId, Comment>)
  {
    map c | c in comments && comments[c].postId == pid :: comments[c]
  }

  /** The comments left after `Comment.query.filter_by(post_id=pid).delete()`. */
  function CommentsNotOn(comments: map<CommentId, Comment>, pid: PostId): (r: map<CommentId, Comment>)
  {
    map c | c in comments && comments[c].postId != pid :: comments[c]
  }

  /** The posts left once user `uid` is deleted: the posts relationship
      cascades. */
  function PostsNotBy(posts: map<PostId, Post>, uid: UserId): (r: map<PostId, Post>)
  {
    map p | p in posts && posts[p].userId != uid :: posts[p]
  }

  /** The comments left once user `uid` is deleted: their own comments go with
      them, and so do the comments on their posts (the post cascade). */
  function CommentsAfterUser(comments: map<CommentId, Comment>, posts: map<PostId, Post>,
                             uid: UserId): (r: map<CommentId, Comment>)
  {
    map c | c in comments && comments[c].userId != uid
                          && !(comments[c].postId in posts && posts[comments[c].postId].userId == uid)
          :: comments[c]
  }

  /** Deleting a post together with its comments keeps every foreign key
      valid, where deleting the post alone would orphan its comments. */
  lemma DeletePostCascades(users: map<UserId, User>, posts: map<PostId, Post>,
                           comments: map<CommentId, Comment>, pid: PostId)
    requires ForeignKeys(users, posts, comments)
    ensures ForeignKeys(users, posts - {pid}, CommentsNotOn(comments, pid))
    ensures CommentsOn(CommentsNotOn(comments, pid), pid) == map[]
  {
  }

  /** Deleting a user with the cascades keeps every foreign key valid: no
      post, and no comment, is left referring to the user or to a deleted
      post. */
  lemma DeleteUserCascades(users: map<UserId, User>, posts: map<PostId, Post>,
                           comments: map<CommentId, Comment>, uid: UserId)
    requires ForeignKeys(users, posts, comments)
    ensures ForeignKeys(users - {uid}, PostsNotBy(posts, uid), CommentsAfterUser(comments, posts, uid))
    ensures PostsBy(PostsNotBy(posts, uid), uid) == map[]
  {
  }

  /** The tables keep all their rules. */
  ghost predicate Consistent(users: map<UserId, User>, posts: map<PostId, Post>,
                             comments: map<CommentId, Comment>)
  {
    UniqueUsernames(users) && ForeignKeys(users, posts, comments) && FilledFields(users, posts, comments)
  }

  /** Adding a user whose name is filled and not taken keeps the rules. */
  lemma AddUserKeeps(users: map<UserId, User>, posts: map<PostId, Post>,
                     comments: map<CommentId, Comment>, id: UserId, user: User)
    requires Consistent(users, posts, comments)
    requires id !in users && Filled(user.username) && user.passwordHash.Sealed?
    requires forall u :: u in users ==> !SameUsername(users[u].username, user.username)
    ensures Consistent(users[id := user], posts, comments)
  {
    var after := users[id := user];
    assert FilledFields(after, posts, comments) by {
      forall u | u in after
        ensures Filled(after[u].username) && after[u].passwordHash.Sealed?
      {
        if u != id {
          assert after[u] == users[u];
        }
      }
    }
    assert UniqueUsernames(after) by {
      forall a, b | a in after && b in after && a != b
        ensures !SameUsername(after[a].username, after[b].username)
      {
        if a == id {
          assert !SameUsername(users[b].username, user.username);
        } else if b != id {
          assert after[a] == users[a] && after[b] == users[b];
        }
      }
    }
    assert ForeignKeys(after, posts, comments);
  }

  /** Adding a filled post by an existing user keeps the rules. */
  lemma AddPostKeeps(users: map<UserId, User>, posts: map<PostId, Post>,
                     comments: map<CommentId, Comment>, id: PostId, post: Post)
    requires Consistent(users, posts, comments)
    requires post.userId in users && Filled(post.title) && Filled(post.content)
    ensures Consistent(users, posts[id := post], comments)
  {
    var after := posts[id := post];
    assert ForeignKeys(users, after, comments) by {
      forall p | p in after
        ensures after[p].userId in users
      {
        if p != id {
          assert after[p] == posts[p];
        }
      }
      forall c | c in comments
        ensures comments[c].postId in after && comments[c].userId in users
      {
        assert comments[c].postId in posts;
      }
    }
    assert FilledFields(users, after, comments) by {
      forall p | p in after
        ensures Filled(after[p].title) && Filled(after[p].content)
      {
        if p != id {
          assert after[p] == posts[p];
        }
      }
    }
  }

  /** Adding a filled comment on an existing post by an existing user keeps
      the rules. */
  lemma AddCommentKeeps(users: map<UserId, User>, posts: map<PostId, Post>,
                        comments: map<CommentId, Comment>, id: CommentId, comment: Comment)
    requires Consistent(users, posts, comments)
    requires comment.postId in posts && comment.userId in users && Filled(comment.content)
    ensures Consistent(users, posts, comments[id := comment])
  {
    var after := comments[id := comment];
    assert ForeignKeys(users, posts, after) by {
      forall c | c in after
        ensures after[c].postId in posts && after[c].userId in users
      {
        if c != id {
          assert after[c] == comments[c];
        }
      }
    }
    assert FilledFields(users, posts, after) by {
      forall c | c in after
        ensures Filled(after[c].content)
      {
        if c != id {
          assert after[c] == comments[c];
        }
      }
    }
  }
}
