/** The blog store: the three tables and the request handlers that read and
    change them. Each handler returns a `Result` in place of the redirect,
    flash message, 403 or 404 it produces; the logged-in user is passed in as
    `current`, the clock as `now` and bcrypt's random salt as `salt`. */
module Store {
  import opened Wrappers
  import opened Text
  import opened Hashing
  import opened Usernames
  import opened Paging
  import opened Ordering
  import opened Models

  /** A sequence that holds each element of `keys` once and nothing else is
      as long as `keys` is large. */
  lemma OnceEach(s: seq<nat>, keys: set<nat>)
    requires forall k: nat :: multiset(s)[k] == if k in keys then 1 else 0
    ensures |s| == |keys|
  {
    var ms: multiset<nat> := multiset(s);
    assert ms == multiset(keys);
    SetCount(keys);
  }

  lemma {:induction false} SetCount(keys: set<nat>)
    ensures |multiset(keys)| == |keys|
  {
    if keys != {} {
      var k :| k in keys;
      SetCount(keys - {k});
      assert keys == (keys - {k}) + {k};
      assert multiset(keys) == multiset(keys - {k}) + multiset{k};
    }
  }

  /** A page of a list sorted latest first is itself sorted, and holds only
      elements of the list. */
  lemma PageOfSorted(s: seq<nat>, page: nat, date: map<nat, nat>)
    requires page >= 1 && SortedDesc(s, date)
    ensures SortedDesc(Paginate(s, page, PerPage).items, date)
    ensures forall k :: 0 <= k < |Paginate(s, page, PerPage).items| ==>
              Paginate(s, page, PerPage).items[k] in s
  {
    var items := Paginate(s, page, PerPage).items;
    var off := Offset(page, PerPage);
    assert forall k :: 0 <= k < |items| ==> items[k] == s[off + k];
    assert SortedDesc(items, date) by {
      forall i, j | 0 <= i < j < |items|
        ensures date[items[i]] >= date[items[j]]
      {
        assert items[i] == s[off + i] && items[j] == s[off + j];
      }
    }
  }

  class BlogStore {
    var users: map<UserId, User>
    var posts: map<PostId, Post>
    var comments: map<CommentId, Comment>
    // The next primary key of each table; keys start at 1.
    var nextUserId: nat
    var nextPostId: nat
    var nextCommentId: nat

    /** The store invariant: the declared integrity rules, the fields as the
        handlers store them, and every key below its table's counter. */
    ghost predicate Valid()
      reads this
    {
      && Consistent(users, posts, comments)
      && nextUserId > 0 && nextPostId > 0 && nextCommentId > 0
      && (forall u :: u in users ==> 0 < u < nextUserId)
      && (forall p :: p in posts ==> 0 < p < nextPostId)
      && (forall c :: c in comments ==> 0 < c < nextCommentId)
    }

    /** The session's user, if any, is a user of this store (the user loader
        reads it from the user table). */
    ghost predicate Session(current: Option<UserId>)
      reads this
    {
      current.Some? ==> current.value in users
    }

    constructor ()
      ensures Valid()
      ensures users == map[] && posts == map[] && comments == map[]
      ensures nextUserId == 1 && nextPostId == 1 && nextCommentId == 1
    {
      users, posts, comments := map[], map[], map[];
      nextUserId, nextPostId, nextCommentId := 1, 1, 1;
    }

    /** Some user's name equals `name` once both are lower-cased. */
    predicate Taken(name: string)
      reads this
    {
      exists u :: u in users && SameUsername(users[u].username, name)
    }

    /** `register` (POST): strip both fields, refuse blanks and a name that
        is taken, otherwise add one user with a digest of the password. */
    method Register(current: Option<UserId>, username: string, password: string, salt: nat)
      returns (r: Result<UserId>)
      requires Valid()
      modifies this
      ensures Valid()
      ensures current.Some? ==> r == Err(AlreadyAuthenticated)
      ensures current.None? && (Strip(username) == [] || Strip(password) == []) ==>
                r == Err(InvalidInput)
      ensures (current.None? && Strip(username) != [] && Strip(password) != []
               && old(Taken(Strip(username)))) ==> r == Err(UsernameTaken)
      ensures r.Ok? <==> current.None? && Strip(username) != [] && Strip(password) != []
                         && !old(Taken(Strip(username)))
      ensures r.Err? ==> unchanged(this)
      ensures r.Ok? ==>
                && r.value == old(nextUserId) && r.value !in old(users)
                && users == old(users)[r.value := User(Strip(username), Hash(Strip(password), salt))]
                && posts == old(posts) && comments == old(comments)
                && nextUserId == old(nextUserId) + 1
                && nextPostId == old(nextPostId) && nextCommentId == old(nextCommentId)
    {
      if current.Some? {
        return Err(AlreadyAuthenticated);
      }
      var name := Strip(username);
      var secret := Strip(password);
      if name == [] || secret == [] {
        return Err(InvalidInput);
      }
      if Taken(name) {
        return Err(UsernameTaken);
      }
      var user := User(name, Unset).SetPassword(secret, salt);
      assert user == User(name, Hash(secret, salt));
      var id := nextUserId;
      assert Filled(name);
      AddUserKeeps(users, posts, comments, id, user);
      var after := users[id := user];
      assert forall u :: u in after ==> 0 < u < id + 1;
      users := after;
      nextUserId := id + 1;
      r := Ok(id);
    }

    /** `login` (POST): find the user by lower-cased, stripped name and check
        the stripped password. Only the session changes, so the store does
        not. */
    method Login(current: Option<UserId>, username: string, password: string)
      returns (r: Result<UserId>)
      requires Valid()
      ensures current.Some? ==> r == Err(AlreadyAuthenticated)
      ensures current.None? ==>
                (r.Ok? <==> exists u :: u in users && SameUsername(users[u].username, Strip(username))
                                        && users[u].CheckPassword(Strip(password)))
      ensures current.None? && r.Err? ==> r.error == LoginFailed
      ensures r.Ok? ==> && r.value in users
                        && SameUsername(users[r.value].username, Strip(username))
                        && users[r.value].CheckPassword(Strip(password))
    {
      if current.Some? {
        return Err(AlreadyAuthenticated);
      }
      var name := Strip(username);
      var secret := Strip(password);
      if u :| u in users && SameUsername(users[u].username, name) {
        if users[u].CheckPassword(secret) {
          r := Ok(u);
        } else {
          r := Err(LoginFailed);
        }
      } else {
        r := Err(LoginFailed);
      }
    }

    /** `new_post` (POST, login required): strip title and content, refuse
        blanks, otherwise add one post owned by the caller. */
    method NewPost(current: Option<UserId>, title: string, content: string, now: nat)
      returns (r: Result<PostId>)
      requires Valid() && Session(current)
      modifies this
      ensures Valid()
      ensures current.None? ==> r == Err(AuthRequired)
      ensures current.Some? && (Strip(title) == [] || Strip(content) == []) ==> r == Err(InvalidInput)
      ensures r.Ok? <==> current.Some? && Strip(title) != [] && Strip(content) != []
      ensures r.Err? ==> unchanged(this)
      ensures r.Ok? ==>
                && r.value == old(nextPostId) && r.value !in old(posts)
                && posts == old(posts)[r.value := Post(Strip(title), Strip(content), now, current.value)]
                && users == old(users) && comments == old(comments)
                && nextPostId == old(nextPostId) + 1
                && nextUserId == old(nextUserId) && nextCommentId == old(nextCommentId)
    {
      if current.None? {
        return Err(AuthRequired);
      }
      var t := Strip(title);
      var c := Strip(content);
      if t == [] || c == [] {
        return Err(InvalidInput);
      }
      var id := nextPostId;
      AddPostKeeps(users, posts, comments, id, Post(t, c, now, current.value));
      posts := posts[id := Post(t, c, now, current.value)];
      nextPostId := nextPostId + 1;
      r := Ok(id);
    }

    /** `edit_post` (POST, login required): 404 for a missing post, 403 for a
        post of someone else (whatever the form holds), then the blank check;
        on success only that post's title and content change. */
    method EditPost(current: Option<UserId>, postId: PostId, title: string, content: string)
      returns (r: Result<()>)
      requires Valid() && Session(current)
      modifies this
      ensures Valid()
      ensures current.None? ==> r == Err(AuthRequired)
      ensures current.Some? && postId !in old(posts) ==> r == Err(NotFound)
      ensures current.Some? && postId in old(posts) && old(posts)[postId].userId != current.value ==>
                r == Err(Forbidden)
      ensures (current.Some? && postId in old(posts) && old(posts)[postId].userId == current.value
               && (Strip(title) == [] || Strip(content) == [])) ==> r == Err(InvalidInput)
      ensures r.Ok? <==> && current.Some? && postId in old(posts)
                         && old(posts)[postId].userId == current.value
                         && Strip(title) != [] && Strip(content) != []
      ensures r.Err? ==> unchanged(this)
      ensures r.Ok? ==>
                && posts == old(posts)[postId := old(posts)[postId].(title := Strip(title), content := Strip(content))]
                && users == old(users) && comments == old(comments)
                && nextUserId == old(nextUserId) && nextPostId == old(nextPostId)
                && nextCommentId == old(nextCommentId)
    {
      if current.None? {
        return Err(AuthRequired);
      }
      if postId !in posts {
        return Err(NotFound);
      }
      var post := posts[postId];
      if post.userId != current.value {
        return Err(Forbidden);
      }
      var t := Strip(title);
      var c := Strip(content);
      if t == [] || c == [] {
        return Err(InvalidInput);
      }
      AddPostKeeps(users, posts, comments, postId, post.(title := t, content := c));
      posts := posts[postId := post.(title := t, content := c)];
      r := Ok(());
    }

    /** `delete_post` (POST, login required): 404, then 403; on success the
        comments on the post are deleted first, then the post itself. */
    method DeletePost(current: Option<UserId>, postId: PostId) returns (r: Result<()>)
      requires Valid() && Session(current)
      modifies this
      ensures Valid()
      ensures current.None? ==> r == Err(AuthRequired)
      ensures current.Some? && postId !in old(posts) ==> r == Err(NotFound)
      ensures current.Some? && postId in old(posts) && old(posts)[postId].userId != current.value ==>
                r == Err(Forbidden)
      ensures r.Ok? <==> current.Some? && postId in old(posts) && old(posts)[postId].userId == current.value
      ensures r.Err? ==> unchanged(this)
      ensures r.Ok? ==>
                && posts == old(posts) - {postId}
                && comments == CommentsNotOn(old(comments), postId)
                && users == old(users)
                && nextUserId == old(nextUserId) && nextPostId == old(nextPostId)
                && nextCommentId == old(nextCommentId)
      ensures r.Ok? ==> postId !in posts && CommentsOn(comments, postId) == map[]
    {
      if current.None? {
        return Err(AuthRequired);
      }
      if postId !in posts {
        return Err(NotFound);
      }
      if posts[postId].userId != current.value {
        return Err(Forbidden);
      }
      DeletePostCascades(users, posts, comments, postId);
      comments := CommentsNotOn(comments, postId);
      posts := posts - {postId};
      r := Ok(());
    }

    /** `post_detail` (POST): 404 for a missing post, then the caller must be
        logged in, then the stripped comment must not be blank; on success one
        comment on that post by the caller is added. */
    method AddComment(current: Option<UserId>, postId: PostId, content: string, now: nat)
      returns (r: Result<CommentId>)
      requires Valid() && Session(current)
      modifies this
      ensures Valid()
      ensures postId !in old(posts) ==> r == Err(NotFound)
      ensures postId in old(posts) && current.None? ==> r == Err(AuthRequired)
      ensures postId in old(posts) && current.Some? && Strip(content) == [] ==> r == Err(InvalidInput)
      ensures r.Ok? <==> postId in old(posts) && current.Some? && Strip(content) != []
      ensures r.Err? ==> unchanged(this)
      ensures r.Ok? ==>
                && r.value == old(nextCommentId) && r.value !in old(comments)
                && comments == old(comments)[r.value := Comment(Strip(content), now, postId, current.value)]
                && users == old(users) && posts == old(posts)
                && nextCommentId == old(nextCommentId) + 1
                && nextUserId == old(nextUserId) && nextPostId == old(nextPostId)
    {
      if postId !in posts {
        return Err(NotFound);
      }
      if current.None? {
        return Err(AuthRequired);
      }
      var c := Strip(content);
      if c == [] {
        return Err(InvalidInput);
      }
      var id := nextCommentId;
      AddCommentKeeps(users, posts, comments, id, Comment(c, now, postId, current.value));
      comments := comments[id := Comment(c, now, postId, current.value)];
      nextCommentId := nextCommentId + 1;
      r := Ok(id);
    }

    /** Deleting a user, as the relationship declarations cascade it: the
        user's posts, the comments on those posts and the user's own
        comments all go. No handler does this. */
    method DeleteUser(uid: UserId)
      requires Valid() && uid in users
      modifies this
      ensures Valid()
      ensures users == old(users) - {uid}
      ensures posts == PostsNotBy(old(posts), uid)
      ensures comments == CommentsAfterUser(old(comments), old(posts), uid)
      ensures nextUserId == old(nextUserId) && nextPostId == old(nextPostId)
      ensures nextCommentId == old(nextCommentId)
      ensures forall p :: p in posts ==> posts[p].userId != uid
      ensures forall c :: c in comments ==> comments[c].userId != uid && comments[c].postId in posts
    {
      DeleteUserCascades(users, posts, comments, uid);
      comments := CommentsAfterUser(comments, posts, uid);
      posts := PostsNotBy(posts, uid);
      users := users - {uid};
    }

    /** The feed query `Post.query.order_by(Post.date_posted.desc())`: every
        post exactly once, latest first. */
    function Feed(): (r: seq<PostId>)
      reads this
      requires Valid()
      ensures SortedDesc(r, PostDates(posts))
      ensures forall p: nat :: multiset(r)[p] == if p in posts then 1 else 0
    {
      KeysBelowOnce(posts, nextPostId);
      SortDesc(KeysBelow(posts, nextPostId), PostDates(posts))
    }

    /** The dashboard query: exactly the posts of `uid`, latest first. */
    function PostsOf(uid: UserId): (r: seq<PostId>)
      reads this
      requires Valid()
      ensures SortedDesc(r, PostDates(posts))
      ensures forall p: nat :: multiset(r)[p] == if p in posts && posts[p].userId == uid then 1 else 0
    {
      var mine := PostsBy(posts, uid);
      KeysBelowOnce(mine, nextPostId);
      SortDesc(KeysBelow(mine, nextPostId), PostDates(posts))
    }

    /** The comment query of `post_detail`: exactly the comments on `pid`,
        latest first. */
    function CommentsOf(pid: PostId): (r: seq<CommentId>)
      reads this
      requires Valid()
      ensures SortedDesc(r, CommentDates(comments))
      ensures forall c: nat :: multiset(r)[c] == if c in comments && comments[c].postId == pid then 1 else 0
    {
      var on := CommentsOn(comments, pid);
      KeysBelowOnce(on, nextCommentId);
      SortDesc(KeysBelow(on, nextCommentId), CommentDates(comments))
    }

    /** `home` and `posts`: page `page` of the feed, five posts to a page;
        `total` counts every post. */
    function Home(page: nat): (r: Page<PostId>)
      reads this
      requires Valid() && page >= 1
      ensures r.total == |posts| && r.perPage == PerPage && r.page == page
      ensures IsPageCount(r.pages, |posts|, PerPage)
      ensures |r.items| <= PerPage
      ensures forall k :: 0 <= k < |r.items| ==> r.items[k] in posts
      ensures SortedDesc(r.items, PostDates(posts))
      ensures r == Paginate(Feed(), page, PerPage)
    {
      var feed := Feed();
      assert PostDates(posts).Keys == posts.Keys;
      OnceEach(feed, posts.Keys);
      PageSize(feed, page, PerPage);
      PageOfSorted(feed, page, PostDates(posts));
      Paginate(feed, page, PerPage)
    }

    /** `dashboard` (login required): page `page` of the caller's own posts. */
    function Dashboard(current: Option<UserId>, page: nat): (r: Result<Page<PostId>>)
      reads this
      requires Valid() && page >= 1
      ensures current.None? <==> r == Err(AuthRequired)
      ensures r.Ok? <==> current.Some?
      ensures r.Ok? ==> && |r.value.items| <= PerPage
                        && (forall k :: 0 <= k < |r.value.items| ==>
                              r.value.items[k] in posts && posts[r.value.items[k]].userId == current.value)
                        && SortedDesc(r.value.items, PostDates(posts))
      ensures r.Ok? ==> r.value == Paginate(PostsOf(current.value), page, PerPage)
    {
      if current.None? then Err(AuthRequired)
      else
        var mine := PostsOf(current.value);
        assert PostDates(posts).Keys == posts.Keys;
        PageSize(mine, page, PerPage);
        PageOfSorted(mine, page, PostDates(posts));
        Ok(Paginate(mine, page, PerPage))
    }

    /** `post_detail` (GET): 404 for a missing post, otherwise its comments,
        latest first. */
    function PostDetail(postId: PostId): (r: Result<seq<CommentId>>)
      reads this
      requires Valid()
      ensures r.Err? <==> postId !in posts
      ensures r.Err? ==> r.error == NotFound
      ensures r.Ok? ==> && SortedDesc(r.value, CommentDates(comments))
                        && forall c: nat :: multiset(r.value)[c] ==
                             if c in comments && comments[c].postId == postId then 1 else 0
    {
      if postId !in posts then Err(NotFound) else Ok(CommentsOf(postId))
    }
  }
}
