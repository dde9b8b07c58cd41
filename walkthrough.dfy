/** A client of the store whose steps follow from the handlers' contracts
    alone: registration and login ignore case, a post gets a comment from
    another user, a non-owner cannot delete the post, and the owner's deletion
    takes the comment with it. */
module Walkthrough {
  import opened Wrappers
  import opened Text
  import opened Hashing
  import opened Usernames
  import opened Models
  import opened Store

  lemma TrimmedNames()
    ensures Strip("Alice") == "Alice" && Strip("alice") == "alice"
  {
    StripTrimmed("Alice");
    StripTrimmed("alice");
  }

  lemma TrimmedLogins()
    ensures Strip("ALICE") == "ALICE" && Strip("Bob") == "Bob"
  {
    StripTrimmed("ALICE");
    StripTrimmed("Bob");
  }

  lemma TrimmedPasswords()
    ensures Strip("pw123") == "pw123" && Strip("pw456") == "pw456" && Strip("pw789") == "pw789"
  {
    StripTrimmed("pw123");
    StripTrimmed("pw456");
    StripTrimmed("pw789");
  }

  lemma TrimmedTexts()
    ensures Strip("Hello") == "Hello" && Strip("World") == "World"
  {
    StripTrimmed("Hello");
    StripTrimmed("World");
  }

  lemma TrimmedComment()
    ensures Strip("Nice!") == "Nice!"
  {
    StripTrimmed("Nice!");
  }

  lemma NameCases()
    ensures SameUsername("Alice", "alice") && SameUsername("Alice", "ALICE")
    ensures !SameUsername("Alice", "Bob")
  {
    assert PyLower("Alice") == "alice";
    assert PyLower("alice") == "alice";
    assert PyLower("ALICE") == "alice";
    assert PyLower("Bob") == "bob";
  }

  /** Alice registers, and "alice" is then taken. */
  method RegisterAlice() returns (store: BlogStore)
    ensures fresh(store) && store.Valid()
    ensures store.users == map[1 := User("Alice", Hash("pw123", 1))]
    ensures store.posts == map[] && store.comments == map[]
    ensures store.nextUserId == 2
  {
    TrimmedNames();
    TrimmedPasswords();
    NameCases();
    store := new BlogStore();
    var alice := store.Register(None, "Alice", "pw123", 1);
    assert alice == Ok(1);
    assert store.Taken("alice") by {
      assert SameUsername(store.users[1].username, "alice");
    }
    var again := store.Register(None, "alice", "pw456", 2);
    assert again == Err(UsernameTaken);
  }

  /** "ALICE" logs in as Alice; Bob registers. */
  method Accounts() returns (store: BlogStore)
    ensures fresh(store) && store.Valid() && 1 in store.users && 2 in store.users
    ensures store.posts == map[] && store.comments == map[]
  {
    TrimmedLogins();
    TrimmedPasswords();
    NameCases();
    store := RegisterAlice();
    assert store.users[1].CheckPassword("pw123");
    var login := store.Login(None, "ALICE", "pw123");
    assert login == Ok(1);

    assert !store.Taken("Bob");
    var bob := store.Register(None, "Bob", "pw789", 3);
    assert bob == Ok(2);
  }

  /** Alice posts "Hello"/"World" and Bob comments "Nice!" on it. */
  method PostWithComment() returns (store: BlogStore, p: PostId, c: CommentId)
    ensures fresh(store) && store.Valid()
    ensures 1 in store.users && 2 in store.users
    ensures p in store.posts && store.posts[p].userId == 1
    ensures c in store.comments && store.comments[c].postId == p && store.comments[c].userId == 2
  {
    TrimmedTexts();
    TrimmedComment();
    store := Accounts();
    var post := store.NewPost(Some(1), "Hello", "World", 10);
    assert post.Ok?;
    p := post.value;
    var comment := store.AddComment(Some(2), p, "Nice!", 11);
    assert comment.Ok?;
    c := comment.value;
  }

  /** Bob may not delete Alice's post, and it keeps its comment. */
  method OthersRefused() returns (store: BlogStore, p: PostId, c: CommentId)
    ensures fresh(store) && store.Valid() && store.Session(Some(1))
    ensures p in store.posts && store.posts[p].userId == 1
    ensures c in store.comments && store.comments[c].postId == p
  {
    store, p, c := PostWithComment();
    assert store.Session(Some(2));
    var refused := store.DeletePost(Some(2), p);
    assert refused == Err(Forbidden);
  }

  /** Alice may delete her post, and then the post is gone and so are its
      comments. */
  method OwnerDeletes()
  {
    var store, p, c := OthersRefused();
    var deleted := store.DeletePost(Some(1), p);
    assert deleted.Ok?;
    assert p !in store.posts && c !in store.comments;
    var left := store.CommentsOf(p);
    assert left == [];
  }
}
