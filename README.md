# Blog store model

A Dafny model of the core of a small Flask blog. Without the web framework, the ORM and bcrypt, the
blog is an in-memory store. It holds three tables keyed by integer id:

- users: a username and a password digest;
- posts: a title, content, a `date_posted` timestamp and the author's id;
- comments: content, a `date_commented` timestamp, the post's id and the author's id.

The request handlers check their input and then change those tables. Each handler is a method of
the class `Store.BlogStore`. It returns a `Result` in place of the redirect, flash message, 403 or
404 it produces. The error taxonomy is `InvalidInput`, `UsernameTaken`, `LoginFailed`,
`AuthRequired`, `AlreadyAuthenticated`, `NotFound` and `Forbidden`. Three things that come from
outside the store are parameters:

- the logged-in user (`current: Option<UserId>`);
- the clock (`now`);
- bcrypt's random salt (`salt`).

The store invariant `Valid()` holds before and after every handler. It says:

- user names are unique once lower-cased;
- every post has an existing author;
- every comment has an existing post and an existing author;
- stored names, titles and contents are stripped and not blank;
- every stored user has a password digest (the column is not nullable);
- every id lies below its table's counter.

Modules:

- `Wrappers`: `Option`, the error taxonomy, `Result`.
- `Text`: Python's `str.strip` and `str.lower`, and SQLite's `lower()`.
- `Hashing`: the password digest, as an ideal salted digest.
- `Usernames`: how a typed name is matched against the stored ones, as the code writes it and as
  corrected (see Findings).
- `Paging`: `paginate`.
- `Ordering`: the row order of the listing queries. The table is scanned in id order
  (`KeysBelow`), then sorted by date, latest first (`SortDesc`).
- `Models`: the rows, the integrity rules and the cascades.
- `Store`: the store class, its handlers and its listings.
- `Walkthrough`: a client of the store whose steps follow from the handlers' contracts alone.
  Alice registers, and "alice" is then taken. "ALICE" logs in as Alice. Bob registers and comments
  on Alice's post. Bob may not delete the post. Alice deletes it, and the comment goes with it.

Some details of the code that the model keeps:

- `new_post` and `edit_post` strip the title as well as the content, and refuse either one when
  it is blank.
- When a comment is posted, `post_detail` checks for a missing post first, then for a logged-in
  caller, then for a blank comment.
- The username column declares no case-insensitive collation (the comment at app/models.py:7
  notwithstanding). Case-insensitive uniqueness comes only from the check in `register`, and the
  model keeps it as an invariant of `Register`.

## Model

| member | source | states |
|---|---|---|
| `Text.Strip` | app/routes.py:48-50 | The result is the infix of the input left once white space is cut from both ends. It has no white space at either end. It is empty exactly when the input is all white space, which is what `if not username` tests. |
| `Text.PyLower` | app/routes.py:54 | `str.lower()` keeps the length and lower-cases each character. |
| `Text.SqlLower` | app/routes.py:54 | SQLite's `lower()` keeps the length and folds only the 26 ASCII capitals. |
| `Hashing.Hash` | app/models.py:14-15 | A freshly made digest verifies the password it was made from. |
| `Models.User.SetPassword` | app/models.py:14-18 | After `set_password(p)`, `check_password(p)` holds, and the username is unchanged. |
| `Usernames.AsWrittenMissesNonAscii` | app/routes.py:54 | With the lookup as written (also at line 74), a user stored as "É" is not found by typing "É". "é" is not seen as taken by "É", although the two are equal once lower-cased. |
| `Usernames.NeverFound` | app/routes.py:74 | With the lookup as written, no typed name at all finds a user stored as "É", so that account can never log in. |
| `Usernames.SameUsernameFindsOwnName` | app/routes.py:74 | The corrected lookup finds a user by the name they registered with and by its lower-cased form, in both directions. |
| `Usernames.SameUsernameAsWrittenOnAscii` | app/routes.py:54 | For an ASCII stored name, the corrected lookup matches exactly when the lookup as written matches. |
| `Paging.CeilingDivision` | app/routes.py:13 | `(total + per_page - 1) // per_page` is the ceiling of `total / per_page`: enough pages for every row, and one fewer page would not be enough. |
| `Paging.Paginate` | app/routes.py:10-24 | `items` is the slice of the ordered rows that starts at `(page-1)*per_page`. It is as long as `per_page` or as the rows that remain, whichever is less. `total` is the row count and `pages` its ceiling division. `has_prev` holds iff `page > 1`, and then `prev_num = page-1`, else None. `has_next` holds iff `page < pages`, and then `next_num = page+1`, else None. |
| `Paging.PageSize` | app/routes.py:12 | No page holds more than `per_page` rows, and every page before the last is full. |
| `Paging.PageInRange` | app/routes.py:12-23 | A page has rows exactly when its number is at most `pages`. A page past the last has no rows, `has_next` false and no `next_num`. |
| `Paging.RowPlacement` | app/routes.py:11-13 | Every row is on some existing page: row `i` is item `i % per_page` of page `i // per_page + 1`. |
| `Ordering.KeysBelow` | app/routes.py:31 | The table scan lists keys of the table only, in strictly increasing id order. |
| `Ordering.KeysBelowOnce` | app/routes.py:31 | The scan lists every key below the bound exactly once and nothing else. |
| `Ordering.SortDesc` | app/routes.py:31 | `ORDER BY date DESC` returns a permutation of its input (same multiset), with dates that never increase. |
| `Models.DeletePostCascades` | app/models.py:29-37 | Removing a post together with the comments that reference it leaves every foreign key valid and leaves no comment on that post. |
| `Models.DeleteUserCascades` | app/models.py:11-12 | Removing a user together with their posts, their comments and the comments on their posts leaves every foreign key valid and leaves no post by that user. |
| `Models.AddUserKeeps` | app/models.py:8 | Adding a user whose name is filled and matches no stored name, and who has a password digest, keeps the names unique and the tables consistent. |
| `Models.AddPostKeeps` | app/models.py:27 | Adding or replacing a filled post by an existing user keeps every foreign key valid. |
| `Models.AddCommentKeeps` | app/models.py:37-38 | Adding a filled comment on an existing post by an existing user keeps every foreign key valid. |
| `Store.BlogStore.constructor` | app/__init__.py:44-45 | The store starts with three empty tables, and ids start at 1. |
| `Store.BlogStore.Register` | app/routes.py:43-62 | A logged-in caller gets `AlreadyAuthenticated`. A username or password that is blank after stripping gives `InvalidInput`. A name equal, once lower-cased, to a stored one gives `UsernameTaken`. In each of these cases nothing changes. Otherwise exactly one user is added under the next id, with the stripped name and a digest of the stripped password. Posts and comments are untouched and the store invariant, including unique names, is kept. |
| `Store.BlogStore.Login` | app/routes.py:66-82 | The store is never modified. A logged-in caller gets `AlreadyAuthenticated`. Otherwise login succeeds iff some user's lower-cased name equals the stripped input lower-cased and the stripped password verifies against that user's digest. On success the returned id is that user. |
| `Store.BlogStore.NewPost` | app/routes.py:102-116 | With no logged-in user: `AuthRequired`. A blank stripped title or content: `InvalidInput`. In both cases nothing changes. Otherwise exactly one post is added under the next id, owned by the caller, with the stripped title and content and the current time. Nothing else changes. |
| `Store.BlogStore.EditPost` | app/routes.py:119-136 | The checks run in this order: `AuthRequired`, then `NotFound` for a missing id, then `Forbidden` for a post of someone else whatever the form holds, then `InvalidInput` for a blank field. Each leaves everything unchanged. On success only that post's title and content change, to the stripped values. Its owner, date, the other posts and all comments stay the same. |
| `Store.BlogStore.DeletePost` | app/routes.py:139-152 | The checks run in this order: `AuthRequired`, then `NotFound`, then `Forbidden`. Each leaves everything unchanged. On success the post and exactly the comments whose `post_id` is its id are gone. Every other post and comment and every user is unchanged. |
| `Store.BlogStore.AddComment` | app/routes.py:156-172 | The checks run in this order: `NotFound` for a missing post, then `AuthRequired`, then `InvalidInput` for a blank stripped comment. Each leaves everything unchanged. Otherwise exactly one comment is added under the next id, on that post, by the caller, with the stripped content. Nothing else changes. |
| `Store.BlogStore.DeleteUser` | app/models.py:11-12 | Deleting a user removes the user, every post they own, every comment they wrote and every comment on their posts. Nothing else is removed, no remaining post or comment refers to them, and the invariant is kept. |
| `Store.BlogStore.Feed` | app/routes.py:31 | The feed lists every post exactly once and nothing else, with `date_posted` never increasing. |
| `Store.BlogStore.PostsOf` | app/routes.py:97 | The dashboard query lists exactly the posts whose author is the given user, each once, with `date_posted` never increasing. |
| `Store.BlogStore.CommentsOf` | app/routes.py:174 | The comment query lists exactly the comments on the given post, each once, with `date_commented` never increasing. |
| `Store.BlogStore.Home` | app/routes.py:27-40 | The home and posts pages are page `page` of the feed, five to a page. The items are the slice of the feed starting at `(page-1)*5`, and `has_prev`/`has_next`/`prev_num`/`next_num` are as `paginate` computes them. So the page holds at most 5 existing posts, latest first. `total` counts every post and `pages` is its ceiling division by 5. |
| `Store.BlogStore.Dashboard` | app/routes.py:93-99 | With no logged-in user: `AuthRequired`. A logged-in caller always gets a page: the result is page `page` of the caller's own posts, with the items, `total`, `pages` and the four navigation fields as `paginate` computes them. The page holds at most 5 posts, each owned by the caller, latest first. |
| `Store.BlogStore.PostDetail` | app/routes.py:156-175 | A missing post gives `NotFound`. Otherwise the post's comments, each once, latest first. |

## Left out

- Session handling (`login_user`, `logout_user`, the `logout` handler, `current_user`) is not modelled. The logged-in user is a parameter, and `Session(current)` requires it to name a stored user, as the user loader guarantees. A successful `Login` returns the id that would be bound to the session.
- The GET branches of `register`, `login`, `new_post` and `edit_post` only render forms and are not modelled. On GET, `edit_post` still answers 404 and 403 before rendering; the model covers those checks only in the POST path.
- Templates, flash texts and categories, `url_for` and redirect targets are not modelled. This includes the unvalidated `next` redirect after login. Each outcome is a `Result` value instead.
- The app factory, the SQLite `PRAGMA foreign_keys` listener, the extension wiring and the configuration are not modelled. They are framework plumbing.
- bcrypt is not modelled. `Hashing` is an ideal salted digest, so it does not capture bcrypt's 72-byte password truncation, its cost factor or its encoding.
- `datetime.utcnow` is not modelled. Timestamps are naturals supplied by the caller. Rows with equal dates come out in a fixed but unspecified order, as they do from `ORDER BY`.
- Id assignment is a per-table counter that never reuses an id. SQLite without `AUTOINCREMENT` may reuse the largest id after its row is deleted; only the value of a new id differs.
- `Paging.Paginate`: requires `page >= 1` and `per_page >= 1`. A page number of 0 or less gives a negative SQL offset, whose effect belongs to the database.
- `Text.PyLower`: follows Python's case mapping for Basic Latin and the Latin-1 Supplement only. Characters of other scripts are left unchanged.
- `Text.Strip`: Python's white-space set is listed in full, but nothing beyond `strip()` without arguments is modelled.
- The check-then-insert race between two concurrent registrations is not modelled; the model is sequential.
- The declared String(64) and String(140) lengths are not modelled. SQLite does not enforce them and no handler checks them.
- The storage-level `ON DELETE CASCADE` and the handler's manual comment delete are not modelled apart. They are one cascade, `Models.CommentsNotOn`, whose effect is the same whichever runs.

## Findings

| source | as written | input that shows it | evidently intended | confidence | as-written member | corrected member |
|---|---|---|---|---|---|---|
| app/routes.py:54 | The stored name goes through the database's `lower()` and the typed name through Python's `str.lower()`, in `register` and again at line 74 in `login`. On the default SQLite database, `lower()` folds only ASCII capitals. | Register "É", then log in as "É". SQLite keeps "É" while Python gives "é", so no user matches and the account can never log in. Registering "é" next to "É" is also accepted. | Both sides lower-cased the same way, so that a user is found by their own name and names differing only in case clash | high for SQLite without the ICU extension; not executed | `Usernames.NeverFound` | `Usernames.SameUsernameFindsOwnName` |

The store (`Store.BlogStore.Register`, `Store.BlogStore.Login`, the invariant `Models.UniqueUsernames`)
uses the corrected comparison `Usernames.SameUsername`. `Usernames.SameUsernameAsWrittenOnAscii`
shows that the two comparisons agree whenever the stored name is ASCII.
