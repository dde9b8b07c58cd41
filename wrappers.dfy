/** Outcome types shared by the blog store: an optional value, the error
    taxonomy the request handlers turn into redirects, 403s and 404s, and a
    result that carries either a value or one of those errors. */
module Wrappers {

  datatype Option<+T> = None | Some(value: T)

  /** Every way a handler can refuse a request. */
  datatype Error =
    | InvalidInput          // a required field is empty after stripping
    | UsernameTaken         // another user has the same lower-cased name
    | LoginFailed           // no such user, or the password does not verify
    | AuthRequired          // the handler needs a logged-in user and there is none
    | AlreadyAuthenticated  // register/login reached while logged in
    | NotFound              // no post with that id (HTTP 404)
    | Forbidden             // the caller does not own the post (HTTP 403)

  datatype Result<+T> = Ok(value: T) | Err(error: Error)
}
