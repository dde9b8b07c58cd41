/** The password-hashing primitive behind `bcrypt.generate_password_hash`
    and `bcrypt.check_password_hash`, as an ideal salted digest: the salt
    stands for the random salt bcrypt draws, and a digest verifies exactly the
    password it was made from. */
module Hashing {

  datatype Digest =
    | Unset                              // column not yet assigned
    | Sealed(salt: nat, secret: string)  // digest of `secret` under `salt`

  /** `generate_password_hash(password)` with the salt supplied by the caller. */
  function Hash(password: string, salt: nat): (d: Digest)
    ensures d.Sealed? && Verify(password, d)
  {
    Sealed(salt, password)
  }

  /** `check_password_hash(digest, password)`. */
  predicate Verify(password: string, d: Digest)
  {
    d.Sealed? && d.secret == password
  }
}
