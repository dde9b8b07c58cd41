/** How a typed username is matched against the stored ones, both in the
    uniqueness check of `register` and in the lookup of `login`. */
module Usernames {
  import opened Text

  /** The lookup as the handlers write it: the stored column goes through the
      database's `lower()` (SQLite's, which folds only ASCII capitals) while
      the typed name goes through Python's `str.lower()`. */
  predicate AsWrittenMatch(stored: string, typed: string)
  {
    SqlLower(stored) == PyLower(typed)
  }

  /** The evidently intended comparison, and the one the store uses: both
      sides lower-cased the same way. */
  predicate SameUsername(stored: string, typed: string)
  {
    PyLower(stored) == PyLower(typed)
  }

  /** With the as-written lookup, a user registered as "É" is not found when
      typing "É" (so can never log in), and "é" is not seen as taken by "É"
      although the two differ only in case. */
  lemma AsWrittenMissesNonAscii()
    ensures !AsWrittenMatch("\U{C9}", "\U{C9}")
    ensures !AsWrittenMatch("\U{C9}", "\U{E9}")
    ensures PyLower("\U{C9}") == PyLower("\U{E9}")
  {
    assert PyLower("\U{C9}") == ['\U{E9}'];
    assert SqlLower("\U{C9}") == ['\U{C9}'];
  }

  /** With the as-written lookup, whatever name is typed, a user stored as
      "É" is never found: the account can never log in. */
  lemma NeverFound(typed: string)
    ensures !AsWrittenMatch("\U{C9}", typed)
  {
    assert SqlLower("\U{C9}") == ['\U{C9}'];
    if |typed| == 1 {
      assert PyLower(typed)[0] == PyLowerChar(typed[0]);
    }
  }

  /** The corrected lookup always finds a user by the name they registered,
      and also by that name in lower case. */
  lemma {:induction false} SameUsernameFindsOwnName(name: string)
    ensures SameUsername(name, name)
    ensures SameUsername(name, PyLower(name)) && SameUsername(PyLower(name), name)
  {
    PyLowerIdempotent(name);
  }

  /** On ASCII names the correction changes nothing: it agrees with the
      as-written lookup. */
  lemma {:induction false} SameUsernameAsWrittenOnAscii(stored: string, typed: string)
    requires IsAscii(stored)
    ensures AsWrittenMatch(stored, typed) <==> SameUsername(stored, typed)
  {
    LowersAgreeOnAscii(stored);
  }
}
