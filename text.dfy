/** The string operations the handlers apply to form input and the two
    lower-casing functions that meet in the username lookup: Python's
    `str.strip`, Python's `str.lower` and SQLite's built-in `lower()`. */
module Text {

  /** Python's `str.isspace` for one character: the characters `str.strip()`
      removes when called without arguments. */
  predicate IsSpace(c: char)
  {
    || c == ' ' || ('\t' <= c <= '\r')                      // \t \n \v \f \r
    || ('\U{1C}' <= c <= '\U{1F}')                          // information separators
    || c == '\U{85}' || c == '\U{A0}' || c == '\U{1680}'
    || ('\U{2000}' <= c <= '\U{200A}')
    || c == '\U{2028}' || c == '\U{2029}' || c == '\U{202F}'
    || c == '\U{205F}' || c == '\U{3000}'
  }

  predicate AllSpace(s: string)
  {
    forall k :: 0 <= k < |s| ==> IsSpace(s[k])
  }

  /** A string that `strip()` leaves as it is: empty, or without white space
      at either end. */
  predicate Trimmed(s: string)
  {
    s == [] || (!IsSpace(s[0]) && !IsSpace(s[|s| - 1]))
  }

  /** Number of white-space characters at the start of `s`. */
  function LeadingSpaces(s: string): (n: nat)
    ensures n <= |s|
    ensures AllSpace(s[..n])
    ensures n < |s| ==> !IsSpace(s[n])
  {
    if s != [] && IsSpace(s[0]) then
      var m := LeadingSpaces(s[1..]);
      assert s[..m + 1] == [s[0]] + s[1..][..m];
      m + 1
    else 0
  }

  /** Number of white-space characters at the end of `s`. */
  function TrailingSpaces(s: string): (n: nat)
    ensures n <= |s|
    ensures AllSpace(s[|s| - n..])
    ensures n < |s| ==> !IsSpace(s[|s| - n - 1])
  {
    if s != [] && IsSpace(s[|s| - 1]) then
      var t := s[..|s| - 1];
      var m := TrailingSpaces(t);
      var u := s[|s| - (m + 1)..];
      assert AllSpace(u) by {
        forall k | 0 <= k < |u|
          ensures IsSpace(u[k])
        {
          if k < m {
            assert u[k] == t[|t| - m..][k];
          }
        }
      }
      assert m + 1 < |s| ==> s[|s| - m - 2] == t[|t| - m - 1];
      m + 1
    else 0
  }

  /** Python's `s.strip()`: the infix of `s` left once white space is removed
      from both ends. It is empty exactly when `s` is all white space, which is
      what the handlers' `if not title` tests. */
  function Strip(s: string): (r: string)
    ensures Trimmed(r)
    ensures r == [] <==> AllSpace(s)
    ensures exists i :: 0 <= i <= |s| - |r| && r == s[i..i + |r|]
                        && AllSpace(s[..i]) && AllSpace(s[i + |r|..])
  {
    var i := LeadingSpaces(s);
    if i == |s| then
      assert s[..i] == s;
      assert s[0..0] == [] && s[0..] == s;
      []
    else
      var t := TrailingSpaces(s);
      var j := |s| - t;
      assert i < j by {
        assert AllSpace(s[j..]) && !IsSpace(s[i]);
      }
      var r := s[i..j];
      assert Trimmed(r) by {
        assert r[0] == s[i] && r[|r| - 1] == s[|s| - t - 1];
      }
      assert !AllSpace(s) by { assert !IsSpace(s[i]); }
      assert r == s[i..i + |r|] && AllSpace(s[..i]) && AllSpace(s[i + |r|..]);
      r
  }

  /** Stripping a string that is already trimmed gives it back: `strip` is
      idempotent. */
  lemma StripTrimmed(s: string)
    requires Trimmed(s)
    ensures Strip(s) == s
  {
    if s != [] {
      assert LeadingSpaces(s) == 0;
      assert TrailingSpaces(s) == 0;
    }
  }

  /** Python's `str.lower` on one character. Basic Latin and the Latin-1
      Supplement are mapped as Python maps them; other characters are left as
      they are. */
  function PyLowerChar(c: char): (d: char)
  {
    if 'A' <= c <= 'Z' || ('\U{C0}' <= c <= '\U{DE}' && c != '\U{D7}')
    then (c as int + 32) as char
    else c
  }

  /** Python's `s.lower()`: every character lower-cased in place. */
  function PyLower(s: string): (r: string)
    ensures |r| == |s|
    ensures forall k :: 0 <= k < |s| ==> r[k] == PyLowerChar(s[k])
  {
    if s == [] then [] else [PyLowerChar(s[0])] + PyLower(s[1..])
  }

  /** SQLite's built-in `lower(X)`: only the 26 ASCII capitals are folded. */
  function SqlLowerChar(c: char): (d: char)
  {
    if 'A' <= c <= 'Z' then (c as int + 32) as char else c
  }

  function SqlLower(s: string): (r: string)
    ensures |r| == |s|
    ensures forall k :: 0 <= k < |s| ==> r[k] == SqlLowerChar(s[k])
  {
    if s == [] then [] else [SqlLowerChar(s[0])] + SqlLower(s[1..])
  }

  /** Lower-casing twice is lower-casing once. */
  lemma {:induction false} PyLowerIdempotent(s: string)
    ensures PyLower(PyLower(s)) == PyLower(s)
  {
    if s != [] {
      PyLowerIdempotent(s[1..]);
      assert PyLower(s)[1..] == PyLower(s[1..]);
    }
  }

  predicate IsAscii(s: string)
  {
    forall k :: 0 <= k < |s| ==> s[k] < '\U{80}'
  }

  /** On ASCII text, Python's and SQLite's lower-casing agree. */
  lemma {:induction false} LowersAgreeOnAscii(s: string)
    requires IsAscii(s)
    ensures SqlLower(s) == PyLower(s)
  {
    if s != [] {
      LowersAgreeOnAscii(s[1..]);
    }
  }
}
