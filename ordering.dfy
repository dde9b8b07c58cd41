/** The row order of the listing queries: a table scan in primary-key order
    (`KeysBelow`), then `ORDER BY <date> DESC` (`SortDesc`). Rows with equal
    dates keep a fixed but otherwise unspecified order. */
module Ordering {

  /** The keys of `m` below `n`, ascending: the order in which a table whose
      ids are all below `n` is scanned. */
  function KeysBelow<V>(m: map<nat, V>, n: nat): (r: seq<nat>)
    ensures forall i :: 0 <= i < |r| ==> r[i] in m && r[i] < n
    ensures forall i, j :: 0 <= i < j < |r| ==> r[i] < r[j]
  {
    if n == 0 then []
    else
      var prefix := KeysBelow(m, n - 1);
      var last: nat := n - 1;
      if last in m then prefix + [last] else prefix
  }

  /** How often key `k` should occur in the scan of `m` below `n`. */
  function Occurrences<V>(m: map<nat, V>, n: nat, k: nat): nat
  {
    if k in m && k < n then 1 else 0
  }

  /** The scan lists every key of `m` below `n` exactly once and nothing else. */
  lemma {:induction false} KeysBelowOnce<V>(m: map<nat, V>, n: nat)
    ensures forall k: nat :: multiset(KeysBelow(m, n))[k] == Occurrences(m, n, k)
  {
    forall k: nat
      ensures multiset(KeysBelow(m, n))[k] == Occurrences(m, n, k)
    {
      KeyCount(m, n, k);
    }
  }

  /** The scan lists key `k` once if it is a key of `m` below `n`, else never. */
  lemma {:induction false} KeyCount<V>(m: map<nat, V>, n: nat, k: nat)
    ensures multiset(KeysBelow(m, n))[k] == Occurrences(m, n, k)
  {
    if n > 0 {
      KeyCount(m, n - 1, k);
      var prefix := KeysBelow(m, n - 1);
      var last: nat := n - 1;
      if last in m {
        assert KeysBelow(m, n) == prefix + [last];
        CountAppend(prefix, last, k);
      } else {
        assert KeysBelow(m, n) == prefix;
      }
    } else {
      assert KeysBelow(m, n) == [];
    }
  }

  /** Appending `x` adds one occurrence of `x` and none of any other key. */
  lemma CountAppend(s: seq<nat>, x: nat, k: nat)
    ensures multiset(s + [x])[k] == multiset(s)[k] + (if k == x then 1 else 0)
  {
    var before: multiset<nat> := multiset(s);
    var after: multiset<nat> := multiset(s + [x]);
    assert after == before + multiset{x};
  }

  /** Every key of `s` has a date, and dates never increase along `s`. */
  predicate SortedDesc(s: seq<nat>, date: map<nat, nat>)
  {
    && (forall i :: 0 <= i < |s| ==> s[i] in date)
    && (forall i, j :: 0 <= i < j < |s| ==> date[s[i]] >= date[s[j]])
  }

  /** A key no later than the head of a sorted sequence can be put in front. */
  lemma ConsSorted(h: nat, rest: seq<nat>, date: map<nat, nat>)
    requires h in date && SortedDesc(rest, date)
    requires forall i :: 0 <= i < |rest| ==> date[rest[i]] <= date[h]
    ensures SortedDesc([h] + rest, date)
  {
    var r := [h] + rest;
    forall i, j | 0 <= i < j < |r|
      ensures date[r[i]] >= date[r[j]]
    {
      assert r[j] == rest[j - 1];
      if i > 0 { assert r[i] == rest[i - 1]; }
    }
  }

  /** Whatever is built from the tail of a sorted `s` and a key later than
      nothing in front of it is no later than the head of `s`. */
  lemma EarlierDates(x: nat, s: seq<nat>, rest: seq<nat>, date: map<nat, nat>)
    requires s != [] && x in date && SortedDesc(s, date) && date[x] < date[s[0]]
    requires multiset(rest) == multiset(s[1..]) + multiset{x}
    ensures forall i :: 0 <= i < |rest| ==> rest[i] in date && date[rest[i]] <= date[s[0]]
  {
    forall i | 0 <= i < |rest|
      ensures rest[i] in date && date[rest[i]] <= date[s[0]]
    {
      var y := rest[i];
      assert y in multiset(rest);
      if y != x {
        assert y in multiset(s[1..]);
        var j :| 0 <= j < |s[1..]| && s[1..][j] == y;
        assert s[j + 1] == y;
      }
    }
  }

  /** `x` placed in front of the first key of `s` with an earlier date. */
  function InsertDesc(x: nat, s: seq<nat>, date: map<nat, nat>): (r: seq<nat>)
    requires x in date && SortedDesc(s, date)
    ensures SortedDesc(r, date)
    ensures multiset(r) == multiset(s) + multiset{x}
  {
    if s == [] || date[x] >= date[s[0]] then
      ConsSorted(x, s, date);
      [x] + s
    else
      var rest := InsertDesc(x, s[1..], date);
      EarlierDates(x, s, rest, date);
      ConsSorted(s[0], rest, date);
      assert s == [s[0]] + s[1..];
      [s[0]] + rest
  }

  /** `s` reordered by date, latest first: a permutation of `s` that is sorted. */
  function SortDesc(s: seq<nat>, date: map<nat, nat>): (r: seq<nat>)
    requires forall i :: 0 <= i < |s| ==> s[i] in date
    ensures SortedDesc(r, date)
    ensures multiset(r) == multiset(s)
  {
    if s == [] then []
    else
      assert s == [s[0]] + s[1..];
      InsertDesc(s[0], SortDesc(s[1..], date), date)
  }
}
