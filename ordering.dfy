/** The query shapes the routes use over a table: a `WHERE` filter,
    a `fetchone()`, an `ORDER BY key DESC` and an `ORDER BY key DESC LIMIT k`.
    SQLite leaves the order of rows with equal keys unspecified, so the
    contracts below promise sortedness and content, never a tie-break. */
module Ordering {

  import opened Wrappers

  function Min(a: nat, b: nat): nat { if a <= b then a else b }

  /** Rows in non-increasing order of `key`. */
  predicate SortedDesc<T>(s: seq<T>, key: T -> real)
  {
    forall i, j :: 0 <= i < j < |s| ==> key(s[i]) >= key(s[j])
  }

  /** `WHERE p(row)`: every row satisfying `p`, as often as it occurs, and no other. */
  function Where<T(!new)>(s: seq<T>, p: T -> bool): (r: seq<T>)
    ensures forall x :: multiset(r)[x] == if p(x) then multiset(s)[x] else 0
    ensures |r| <= |s|
  {
    if s == [] then []
    else
      var rest := Where(s[1..], p);
      assert s == [s[0]] + s[1..];
      if p(s[0]) then [s[0]] + rest else rest
  }

  /** A `WHERE` over a non-empty table decides the first row, then filters the rest. */
  lemma WhereCons<T(!new)>(s: seq<T>, p: T -> bool)
    requires s != []
    ensures Where(s, p) == if p(s[0]) then [s[0]] + Where(s[1..], p) else Where(s[1..], p)
  {
  }

  /** `SELECT ... WHERE p(row)` followed by `fetchone()`: the position of the
      first row satisfying `p`, or `None` when no row does. */
  function First<T>(s: seq<T>, p: T -> bool): (r: Option<nat>)
    ensures r.Some? ==> r.value < |s| && p(s[r.value])
    ensures r.Some? ==> forall j :: 0 <= j < r.value ==> !p(s[j])
    ensures r.None? <==> forall j :: 0 <= j < |s| ==> !p(s[j])
  {
    if s == [] then None
    else if p(s[0]) then Some(0)
    else match First(s[1..], p)
      case None => None
      case Some(i) => Some(i + 1)
  }

  /** Inserts `x` into a sorted sequence, keeping it sorted. */
  function InsertDesc<T>(x: T, s: seq<T>, key: T -> real): (r: seq<T>)
    requires SortedDesc(s, key)
    ensures SortedDesc(r, key)
    ensures multiset(r) == multiset(s) + multiset{x}
    ensures |r| == |s| + 1
  {
    if s == [] || key(x) >= key(s[0]) then [x] + s
    else
      var tail := s[1..];
      var rest := InsertDesc(x, tail, key);
      assert s == [s[0]] + tail;
      forall j | 0 <= j < |rest|
        ensures key(s[0]) >= key(rest[j])
      {
        assert rest[j] in multiset(rest);
        if rest[j] != x {
          assert rest[j] in multiset(tail);
          var a :| 0 <= a < |tail| && tail[a] == rest[j];
        }
      }
      [s[0]] + rest
  }

  /** `ORDER BY key DESC`: a sorted permutation of the rows. */
  function SortDesc<T>(s: seq<T>, key: T -> real): (r: seq<T>)
    ensures SortedDesc(r, key)
    ensures multiset(r) == multiset(s)
    ensures |r| == |s|
  {
    if s == [] then []
    else
      assert s == [s[0]] + s[1..];
      InsertDesc(s[0], SortDesc(s[1..], key), key)
  }

  /** In a sorted sequence, whatever lies beyond the first `m` rows has a key no
      greater than any of the first `m`. */
  lemma PrefixDominates<T>(t: seq<T>, key: T -> real, m: nat)
    requires SortedDesc(t, key) && m <= |t|
    ensures SortedDesc(t[..m], key)
    ensures multiset(t[..m]) <= multiset(t)
    ensures forall x, y :: x in multiset(t) - multiset(t[..m]) && y in t[..m] ==> key(x) <= key(y)
  {
    var r := t[..m];
    assert t == r + t[m..];
    assert multiset(t) == multiset(r) + multiset(t[m..]);
    forall x, y | x in multiset(t) - multiset(r) && y in r
      ensures key(x) <= key(y)
    {
      assert x in multiset(t[m..]);
      assert x in t[m..];
      var a :| m <= a < |t| && t[a] == x;
      var b :| 0 <= b < m && r[b] == y;
    }
  }

  /** `ORDER BY key DESC LIMIT k`: the `k` rows with the greatest keys (all rows
      when there are fewer), sorted, and no row left out has a greater key than
      a row kept. */
  function TopBy<T(!new)>(s: seq<T>, key: T -> real, k: nat): (r: seq<T>)
    ensures |r| == Min(k, |s|)
    ensures SortedDesc(r, key)
    ensures multiset(r) <= multiset(s)
    ensures forall x, y :: x in multiset(s) - multiset(r) && y in r ==> key(x) <= key(y)
  {
    var t := SortDesc(s, key);
    PrefixDominates(t, key, Min(k, |t|));
    t[..Min(k, |t|)]
  }
}
