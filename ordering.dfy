/**
 * Orderings and page windows shared by the stores: the stores answer
 * "newest first" queries (`ORDER BY created_at DESC`) and cut the answer
 * with `OFFSET`/`LIMIT`.  Ties on the key may come out in any order.
 */
module Ordering {

  function Min(a: int, b: int): int {
    if a <= b then a else b
  }

  /** `s` lists its elements newest first by `key`. */
  ghost predicate NewestFirst<T>(s: seq<T>, key: T -> int) {
    forall i, j :: 0 <= i < j < |s| ==> key(s[i]) >= key(s[j])
  }

  /** No element occurs more than once in `s`. */
  ghost predicate AtMostOnce<T(!new)>(s: seq<T>) {
    forall x :: multiset(s)[x] <= 1
  }

  /** The elements of `s` that satisfy `keep` (their order is kept: see `FilterKeepsAscending`). */
  function Filter<T(==,!new)>(s: seq<T>, keep: T -> bool): (r: seq<T>)
    ensures forall x :: multiset(r)[x] == if keep(x) then multiset(s)[x] else 0
    ensures forall i :: 0 <= i < |r| ==> keep(r[i]) && r[i] in s
    ensures |r| <= |s|
  {
    if s == [] then []
    else
      assert s == [s[0]] + s[1..];
      (if keep(s[0]) then [s[0]] else []) + Filter(s[1..], keep)
  }

  /** Strictly ascending keys. */
  ghost predicate Ascending<T>(s: seq<T>, key: T -> int) {
    forall i, j :: 0 <= i < j < |s| ==> key(s[i]) < key(s[j])
  }

  /** Putting an element with a smaller key than all of an ascending sequence in front keeps it ascending. */
  lemma AscendingPrepend<T>(x: T, t: seq<T>, key: T -> int)
    requires Ascending(t, key) && forall m :: 0 <= m < |t| ==> key(x) < key(t[m])
    ensures Ascending([x] + t, key)
  {
    var r := [x] + t;
    forall i, j | 0 <= i < j < |r| ensures key(r[i]) < key(r[j]) {
      assert r[j] == t[j - 1];
      if i > 0 {
        assert r[i] == t[i - 1];
      }
    }
  }

  /** A prefix of an ascending sequence is ascending and takes nothing the sequence does not hold. */
  lemma PrefixOfAscending<T>(q: seq<T>, key: T -> int, k: nat)
    requires Ascending(q, key) && k <= |q|
    ensures Ascending(q[..k], key)
    ensures multiset(q[..k]) <= multiset(q)
  {
    assert q == q[..k] + q[k..];
    forall i, j | 0 <= i < j < k ensures key(q[..k][i]) < key(q[..k][j]) {
      assert q[..k][i] == q[i] && q[..k][j] == q[j];
    }
  }

  /** Everything a filter keeps from `t` has a key above `b` when everything in `t` has. */
  lemma FilteredAbove<T(!new)>(t: seq<T>, keep: T -> bool, key: T -> int, b: int)
    requires forall m :: 0 <= m < |t| ==> b < key(t[m])
    ensures forall m :: 0 <= m < |Filter(t, keep)| ==> b < key(Filter(t, keep)[m])
  {
    var f := Filter(t, keep);
    forall m | 0 <= m < |f| ensures b < key(f[m]) {
      assert f[m] in t;
    }
  }

  /** The tail of an ascending sequence is ascending, and all of it lies above the head. */
  lemma AscendingTail<T>(s: seq<T>, key: T -> int)
    requires Ascending(s, key) && |s| > 0
    ensures Ascending(s[1..], key)
    ensures forall m :: 0 <= m < |s[1..]| ==> key(s[0]) < key(s[1..][m])
  {
    var rest := s[1..];
    forall i, j | 0 <= i < j < |rest| ensures key(rest[i]) < key(rest[j]) {
      assert rest[i] == s[i + 1] && rest[j] == s[j + 1];
    }
    forall m | 0 <= m < |rest| ensures key(s[0]) < key(rest[m]) {
      assert rest[m] == s[m + 1];
    }
  }

  /** A filter keeps the relative order of the elements it keeps: ascending keys stay ascending. */
  lemma {:induction false} FilterKeepsAscending<T(!new)>(s: seq<T>, keep: T -> bool, key: T -> int)
    requires Ascending(s, key)
    ensures Ascending(Filter(s, keep), key)
    decreases |s|
  {
    if s != [] {
      var rest := s[1..];
      AscendingTail(s, key);
      FilterKeepsAscending(rest, keep, key);
      assert s == [s[0]] + rest;
      if keep(s[0]) {
        FilteredAbove(rest, keep, key, key(s[0]));
        AscendingPrepend(s[0], Filter(rest, keep), key);
      }
    }
  }

  /** Inserts `x` into `s` in front of the first element that is not newer than `x`. */
  function InsertNewest<T(==,!new)>(x: T, s: seq<T>, key: T -> int): (r: seq<T>)
    ensures multiset(r) == multiset(s) + multiset{x}
  {
    if s == [] || key(x) >= key(s[0]) then [x] + s
    else
      assert s == [s[0]] + s[1..];
      [s[0]] + InsertNewest(x, s[1..], key)
  }

  /** Insertion keeps a newest-first sequence newest first. */
  lemma {:induction false} InsertKeepsNewestFirst<T(!new)>(x: T, s: seq<T>, key: T -> int)
    requires NewestFirst(s, key)
    ensures NewestFirst(InsertNewest(x, s, key), key)
  {
    var r := InsertNewest(x, s, key);
    if s == [] || key(x) >= key(s[0]) {
      forall i, j | 0 <= i < j < |r| ensures key(r[i]) >= key(r[j]) {
        assert r[j] == s[j - 1];
        if i > 0 { assert r[i] == s[i - 1]; }
      }
    } else {
      var rest := InsertNewest(x, s[1..], key);
      InsertKeepsNewestFirst(x, s[1..], key);
      assert r == [s[0]] + rest;
      forall i, j | 0 <= i < j < |r| ensures key(r[i]) >= key(r[j]) {
        if i == 0 {
          var y := rest[j - 1];
          assert y in multiset(rest);
          assert y in multiset(s[1..]) + multiset{x};
          if y != x {
            assert y in s[1..];
            var k :| 0 <= k < |s[1..]| && s[1..][k] == y;
            assert s[k + 1] == y;
          }
        }
      }
    }
  }

  /** Sorts `s` newest first (insertion sort). */
  function SortNewestFirst<T(==,!new)>(s: seq<T>, key: T -> int): (r: seq<T>)
    ensures multiset(r) == multiset(s)
    ensures NewestFirst(r, key)
  {
    if s == [] then []
    else
      assert s == [s[0]] + s[1..];
      var rest := SortNewestFirst(s[1..], key);
      InsertKeepsNewestFirst(s[0], rest, key);
      InsertNewest(s[0], rest, key)
  }

  /** The page `s[skip .. skip + limit]`, clipped to the end of `s` (SQL `OFFSET skip LIMIT limit`). */
  function Window<T>(s: seq<T>, skip: nat, limit: nat): (r: seq<T>)
    ensures |r| == if skip >= |s| then 0 else Min(limit, |s| - skip)
    ensures forall i :: 0 <= i < |r| ==> r[i] == s[skip + i]
  {
    if skip >= |s| then [] else s[skip .. skip + Min(limit, |s| - skip)]
  }

  /**
   * The at most `limit` newest elements of `s`, newest first: every element
   * of `s` that is left out is no newer than any element kept.
   */
  function Newest<T(==,!new)>(s: seq<T>, key: T -> int, limit: nat): (r: seq<T>)
    ensures |r| == Min(limit, |s|)
    ensures NewestFirst(r, key)
    ensures multiset(r) <= multiset(s)
    ensures forall x, i :: x in multiset(s) - multiset(r) && 0 <= i < |r| ==> key(x) <= key(r[i])
  {
    var ordered := SortNewestFirst(s, key);
    assert |ordered| == |multiset(ordered)| == |s|;
    FrontIsNewest(ordered, key, Min(limit, |s|));
    ordered[..Min(limit, |s|)]
  }

  /**
   * The front of a newest-first sequence is newest first, and every
   * element behind it is no newer than any element in it.
   */
  lemma {:induction false} FrontIsNewest<T>(ordered: seq<T>, key: T -> int, k: nat)
    requires NewestFirst(ordered, key) && k <= |ordered|
    ensures NewestFirst(ordered[..k], key)
    ensures multiset(ordered[..k]) <= multiset(ordered)
    ensures forall x, i :: x in multiset(ordered) - multiset(ordered[..k]) && 0 <= i < k ==>
      key(x) <= key(ordered[..k][i])
  {
    assert ordered == ordered[..k] + ordered[k..];
    assert multiset(ordered) == multiset(ordered[..k]) + multiset(ordered[k..]);
    forall x, i | x in multiset(ordered) - multiset(ordered[..k]) && 0 <= i < k
      ensures key(x) <= key(ordered[..k][i])
    {
      assert x in multiset(ordered[k..]);
      var j :| 0 <= j < |ordered[k..]| && ordered[k..][j] == x;
      assert ordered[k + j] == x && ordered[..k][i] == ordered[i];
    }
  }

  /**
   * `SELECT … WHERE keep ORDER BY key DESC LIMIT limit`: `limit` elements
   * of `s` satisfying `keep`, or all of them when fewer satisfy it, newest
   * first, and every satisfying element left out is no newer than any
   * element returned.
   */
  function NewestWhere<T(==,!new)>(s: seq<T>, keep: T -> bool, key: T -> int, limit: nat): (r: seq<T>)
    ensures |r| == Min(limit, |Filter(s, keep)|)
    ensures forall i :: 0 <= i < |r| ==> keep(r[i]) && r[i] in s
    ensures NewestFirst(r, key)
    ensures multiset(r) <= multiset(s)
    ensures forall x, i :: x in s && keep(x) && x !in r && 0 <= i < |r| ==> key(x) <= key(r[i])
  {
    var kept := Filter(s, keep);
    var r := Newest(kept, key, limit);
    LeftOutOfFilter(s, keep, kept, r);
    r
  }

  lemma LeftOutOfFilter<T(!new)>(s: seq<T>, keep: T -> bool, kept: seq<T>, r: seq<T>)
    requires forall x :: multiset(kept)[x] == if keep(x) then multiset(s)[x] else 0
    requires multiset(r) <= multiset(kept)
    ensures forall i :: 0 <= i < |r| ==> keep(r[i]) && r[i] in s
    ensures multiset(r) <= multiset(s)
    ensures forall x :: x in s && keep(x) && x !in r ==> x in multiset(kept) - multiset(r)
  {
    forall i | 0 <= i < |r| ensures keep(r[i]) && r[i] in s {
      assert r[i] in multiset(r);
      assert multiset(kept)[r[i]] > 0;
    }
    forall x ensures multiset(r)[x] <= multiset(s)[x] {
      assert multiset(r)[x] <= multiset(kept)[x];
    }
    forall x | x in s && keep(x) && x !in r ensures x in multiset(kept) - multiset(r) {
      assert multiset(s)[x] > 0;
      assert multiset(r)[x] == 0;
    }
  }
}
