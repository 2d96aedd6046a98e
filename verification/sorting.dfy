/** Sorting a query result by a key order, as Mongo's `.sort(...)` does. */
module Sorting {

  /** `le` is a total preorder: every pair is comparable and the order is transitive. */
  ghost predicate TotalPreorder<T(!new)>(le: (T, T) -> bool) {
    && (forall a, b :: le(a, b) || le(b, a))
    && (forall a, b, c :: le(a, b) && le(b, c) ==> le(a, c))
  }

  /** Every earlier element of `s` is `le` every later one. */
  predicate Sorted<T>(s: seq<T>, le: (T, T) -> bool) {
    forall i, j :: 0 <= i < j < |s| ==> le(s[i], s[j])
  }

  /** Inserts `x` into `s` just before the first element it is `le` to. */
  function Insert<T>(x: T, s: seq<T>, le: (T, T) -> bool): (r: seq<T>)
    ensures multiset(r) == multiset(s) + multiset{x}
  {
    if |s| == 0 then [x]
    else if le(x, s[0]) then [x] + s
    else
      assert s == [s[0]] + s[1..];
      [s[0]] + Insert(x, s[1..], le)
  }

  /** Inserting into a sorted sequence keeps it sorted. */
  lemma {:induction false} InsertSorted<T(!new)>(x: T, s: seq<T>, le: (T, T) -> bool)
    requires TotalPreorder(le)
    requires Sorted(s, le)
    ensures Sorted(Insert(x, s, le), le)
  {
    if |s| == 0 {
    } else if le(x, s[0]) {
      var r := Insert(x, s, le);
      forall i, j | 0 <= i < j < |r| ensures le(r[i], r[j]) {
        if i == 0 {
          if j > 1 {
            assert le(s[0], s[j - 1]);
          }
        }
      }
    } else {
      var rest := Insert(x, s[1..], le);
      InsertSorted(x, s[1..], le);
      assert le(s[0], x);
      var r := Insert(x, s, le);
      assert r == [s[0]] + rest;
      forall j | 0 < j < |r| ensures le(s[0], r[j]) {
        assert r[j] == rest[j - 1];
        assert rest[j - 1] in multiset(rest);
        if rest[j - 1] != x {
          assert rest[j - 1] in multiset(s[1..]);
          var k :| 0 <= k < |s[1..]| && s[1..][k] == rest[j - 1];
          assert le(s[0], s[k + 1]);
        }
      }
      forall i, j | 0 <= i < j < |r| ensures le(r[i], r[j]) {
        if i > 0 {
          assert le(rest[i - 1], rest[j - 1]);
        }
      }
    }
  }

  /** A sorted permutation of `s` (insertion sort). */
  function SortBy<T(!new)>(s: seq<T>, le: (T, T) -> bool): (r: seq<T>)
    requires TotalPreorder(le)
    ensures multiset(r) == multiset(s)
    ensures Sorted(r, le)
  {
    if |s| == 0 then []
    else
      assert s == [s[0]] + s[1..];
      var rest := SortBy(s[1..], le);
      InsertSorted(s[0], rest, le);
      Insert(s[0], rest, le)
  }
}
