/** Order-preserving queries over a collection held as a sequence of documents. */
module Seqs {
  import opened Wrappers

  /** The elements of `s` satisfying `p`, in their original order (a Mongo `find`). */
  function Filter<T(!new)>(s: seq<T>, p: T -> bool): (r: seq<T>)
    ensures |r| <= |s|
    ensures forall x :: x in r <==> x in s && p(x)
    ensures forall i :: 0 <= i < |r| ==> p(r[i])
    ensures multiset(r) <= multiset(s)
    ensures forall x :: multiset(r)[x] == if p(x) then multiset(s)[x] else 0
  {
    if |s| == 0 then []
    else
      assert s == [s[0]] + s[1..];
      if p(s[0]) then [s[0]] + Filter(s[1..], p)
      else Filter(s[1..], p)
  }

  /** `Filter` keeps the collection's order: filtering a longer store extends the old result. */
  lemma {:induction false} FilterAppend<T(!new)>(s: seq<T>, x: T, p: T -> bool)
    ensures Filter(s + [x], p) == Filter(s, p) + (if p(x) then [x] else [])
  {
    if |s| > 0 {
      var t := s + [x];
      assert t[0] == s[0] && t[1..] == s[1..] + [x];
      FilterAppend(s[1..], x, p);
      FilterFirst(t, p);
      FilterFirst(s, p);
      var head := if p(s[0]) then [s[0]] else [];
      var tail := if p(x) then [x] else [];
      AppendAssoc(head, Filter(s[1..], p), tail);
    }
  }

  lemma AppendAssoc<T>(a: seq<T>, b: seq<T>, c: seq<T>)
    ensures a + (b + c) == (a + b) + c
  {
  }

  lemma FilterFirst<T(!new)>(s: seq<T>, p: T -> bool)
    requires |s| > 0
    ensures Filter(s, p) == (if p(s[0]) then [s[0]] else []) + Filter(s[1..], p)
  {
  }

  /** The position of the first element satisfying `p` (a Mongo `findOne`), if any. */
  function FindIndex<T>(s: seq<T>, p: T -> bool): (r: Option<nat>)
    ensures r.Some? ==> r.value < |s| && p(s[r.value])
    ensures r.Some? ==> forall j :: 0 <= j < r.value ==> !p(s[j])
    ensures r.None? <==> forall j :: 0 <= j < |s| ==> !p(s[j])
  {
    if |s| == 0 then None
    else if p(s[0]) then Some(0)
    else match FindIndex(s[1..], p)
      case None => None
      case Some(k) => Some(k + 1)
  }

  /** `s` without its element at position `i` (a Mongo `deleteOne` of that document). */
  function RemoveAt<T>(s: seq<T>, i: nat): (r: seq<T>)
    requires i < |s|
    ensures |r| == |s| - 1
    ensures multiset(r) + multiset{s[i]} == multiset(s)
    ensures forall j :: 0 <= j < i ==> r[j] == s[j]
    ensures forall j :: i <= j < |r| ==> r[j] == s[j + 1]
  {
    assert s == s[..i] + [s[i]] + s[i+1..];
    s[..i] + s[i+1..]
  }

  /** Applying `f` to every element (a `.map` over query results). */
  function MapSeq<T, U>(s: seq<T>, f: T -> U): (r: seq<U>)
    ensures |r| == |s|
    ensures forall i :: 0 <= i < |s| ==> r[i] == f(s[i])
  {
    seq(|s|, i requires 0 <= i < |s| => f(s[i]))
  }

  /** Mapping two rearrangements of the same elements gives rearrangements of the same results. */
  lemma {:induction false} MapSeqPermutation<T, U>(a: seq<T>, b: seq<T>, f: T -> U)
    requires multiset(a) == multiset(b)
    ensures multiset(MapSeq(a, f)) == multiset(MapSeq(b, f))
  {
    if |a| == 0 {
      assert |b| == |multiset(b)| == 0;
    } else {
      assert a[0] in multiset(b);
      var k :| 0 <= k < |b| && b[k] == a[0];
      var b' := RemoveAt(b, k);
      MultisetFirst(a);
      assert multiset(a[1..]) == multiset(b') by {
        assert multiset(b') + multiset{b[k]} == multiset(b);
        forall z ensures multiset(a[1..])[z] == multiset(b')[z] {
          assert (multiset{a[0]} + multiset(a[1..]))[z] == (multiset(b') + multiset{b[k]})[z];
        }
      }
      MapSeqPermutation(a[1..], b', f);
      MapSeqFirst(a, f);
      MapSeqRemoveAt(b, k, f);
      var mb := MapSeq(b, f);
      assert multiset(RemoveAt(mb, k)) + multiset{mb[k]} == multiset(mb);
    }
  }

  lemma MapSeqAppend<T, U>(a: seq<T>, b: seq<T>, f: T -> U)
    ensures MapSeq(a + b, f) == MapSeq(a, f) + MapSeq(b, f)
  {
    assert forall i :: 0 <= i < |a| ==> (a + b)[i] == a[i];
    assert forall i :: |a| <= i < |a| + |b| ==> (a + b)[i] == b[i - |a|];
  }

  /** Mapping a filtered store keeps its order: a new last element adds its image when it passes. */
  lemma MapFilterAppend<T(!new), U>(s: seq<T>, x: T, p: T -> bool, f: T -> U)
    ensures MapSeq(Filter(s + [x], p), f) == MapSeq(Filter(s, p), f) + (if p(x) then [f(x)] else [])
  {
    FilterAppend(s, x, p);
    if p(x) {
      MapSeqAppend(Filter(s, p), [x], f);
      MapSeqSingle(x, f);
    } else {
      assert Filter(s + [x], p) == Filter(s, p) + [];
      assert Filter(s, p) + [] == Filter(s, p);
    }
  }

  lemma MapSeqSingle<T, U>(x: T, f: T -> U)
    ensures MapSeq([x], f) == [f(x)]
  {
  }

  lemma MultisetFirst<T>(a: seq<T>)
    requires |a| > 0
    ensures multiset(a) == multiset{a[0]} + multiset(a[1..])
  {
    assert a == [a[0]] + a[1..];
  }

  lemma MapSeqFirst<T, U>(a: seq<T>, f: T -> U)
    requires |a| > 0
    ensures multiset(MapSeq(a, f)) == multiset{f(a[0])} + multiset(MapSeq(a[1..], f))
  {
    assert MapSeq(a, f) == [f(a[0])] + MapSeq(a[1..], f);
  }

  lemma MapSeqRemoveAt<T, U>(b: seq<T>, k: nat, f: T -> U)
    requires k < |b|
    ensures MapSeq(RemoveAt(b, k), f) == RemoveAt(MapSeq(b, f), k)
  {
  }
}
