/** Generic sequence operations shared by the two goal collections: the
    `filter`, `map`-merge and `reduce` shapes the components apply to their
    goal arrays, each specified by what it keeps, changes or adds up. */
module Lists {

  /** `r` occurs in `s` in the same order, possibly with gaps. */
  ghost predicate IsSubsequence<T>(r: seq<T>, s: seq<T>)
    decreases |s|
  {
    r == [] ||
    (s != [] &&
     ((r[0] == s[0] && IsSubsequence(r[1..], s[1..])) || IsSubsequence(r, s[1..])))
  }

  /** `Array.prototype.filter`: the elements of `s` that satisfy `p`, in order. */
  function Filter<T(==)>(s: seq<T>, p: T -> bool): (r: seq<T>)
    ensures |r| <= |s|
    ensures forall i :: 0 <= i < |r| ==> r[i] in s && p(r[i])
    ensures forall i :: 0 <= i < |s| && p(s[i]) ==> s[i] in r
  {
    if s == [] then []
    else (if p(s[0]) then [s[0]] else []) + Filter(s[1..], p)
  }

  /** The elements of `s` whose key is different from `id`: the
      `filter(goal => goal.id !== id)` of a delete. */
  function Without<T(==), K(==)>(s: seq<T>, key: T -> K, id: K): (r: seq<T>)
    ensures forall i :: 0 <= i < |r| ==> r[i] in s && key(r[i]) != id
    ensures forall i :: 0 <= i < |s| && key(s[i]) != id ==> s[i] in r
  {
    Filter(s, x => key(x) != id)
  }

  /** `s.map(x => key(x) === id ? f(x) : x)`: every element with key `id`
      is replaced by `f` of it, every other element is left as it is. */
  function MergeWhere<T, K(==)>(s: seq<T>, key: T -> K, id: K, f: T -> T): (r: seq<T>)
    ensures |r| == |s|
    ensures forall i :: 0 <= i < |s| ==> r[i] == (if key(s[i]) == id then f(s[i]) else s[i])
  {
    if s == [] then []
    else [if key(s[0]) == id then f(s[0]) else s[0]] + MergeWhere(s[1..], key, id, f)
  }

  /** `s.reduce((sum, x) => sum + f(x), 0)`. */
  function Sum<T>(s: seq<T>, f: T -> int): int
  {
    if s == [] then 0 else f(s[0]) + Sum(s[1..], f)
  }

  /** Filtering keeps the order of the elements it keeps. */
  lemma {:induction false} FilterIsSubsequence<T>(s: seq<T>, p: T -> bool)
    ensures IsSubsequence(Filter(s, p), s)
  {
    if s != [] {
      FilterIsSubsequence(s[1..], p);
      var r := Filter(s, p);
      if p(s[0]) {
        assert r[0] == s[0] && r[1..] == Filter(s[1..], p);
      } else {
        assert r == Filter(s[1..], p);
      }
    }
  }

  /** Filtering a concatenation filters each part. */
  lemma {:induction false} FilterAppend<T>(s: seq<T>, t: seq<T>, p: T -> bool)
    ensures Filter(s + t, p) == Filter(s, p) + Filter(t, p)
  {
    if s != [] {
      assert (s + t)[0] == s[0] && (s + t)[1..] == s[1..] + t;
      FilterAppend(s[1..], t, p);
    } else {
      assert s + t == t;
    }
  }

  /** When every element passes the test, filtering changes nothing. */
  lemma {:induction false} FilterKeepsAll<T>(s: seq<T>, p: T -> bool)
    requires forall i :: 0 <= i < |s| ==> p(s[i])
    ensures Filter(s, p) == s
  {
    if s != [] {
      FilterKeepsAll(s[1..], p);
      assert [s[0]] + s[1..] == s;
    }
  }

  /** The elements of `s` whose key is `id`: what a delete of `id` drops. */
  function WithKey<T(==), K(==)>(s: seq<T>, key: T -> K, id: K): (r: seq<T>)
    ensures forall i :: 0 <= i < |r| ==> key(r[i]) == id
  {
    Filter(s, x => key(x) == id)
  }

  /** A delete keeps the order of the elements it keeps. */
  lemma WithoutKeepsOrder<T, K>(s: seq<T>, key: T -> K, id: K)
    ensures IsSubsequence(Without(s, key, id), s)
  {
    FilterIsSubsequence(s, x => key(x) != id);
  }

  /** Deleting a key no element carries changes nothing. */
  lemma WithoutAbsent<T, K>(s: seq<T>, key: T -> K, id: K)
    requires forall i :: 0 <= i < |s| ==> key(s[i]) != id
    ensures Without(s, key, id) == s
  {
    FilterKeepsAll(s, x => key(x) != id);
  }

  /** A test and its negation split `s` exactly, duplicates included. */
  lemma {:induction false} FilterPartition<T>(s: seq<T>, p: T -> bool, q: T -> bool)
    requires forall x :: q(x) == !p(x)
    ensures multiset(Filter(s, p)) + multiset(Filter(s, q)) == multiset(s)
  {
    if s != [] {
      FilterPartition(s[1..], p, q);
      var head, tail := [s[0]], s[1..];
      assert s == head + tail;
      assert multiset(s) == multiset(head) + multiset(tail);
      if p(s[0]) {
        assert Filter(s, p) == head + Filter(tail, p);
        assert Filter(s, q) == Filter(tail, q);
      } else {
        assert Filter(s, p) == Filter(tail, p);
        assert Filter(s, q) == head + Filter(tail, q);
      }
    }
  }

  /** Filtering a non-empty list contributes the head's one copy when it
      passes the test, and the filtered tail. */
  lemma FilterConsMultiset<T>(s: seq<T>, p: T -> bool)
    requires s != []
    ensures multiset(Filter(s, p)) == (if p(s[0]) then multiset{s[0]} else multiset{}) + multiset(Filter(s[1..], p))
  {
    if p(s[0]) {
      assert Filter(s, p) == [s[0]] + Filter(s[1..], p);
    }
  }

  /** Filtering keeps every copy of an element that passes the test and no
      copy of one that fails it. */
  lemma {:induction false} FilterMultiplicity<T>(s: seq<T>, p: T -> bool, x: T)
    ensures multiset(Filter(s, p))[x] == if p(x) then multiset(s)[x] else 0
  {
    if s != [] {
      FilterMultiplicity(s[1..], p, x);
      assert s == [s[0]] + s[1..];
      FilterConsMultiset(s, p);
    }
  }

  /** Three tests of which every element passes exactly one split `s`
      exactly, duplicates included. */
  lemma {:induction false} FilterPartition3<T>(s: seq<T>, p: T -> bool, q: T -> bool, r: T -> bool)
    requires forall x :: (p(x) && !q(x) && !r(x)) || (!p(x) && q(x) && !r(x)) || (!p(x) && !q(x) && r(x))
    ensures multiset(Filter(s, p)) + multiset(Filter(s, q)) + multiset(Filter(s, r)) == multiset(s)
  {
    if s != [] {
      FilterPartition3(s[1..], p, q, r);
      assert s == [s[0]] + s[1..];
      FilterConsMultiset(s, p);
      FilterConsMultiset(s, q);
      FilterConsMultiset(s, r);
    }
  }

  /** A delete of `id` drops exactly the elements with key `id`, as many
      times as they occur, and keeps everything else. */
  lemma WithoutRemovesExactly<T, K>(s: seq<T>, key: T -> K, id: K)
    ensures multiset(Without(s, key, id)) + multiset(WithKey(s, key, id)) == multiset(s)
  {
    FilterPartition(s, x => key(x) != id, x => key(x) == id);
  }

  /** Merging into a key that no element carries changes nothing. */
  lemma MergeWhereAbsent<T, K>(s: seq<T>, key: T -> K, id: K, f: T -> T)
    requires forall i :: 0 <= i < |s| ==> key(s[i]) != id
    ensures MergeWhere(s, key, id, f) == s
  {
  }

  /** If merged elements keep the key `id`, deleting `id` after merging
      into `id` is the same as deleting it straight away. */
  lemma {:induction false} WithoutAfterMerge<T, K>(s: seq<T>, key: T -> K, id: K, f: T -> T)
    requires forall x :: key(x) == id ==> key(f(x)) == id
    ensures Without(MergeWhere(s, key, id, f), key, id) == Without(s, key, id)
  {
    if s != [] {
      var m := MergeWhere(s, key, id, f);
      assert m == [m[0]] + MergeWhere(s[1..], key, id, f);
      assert m[1..] == MergeWhere(s[1..], key, id, f);
      WithoutAfterMerge(s[1..], key, id, f);
    }
  }

  /** Appending `x` and then deleting its key gives what deleting that key
      from `s` alone gives. */
  lemma WithoutAppended<T, K>(s: seq<T>, x: T, key: T -> K)
    ensures Without(s + [x], key, key(x)) == Without(s, key, key(x))
  {
    FilterAppend(s, [x], y => key(y) != key(x));
  }

  /** The sum over the elements kept by `p` is the sum over all elements
      where the rejected ones count 0 (`g` is that zeroed term). */
  lemma {:induction false} SumFilter<T>(s: seq<T>, p: T -> bool, f: T -> int, g: T -> int)
    requires forall x :: g(x) == if p(x) then f(x) else 0
    ensures Sum(Filter(s, p), f) == Sum(s, g)
  {
    if s != [] {
      SumFilter(s[1..], p, f, g);
      var r := Filter(s, p);
      if p(s[0]) {
        assert r[0] == s[0] && r[1..] == Filter(s[1..], p);
      } else {
        assert r == Filter(s[1..], p);
      }
    }
  }

  /** A sum of terms each within [lo, hi] is within [lo * n, hi * n]. */
  lemma {:induction false} SumBounds<T>(s: seq<T>, f: T -> int, lo: int, hi: int)
    requires forall i :: 0 <= i < |s| ==> lo <= f(s[i]) <= hi
    ensures lo * |s| <= Sum(s, f) <= hi * |s|
  {
    if s != [] {
      SumBounds(s[1..], f, lo, hi);
    }
  }
}
