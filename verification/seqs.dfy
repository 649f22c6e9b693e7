/** The two list idioms every component uses: a list comprehension that keeps
    the elements satisfying a condition (`[x for x in s if p(x)]`), and
    Python's `sorted(s, key=...)`, a STABLE sort (equal keys keep their order,
    also with `reverse=True`).
 */
module Seqs {
  import opened Wrappers

  // ---------------------------------------------------------------------------
  // [x for x in s if p(x)]

  /** The elements of `s` satisfying `p`, in their order in `s`. */
  function Filter<T(!new)>(s: seq<T>, p: T -> bool): (r: seq<T>)
    ensures |r| <= |s|
    ensures forall i :: 0 <= i < |r| ==> p(r[i])
    ensures forall x :: x in r <==> x in s && p(x)
    ensures multiset(r) <= multiset(s)
  {
    if |s| == 0 then []
    else
      assert s == [s[0]] + s[1..];
      if p(s[0]) then [s[0]] + Filter(s[1..], p) else Filter(s[1..], p)
  }

  /** Filtering distributes over concatenation, so the kept elements stay in order. */
  lemma {:induction false} FilterAppend<T(!new)>(a: seq<T>, b: seq<T>, p: T -> bool)
    ensures Filter(a + b, p) == Filter(a, p) + Filter(b, p)
  {
    if |a| == 0 {
      assert a + b == b;
    } else {
      assert (a + b)[0] == a[0];
      assert (a + b)[1..] == a[1..] + b;
      FilterAppend(a[1..], b, p);
    }
  }

  /** Filtering a list whose every element qualifies changes nothing. */
  lemma {:induction false} FilterAll<T(!new)>(s: seq<T>, p: T -> bool)
    requires forall i :: 0 <= i < |s| ==> p(s[i])
    ensures Filter(s, p) == s
  {
    if |s| > 0 {
      FilterAll(s[1..], p);
    }
  }

  /** Filtering a list of which no element qualifies leaves nothing. */
  lemma {:induction false} FilterNone<T(!new)>(s: seq<T>, p: T -> bool)
    requires forall i :: 0 <= i < |s| ==> !p(s[i])
    ensures Filter(s, p) == []
  {
    if |s| > 0 {
      FilterNone(s[1..], p);
    }
  }

  /** The position of the first element satisfying `p`
      (`next(x for x in s if p(x))`, or a loop that stops at the first match). */
  function FirstIndex<T>(s: seq<T>, p: T -> bool): (r: Option<nat>)
    ensures r.Some? ==> r.value < |s| && p(s[r.value]) && forall j :: 0 <= j < r.value ==> !p(s[j])
    ensures r.None? ==> forall j :: 0 <= j < |s| ==> !p(s[j])
  {
    if |s| == 0 then None
    else if p(s[0]) then Some(0)
    else
      match FirstIndex(s[1..], p)
      case None => None
      case Some(i) => Some(i + 1)
  }

  /** Two lists holding the same multiset hold the same elements. */
  lemma SameMultisetSameMembers<T>(a: seq<T>, b: seq<T>)
    requires multiset(a) == multiset(b)
    ensures forall x :: x in a <==> x in b
  {
    forall x
      ensures x in a <==> x in b
    {
      assert x in a <==> x in multiset(a);
      assert x in b <==> x in multiset(b);
    }
  }

  // ---------------------------------------------------------------------------
  // sorted(s, key=key)

  /** `lt` is a strict total order, as Python's `<` is on ints, on strs and on dates. */
  ghost predicate StrictTotalOrder<K(!new)>(lt: (K, K) -> bool) {
    && (forall a :: !lt(a, a))
    && (forall a, b, c :: lt(a, b) && lt(b, c) ==> lt(a, c))
    && (forall a, b :: a != b ==> lt(a, b) || lt(b, a))
  }

  /** No element's key is smaller than the key of an element before it. */
  ghost predicate SortedBy<T, K>(s: seq<T>, key: T -> K, lt: (K, K) -> bool) {
    forall i, j :: 0 <= i < j < |s| ==> !lt(key(s[j]), key(s[i]))
  }

  /** The elements of `s` whose key is `k`, in order: a stable sort leaves this list alone. */
  function KeyClass<T, K(==)>(s: seq<T>, key: T -> K, k: K): seq<T> {
    if |s| == 0 then []
    else if key(s[0]) == k then [s[0]] + KeyClass(s[1..], key, k)
    else KeyClass(s[1..], key, k)
  }

  /** Places `x` in front of the first element whose key is not smaller than its own. */
  function Insert<T, K>(x: T, r: seq<T>, key: T -> K, lt: (K, K) -> bool): seq<T> {
    if |r| == 0 || !lt(key(r[0]), key(x)) then [x] + r
    else [r[0]] + Insert(x, r[1..], key, lt)
  }

  /** `sorted(s, key=key)` with `lt` as the key order: a permutation of `s`,
      ordered by key, in which elements of equal key keep their order in `s`. */
  function SortBy<T, K(==,!new)>(s: seq<T>, key: T -> K, lt: (K, K) -> bool): (r: seq<T>)
    requires StrictTotalOrder(lt)
    ensures multiset(r) == multiset(s)
    ensures SortedBy(r, key, lt)
    ensures forall k :: KeyClass(r, key, k) == KeyClass(s, key, k)
  {
    if |s| == 0 then []
    else
      var rest := SortBy(s[1..], key, lt);
      InsertPermutes(s[0], rest, key, lt);
      InsertOrdered(s[0], rest, key, lt);
      InsertKeyClass(s[0], rest, key, lt);
      assert s == [s[0]] + s[1..];
      Insert(s[0], rest, key, lt)
  }

  /** No element of `s` has a key smaller than `b`. */
  ghost predicate AllAtLeast<T, K>(s: seq<T>, key: T -> K, lt: (K, K) -> bool, b: K) {
    forall i :: 0 <= i < |s| ==> !lt(key(s[i]), b)
  }

  lemma {:induction false} InsertPermutes<T, K>(x: T, r: seq<T>, key: T -> K, lt: (K, K) -> bool)
    ensures multiset(Insert(x, r, key, lt)) == multiset(r) + multiset{x}
  {
    if |r| > 0 && lt(key(r[0]), key(x)) {
      InsertPermutes(x, r[1..], key, lt);
      assert r == [r[0]] + r[1..];
    }
  }

  lemma {:induction false} InsertBound<T, K>(x: T, r: seq<T>, key: T -> K, lt: (K, K) -> bool, b: K)
    requires AllAtLeast(r, key, lt, b) && !lt(key(x), b)
    ensures AllAtLeast(Insert(x, r, key, lt), key, lt, b)
  {
    if |r| > 0 && lt(key(r[0]), key(x)) {
      InsertBound(x, r[1..], key, lt, b);
    }
  }

  lemma {:induction false} InsertOrdered<T, K(!new)>(x: T, r: seq<T>, key: T -> K, lt: (K, K) -> bool)
    requires StrictTotalOrder(lt)
    requires SortedBy(r, key, lt)
    ensures SortedBy(Insert(x, r, key, lt), key, lt)
  {
    var ins := Insert(x, r, key, lt);
    if |r| == 0 || !lt(key(r[0]), key(x)) {
      forall j | 0 < j < |ins|
        ensures !lt(key(ins[j]), key(x))
      {
        assert ins[j] == r[j - 1];
      }
    } else {
      InsertOrdered(x, r[1..], key, lt);
      InsertBound(x, r[1..], key, lt, key(r[0]));
    }
  }

  lemma {:induction false} InsertKeyClass<T, K(!new)>(x: T, r: seq<T>, key: T -> K, lt: (K, K) -> bool)
    requires StrictTotalOrder(lt)
    ensures forall k :: KeyClass(Insert(x, r, key, lt), key, k)
                        == (if key(x) == k then [x] else []) + KeyClass(r, key, k)
  {
    var ins := Insert(x, r, key, lt);
    if |r| == 0 || !lt(key(r[0]), key(x)) {
      assert ins[1..] == r;
    } else {
      InsertKeyClass(x, r[1..], key, lt);
      assert ins[1..] == Insert(x, r[1..], key, lt);
    }
  }

  /** `x` occurs in `s` exactly when it occurs among the elements of its own key. */
  lemma {:induction false} KeyClassMembers<T, K>(s: seq<T>, key: T -> K, x: T)
    ensures x in s <==> x in KeyClass(s, key, key(x))
  {
    if |s| > 0 {
      KeyClassMembers(s[1..], key, x);
      assert s == [s[0]] + s[1..];
    }
  }

  /** Two lists that agree on every key class are both empty or both not. */
  lemma KeyClassesShareEmptiness<T, K>(a: seq<T>, b: seq<T>, key: T -> K)
    requires forall k :: KeyClass(a, key, k) == KeyClass(b, key, k)
    ensures |a| == 0 <==> |b| == 0
  {
    if |a| > 0 {
      assert KeyClass(b, key, key(a[0])) == KeyClass(a, key, key(a[0])) != [];
    }
    if |b| > 0 {
      assert KeyClass(a, key, key(b[0])) == KeyClass(b, key, key(b[0])) != [];
    }
  }

  /** A stable sort has one possible result: two sorted lists that agree on
      every key class are the same list. */
  lemma {:induction false} SortedUnique<T, K(!new)>(a: seq<T>, b: seq<T>, key: T -> K, lt: (K, K) -> bool)
    requires StrictTotalOrder(lt)
    requires SortedBy(a, key, lt) && SortedBy(b, key, lt)
    requires forall k :: KeyClass(a, key, k) == KeyClass(b, key, k)
    ensures a == b
    decreases |a|
  {
    KeyClassesShareEmptiness(a, b, key);
    if |a| > 0 && |b| > 0 {
      var ka, kb := key(a[0]), key(b[0]);
      assert a[0] in b by {
        KeyClassMembers(a, key, a[0]);
        KeyClassMembers(b, key, a[0]);
      }
      assert b[0] in a by {
        KeyClassMembers(b, key, b[0]);
        KeyClassMembers(a, key, b[0]);
      }
      assert ka == kb by {
        var j :| 0 <= j < |b| && b[j] == a[0];
        var i :| 0 <= i < |a| && a[i] == b[0];
        assert j == 0 || !lt(key(b[j]), kb);
        assert i == 0 || !lt(key(a[i]), ka);
      }
      assert a[0] == b[0] by {
        assert KeyClass(a, key, ka)[0] == a[0];
        assert KeyClass(b, key, ka)[0] == b[0];
      }
      forall k
        ensures KeyClass(a[1..], key, k) == KeyClass(b[1..], key, k)
      {
        if k == ka {
          assert KeyClass(a, key, k) == [a[0]] + KeyClass(a[1..], key, k);
          assert KeyClass(b, key, k) == [b[0]] + KeyClass(b[1..], key, k);
          assert KeyClass(a[1..], key, k) == KeyClass(a, key, k)[1..];
          assert KeyClass(b[1..], key, k) == KeyClass(b, key, k)[1..];
        } else {
          assert KeyClass(a, key, k) == KeyClass(a[1..], key, k);
          assert KeyClass(b, key, k) == KeyClass(b[1..], key, k);
        }
      }
      SortedUnique(a[1..], b[1..], key, lt);
      assert a == [a[0]] + a[1..] && b == [b[0]] + b[1..];
    }
  }

  /** Sorting a list that is already sorted leaves it as it is. */
  lemma SortBySorted<T, K(!new)>(s: seq<T>, key: T -> K, lt: (K, K) -> bool)
    requires StrictTotalOrder(lt) && SortedBy(s, key, lt)
    ensures SortBy(s, key, lt) == s
  {
    SortedUnique(SortBy(s, key, lt), s, key, lt);
  }
}
