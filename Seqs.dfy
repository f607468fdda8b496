/**
 * Generic sequence operations shared by the model: an order-preserving
 * filter (JavaScript `Array.prototype.filter`, Django `filter`) and a
 * stable sort by an integer key (`Array.prototype.sort` with a numeric
 * comparator, Django `order_by`).
 */
module Seqs {

  /** The elements of `s` that satisfy `p`, in their order in `s`. */
  function Filter<T>(s: seq<T>, p: T -> bool): (r: seq<T>)
    ensures |r| <= |s|
    ensures multiset(r) <= multiset(s)
  {
    if s == [] then []
    else
      assert s == [s[0]] + s[1..];
      (if p(s[0]) then [s[0]] else []) + Filter(s[1..], p)
  }

  /** An element is kept exactly when it occurs in `s` and satisfies `p`. */
  lemma {:induction false} FilterMembers<T>(s: seq<T>, p: T -> bool, x: T)
    ensures x in Filter(s, p) <==> x in s && p(x)
  {
    if s != [] {
      FilterMembers(s[1..], p, x);
      assert x in s <==> x == s[0] || x in s[1..];
    }
  }

  lemma {:induction false} FilterAppend<T>(a: seq<T>, b: seq<T>, p: T -> bool)
    ensures Filter(a + b, p) == Filter(a, p) + Filter(b, p)
  {
    if a == [] {
      assert a + b == b;
    } else {
      var head := if p(a[0]) then [a[0]] else [];
      assert (a + b)[0] == a[0];
      assert (a + b)[1..] == a[1..] + b;
      FilterAppend(a[1..], b, p);
      calc {
        Filter(a + b, p);
      ==
        head + Filter(a[1..] + b, p);
      ==
        head + (Filter(a[1..], p) + Filter(b, p));
      ==
        (head + Filter(a[1..], p)) + Filter(b, p);
      ==
        Filter(a, p) + Filter(b, p);
      }
    }
  }

  lemma FilterSnoc<T>(s: seq<T>, x: T, p: T -> bool)
    ensures Filter(s + [x], p) == Filter(s, p) + (if p(x) then [x] else [])
  {
    FilterAppend(s, [x], p);
    assert Filter([x], p) == (if p(x) then [x] else []) + Filter([x][1..], p);
  }

  /** A prefix one longer is the shorter prefix and the next element. */
  lemma TakeSnoc<T>(s: seq<T>, k: int)
    requires 0 <= k < |s|
    ensures s[..k + 1] == s[..k] + [s[k]]
  {
  }

  /** Each element is kept as often as it occurs in `s` when it satisfies `p`, and never otherwise. */
  lemma {:induction false} FilterCount<T>(s: seq<T>, p: T -> bool, x: T)
    ensures multiset(Filter(s, p))[x] == if p(x) then multiset(s)[x] else 0
  {
    if s != [] {
      FilterCount(s[1..], p, x);
      assert s == [s[0]] + s[1..];
    }
  }

  /** When no element satisfies `p`, filtering keeps nothing. */
  lemma {:induction false} FilterNone<T>(s: seq<T>, p: T -> bool)
    requires forall i :: 0 <= i < |s| ==> !p(s[i])
    ensures Filter(s, p) == []
  {
    if s != [] {
      FilterNone(s[1..], p);
    }
  }

  lemma FilterSingleton<T>(x: T, p: T -> bool)
    ensures Filter([x], p) == if p(x) then [x] else []
  {
    assert [x][1..] == [];
  }

  /** The selector of the elements both `p` and `q` select. */
  function Both<T>(p: T -> bool, q: T -> bool): T -> bool
  {
    x => p(x) && q(x)
  }

  /** Filtering twice is filtering once by both selectors. */
  lemma {:induction false} FilterFilter<T>(s: seq<T>, p: T -> bool, q: T -> bool)
    ensures Filter(Filter(s, p), q) == Filter(s, Both(p, q))
  {
    if s != [] {
      FilterFilter(s[1..], p, q);
      var x := s[0];
      FilterAppend(if p(x) then [x] else [], Filter(s[1..], p), q);
      FilterSingleton(x, q);
    }
  }

  /** The element selector "key equals k". */
  function KeyIs<T>(key: T -> int, k: int): T -> bool
  {
    x => key(x) == k
  }

  ghost predicate SortedBy<T>(s: seq<T>, key: T -> int)
  {
    forall i, j :: 0 <= i < j < |s| ==> key(s[i]) <= key(s[j])
  }

  /**
   * Inserts `x` before the first element whose key is not smaller than
   * its own, so `x` precedes every element of `s` with an equal key.
   */
  function Insert<T>(x: T, s: seq<T>, key: T -> int): (r: seq<T>)
    ensures |r| == |s| + 1
    ensures multiset(r) == multiset(s) + multiset{x}
  {
    if s == [] then [x]
    else if key(x) <= key(s[0]) then [x] + s
    else
      assert s == [s[0]] + s[1..];
      [s[0]] + Insert(x, s[1..], key)
  }

  /** Stable sort by `key`: insertion sort from the back. */
  function SortBy<T>(s: seq<T>, key: T -> int): (r: seq<T>)
    ensures |r| == |s|
    ensures multiset(r) == multiset(s)
  {
    if s == [] then []
    else
      assert s == [s[0]] + s[1..];
      Insert(s[0], SortBy(s[1..], key), key)
  }

  lemma {:induction false} InsertSorted<T>(x: T, s: seq<T>, key: T -> int)
    requires SortedBy(s, key)
    ensures SortedBy(Insert(x, s, key), key)
  {
    if s != [] && key(x) > key(s[0]) {
      InsertSorted(x, s[1..], key);
      var r := Insert(x, s, key);
      assert r == [s[0]] + Insert(x, s[1..], key);
      forall j | 0 < j < |r| ensures key(r[0]) <= key(r[j]) {
        var y := r[j];
        assert y in multiset(Insert(x, s[1..], key));
        assert y in multiset(s[1..]) + multiset{x};
        if y in multiset(s[1..]) {
          assert y in s[1..];
        }
      }
    }
  }

  /** The sort result is sorted by non-decreasing key. */
  lemma {:induction false} SortBySorted<T>(s: seq<T>, key: T -> int)
    ensures SortedBy(SortBy(s, key), key)
  {
    if s != [] {
      SortBySorted(s[1..], key);
      InsertSorted(s[0], SortBy(s[1..], key), key);
    }
  }

  lemma {:induction false} InsertKeepsKeyClass<T>(x: T, s: seq<T>, key: T -> int, k: int)
    ensures Filter(Insert(x, s, key), KeyIs(key, k))
         == (if key(x) == k then [x] else []) + Filter(s, KeyIs(key, k))
  {
    var p := KeyIs(key, k);
    FilterSingleton(x, p);
    if s == [] {
      assert Insert(x, s, key) == [x];
    } else if key(x) <= key(s[0]) {
      assert Insert(x, s, key) == [x] + s;
      FilterAppend([x], s, p);
    } else {
      InsertKeepsKeyClass(x, s[1..], key, k);
      InsertPassesSmaller(x, s, key, k);
    }
  }

  /** The step of InsertKeepsKeyClass where `x` passes the smaller head of `s`. */
  lemma {:induction false} InsertPassesSmaller<T>(x: T, s: seq<T>, key: T -> int, k: int)
    requires s != [] && key(x) > key(s[0])
    requires Filter(Insert(x, s[1..], key), KeyIs(key, k))
          == (if key(x) == k then [x] else []) + Filter(s[1..], KeyIs(key, k))
    ensures Filter(Insert(x, s, key), KeyIs(key, k))
         == (if key(x) == k then [x] else []) + Filter(s, KeyIs(key, k))
  {
    var p := KeyIs(key, k);
    var y := s[0];
    var rest := Insert(x, s[1..], key);
    assert Insert(x, s, key) == [y] + rest;
    assert [y] + s[1..] == s;
    FilterAppend([y], rest, p);
    FilterAppend([y], s[1..], p);
    FilterSingleton(y, p);
    ConcatShuffle(Filter(Insert(x, s, key), p), Filter([y], p), Filter(rest, p),
                  Filter(s, p), Filter(s[1..], p), if key(x) == k then [x] else []);
  }

  /** Sequence bookkeeping for InsertPassesSmaller: one of `head` and `front` is empty. */
  lemma ConcatShuffle<T>(all: seq<T>, head: seq<T>, rest: seq<T>, whole: seq<T>, tail: seq<T>, front: seq<T>)
    requires all == head + rest && whole == head + tail && rest == front + tail
    requires head == [] || front == []
    ensures all == front + whole
  {
  }

  /**
   * Stability: for every key value, the elements with that key keep the
   * relative order they had in the input.
   */
  lemma {:induction false} SortByStable<T>(s: seq<T>, key: T -> int)
    ensures forall k :: Filter(SortBy(s, key), KeyIs(key, k)) == Filter(s, KeyIs(key, k))
  {
    if s != [] {
      SortByStable(s[1..], key);
      forall k ensures Filter(SortBy(s, key), KeyIs(key, k)) == Filter(s, KeyIs(key, k)) {
        InsertKeepsKeyClass(s[0], SortBy(s[1..], key), key, k);
      }
    }
  }
}
