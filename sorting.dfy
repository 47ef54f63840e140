/** The stable sort by a numeric key that both front ends rely on:
    `Array.prototype.sort` with a `(a, b) => key(a) - key(b)` comparator and
    Python's `sorted(..., key=...)` / `list.sort(key=...)` are both stable. */
module Sorting {
  import opened Common

  predicate SortedBy<T>(s: seq<T>, key: T -> real) {
    forall i, j :: 0 <= i < j < |s| ==> key(s[i]) <= key(s[j])
  }

  /** An element no greater than any of a sorted list may go in front. */
  lemma ConsSorted<T>(h: T, rest: seq<T>, key: T -> real)
    requires SortedBy(rest, key)
    requires forall k :: 0 <= k < |rest| ==> key(h) <= key(rest[k])
    ensures SortedBy([h] + rest, key)
  {
    var r := [h] + rest;
    forall i, j | 0 <= i < j < |r| ensures key(r[i]) <= key(r[j]) {
      assert r[j] == rest[j - 1];
      if i > 0 {
        assert r[i] == rest[i - 1];
      }
    }
  }

  /** Places `x` in front of the first element whose key is not smaller. */
  function Insert<T>(x: T, s: seq<T>, key: T -> real): seq<T>
  {
    if s == [] || key(x) <= key(s[0]) then [x] + s
    else [s[0]] + Insert(x, s[1..], key)
  }

  /** Insertion sort; an element is placed before the later elements with the
      same key, so ties keep their original order. */
  function SortBy<T>(s: seq<T>, key: T -> real): seq<T>
  {
    if s == [] then []
    else Insert(s[0], SortBy(s[1..], key), key)
  }

  /** Inserting adds exactly `x`. */
  lemma {:induction false} InsertPermutes<T>(x: T, s: seq<T>, key: T -> real)
    ensures multiset(Insert(x, s, key)) == multiset(s) + multiset{x}
    ensures |Insert(x, s, key)| == |s| + 1
  {
    if s != [] && key(s[0]) < key(x) {
      InsertPermutes(x, s[1..], key);
      assert s == [s[0]] + s[1..];
    }
  }

  /** Inserting into a sorted list keeps it sorted, and puts nothing in
      front whose key is below both `x`'s and the old head's. */
  lemma {:induction false} InsertSorted<T>(x: T, s: seq<T>, key: T -> real)
    requires SortedBy(s, key)
    ensures var r := Insert(x, s, key);
      && SortedBy(r, key)
      && forall k :: 0 <= k < |r| ==> key(x) <= key(r[k]) || (|s| > 0 && key(s[0]) <= key(r[k]))
  {
    if s == [] || key(x) <= key(s[0]) {
      ConsSorted(x, s, key);
    } else {
      assert SortedBy(s[1..], key);
      InsertSorted(x, s[1..], key);
      var rest := Insert(x, s[1..], key);
      assert forall k :: 0 <= k < |rest| ==> key(s[0]) <= key(rest[k]) by {
        forall k | 0 <= k < |rest| ensures key(s[0]) <= key(rest[k]) {
          if |s| > 1 { assert key(s[0]) <= key(s[1]); }
        }
      }
      ConsSorted(s[0], rest, key);
    }
  }

  /** The sort's result is in key order and a permutation of its input. */
  lemma SortByPermutes<T>(s: seq<T>, key: T -> real)
    ensures var r := SortBy(s, key);
      SortedBy(r, key) && multiset(r) == multiset(s) && |r| == |s|
  {
    SortByOrdered(s, key);
    SortByMultiset(s, key);
  }

  lemma {:induction false} SortByOrdered<T>(s: seq<T>, key: T -> real)
    ensures SortedBy(SortBy(s, key), key)
  {
    if s != [] {
      SortByOrdered(s[1..], key);
      InsertSorted(s[0], SortBy(s[1..], key), key);
    }
  }

  lemma {:induction false} SortByMultiset<T>(s: seq<T>, key: T -> real)
    ensures multiset(SortBy(s, key)) == multiset(s)
    ensures |SortBy(s, key)| == |s|
  {
    if s != [] {
      SortByMultiset(s[1..], key);
      InsertPermutes(s[0], SortBy(s[1..], key), key);
      assert s == [s[0]] + s[1..];
    }
  }

  /** Sorting keeps exactly the elements it was given. */
  lemma SortByMembers<T>(s: seq<T>, key: T -> real)
    ensures forall x :: x in SortBy(s, key) <==> x in s
  {
    var r := SortBy(s, key);
    SortByPermutes(s, key);
    forall x ensures x in r <==> x in s {
      assert x in r <==> x in multiset(r);
      assert x in s <==> x in multiset(s);
    }
  }

  /** A sequence already in key order is left as it is. */
  lemma {:induction false} SortBySorted<T>(s: seq<T>, key: T -> real)
    requires SortedBy(s, key)
    ensures SortBy(s, key) == s
  {
    if s != [] {
      assert SortedBy(s[1..], key);
      SortBySorted(s[1..], key);
      if |s| > 1 {
        assert key(s[0]) <= key(s[1..][0]);
      }
      assert s == [s[0]] + s[1..];
    }
  }

  /** Sorting twice is sorting once. */
  lemma SortByIdempotent<T>(s: seq<T>, key: T -> real)
    ensures SortBy(SortBy(s, key), key) == SortBy(s, key)
  {
    SortByPermutes(s, key);
    SortBySorted(SortBy(s, key), key);
  }

  /** The head of a non-empty sorted result has the least key of the input. */
  lemma SortByHeadIsLeast<T>(s: seq<T>, key: T -> real)
    requires |s| > 0
    ensures forall x :: x in s ==> key(SortBy(s, key)[0]) <= key(x)
  {
    var r := SortBy(s, key);
    SortByPermutes(s, key);
    SortByMembers(s, key);
    forall x | x in s ensures key(r[0]) <= key(x) {
      assert x in r;
      var k :| 0 <= k < |r| && r[k] == x;
    }
  }

  /** The elements whose key is `c`. */
  function KeyIs<T>(key: T -> real, c: real): T -> bool {
    (x: T) => key(x) == c
  }

  /** Filtering a one-element list. */
  lemma FilterSingle<T>(y: T, p: T -> bool)
    ensures Filter([y], p) == if p(y) then [y] else []
  {
    assert [y][1..] == [];
  }

  /** Inserting `x` puts it in front of every element with the same key. */
  lemma {:induction false} InsertStable<T>(x: T, s: seq<T>, key: T -> real, c: real)
    ensures Filter(Insert(x, s, key), KeyIs(key, c))
         == (if key(x) == c then [x] else []) + Filter(s, KeyIs(key, c))
  {
    var p := KeyIs(key, c);
    FilterSingle(x, p);
    if s == [] || key(x) <= key(s[0]) {
      assert Insert(x, s, key) == [x] + s;
      FilterAppend([x], s, p);
    } else {
      var rest := Insert(x, s[1..], key);
      assert Insert(x, s, key) == [s[0]] + rest;
      InsertStable(x, s[1..], key, c);
      FilterSingle(s[0], p);
      FilterAppend([s[0]], rest, p);
      assert s == [s[0]] + s[1..];
      FilterAppend([s[0]], s[1..], p);
      assert key(x) == c ==> !p(s[0]);
    }
  }

  /** The sort is stable: the elements sharing any one key come out in the
      order they went in. */
  lemma {:induction false} SortByStable<T>(s: seq<T>, key: T -> real, c: real)
    ensures Filter(SortBy(s, key), KeyIs(key, c)) == Filter(s, KeyIs(key, c))
  {
    if s != [] {
      SortByStable(s[1..], key, c);
      InsertStable(s[0], SortBy(s[1..], key), key, c);
      FilterAppend([s[0]], s[1..], KeyIs(key, c));
      assert s == [s[0]] + s[1..];
    }
  }
}
