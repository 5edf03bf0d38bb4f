/** Python 2's `list.sort(cmp)` for the comparators the overlay code uses.
    Both comparators order by a pair of integers (whether the entry is a
    `.post` script, and its importance), so they are modelled by a key
    and a stable insertion sort; Python guarantees `list.sort` is stable. */
module Sorting {

  datatype Key = Key(major: int, minor: int)

  /** Lexicographic order on keys: the order `cmp` induces on the pairs. */
  predicate KeyLe(a: Key, b: Key) {
    a.major < b.major || (a.major == b.major && a.minor <= b.minor)
  }

  predicate Sorted<T>(s: seq<T>, key: T -> Key) {
    forall i, j :: 0 <= i < j < |s| ==> KeyLe(key(s[i]), key(s[j]))
  }

  /** The elements of `s` whose key is `k`, in their order in `s`. */
  function WithKey<T>(s: seq<T>, key: T -> Key, k: Key): (r: seq<T>)
    ensures |r| <= |s|
  {
    if s == [] then []
    else if key(s[0]) == k then [s[0]] + WithKey(s[1..], key, k)
    else WithKey(s[1..], key, k)
  }

  /** `WithKey` keeps exactly the elements with key `k`. */
  lemma {:induction false} WithKeyMembers<T>(s: seq<T>, key: T -> Key, k: Key)
    ensures forall x :: x in WithKey(s, key, k) <==> x in s && key(x) == k
  {
    if s != [] {
      WithKeyMembers(s[1..], key, k);
      assert s == [s[0]] + s[1..];
    }
  }

  /** `x` placed before the first element whose key is not below its own. */
  function Insert<T>(x: T, s: seq<T>, key: T -> Key): (r: seq<T>)
    ensures multiset(r) == multiset(s) + multiset{x}
  {
    if s == [] then [x]
    else if KeyLe(key(x), key(s[0])) then [x] + s
    else
      assert s == [s[0]] + s[1..];
      [s[0]] + Insert(x, s[1..], key)
  }

  /** Stable sort: the first element is inserted ahead of its equals. */
  function Sort<T>(s: seq<T>, key: T -> Key): (r: seq<T>)
    ensures multiset(r) == multiset(s)
  {
    if s == [] then []
    else
      assert s == [s[0]] + s[1..];
      Insert(s[0], Sort(s[1..], key), key)
  }

  /** Every key in `s` is at least `b`. */
  predicate Above<T>(s: seq<T>, key: T -> Key, b: Key) {
    forall i :: 0 <= i < |s| ==> KeyLe(b, key(s[i]))
  }

  lemma SortedCons<T>(h: T, t: seq<T>, key: T -> Key)
    requires Sorted(t, key) && Above(t, key, key(h))
    ensures Sorted([h] + t, key)
  {
    forall i, j | 0 <= i < j < |[h] + t|
      ensures KeyLe(key(([h] + t)[i]), key(([h] + t)[j]))
    {
      assert ([h] + t)[j] == t[j - 1];
      if i > 0 {
        assert ([h] + t)[i] == t[i - 1];
      }
    }
  }

  lemma {:induction false} InsertAbove<T>(x: T, s: seq<T>, key: T -> Key, b: Key)
    requires Above(s, key, b) && KeyLe(b, key(x))
    ensures Above(Insert(x, s, key), key, b)
  {
    if s != [] && !KeyLe(key(x), key(s[0])) {
      InsertAbove(x, s[1..], key, b);
      var t := Insert(x, s[1..], key);
      assert Insert(x, s, key) == [s[0]] + t;
      assert forall i :: 0 < i < |[s[0]] + t| ==> ([s[0]] + t)[i] == t[i - 1];
    }
  }

  lemma {:induction false} InsertSorted<T>(x: T, s: seq<T>, key: T -> Key)
    requires Sorted(s, key)
    ensures Sorted(Insert(x, s, key), key)
  {
    if s == [] {
    } else if KeyLe(key(x), key(s[0])) {
      assert Above(s, key, key(x));
      SortedCons(x, s, key);
    } else {
      InsertSorted(x, s[1..], key);
      assert Above(s[1..], key, key(s[0]));
      InsertAbove(x, s[1..], key, key(s[0]));
      SortedCons(s[0], Insert(x, s[1..], key), key);
    }
  }

  /** The result of `Sort` is ordered by key. */
  lemma {:induction false} SortSorted<T>(s: seq<T>, key: T -> Key)
    ensures Sorted(Sort(s, key), key)
  {
    if s != [] {
      SortSorted(s[1..], key);
      InsertSorted(s[0], Sort(s[1..], key), key);
    }
  }

  /** Sorting adds no element: what holds of every element still does. */
  lemma SortKeeps<T>(s: seq<T>, key: T -> Key, P: T -> bool)
    requires forall i :: 0 <= i < |s| ==> P(s[i])
    ensures forall i :: 0 <= i < |Sort(s, key)| ==> P(Sort(s, key)[i])
  {
    var r := Sort(s, key);
    forall i | 0 <= i < |r|
      ensures P(r[i])
    {
      assert r[i] in multiset(r);
      var j :| 0 <= j < |s| && s[j] == r[i];
    }
  }

  lemma {:induction false} InsertWithKey<T>(x: T, s: seq<T>, key: T -> Key, k: Key)
    ensures WithKey(Insert(x, s, key), key, k)
         == (if key(x) == k then [x] else []) + WithKey(s, key, k)
  {
    if s == [] {
      assert WithKey([x], key, k) == (if key(x) == k then [x] else []) + WithKey([x][1..], key, k);
    } else if KeyLe(key(x), key(s[0])) {
      assert ([x] + s)[1..] == s;
    } else {
      InsertWithKey(x, s[1..], key, k);
      var r := [s[0]] + Insert(x, s[1..], key);
      assert r[1..] == Insert(x, s[1..], key);
      assert key(s[0]) != key(x);
    }
  }

  /** Stability: elements with equal keys keep their relative order. */
  lemma {:induction false} SortStable<T>(s: seq<T>, key: T -> Key, k: Key)
    ensures WithKey(Sort(s, key), key, k) == WithKey(s, key, k)
  {
    if s != [] {
      SortStable(s[1..], key, k);
      InsertWithKey(s[0], Sort(s[1..], key), key, k);
    }
  }
}
