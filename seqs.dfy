/** List operations of Python 2 that the modelled code uses on lists of names:
    `list.index`, `list.remove`, membership-based de-duplication. */
module Seqs {

  lemma Assoc<T>(a: seq<T>, b: seq<T>, c: seq<T>)
    ensures (a + b) + c == a + (b + c)
  {
  }

  predicate Distinct<T(==)>(s: seq<T>) {
    forall i, j :: 0 <= i < j < |s| ==> s[i] != s[j]
  }

  /** `s.index(x)`, with -1 where Python raises ValueError. */
  function IndexOf<T(==)>(s: seq<T>, x: T): (r: int)
    ensures -1 <= r < |s|
    ensures r == -1 <==> x !in s
    ensures r >= 0 ==> s[r] == x && x !in s[..r]
  {
    if s == [] then -1
    else if s[0] == x then 0
    else
      var r := IndexOf(s[1..], x);
      assert r >= 0 ==> s[..r + 1] == [s[0]] + s[1..][..r];
      if r == -1 then -1 else r + 1
  }

  /** `s.remove(x)` when `x in s`: the first occurrence is deleted. */
  function RemoveFirst<T(==)>(s: seq<T>, x: T): (r: seq<T>)
    ensures x !in s ==> r == s
    ensures multiset(r) == multiset(s) - multiset{x}
  {
    var i := IndexOf(s, x);
    if i == -1 then s
    else
      assert s == s[..i] + [x] + s[i + 1..];
      s[..i] + s[i + 1..]
  }

  lemma RemoveFirstDistinct<T>(s: seq<T>, x: T)
    requires Distinct(s)
    ensures Distinct(RemoveFirst(s, x)) && x !in RemoveFirst(s, x)
    ensures forall k :: 0 <= k < |s| && s[k] != x ==> s[k] in RemoveFirst(s, x)
  {
    if x in s {
      var i := IndexOf(s, x);
      var r := RemoveFirst(s, x);
      assert |r| == |s| - 1;
      assert forall k :: 0 <= k < |r| ==> r[k] == (if k < i then s[k] else s[k + 1]);
      forall k | 0 <= k < |s| && s[k] != x
        ensures s[k] in r
      {
        if k < i { assert r[k] == s[k]; } else { assert r[k - 1] == s[k]; }
      }
    }
  }

  /** `a` is `b` with some elements deleted and the rest left in their
      order. */
  predicate IsSubsequence<T(==)>(a: seq<T>, b: seq<T>)
    decreases |b|
  {
    if b == [] then a == []
    else (a != [] && a[0] == b[0] && IsSubsequence(a[1..], b[1..])) || IsSubsequence(a, b[1..])
  }

  lemma {:induction false} SubsequenceRefl<T>(s: seq<T>)
    ensures IsSubsequence(s, s)
    decreases |s|
  {
    if s != [] {
      SubsequenceRefl(s[1..]);
    }
  }

  lemma {:induction false} SubsequenceTrans<T>(a: seq<T>, b: seq<T>, c: seq<T>)
    requires IsSubsequence(a, b) && IsSubsequence(b, c)
    ensures IsSubsequence(a, c)
    decreases |c|
  {
    if c != [] {
      if b != [] && b[0] == c[0] && IsSubsequence(b[1..], c[1..]) {
        if a != [] && a[0] == b[0] && IsSubsequence(a[1..], b[1..]) {
          SubsequenceTrans(a[1..], b[1..], c[1..]);
        } else {
          SubsequenceTrans(a, b[1..], c[1..]);
        }
      } else {
        SubsequenceTrans(a, b, c[1..]);
      }
    }
  }

  /** Deleting one position leaves a subsequence. */
  lemma {:induction false} DeleteAtSubsequence<T>(s: seq<T>, i: nat)
    requires i < |s|
    ensures IsSubsequence(s[..i] + s[i + 1..], s)
    decreases i
  {
    var r := s[..i] + s[i + 1..];
    if i == 0 {
      assert r == s[1..];
      SubsequenceRefl(s[1..]);
    } else {
      DeleteAtSubsequence(s[1..], i - 1);
      assert r[0] == s[0];
      assert r[1..] == s[1..][..i - 1] + s[1..][i..];
    }
  }

  /** `s.remove(x)` cuts out exactly the first occurrence of `x`. */
  lemma RemoveFirstCut<T>(s: seq<T>, x: T)
    ensures x in s ==> RemoveFirst(s, x) == s[..IndexOf(s, x)] + s[IndexOf(s, x) + 1..]
  {
  }

  /** `s.remove(x)` keeps the other elements in their order. */
  lemma RemoveFirstSubsequence<T>(s: seq<T>, x: T)
    ensures IsSubsequence(RemoveFirst(s, x), s)
  {
    if x in s {
      RemoveFirstCut(s, x);
      DeleteAtSubsequence(s, IndexOf(s, x));
    } else {
      SubsequenceRefl(s);
    }
  }

  lemma RemoveFirstAbsent<T>(s: seq<T>, x: T, y: T)
    requires y !in s
    ensures y !in RemoveFirst(s, x)
  {
    var r := RemoveFirst(s, x);
    assert multiset(r)[y] <= multiset(s)[y];
  }

  /** The elements of `s` in order of first occurrence, each once: the
      "append if not already present" loop. */
  function Dedupe<T(==)>(s: seq<T>): (r: seq<T>)
    ensures Distinct(r)
    ensures forall i :: 0 <= i < |s| ==> s[i] in r
    ensures forall i :: 0 <= i < |r| ==> r[i] in s
  {
    if s == [] then []
    else
      var r := Dedupe(s[..|s| - 1]);
      var x := s[|s| - 1];
      assert s == s[..|s| - 1] + [x];
      if x in r then r else r + [x]
  }

  lemma IndexOfSnoc<T>(s: seq<T>, x: T, y: T)
    ensures y in s ==> IndexOf(s + [x], y) == IndexOf(s, y)
    ensures y !in s && y == x ==> IndexOf(s + [x], y) == |s|
  {
    var t := s + [x];
    var i := IndexOf(t, y);
    if y in s {
      var j := IndexOf(s, y);
      assert t[j] == y;
      assert t[..j] == s[..j];
    } else if y == x {
      assert t[..|s|] == s;
    }
  }

  /** `Dedupe` lists the elements in the order of their first occurrence. */
  lemma {:induction false} DedupeOrder<T>(s: seq<T>)
    ensures forall i, j :: 0 <= i < j < |Dedupe(s)| ==> IndexOf(s, Dedupe(s)[i]) < IndexOf(s, Dedupe(s)[j])
  {
    if s != [] {
      var init, x := s[..|s| - 1], s[|s| - 1];
      assert s == init + [x];
      DedupeOrder(init);
      var r := Dedupe(init);
      forall y | y in r
        ensures IndexOf(s, y) == IndexOf(init, y)
      {
        IndexOfSnoc(init, x, y);
      }
      if x !in r {
        IndexOfSnoc(init, x, x);
        assert x !in init;
        var r' := r + [x];
        forall i, j | 0 <= i < j < |r'|
          ensures IndexOf(s, r'[i]) < IndexOf(s, r'[j])
        {
          if j == |r| {
            assert r'[i] == r[i] && r[i] in init;
          } else {
            assert r'[i] == r[i] && r'[j] == r[j];
          }
        }
      }
    }
  }
}
