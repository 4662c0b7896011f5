/**
 * The sequence operations the stream pipelines are built from: filter, map
 * (called Project here), distinct, and the facts about them that the queries
 * rely on.
 */
module Sequences {

  function Min(a: int, b: int): int { if a <= b then a else b }

  /** The elements of a sequence, as a set. */
  function Elements<T(==)>(s: seq<T>): set<T>
  {
    set x | x in s
  }

  /** No element occurs twice. */
  predicate NoDuplicates<T(==)>(s: seq<T>)
  {
    forall x | x in s :: multiset(s)[x] == 1
  }

  /** `r` is obtained from `s` by deleting elements, keeping the rest in order. */
  predicate IsSubsequence<T(==)>(r: seq<T>, s: seq<T>)
    decreases |s|
  {
    r == [] ||
    (s != [] &&
     ((r[0] == s[0] && IsSubsequence(r[1..], s[1..])) || IsSubsequence(r, s[1..])))
  }

  /** Stream `filter`: the elements satisfying `p`, in encounter order. */
  function Filter<T>(s: seq<T>, p: T -> bool): seq<T>
  {
    if s == [] then []
    else (if p(s[0]) then [s[0]] else []) + Filter(s[1..], p)
  }

  /** Stream `map`: `f` applied to every element, in encounter order. */
  function Project<T, U>(s: seq<T>, f: T -> U): (r: seq<U>)
    ensures |r| == |s| && forall i :: 0 <= i < |s| ==> r[i] == f(s[i])
  {
    seq(|s|, i requires 0 <= i < |s| => f(s[i]))
  }

  /** Each element once, at the place it first occurs: the keys of a count map, listed in first-occurrence order. */
  function Distinct<T(==)>(s: seq<T>): (r: seq<T>)
    ensures NoDuplicates(r)
    ensures Elements(r) == Elements(s)
  {
    if s == [] then []
    else
      var d := Distinct(s[..|s| - 1]);
      var x := s[|s| - 1];
      assert s == s[..|s| - 1] + [x];
      assert multiset(d + [x]) == multiset(d) + multiset{x};
      assert Elements(s) == Elements(s[..|s| - 1]) + {x};
      if x in d then d else d + [x]
  }

  /** The predicate "key(x) equals k", as passed to a stream filter. */
  function KeyIs<T, K(==)>(key: T -> K, k: K): T -> bool
  {
    x => key(x) == k
  }

  /** `i` is the first position of `s` whose element satisfies `p`. */
  predicate IsFirst<T>(s: seq<T>, p: T -> bool, i: int)
  {
    0 <= i < |s| && p(s[i]) && forall j :: 0 <= j < i ==> !p(s[j])
  }

  lemma {:induction false} ProjectAppend<T, U>(s: seq<T>, x: T, f: T -> U)
    ensures Project(s + [x], f) == Project(s, f) + [f(x)]
  {
    assert Project(s + [x], f)[|s|] == f(x);
  }

  /** Filtering a sequence extended at the end: the loop form of a filter. */
  lemma {:induction false} FilterAppend<T>(s: seq<T>, x: T, p: T -> bool)
    ensures Filter(s + [x], p) == Filter(s, p) + (if p(x) then [x] else [])
  {
    var tail := if p(x) then [x] else [];
    if s == [] {
      assert [x][1..] == [];
      assert Filter([x], p) == tail + Filter([], p);
    } else {
      var head := if p(s[0]) then [s[0]] else [];
      assert (s + [x])[0] == s[0];
      assert (s + [x])[1..] == s[1..] + [x];
      assert Filter(s + [x], p) == head + Filter(s[1..] + [x], p);
      FilterAppend(s[1..], x, p);
      assert head + (Filter(s[1..], p) + tail) == (head + Filter(s[1..], p)) + tail;
    }
  }

  /** Each value occurs in the filtered sequence as often as in the input if it passes, otherwise never. */
  lemma {:induction false} FilterCounts<T>(s: seq<T>, p: T -> bool)
    ensures forall x :: multiset(Filter(s, p))[x] == if p(x) then multiset(s)[x] else 0
    ensures forall x :: x in Filter(s, p) <==> x in s && p(x)
  {
    if s != [] {
      FilterCounts(s[1..], p);
      assert s == [s[0]] + s[1..];
      assert multiset(s) == multiset{s[0]} + multiset(s[1..]);
    }
    forall x ensures x in Filter(s, p) <==> x in s && p(x) {
      assert x in Filter(s, p) <==> x in multiset(Filter(s, p));
      assert x in s <==> x in multiset(s);
    }
  }

  /** The filtered sequence keeps the input's order. */
  lemma {:induction false} FilterIsSubsequence<T>(s: seq<T>, p: T -> bool)
    ensures IsSubsequence(Filter(s, p), s)
  {
    if s != [] {
      FilterIsSubsequence(s[1..], p);
      var r := Filter(s, p);
      if p(s[0]) {
        assert r[0] == s[0] && r[1..] == Filter(s[1..], p);
      } else {
        assert r == Filter(s[1..], p);
      }
    }
  }

  /** The filter is empty exactly when nothing passes, and otherwise starts with the first element that passes. */
  lemma {:induction false} FilterFirst<T>(s: seq<T>, p: T -> bool)
    ensures Filter(s, p) == [] <==> forall i :: 0 <= i < |s| ==> !p(s[i])
    ensures Filter(s, p) != [] ==> exists i :: IsFirst(s, p, i) && Filter(s, p)[0] == s[i]
  {
    if s != [] {
      FilterFirst(s[1..], p);
      if p(s[0]) {
        assert IsFirst(s, p, 0);
      } else if Filter(s[1..], p) != [] {
        var i :| IsFirst(s[1..], p, i) && Filter(s[1..], p)[0] == s[1..][i];
        assert IsFirst(s, p, i + 1);
      } else {
        forall i | 0 <= i < |s| ensures !p(s[i]) {
          if i > 0 { assert s[i] == s[1..][i - 1]; }
        }
      }
    }
  }

  /** The elements of a sequence without duplicates are as many as its positions. */
  lemma {:induction false} NoDuplicatesCardinality<T>(s: seq<T>)
    requires NoDuplicates(s)
    ensures |Elements(s)| == |s|
  {
    if s != [] {
      var t := s[1..];
      assert s == [s[0]] + t;
      assert multiset(s) == multiset{s[0]} + multiset(t);
      assert NoDuplicates(t) by {
        forall x | x in t ensures multiset(t)[x] == 1 {
          assert multiset(s)[x] == multiset(t)[x] + (if x == s[0] then 1 else 0);
        }
      }
      assert s[0] !in t by {
        assert multiset(s)[s[0]] == 1 + multiset(t)[s[0]];
      }
      assert Elements(s) == {s[0]} + Elements(t);
      NoDuplicatesCardinality(t);
    }
  }

  /** A sequence has no more distinct elements than positions. */
  lemma {:induction false} ElementsCardinality<T>(s: seq<T>)
    ensures |Elements(s)| <= |s|
  {
    if s != [] {
      var t := s[1..];
      assert s == [s[0]] + t;
      assert Elements(s) == {s[0]} + Elements(t);
      ElementsCardinality(t);
    }
  }

  /** In a sequence without duplicates, different positions hold different elements. */
  lemma NoDuplicatesDistinct<T>(s: seq<T>, i: int, j: int)
    requires NoDuplicates(s) && 0 <= i < j < |s|
    ensures s[i] != s[j]
  {
    assert s == s[..j] + s[j..];
    assert multiset(s) == multiset(s[..j]) + multiset(s[j..]);
    assert s[..j][i] == s[i] && s[j..][0] == s[j];
    assert s[i] in multiset(s[..j]) && s[j] in multiset(s[j..]);
    assert multiset(s)[s[i]] == 1;
  }

  /** A prefix of a sequence without duplicates has none either. */
  lemma PrefixNoDuplicates<T>(s: seq<T>, n: nat)
    requires NoDuplicates(s) && n <= |s|
    ensures NoDuplicates(s[..n])
  {
    assert s == s[..n] + s[n..];
    assert multiset(s) == multiset(s[..n]) + multiset(s[n..]);
    forall x | x in s[..n] ensures multiset(s[..n])[x] == 1 {
      assert x in s;
    }
  }
}
