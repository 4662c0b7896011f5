/**
 * Ranking keys by their counts: the descending sort by entry value
 * (`Collections.sort` with a reversed value comparator, or
 * `sorted(comparingByValue(reverseOrder()))`), `limit(n)`, and what it means
 * for a list to be a top-n of a frequency table.
 */
module Ranking {
  import opened Sequences

  /** The count of a key, 0 for a key the table does not have. */
  function CountOf<K>(counts: map<K, nat>, k: K): nat
  {
    if k in counts then counts[k] else 0
  }

  /** Non-increasing in count from left to right. */
  predicate SortedByCount<K>(s: seq<K>, counts: map<K, nat>)
  {
    forall i, j :: 0 <= i < j < |s| ==> CountOf(counts, s[i]) >= CountOf(counts, s[j])
  }

  /**
   * Insert `k` into a list sorted by descending count, before the first key
   * whose count is not larger than its own. Inserting the keys from last to
   * first in this way keeps equal-count keys in their original order, as the
   * stable sorts of the Java library do.
   */
  function Insert<K>(k: K, s: seq<K>, counts: map<K, nat>): seq<K>
  {
    if s == [] || CountOf(counts, s[0]) <= CountOf(counts, k) then [k] + s
    else [s[0]] + Insert(k, s[1..], counts)
  }

  /** Stable sort by descending count. */
  function SortByCount<K>(s: seq<K>, counts: map<K, nat>): seq<K>
  {
    if s == [] then [] else Insert(s[0], SortByCount(s[1..], counts), counts)
  }

  /** Stream `limit(n)`: the first `n` elements, or all of them if there are fewer. */
  function Take<T>(s: seq<T>, n: nat): (r: seq<T>)
    ensures |r| == Min(n, |s|) && r == s[..|r|]
  {
    if |s| <= n then s else s[..n]
  }

  /** The entries, sorted by descending count, limited to the first `n`. */
  function TopK<K>(counts: map<K, nat>, entries: seq<K>, n: nat): seq<K>
  {
    Take(SortByCount(entries, counts), n)
  }

  /**
   * `r` is a top-`n` of the frequency table `counts`: as many keys as `n`
   * allows, no key twice, only keys of the table, in non-increasing order of
   * count, and no key left out counts more than any key taken.
   */
  predicate IsTopK<K>(r: seq<K>, counts: map<K, nat>, n: nat)
  {
    && |r| == Min(n, |counts|)
    && NoDuplicates(r)
    && (forall i :: 0 <= i < |r| ==> r[i] in counts)
    && SortedByCount(r, counts)
    && (forall w, i :: w in counts && w !in r && 0 <= i < |r| ==> CountOf(counts, w) <= CountOf(counts, r[i]))
  }

  /** Every key of `s` counts at most `c`. */
  predicate AllAtMost<K>(s: seq<K>, counts: map<K, nat>, c: nat)
  {
    forall i :: 0 <= i < |s| ==> CountOf(counts, s[i]) <= c
  }

  lemma SortedCons<K>(x: K, s: seq<K>, counts: map<K, nat>)
    requires SortedByCount(s, counts) && AllAtMost(s, counts, CountOf(counts, x))
    ensures SortedByCount([x] + s, counts)
  {
    var r := [x] + s;
    forall i, j | 0 <= i < j < |r| ensures CountOf(counts, r[i]) >= CountOf(counts, r[j]) {
      assert r[j] == s[j - 1];
      if i > 0 {
        assert r[i] == s[i - 1];
      }
    }
  }

  lemma {:induction false} InsertAtMost<K>(k: K, s: seq<K>, counts: map<K, nat>, c: nat)
    requires AllAtMost(s, counts, c) && CountOf(counts, k) <= c
    ensures AllAtMost(Insert(k, s, counts), counts, c)
  {
    if s != [] && CountOf(counts, s[0]) > CountOf(counts, k) {
      InsertAtMost(k, s[1..], counts, c);
    }
  }

  /** Inserting adds exactly the one key. */
  lemma {:induction false} InsertPermutes<K>(k: K, s: seq<K>, counts: map<K, nat>)
    ensures multiset(Insert(k, s, counts)) == multiset(s) + multiset{k}
  {
    if s != [] && CountOf(counts, s[0]) > CountOf(counts, k) {
      InsertPermutes(k, s[1..], counts);
      assert s == [s[0]] + s[1..];
    }
  }

  /** Inserting keeps the order sorted. */
  lemma {:induction false} InsertSorted<K>(k: K, s: seq<K>, counts: map<K, nat>)
    requires SortedByCount(s, counts)
    ensures SortedByCount(Insert(k, s, counts), counts)
  {
    if s == [] || CountOf(counts, s[0]) <= CountOf(counts, k) {
      SortedCons(k, s, counts);
    } else {
      var t := s[1..];
      assert SortedByCount(t, counts) && AllAtMost(t, counts, CountOf(counts, s[0])) by {
        forall i, j | 0 <= i < j < |t| ensures CountOf(counts, t[i]) >= CountOf(counts, t[j]) {
          assert t[i] == s[i + 1] && t[j] == s[j + 1];
        }
        forall i | 0 <= i < |t| ensures CountOf(counts, t[i]) <= CountOf(counts, s[0]) {
          assert t[i] == s[i + 1];
        }
      }
      InsertSorted(k, t, counts);
      InsertAtMost(k, t, counts, CountOf(counts, s[0]));
      SortedCons(s[0], Insert(k, t, counts), counts);
    }
  }

  /** The sort yields a permutation of its input, sorted by descending count. */
  lemma {:induction false} SortByCountSorted<K>(s: seq<K>, counts: map<K, nat>)
    ensures multiset(SortByCount(s, counts)) == multiset(s)
    ensures SortedByCount(SortByCount(s, counts), counts)
  {
    if s != [] {
      SortByCountSorted(s[1..], counts);
      InsertPermutes(s[0], SortByCount(s[1..], counts), counts);
      InsertSorted(s[0], SortByCount(s[1..], counts), counts);
      assert s == [s[0]] + s[1..];
    }
  }

  /** `x` occurs in `t` at some position before an occurrence of `y`. */
  ghost predicate Before<K>(t: seq<K>, x: K, y: K)
  {
    exists p, q :: 0 <= p < q < |t| && t[p] == x && t[q] == y
  }

  /** An inserted key lands before every key whose count is not larger. */
  lemma {:induction false} InsertBefore<K>(k: K, t: seq<K>, counts: map<K, nat>, y: K)
    requires y in t && k != y && CountOf(counts, y) <= CountOf(counts, k)
    ensures Before(Insert(k, t, counts), k, y)
  {
    var q :| 0 <= q < |t| && t[q] == y;
    if CountOf(counts, t[0]) <= CountOf(counts, k) {
      var r := [k] + t;
      assert r[0] == k && r[q + 1] == y;
    } else {
      assert y in t[1..] by {
        assert q != 0 && t[1..][q - 1] == y;
      }
      InsertBefore(k, t[1..], counts, y);
      var u := Insert(k, t[1..], counts);
      var p', q' :| 0 <= p' < q' < |u| && u[p'] == k && u[q'] == y;
      var r := [t[0]] + u;
      assert r[p' + 1] == k && r[q' + 1] == y;
    }
  }

  /** Inserting a key keeps the relative order of the keys already there. */
  lemma {:induction false} InsertKeepsBefore<K>(k: K, t: seq<K>, counts: map<K, nat>, a: K, b: K)
    requires Before(t, a, b)
    ensures Before(Insert(k, t, counts), a, b)
  {
    var p, q :| 0 <= p < q < |t| && t[p] == a && t[q] == b;
    if CountOf(counts, t[0]) <= CountOf(counts, k) {
      var r := [k] + t;
      assert r[p + 1] == a && r[q + 1] == b;
    } else {
      var u := Insert(k, t[1..], counts);
      var r := [t[0]] + u;
      if p == 0 {
        assert b in u by {
          assert t[1..][q - 1] == b;
          InsertPermutes(k, t[1..], counts);
          assert b in multiset(u);
        }
        var q' :| 0 <= q' < |u| && u[q'] == b;
        assert r[0] == a && r[q' + 1] == b;
      } else {
        assert Before(t[1..], a, b) by {
          assert t[1..][p - 1] == a && t[1..][q - 1] == b;
        }
        InsertKeepsBefore(k, t[1..], counts, a, b);
        var p', q' :| 0 <= p' < q' < |u| && u[p'] == a && u[q'] == b;
        assert r[p' + 1] == a && r[q' + 1] == b;
      }
    }
  }

  /**
   * The sort is stable: of two different keys with equal counts, the one that
   * comes first in the input comes first in the output.
   */
  lemma {:induction false} SortByCountStable<K>(s: seq<K>, counts: map<K, nat>, i: nat, j: nat)
    requires i < j < |s| && s[i] != s[j]
    requires CountOf(counts, s[i]) == CountOf(counts, s[j])
    ensures Before(SortByCount(s, counts), s[i], s[j])
  {
    var t := SortByCount(s[1..], counts);
    if i == 0 {
      assert s[j] in t by {
        SortByCountSorted(s[1..], counts);
        assert s[1..][j - 1] == s[j];
        assert s[j] in multiset(s[1..]);
      }
      InsertBefore(s[0], t, counts, s[j]);
    } else {
      assert s[1..][i - 1] == s[i] && s[1..][j - 1] == s[j];
      SortByCountStable(s[1..], counts, i - 1, j - 1);
      InsertKeepsBefore(s[0], t, counts, s[i], s[j]);
    }
  }

  /**
   * Whatever order the entries come in, sorting them by descending count and
   * taking the first `n` yields a top-`n` of the table.
   */
  lemma TopKIsTopK<K>(counts: map<K, nat>, entries: seq<K>, n: nat)
    requires NoDuplicates(entries) && Elements(entries) == counts.Keys
    ensures IsTopK(TopK(counts, entries, n), counts, n)
  {
    var sorted := SortByCount(entries, counts);
    assert multiset(sorted) == multiset(entries) && SortedByCount(sorted, counts) by {
      SortByCountSorted(entries, counts);
    }
    assert NoDuplicates(sorted) && Elements(sorted) == counts.Keys by {
      forall x | x in sorted ensures multiset(sorted)[x] == 1 {
        assert x in multiset(entries);
      }
      forall x ensures x in sorted <==> x in entries {
        assert x in sorted <==> x in multiset(sorted);
        assert x in entries <==> x in multiset(entries);
      }
    }
    assert |sorted| == |counts| by {
      assert |multiset(sorted)| == |multiset(entries)|;
      NoDuplicatesCardinality(entries);
    }
    PrefixIsTopK(sorted, counts, n);
  }

  /** The first `n` keys of a sorted list of all the table's keys, each once, are a top-`n`. */
  lemma PrefixIsTopK<K>(sorted: seq<K>, counts: map<K, nat>, n: nat)
    requires NoDuplicates(sorted) && Elements(sorted) == counts.Keys && |sorted| == |counts|
    requires SortedByCount(sorted, counts)
    ensures IsTopK(Take(sorted, n), counts, n)
  {
    var m := Min(n, |sorted|);
    var r := Take(sorted, n);
    assert r == sorted[..m];
    PrefixNoDuplicates(sorted, m);
    PrefixSorted(sorted, counts, r);
    PrefixOutsiders(sorted, counts, r);
  }

  /** A prefix of a list sorted by count holds keys of the table and is sorted by count. */
  lemma PrefixSorted<K>(sorted: seq<K>, counts: map<K, nat>, r: seq<K>)
    requires Elements(sorted) == counts.Keys && SortedByCount(sorted, counts)
    requires |r| <= |sorted| && r == sorted[..|r|]
    ensures forall i :: 0 <= i < |r| ==> r[i] in counts
    ensures SortedByCount(r, counts)
  {
    forall i | 0 <= i < |r| ensures r[i] in counts {
      assert r[i] == sorted[i];
    }
    forall i, j | 0 <= i < j < |r| ensures CountOf(counts, r[i]) >= CountOf(counts, r[j]) {
      assert r[i] == sorted[i] && r[j] == sorted[j];
    }
  }

  /** A key left out of a prefix of a list sorted by count counts no more than any key in the prefix. */
  lemma PrefixOutsiders<K>(sorted: seq<K>, counts: map<K, nat>, r: seq<K>)
    requires Elements(sorted) == counts.Keys && SortedByCount(sorted, counts)
    requires |r| <= |sorted| && r == sorted[..|r|]
    ensures forall w, i :: w in counts && w !in r && 0 <= i < |r| ==> CountOf(counts, w) <= CountOf(counts, r[i])
  {
    forall w, i | w in counts && w !in r && 0 <= i < |r| ensures CountOf(counts, w) <= CountOf(counts, r[i]) {
      assert w in Elements(sorted);
      var j :| 0 <= j < |sorted| && sorted[j] == w;
      assert j >= |r| by {
        assert forall t :: 0 <= t < |r| ==> r[t] == sorted[t];
      }
      assert r[i] == sorted[i];
    }
  }

  /**
   * Two top-`n` lists of the same table differ only in the order of keys with
   * equal counts: they have the same length and the same count at every position.
   */
  lemma TopKUpToTies<K>(r1: seq<K>, r2: seq<K>, counts: map<K, nat>, n: nat)
    requires IsTopK(r1, counts, n) && IsTopK(r2, counts, n)
    ensures |r1| == |r2|
    ensures forall i :: 0 <= i < |r1| ==> CountOf(counts, r1[i]) == CountOf(counts, r2[i])
  {
    forall i | 0 <= i < |r1| ensures CountOf(counts, r1[i]) == CountOf(counts, r2[i]) {
      NotLargerAt(r1, r2, counts, n, i);
      NotLargerAt(r2, r1, counts, n, i);
    }
  }

  /** At any position, the key of one top-`n` list counts no more than the key of another. */
  lemma NotLargerAt<K>(r1: seq<K>, r2: seq<K>, counts: map<K, nat>, n: nat, i: nat)
    requires IsTopK(r1, counts, n) && IsTopK(r2, counts, n) && i < |r1|
    ensures i < |r2| && CountOf(counts, r1[i]) <= CountOf(counts, r2[i])
  {
    // The first i + 1 keys of r1 count at least r1[i]. They cannot all sit
    // among the first i keys of r2, so one of them, x, is left out of r2 or
    // sits at position i or later; either way r2[i] counts at least x.
    var a := r1[..i + 1];
    var b := r2[..i];
    assert |Elements(a)| > |Elements(b)| by {
      PrefixNoDuplicates(r1, i + 1);
      NoDuplicatesCardinality(a);
      ElementsCardinality(b);
    }
    var x := OutsideOf(Elements(a), Elements(b));
    assert CountOf(counts, x) >= CountOf(counts, r1[i]) by {
      var j :| 0 <= j < |a| && a[j] == x;
      assert r1[j] == x;
    }
    assert CountOf(counts, x) <= CountOf(counts, r2[i]) by {
      if x in r2 {
        var m :| 0 <= m < |r2| && r2[m] == x;
        assert m >= i by {
          assert forall t :: 0 <= t < i ==> b[t] == r2[t];
        }
      }
    }
  }

  /** A larger set has an element outside a smaller one. */
  lemma OutsideOf<K>(a: set<K>, b: set<K>) returns (x: K)
    requires |a| > |b|
    ensures x in a && x !in b
  {
    SubsetCardinality(a * b, b);
    assert |a - b| == |a| - |a * b|;
    x :| x in a - b;
  }

  lemma {:induction false} SubsetCardinality<K>(a: set<K>, b: set<K>)
    requires a <= b
    ensures |a| <= |b|
    decreases b
  {
    if a != {} {
      var x :| x in a;
      SubsetCardinality(a - {x}, b - {x});
    }
  }

  /**
   * The worked example: 10 accidents in rain, 5 in snow, 6 in sunny weather
   * and 1 in fog admit exactly one top three, rain, sunny, snow.
   */
  lemma TopThreeExample<K>(rain: K, snow: K, sunny: K, foggy: K, r: seq<K>)
    requires rain != snow && rain != sunny && rain != foggy && snow != sunny && snow != foggy && sunny != foggy
    requires IsTopK(r, map[rain := 10, snow := 5, sunny := 6, foggy := 1], 3)
    ensures r == [rain, sunny, snow]
  {
    var counts := map[rain := 10, snow := 5, sunny := 6, foggy := 1];
    assert |counts| == 4 by {
      assert counts.Keys == {rain, snow, sunny, foggy};
    }
    LeastLeftOut(r, counts, 3, foggy);
    NoDuplicatesDistinct(r, 0, 1);
    NoDuplicatesDistinct(r, 0, 2);
    NoDuplicatesDistinct(r, 1, 2);
    ExampleOrder(rain, snow, sunny, foggy, r[0], r[1], r[2], counts);
    assert r == [r[0], r[1], r[2]];
  }

  /** A key counting strictly less than every other key is left out of any top `n` shorter than the map. */
  lemma LeastLeftOut<K>(r: seq<K>, counts: map<K, nat>, n: nat, f: K)
    requires IsTopK(r, counts, n) && n < |counts|
    requires f in counts
    requires forall k | k in counts && k != f :: CountOf(counts, f) < CountOf(counts, k)
    ensures f !in r
  {
    var w := OutsideOf(counts.Keys, Elements(r)) by {
      ElementsCardinality(r);
    }
    forall i | 0 <= i < |r|
      ensures r[i] != f
    {
      assert CountOf(counts, w) <= CountOf(counts, r[i]);
    }
  }

  lemma ExampleOrder<K>(rain: K, snow: K, sunny: K, foggy: K, a: K, b: K, c: K, counts: map<K, nat>)
    requires rain != snow && rain != sunny && rain != foggy && snow != sunny && snow != foggy && sunny != foggy
    requires counts == map[rain := 10, snow := 5, sunny := 6, foggy := 1]
    requires a in counts && b in counts && c in counts
    requires a != b && a != c && b != c && foggy != a && foggy != b && foggy != c
    requires CountOf(counts, a) >= CountOf(counts, b) >= CountOf(counts, c)
    ensures [a, b, c] == [rain, sunny, snow]
  {
  }
}
