/**
 * The collectors behind the aggregations: `groupingBy(key, counting())`
 * (CountBy, the map a HashMap loop builds with containsKey/put), the
 * multimap `put` and `groupingBy(key, mapping(value, toList()))` (GroupBy),
 * and the order in which a HashMap hands out its entries (EntryList).
 */
module Collectors {
  import opened Sequences

  /** One step of the counting loop: a new key starts at 1, a known key goes up by one. */
  function Bump(m: map<string, nat>, k: string): map<string, nat>
  {
    if k !in m then m[k := 1] else m[k := m[k] + 1]
  }

  /** The count of every key of the elements, accumulated element by element in encounter order. */
  function CountBy<T>(s: seq<T>, key: T -> string): map<string, nat>
  {
    if s == [] then map[] else Bump(CountBy(s[..|s| - 1], key), key(s[|s| - 1]))
  }

  /** Multimap `put`: append `v` to the list under `k`, starting an empty one for a new key. */
  function Put(m: map<string, seq<string>>, k: string, v: string): map<string, seq<string>>
  {
    m[k := (if k in m then m[k] else []) + [v]]
  }

  /** The values of the elements grouped under their keys, accumulated element by element in encounter order. */
  function GroupBy<T>(s: seq<T>, key: T -> string, value: T -> string): map<string, seq<string>>
  {
    if s == [] then map[] else Put(GroupBy(s[..|s| - 1], key, value), key(s[|s| - 1]), value(s[|s| - 1]))
  }

  /** Some key of a non-empty map; which one is irrelevant to the sums below. */
  ghost function Pick(s: set<string>): string
    requires s != {}
  {
    var k :| k in s; k
  }

  /** The sum of the values of a map. */
  ghost function Total(m: map<string, nat>): nat
    decreases m.Keys
  {
    if m.Keys == {} then 0
    else
      var k := Pick(m.Keys);
      m[k] + Total(m - {k})
  }

  /** The multiset union of the lists of a map. */
  ghost function Flatten(m: map<string, seq<string>>): multiset<string>
    decreases m.Keys
  {
    if m.Keys == {} then multiset{}
    else
      var k := Pick(m.Keys);
      multiset(m[k]) + Flatten(m - {k})
  }

  /** Total may take out any key first, not only the one Pick chooses. */
  lemma {:induction false} TotalRemove(m: map<string, nat>, k: string)
    requires k in m
    ensures Total(m) == m[k] + Total(m - {k})
    decreases m.Keys
  {
    var p := Pick(m.Keys);
    if p != k {
      TotalRemove(m - {p}, k);
      TotalRemove(m - {k}, p);
      assert m - {p} - {k} == m - {k} - {p};
    }
  }

  /** Flatten may take out any key first, not only the one Pick chooses. */
  lemma {:induction false} FlattenRemove(m: map<string, seq<string>>, k: string)
    requires k in m
    ensures Flatten(m) == multiset(m[k]) + Flatten(m - {k})
    decreases m.Keys
  {
    var p := Pick(m.Keys);
    if p != k {
      FlattenRemove(m - {p}, k);
      FlattenRemove(m - {k}, p);
      assert m - {p} - {k} == m - {k} - {p};
    }
  }

  /** Every step of the counting loop adds exactly one to the sum of the counts. */
  lemma BumpTotal(m: map<string, nat>, k: string)
    ensures Total(Bump(m, k)) == Total(m) + 1
  {
    var b := Bump(m, k);
    TotalRemove(b, k);
    assert b - {k} == m - {k};
    if k in m {
      TotalRemove(m, k);
    } else {
      assert m - {k} == m;
    }
  }

  /** Every multimap put adds exactly its value to the union of the lists. */
  lemma PutFlatten(m: map<string, seq<string>>, k: string, v: string)
    ensures Flatten(Put(m, k, v)) == Flatten(m) + multiset{v}
  {
    if k in m {
      PutFlattenKnown(m, k, v);
    } else {
      PutFlattenNew(m, k, v);
    }
  }

  lemma PutFlattenKnown(m: map<string, seq<string>>, k: string, v: string)
    requires k in m
    ensures Flatten(Put(m, k, v)) == Flatten(m) + multiset{v}
  {
    var b := Put(m, k, v);
    assert b - {k} == m - {k};
    assert multiset(b[k]) == multiset(m[k]) + multiset{v} by {
      assert b[k] == m[k] + [v];
    }
    FlattenRemove(b, k);
    FlattenRemove(m, k);
  }

  lemma PutFlattenNew(m: map<string, seq<string>>, k: string, v: string)
    requires k !in m
    ensures Flatten(Put(m, k, v)) == Flatten(m) + multiset{v}
  {
    var b := Put(m, k, v);
    assert b - {k} == m;
    assert multiset(b[k]) == multiset{v} by {
      assert b[k] == [v];
    }
    FlattenRemove(b, k);
  }

  /**
   * The counts are exactly the multiplicities of the keys: a key is present
   * iff some element has it, and then maps to the number of elements having it.
   */
  lemma {:induction false} CountByCounts<T>(s: seq<T>, key: T -> string)
    ensures forall k :: k in CountBy(s, key) <==> k in Project(s, key)
    ensures forall k :: k in CountBy(s, key) ==> CountBy(s, key)[k] == multiset(Project(s, key))[k] > 0
  {
    if s != [] {
      var t, x := s[..|s| - 1], s[|s| - 1];
      assert s == t + [x];
      CountByCounts(t, key);
      ProjectAppend(t, x, key);
      assert multiset(Project(s, key)) == multiset(Project(t, key)) + multiset{key(x)};
      forall k | k in CountBy(s, key) ensures CountBy(s, key)[k] == multiset(Project(s, key))[k] > 0 {
        if k == key(x) && k !in CountBy(t, key) {
          assert multiset(Project(t, key))[k] == 0;
        }
      }
    }
  }

  /** The counts add up to the number of elements. */
  lemma {:induction false} CountByTotal<T>(s: seq<T>, key: T -> string)
    ensures Total(CountBy(s, key)) == |s|
  {
    if s != [] {
      CountByTotal(s[..|s| - 1], key);
      BumpTotal(CountBy(s[..|s| - 1], key), key(s[|s| - 1]));
    }
  }

  /**
   * Every group is the values of exactly the elements with that key, in
   * encounter order; the keys are exactly the keys of the elements.
   */
  lemma {:induction false} GroupByGroups<T>(s: seq<T>, key: T -> string, value: T -> string)
    ensures forall k :: k in GroupBy(s, key, value) <==> k in Project(s, key)
    ensures forall k :: k in GroupBy(s, key, value) ==>
              GroupBy(s, key, value)[k] == Project(Filter(s, KeyIs(key, k)), value) != []
  {
    if s != [] {
      var t, x := s[..|s| - 1], s[|s| - 1];
      assert s == t + [x];
      GroupByGroups(t, key, value);
      ProjectAppend(t, x, key);
      forall k | k in GroupBy(s, key, value)
        ensures GroupBy(s, key, value)[k] == Project(Filter(s, KeyIs(key, k)), value) != []
      {
        FilterAppend(t, x, KeyIs(key, k));
        if key(x) == k {
          ProjectAppend(Filter(t, KeyIs(key, k)), x, value);
          if k !in GroupBy(t, key, value) {
            FilterFirst(t, KeyIs(key, k));
            assert Filter(t, KeyIs(key, k)) == [];
          }
        }
      }
    }
  }

  /** Every element's value lands in exactly one group: the union of the groups is the multiset of all values. */
  lemma {:induction false} GroupByFlatten<T>(s: seq<T>, key: T -> string, value: T -> string)
    ensures Flatten(GroupBy(s, key, value)) == multiset(Project(s, value))
  {
    if s != [] {
      var t, x := s[..|s| - 1], s[|s| - 1];
      assert s == t + [x];
      GroupByFlatten(t, key, value);
      PutFlatten(GroupBy(t, key, value), key(x), value(x));
      ProjectAppend(t, x, value);
    }
  }

  /**
   * The entries of a map in the order its iterator hands them out. A HashMap
   * promises no order, so the choice of the next key is left open: every key
   * once, in some order.
   */
  method EntryList(m: map<string, nat>) returns (keys: seq<string>)
    ensures NoDuplicates(keys)
    ensures Elements(keys) == m.Keys
  {
    keys := [];
    var rest := m.Keys;
    while rest != {}
      invariant NoDuplicates(keys)
      invariant Elements(keys) !! rest
      invariant Elements(keys) + rest == m.Keys
      decreases rest
    {
      var k :| k in rest;
      assert multiset(keys + [k]) == multiset(keys) + multiset{k};
      assert Elements(keys + [k]) == Elements(keys) + {k};
      keys := keys + [k];
      rest := rest - {k};
    }
  }
}
