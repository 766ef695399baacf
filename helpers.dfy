/**
 * utils/helpers.ts: `sortKeys`, which rebuilds an object with its keys in
 * ascending order, and `beautifyJson`, which applies it to the two
 * dependency objects of a manifest. The comparator `localeCompare` is
 * modelled as ordinal (code-point) order on strings.
 */
module Helpers {
  import opened Wrappers
  import opened Entries
  import opened Manifest

  /**
   * a sorts no later than b in code-point order, the order that stands in
   * for `a.localeCompare(b) <= 0`.
   */
  predicate KeyLeq(a: string, b: string)
  {
    a == [] || (b != [] && (a[0] < b[0] || (a[0] == b[0] && KeyLeq(a[1..], b[1..]))))
  }

  lemma {:induction false} KeyLeqTotal(a: string, b: string)
    ensures KeyLeq(a, b) || KeyLeq(b, a)
  {
    if a != [] && b != [] && a[0] == b[0] {
      KeyLeqTotal(a[1..], b[1..]);
    }
  }

  lemma {:induction false} KeyLeqTransitive(a: string, b: string, c: string)
    requires KeyLeq(a, b) && KeyLeq(b, c)
    ensures KeyLeq(a, c)
  {
    if a != [] && a[0] == b[0] && b[0] == c[0] {
      KeyLeqTransitive(a[1..], b[1..], c[1..]);
    }
  }

  lemma {:induction false} KeyLeqAntisymmetric(a: string, b: string)
    requires KeyLeq(a, b) && KeyLeq(b, a)
    ensures a == b
  {
    if a != [] {
      KeyLeqAntisymmetric(a[1..], b[1..]);
      assert a == [a[0]] + a[1..] && b == [b[0]] + b[1..];
    }
  }

  /** Keys in ascending order. */
  predicate SortedByKey<V(==)>(entries: seq<(string, V)>)
  {
    forall i, j :: 0 <= i < j < |entries| ==> KeyLeq(entries[i].0, entries[j].0)
  }

  /** The set of keys of an object. */
  function KeySet<V(==)>(entries: seq<(string, V)>): set<string>
  {
    set e | e in entries :: e.0
  }

  /** Places e in front of the first entry whose key it does not follow. */
  function Insert<V(==)>(e: (string, V), sorted: seq<(string, V)>): (r: seq<(string, V)>)
    requires SortedByKey(sorted)
    ensures multiset(r) == multiset(sorted) + multiset{e}
    ensures SortedByKey(r)
  {
    if sorted == [] || KeyLeq(e.0, sorted[0].0) then
      BoundsAll(e.0, sorted);
      PrependSorted(e, sorted);
      [e] + sorted
    else
      var rest := Insert(e, sorted[1..]);
      KeyLeqTotal(e.0, sorted[0].0);
      assert sorted == [sorted[0]] + sorted[1..];
      LowerBound(sorted[0].0, e, sorted[1..], rest);
      PrependSorted(sorted[0], rest);
      [sorted[0]] + rest
  }

  /** A key that sorts no later than the first key of a sorted object sorts no later than all of them. */
  lemma BoundsAll<V>(lo: string, sorted: seq<(string, V)>)
    requires SortedByKey(sorted)
    requires sorted != [] ==> KeyLeq(lo, sorted[0].0)
    ensures forall x :: x in sorted ==> KeyLeq(lo, x.0)
  {
    forall x | x in sorted ensures KeyLeq(lo, x.0) {
      var j :| 0 <= j < |sorted| && sorted[j] == x;
      if j > 0 {
        KeyLeqTransitive(lo, sorted[0].0, sorted[j].0);
      }
    }
  }

  /** An entry whose key bounds a sorted object can be put in front of it. */
  lemma PrependSorted<V>(h: (string, V), s: seq<(string, V)>)
    requires SortedByKey(s)
    requires forall x :: x in s ==> KeyLeq(h.0, x.0)
    ensures SortedByKey([h] + s)
  {
    var r := [h] + s;
    forall i, j | 0 <= i < j < |r| ensures KeyLeq(r[i].0, r[j].0) {
      assert r[j] == s[j - 1];
      if i == 0 {
        assert s[j - 1] in s;
      } else {
        assert r[i] == s[i - 1];
      }
    }
  }

  /** A lower bound of e and of every key of s bounds every key of s with e inserted. */
  lemma LowerBound<V>(lo: string, e: (string, V), s: seq<(string, V)>, r: seq<(string, V)>)
    requires multiset(r) == multiset(s) + multiset{e}
    requires KeyLeq(lo, e.0)
    requires forall i :: 0 <= i < |s| ==> KeyLeq(lo, s[i].0)
    ensures forall x :: x in r ==> KeyLeq(lo, x.0)
  {
    forall x | x in r ensures KeyLeq(lo, x.0) {
      assert x in multiset(r);
      if x != e {
        assert x in multiset(s);
        var i :| 0 <= i < |s| && s[i] == x;
      }
    }
  }

  /**
   * `sortKeys(obj)`: `Object.fromEntries(Object.entries(obj).sort(...))`.
   * The result holds the same entries, keys ascending.
   */
  function SortKeys<V(==)>(entries: seq<(string, V)>): (r: seq<(string, V)>)
    ensures multiset(r) == multiset(entries)
    ensures SortedByKey(r)
  {
    if entries == [] then []
    else
      assert entries == [entries[0]] + entries[1..];
      Insert(entries[0], SortKeys(entries[1..]))
  }

  /** The output has exactly the input's keys. */
  lemma SortKeysKeySet<V>(entries: seq<(string, V)>)
    ensures KeySet(SortKeys(entries)) == KeySet(entries)
    ensures |SortKeys(entries)| == |entries|
  {
    var r := SortKeys(entries);
    forall k | k in KeySet(r) ensures k in KeySet(entries) {
      var e :| e in r && e.0 == k;
      assert e in multiset(r);
    }
    forall k | k in KeySet(entries) ensures k in KeySet(r) {
      var e :| e in entries && e.0 == k;
      assert e in multiset(entries);
    }
    assert |multiset(r)| == |multiset(entries)|;
  }

  /** In an object with distinct keys, reading a key finds exactly its entry. */
  lemma GetIsMembership<V>(entries: seq<(string, V)>, k: string, v: V)
    requires DistinctKeys(entries)
    ensures Get(entries, k) == Some(v) <==> (k, v) in entries
  {
    if (k, v) in entries {
      var i :| 0 <= i < |entries| && entries[i] == (k, v);
      assert IndexOf(entries, k) == i;
    }
  }

  /** Inserting a key the sorted object does not have keeps the keys distinct. */
  lemma InsertDistinct<V>(e: (string, V), sorted: seq<(string, V)>)
    requires SortedByKey(sorted) && DistinctKeys(sorted) && e.0 !in KeySet(sorted)
    ensures DistinctKeys(Insert(e, sorted))
  {
    var r := Insert(e, sorted);
    forall i, j | 0 <= i < j < |r| ensures r[i].0 != r[j].0 {
      assert r[i] in multiset(r) && r[j] in multiset(r);
      if r[i].0 == r[j].0 {
        KeyLeqTotal(r[i].0, r[j].0);
        InsertPositions(e, sorted, i, j);
      }
    }
  }

  lemma {:induction false} InsertPositions<V>(e: (string, V), sorted: seq<(string, V)>, i: nat, j: nat)
    requires SortedByKey(sorted) && DistinctKeys(sorted) && e.0 !in KeySet(sorted)
    requires i < j < |Insert(e, sorted)|
    ensures Insert(e, sorted)[i].0 != Insert(e, sorted)[j].0
  {
    var r := Insert(e, sorted);
    if sorted == [] || KeyLeq(e.0, sorted[0].0) {
      assert r == [e] + sorted;
      if i == 0 {
        assert sorted[j - 1] in sorted;
      }
    } else {
      var rest := Insert(e, sorted[1..]);
      assert r == [sorted[0]] + rest;
      TailKeys(sorted);
      if i == 0 {
        assert sorted[0] in sorted;
        KeyAbsent(sorted[0].0, e, sorted[1..], rest);
        assert rest[j - 1] in rest;
      } else {
        InsertPositions(e, sorted[1..], i - 1, j - 1);
      }
    }
  }

  /** A key neither e nor s has is not a key of s with e inserted. */
  lemma KeyAbsent<V>(k: string, e: (string, V), s: seq<(string, V)>, r: seq<(string, V)>)
    requires multiset(r) == multiset(s) + multiset{e}
    requires k != e.0 && k !in KeySet(s)
    ensures k !in KeySet(r)
  {
    forall x | x in r ensures x.0 != k {
      assert x in multiset(r);
      if x != e {
        assert x in multiset(s);
      }
    }
  }

  /** Dropping the first entry keeps keys distinct and loses no other key. */
  lemma TailKeys<V>(entries: seq<(string, V)>)
    requires entries != [] && DistinctKeys(entries)
    ensures DistinctKeys(entries[1..])
    ensures KeySet(entries[1..]) <= KeySet(entries)
    ensures entries[0].0 !in KeySet(entries[1..])
  {
    forall x | x in entries[1..] ensures x.0 != entries[0].0 {
      var a :| 0 <= a < |entries[1..]| && entries[1..][a] == x;
      assert entries[a + 1] == x;
    }
    forall x | x in entries[1..] ensures x in entries { }
    forall a, b | 0 <= a < b < |entries[1..]| ensures entries[1..][a].0 != entries[1..][b].0 {
      assert entries[1..][a] == entries[a + 1] && entries[1..][b] == entries[b + 1];
    }
  }

  /** Sorting keeps the keys of an object distinct. */
  lemma {:induction false} SortKeysDistinct<V>(entries: seq<(string, V)>)
    requires DistinctKeys(entries)
    ensures DistinctKeys(SortKeys(entries))
  {
    if entries != [] {
      var tail := entries[1..];
      TailKeys(entries);
      SortKeysDistinct(tail);
      SortKeysKeySet(tail);
      assert entries[0].0 !in KeySet(tail);
      InsertDistinct(entries[0], SortKeys(tail));
    }
  }

  /** Every key of the output maps to the value it had in the input. */
  lemma SortKeysKeepsValues<V>(entries: seq<(string, V)>, k: string)
    requires DistinctKeys(entries)
    ensures Get(SortKeys(entries), k) == Get(entries, k)
  {
    var r := SortKeys(entries);
    SortKeysDistinct(entries);
    match Get(entries, k)
    case Some(v) =>
      GetIsMembership(entries, k, v);
      assert (k, v) in multiset(entries);
      GetIsMembership(r, k, v);
    case None =>
      match Get(r, k)
      case Some(v) =>
        GetIsMembership(r, k, v);
        assert (k, v) in multiset(r);
        GetIsMembership(entries, k, v);
      case None =>
  }

  /** Sorting an already sorted object changes nothing; hence sorting twice is sorting once. */
  lemma {:induction false} SortKeysIdempotent<V>(entries: seq<(string, V)>)
    requires SortedByKey(entries)
    ensures SortKeys(entries) == entries
  {
    if entries != [] {
      var tail := entries[1..];
      assert SortedByKey(tail) by {
        forall a, b | 0 <= a < b < |tail| ensures KeyLeq(tail[a].0, tail[b].0) {
          assert tail[a] == entries[a + 1] && tail[b] == entries[b + 1];
        }
      }
      SortKeysIdempotent(tail);
      assert entries == [entries[0]] + tail;
    }
  }

  /**
   * `beautifyJson(packageJson)`: a missing manifest is left alone;
   * otherwise each of `dependencies` and `devDependencies`, when present,
   * is replaced by a NEW object holding its entries sorted by key
   * (utils/helpers.ts:30-37). The forEach over the two keys is unrolled.
   */
  method BeautifyJson(packageJson: PackageJson?)
    modifies packageJson
    ensures packageJson != null ==> packageJson.otherFields == old(packageJson.otherFields)
    ensures packageJson != null && old(packageJson.dependencies) == null ==>
      packageJson.dependencies == null
    ensures packageJson != null && old(packageJson.dependencies) != null ==>
      && packageJson.dependencies != null && fresh(packageJson.dependencies)
      && packageJson.dependencies.entries == SortKeys(old(packageJson.dependencies.entries))
    ensures packageJson != null && old(packageJson.devDependencies) == null ==>
      packageJson.devDependencies == null
    ensures packageJson != null && old(packageJson.devDependencies) != null ==>
      && packageJson.devDependencies != null && fresh(packageJson.devDependencies)
      && packageJson.devDependencies.entries == SortKeys(old(packageJson.devDependencies.entries))
  {
    if packageJson == null {
      return;
    }
    if packageJson.dependencies != null {
      var sorted := new DepMap(SortKeys(packageJson.dependencies.entries));
      packageJson.dependencies := sorted;
    }
    if packageJson.devDependencies != null {
      var sorted := new DepMap(SortKeys(packageJson.devDependencies.entries));
      packageJson.devDependencies := sorted;
    }
  }
}
