/**
 * A JavaScript object as the model sees it: the sequence of its own
 * enumerable entries in enumeration order (what `Object.entries` returns).
 * Keys of one object are distinct; the order is kept because the resolver
 * takes the LAST version key and visits dependencies in declaration order.
 */
module Entries {
  import opened Wrappers

  /** `Object.keys(obj)`. */
  function Keys<V>(entries: seq<(string, V)>): seq<string>
  {
    seq(|entries|, i requires 0 <= i < |entries| => entries[i].0)
  }

  /** What every object satisfies: no key occurs twice. */
  predicate DistinctKeys<V>(entries: seq<(string, V)>)
  {
    forall i, j :: 0 <= i < j < |entries| ==> entries[i].0 != entries[j].0
  }

  /** The position of key k, or -1 when the object has no such key. */
  function IndexOf<V>(entries: seq<(string, V)>, k: string): (r: int)
    ensures -1 <= r < |entries|
    ensures r == -1 <==> forall i :: 0 <= i < |entries| ==> entries[i].0 != k
    ensures r >= 0 ==> entries[r].0 == k && forall i :: 0 <= i < r ==> entries[i].0 != k
  {
    if entries == [] then -1
    else if entries[0].0 == k then 0
    else
      var r := IndexOf(entries[1..], k);
      if r == -1 then -1 else r + 1
  }

  /** `obj[k]`, None standing for `undefined`. */
  function Get<V>(entries: seq<(string, V)>, k: string): Option<V>
  {
    var i := IndexOf(entries, k);
    if i == -1 then None else Some(entries[i].1)
  }

  /** `obj[k] = v`: an existing key keeps its place, a new key goes last. */
  function Set<V>(entries: seq<(string, V)>, k: string, v: V): (r: seq<(string, V)>)
    ensures Get(r, k) == Some(v)
    ensures forall k' :: k' != k ==> Get(r, k') == Get(entries, k')
    ensures Get(entries, k).Some? ==> Keys(r) == Keys(entries)
    ensures |entries| <= |r| <= |entries| + 1
    ensures forall i :: 0 <= i < |entries| ==> r[i].0 == entries[i].0
    ensures DistinctKeys(entries) ==> DistinctKeys(r)
  {
    var i := IndexOf(entries, k);
    if i == -1 then
      var r := entries + [(k, v)];
      assert r[|entries|].0 == k;
      assert forall j :: 0 <= j < |entries| ==> r[j] == entries[j];
      assert forall k' :: k' != k ==> IndexOf(r, k') == IndexOf(entries, k') by {
        forall k' | k' != k ensures IndexOf(r, k') == IndexOf(entries, k') {
          IndexOfAppend(entries, (k, v), k');
        }
      }
      r
    else
      var r := entries[i := (k, v)];
      assert forall k' :: k' != k ==> IndexOf(r, k') == IndexOf(entries, k') by {
        forall k' | k' != k ensures IndexOf(r, k') == IndexOf(entries, k') {
          IndexOfSameKeys(entries, r, k');
        }
      }
      IndexOfSameKeys(entries, r, k);
      r
  }

  /** Assigning a key the object has, at position i, replaces that entry in place. */
  lemma SetExisting<V>(entries: seq<(string, V)>, i: nat, k: string, v: V)
    requires i < |entries| && entries[i].0 == k
    requires forall j :: 0 <= j < i ==> entries[j].0 != k
    ensures Set(entries, k, v) == entries[i := (k, v)]
  {
    assert IndexOf(entries, k) == i;
  }

  lemma IndexOfAppend<V>(entries: seq<(string, V)>, e: (string, V), k: string)
    requires e.0 != k
    ensures IndexOf(entries + [e], k) == IndexOf(entries, k)
  {
    var s := entries + [e];
    assert forall i :: 0 <= i < |entries| ==> s[i] == entries[i];
    assert s[|entries|].0 != k;
  }

  lemma IndexOfSameKeys<V>(a: seq<(string, V)>, b: seq<(string, V)>, k: string)
    requires |a| == |b| && forall i :: 0 <= i < |a| ==> a[i].0 == b[i].0
    ensures IndexOf(a, k) == IndexOf(b, k)
  {
  }
}
