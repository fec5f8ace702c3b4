/** Python dictionaries keep insertion order, and the backend's errors and
    substitutions depend on it, so a dictionary is an association list.
    Assigning to a key already present keeps its position (as `d[k] = v` does);
    a new key goes at the end. */
module ODict {
  import opened Wrappers

  type Dict<V> = seq<(string, V)>

  /** `list(d)`: the keys in insertion order. */
  function Keys<V>(d: Dict<V>): (ks: seq<string>)
    ensures |ks| == |d|
    ensures forall i :: 0 <= i < |d| ==> ks[i] == d[i].0
  {
    if d == [] then [] else [d[0].0] + Keys(d[1..])
  }

  /** `list(d.values())`. */
  function ValuesOf<V>(d: Dict<V>): (vs: seq<V>)
    ensures |vs| == |d|
    ensures forall i :: 0 <= i < |d| ==> vs[i] == d[i].1
  {
    if d == [] then [] else [d[0].1] + ValuesOf(d[1..])
  }

  /** What every Python dictionary satisfies: no key twice. */
  predicate UniqueKeys<V>(d: Dict<V>) {
    forall i, j :: 0 <= i < j < |d| ==> d[i].0 != d[j].0
  }

  /** `d.get(k)`. */
  function Get<V>(d: Dict<V>, k: string): Option<V> {
    if d == [] then None
    else if d[0].0 == k then Some(d[0].1)
    else Get(d[1..], k)
  }

  /** `d.get(k)` finds a value exactly when `k` is a key, and the value found
      is stored under `k`. */
  lemma {:induction false} GetSpec<V>(d: Dict<V>, k: string)
    ensures Get(d, k).Some? <==> k in Keys(d)
    ensures Get(d, k).Some? ==> exists i :: 0 <= i < |d| && d[i] == (k, Get(d, k).value)
  {
    if d != [] {
      assert Keys(d) == [d[0].0] + Keys(d[1..]);
      if d[0].0 != k {
        GetSpec(d[1..], k);
        if Get(d, k).Some? {
          var i :| 0 <= i < |d[1..]| && d[1..][i] == (k, Get(d, k).value);
          assert d[i + 1] == (k, Get(d, k).value);
        }
      }
    }
  }

  /** `d[k] = v`. */
  function Put<V>(d: Dict<V>, k: string, v: V): Dict<V> {
    if d == [] then [(k, v)]
    else if d[0].0 == k then [(k, v)] + d[1..]
    else [d[0]] + Put(d[1..], k, v)
  }

  /** `d.get(k)` finds a value for every key of `d`. */
  lemma GetKeys<V>(d: Dict<V>)
    ensures forall k :: k in Keys(d) ==> Get(d, k).Some?
  {
    forall k | k in Keys(d) ensures Get(d, k).Some? {
      GetSpec(d, k);
    }
  }

  /** An assigned key keeps its place; a new one goes last. */
  lemma {:induction false} PutKeys<V>(d: Dict<V>, k: string, v: V)
    ensures Keys(Put(d, k, v)) == if k in Keys(d) then Keys(d) else Keys(d) + [k]
  {
    if d != [] {
      assert Keys(d) == [d[0].0] + Keys(d[1..]);
      if d[0].0 != k {
        PutKeys(d[1..], k, v);
        assert Keys(Put(d, k, v)) == [d[0].0] + Keys(Put(d[1..], k, v));
      } else {
        assert Keys(Put(d, k, v)) == [k] + Keys(d[1..]);
      }
    }
  }

  /** After `d[k] = v`, `k` maps to `v` and every other key to what it did. */
  lemma {:induction false} PutGet<V>(d: Dict<V>, k: string, v: V, k': string)
    ensures Get(Put(d, k, v), k') == if k' == k then Some(v) else Get(d, k')
  {
    if d != [] && d[0].0 != k {
      PutGet(d[1..], k, v, k');
      assert Put(d, k, v)[1..] == Put(d[1..], k, v);
    }
  }

  /** Keys stay unique when one is assigned. */
  lemma PutUnique<V>(d: Dict<V>, k: string, v: V)
    requires UniqueKeys(d)
    ensures UniqueKeys(Put(d, k, v))
  {
    var r := Put(d, k, v);
    PutKeys(d, k, v);
    forall i, j | 0 <= i < j < |r| ensures r[i].0 != r[j].0 {
      assert Keys(r)[i] == r[i].0 && Keys(r)[j] == r[j].0;
      if j == |d| {
        assert k !in Keys(d);
        assert Keys(d)[i] == r[i].0;
      } else {
        assert Keys(d)[i] == r[i].0 && Keys(d)[j] == r[j].0;
      }
    }
  }

  /** In a dictionary each key sits at one position, so `Get` finds the pair
      stored at any position. */
  lemma GetAt<V>(d: Dict<V>, i: nat)
    requires UniqueKeys(d) && i < |d|
    ensures Get(d, d[i].0) == Some(d[i].1)
  {
    if i > 0 {
      assert d[0].0 != d[i].0;
      assert d[1..][i - 1] == d[i];
      GetAt(d[1..], i - 1);
    }
  }
  /** After `d[k] = v` the keys are the old ones and `k`. */
  lemma PutHasKey<V>(d: Dict<V>, k: string, v: V, k': string)
    ensures k' in Keys(Put(d, k, v)) <==> k' in Keys(d) || k' == k
  {
    PutKeys(d, k, v);
  }

  /** A slice of the front of a dictionary has unique keys too. */
  lemma UniqueKeysPrefix<V>(d: Dict<V>, n: nat)
    requires UniqueKeys(d) && n <= |d|
    ensures UniqueKeys(d[..n])
  {
    assert forall i :: 0 <= i < n ==> d[..n][i] == d[i];
  }

  /** The keys of the first `n` entries are the first `n` keys. */
  lemma KeysPrefix<V>(d: Dict<V>, n: nat, k: string)
    requires n <= |d|
    ensures k in Keys(d[..n]) <==> exists j :: 0 <= j < n && d[j].0 == k
  {
    if k in Keys(d[..n]) {
      var j :| 0 <= j < n && Keys(d[..n])[j] == k;
      assert d[..n][j] == d[j];
    }
    if exists j :: 0 <= j < n && d[j].0 == k {
      var j :| 0 <= j < n && d[j].0 == k;
      assert Keys(d[..n])[j] == d[..n][j].0 == k;
    }
  }
  /** A key of a dictionary is a key of all but its last entry, or the last. */
  lemma KeysLast<V>(d: Dict<V>, n: nat, k: string)
    requires |d| == n + 1
    ensures k in Keys(d) <==> k in Keys(d[..n]) || k == d[n].0
  {
    var a := Keys(d[..n]);
    var ks := Keys(d);
    forall i | 0 <= i < n
      ensures a[i] == ks[i]
    {
      assert d[..n][i] == d[i];
    }
    assert ks == a + [d[n].0];
  }
}
