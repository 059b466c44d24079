/** A string-keyed dictionary that remembers the order in which its keys were first
    inserted. This is how a plain JavaScript object behaves for keys such as store ids
    ("R669"), which are neither numeric strings nor "__proto__": `Object.entries` lists
    such keys in first-insertion order, and assigning to an existing key replaces its
    value without moving it. */
module OrderedMaps {
  import opened Common

  datatype OrderedMap<V> = OrderedMap(keys: seq<string>, vals: map<string, V>)
  {
    /** Keys are listed once each, and exactly the keys that have a value are listed. */
    ghost predicate Valid()
    {
      && NoDuplicates(keys)
      && (forall k :: k in vals <==> k in keys)
    }

    function Get(k: string): Option<V>
    {
      if k in vals then Some(vals[k]) else None
    }
  }

  function Empty<V>(): (m: OrderedMap<V>)
    ensures m.Valid() && m.keys == [] && m.vals == map[]
  {
    OrderedMap([], map[])
  }

  /** `obj[k] = v`: replaces the value of an existing key in place, or appends a new key. */
  function Put<V>(m: OrderedMap<V>, k: string, v: V): (r: OrderedMap<V>)
    ensures m.Valid() ==> r.Valid()
    ensures r.vals == m.vals[k := v]
    ensures r.keys == if k in m.vals then m.keys else m.keys + [k]
  {
    if k in m.vals then OrderedMap(m.keys, m.vals[k := v]) else OrderedMap(m.keys + [k], m.vals[k := v])
  }

  /** A second assignment to the same key overrides the first. */
  lemma PutTwice<V>(m: OrderedMap<V>, k: string, v1: V, v2: V)
    ensures Put(Put(m, k, v1), k, v2) == Put(m, k, v2)
  {
  }

  /** Assigning a key the value it already has changes nothing. */
  lemma PutExisting<V>(m: OrderedMap<V>, k: string)
    requires k in m.vals
    ensures Put(m, k, m.vals[k]) == m
  {
    assert m.vals[k := m.vals[k]] == m.vals;
  }

  /** No string is listed twice. */
  predicate NoDuplicates(s: seq<string>)
  {
    forall i, j :: 0 <= i < j < |s| ==> s[i] != s[j]
  }

  /** In a list without duplicates, an element does not occur before its own position. */
  lemma NotBefore(s: seq<string>, n: nat)
    requires NoDuplicates(s) && n < |s|
    ensures s[n] !in s[..n]
  {
    forall i | 0 <= i < n ensures s[..n][i] != s[n] {
      assert s[..n][i] == s[i];
    }
  }

  /** A valid map has as many keys listed as it has values. */
  lemma KeysCardinality<V>(m: OrderedMap<V>)
    requires m.Valid()
    ensures |m.keys| == |m.vals|
  {
    var ks := set k | k in m.keys;
    assert ks == m.vals.Keys;
    DistinctSeqCardinality(m.keys);
  }

  lemma {:induction false} DistinctSeqCardinality(s: seq<string>)
    requires NoDuplicates(s)
    ensures |set k | k in s| == |s|
  {
    if s != [] {
      var init := s[..|s| - 1];
      DistinctSeqCardinality(init);
      assert (set k | k in s) == (set k | k in init) + {s[|s| - 1]};
      assert s[|s| - 1] !in init;
    }
  }
}
