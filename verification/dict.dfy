/**
 * Python dictionaries keyed by strings that keep their keys in insertion
 * order. Assigning to a key that is already present replaces its value and
 * keeps its place.
 */
module Dicts {

  datatype Dict<V> = Dict(keys: seq<string>, vals: map<string, V>)

  /** Every key is listed once, and exactly the keys of `vals` are listed. */
  ghost predicate Valid<V>(d: Dict<V>) {
    (forall i, j :: 0 <= i < j < |d.keys| ==> d.keys[i] != d.keys[j]) &&
    (forall k :: k in d.vals <==> k in d.keys)
  }

  function Empty<V>(): (d: Dict<V>)
    ensures Valid(d) && |d.keys| == 0
  {
    Dict([], map[])
  }

  /** `d[k] = v` */
  function Put<V>(d: Dict<V>, k: string, v: V): (r: Dict<V>)
    requires Valid(d)
    ensures Valid(r)
    ensures r.vals == d.vals[k := v]
    ensures k in d.vals ==> r.keys == d.keys
    ensures k !in d.vals ==> r.keys == d.keys + [k]
  {
    if k in d.vals then Dict(d.keys, d.vals[k := v]) else Dict(d.keys + [k], d.vals[k := v])
  }

  /** Assigning the value a key already holds changes nothing. */
  lemma PutSame<V>(d: Dict<V>, k: string)
    requires Valid(d) && k in d.vals
    ensures Put(d, k, d.vals[k]) == d
  {
    assert d.vals[k := d.vals[k]] == d.vals;
  }

  /** A second assignment to the same key overwrites the first. */
  lemma PutPut<V>(d: Dict<V>, k: string, a: V, b: V)
    requires Valid(d)
    ensures Put(Put(d, k, a), k, b) == Put(d, k, b)
  {
    assert d.vals[k := a][k := b] == d.vals[k := b];
  }
}
