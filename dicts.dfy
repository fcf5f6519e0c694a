/** A JavaScript plain object used as a string-keyed record (`Record<string, V>`), as the
    stores keep them in their JSON documents: the entries, and the order in which
    `Object.keys`, `Object.values` and `Object.entries` enumerate them, which is the order
    in which the keys were first inserted. */
module Dicts {
  import opened Wrappers
  import opened Seqs

  datatype Dict<V> = Dict(entries: map<string, V>, keys: seq<string>)

  /** The key list enumerates the entries, each key once. */
  ghost predicate Valid<V>(d: Dict<V>) {
    Distinct(d.keys) && forall k :: k in d.keys <==> k in d.entries
  }

  function Empty<V>(): (d: Dict<V>)
    ensures Valid(d) && d.keys == [] && d.entries == map[]
  {
    Dict(map[], [])
  }

  /** `obj[k]`, with None for a key that is not there. */
  function Get<V>(d: Dict<V>, k: string): Option<V> {
    if k in d.entries then Some(d.entries[k]) else None
  }

  /** `obj[k] = v`: a new key goes to the end of the enumeration order, an existing key keeps
      its place; no other entry changes. */
  function Put<V>(d: Dict<V>, k: string, v: V): (r: Dict<V>)
    requires Valid(d)
    ensures Valid(r)
    ensures Get(r, k) == Some(v)
    ensures forall o :: o != k ==> Get(r, o) == Get(d, o)
    ensures k in d.entries ==> r.keys == d.keys
    ensures k !in d.entries ==> r.keys == d.keys + [k]
  {
    var keys := if k in d.entries then d.keys else d.keys + [k];
    assert Distinct(keys);
    Dict(d.entries[k := v], keys)
  }

  /** `delete obj[k]`: k is gone, every other entry keeps its value and its place. */
  function Remove<V>(d: Dict<V>, k: string): (r: Dict<V>)
    requires Valid(d)
    ensures Valid(r)
    ensures Get(r, k) == None
    ensures forall o :: o != k ==> Get(r, o) == Get(d, o)
    ensures r.keys == Filter(d.keys, x => x != k)
  {
    FilterDistinct(d.keys, x => x != k);
    Dict(d.entries - {k}, Filter(d.keys, x => x != k))
  }

  /** `Object.values(obj)`, in enumeration order. */
  function Values<V>(d: Dict<V>): (vs: seq<V>)
    requires Valid(d)
    ensures |vs| == |d.keys|
    ensures forall i :: 0 <= i < |vs| ==> vs[i] == d.entries[d.keys[i]]
  {
    seq(|d.keys|, i requires 0 <= i < |d.keys| => d.entries[d.keys[i]])
  }

  /** `Object.keys(obj).length` is the number of entries. */
  lemma KeyCount<V>(d: Dict<V>)
    requires Valid(d)
    ensures |d.keys| == |d.entries|
  {
    DistinctCard(d.keys);
    assert Elems(d.keys) == d.entries.Keys;
  }
}
