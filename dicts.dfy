/**
 * A Python `dict` keyed by message types. Besides the mapping it keeps the
 * keys in first-insertion order, which is the order `items()` iterates in:
 * assigning to an existing key keeps its place, a new key goes last.
 */
module Dicts {
  import opened Types

  datatype Dict<V> = Dict(keys: seq<TypeId>, entries: map<TypeId, V>) {

    /** Each key listed once, and exactly the keys of the mapping. */
    ghost predicate Valid() {
      && (forall i, j :: 0 <= i < j < |keys| ==> keys[i] != keys[j])
      && (forall k :: k in entries <==> k in keys)
    }

    /** `d.get(k, default)` */
    function Get(k: TypeId, default: V): V {
      if k in entries then entries[k] else default
    }

    /** `d[k] = v` */
    function Set(k: TypeId, v: V): (d: Dict<V>)
      ensures Valid() ==> d.Valid()
      ensures k in d.entries && d.entries[k] == v
      ensures forall k' :: k' != k ==>
        (k' in d.entries <==> k' in entries) && (k' in entries ==> d.entries[k'] == entries[k'])
      ensures Valid() ==> d.keys == if k in entries then keys else keys + [k]
    {
      if k in keys then Dict(keys, entries[k := v]) else Dict(keys + [k], entries[k := v])
    }
  }

  /** `{}` */
  function Empty<V>(): (d: Dict<V>)
    ensures d.Valid() && d.keys == [] && d.entries == map[]
  {
    Dict([], map[])
  }

  /** `l = d.get(k, []); l.append(v); d[k] = l` */
  function AppendTo<V>(d: Dict<seq<V>>, k: TypeId, v: V): (r: Dict<seq<V>>)
    ensures d.Valid() ==> r.Valid()
    ensures k in r.entries && r.entries[k] == d.Get(k, []) + [v]
    ensures forall k' :: k' != k ==>
      (k' in r.entries <==> k' in d.entries) && (k' in d.entries ==> r.entries[k'] == d.entries[k'])
    ensures d.Valid() ==> r.keys == if k in d.entries then d.keys else d.keys + [k]
  {
    d.Set(k, d.Get(k, []) + [v])
  }
}
