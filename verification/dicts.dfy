/** Python's built-in dict, as the program uses it: lookup, and assignment
    that either overwrites a present key in place or appends a new key at
    the end of insertion order. */
module Dicts {

  datatype Option<+T> = None | Some(value: T)

  /** An insertion-ordered dictionary: `keys` lists every key once, in the
      order of its first insertion, and `values` maps each key to its value. */
  datatype Dict<K(==), V> = Dict(keys: seq<K>, values: map<K, V>) {

    /** Keys are listed without repetition, and exactly the mapped keys are listed. */
    ghost predicate Valid() {
      && (forall i, j :: 0 <= i < j < |keys| ==> keys[i] != keys[j])
      && (forall k | k in values :: k in keys)
      && (forall i | 0 <= i < |keys| :: keys[i] in values)
    }

    /** `d.get(k)`: the value under `k`, or None. */
    function Get(k: K): Option<V> {
      if k in values then Some(values[k]) else None
    }

    /** `d[k] = v`: a present key keeps its place, a new key goes last. */
    function Set(k: K, v: V): (d: Dict<K, V>)
      ensures d.values == values[k := v]
      ensures k in values ==> d.keys == keys
      ensures k !in values ==> d.keys == keys + [k]
    {
      if k in values then Dict(keys, values[k := v]) else Dict(keys + [k], values[k := v])
    }
  }

  /** Assignment keeps the keys listed once each, and exactly the mapped keys listed. */
  lemma SetValid<K, V>(d: Dict<K, V>, k: K, v: V)
    requires d.Valid()
    ensures d.Set(k, v).Valid()
  {
  }

  /** `{}` */
  function EmptyDict<K(==), V>(): (d: Dict<K, V>)
    ensures d.Valid() && d.keys == [] && d.values == map[]
  {
    Dict([], map[])
  }
}
