/**
 * A plain JavaScript object (whose keys are strings), as the scorekeeper uses it:
 * the order in which its keys were first assigned (what `Object.keys` and
 * `Object.entries` enumerate) together with what each key currently holds.
 * `{ ...d, [k]: v }` replaces the value of an existing key where it stands and
 * appends a new key at the end; that is `Set` below.
 */
module OrderedDict {
  import opened Wrappers

  datatype Dict<V> = Dict(keys: seq<string>, values: map<string, V>)

  /** `{}`. */
  function Empty<V>(): Dict<V> {
    Dict([], map[])
  }

  /**
   * Every object the program builds has this shape: no key is listed twice, and
   * the listed keys are exactly the ones holding a value.
   */
  predicate Valid<V>(d: Dict<V>) {
    && Distinct(d.keys)
    && (forall k <- d.values :: k in d.keys)
    && (forall k <- d.keys :: k in d.values)
  }

  /** No key is listed twice. */
  predicate Distinct(ks: seq<string>) {
    forall i, j :: 0 <= i < j < |ks| ==> ks[i] != ks[j]
  }

  /** `d[k]`: the value stored under `k`, or `None` for `undefined`. */
  function Get<V>(d: Dict<V>, k: string): (r: Option<V>)
  {
    if k in d.values then Some(d.values[k]) else None
  }

  /** `{ ...d, [k]: v }`. */
  function Set<V>(d: Dict<V>, k: string, v: V): Dict<V> {
    Dict(if k in d.values then d.keys else d.keys + [k], d.values[k := v])
  }

  /**
   * After `{ ...d, [k]: v }`, reading `k` back gives `v`, every other key reads as
   * before, a key already present keeps its place and a new one goes last.
   */
  lemma GetAfterSet<V>(d: Dict<V>, k: string, v: V)
    ensures Get(Set(d, k, v), k) == Some(v)
    ensures forall k' :: k' != k ==> Get(Set(d, k, v), k') == Get(d, k')
    ensures Set(d, k, v).keys == if Get(d, k).Some? then d.keys else d.keys + [k]
  {
  }

  /** Assigning a key keeps an object free of duplicate keys. */
  lemma SetKeepsValid<V>(d: Dict<V>, k: string, v: V)
    requires Valid(d)
    ensures Valid(Set(d, k, v))
  {
  }
}
