/**
 * `HashMap<Data, Option<Tensor>>`, the crate's catalog store: the keys in the map's
 * iteration order, and the value of each key.
 */
module NodeMap {
  import opened Wrappers
  import opened Types

  datatype Nodes = Nodes(keys: seq<Data>, vals: map<Data, Option<Tensor>>) {

    /** Every key occurs once in the iteration order, and exactly the keys have values. */
    ghost predicate Valid()
    {
      && (forall i, j :: 0 <= i < j < |keys| ==> keys[i] != keys[j])
      && (forall d :: d in vals <==> d in keys)
    }

    /**
     * `HashMap::insert`: the key now maps to `v`; a new key goes after the existing ones,
     * an existing key keeps its place.
     */
    function Insert(k: Data, v: Option<Tensor>): (r: Nodes)
      ensures r.vals == vals[k := v]
      ensures Valid() ==> r.Valid()
      ensures k in vals ==> r.keys == keys
      ensures k !in vals ==> r.keys == keys + [k]
    {
      if k in vals then Nodes(keys, vals[k := v]) else Nodes(keys + [k], vals[k := v])
    }
  }

  /** `HashMap::new()`. */
  function Empty(): (r: Nodes)
    ensures r.Valid() && r.keys == [] && r.vals == map[]
  {
    Nodes([], map[])
  }

  /** Inserting the same key and value a second time changes nothing. */
  lemma InsertTwice(m: Nodes, k: Data, v: Option<Tensor>)
    ensures m.Insert(k, v).Insert(k, v) == m.Insert(k, v)
  {
  }

  /** Inserting a key with the value it already has changes nothing. */
  lemma InsertExisting(m: Nodes, k: Data, v: Option<Tensor>)
    requires k in m.vals && m.vals[k] == v
    ensures m.Insert(k, v) == m
  {
    assert m.vals[k := v] == m.vals;
  }
}
