// NodeData: the key/value memory of one node.
module NodeDatas {

  type Key = string

  /** The values node data holds in this model: Python's None, integers and strings. */
  datatype Value = Nothing | Num(n: int) | Str(s: string)

  /** Item access goes through attribute lookup: the empty key and keys starting with '_' are refused. */
  predicate Plain(k: Key)
  {
    |k| > 0 && k[0] != '_'
  }

  predicate Distinct(ks: seq<Key>)
  {
    forall i, j :: 0 <= i < j < |ks| ==> ks[i] != ks[j]
  }

  class NodeData {
    /** The stored items. */
    var items: map<Key, Value>
    /**
     * The keys in insertion order. A Python 2 dict lists its keys in an
     * arbitrary order; insertion order is the order this model picks.
     */
    var order: seq<Key>

    ghost predicate Valid()
      reads this
    {
      (forall k :: k in items <==> k in order) && Distinct(order)
    }

    constructor()
      ensures Valid() && items == map[] && order == []
    {
      items := map[];
      order := [];
    }

    /** `key in nodedata` */
    predicate Contains(k: Key)
      reads this
    {
      k in items
    }

    /** The keys, each once, in the order the model keeps. */
    method Keys() returns (ks: seq<Key>)
      requires Valid()
      ensures ks == order
      ensures forall k :: k in ks <==> Contains(k)
      ensures Distinct(ks)
    {
      ks := order;
    }

    /** Reads a key; a missing key is first stored with the default value. */
    method GetData(k: Key, default: Value) returns (v: Value)
      requires Valid()
      modifies this
      ensures Valid()
      ensures v == (if k in old(items) then old(items)[k] else default)
      ensures items == old(items)[k := v]
      ensures order == (if k in old(items) then old(order) else old(order) + [k])
    {
      if k !in items {
        items := items[k := default];
        order := order + [k];
      }
      v := items[k];
    }

    /** Stores a value; a new key goes to the end of the model's key order, an old one keeps its place. */
    method SetData(k: Key, v: Value)
      requires Valid()
      modifies this
      ensures Valid()
      ensures items == old(items)[k := v]
      ensures order == (if k in old(items) then old(order) else old(order) + [k])
    {
      if k !in items {
        order := order + [k];
      }
      items := items[k := v];
    }
  }
}
