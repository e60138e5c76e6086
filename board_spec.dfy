// The Blackboard as values: base memory, per-node memory with remappings, and the status table.
module BoardSpec {
  import opened Wrappers
  import opened NodeStatuses
  import opened NodeDatas

  /** Node memory is keyed by node id. */
  type Scope = nat

  /** A remapping of key toKey of a node to key fromKey of another scope (None: base memory). */
  datatype Remap = Remap(toKey: Key, fromScope: Option<Scope>, fromKey: Key)

  /**
   * base: the base memory; data and remaps: the node data and the remapping
   * table of each node memory (always created together); status: the last
   * published status of each node.
   */
  datatype Board = Board(
    base: map<Key, Value>,
    data: map<Scope, map<Key, Value>>,
    remaps: map<Scope, seq<Remap>>,
    status: map<Scope, NodeStatus>)

  const Empty := Board(map[], map[], map[], map[])

  /**
   * A bound on nested remapped gets, so that a cycle of remappings ends. In
   * Python 2 each nesting level takes several interpreter frames, and going
   * past the interpreter's limit of 1000 frames raises RuntimeError; the model
   * bounds the levels themselves, so the exact depth at which the source fails
   * is not modelled. A get that would go deeper fails with RuntimeError.
   */
  const RecursionLimit: nat := 1000

  predicate UniqueTargets(rs: seq<Remap>)
  {
    forall i, j :: 0 <= i < j < |rs| ==> rs[i].toKey != rs[j].toKey
  }

  /** Node data and remapping table exist together, and no key is remapped twice in one node. */
  predicate Consistent(b: Board)
  {
    b.data.Keys == b.remaps.Keys && forall s | s in b.remaps :: UniqueTargets(b.remaps[s])
  }

  /** r differs from b at most by more node data and by fresh, empty remapping tables. */
  predicate Extends(b: Board, r: Board)
  {
    Consistent(r) && r.base == b.base && r.status == b.status && b.data.Keys <= r.data.Keys
    && (forall x | x in b.remaps :: x in r.remaps && r.remaps[x] == b.remaps[x])
    && (forall x | x in r.remaps && x !in b.remaps :: r.remaps[x] == [])
  }

  /** _get_node_memory: the memory of a node, created empty on first use. */
  function NodeMemory(b: Board, s: Scope): (r: Board)
    requires Consistent(b)
    ensures Extends(b, r) && s in r.data
    ensures s in b.data ==> r == b
    ensures s !in b.data ==> r.data == b.data[s := map[]] && r.remaps == b.remaps[s := []]
  {
    if s in b.data then b
    else b.(data := b.data[s := map[]], remaps := b.remaps[s := []])
  }

  /** NodeData item access: the empty key and '_' keys fail before the key is looked up. */
  function Read(m: map<Key, Value>, k: Key): (r: Result<Value>)
    ensures r.Ok? <==> Plain(k) && k in m
    ensures r.Ok? ==> r.value == m[k]
    ensures r.Err? && |k| == 0 ==> r.error == IndexError
    ensures r.Err? && |k| > 0 && k[0] == '_' ==> r.error == AttributeError
    ensures r.Err? && Plain(k) ==> r.error == KeyError
  {
    if |k| == 0 then Err(IndexError)
    else if k[0] == '_' then Err(AttributeError)
    else if k in m then Ok(m[k])
    else Err(KeyError)
  }

  /**
   * _get_node_data for node s: create the memory if needed, then pull every
   * remapped key from its source in table order. fuel is the nesting left.
   */
  function Materialize(b: Board, s: Scope, fuel: nat): (r: Board)
    requires Consistent(b)
    ensures Extends(b, r) && s in r.data
    decreases fuel, 2
  {
    var b1 := NodeMemory(b, s);
    Pull(b1, s, b1.remaps[s], 0, fuel)
  }

  /** The loop of _get_node_data from the i-th remapping of rs onwards. */
  function Pull(b: Board, s: Scope, rs: seq<Remap>, i: nat, fuel: nat): (r: Board)
    requires Consistent(b) && s in b.data && i <= |rs|
    ensures Extends(b, r) && s in r.data
    decreases fuel, 1, |rs| - i
  {
    if i == |rs| then b
    else Pull(PullOne(b, s, rs, i, fuel), s, rs, i + 1, fuel)
  }

  /** One pass of that loop: get the source value, and store it under the target key if the get succeeded. */
  function PullOne(b: Board, s: Scope, rs: seq<Remap>, i: nat, fuel: nat): (r: Board)
    requires Consistent(b) && s in b.data && i < |rs|
    ensures Extends(b, r) && s in r.data
    decreases fuel, 1, |rs| - i, 0
  {
    var (b1, v) := Lookup(b, rs[i].fromKey, rs[i].fromScope, fuel);
    if v.Ok? then b1.(data := b1.data[s := b1.data[s][rs[i].toKey := v.value]]) else b1
  }

  /**
   * get with a nesting budget: a key of base memory (scope None) or of a node
   * memory, which is materialized first. Both the board after the call and the
   * value or error are returned.
   */
  function Lookup(b: Board, k: Key, scope: Option<Scope>, fuel: nat): (r: (Board, Result<Value>))
    requires Consistent(b)
    ensures Extends(b, r.0)
    ensures scope.None? ==> r.0 == b && r.1 == (if k in b.base then Ok(b.base[k]) else Err(KeyError))
    ensures scope.Some? && fuel == 0 ==> r.0 == b && r.1 == Err(RuntimeError)
    ensures scope.Some? && fuel > 0 ==> scope.value in r.0.data && r.1 == Read(r.0.data[scope.value], k)
    decreases fuel, 0
  {
    match scope
    case None => (b, if k in b.base then Ok(b.base[k]) else Err(KeyError))
    case Some(s) =>
      if fuel == 0 then (b, Err(RuntimeError))
      else
        var b1 := Materialize(b, s, fuel - 1);
        (b1, Read(b1.data[s], k))
  }

  /** get_memory for a node: its materialized node data. */
  function GetMemory(b: Board, s: Scope): (r: Board)
    requires Consistent(b)
    ensures Extends(b, r) && s in r.data
  {
    Materialize(b, s, RecursionLimit)
  }

  /** get: KeyError for a missing key, and the errors of NodeData item access in node scope. */
  function Get(b: Board, k: Key, scope: Option<Scope>): (r: (Board, Result<Value>))
    requires Consistent(b)
    ensures Extends(b, r.0)
    ensures scope.None? ==> r.0 == b
  {
    Lookup(b, k, scope, RecursionLimit)
  }

  /** save: writes base memory, or the node's materialized node data. */
  function Save(b: Board, k: Key, v: Value, scope: Option<Scope>): (r: Board)
    requires Consistent(b)
    ensures Consistent(r) && r.status == b.status && r.remaps.Keys == r.data.Keys
    ensures scope.None? ==> r == b.(base := b.base[k := v])
    ensures scope.Some? ==> scope.value in r.data && k in r.data[scope.value] && r.data[scope.value][k] == v
  {
    match scope
    case None => b.(base := b.base[k := v])
    case Some(s) =>
      var b1 := GetMemory(b, s);
      b1.(data := b1.data[s := b1.data[s][k := v]])
  }

  /** Whether key k of node memory s is already the target of a remapping. */
  predicate IsTarget(b: Board, s: Scope, k: Key)
  {
    s in b.remaps && exists i :: 0 <= i < |b.remaps[s]| && b.remaps[s][i].toKey == k
  }

  /**
   * add_remapping: creates the target's node memory, then refuses a second
   * remapping of the same target key with a RuntimeError.
   */
  function AddRemapping(b: Board, fromScope: Option<Scope>, fromKey: Key, toScope: Scope, toKey: Key)
    : (r: (Board, Result<()>))
    requires Consistent(b)
    ensures Consistent(r.0) && r.0.base == b.base && r.0.status == b.status
    ensures r.1.Err? <==> IsTarget(b, toScope, toKey)
    ensures r.1.Err? ==> r.1.error == RuntimeError && r.0 == NodeMemory(b, toScope)
    ensures r.1.Ok? ==> r.0.data == NodeMemory(b, toScope).data
    ensures r.1.Ok? ==> r.0.remaps == b.remaps[toScope := NodeMemory(b, toScope).remaps[toScope]
                                                         + [Remap(toKey, fromScope, fromKey)]]
  {
    var b1 := NodeMemory(b, toScope);
    var rs := b1.remaps[toScope];
    if exists i :: 0 <= i < |rs| && rs[i].toKey == toKey then (b1, Err(RuntimeError))
    else (b1.(remaps := b1.remaps[toScope := rs + [Remap(toKey, fromScope, fromKey)]]), Ok(()))
  }

  /** get_node_status: the stored status, a fresh PENDING one being stored first when there is none. */
  function GetNodeStatus(b: Board, s: Scope): (r: (Board, NodeStatus))
    ensures s in b.status ==> r == (b, b.status[s])
    ensures s !in b.status ==> r == (b.(status := b.status[s := Default]), Default)
    ensures r.0.status[s] == r.1
  {
    if s in b.status then (b, b.status[s])
    else (b.(status := b.status[s := Default]), Default)
  }

  function SetNodeStatus(b: Board, s: Scope, st: NodeStatus): (r: Board)
    ensures r.status == b.status[s := st] && r.data == b.data && r.remaps == b.remaps && r.base == b.base
  {
    b.(status := b.status[s := st])
  }

  function ClearNodeStatus(b: Board): (r: Board)
    ensures r.status == map[] && r.data == b.data && r.remaps == b.remaps && r.base == b.base
  {
    b.(status := map[])
  }
}
