// The Blackboard object: its dictionaries are fields that every method updates in place.
module Blackboards {
  import opened Wrappers
  import opened NodeStatuses
  import opened NodeDatas
  import opened BoardSpec

  class Blackboard {
    /** The base (tree-wide) memory. */
    var base: map<Key, Value>
    /** The node data of each node memory. */
    var data: map<Scope, map<Key, Value>>
    /** The remapping table of each node memory, in the order the remappings were added (the order this model picks for a Python 2 dict). */
    var remaps: map<Scope, seq<Remap>>
    /** The published status of each node. */
    var status: map<Scope, NodeStatus>

    /** The whole state as a value. */
    function Board(): Board
      reads this
    {
      BoardSpec.Board(base, data, remaps, status)
    }

    ghost predicate Valid()
      reads this
    {
      Consistent(Board())
    }

    constructor()
      ensures Valid() && Board() == Empty
    {
      base := map[];
      data := map[];
      remaps := map[];
      status := map[];
    }

    /** _get_node_memory: creates an empty memory for a node seen for the first time. */
    method NodeMemoryOf(s: Scope)
      requires Valid()
      modifies this
      ensures Valid() && Board() == NodeMemory(old(Board()), s)
    {
      if s !in data {
        data := data[s := map[]];
        remaps := remaps[s := []];
      }
    }

    /**
     * _get_node_data: pulls every remapped key of node s from its source, in
     * table order; a failed get leaves the key as it was.
     */
    method NodeDataOf(s: Scope, fuel: nat)
      requires Valid()
      modifies this
      ensures Valid() && Board() == Materialize(old(Board()), s, fuel)
      decreases fuel, 1
    {
      NodeMemoryOf(s);
      var rs := remaps[s];
      var i := 0;
      while i < |rs|
        invariant 0 <= i <= |rs| && Valid() && s in data
        invariant Pull(Board(), s, rs, i, fuel) == Materialize(old(Board()), s, fuel)
      {
        PullOneStep(s, rs, i, fuel);
        i := i + 1;
      }
    }

    /** One pass of the loop of _get_node_data: get the source value and store it if the get succeeded. */
    method PullOneStep(s: Scope, rs: seq<Remap>, i: nat, fuel: nat)
      requires Valid() && s in data && i < |rs|
      modifies this
      ensures Valid() && s in data && Board() == PullOne(old(Board()), s, rs, i, fuel)
      decreases fuel, 1, 0
    {
      var v := Lookup(rs[i].fromKey, rs[i].fromScope, fuel);
      if v.Ok? {
        data := data[s := data[s][rs[i].toKey := v.value]];
      }
    }

    /** get with a nesting budget: base memory for scope None, else the node's materialized data. */
    method Lookup(k: Key, scope: Option<Scope>, fuel: nat) returns (v: Result<Value>)
      requires Valid()
      modifies this
      ensures Valid() && (Board(), v) == BoardSpec.Lookup(old(Board()), k, scope, fuel)
      decreases fuel, 0
    {
      match scope
      case None =>
        v := if k in base then Ok(base[k]) else Err(KeyError);
      case Some(s) =>
        if fuel == 0 {
          v := Err(RuntimeError);
        } else {
          NodeDataOf(s, fuel - 1);
          v := Read(data[s], k);
        }
    }

    /** get */
    method Get(k: Key, scope: Option<Scope>) returns (v: Result<Value>)
      requires Valid()
      modifies this
      ensures Valid() && (Board(), v) == BoardSpec.Get(old(Board()), k, scope)
    {
      v := Lookup(k, scope, RecursionLimit);
    }

    /** get_memory: the node's data after its remapped keys are pulled. */
    method GetMemory(s: Scope) returns (m: map<Key, Value>)
      requires Valid()
      modifies this
      ensures Valid() && Board() == BoardSpec.GetMemory(old(Board()), s) && m == data[s]
    {
      NodeDataOf(s, RecursionLimit);
      m := data[s];
    }

    /** save */
    method Save(k: Key, v: Value, scope: Option<Scope>)
      requires Valid()
      modifies this
      ensures Valid() && Board() == BoardSpec.Save(old(Board()), k, v, scope)
    {
      match scope
      case None =>
        base := base[k := v];
      case Some(s) =>
        NodeDataOf(s, RecursionLimit);
        data := data[s := data[s][k := v]];
    }

    /** add_remapping: RuntimeError when the target key of the target node is already remapped. */
    method AddRemapping(fromScope: Option<Scope>, fromKey: Key, toScope: Scope, toKey: Key) returns (e: Result<()>)
      requires Valid()
      modifies this
      ensures Valid() && (Board(), e) == BoardSpec.AddRemapping(old(Board()), fromScope, fromKey, toScope, toKey)
    {
      NodeMemoryOf(toScope);
      var rs := remaps[toScope];
      var i := 0;
      while i < |rs|
        invariant 0 <= i <= |rs|
        invariant forall j | 0 <= j < i :: rs[j].toKey != toKey
      {
        if rs[i].toKey == toKey {
          return Err(RuntimeError);
        }
        i := i + 1;
      }
      remaps := remaps[toScope := rs + [Remap(toKey, fromScope, fromKey)]];
      e := Ok(());
    }

    /** get_node_status */
    method GetNodeStatus(s: Scope) returns (st: NodeStatus)
      modifies this
      ensures (Board(), st) == BoardSpec.GetNodeStatus(old(Board()), s)
    {
      if s !in status {
        status := status[s := Default];
      }
      st := status[s];
    }

    /** set_node_status */
    method SetNodeStatus(s: Scope, st: NodeStatus)
      modifies this
      ensures Board() == BoardSpec.SetNodeStatus(old(Board()), s, st)
    {
      status := status[s := st];
    }

    /** clear_node_status */
    method ClearNodeStatus()
      modifies this
      ensures Board() == BoardSpec.ClearNodeStatus(old(Board()))
    {
      status := map[];
    }
  }
}
