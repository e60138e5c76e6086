// The node lifecycle, the Decorator and Behavior bookkeeping and the branch policies, as functions on a tree of node records.
module TreeSpec {
  import opened Wrappers
  import opened NodeStatuses
  import opened NodeDatas
  import opened BoardSpec
  import Leaves
  import opened Decorators
  import opened Branches

  /** Nodes are told apart by id; a node's id is also its scope on the blackboard. */
  type NodeId = nat

  /** The built-in node classes: a leaf, a decorator over one child, or a behavior over a child list. */
  datatype Kind =
    | LeafNode(leaf: Leaves.LeafKind)
    | DecoratorNode(deco: DecoratorKind, child: NodeId)
    | BehaviorNode(policy: Policy, children: seq<NodeId>)

  /** What a node is: its name and its kind with its children. */
  datatype Shape = Shape(name: string, kind: Kind)

  /**
   * What a node holds between calls: _result, _force_state, the open list of a
   * behavior, Progressor's index, Majority's counters and Random's chosen child.
   */
  datatype Dyn = Dyn(
    result: NodeStatus,
    force: Option<NodeStatus>,
    open: seq<NodeId>,
    index: int,
    numFail: int,
    numSucceed: int,
    chosen: Option<NodeId>)

  /** The state of a newly built node. */
  const Fresh := Dyn(Default, None, [], 0, 0, 0, None)

  /**
   * All nodes that share one blackboard; draws counts the random choices made
   * so far, so that the n-th choice can be supplied from outside.
   */
  datatype Tree = Tree(shape: map<NodeId, Shape>, dyn: map<NodeId, Dyn>, board: Board, draws: nat)

  /** The tree after a call, with the status the call returned. */
  datatype Step = Step(tree: Tree, status: NodeStatus)

  /** The tree after a run loop, its status, and the children it ticked with their results, in order. */
  datatype Outcome = Outcome(tree: Tree, status: NodeStatus, ticked: seq<NodeId>, results: seq<NodeStatus>)

  /** A ranking of the nodes that decreases from parent to child. */
  type Rank = map<NodeId, nat>

  function Children(k: Kind): seq<NodeId>
  {
    match k
    case LeafNode(_) => []
    case DecoratorNode(_, c) => [c]
    case BehaviorNode(_, cs) => cs
  }

  function Configured(name: string): NodeStatus { NodeStatus(Active, "Configured " + name) }
  function Cleaned(name: string): NodeStatus { NodeStatus(Pending, "Cleaned up " + name) }
  function Canceling(name: string): NodeStatus { NodeStatus(Cancel, "Canceling " + name) }

  /** Every child is a node of the tree and ranks below its parent. */
  ghost predicate ShapeWF(shape: map<NodeId, Shape>, rk: Rank)
  {
    shape.Keys <= rk.Keys
    && forall m, c | m in shape && c in Children(shape[m].kind) :: c in shape && rk[c] < rk[m]
  }

  /** Every node has a record, the board is consistent, and a chosen child ranks below its chooser. */
  ghost predicate DynWF(t: Tree, rk: Rank)
  {
    t.dyn.Keys == t.shape.Keys && Consistent(t.board)
    && forall m | m in t.dyn && t.dyn[m].chosen.Some? ::
         var c := t.dyn[m].chosen.value; c in t.shape && c in rk && m in rk && rk[c] < rk[m]
  }

  ghost predicate WF(t: Tree, rk: Rank)
  {
    ShapeWF(t.shape, rk) && DynWF(t, rk)
  }

  function DynAt(t: Tree, m: NodeId): Option<Dyn>
  {
    if m in t.dyn then Some(t.dyn[m]) else None
  }

  /** The status published for node m, if any. */
  function StatusAt(t: Tree, m: NodeId): Option<NodeStatus>
  {
    if m in t.board.status then Some(t.board.status[m]) else None
  }

  ghost predicate Below(rk: Rank, n: NodeId, m: NodeId)
  {
    m in rk && n in rk && rk[m] < rk[n]
  }

  /** Only n and nodes ranked below n may have a different record or published status. */
  ghost predicate Framed(t: Tree, r: Tree, n: NodeId, rk: Rank)
  {
    forall m | m != n && !Below(rk, n, m) :: DynAt(r, m) == DynAt(t, m) && StatusAt(r, m) == StatusAt(t, m)
  }

  /** A call on n keeps the shape and well-formedness, only adds node memories, and changes only n and below. */
  ghost predicate Keeps(t: Tree, r: Tree, n: NodeId, rk: Rank)
  {
    r.shape == t.shape && DynWF(r, rk) && t.board.data.Keys <= r.board.data.Keys && Framed(t, r, n, rk)
  }

  /** A run callback of n leaves n's result, forced state and chosen child, and n's published status, alone. */
  ghost predicate KeepsOwn(t: Tree, r: Tree, n: NodeId)
    requires n in t.dyn && n in r.dyn
  {
    r.dyn[n].result == t.dyn[n].result && r.dyn[n].force == t.dyn[n].force
    && r.dyn[n].chosen == t.dyn[n].chosen && StatusAt(r, n) == StatusAt(t, n)
  }

  function SetDyn(t: Tree, n: NodeId, d: Dyn): Tree
  {
    t.(dyn := t.dyn[n := d])
  }

  /** _run's last step: store the result and publish it in the status table. */
  function Publish(t: Tree, n: NodeId, st: NodeStatus): (r: Tree)
    requires n in t.dyn
    ensures r.dyn == t.dyn[n := t.dyn[n].(result := st)] && r.board.status == t.board.status[n := st]
    ensures r.board.data == t.board.data && r.board.remaps == t.board.remaps && r.board.base == t.board.base
  {
    t.(dyn := t.dyn[n := t.dyn[n].(result := st)], board := SetNodeStatus(t.board, n, st))
  }

  /** get_memory(self._id): the node's data with its remapped keys pulled. */
  function Memory(t: Tree, n: NodeId): (r: Tree)
    requires Consistent(t.board)
    ensures r.shape == t.shape && r.dyn == t.dyn && r.draws == t.draws
    ensures Extends(t.board, r.board) && n in r.board.data
  {
    t.(board := GetMemory(t.board, n))
  }

  /** list.remove: drops the first occurrence. */
  function RemoveFirst(xs: seq<NodeId>, x: NodeId): (r: seq<NodeId>)
    ensures x in xs ==> multiset(r) == multiset(xs) - multiset{x}
    ensures x !in xs ==> r == xs
  {
    if |xs| == 0 then []
    else if xs[0] == x then
      assert xs == [xs[0]] + xs[1..];
      assert multiset(xs) == multiset{x} + multiset(xs[1..]);
      xs[1..]
    else
      var rest := RemoveFirst(xs[1..], x);
      assert xs == [xs[0]] + xs[1..];
      assert multiset(xs) == multiset{xs[0]} + multiset(xs[1..]);
      assert x in xs ==> x in xs[1..];
      assert multiset([xs[0]] + rest) == multiset{xs[0]} + multiset(rest);
      [xs[0]] + rest
  }

  /**
   * The open list after tick_child ticked c: c is appended when it answered
   * ACTIVE and was not open yet, and its first occurrence is dropped when it
   * answered anything else (its result is then PENDING).
   */
  function OpenAfter(open: seq<NodeId>, c: NodeId, active: bool): seq<NodeId>
  {
    if active then (if c in open then open else open + [c])
    else RemoveFirst(open, c)
  }

  /** tick_child keeps one copy of an ACTIVE child in the open list and drops one copy of any other; nothing else changes. */
  lemma OpenAfterCounts(open: seq<NodeId>, c: NodeId, active: bool)
    ensures forall x | x != c :: multiset(OpenAfter(open, c, active))[x] == multiset(open)[x]
    ensures active ==> multiset(OpenAfter(open, c, active))[c] == (if c in open then multiset(open)[c] else 1)
    ensures !active ==> multiset(OpenAfter(open, c, active))[c] == (if c in open then multiset(open)[c] - 1 else 0)
  {
    if active && c !in open {
      assert multiset(open + [c]) == multiset(open) + multiset{c};
    }
  }

  /** No node appears twice in the child list. */
  predicate Distinct(cs: seq<NodeId>)
  {
    forall j, k | 0 <= j < k < |cs| :: cs[j] != cs[k]
  }

  /** reset_children_status: publishes a fresh PENDING status for every child. */
  function ResetChildren(b: Board, cs: seq<NodeId>): (r: Board)
    ensures r.data == b.data && r.remaps == b.remaps && r.base == b.base
    ensures forall m :: m in r.status <==> m in b.status || m in cs
    ensures forall m | m in cs :: r.status[m] == Default
    ensures forall m | m in b.status && m !in cs :: r.status[m] == b.status[m]
    decreases |cs|
  {
    if |cs| == 0 then b
    else ResetChildren(SetNodeStatus(b, cs[0], Default), cs[1..])
  }

  /** Reads a stored integer; a missing or non-integer value counts as 0. */
  function NumAt(m: map<Key, Value>, k: Key): int
  {
    if k in m && m[k].Num? then m[k].n else 0
  }

  /** Replacing the record of n, with its chosen child kept, is a well-formed change of n alone. */
  lemma SetDynKeeps(t: Tree, n: NodeId, d: Dyn, rk: Rank)
    requires WF(t, rk) && n in t.shape
    requires d.chosen == t.dyn[n].chosen || d.chosen.None? || (d.chosen.value in t.shape && Below(rk, n, d.chosen.value))
    ensures Keeps(t, SetDyn(t, n, d), n, rk) && WF(SetDyn(t, n, d), rk)
  {
  }

  /** A call on n after a call on n or on a node below n is again a call on n. */
  lemma KeepsTrans(t: Tree, t1: Tree, t2: Tree, c: NodeId, n: NodeId, rk: Rank)
    requires Keeps(t, t1, c, rk) && Keeps(t1, t2, n, rk) && (c == n || Below(rk, n, c))
    ensures Keeps(t, t2, n, rk)
  {
    forall m | m != n && !Below(rk, n, m)
      ensures DynAt(t2, m) == DynAt(t, m) && StatusAt(t2, m) == StatusAt(t, m)
    {
      assert m != c && !Below(rk, c, m);
    }
  }

  /** Doing nothing is a call on any node. */
  lemma KeepsRefl(t: Tree, n: NodeId, rk: Rank)
    requires WF(t, rk)
    ensures Keeps(t, t, n, rk)
  {
  }

  /** A call on a child c of n is a call on n that leaves n's record and published status alone. */
  lemma KeepsBelow(t: Tree, r: Tree, c: NodeId, n: NodeId, rk: Rank)
    requires WF(t, rk) && Keeps(t, r, c, rk) && Below(rk, n, c) && n in t.dyn
    ensures Keeps(t, r, n, rk) && WF(r, rk)
    ensures n in r.dyn && r.dyn[n] == t.dyn[n] && StatusAt(r, n) == StatusAt(t, n)
  {
    assert DynAt(r, n) == DynAt(t, n);
    KeepsRefl(r, n, rk);
    KeepsTrans(t, r, r, c, n, rk);
  }

  /** What a call keeps includes well-formedness. */
  lemma KeepsWF(t: Tree, r: Tree, n: NodeId, rk: Rank)
    requires WF(t, rk) && Keeps(t, r, n, rk)
    ensures WF(r, rk)
  {
  }

  /** Storing and publishing a result is a well-formed change of n alone. */
  lemma PublishKeeps(t: Tree, n: NodeId, st: NodeStatus, rk: Rank)
    requires WF(t, rk) && n in t.shape
    ensures Keeps(t, Publish(t, n, st), n, rk) && WF(Publish(t, n, st), rk)
  {
  }

  /** Two loop steps of n make one. */
  lemma LoopKeepsTrans(t: Tree, t1: Tree, t2: Tree, n: NodeId, rk: Rank)
    requires n in t.dyn && LoopKeeps(t, t1, n, rk) && LoopKeeps(t1, t2, n, rk)
    ensures LoopKeeps(t, t2, n, rk)
  {
    KeepsTrans(t, t1, t2, n, n, rk);
  }

  /** Fetching a node's data changes only the blackboard's node memories. */
  lemma MemoryKeeps(t: Tree, n: NodeId, rk: Rank)
    requires WF(t, rk) && n in t.dyn
    ensures Keeps(t, Memory(t, n), n, rk) && WF(Memory(t, n), rk) && KeepsOwn(t, Memory(t, n), n)
  {
  }

  /** A change of the node data alone is a call on any node that leaves every record alone. */
  lemma DataKeeps(t: Tree, r: Tree, n: NodeId, rk: Rank)
    requires WF(t, rk) && n in t.dyn
    requires r == t.(board := t.board.(data := r.board.data)) && r.board.data.Keys == t.board.data.Keys
    ensures Keeps(t, r, n, rk) && WF(r, rk) && KeepsOwn(t, r, n)
  {
  }

  /** The configure callbacks of the behaviors that register one. */
  function PolicyConfigure(t: Tree, n: NodeId, p: Policy, cs: seq<NodeId>, rk: Rank, pick: nat -> nat): (r: Tree)
    requires WF(t, rk) && n in t.shape && t.shape[n].kind == BehaviorNode(p, cs)
    ensures Keeps(t, r, n, rk) && WF(r, rk) && r.board == t.board
    ensures r.dyn[n].result == t.dyn[n].result && r.dyn[n].force == t.dyn[n].force
  {
    var d := t.dyn[n];
    match p
    case AnyOf => SetDynKeeps(t, n, d.(open := cs), rk); SetDyn(t, n, d.(open := cs))
    case AllOf => SetDynKeeps(t, n, d.(open := cs), rk); SetDyn(t, n, d.(open := cs))
    case Majority =>
      SetDynKeeps(t, n, d.(numFail := 0, numSucceed := 0, open := cs), rk);
      SetDyn(t, n, d.(numFail := 0, numSucceed := 0, open := cs))
    case Progressor => SetDynKeeps(t, n, d.(index := 0), rk); SetDyn(t, n, d.(index := 0))
    case RandomPick => RandomConfigure(t, n, cs, rk, pick)
    case _ => KeepsRefl(t, n, rk); t
  }

  /** Random's configure callback: choose a child with the next draw, or none when there are no children. */
  function RandomConfigure(t: Tree, n: NodeId, cs: seq<NodeId>, rk: Rank, pick: nat -> nat): (r: Tree)
    requires WF(t, rk) && n in t.shape && t.shape[n].kind == BehaviorNode(RandomPick, cs)
    ensures Keeps(t, r, n, rk) && WF(r, rk) && r.board == t.board
    ensures r.dyn[n] == t.dyn[n].(chosen := r.dyn[n].chosen)
    ensures |cs| == 0 <==> r.dyn[n].chosen.None?
    ensures r.dyn[n].chosen.Some? ==> r.dyn[n].chosen.value in cs
  {
    var d := t.dyn[n];
    if |cs| == 0 then
      SetDynKeeps(t, n, d.(chosen := None), rk);
      SetDyn(t, n, d.(chosen := None))
    else
      var c := cs[pick(t.draws) % |cs|];
      assert c in Children(t.shape[n].kind);
      SetDynKeeps(t, n, d.(chosen := Some(c)), rk);
      SetDyn(t, n, d.(chosen := Some(c))).(draws := t.draws + 1)
  }

  /** UntilCount's configure callback: count := 0 and max_count := the constructor's maximum. */
  function UntilCountConfigure(t: Tree, n: NodeId, maxCount: int): (r: Tree)
    requires n in t.board.data
    ensures r == t.(board := t.board.(data := r.board.data)) && r.board.data.Keys == t.board.data.Keys
    ensures r.board.data[n] == t.board.data[n]["count" := Num(0)]["max_count" := Num(maxCount)]
  {
    var b := t.board;
    t.(board := b.(data := b.data[n := b.data[n]["count" := Num(0)]["max_count" := Num(maxCount)]]))
  }

  /** The configure callback of a node, if its kind registers one; it reads the node data first. */
  function ConfigureCallback(t: Tree, n: NodeId, rk: Rank, pick: nat -> nat): (r: Tree)
    requires WF(t, rk) && n in t.shape
    ensures Keeps(t, r, n, rk) && WF(r, rk) && r.board.status == t.board.status
    ensures r.dyn[n].result == t.dyn[n].result && r.dyn[n].force == t.dyn[n].force
  {
    match t.shape[n].kind
    case BehaviorNode(p, cs) =>
      if HasConfigure(p) then
        MemoryKeeps(t, n, rk);
        var r := PolicyConfigure(Memory(t, n), n, p, cs, rk, pick);
        KeepsTrans(t, Memory(t, n), r, n, n, rk);
        r
      else KeepsRefl(t, n, rk); t
    case DecoratorNode(UntilCount(m), _) =>
      MemoryKeeps(t, n, rk);
      var r := UntilCountConfigure(Memory(t, n), n, m);
      DataKeeps(Memory(t, n), r, n, rk);
      KeepsTrans(t, Memory(t, n), r, n, n, rk);
      r
    case _ => KeepsRefl(t, n, rk); t
  }

  /** Node._configure: the configure callback, if any, then ACTIVE. */
  function NodeConfigure(t: Tree, n: NodeId, rk: Rank, pick: nat -> nat): (r: Tree)
    requires WF(t, rk) && n in t.shape
    ensures Keeps(t, r, n, rk) && r.board.status == t.board.status
    ensures r.dyn[n].result == Configured(t.shape[n].name) && r.dyn[n].force == t.dyn[n].force
  {
    var t1 := ConfigureCallback(t, n, rk, pick);
    var d := t1.dyn[n].(result := Configured(t.shape[n].name));
    SetDynKeeps(t1, n, d, rk);
    KeepsTrans(t, t1, SetDyn(t1, n, d), n, n, rk);
    SetDyn(t1, n, d)
  }

  /** _configure: a decorator configures its child first; every node then runs Node._configure. */
  function Configure(t: Tree, n: NodeId, rk: Rank, pick: nat -> nat): (r: Tree)
    requires WF(t, rk) && n in t.shape
    ensures Keeps(t, r, n, rk) && r.board.status == t.board.status
    ensures r.dyn[n].result == Configured(t.shape[n].name) && r.dyn[n].force == t.dyn[n].force
    decreases rk[n]
  {
    match t.shape[n].kind
    case DecoratorNode(_, c) =>
      assert c in Children(t.shape[n].kind);
      var t1 := Configure(t, c, rk, pick);
      KeepsBelow(t, t1, c, n, rk);
      var r := NodeConfigure(t1, n, rk, pick);
      KeepsTrans(t, t1, r, n, n, rk);
      r
    case _ => NodeConfigure(t, n, rk, pick)
  }

  /**
   * tick: configure a PENDING node, run it, and clean it up when the run
   * result is neither ACTIVE nor PENDING; the run result is returned.
   */
  function Tick(t: Tree, n: NodeId, rk: Rank, pick: nat -> nat): (r: Step)
    requires WF(t, rk) && n in t.shape
    ensures Keeps(t, r.tree, n, rk)
    ensures t.dyn[n].force.Some? ==> r.status == t.dyn[n].force.value
    ensures StatusAt(r.tree, n) == Some(r.status)
    ensures Unfinished(r.status.code) ==> r.tree.dyn[n].result == r.status && r.tree.dyn[n].force == t.dyn[n].force
    ensures !Unfinished(r.status.code) ==> r.tree.dyn[n].result == Cleaned(t.shape[n].name) && r.tree.dyn[n].force.None?
    decreases rk[n], 6
  {
    var t1 := if t.dyn[n].result.code == Pending then Configure(t, n, rk, pick) else t;
    var s := Run(t1, n, rk, pick);
    if Unfinished(s.status.code) then s
    else Step(Cleanup(s.tree, n, rk, pick), s.status)
  }

  /** _run: the forced state if there is one, else the run callback; the result is stored and published. */
  function Run(t: Tree, n: NodeId, rk: Rank, pick: nat -> nat): (r: Step)
    requires WF(t, rk) && n in t.shape
    ensures Keeps(t, r.tree, n, rk)
    ensures r.tree.dyn[n].result == r.status && r.tree.dyn[n].force == t.dyn[n].force
    ensures StatusAt(r.tree, n) == Some(r.status)
    ensures t.dyn[n].force.Some? ==> r == Step(Publish(t, n, t.dyn[n].force.value), t.dyn[n].force.value)
    decreases rk[n], 1
  {
    match t.dyn[n].force
    case Some(f) => PublishKeeps(t, n, f, rk); Step(Publish(t, n, f), f)
    case None =>
      MemoryKeeps(t, n, rk);
      var s := RunCallback(Memory(t, n), n, rk, pick);
      LoopKeepsTrans(t, Memory(t, n), s.tree, n, rk);
      KeepsWF(t, s.tree, n, rk);
      PublishKeeps(s.tree, n, s.status, rk);
      KeepsTrans(t, s.tree, Publish(s.tree, n, s.status), n, n, rk);
      Step(Publish(s.tree, n, s.status), s.status)
  }

  /** The run callback of each built-in kind. */
  function RunCallback(t: Tree, n: NodeId, rk: Rank, pick: nat -> nat): (r: Step)
    requires WF(t, rk) && n in t.shape && n in t.board.data
    ensures LoopKeeps(t, r.tree, n, rk)
    decreases rk[n], 0, 3
  {
    match t.shape[n].kind
    case LeafNode(k) => KeepsRefl(t, n, rk); Step(t, Leaves.Run(k))
    case DecoratorNode(k, c) => DecoratorRun(t, n, k, c, rk, pick)
    case BehaviorNode(p, cs) => PolicyRun(t, n, p, cs, rk, pick)
  }

  /** The run callback of a decorator: tick the child and map its result. */
  function DecoratorRun(t: Tree, n: NodeId, k: DecoratorKind, c: NodeId, rk: Rank, pick: nat -> nat): (r: Step)
    requires WF(t, rk) && n in t.shape && t.shape[n].kind == DecoratorNode(k, c) && n in t.board.data
    ensures LoopKeeps(t, r.tree, n, rk)
    decreases rk[n], 0, 2
  {
    assert c in Children(t.shape[n].kind);
    var s := Tick(t, c, rk, pick);
    KeepsBelow(t, s.tree, c, n, rk);
    if k.UntilCount? then
      var r := UntilCountRun(s, n);
      DataKeeps(s.tree, r.tree, n, rk);
      LoopKeepsTrans(t, s.tree, r.tree, n, rk);
      r
    else Step(s.tree, Transform(k, s.status, t.shape[c].name))
  }

  /**
   * UntilCount's run after its child's tick: a FAIL bumps the stored count,
   * and the result is ACTIVE while the count stays below the stored maximum.
   */
  function UntilCountRun(s: Step, n: NodeId): (r: Step)
    requires n in s.tree.board.data
    ensures r.tree == s.tree.(board := s.tree.board.(data := r.tree.board.data))
    ensures r.tree.board.data.Keys == s.tree.board.data.Keys
  {
    var m := s.tree.board.data[n];
    var (st, count) := UntilCountStep(s.status, NumAt(m, "count"), NumAt(m, "max_count"));
    if s.status.code == Fail then
      Step(s.tree.(board := s.tree.board.(data := s.tree.board.data[n := m["count" := Num(count)]])), st)
    else Step(s.tree, st)
  }

  /** reset_children_status on the tree: every child of behavior n publishes a fresh PENDING status. */
  function Reset(t: Tree, n: NodeId, rk: Rank): (r: Tree)
    requires WF(t, rk) && n in t.shape && t.shape[n].kind.BehaviorNode?
    ensures LoopKeeps(t, r, n, rk) && WF(r, rk)
    ensures r == t.(board := ResetChildren(t.board, t.shape[n].kind.children))
  {
    var cs := t.shape[n].kind.children;
    assert Children(t.shape[n].kind) == cs;
    assert forall c | c in cs :: Below(rk, n, c);
    t.(board := ResetChildren(t.board, cs))
  }

  /** The run callback of each branch policy. */
  function PolicyRun(t: Tree, n: NodeId, p: Policy, cs: seq<NodeId>, rk: Rank, pick: nat -> nat): (r: Step)
    requires WF(t, rk) && n in t.shape && t.shape[n].kind == BehaviorNode(p, cs)
    ensures LoopKeeps(t, r.tree, n, rk)
    decreases rk[n], 0, 2
  {
    match p
    case Selector => var o := SelectorLoop(Reset(t, n, rk), n, cs, 0, rk, pick); Finish(t, Reset(t, n, rk), n, o, rk)
    case Sequencer => var o := SequencerLoop(Reset(t, n, rk), n, cs, 0, rk, pick); Finish(t, Reset(t, n, rk), n, o, rk)
    case Runner => var o := RunnerLoop(Reset(t, n, rk), n, cs, 0, rk, pick); Finish(t, Reset(t, n, rk), n, o, rk)
    case AnyOf => var o := AnyLoop(t, n, cs, 0, false, rk, pick); Step(o.tree, o.status)
    case AllOf => var o := AllLoop(t, n, cs, 0, false, rk, pick); Step(o.tree, o.status)
    case RandomPick => RandomRun(t, n, rk, pick)
    case Progressor => var o := ProgressorLoop(t, n, cs, 0, rk, pick); Step(o.tree, o.status)
    case Majority => var o := MajorityLoop(t, n, cs, 0, rk, pick); Step(o.tree, o.status)
    case First => var o := FirstLoop(t, n, cs, 0, rk, pick); Step(o.tree, o.status)
  }

  /** The result of a loop that ran after the children's statuses were reset. */
  function Finish(t: Tree, reset: Tree, n: NodeId, o: Outcome, rk: Rank): (r: Step)
    requires n in t.dyn && LoopKeeps(t, reset, n, rk) && LoopKeeps(reset, o.tree, n, rk)
    ensures LoopKeeps(t, r.tree, n, rk) && r == Step(o.tree, o.status)
  {
    LoopKeepsTrans(t, reset, o.tree, n, rk);
    Step(o.tree, o.status)
  }

  /** Random: SUCCESS when configure chose no child, else the chosen child's result as it is. */
  function RandomRun(t: Tree, n: NodeId, rk: Rank, pick: nat -> nat): (r: Step)
    requires WF(t, rk) && n in t.shape && t.shape[n].kind.BehaviorNode?
    ensures LoopKeeps(t, r.tree, n, rk)
    decreases rk[n], 0, 1
  {
    match t.dyn[n].chosen
    case None => KeepsRefl(t, n, rk); Step(t, NodeStatus(Success, "No child selected"))
    case Some(c) =>
      var reset := Reset(t, n, rk);
      var s := TickChild(reset, n, c, rk, pick);
      LoopKeepsTrans(t, reset, s.tree, n, rk);
      s
  }

  /** The requirements of a run loop over the children of behavior n from position i. */
  ghost predicate LoopPre(t: Tree, n: NodeId, cs: seq<NodeId>, i: nat, rk: Rank)
  {
    WF(t, rk) && n in t.shape && t.shape[n].kind.BehaviorNode? && cs == t.shape[n].kind.children && i <= |cs|
  }

  /** What a loop step may change: only n's loop fields and the nodes below n. */
  ghost predicate LoopKeeps(t: Tree, r: Tree, n: NodeId, rk: Rank)
    requires n in t.dyn
  {
    Keeps(t, r, n, rk) && n in r.dyn && KeepsOwn(t, r, n)
  }

  /** Records one more ticked child in front of a loop outcome. */
  function Cons(c: NodeId, st: NodeStatus, o: Outcome): Outcome
  {
    o.(ticked := [c] + o.ticked, results := [st] + o.results)
  }

  /**
   * Behavior.tick_child: tick the child, add it to the open list when it
   * answered ACTIVE, and drop it once its result is PENDING again.
   */
  function TickChild(t: Tree, n: NodeId, c: NodeId, rk: Rank, pick: nat -> nat): (r: Step)
    requires WF(t, rk) && n in t.shape && c in t.shape && Below(rk, n, c)
    ensures LoopKeeps(t, r.tree, n, rk)
    ensures r.tree.dyn[n] == t.dyn[n].(open := r.tree.dyn[n].open)
    ensures t.dyn[c].force.Some? ==> r.status == t.dyn[c].force.value
    ensures StatusAt(r.tree, c) == Some(r.status)
    ensures r.tree.dyn[n].open == OpenAfter(t.dyn[n].open, c, r.status.code == Active)
    decreases rk[n], 0, 0
  {
    var s := Tick(t, c, rk, pick);
    KeepsBelow(t, s.tree, c, n, rk);
    var d := s.tree.dyn[n];
    var o1 := if s.status.code == Active && c !in d.open then d.open + [c] else d.open;
    var o2 := if s.tree.dyn[c].result.code == Pending && c in o1 then RemoveFirst(o1, c) else o1;
    assert s.tree.dyn[c].result.code == Pending <==> s.status.code != Active;
    assert o2 == OpenAfter(d.open, c, s.status.code == Active);
    var r := SetDyn(s.tree, n, d.(open := o2));
    SetDynKeeps(s.tree, n, d.(open := o2), rk);
    KeepsTrans(t, s.tree, r, n, n, rk);
    assert r.board == s.tree.board;
    Step(r, s.status)
  }

  /** Selector: tick children in order until one is ACTIVE or PENDING (ACTIVE) or SUCCESS (SUCCESS); FAIL when none. */
  function SelectorLoop(t: Tree, n: NodeId, cs: seq<NodeId>, i: nat, rk: Rank, pick: nat -> nat): (o: Outcome)
    requires LoopPre(t, n, cs, i, rk)
    ensures LoopKeeps(t, o.tree, n, rk)
    decreases rk[n], 0, 1, |cs| - i
  {
    if i == |cs| then Outcome(t, NodeStatus(Fail, "All children failed in " + t.shape[n].name), [], [])
    else
      var c := cs[i];
      var s := TickChild(t, n, c, rk, pick);
      if Unfinished(s.status.code) then
        Outcome(s.tree, NodeStatus(Active, "Executing " + t.shape[n].name + ":" + t.shape[c].name), [c], [s.status])
      else if s.status.code == Success then
        Outcome(s.tree, NodeStatus(Success, "Successfully completed " + t.shape[n].name + ":" + t.shape[c].name), [c], [s.status])
      else Cons(c, s.status, SelectorLoop(s.tree, n, cs, i + 1, rk, pick))
  }

  /** Sequencer: tick children in order until one is ACTIVE or PENDING (ACTIVE) or not SUCCESS (FAIL); SUCCESS when all succeed. */
  function SequencerLoop(t: Tree, n: NodeId, cs: seq<NodeId>, i: nat, rk: Rank, pick: nat -> nat): (o: Outcome)
    requires LoopPre(t, n, cs, i, rk)
    ensures LoopKeeps(t, o.tree, n, rk)
    decreases rk[n], 0, 1, |cs| - i
  {
    if i == |cs| then Outcome(t, NodeStatus(Success, "All children succeeded in " + t.shape[n].name), [], [])
    else
      var c := cs[i];
      var s := TickChild(t, n, c, rk, pick);
      if Unfinished(s.status.code) then
        Outcome(s.tree, NodeStatus(Active, "Executing " + t.shape[n].name + ":" + t.shape[c].name), [c], [s.status])
      else if s.status.code != Success then
        Outcome(s.tree, NodeStatus(Fail, "Failed to complete " + t.shape[n].name + ":" + t.shape[c].name), [c], [s.status])
      else Cons(c, s.status, SequencerLoop(s.tree, n, cs, i + 1, rk, pick))
  }

  /** Runner: tick children in order until one is ACTIVE or PENDING (ACTIVE); SUCCESS once all have finished. */
  function RunnerLoop(t: Tree, n: NodeId, cs: seq<NodeId>, i: nat, rk: Rank, pick: nat -> nat): (o: Outcome)
    requires LoopPre(t, n, cs, i, rk)
    ensures LoopKeeps(t, o.tree, n, rk)
    decreases rk[n], 0, 1, |cs| - i
  {
    if i == |cs| then Outcome(t, NodeStatus(Success, "All children finished in " + t.shape[n].name), [], [])
    else
      var c := cs[i];
      var s := TickChild(t, n, c, rk, pick);
      if Unfinished(s.status.code) then
        Outcome(s.tree, NodeStatus(Active, "Executing " + t.shape[n].name + ":" + t.shape[c].name), [c], [s.status])
      else Cons(c, s.status, RunnerLoop(s.tree, n, cs, i + 1, rk, pick))
  }

  /** Any: tick the open children in order; SUCCESS at the first SUCCESS, else ACTIVE if one was running, else FAIL. */
  function AnyLoop(t: Tree, n: NodeId, cs: seq<NodeId>, i: nat, active: bool, rk: Rank, pick: nat -> nat): (o: Outcome)
    requires LoopPre(t, n, cs, i, rk)
    ensures LoopKeeps(t, o.tree, n, rk)
    decreases rk[n], 0, 1, |cs| - i
  {
    if i == |cs| then
      if active then Outcome(t, NodeStatus(Active, "Executing " + t.shape[n].name), [], [])
      else Outcome(t, NodeStatus(Fail, "Failed to complete " + t.shape[n].name + ". All children failed."), [], [])
    else
      var c := cs[i];
      if c !in t.dyn[n].open then AnyLoop(t, n, cs, i + 1, active, rk, pick)
      else
        var s := TickChild(t, n, c, rk, pick);
        if s.status.code == Success then
          Outcome(s.tree, NodeStatus(Success, "Found SUCCESS in " + t.shape[n].name + ":" + t.shape[c].name), [c], [s.status])
        else Cons(c, s.status, AnyLoop(s.tree, n, cs, i + 1, active || Unfinished(s.status.code), rk, pick))
  }

  /** All: tick the open children in order; FAIL at the first FAIL, else ACTIVE if one was running, else SUCCESS. */
  function AllLoop(t: Tree, n: NodeId, cs: seq<NodeId>, i: nat, active: bool, rk: Rank, pick: nat -> nat): (o: Outcome)
    requires LoopPre(t, n, cs, i, rk)
    ensures LoopKeeps(t, o.tree, n, rk)
    decreases rk[n], 0, 1, |cs| - i
  {
    if i == |cs| then
      if active then Outcome(t, NodeStatus(Active, "Executing " + t.shape[n].name), [], [])
      else Outcome(t, NodeStatus(Success, "All succeeded in " + t.shape[n].name), [], [])
    else
      var c := cs[i];
      if c !in t.dyn[n].open then AllLoop(t, n, cs, i + 1, active, rk, pick)
      else
        var s := TickChild(t, n, c, rk, pick);
        if s.status.code == Fail then
          Outcome(s.tree, NodeStatus(Fail, "Found FAIL in " + t.shape[n].name + ":" + t.shape[c].name), [c], [s.status])
        else Cons(c, s.status, AllLoop(s.tree, n, cs, i + 1, active || Unfinished(s.status.code), rk, pick))
  }

  /**
   * Progressor: tick the child at the stored index and move on while children
   * succeed; ACTIVE on a running child, the child's code on any other result,
   * SUCCESS past the last child.
   */
  function ProgressorLoop(t: Tree, n: NodeId, cs: seq<NodeId>, i: nat, rk: Rank, pick: nat -> nat): (o: Outcome)
    requires LoopPre(t, n, cs, i, rk)
    ensures LoopKeeps(t, o.tree, n, rk)
    decreases rk[n], 0, 1, |cs| - i
  {
    if i == |cs| then Outcome(t, NodeStatus(Success, "All children succeeded in " + t.shape[n].name), [], [])
    else if t.dyn[n].index != i then ProgressorLoop(t, n, cs, i + 1, rk, pick)
    else
      var c := cs[i];
      var s := TickChild(t, n, c, rk, pick);
      if Unfinished(s.status.code) then
        Outcome(s.tree, NodeStatus(Active, "Executing " + t.shape[n].name + ":" + t.shape[c].name), [c], [s.status])
      else if s.status.code != Success then
        Outcome(s.tree, NodeStatus(s.status.code, "Failed to complete " + t.shape[n].name + ":" + t.shape[c].name), [c], [s.status])
      else
        KeepsWF(t, s.tree, n, rk);
        var t2 := Advance(s.tree, n, rk);
        LoopKeepsTrans(t, s.tree, t2, n, rk);
        var o := ProgressorLoop(t2, n, cs, i + 1, rk, pick);
        LoopKeepsTrans(t, t2, o.tree, n, rk);
        Cons(c, s.status, o)
  }

  /** Progressor's index after a child succeeded: one further. */
  function Advance(t: Tree, n: NodeId, rk: Rank): (r: Tree)
    requires WF(t, rk) && n in t.shape
    ensures LoopKeeps(t, r, n, rk) && WF(r, rk)
    ensures r.dyn[n] == t.dyn[n].(index := t.dyn[n].index + 1)
  {
    var d := t.dyn[n];
    SetDynKeeps(t, n, d.(index := d.index + 1), rk);
    SetDyn(t, n, d.(index := d.index + 1))
  }

  /**
   * Majority: tick the open children in order, counting FAILs and SUCCESSes;
   * after each tick, FAIL on a failing majority, then SUCCESS on a succeeding
   * one; ACTIVE when neither was reached.
   */
  function MajorityLoop(t: Tree, n: NodeId, cs: seq<NodeId>, i: nat, rk: Rank, pick: nat -> nat): (o: Outcome)
    requires LoopPre(t, n, cs, i, rk)
    ensures LoopKeeps(t, o.tree, n, rk)
    decreases rk[n], 0, 1, |cs| - i
  {
    if i == |cs| then Outcome(t, NodeStatus(Active, "Executing " + t.shape[n].name), [], [])
    else
      var c := cs[i];
      if c !in t.dyn[n].open then MajorityLoop(t, n, cs, i + 1, rk, pick)
      else
        var s := TickChild(t, n, c, rk, pick);
        KeepsWF(t, s.tree, n, rk);
        var t2 := Tally(s.tree, n, s.status, rk);
        LoopKeepsTrans(t, s.tree, t2, n, rk);
        if MajorityFailed(t2.dyn[n].numFail, |cs|) then
          Outcome(t2, NodeStatus(Fail, "The majority of children failed"), [c], [s.status])
        else if MajoritySucceeded(t2.dyn[n].numSucceed, |cs|) then
          Outcome(t2, NodeStatus(Success, "The majority of children succeeded"), [c], [s.status])
        else
          var o := MajorityLoop(t2, n, cs, i + 1, rk, pick);
          LoopKeepsTrans(t, t2, o.tree, n, rk);
          Cons(c, s.status, o)
  }

  /** Majority's counters after a child's result: one more FAIL or one more SUCCESS. */
  function Tally(t: Tree, n: NodeId, st: NodeStatus, rk: Rank): (r: Tree)
    requires WF(t, rk) && n in t.shape
    ensures LoopKeeps(t, r, n, rk) && WF(r, rk)
    ensures r.dyn[n] == t.dyn[n].(numFail := r.dyn[n].numFail, numSucceed := r.dyn[n].numSucceed)
    ensures r.dyn[n].numFail == t.dyn[n].numFail + (if st.code == Fail then 1 else 0)
    ensures r.dyn[n].numSucceed == t.dyn[n].numSucceed + (if st.code == Success then 1 else 0)
  {
    var d := t.dyn[n];
    var nf := d.numFail + (if st.code == Fail then 1 else 0);
    var ns := d.numSucceed + (if st.code == Success then 1 else 0);
    SetDynKeeps(t, n, d.(numFail := nf, numSucceed := ns), rk);
    SetDyn(t, n, d.(numFail := nf, numSucceed := ns))
  }

  /** First: tick children in order and return the first SUCCESS or FAIL as it is; a bare ACTIVE otherwise. */
  function FirstLoop(t: Tree, n: NodeId, cs: seq<NodeId>, i: nat, rk: Rank, pick: nat -> nat): (o: Outcome)
    requires LoopPre(t, n, cs, i, rk)
    ensures LoopKeeps(t, o.tree, n, rk)
    decreases rk[n], 0, 1, |cs| - i
  {
    if i == |cs| then Outcome(t, NodeStatus(Active, ""), [], [])
    else
      var c := cs[i];
      var s := TickChild(t, n, c, rk, pick);
      if s.status.code == Fail || s.status.code == Success then Outcome(s.tree, s.status, [c], [s.status])
      else Cons(c, s.status, FirstLoop(s.tree, n, cs, i + 1, rk, pick))
  }

  /**
   * _cleanup: a behavior cancels and then cleans up its children, a decorator
   * cleans up its child; then Node._cleanup.
   */
  function Cleanup(t: Tree, n: NodeId, rk: Rank, pick: nat -> nat): (r: Tree)
    requires WF(t, rk) && n in t.shape
    ensures Keeps(t, r, n, rk)
    ensures r.dyn[n].result == Cleaned(t.shape[n].name) && r.dyn[n].force.None?
    ensures t.dyn[n].result.code != Active ==> StatusAt(r, n) == StatusAt(t, n)
    decreases rk[n], 5
  {
    match t.shape[n].kind
    case LeafNode(_) => NodeCleanup(t, n, rk, pick)
    case DecoratorNode(_, c) =>
      assert c in Children(t.shape[n].kind);
      var t1 := Cleanup(t, c, rk, pick);
      KeepsBelow(t, t1, c, n, rk);
      var r := NodeCleanup(t1, n, rk, pick);
      KeepsTrans(t, t1, r, n, n, rk);
      r
    case BehaviorNode(_, cs) =>
      var t1 := CancelChildren(t, n, cs, 0, rk, pick);
      KeepsWF(t, t1, n, rk);
      var t2 := CleanupChildren(t1, n, cs, 0, rk, pick);
      KeepsTrans(t, t1, t2, n, n, rk);
      KeepsWF(t, t2, n, rk);
      var r := NodeCleanup(t2, n, rk, pick);
      KeepsTrans(t, t2, r, n, n, rk);
      r
  }

  /** Node._cleanup: cancel an ACTIVE node, then drop the forced state and go back to PENDING. */
  function NodeCleanup(t: Tree, n: NodeId, rk: Rank, pick: nat -> nat): (r: Tree)
    requires WF(t, rk) && n in t.shape
    ensures Keeps(t, r, n, rk)
    ensures r.dyn[n].result == Cleaned(t.shape[n].name) && r.dyn[n].force.None?
    ensures t.dyn[n].result.code != Active ==> StatusAt(r, n) == StatusAt(t, n)
    ensures t.dyn[n].result.code != Active ==> r == SetDyn(t, n, t.dyn[n].(force := None, result := Cleaned(t.shape[n].name)))
    decreases rk[n], 4
  {
    var t1 := if t.dyn[n].result.code == Active then CancelNode(t, n, rk, pick) else t;
    KeepsRefl(t, n, rk);
    KeepsWF(t, t1, n, rk);
    SetDynKeeps(t1, n, t1.dyn[n].(force := None, result := Cleaned(t.shape[n].name)), rk);
    KeepsTrans(t, t1, SetDyn(t1, n, t1.dyn[n].(force := None, result := Cleaned(t.shape[n].name))), n, n, rk);
    SetDyn(t1, n, t1.dyn[n].(force := None, result := Cleaned(t.shape[n].name)))
  }

  /** cleanup_children: clean up every child that is not PENDING and drop it from the open list. */
  function CleanupChildren(t: Tree, n: NodeId, cs: seq<NodeId>, i: nat, rk: Rank, pick: nat -> nat): (r: Tree)
    requires LoopPre(t, n, cs, i, rk)
    ensures Keeps(t, r, n, rk) && n in r.dyn && KeepsOwn(t, r, n)
    ensures r.dyn[n] == t.dyn[n].(open := r.dyn[n].open)
    decreases rk[n], 4, |cs| - i
  {
    if i == |cs| then KeepsRefl(t, n, rk); t
    else
      var c := cs[i];
      assert c in Children(t.shape[n].kind);
      if t.dyn[c].result.code != Pending then
        var t1 := Cleanup(t, c, rk, pick);
        KeepsBelow(t, t1, c, n, rk);
        var d := t1.dyn[n].(open := RemoveFirst(t1.dyn[n].open, c));
        SetDynKeeps(t1, n, d, rk);
        KeepsTrans(t, t1, SetDyn(t1, n, d), n, n, rk);
        var r := CleanupChildren(SetDyn(t1, n, d), n, cs, i + 1, rk, pick);
        KeepsTrans(t, SetDyn(t1, n, d), r, n, n, rk);
        r
      else CleanupChildren(t, n, cs, i + 1, rk, pick)
  }

  /** _cancel: a behavior cancels its running children, a decorator its child; then Node._cancel. */
  function CancelNode(t: Tree, n: NodeId, rk: Rank, pick: nat -> nat): (r: Tree)
    requires WF(t, rk) && n in t.shape
    ensures Keeps(t, r, n, rk)
    ensures r.dyn[n].result == Canceling(t.shape[n].name) && r.dyn[n].force == Some(Canceling(t.shape[n].name))
    ensures StatusAt(r, n) == Some(Canceling(t.shape[n].name))
    decreases rk[n], 3
  {
    match t.shape[n].kind
    case LeafNode(_) => NodeCancel(t, n, rk, pick)
    case DecoratorNode(_, c) =>
      assert c in Children(t.shape[n].kind);
      var t1 := CancelNode(t, c, rk, pick);
      KeepsBelow(t, t1, c, n, rk);
      var r := NodeCancel(t1, n, rk, pick);
      KeepsTrans(t, t1, r, n, n, rk);
      r
    case BehaviorNode(_, cs) =>
      var t1 := CancelChildren(t, n, cs, 0, rk, pick);
      KeepsWF(t, t1, n, rk);
      var r := NodeCancel(t1, n, rk, pick);
      KeepsTrans(t, t1, r, n, n, rk);
      r
  }

  /** Node._cancel: force CANCEL, fetch the node data, and run, which publishes the CANCEL. */
  function NodeCancel(t: Tree, n: NodeId, rk: Rank, pick: nat -> nat): (r: Tree)
    requires WF(t, rk) && n in t.shape
    ensures Keeps(t, r, n, rk)
    ensures r.dyn[n].result == Canceling(t.shape[n].name) && r.dyn[n].force == Some(Canceling(t.shape[n].name))
    ensures StatusAt(r, n) == Some(Canceling(t.shape[n].name))
    decreases rk[n], 2
  {
    var t1 := SetDyn(t, n, t.dyn[n].(force := Some(Canceling(t.shape[n].name))));
    SetDynKeeps(t, n, t.dyn[n].(force := Some(Canceling(t.shape[n].name))), rk);
    MemoryKeeps(t1, n, rk);
    KeepsTrans(t, t1, Memory(t1, n), n, n, rk);
    var r := Run(Memory(t1, n), n, rk, pick).tree;
    KeepsTrans(t, Memory(t1, n), r, n, n, rk);
    r
  }

  /** cancel_children: cancel every child that is not PENDING. */
  function CancelChildren(t: Tree, n: NodeId, cs: seq<NodeId>, i: nat, rk: Rank, pick: nat -> nat): (r: Tree)
    requires LoopPre(t, n, cs, i, rk)
    ensures Keeps(t, r, n, rk) && n in r.dyn && r.dyn[n] == t.dyn[n] && StatusAt(r, n) == StatusAt(t, n)
    decreases rk[n], 2, |cs| - i
  {
    if i == |cs| then KeepsRefl(t, n, rk); t
    else
      var c := cs[i];
      assert c in Children(t.shape[n].kind);
      if t.dyn[c].result.code != Pending then
        var t1 := CancelNode(t, c, rk, pick);
        KeepsBelow(t, t1, c, n, rk);
        var r := CancelChildren(t1, n, cs, i + 1, rk, pick);
        KeepsTrans(t, t1, r, n, n, rk);
        r
      else CancelChildren(t, n, cs, i + 1, rk, pick)
  }

  /** force: the forced state the next run returns, with a text naming node and code. */
  function Force(t: Tree, n: NodeId, code: Code): (r: Tree)
    requires n in t.shape && n in t.dyn
    ensures n in r.dyn && r.dyn[n].force == Some(NodeStatus(code, "Forcing " + t.shape[n].name + " to " + Name(code)))
    ensures forall m | m != n :: DynAt(r, m) == DynAt(t, m)
    ensures r.dyn[n] == t.dyn[n].(force := r.dyn[n].force) && r.board == t.board && r.shape == t.shape
  {
    SetDyn(t, n, t.dyn[n].(force := Some(NodeStatus(code, "Forcing " + t.shape[n].name + " to " + Name(code)))))
  }
}
