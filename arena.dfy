// The nodes of one tree as an object whose fields the node, decorator and behavior methods update in place.
module Arena {
  import opened Wrappers
  import opened NodeStatuses
  import opened NodeDatas
  import opened BoardSpec
  import Leaves
  import opened Decorators
  import opened Branches
  import opened TreeSpec
  import ChildLists

  /** Two loop outcomes that end in the same tree with the same status. */
  ghost predicate SameEnd(a: Outcome, b: Outcome)
  {
    a.tree == b.tree && a.status == b.status
  }

  /** The i-th child of a loop is a node ranked below n. */
  lemma ChildAt(t: Tree, n: NodeId, cs: seq<NodeId>, i: nat, rk: Rank)
    requires LoopPre(t, n, cs, i, rk) && i < |cs|
    ensures WF(t, rk) && n in t.shape && cs[i] in t.shape && Below(rk, n, cs[i])
  {
    assert cs[i] in Children(t.shape[n].kind);
  }

  /** One step of Selector's loop, given the tick of the i-th child. */
  lemma SelectorNext(t: Tree, n: NodeId, cs: seq<NodeId>, i: nat, rk: Rank, pick: nat -> nat, s: Step)
    requires LoopPre(t, n, cs, i, rk) && i < |cs| && s == TickChild(t, n, cs[i], rk, pick)
    ensures var o := SelectorLoop(t, n, cs, i, rk, pick); if Unfinished(s.status.code) then o.tree == s.tree && o.status == NodeStatus(Active, "Executing " + t.shape[n].name + ":" + t.shape[cs[i]].name)
            else if s.status.code == Success then o.tree == s.tree && o.status == NodeStatus(Success, "Successfully completed " + t.shape[n].name + ":" + t.shape[cs[i]].name)
            else LoopPre(s.tree, n, cs, i + 1, rk) && SameEnd(o, SelectorLoop(s.tree, n, cs, i + 1, rk, pick))
  {
    KeepsWF(t, s.tree, n, rk);
  }

  /** One step of Sequencer's loop, given the tick of the i-th child. */
  lemma SequencerNext(t: Tree, n: NodeId, cs: seq<NodeId>, i: nat, rk: Rank, pick: nat -> nat, s: Step)
    requires LoopPre(t, n, cs, i, rk) && i < |cs| && s == TickChild(t, n, cs[i], rk, pick)
    ensures var o := SequencerLoop(t, n, cs, i, rk, pick); if Unfinished(s.status.code) then o.tree == s.tree && o.status == NodeStatus(Active, "Executing " + t.shape[n].name + ":" + t.shape[cs[i]].name)
            else if s.status.code != Success then o.tree == s.tree && o.status == NodeStatus(Fail, "Failed to complete " + t.shape[n].name + ":" + t.shape[cs[i]].name)
            else LoopPre(s.tree, n, cs, i + 1, rk) && SameEnd(o, SequencerLoop(s.tree, n, cs, i + 1, rk, pick))
  {
    KeepsWF(t, s.tree, n, rk);
  }

  /** One step of Runner's loop, given the tick of the i-th child. */
  lemma RunnerNext(t: Tree, n: NodeId, cs: seq<NodeId>, i: nat, rk: Rank, pick: nat -> nat, s: Step)
    requires LoopPre(t, n, cs, i, rk) && i < |cs| && s == TickChild(t, n, cs[i], rk, pick)
    ensures var o := RunnerLoop(t, n, cs, i, rk, pick); if Unfinished(s.status.code) then o.tree == s.tree && o.status == NodeStatus(Active, "Executing " + t.shape[n].name + ":" + t.shape[cs[i]].name)
            else LoopPre(s.tree, n, cs, i + 1, rk) && SameEnd(o, RunnerLoop(s.tree, n, cs, i + 1, rk, pick))
  {
    KeepsWF(t, s.tree, n, rk);
  }

  /** One step of First's loop, given the tick of the i-th child. */
  lemma FirstNext(t: Tree, n: NodeId, cs: seq<NodeId>, i: nat, rk: Rank, pick: nat -> nat, s: Step)
    requires LoopPre(t, n, cs, i, rk) && i < |cs| && s == TickChild(t, n, cs[i], rk, pick)
    ensures var o := FirstLoop(t, n, cs, i, rk, pick);
            if s.status.code == Fail || s.status.code == Success then o.tree == s.tree && o.status == s.status
            else LoopPre(s.tree, n, cs, i + 1, rk) && SameEnd(o, FirstLoop(s.tree, n, cs, i + 1, rk, pick))
  {
    KeepsWF(t, s.tree, n, rk);
  }

  /** One step of Any's loop over an open child, given its tick. */
  lemma AnyNext(t: Tree, n: NodeId, cs: seq<NodeId>, i: nat, active: bool, rk: Rank, pick: nat -> nat, s: Step)
    requires LoopPre(t, n, cs, i, rk) && i < |cs| && cs[i] in t.dyn[n].open && s == TickChild(t, n, cs[i], rk, pick)
    ensures var o := AnyLoop(t, n, cs, i, active, rk, pick);
            if s.status.code == Success then
              o.tree == s.tree && o.status == NodeStatus(Success, "Found SUCCESS in " + t.shape[n].name + ":" + t.shape[cs[i]].name)
            else
              LoopPre(s.tree, n, cs, i + 1, rk)
              && SameEnd(o, AnyLoop(s.tree, n, cs, i + 1, active || Unfinished(s.status.code), rk, pick))
  {
    KeepsWF(t, s.tree, n, rk);
  }

  /** One step of All's loop over an open child, given its tick. */
  lemma AllNext(t: Tree, n: NodeId, cs: seq<NodeId>, i: nat, active: bool, rk: Rank, pick: nat -> nat, s: Step)
    requires LoopPre(t, n, cs, i, rk) && i < |cs| && cs[i] in t.dyn[n].open && s == TickChild(t, n, cs[i], rk, pick)
    ensures var o := AllLoop(t, n, cs, i, active, rk, pick);
            if s.status.code == Fail then
              o.tree == s.tree && o.status == NodeStatus(Fail, "Found FAIL in " + t.shape[n].name + ":" + t.shape[cs[i]].name)
            else
              LoopPre(s.tree, n, cs, i + 1, rk)
              && SameEnd(o, AllLoop(s.tree, n, cs, i + 1, active || Unfinished(s.status.code), rk, pick))
  {
    KeepsWF(t, s.tree, n, rk);
  }

  /** A step of Progressor's loop at the stored index where the child did not succeed. */
  lemma ProgressorNext(t: Tree, n: NodeId, cs: seq<NodeId>, i: nat, rk: Rank, pick: nat -> nat, s: Step)
    requires LoopPre(t, n, cs, i, rk) && i < |cs| && t.dyn[n].index == i && s == TickChild(t, n, cs[i], rk, pick)
    requires s.status.code != Success
    ensures var o := ProgressorLoop(t, n, cs, i, rk, pick);
            o.tree == s.tree
            && o.status == if Unfinished(s.status.code) then NodeStatus(Active, "Executing " + t.shape[n].name + ":" + t.shape[cs[i]].name)
                           else NodeStatus(s.status.code, "Failed to complete " + t.shape[n].name + ":" + t.shape[cs[i]].name)
  {
  }

  /** A step of Progressor's loop at the stored index where the child succeeded: the index moves on. */
  lemma ProgressorMoveOn(t: Tree, n: NodeId, cs: seq<NodeId>, i: nat, rk: Rank, pick: nat -> nat, s: Step)
    requires LoopPre(t, n, cs, i, rk) && i < |cs| && t.dyn[n].index == i && s == TickChild(t, n, cs[i], rk, pick)
    requires s.status.code == Success
    ensures WF(s.tree, rk) && n in s.tree.shape
    ensures LoopPre(Advance(s.tree, n, rk), n, cs, i + 1, rk)
            && SameEnd(ProgressorLoop(t, n, cs, i, rk, pick), ProgressorLoop(Advance(s.tree, n, rk), n, cs, i + 1, rk, pick))
  {
    KeepsWF(t, s.tree, n, rk);
    assert ProgressorLoop(t, n, cs, i, rk, pick) == Cons(cs[i], s.status, ProgressorLoop(Advance(s.tree, n, rk), n, cs, i + 1, rk, pick));
  }

  /** A step of Majority's loop over an open child, given its tick. */
  lemma MajorityNext(t: Tree, n: NodeId, cs: seq<NodeId>, i: nat, rk: Rank, pick: nat -> nat, s: Step)
    requires LoopPre(t, n, cs, i, rk) && i < |cs| && cs[i] in t.dyn[n].open && s == TickChild(t, n, cs[i], rk, pick)
    ensures WF(s.tree, rk) && n in s.tree.shape
    ensures var o := MajorityLoop(t, n, cs, i, rk, pick); var t2 := Tally(s.tree, n, s.status, rk);
            if MajorityFailed(t2.dyn[n].numFail, |cs|) then o.tree == t2 && o.status == NodeStatus(Fail, "The majority of children failed")
            else if MajoritySucceeded(t2.dyn[n].numSucceed, |cs|) then
              o.tree == t2 && o.status == NodeStatus(Success, "The majority of children succeeded")
            else LoopPre(t2, n, cs, i + 1, rk) && SameEnd(o, MajorityLoop(t2, n, cs, i + 1, rk, pick))
  {
    KeepsWF(t, s.tree, n, rk);
  }

  /** One step of cleanup_children. */
  lemma CleanupChildrenNext(t: Tree, n: NodeId, cs: seq<NodeId>, i: nat, rk: Rank, pick: nat -> nat)
    requires LoopPre(t, n, cs, i, rk) && i < |cs|
    ensures cs[i] in t.shape && Below(rk, n, cs[i])
    ensures t.dyn[cs[i]].result.code == Pending ==> CleanupChildren(t, n, cs, i, rk, pick) == CleanupChildren(t, n, cs, i + 1, rk, pick)
    ensures t.dyn[cs[i]].result.code != Pending ==>
              var t1 := Cleanup(t, cs[i], rk, pick);
              var t2 := SetDyn(t1, n, t1.dyn[n].(open := RemoveFirst(t1.dyn[n].open, cs[i])));
              LoopPre(t2, n, cs, i + 1, rk) && CleanupChildren(t, n, cs, i, rk, pick) == CleanupChildren(t2, n, cs, i + 1, rk, pick)
  {
    assert cs[i] in Children(t.shape[n].kind);
    if t.dyn[cs[i]].result.code != Pending {
      var t1 := Cleanup(t, cs[i], rk, pick);
      KeepsBelow(t, t1, cs[i], n, rk);
      var d := t1.dyn[n].(open := RemoveFirst(t1.dyn[n].open, cs[i]));
      SetDynKeeps(t1, n, d, rk);
    }
  }

  /** One step of cancel_children. */
  lemma CancelChildrenNext(t: Tree, n: NodeId, cs: seq<NodeId>, i: nat, rk: Rank, pick: nat -> nat)
    requires LoopPre(t, n, cs, i, rk) && i < |cs|
    ensures cs[i] in t.shape && Below(rk, n, cs[i])
    ensures t.dyn[cs[i]].result.code == Pending ==> CancelChildren(t, n, cs, i, rk, pick) == CancelChildren(t, n, cs, i + 1, rk, pick)
    ensures t.dyn[cs[i]].result.code != Pending ==>
              LoopPre(CancelNode(t, cs[i], rk, pick), n, cs, i + 1, rk)
              && CancelChildren(t, n, cs, i, rk, pick) == CancelChildren(CancelNode(t, cs[i], rk, pick), n, cs, i + 1, rk, pick)
  {
    assert cs[i] in Children(t.shape[n].kind);
    if t.dyn[cs[i]].result.code != Pending {
      KeepsBelow(t, CancelNode(t, cs[i], rk, pick), cs[i], n, rk);
    }
  }

  /** The configure callback of a behavior that registers one: fetch the node data, then configure. */
  lemma PolicyConfigureCase(t: Tree, n: NodeId, p: Policy, cs: seq<NodeId>, rk: Rank, pick: nat -> nat)
    requires WF(t, rk) && n in t.shape && t.shape[n].kind == BehaviorNode(p, cs) && HasConfigure(p)
    ensures WF(Memory(t, n), rk)
    ensures ConfigureCallback(t, n, rk, pick) == PolicyConfigure(Memory(t, n), n, p, cs, rk, pick)
  {
    MemoryKeeps(t, n, rk);
  }

  /** The configure callback of UntilCount: fetch the node data, then reset the count. */
  lemma UntilCountConfigureCase(t: Tree, n: NodeId, m: int, c: NodeId, rk: Rank, pick: nat -> nat)
    requires WF(t, rk) && n in t.shape && t.shape[n].kind == DecoratorNode(UntilCount(m), c)
    ensures ConfigureCallback(t, n, rk, pick) == UntilCountConfigure(Memory(t, n), n, m)
  {
  }

  /** Nodes without a configure callback are left as they are. */
  lemma NoConfigureCase(t: Tree, n: NodeId, rk: Rank, pick: nat -> nat)
    requires WF(t, rk) && n in t.shape
    requires !(t.shape[n].kind.BehaviorNode? && HasConfigure(t.shape[n].kind.policy))
    requires !(t.shape[n].kind.DecoratorNode? && t.shape[n].kind.deco.UntilCount?)
    ensures ConfigureCallback(t, n, rk, pick) == t
  {
  }

  /** A decorator's run, given the tick of its child. */
  lemma DecoratorRunNext(t: Tree, n: NodeId, k: DecoratorKind, c: NodeId, rk: Rank, pick: nat -> nat, s: Step)
    requires WF(t, rk) && n in t.shape && t.shape[n].kind == DecoratorNode(k, c) && n in t.board.data
    requires c in t.shape && s == Tick(t, c, rk, pick)
    ensures n in s.tree.board.data
    ensures DecoratorRun(t, n, k, c, rk, pick) == if k.UntilCount? then UntilCountRun(s, n) else Step(s.tree, Transform(k, s.status, t.shape[c].name))
  {
  }

  /** Node._cancel as the run of the node with CANCEL forced and its data fetched. */
  lemma NodeCancelNext(t: Tree, n: NodeId, rk: Rank, pick: nat -> nat)
    requires WF(t, rk) && n in t.shape
    ensures var t1 := Memory(SetDyn(t, n, t.dyn[n].(force := Some(Canceling(t.shape[n].name)))), n);
            WF(t1, rk) && n in t1.shape && NodeCancel(t, n, rk, pick) == Run(t1, n, rk, pick).tree
  {
    var d := t.dyn[n].(force := Some(Canceling(t.shape[n].name)));
    SetDynKeeps(t, n, d, rk);
    MemoryKeeps(SetDyn(t, n, d), n, rk);
  }

  /**
   * Every node of a tree with its fields (_result, _force_state, the open
   * list and the branch counters) and the shared blackboard. Each method
   * leaves the object in the state the TreeSpec function of the same name
   * computes from the state before the call; the rank is a ghost argument
   * that orders parents above children.
   */
  class NodeArena {
    var shape: map<NodeId, Shape>
    var dyn: map<NodeId, Dyn>
    var board: Board
    var draws: nat
    /** random.choice: the n-th choice takes the child at position pick(n) modulo the number of children. */
    const pick: nat -> nat

    function State(): Tree
      reads this
    {
      Tree(shape, dyn, board, draws)
    }

    /** An arena without nodes and with an empty blackboard. */
    constructor (pick: nat -> nat)
      ensures State() == Tree(map[], map[], Empty, 0) && this.pick == pick
    {
      shape, dyn, board, draws := map[], map[], Empty, 0;
      this.pick := pick;
    }

    /** Node.__init__: a new node is PENDING with no forced state and empty bookkeeping. */
    method AddNode(id: NodeId, name: string, kind: Kind, ghost rk: Rank)
      requires WF(State(), rk) && id !in shape && id in rk
      requires forall c | c in Children(kind) :: c in shape && Below(rk, id, c)
      modifies this
      ensures State() == old(State()).(shape := old(shape)[id := Shape(name, kind)], dyn := old(dyn)[id := Fresh])
      ensures WF(State(), rk)
    {
      shape := shape[id := Shape(name, kind)];
      dyn := dyn[id := Fresh];
    }

    /** Replaces the child list of behavior n; children ranked below n keep the tree well formed. */
    method SetChildren(n: NodeId, cs: seq<NodeId>, ghost rk: Rank)
      requires WF(State(), rk) && n in shape && shape[n].kind.BehaviorNode?
      requires forall c | c in cs :: c in shape && Below(rk, n, c)
      modifies this
      ensures State() == ChildLists.WithChildren(old(State()), n, cs) && WF(State(), rk)
    {
      ChildLists.WithChildrenKeepsWF(State(), n, cs, rk);
      var s := shape[n];
      shape := shape[n := s.(kind := s.kind.(children := cs))];
    }

    /** Behavior.add_child: appends c, or raises RuntimeError and changes nothing when a child has its name. */
    method AddChild(n: NodeId, c: NodeId, ghost rk: Rank) returns (err: Option<PyError>)
      requires WF(State(), rk) && n in shape && shape[n].kind.BehaviorNode? && c in shape && Below(rk, n, c)
      modifies this
      ensures ChildLists.Known(old(shape), old(shape[n].kind.children))
      ensures var r := ChildLists.AddChild(old(shape), old(shape[n].kind.children), c);
              (r.Ok? ==> err == None && State() == ChildLists.WithChildren(old(State()), n, r.value))
              && (r.Err? ==> err == Some(r.error) && State() == old(State()))
      ensures WF(State(), rk)
    {
      var cs := shape[n].kind.children;
      assert Children(shape[n].kind) == cs;
      if ChildLists.UniqueName(shape, cs, shape[c].name) {
        SetChildren(n, cs + [c], rk);
        err := None;
      } else {
        err := Some(RuntimeError);
      }
    }

    /** Behavior.remove_child: drops the first occurrence of c, or raises ValueError and changes nothing. */
    method RemoveChild(n: NodeId, c: NodeId, ghost rk: Rank) returns (err: Option<PyError>)
      requires WF(State(), rk) && n in shape && shape[n].kind.BehaviorNode?
      modifies this
      ensures var r := ChildLists.RemoveChild(old(shape[n].kind.children), c);
              (r.Ok? ==> err == None && State() == ChildLists.WithChildren(old(State()), n, r.value))
              && (r.Err? ==> err == Some(r.error) && State() == old(State()))
      ensures WF(State(), rk)
    {
      var cs := shape[n].kind.children;
      assert Children(shape[n].kind) == cs;
      if c in cs {
        var r := RemoveFirst(cs, c);
        assert ChildLists.RemoveChild(cs, c) == Ok(r);
        SetChildren(n, r, rk);
        err := None;
      } else {
        err := Some(ValueError);
      }
    }

    /** Behavior.prepend_child: c goes first, whatever its name. */
    method PrependChild(n: NodeId, c: NodeId, ghost rk: Rank)
      requires WF(State(), rk) && n in shape && shape[n].kind.BehaviorNode? && c in shape && Below(rk, n, c)
      modifies this
      ensures State() == ChildLists.WithChildren(old(State()), n, ChildLists.PrependChild(old(shape[n].kind.children), c))
      ensures WF(State(), rk)
    {
      var cs := shape[n].kind.children;
      assert Children(shape[n].kind) == cs;
      SetChildren(n, [c] + cs, rk);
    }

    /** Behavior.insert_child: c goes to position i as list.insert places it, whatever its name. */
    method InsertChild(n: NodeId, c: NodeId, i: int, ghost rk: Rank)
      requires WF(State(), rk) && n in shape && shape[n].kind.BehaviorNode? && c in shape && Below(rk, n, c)
      modifies this
      ensures State() == ChildLists.WithChildren(old(State()), n, ChildLists.InsertChild(old(shape[n].kind.children), c, i))
      ensures WF(State(), rk)
    {
      var cs := shape[n].kind.children;
      assert Children(shape[n].kind) == cs;
      SetChildren(n, ChildLists.InsertChild(cs, c, i), rk);
    }

    /** Node.force: the next run returns the forced state. */
    method Force(n: NodeId, code: Code)
      requires n in shape && n in dyn
      modifies this
      ensures State() == TreeSpec.Force(old(State()), n, code)
    {
      dyn := dyn[n := dyn[n].(force := Some(NodeStatus(code, "Forcing " + shape[n].name + " to " + Name(code))))];
    }

    /** Node.tick. */
    method Tick(n: NodeId, ghost rk: Rank) returns (st: NodeStatus)
      requires WF(State(), rk) && n in shape
      modifies this
      ensures var r := TreeSpec.Tick(old(State()), n, rk, pick); State() == r.tree && st == r.status
      decreases rk[n], 6
    {
      ghost var t := State();
      if dyn[n].result.code == Pending {
        Configure(n, rk);
        KeepsWF(t, State(), n, rk);
      }
      ghost var t1 := State();
      st := Run(n, rk);
      if !Unfinished(st.code) {
        KeepsWF(t1, State(), n, rk);
        Cleanup(n, rk);
      }
    }

    /** _configure of every kind: a decorator configures its child first. */
    method Configure(n: NodeId, ghost rk: Rank)
      requires WF(State(), rk) && n in shape
      modifies this
      ensures State() == TreeSpec.Configure(old(State()), n, rk, pick)
      decreases rk[n]
    {
      match shape[n].kind
      case DecoratorNode(_, c) =>
        assert c in Children(shape[n].kind);
        ghost var t := State();
        Configure(c, rk);
        KeepsBelow(t, State(), c, n, rk);
        NodeConfigure(n, rk);
      case _ =>
        NodeConfigure(n, rk);
    }

    /** Node._configure. */
    method NodeConfigure(n: NodeId, ghost rk: Rank)
      requires WF(State(), rk) && n in shape
      modifies this
      ensures State() == TreeSpec.NodeConfigure(old(State()), n, rk, pick)
    {
      ConfigureCallback(n, rk);
      dyn := dyn[n := dyn[n].(result := Configured(shape[n].name))];
    }

    /** The configure callbacks of UntilCount and of the behaviors that register one. */
    method ConfigureCallback(n: NodeId, ghost rk: Rank)
      requires WF(State(), rk) && n in shape
      modifies this
      ensures State() == TreeSpec.ConfigureCallback(old(State()), n, rk, pick)
    {
      match shape[n].kind
      case BehaviorNode(p, cs) =>
        if HasConfigure(p) {
          PolicyConfigureCase(State(), n, p, cs, rk, pick);
          FetchMemory(n);
          PolicyConfigure(n, p, cs, rk);
        } else {
          NoConfigureCase(State(), n, rk, pick);
        }
      case DecoratorNode(k, c) =>
        if k.UntilCount? {
          UntilCountConfigureCase(State(), n, k.maxCount, c, rk, pick);
          FetchMemory(n);
          ResetCount(n, k.maxCount);
        } else {
          NoConfigureCase(State(), n, rk, pick);
        }
      case LeafNode(_) =>
        NoConfigureCase(State(), n, rk, pick);
    }

    /** configure of Any, All, Majority, Progressor and Random. */
    method PolicyConfigure(n: NodeId, p: Policy, cs: seq<NodeId>, ghost rk: Rank)
      requires WF(State(), rk) && n in shape && shape[n].kind == BehaviorNode(p, cs)
      modifies this
      ensures State() == TreeSpec.PolicyConfigure(old(State()), n, p, cs, rk, pick)
    {
      var d := dyn[n];
      match p
      case AnyOf => dyn := dyn[n := d.(open := cs)];
      case AllOf => dyn := dyn[n := d.(open := cs)];
      case Majority => dyn := dyn[n := d.(numFail := 0, numSucceed := 0, open := cs)];
      case Progressor => dyn := dyn[n := d.(index := 0)];
      case RandomPick =>
        if |cs| == 0 {
          dyn := dyn[n := d.(chosen := None)];
        } else {
          var c := cs[pick(draws) % |cs|];
          dyn := dyn[n := d.(chosen := Some(c))];
          draws := draws + 1;
        }
      case _ =>
    }

    /** Node._run: the forced state, or the run callback; the result is stored and published. */
    method Run(n: NodeId, ghost rk: Rank) returns (st: NodeStatus)
      requires WF(State(), rk) && n in shape
      modifies this
      ensures var r := TreeSpec.Run(old(State()), n, rk, pick); State() == r.tree && st == r.status
      decreases rk[n], 1
    {
      match dyn[n].force {
        case Some(f) =>
          st := f;
        case None =>
          ghost var t := State();
          FetchMemory(n);
          MemoryKeeps(t, n, rk);
          st := RunCallback(n, rk);
      }
      dyn := dyn[n := dyn[n].(result := st)];
      board := SetNodeStatus(board, n, st);
    }

    /** The run callback of a leaf, a decorator or a behavior. */
    method RunCallback(n: NodeId, ghost rk: Rank) returns (st: NodeStatus)
      requires WF(State(), rk) && n in shape && n in board.data
      modifies this
      ensures var r := TreeSpec.RunCallback(old(State()), n, rk, pick); State() == r.tree && st == r.status
      decreases rk[n], 0, 3
    {
      match shape[n].kind
      case LeafNode(k) => st := Leaves.Run(k);
      case DecoratorNode(k, c) => st := DecoratorRun(n, k, c, rk);
      case BehaviorNode(p, cs) => st := PolicyRun(n, p, cs, rk);
    }

    /** A decorator's run: tick the child, then map its result; UntilCount also counts the FAILs. */
    method DecoratorRun(n: NodeId, k: DecoratorKind, c: NodeId, ghost rk: Rank) returns (st: NodeStatus)
      requires WF(State(), rk) && n in shape && shape[n].kind == DecoratorNode(k, c) && n in board.data
      modifies this
      ensures var r := TreeSpec.DecoratorRun(old(State()), n, k, c, rk, pick); State() == r.tree && st == r.status
      decreases rk[n], 0, 2
    {
      assert c in Children(shape[n].kind);
      ghost var t := State();
      var s := Tick(c, rk);
      DecoratorRunNext(t, n, k, c, rk, pick, Step(State(), s));
      if k.UntilCount? {
        st := CountFailure(n, s);
      } else {
        st := Transform(k, s, shape[c].name);
      }
    }

    /** The run of each branch policy; Selector, Sequencer and Runner reset their children's statuses first. */
    method PolicyRun(n: NodeId, p: Policy, cs: seq<NodeId>, ghost rk: Rank) returns (st: NodeStatus)
      requires WF(State(), rk) && n in shape && shape[n].kind == BehaviorNode(p, cs)
      modifies this
      ensures var r := TreeSpec.PolicyRun(old(State()), n, p, cs, rk, pick); State() == r.tree && st == r.status
      decreases rk[n], 0, 2
    {
      match p
      case Selector => ResetChildrenStatus(n, rk); st := SelectorRun(n, cs, rk);
      case Sequencer => ResetChildrenStatus(n, rk); st := SequencerRun(n, cs, rk);
      case Runner => ResetChildrenStatus(n, rk); st := RunnerRun(n, cs, rk);
      case AnyOf => st := AnyRun(n, cs, rk);
      case AllOf => st := AllRun(n, cs, rk);
      case RandomPick => st := RandomRun(n, rk);
      case Progressor => st := ProgressorRun(n, cs, rk);
      case Majority => st := MajorityRun(n, cs, rk);
      case First => st := FirstRun(n, cs, rk);
    }

    /** Behavior.reset_children_status: a fresh PENDING status for each child, one after the other. */
    method ResetChildrenStatus(n: NodeId, ghost rk: Rank)
      requires WF(State(), rk) && n in shape && shape[n].kind.BehaviorNode?
      modifies this
      ensures State() == Reset(old(State()), n, rk)
    {
      var cs := shape[n].kind.children;
      var i := 0;
      while i < |cs|
        invariant i <= |cs| && State() == old(State()).(board := board)
        invariant ResetChildren(old(board), cs) == ResetChildren(board, cs[i..])
      {
        assert cs[i..][0] == cs[i] && cs[i..][1..] == cs[i + 1..];
        board := SetNodeStatus(board, cs[i], Default);
        i := i + 1;
      }
      assert cs[i..] == [];
    }

    /** Behavior.tick_child: tick the child and keep the open list up to date. */
    method TickChild(n: NodeId, c: NodeId, ghost rk: Rank) returns (st: NodeStatus)
      requires WF(State(), rk) && n in shape && c in shape && Below(rk, n, c)
      modifies this
      ensures var r := TreeSpec.TickChild(old(State()), n, c, rk, pick); State() == r.tree && st == r.status
      decreases rk[n], 0, 0
    {
      ghost var t := State();
      st := Tick(c, rk);
      KeepsBelow(t, State(), c, n, rk);
      var d := dyn[n];
      var open := d.open;
      if st.code == Active && c !in open {
        open := open + [c];
      }
      if dyn[c].result.code == Pending && c in open {
        open := RemoveFirst(open, c);
      }
      dyn := dyn[n := d.(open := open)];
    }

    /** Selector.run. */
    method SelectorRun(n: NodeId, cs: seq<NodeId>, ghost rk: Rank) returns (st: NodeStatus)
      requires LoopPre(State(), n, cs, 0, rk)
      modifies this
      ensures var o := SelectorLoop(old(State()), n, cs, 0, rk, pick); State() == o.tree && st == o.status
      decreases rk[n], 0, 1
    {
      ghost var o := SelectorLoop(State(), n, cs, 0, rk, pick);
      var i := 0;
      while i < |cs|
        invariant LoopPre(State(), n, cs, i, rk) && SameEnd(SelectorLoop(State(), n, cs, i, rk, pick), o)
        decreases |cs| - i
      {
        ghost var t := State();
        var c := cs[i];
        ChildAt(t, n, cs, i, rk);
        var s := TickChild(n, c, rk);
        SelectorNext(t, n, cs, i, rk, pick, Step(State(), s));
        if Unfinished(s.code) {
          return NodeStatus(Active, "Executing " + shape[n].name + ":" + shape[c].name);
        } else if s.code == Success {
          return NodeStatus(Success, "Successfully completed " + shape[n].name + ":" + shape[c].name);
        }
        i := i + 1;
      }
      st := NodeStatus(Fail, "All children failed in " + shape[n].name);
    }

    /** Sequencer.run. */
    method SequencerRun(n: NodeId, cs: seq<NodeId>, ghost rk: Rank) returns (st: NodeStatus)
      requires LoopPre(State(), n, cs, 0, rk)
      modifies this
      ensures var o := SequencerLoop(old(State()), n, cs, 0, rk, pick); State() == o.tree && st == o.status
      decreases rk[n], 0, 1
    {
      ghost var o := SequencerLoop(State(), n, cs, 0, rk, pick);
      var i := 0;
      while i < |cs|
        invariant LoopPre(State(), n, cs, i, rk) && SameEnd(SequencerLoop(State(), n, cs, i, rk, pick), o)
        decreases |cs| - i
      {
        ghost var t := State();
        var c := cs[i];
        ChildAt(t, n, cs, i, rk);
        var s := TickChild(n, c, rk);
        SequencerNext(t, n, cs, i, rk, pick, Step(State(), s));
        if Unfinished(s.code) {
          return NodeStatus(Active, "Executing " + shape[n].name + ":" + shape[c].name);
        } else if s.code != Success {
          return NodeStatus(Fail, "Failed to complete " + shape[n].name + ":" + shape[c].name);
        }
        i := i + 1;
      }
      st := NodeStatus(Success, "All children succeeded in " + shape[n].name);
    }

    /** Runner.run. */
    method RunnerRun(n: NodeId, cs: seq<NodeId>, ghost rk: Rank) returns (st: NodeStatus)
      requires LoopPre(State(), n, cs, 0, rk)
      modifies this
      ensures var o := RunnerLoop(old(State()), n, cs, 0, rk, pick); State() == o.tree && st == o.status
      decreases rk[n], 0, 1
    {
      ghost var o := RunnerLoop(State(), n, cs, 0, rk, pick);
      var i := 0;
      while i < |cs|
        invariant LoopPre(State(), n, cs, i, rk) && SameEnd(RunnerLoop(State(), n, cs, i, rk, pick), o)
        decreases |cs| - i
      {
        ghost var t := State();
        var c := cs[i];
        ChildAt(t, n, cs, i, rk);
        var s := TickChild(n, c, rk);
        RunnerNext(t, n, cs, i, rk, pick, Step(State(), s));
        if Unfinished(s.code) {
          return NodeStatus(Active, "Executing " + shape[n].name + ":" + shape[c].name);
        }
        i := i + 1;
      }
      st := NodeStatus(Success, "All children finished in " + shape[n].name);
    }

    /** Any.run. */
    method AnyRun(n: NodeId, cs: seq<NodeId>, ghost rk: Rank) returns (st: NodeStatus)
      requires LoopPre(State(), n, cs, 0, rk)
      modifies this
      ensures var o := AnyLoop(old(State()), n, cs, 0, false, rk, pick); State() == o.tree && st == o.status
      decreases rk[n], 0, 1
    {
      ghost var o := AnyLoop(State(), n, cs, 0, false, rk, pick);
      var active := false;
      var i := 0;
      while i < |cs|
        invariant LoopPre(State(), n, cs, i, rk) && SameEnd(AnyLoop(State(), n, cs, i, active, rk, pick), o)
        decreases |cs| - i
      {
        var c := cs[i];
        if c in dyn[n].open {
          ghost var t := State();
          ChildAt(t, n, cs, i, rk);
          var s := TickChild(n, c, rk);
          AnyNext(t, n, cs, i, active, rk, pick, Step(State(), s));
          if s.code == Success {
            return NodeStatus(Success, "Found SUCCESS in " + shape[n].name + ":" + shape[c].name);
          }
          active := active || Unfinished(s.code);
        }
        i := i + 1;
      }
      if active {
        st := NodeStatus(Active, "Executing " + shape[n].name);
      } else {
        st := NodeStatus(Fail, "Failed to complete " + shape[n].name + ". All children failed.");
      }
    }

    /** All.run. */
    method AllRun(n: NodeId, cs: seq<NodeId>, ghost rk: Rank) returns (st: NodeStatus)
      requires LoopPre(State(), n, cs, 0, rk)
      modifies this
      ensures var o := AllLoop(old(State()), n, cs, 0, false, rk, pick); State() == o.tree && st == o.status
      decreases rk[n], 0, 1
    {
      ghost var o := AllLoop(State(), n, cs, 0, false, rk, pick);
      var active := false;
      var i := 0;
      while i < |cs|
        invariant LoopPre(State(), n, cs, i, rk) && SameEnd(AllLoop(State(), n, cs, i, active, rk, pick), o)
        decreases |cs| - i
      {
        var c := cs[i];
        if c in dyn[n].open {
          ghost var t := State();
          ChildAt(t, n, cs, i, rk);
          var s := TickChild(n, c, rk);
          AllNext(t, n, cs, i, active, rk, pick, Step(State(), s));
          if s.code == Fail {
            return NodeStatus(Fail, "Found FAIL in " + shape[n].name + ":" + shape[c].name);
          }
          active := active || Unfinished(s.code);
        }
        i := i + 1;
      }
      if active {
        st := NodeStatus(Active, "Executing " + shape[n].name);
      } else {
        st := NodeStatus(Success, "All succeeded in " + shape[n].name);
      }
    }

    /** Random.run: SUCCESS without a chosen child, else the chosen child's result. */
    method RandomRun(n: NodeId, ghost rk: Rank) returns (st: NodeStatus)
      requires WF(State(), rk) && n in shape && shape[n].kind.BehaviorNode?
      modifies this
      ensures var r := TreeSpec.RandomRun(old(State()), n, rk, pick); State() == r.tree && st == r.status
      decreases rk[n], 0, 1
    {
      match dyn[n].chosen
      case None =>
        st := NodeStatus(Success, "No child selected");
      case Some(c) =>
        ResetChildrenStatus(n, rk);
        st := TickChild(n, c, rk);
    }

    /** Progressor.run: resume at the stored index and move it on past each SUCCESS. */
    method ProgressorRun(n: NodeId, cs: seq<NodeId>, ghost rk: Rank) returns (st: NodeStatus)
      requires LoopPre(State(), n, cs, 0, rk)
      modifies this
      ensures var o := ProgressorLoop(old(State()), n, cs, 0, rk, pick); State() == o.tree && st == o.status
      decreases rk[n], 0, 1
    {
      ghost var o := ProgressorLoop(State(), n, cs, 0, rk, pick);
      var i := 0;
      while i < |cs|
        invariant LoopPre(State(), n, cs, i, rk) && SameEnd(ProgressorLoop(State(), n, cs, i, rk, pick), o)
        decreases |cs| - i
      {
        if dyn[n].index == i {
          ghost var t := State();
          var c := cs[i];
          ChildAt(t, n, cs, i, rk);
          var s := TickChild(n, c, rk);
          ghost var t1 := State();
          if s.code != Success {
            ProgressorNext(t, n, cs, i, rk, pick, Step(t1, s));
            if Unfinished(s.code) {
              return NodeStatus(Active, "Executing " + shape[n].name + ":" + shape[c].name);
            }
            return NodeStatus(s.code, "Failed to complete " + shape[n].name + ":" + shape[c].name);
          }
          ProgressorMoveOn(t, n, cs, i, rk, pick, Step(t1, s));
          AdvanceIndex(n, rk);
        }
        i := i + 1;
      }
      st := NodeStatus(Success, "All children succeeded in " + shape[n].name);
    }

    /** Progressor's self.index += 1 after a child succeeded. */
    method AdvanceIndex(n: NodeId, ghost rk: Rank)
      requires WF(State(), rk) && n in shape
      modifies this
      ensures State() == Advance(old(State()), n, rk)
    {
      dyn := dyn[n := dyn[n].(index := dyn[n].index + 1)];
    }

    /** Majority's num_fail += 1 on a FAIL and num_succeed += 1 on a SUCCESS. */
    method TallyResult(n: NodeId, st: NodeStatus, ghost rk: Rank)
      requires WF(State(), rk) && n in shape
      modifies this
      ensures State() == Tally(old(State()), n, st, rk)
    {
      var d := dyn[n];
      if st.code == Fail {
        d := d.(numFail := d.numFail + 1);
      } else if st.code == Success {
        d := d.(numSucceed := d.numSucceed + 1);
      }
      dyn := dyn[n := d];
    }

    /** Majority.run: count the results of the open children and stop at a majority. */
    method MajorityRun(n: NodeId, cs: seq<NodeId>, ghost rk: Rank) returns (st: NodeStatus)
      requires LoopPre(State(), n, cs, 0, rk)
      modifies this
      ensures var o := MajorityLoop(old(State()), n, cs, 0, rk, pick); State() == o.tree && st == o.status
      decreases rk[n], 0, 1
    {
      ghost var o := MajorityLoop(State(), n, cs, 0, rk, pick);
      var i := 0;
      while i < |cs|
        invariant LoopPre(State(), n, cs, i, rk) && SameEnd(MajorityLoop(State(), n, cs, i, rk, pick), o)
        decreases |cs| - i
      {
        var c := cs[i];
        if c in dyn[n].open {
          ghost var t := State();
          ChildAt(t, n, cs, i, rk);
          var s := TickChild(n, c, rk);
          MajorityNext(t, n, cs, i, rk, pick, Step(State(), s));
          TallyResult(n, s, rk);
          if MajorityFailed(dyn[n].numFail, |cs|) {
            return NodeStatus(Fail, "The majority of children failed");
          } else if MajoritySucceeded(dyn[n].numSucceed, |cs|) {
            return NodeStatus(Success, "The majority of children succeeded");
          }
        }
        i := i + 1;
      }
      st := NodeStatus(Active, "Executing " + shape[n].name);
    }

    /** First.run: the first SUCCESS or FAIL as it is. */
    method FirstRun(n: NodeId, cs: seq<NodeId>, ghost rk: Rank) returns (st: NodeStatus)
      requires LoopPre(State(), n, cs, 0, rk)
      modifies this
      ensures var o := FirstLoop(old(State()), n, cs, 0, rk, pick); State() == o.tree && st == o.status
      decreases rk[n], 0, 1
    {
      ghost var o := FirstLoop(State(), n, cs, 0, rk, pick);
      var i := 0;
      while i < |cs|
        invariant LoopPre(State(), n, cs, i, rk) && SameEnd(FirstLoop(State(), n, cs, i, rk, pick), o)
        decreases |cs| - i
      {
        ghost var t := State();
        var c := cs[i];
        ChildAt(t, n, cs, i, rk);
        var s := TickChild(n, c, rk);
        FirstNext(t, n, cs, i, rk, pick, Step(State(), s));
        if s.code == Fail || s.code == Success {
          return s;
        }
        i := i + 1;
      }
      st := NodeStatus(Active, "");
    }

    /** _get_node_memory on the arena's blackboard. */
    method FetchMemory(n: NodeId)
      requires Consistent(board)
      modifies this
      ensures State() == Memory(old(State()), n)
    {
      board := GetMemory(board, n);
    }

    /** UntilCount's configure callback on the fetched node data. */
    method ResetCount(n: NodeId, maxCount: int)
      requires n in board.data
      modifies this
      ensures State() == UntilCountConfigure(old(State()), n, maxCount)
    {
      var m := board.data[n];
      board := board.(data := board.data[n := m["count" := Num(0)]["max_count" := Num(maxCount)]]);
    }

    /** UntilCount's run once its child has ticked with status s. */
    method CountFailure(n: NodeId, s: NodeStatus) returns (st: NodeStatus)
      requires n in board.data
      modifies this
      ensures var r := UntilCountRun(Step(old(State()), s), n); State() == r.tree && st == r.status
    {
      var m := board.data[n];
      var (r, count) := UntilCountStep(s, NumAt(m, "count"), NumAt(m, "max_count"));
      if s.code == Fail {
        board := board.(data := board.data[n := m["count" := Num(count)]]);
      }
      st := r;
    }

    /** list.remove on the open list of node n. */
    method DropOpen(n: NodeId, c: NodeId)
      requires n in dyn
      modifies this
      ensures State() == SetDyn(old(State()), n, old(dyn[n]).(open := RemoveFirst(old(dyn[n]).open, c)))
    {
      dyn := dyn[n := dyn[n].(open := RemoveFirst(dyn[n].open, c))];
    }

    /** _cancel's first step: force the CANCEL state. */
    method ForceCancel(n: NodeId)
      requires n in dyn && n in shape
      modifies this
      ensures State() == SetDyn(old(State()), n, old(dyn[n]).(force := Some(Canceling(old(shape[n]).name))))
    {
      dyn := dyn[n := dyn[n].(force := Some(Canceling(shape[n].name)))];
    }

    /** _cleanup of every kind. */
    method Cleanup(n: NodeId, ghost rk: Rank)
      requires WF(State(), rk) && n in shape
      modifies this
      ensures State() == TreeSpec.Cleanup(old(State()), n, rk, pick)
      decreases rk[n], 5
    {
      ghost var t := State();
      match shape[n].kind
      case LeafNode(_) =>
        NodeCleanup(n, rk);
      case DecoratorNode(_, c) =>
        assert c in Children(shape[n].kind);
        Cleanup(c, rk);
        KeepsBelow(t, State(), c, n, rk);
        NodeCleanup(n, rk);
      case BehaviorNode(_, cs) =>
        CancelChildren(n, cs, rk);
        KeepsWF(t, State(), n, rk);
        ghost var t1 := State();
        CleanupChildren(n, cs, rk);
        KeepsWF(t1, State(), n, rk);
        NodeCleanup(n, rk);
    }

    /** Node._cleanup. */
    method NodeCleanup(n: NodeId, ghost rk: Rank)
      requires WF(State(), rk) && n in shape
      modifies this
      ensures State() == TreeSpec.NodeCleanup(old(State()), n, rk, pick)
      decreases rk[n], 4
    {
      if dyn[n].result.code == Active {
        CancelNode(n, rk);
      }
      dyn := dyn[n := dyn[n].(force := None, result := Cleaned(shape[n].name))];
    }

    /** Behavior.cleanup_children. */
    method CleanupChildren(n: NodeId, cs: seq<NodeId>, ghost rk: Rank)
      requires LoopPre(State(), n, cs, 0, rk)
      modifies this
      ensures State() == TreeSpec.CleanupChildren(old(State()), n, cs, 0, rk, pick)
      decreases rk[n], 4
    {
      ghost var r := TreeSpec.CleanupChildren(State(), n, cs, 0, rk, pick);
      var i := 0;
      while i < |cs|
        invariant LoopPre(State(), n, cs, i, rk) && TreeSpec.CleanupChildren(State(), n, cs, i, rk, pick) == r
        decreases |cs| - i
      {
        var c := cs[i];
        CleanupChildrenNext(State(), n, cs, i, rk, pick);
        if dyn[c].result.code != Pending {
          Cleanup(c, rk);
          DropOpen(n, c);
        }
        i := i + 1;
      }
    }

    /** _cancel of every kind. */
    method CancelNode(n: NodeId, ghost rk: Rank)
      requires WF(State(), rk) && n in shape
      modifies this
      ensures State() == TreeSpec.CancelNode(old(State()), n, rk, pick)
      decreases rk[n], 3
    {
      ghost var t := State();
      match shape[n].kind
      case LeafNode(_) =>
        NodeCancel(n, rk);
      case DecoratorNode(_, c) =>
        assert c in Children(shape[n].kind);
        CancelNode(c, rk);
        KeepsBelow(t, State(), c, n, rk);
        NodeCancel(n, rk);
      case BehaviorNode(_, cs) =>
        CancelChildren(n, cs, rk);
        KeepsWF(t, State(), n, rk);
        NodeCancel(n, rk);
    }

    /** Node._cancel. */
    method NodeCancel(n: NodeId, ghost rk: Rank)
      requires WF(State(), rk) && n in shape
      modifies this
      ensures State() == TreeSpec.NodeCancel(old(State()), n, rk, pick)
      decreases rk[n], 2
    {
      NodeCancelNext(State(), n, rk, pick);
      ForceCancel(n);
      FetchMemory(n);
      var _ := Run(n, rk);
    }

    /** Behavior.cancel_children. */
    method CancelChildren(n: NodeId, cs: seq<NodeId>, ghost rk: Rank)
      requires LoopPre(State(), n, cs, 0, rk)
      modifies this
      ensures State() == TreeSpec.CancelChildren(old(State()), n, cs, 0, rk, pick)
      decreases rk[n], 2
    {
      ghost var r := TreeSpec.CancelChildren(State(), n, cs, 0, rk, pick);
      var i := 0;
      while i < |cs|
        invariant LoopPre(State(), n, cs, i, rk) && TreeSpec.CancelChildren(State(), n, cs, i, rk, pick) == r
        decreases |cs| - i
      {
        var c := cs[i];
        CancelChildrenNext(State(), n, cs, i, rk, pick);
        if dyn[c].result.code != Pending {
          CancelNode(c, rk);
        }
        i := i + 1;
      }
    }
  }
}
