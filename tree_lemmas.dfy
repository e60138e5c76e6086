// What the node lifecycle promises across calls: forcing, canceling, leaves, decorators and cleanup.
module TreeLemmas {
  import opened Wrappers
  import opened NodeStatuses
  import opened BoardSpec
  import Leaves
  import opened Decorators
  import opened Branches
  import opened TreeSpec

  /** A node that is not PENDING is not configured again: tick runs it as it is. */
  lemma TickSkipsConfigure(t: Tree, n: NodeId, rk: Rank, pick: nat -> nat)
    requires WF(t, rk) && n in t.shape && t.dyn[n].result.code != Pending
    ensures Tick(t, n, rk, pick).status == Run(t, n, rk, pick).status
  {
  }

  /**
   * A PENDING node is configured, which makes it ACTIVE and keeps its forced
   * state, before it runs; tick returns what that run returns.
   */
  lemma TickConfiguresPending(t: Tree, n: NodeId, rk: Rank, pick: nat -> nat)
    requires WF(t, rk) && n in t.shape && t.dyn[n].result.code == Pending
    ensures var c := Configure(t, n, rk, pick);
            WF(c, rk) && c.dyn[n].result == NodeStatus(Active, "Configured " + t.shape[n].name)
            && c.dyn[n].force == t.dyn[n].force
            && Tick(t, n, rk, pick).status == Run(c, n, rk, pick).status
  {
    KeepsWF(t, Configure(t, n, rk, pick), n, rk);
  }

  /**
   * A forced node returns its forced status without running its callback; an
   * ACTIVE or PENDING forced status stays in force, so the next tick returns it again.
   */
  lemma ForceLasts(t: Tree, n: NodeId, code: Code, rk: Rank, pick: nat -> nat)
    requires WF(t, rk) && n in t.shape && Unfinished(code)
    ensures var f := NodeStatus(code, "Forcing " + t.shape[n].name + " to " + Name(code));
            var s1 := Tick(Force(t, n, code), n, rk, pick);
            s1.status == f && WF(s1.tree, rk)
            && s1.tree.dyn[n].force == Some(f) && Tick(s1.tree, n, rk, pick).status == f
  {
    var t1 := Force(t, n, code);
    SetDynKeeps(t, n, t1.dyn[n], rk);
    var s1 := Tick(t1, n, rk, pick);
    KeepsWF(t1, s1.tree, n, rk);
  }

  /** A forced SUCCESS, FAIL or CANCEL is returned and published once; the cleanup after it drops the forced state. */
  lemma ForceFinishes(t: Tree, n: NodeId, code: Code, rk: Rank, pick: nat -> nat)
    requires WF(t, rk) && n in t.shape && !Unfinished(code)
    ensures var f := NodeStatus(code, "Forcing " + t.shape[n].name + " to " + Name(code));
            var s := Tick(Force(t, n, code), n, rk, pick);
            s.status == f && StatusAt(s.tree, n) == Some(f)
            && s.tree.dyn[n].force.None? && s.tree.dyn[n].result == NodeStatus(Pending, "Cleaned up " + t.shape[n].name)
  {
    SetDynKeeps(t, n, Force(t, n, code).dyn[n], rk);
  }

  /**
   * After _cancel, the next tick returns the CANCEL status _cancel forced,
   * without running the callback, and cleans the node up to PENDING.
   */
  lemma CancelThenTick(t: Tree, n: NodeId, rk: Rank, pick: nat -> nat)
    requires WF(t, rk) && n in t.shape
    ensures var c := CancelNode(t, n, rk, pick);
            var s := Tick(c, n, rk, pick);
            WF(c, rk) && s.status == NodeStatus(Cancel, "Canceling " + t.shape[n].name)
            && StatusAt(s.tree, n) == Some(s.status)
            && s.tree.dyn[n].result == NodeStatus(Pending, "Cleaned up " + t.shape[n].name) && s.tree.dyn[n].force.None?
  {
    KeepsWF(t, CancelNode(t, n, rk, pick), n, rk);
  }

  /** The run callback of a leaf returns the leaf's constant and changes nothing. */
  lemma LeafRun(t: Tree, n: NodeId, k: Leaves.LeafKind, rk: Rank, pick: nat -> nat)
    requires WF(t, rk) && n in t.shape && t.shape[n].kind == LeafNode(k) && t.dyn[n].force.None?
    ensures Run(t, n, rk, pick).status == Leaves.Run(k)
  {
    var m := Memory(t, n);
    MemoryKeeps(t, n, rk);
    assert RunCallback(m, n, rk, pick) == Step(m, Leaves.Run(k));
  }

  /**
   * A PENDING, unforced Success or Fail leaf returns its status when ticked,
   * publishes it, and ends PENDING; a Continue leaf returns ACTIVE and stays ACTIVE.
   */
  lemma LeafTick(t: Tree, n: NodeId, k: Leaves.LeafKind, rk: Rank, pick: nat -> nat)
    requires WF(t, rk) && n in t.shape && t.shape[n].kind == LeafNode(k)
    requires t.dyn[n].result.code == Pending && t.dyn[n].force.None?
    ensures var s := Tick(t, n, rk, pick);
            s.status == Leaves.Run(k) && StatusAt(s.tree, n) == Some(Leaves.Run(k))
            && (k == Leaves.ContinueLeaf <==> s.tree.dyn[n].result.code == Active)
            && (k != Leaves.ContinueLeaf <==> s.tree.dyn[n].result.code == Pending)
  {
    TickConfiguresPending(t, n, rk, pick);
    LeafRun(Configure(t, n, rk, pick), n, k, rk, pick);
  }

  /** An unforced Continue leaf answers ACTIVE on every tick and stays ACTIVE. */
  lemma ContinueStaysActive(t: Tree, n: NodeId, rk: Rank, pick: nat -> nat)
    requires WF(t, rk) && n in t.shape && t.shape[n].kind == LeafNode(Leaves.ContinueLeaf) && t.dyn[n].force.None?
    ensures Tick(t, n, rk, pick).status.code == Active
    ensures Tick(t, n, rk, pick).tree.dyn[n].result.code == Active
  {
    var st := Tick(t, n, rk, pick).status;
    if t.dyn[n].result.code == Pending {
      TickConfiguresPending(t, n, rk, pick);
      LeafRun(Configure(t, n, rk, pick), n, Leaves.ContinueLeaf, rk, pick);
    } else {
      TickSkipsConfigure(t, n, rk, pick);
      LeafRun(t, n, Leaves.ContinueLeaf, rk, pick);
    }
    assert st == NodeStatus(Active, "");
  }

  /** A running Continue leaf forced to SUCCESS returns and publishes the forced SUCCESS on its next tick and ends PENDING. */
  lemma ForceContinueToSuccess(t: Tree, n: NodeId, rk: Rank, pick: nat -> nat)
    requires WF(t, rk) && n in t.shape && t.shape[n].kind == LeafNode(Leaves.ContinueLeaf) && t.dyn[n].result.code == Active
    ensures var f := NodeStatus(Success, "Forcing " + t.shape[n].name + " to " + Name(Success));
            var s := Tick(Force(t, n, Success), n, rk, pick);
            s.status == f && StatusAt(s.tree, n) == Some(f) && s.tree.dyn[n].result.code == Pending
  {
    ForceFinishes(t, n, Success, rk, pick);
  }

  /** UntilCount's run passes a CANCEL of its child through unchanged, without counting it. */
  lemma UntilCountPassesCancel(s: Step, n: NodeId)
    requires n in s.tree.board.data && s.status.code == Cancel
    ensures UntilCountRun(s, n) == s
  {
    var d := s.tree.board.data[n];
    NonTerminalPassesThrough(UntilCount(NumAt(d, "max_count")), s.status, "", NumAt(d, "count"));
  }

  /** The decorator's run callback passes a forced CANCEL of its child through unchanged. */
  lemma DecoratorCallbackPassesCancel(m: Tree, n: NodeId, k: DecoratorKind, c: NodeId, f: NodeStatus, rk: Rank, pick: nat -> nat)
    requires WF(m, rk) && n in m.shape && m.shape[n].kind == DecoratorNode(k, c) && n in m.board.data
    requires c in m.dyn && m.dyn[c].force == Some(f) && f.code == Cancel
    ensures DecoratorRun(m, n, k, c, rk, pick).status == f
  {
    assert c in Children(m.shape[n].kind);
    var s := Tick(m, c, rk, pick);
    assert s.status == f;
    KeepsBelow(m, s.tree, c, n, rk);
    if k.UntilCount? {
      UntilCountPassesCancel(s, n);
    } else {
      NonTerminalPassesThrough(k, f, m.shape[c].name, 0);
    }
  }

  /** The run of a decorator whose child is forced to a CANCEL status returns that status unchanged. */
  lemma DecoratorRunPassesCancel(t: Tree, n: NodeId, k: DecoratorKind, c: NodeId, f: NodeStatus, rk: Rank, pick: nat -> nat)
    requires WF(t, rk) && n in t.shape && t.shape[n].kind == DecoratorNode(k, c) && t.dyn[n].force.None?
    requires c in t.dyn && t.dyn[c].force == Some(f) && f.code == Cancel
    ensures Run(t, n, rk, pick).status == f
  {
    var m := Memory(t, n);
    MemoryKeeps(t, n, rk);
    DecoratorCallbackPassesCancel(m, n, k, c, f, rk, pick);
    assert RunCallback(m, n, rk, pick).status == f;
  }

  /**
   * A CANCEL of the child passes through every decorator: ticking a running
   * decorator whose child was canceled returns the child's CANCEL status, and
   * both end PENDING.
   */
  lemma DecoratorPassesCancel(t: Tree, n: NodeId, k: DecoratorKind, c: NodeId, f: NodeStatus, rk: Rank, pick: nat -> nat)
    requires WF(t, rk) && n in t.shape && t.shape[n].kind == DecoratorNode(k, c)
    requires t.dyn[n].result.code != Pending && t.dyn[n].force.None?
    requires c in t.dyn && t.dyn[c].force == Some(f) && f.code == Cancel
    ensures var s := Tick(t, n, rk, pick);
            s.status == f && s.tree.dyn[n].result.code == Pending && s.tree.dyn[c].result.code == Pending
  {
    TickSkipsConfigure(t, n, rk, pick);
    DecoratorRunPassesCancel(t, n, k, c, f, rk, pick);
    var r := Run(t, n, rk, pick);
    KeepsWF(t, r.tree, n, rk);
    assert c in Children(t.shape[n].kind);
    var t1 := Cleanup(r.tree, c, rk, pick);
    KeepsBelow(r.tree, t1, c, n, rk);
    assert Cleanup(r.tree, n, rk, pick) == NodeCleanup(t1, n, rk, pick);
  }

  /**
   * No child of the list ranks below another; a ranking by depth has this
   * property for every tree in which no node is its sibling's descendant.
   */
  ghost predicate Siblings(cs: seq<NodeId>, rk: Rank)
  {
    forall a, b | a in cs && b in cs :: !Below(rk, a, b)
  }

  /** tick_child on c changes only c, the nodes below c and the parent: a node beside them keeps its record and status. */
  lemma TickChildSiblings(t: Tree, n: NodeId, c: NodeId, m: NodeId, rk: Rank, pick: nat -> nat)
    requires WF(t, rk) && n in t.shape && c in t.shape && Below(rk, n, c)
    requires m != n && m != c && !Below(rk, c, m)
    ensures var r := TickChild(t, n, c, rk, pick).tree;
            DynAt(r, m) == DynAt(t, m) && StatusAt(r, m) == StatusAt(t, m)
  {
    var s := Tick(t, c, rk, pick);
    var r := TickChild(t, n, c, rk, pick).tree;
    assert r.board == s.tree.board && r.dyn == s.tree.dyn[n := r.dyn[n]];
  }

  /** Every child of the list is PENDING. */
  ghost predicate AllPending(t: Tree, cs: seq<NodeId>)
  {
    forall c | c in cs :: c in t.dyn && t.dyn[c].result.code == Pending
  }

  /** The first i children of the list are PENDING. */
  ghost predicate PendingBefore(t: Tree, cs: seq<NodeId>, i: nat)
  {
    forall j | 0 <= j < i && j < |cs| :: cs[j] in t.dyn && t.dyn[cs[j]].result.code == Pending
  }

  /**
   * One step of cleanup_children on child cs[i] changes only cs[i], the nodes
   * ranked below it and the parent, so the children before it stay PENDING.
   */
  lemma CleanupStepKeepsPending(t: Tree, t1: Tree, n: NodeId, d: Dyn, cs: seq<NodeId>, i: nat, rk: Rank)
    requires i < |cs| && Siblings(cs, rk) && PendingBefore(t, cs, i)
    requires forall c | c in cs :: Below(rk, n, c)
    requires Framed(t, t1, cs[i], rk) && cs[i] in t1.dyn && t1.dyn[cs[i]].result.code == Pending
    ensures PendingBefore(SetDyn(t1, n, d), cs, i + 1)
  {
    var t2 := SetDyn(t1, n, d);
    forall j | 0 <= j < i + 1 && j < |cs|
      ensures cs[j] in t2.dyn && t2.dyn[cs[j]].result.code == Pending
    {
      assert Below(rk, n, cs[j]);
      if j < i {
        assert !Below(rk, cs[i], cs[j]);
        if cs[j] != cs[i] {
          assert DynAt(t1, cs[j]) == DynAt(t, cs[j]);
        }
      }
    }
  }

  /** cleanup_children on a child that is not PENDING cleans it up, and the children before it stay PENDING. */
  lemma CleanupChildStep(t: Tree, n: NodeId, cs: seq<NodeId>, i: nat, rk: Rank, pick: nat -> nat) returns (t2: Tree)
    requires LoopPre(t, n, cs, i, rk) && i < |cs| && Siblings(cs, rk) && PendingBefore(t, cs, i)
    requires t.dyn[cs[i]].result.code != Pending
    ensures LoopPre(t2, n, cs, i + 1, rk) && PendingBefore(t2, cs, i + 1)
    ensures CleanupChildren(t, n, cs, i, rk, pick) == CleanupChildren(t2, n, cs, i + 1, rk, pick)
  {
    var c := cs[i];
    assert forall x | x in cs :: Below(rk, n, x) by {
      assert forall x | x in cs :: x in Children(t.shape[n].kind);
    }
    var t1 := Cleanup(t, c, rk, pick);
    KeepsBelow(t, t1, c, n, rk);
    var d := t1.dyn[n].(open := RemoveFirst(t1.dyn[n].open, c));
    SetDynKeeps(t1, n, d, rk);
    CleanupStepKeepsPending(t, t1, n, d, cs, i, rk);
    t2 := SetDyn(t1, n, d);
  }

  /** cleanup_children skips a PENDING child. */
  lemma CleanupChildSkip(t: Tree, n: NodeId, cs: seq<NodeId>, i: nat, rk: Rank, pick: nat -> nat)
    requires LoopPre(t, n, cs, i, rk) && i < |cs| && PendingBefore(t, cs, i)
    requires t.dyn[cs[i]].result.code == Pending
    ensures PendingBefore(t, cs, i + 1)
    ensures CleanupChildren(t, n, cs, i, rk, pick) == CleanupChildren(t, n, cs, i + 1, rk, pick)
  {
    assert cs[i] in Children(t.shape[n].kind);
  }

  /** At the end of cleanup_children, every child it passed is PENDING. */
  lemma CleanupChildrenDone(t: Tree, n: NodeId, cs: seq<NodeId>, rk: Rank, pick: nat -> nat)
    requires LoopPre(t, n, cs, |cs|, rk) && PendingBefore(t, cs, |cs|)
    ensures AllPending(CleanupChildren(t, n, cs, |cs|, rk, pick), cs)
  {
    assert CleanupChildren(t, n, cs, |cs|, rk, pick) == t;
    forall c | c in cs
      ensures c in t.dyn && t.dyn[c].result.code == Pending
    {
      var j :| 0 <= j < |cs| && cs[j] == c;
    }
  }

  /** cleanup_children leaves every child of the list PENDING. */
  lemma {:induction false} CleanupChildrenPending(t: Tree, n: NodeId, cs: seq<NodeId>, i: nat, rk: Rank, pick: nat -> nat)
    requires LoopPre(t, n, cs, i, rk) && Siblings(cs, rk) && PendingBefore(t, cs, i)
    ensures AllPending(CleanupChildren(t, n, cs, i, rk, pick), cs)
    decreases |cs| - i
  {
    if i == |cs| {
      CleanupChildrenDone(t, n, cs, rk, pick);
    } else if t.dyn[cs[i]].result.code != Pending {
      var t2 := CleanupChildStep(t, n, cs, i, rk, pick);
      CleanupChildrenPending(t2, n, cs, i + 1, rk, pick);
    } else {
      CleanupChildSkip(t, n, cs, i, rk, pick);
      CleanupChildrenPending(t, n, cs, i + 1, rk, pick);
    }
  }

  /** cancel_children does nothing when every child is PENDING. */
  lemma {:induction false} CancelChildrenIdle(t: Tree, n: NodeId, cs: seq<NodeId>, i: nat, rk: Rank, pick: nat -> nat)
    requires LoopPre(t, n, cs, i, rk) && AllPending(t, cs)
    ensures CancelChildren(t, n, cs, i, rk, pick) == t
    decreases |cs| - i
  {
    if i < |cs| {
      CancelIdleSkip(t, n, cs, i, rk, pick);
      CancelChildrenIdle(t, n, cs, i + 1, rk, pick);
    } else {
      CancelChildrenEnd(t, n, cs, rk, pick);
    }
  }

  /** cancel_children past the last child changes nothing. */
  lemma CancelChildrenEnd(t: Tree, n: NodeId, cs: seq<NodeId>, rk: Rank, pick: nat -> nat)
    requires LoopPre(t, n, cs, |cs|, rk)
    ensures CancelChildren(t, n, cs, |cs|, rk, pick) == t
  {
  }

  /** A PENDING child is passed over by cancel_children. */
  lemma CancelIdleSkip(t: Tree, n: NodeId, cs: seq<NodeId>, i: nat, rk: Rank, pick: nat -> nat)
    requires LoopPre(t, n, cs, i, rk) && i < |cs| && AllPending(t, cs)
    ensures LoopPre(t, n, cs, i + 1, rk)
    ensures CancelChildren(t, n, cs, i, rk, pick) == CancelChildren(t, n, cs, i + 1, rk, pick)
  {
    assert cs[i] in cs;
    assert cs[i] in Children(t.shape[n].kind);
  }

  /** Forcing, fetching the node data and publishing touch the record of the node itself only. */
  lemma ForceAndPublishOnlyItself(t: Tree, n: NodeId, d: Dyn, f: NodeStatus)
    requires Consistent(t.board)
    ensures Publish(Memory(SetDyn(t, n, d), n), n, f).dyn == t.dyn[n := d.(result := f)]
  {
  }

  /** Node._cancel changes the record of the node itself and of no other node. */
  lemma NodeCancelOnlyItself(t: Tree, n: NodeId, rk: Rank, pick: nat -> nat)
    requires WF(t, rk) && n in t.shape
    ensures var r := NodeCancel(t, n, rk, pick); n in r.dyn && r.dyn == t.dyn[n := r.dyn[n]]
    ensures NodeCancel(t, n, rk, pick).board.status == t.board.status[n := Canceling(t.shape[n].name)]
  {
    var f := Canceling(t.shape[n].name);
    var d := t.dyn[n].(force := Some(f));
    SetDynKeeps(t, n, d, rk);
    ForceAndPublishOnlyItself(t, n, d, f);
    assert NodeCancel(t, n, rk, pick) == Publish(Memory(SetDyn(t, n, d), n), n, f);
  }

  /** Canceling a behavior whose children are all PENDING changes the record of no other node. */
  lemma CancelBehaviorOnlyItself(t: Tree, n: NodeId, p: Policy, cs: seq<NodeId>, rk: Rank, pick: nat -> nat)
    requires WF(t, rk) && n in t.shape && t.shape[n].kind == BehaviorNode(p, cs) && AllPending(t, cs)
    ensures var r := CancelNode(t, n, rk, pick); n in r.dyn && r.dyn == t.dyn[n := r.dyn[n]]
  {
    CancelChildrenIdle(t, n, cs, 0, rk, pick);
    NodeCancelOnlyItself(t, n, rk, pick);
    assert CancelNode(t, n, rk, pick) == NodeCancel(t, n, rk, pick);
  }

  /** Node._cleanup of a behavior whose children are all PENDING changes the record of no other node. */
  lemma NodeCleanupOnlyItself(t: Tree, n: NodeId, p: Policy, cs: seq<NodeId>, rk: Rank, pick: nat -> nat)
    requires WF(t, rk) && n in t.shape && t.shape[n].kind == BehaviorNode(p, cs) && AllPending(t, cs)
    ensures var r := NodeCleanup(t, n, rk, pick); n in r.dyn && r.dyn == t.dyn[n := r.dyn[n]]
  {
    var t1 := if t.dyn[n].result.code == Active then CancelNode(t, n, rk, pick) else t;
    if t.dyn[n].result.code == Active {
      CancelBehaviorOnlyItself(t, n, p, cs, rk, pick);
    }
    var d := t1.dyn[n].(force := None, result := Cleaned(t.shape[n].name));
    assert NodeCleanup(t, n, rk, pick) == SetDyn(t1, n, d);
    UpdateTwice(t.dyn, t1.dyn, n, d);
  }

  /** Replacing one entry twice is replacing it once. */
  lemma UpdateTwice(m: map<NodeId, Dyn>, m1: map<NodeId, Dyn>, n: NodeId, d: Dyn)
    requires n in m1 && m1 == m[n := m1[n]]
    ensures m1[n := d] == m[n := d]
  {
  }

  /** After a behavior's _cleanup, the behavior and every one of its children are PENDING. */
  lemma BehaviorCleanupAllPending(t: Tree, n: NodeId, p: Policy, cs: seq<NodeId>, rk: Rank, pick: nat -> nat)
    requires WF(t, rk) && n in t.shape && t.shape[n].kind == BehaviorNode(p, cs) && Siblings(cs, rk)
    ensures var r := Cleanup(t, n, rk, pick);
            r.dyn[n].result.code == Pending && AllPending(r, cs)
  {
    var t1 := CancelChildren(t, n, cs, 0, rk, pick);
    KeepsWF(t, t1, n, rk);
    var t2 := CleanupChildren(t1, n, cs, 0, rk, pick);
    KeepsWF(t1, t2, n, rk);
    CleanupChildrenPending(t1, n, cs, 0, rk, pick);
    NodeCleanupOnlyItself(t2, n, p, cs, rk, pick);
    var r := NodeCleanup(t2, n, rk, pick);
    assert forall c | c in cs :: c != n by {
      assert forall c | c in cs :: c in Children(t.shape[n].kind);
    }
    assert Cleanup(t, n, rk, pick) == r;
  }

  /** Node c reads as canceled: its result, forced state and published status all say "Canceling <c>". */
  ghost predicate CanceledNode(t: Tree, c: NodeId)
  {
    c in t.shape && c in t.dyn && t.dyn[c].result == Canceling(t.shape[c].name)
    && t.dyn[c].force == Some(Canceling(t.shape[c].name))
    && c in t.board.status && t.board.status[c] == Canceling(t.shape[c].name)
  }

  /** Node c has the same record and the same published status in t and u. */
  ghost predicate SameAt(t: Tree, u: Tree, c: NodeId)
  {
    c in t.dyn && c in u.dyn && t.dyn[c] == u.dyn[c]
    && (c in t.board.status <==> c in u.board.status)
    && (c in t.board.status ==> t.board.status[c] == u.board.status[c])
  }

  /** What cancel_children leaves of child c of t0: canceled when it was not PENDING, untouched when it was. */
  ghost predicate CancelDone(t0: Tree, t: Tree, c: NodeId)
  {
    c in t0.dyn
    && if t0.dyn[c].result.code != Pending then CanceledNode(t, c) else SameAt(t, t0, c)
  }

  /** cancel_children halfway: the children before i are done, the others untouched. */
  ghost predicate CancelHalfway(t0: Tree, t: Tree, cs: seq<NodeId>, i: nat)
  {
    t.shape == t0.shape
    && (forall j | 0 <= j < i && j < |cs| :: CancelDone(t0, t, cs[j]))
    && (forall j | i <= j < |cs| :: SameAt(t, t0, cs[j]))
  }

  /** Canceling cs[i] changes only cs[i] and the nodes below it, so no other child of the list. */
  lemma HalfwayAfterCancel(t0: Tree, t: Tree, t1: Tree, cs: seq<NodeId>, i: nat, rk: Rank)
    requires i < |cs| && Siblings(cs, rk) && Distinct(cs) && CancelHalfway(t0, t, cs, i)
    requires t1.shape == t.shape && Framed(t, t1, cs[i], rk) && CanceledNode(t1, cs[i])
    requires t.dyn[cs[i]].result.code != Pending
    ensures CancelHalfway(t0, t1, cs, i + 1)
  {
    var c := cs[i];
    forall j | 0 <= j < |cs| && j != i
      ensures SameAt(t1, t, cs[j])
    {
      assert cs[j] != c && !Below(rk, c, cs[j]);
      assert DynAt(t1, cs[j]) == DynAt(t, cs[j]) && StatusAt(t1, cs[j]) == StatusAt(t, cs[j]);
    }
    assert SameAt(t, t0, c);
  }

  /** cancel_children on a child that is not PENDING cancels it and no sibling. */
  lemma CancelChildStep(t0: Tree, t: Tree, n: NodeId, cs: seq<NodeId>, i: nat, rk: Rank, pick: nat -> nat) returns (t1: Tree)
    requires LoopPre(t, n, cs, i, rk) && i < |cs| && Siblings(cs, rk) && Distinct(cs) && CancelHalfway(t0, t, cs, i)
    requires t.dyn[cs[i]].result.code != Pending
    ensures LoopPre(t1, n, cs, i + 1, rk) && CancelHalfway(t0, t1, cs, i + 1)
    ensures CancelChildren(t, n, cs, i, rk, pick) == CancelChildren(t1, n, cs, i + 1, rk, pick)
  {
    var c := cs[i];
    assert c in Children(t.shape[n].kind);
    t1 := CancelNode(t, c, rk, pick);
    KeepsBelow(t, t1, c, n, rk);
    assert StatusAt(t1, c) == Some(Canceling(t.shape[c].name));
    HalfwayAfterCancel(t0, t, t1, cs, i, rk);
  }

  /** cancel_children skips a PENDING child. */
  lemma CancelChildSkip(t0: Tree, t: Tree, n: NodeId, cs: seq<NodeId>, i: nat, rk: Rank, pick: nat -> nat)
    requires LoopPre(t, n, cs, i, rk) && i < |cs| && CancelHalfway(t0, t, cs, i)
    requires t.dyn[cs[i]].result.code == Pending
    ensures CancelHalfway(t0, t, cs, i + 1)
    ensures CancelChildren(t, n, cs, i, rk, pick) == CancelChildren(t, n, cs, i + 1, rk, pick)
  {
    assert cs[i] in Children(t.shape[n].kind);
  }

  lemma {:induction false} CancelChildrenFrom(t0: Tree, t: Tree, n: NodeId, cs: seq<NodeId>, i: nat, rk: Rank, pick: nat -> nat)
    requires LoopPre(t, n, cs, i, rk) && Siblings(cs, rk) && Distinct(cs) && CancelHalfway(t0, t, cs, i)
    ensures CancelHalfway(t0, CancelChildren(t, n, cs, i, rk, pick), cs, |cs|)
    decreases |cs| - i, 1
  {
    if i == |cs| {
      assert CancelChildren(t, n, cs, i, rk, pick) == t;
    } else if t.dyn[cs[i]].result.code != Pending {
      CancelChildrenOn(t0, t, n, cs, i, rk, pick);
    } else {
      CancelChildrenPast(t0, t, n, cs, i, rk, pick);
    }
  }

  lemma {:induction false} CancelChildrenOn(t0: Tree, t: Tree, n: NodeId, cs: seq<NodeId>, i: nat, rk: Rank, pick: nat -> nat)
    requires LoopPre(t, n, cs, i, rk) && i < |cs| && Siblings(cs, rk) && Distinct(cs) && CancelHalfway(t0, t, cs, i)
    requires t.dyn[cs[i]].result.code != Pending
    ensures CancelHalfway(t0, CancelChildren(t, n, cs, i, rk, pick), cs, |cs|)
    decreases |cs| - i, 0
  {
    var t1 := CancelChildStep(t0, t, n, cs, i, rk, pick);
    CancelChildrenFrom(t0, t1, n, cs, i + 1, rk, pick);
  }

  lemma {:induction false} CancelChildrenPast(t0: Tree, t: Tree, n: NodeId, cs: seq<NodeId>, i: nat, rk: Rank, pick: nat -> nat)
    requires LoopPre(t, n, cs, i, rk) && i < |cs| && Siblings(cs, rk) && Distinct(cs) && CancelHalfway(t0, t, cs, i)
    requires t.dyn[cs[i]].result.code == Pending
    ensures CancelHalfway(t0, CancelChildren(t, n, cs, i, rk, pick), cs, |cs|)
    decreases |cs| - i, 0
  {
    CancelChildSkip(t0, t, n, cs, i, rk, pick);
    CancelChildrenFrom(t0, t, n, cs, i + 1, rk, pick);
  }

  /**
   * cancel_children, over a child list without repeats where no child sits
   * below a sibling: every child that was not PENDING is canceled, and every
   * PENDING child keeps its record and status.
   */
  lemma CancelChildrenCancels(t: Tree, n: NodeId, cs: seq<NodeId>, rk: Rank, pick: nat -> nat)
    requires LoopPre(t, n, cs, 0, rk) && Siblings(cs, rk) && Distinct(cs)
    ensures var r := CancelChildren(t, n, cs, 0, rk, pick);
            forall c | c in cs :: CancelDone(t, r, c)
  {
    assert forall j | 0 <= j < |cs| :: cs[j] in t.dyn by {
      assert forall j | 0 <= j < |cs| :: cs[j] in Children(t.shape[n].kind);
    }
    CancelChildrenFrom(t, t, n, cs, 0, rk, pick);
    var r := CancelChildren(t, n, cs, 0, rk, pick);
    forall c | c in cs
      ensures CancelDone(t, r, c)
    {
      var j :| 0 <= j < |cs| && cs[j] == c;
    }
  }

  /** A step that changes the record and status of n alone keeps what cancel_children did to the children. */
  lemma CancelDoneKept(t: Tree, t1: Tree, r: Tree, n: NodeId, cs: seq<NodeId>, st: NodeStatus)
    requires forall c | c in cs :: c != n && CancelDone(t, t1, c)
    requires r.shape == t1.shape && n in r.dyn && r.dyn == t1.dyn[n := r.dyn[n]] && r.board.status == t1.board.status[n := st]
    ensures forall c | c in cs :: CancelDone(t, r, c)
  {
  }

  /** A behavior's _cancel cancels its running children first (see CancelChildrenCancels), then itself. */
  lemma BehaviorCancelsChildren(t: Tree, n: NodeId, p: Policy, cs: seq<NodeId>, rk: Rank, pick: nat -> nat)
    requires WF(t, rk) && n in t.shape && t.shape[n].kind == BehaviorNode(p, cs) && Siblings(cs, rk) && Distinct(cs)
    ensures var r := CancelNode(t, n, rk, pick);
            CanceledNode(r, n) && forall c | c in cs :: CancelDone(t, r, c)
  {
    var t1 := CancelChildren(t, n, cs, 0, rk, pick);
    KeepsWF(t, t1, n, rk);
    CancelChildrenCancels(t, n, cs, rk, pick);
    var r := NodeCancel(t1, n, rk, pick);
    NodeCancelOnlyItself(t1, n, rk, pick);
    assert forall c | c in cs :: c != n by {
      assert forall c | c in cs :: c in Children(t.shape[n].kind);
    }
    CancelDoneKept(t, t1, r, n, cs, Canceling(t.shape[n].name));
    assert StatusAt(r, n) == Some(Canceling(t.shape[n].name));
    assert CancelNode(t, n, rk, pick) == r;
  }

  /** A decorator's configure callback writes its node data at most: no node record changes but its own. */
  lemma DecoratorConfigureOnlyItself(t: Tree, n: NodeId, k: DecoratorKind, c: NodeId, rk: Rank, pick: nat -> nat)
    requires WF(t, rk) && n in t.shape && t.shape[n].kind == DecoratorNode(k, c)
    ensures var r := NodeConfigure(t, n, rk, pick); n in r.dyn && r.dyn == t.dyn[n := r.dyn[n]]
  {
    assert ConfigureCallback(t, n, rk, pick).dyn == t.dyn;
  }

  /** A decorator's _configure configures its child first: the child is left ACTIVE, "Configured <child>". */
  lemma DecoratorConfiguresChild(t: Tree, n: NodeId, k: DecoratorKind, c: NodeId, rk: Rank, pick: nat -> nat)
    requires WF(t, rk) && n in t.shape && t.shape[n].kind == DecoratorNode(k, c)
    ensures var r := Configure(t, n, rk, pick);
            c in t.shape && c in r.dyn && r.dyn[c].result == Configured(t.shape[c].name) && r.dyn[c].force == t.dyn[c].force
  {
    assert c in Children(t.shape[n].kind);
    var t1 := Configure(t, c, rk, pick);
    KeepsBelow(t, t1, c, n, rk);
    DecoratorConfigureOnlyItself(t1, n, k, c, rk, pick);
    assert Configure(t, n, rk, pick) == NodeConfigure(t1, n, rk, pick);
  }

  /** A decorator's _cancel cancels its child first, then itself. */
  lemma DecoratorCancelsChild(t: Tree, n: NodeId, k: DecoratorKind, c: NodeId, rk: Rank, pick: nat -> nat)
    requires WF(t, rk) && n in t.shape && t.shape[n].kind == DecoratorNode(k, c)
    ensures var r := CancelNode(t, n, rk, pick); CanceledNode(r, c) && CanceledNode(r, n)
  {
    assert c in Children(t.shape[n].kind);
    var t1 := CancelNode(t, c, rk, pick);
    KeepsBelow(t, t1, c, n, rk);
    NodeCancelOnlyItself(t1, n, rk, pick);
    assert CancelNode(t, n, rk, pick) == NodeCancel(t1, n, rk, pick);
  }

  /**
   * A decorator's _cleanup cleans its child up first, so the child is left
   * PENDING, "Cleaned up <child>". When the decorator itself was still ACTIVE,
   * Node._cleanup then cancels it, and its _cancel cancels the child again:
   * the child is left canceled instead.
   */
  lemma DecoratorCleanupChild(t: Tree, n: NodeId, k: DecoratorKind, c: NodeId, rk: Rank, pick: nat -> nat)
    requires WF(t, rk) && n in t.shape && t.shape[n].kind == DecoratorNode(k, c)
    ensures var r := Cleanup(t, n, rk, pick);
            if t.dyn[n].result.code == Active then CanceledNode(r, c)
            else c in t.shape && c in r.dyn && r.dyn[c].result == Cleaned(t.shape[c].name) && r.dyn[c].force.None?
  {
    assert c in Children(t.shape[n].kind);
    var t1 := Cleanup(t, c, rk, pick);
    KeepsBelow(t, t1, c, n, rk);
    var t2 := if t1.dyn[n].result.code == Active then CancelNode(t1, n, rk, pick) else t1;
    if t1.dyn[n].result.code == Active {
      DecoratorCancelsChild(t1, n, k, c, rk, pick);
    }
    assert Cleanup(t, n, rk, pick) == NodeCleanup(t1, n, rk, pick);
    assert NodeCleanup(t1, n, rk, pick) == SetDyn(t2, n, t2.dyn[n].(force := None, result := Cleaned(t.shape[n].name)));
  }
}
