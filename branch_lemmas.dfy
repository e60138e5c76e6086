// The branch policies' run loops meet the rules of BranchRules, and the empty-children cases.
module BranchLemmas {
  import opened Wrappers
  import opened NodeStatuses
  import opened Branches
  import opened TreeSpec
  import opened BranchRules
  import opened TreeLemmas

  /** One pass of Selector's loop: stop on a running or successful child, else go on with the next. */
  lemma SelectorStep(t: Tree, n: NodeId, cs: seq<NodeId>, i: nat, rk: Rank, pick: nat -> nat) returns (s: Step)
    requires LoopPre(t, n, cs, i, rk) && i < |cs|
    ensures var o := SelectorLoop(t, n, cs, i, rk, pick);
            if Unfinished(s.status.code) || s.status.code == Success then
              StoppedAt(o, cs, i, s.status) && o.status.code == (if s.status.code == Success then Success else Active)
            else
              LoopPre(s.tree, n, cs, i + 1, rk) && o == Cons(cs[i], s.status, SelectorLoop(s.tree, n, cs, i + 1, rk, pick))
  {
    assert cs[i] in Children(t.shape[n].kind);
    s := TickChild(t, n, cs[i], rk, pick);
    KeepsWF(t, s.tree, n, rk);
  }

  /** Selector's loop: see SelectorRule. */
  lemma {:induction false} SelectorLoopRule(t: Tree, n: NodeId, cs: seq<NodeId>, i: nat, rk: Rank, pick: nat -> nat)
    requires LoopPre(t, n, cs, i, rk)
    ensures SelectorRule(SelectorLoop(t, n, cs, i, rk, pick), cs, i)
    decreases |cs| - i, 1
  {
    if i == |cs| {
      SelectorEnd(SelectorLoop(t, n, cs, i, rk, pick), cs, i);
    } else {
      SelectorLoopTick(t, n, cs, i, rk, pick);
    }
  }

  lemma {:induction false} SelectorLoopTick(t: Tree, n: NodeId, cs: seq<NodeId>, i: nat, rk: Rank, pick: nat -> nat)
    requires LoopPre(t, n, cs, i, rk) && i < |cs|
    ensures SelectorRule(SelectorLoop(t, n, cs, i, rk, pick), cs, i)
    decreases |cs| - i, 0
  {
    var s := SelectorStep(t, n, cs, i, rk, pick);
    if Unfinished(s.status.code) || s.status.code == Success {
      SelectorStop(SelectorLoop(t, n, cs, i, rk, pick), cs, i, s.status);
    } else {
      SelectorLoopRule(s.tree, n, cs, i + 1, rk, pick);
      SelectorCons(cs[i], s.status, SelectorLoop(s.tree, n, cs, i + 1, rk, pick), cs, i);
    }
  }

  /** One pass of Sequencer's loop: stop on a running or unsuccessful child, else go on with the next. */
  lemma SequencerStep(t: Tree, n: NodeId, cs: seq<NodeId>, i: nat, rk: Rank, pick: nat -> nat) returns (s: Step)
    requires LoopPre(t, n, cs, i, rk) && i < |cs|
    ensures var o := SequencerLoop(t, n, cs, i, rk, pick);
            if s.status.code != Success then
              StoppedAt(o, cs, i, s.status) && o.status.code == (if Unfinished(s.status.code) then Active else Fail)
            else
              LoopPre(s.tree, n, cs, i + 1, rk) && o == Cons(cs[i], s.status, SequencerLoop(s.tree, n, cs, i + 1, rk, pick))
  {
    assert cs[i] in Children(t.shape[n].kind);
    s := TickChild(t, n, cs[i], rk, pick);
    KeepsWF(t, s.tree, n, rk);
  }

  /** Sequencer's loop: see SequencerRule. */
  lemma {:induction false} SequencerLoopRule(t: Tree, n: NodeId, cs: seq<NodeId>, i: nat, rk: Rank, pick: nat -> nat)
    requires LoopPre(t, n, cs, i, rk)
    ensures SequencerRule(SequencerLoop(t, n, cs, i, rk, pick), cs, i)
    decreases |cs| - i, 1
  {
    if i == |cs| {
      SequencerEnd(SequencerLoop(t, n, cs, i, rk, pick), cs, i);
    } else {
      SequencerLoopTick(t, n, cs, i, rk, pick);
    }
  }

  lemma {:induction false} SequencerLoopTick(t: Tree, n: NodeId, cs: seq<NodeId>, i: nat, rk: Rank, pick: nat -> nat)
    requires LoopPre(t, n, cs, i, rk) && i < |cs|
    ensures SequencerRule(SequencerLoop(t, n, cs, i, rk, pick), cs, i)
    decreases |cs| - i, 0
  {
    var s := SequencerStep(t, n, cs, i, rk, pick);
    if s.status.code != Success {
      SequencerStop(SequencerLoop(t, n, cs, i, rk, pick), cs, i, s.status);
    } else {
      SequencerLoopRule(s.tree, n, cs, i + 1, rk, pick);
      SequencerCons(cs[i], s.status, SequencerLoop(s.tree, n, cs, i + 1, rk, pick), cs, i);
    }
  }

  /** One pass of Runner's loop: stop on a running child, else go on with the next. */
  lemma RunnerStep(t: Tree, n: NodeId, cs: seq<NodeId>, i: nat, rk: Rank, pick: nat -> nat) returns (s: Step)
    requires LoopPre(t, n, cs, i, rk) && i < |cs|
    ensures var o := RunnerLoop(t, n, cs, i, rk, pick);
            if Unfinished(s.status.code) then
              StoppedAt(o, cs, i, s.status) && o.status.code == Active
            else
              LoopPre(s.tree, n, cs, i + 1, rk) && o == Cons(cs[i], s.status, RunnerLoop(s.tree, n, cs, i + 1, rk, pick))
  {
    assert cs[i] in Children(t.shape[n].kind);
    s := TickChild(t, n, cs[i], rk, pick);
    KeepsWF(t, s.tree, n, rk);
  }

  /** Runner's loop: see RunnerRule. */
  lemma {:induction false} RunnerLoopRule(t: Tree, n: NodeId, cs: seq<NodeId>, i: nat, rk: Rank, pick: nat -> nat)
    requires LoopPre(t, n, cs, i, rk)
    ensures RunnerRule(RunnerLoop(t, n, cs, i, rk, pick), cs, i)
    decreases |cs| - i, 1
  {
    if i == |cs| {
      RunnerEnd(RunnerLoop(t, n, cs, i, rk, pick), cs, i);
    } else {
      RunnerLoopTick(t, n, cs, i, rk, pick);
    }
  }

  lemma {:induction false} RunnerLoopTick(t: Tree, n: NodeId, cs: seq<NodeId>, i: nat, rk: Rank, pick: nat -> nat)
    requires LoopPre(t, n, cs, i, rk) && i < |cs|
    ensures RunnerRule(RunnerLoop(t, n, cs, i, rk, pick), cs, i)
    decreases |cs| - i, 0
  {
    var s := RunnerStep(t, n, cs, i, rk, pick);
    if Unfinished(s.status.code) {
      RunnerStop(RunnerLoop(t, n, cs, i, rk, pick), cs, i, s.status);
    } else {
      RunnerLoopRule(s.tree, n, cs, i + 1, rk, pick);
      RunnerCons(cs[i], s.status, RunnerLoop(s.tree, n, cs, i + 1, rk, pick), cs, i);
    }
  }

  /** One pass of First's loop: stop on a FAIL or SUCCESS, else go on with the next. */
  lemma FirstStep(t: Tree, n: NodeId, cs: seq<NodeId>, i: nat, rk: Rank, pick: nat -> nat) returns (s: Step)
    requires LoopPre(t, n, cs, i, rk) && i < |cs|
    ensures var o := FirstLoop(t, n, cs, i, rk, pick);
            if Decided(s.status.code) then
              StoppedAt(o, cs, i, s.status) && o.status == s.status
            else
              LoopPre(s.tree, n, cs, i + 1, rk) && o == Cons(cs[i], s.status, FirstLoop(s.tree, n, cs, i + 1, rk, pick))
  {
    assert cs[i] in Children(t.shape[n].kind);
    s := TickChild(t, n, cs[i], rk, pick);
    KeepsWF(t, s.tree, n, rk);
  }

  /** First's loop: see FirstRule. */
  lemma {:induction false} FirstLoopRule(t: Tree, n: NodeId, cs: seq<NodeId>, i: nat, rk: Rank, pick: nat -> nat)
    requires LoopPre(t, n, cs, i, rk)
    ensures FirstRule(FirstLoop(t, n, cs, i, rk, pick), cs, i)
    decreases |cs| - i, 1
  {
    if i == |cs| {
      FirstEnd(FirstLoop(t, n, cs, i, rk, pick), cs, i);
    } else {
      FirstLoopTick(t, n, cs, i, rk, pick);
    }
  }

  lemma {:induction false} FirstLoopTick(t: Tree, n: NodeId, cs: seq<NodeId>, i: nat, rk: Rank, pick: nat -> nat)
    requires LoopPre(t, n, cs, i, rk) && i < |cs|
    ensures FirstRule(FirstLoop(t, n, cs, i, rk, pick), cs, i)
    decreases |cs| - i, 0
  {
    var s := FirstStep(t, n, cs, i, rk, pick);
    if Decided(s.status.code) {
      FirstStop(FirstLoop(t, n, cs, i, rk, pick), cs, i, s.status);
    } else {
      FirstLoopRule(s.tree, n, cs, i + 1, rk, pick);
      FirstCons(cs[i], s.status, FirstLoop(s.tree, n, cs, i + 1, rk, pick), cs, i);
    }
  }

  /** One pass of Any's loop: skip a child that is not open, stop on a SUCCESS, else go on with the next. */
  lemma AnyStep(t: Tree, n: NodeId, cs: seq<NodeId>, i: nat, active: bool, rk: Rank, pick: nat -> nat) returns (s: Step)
    requires LoopPre(t, n, cs, i, rk) && i < |cs| && cs[i] in t.dyn[n].open
    ensures n in s.tree.dyn && s.tree.dyn[n].open == OpenAfter(t.dyn[n].open, cs[i], s.status.code == Active)
    ensures var o := AnyLoop(t, n, cs, i, active, rk, pick);
            if s.status.code == Success then
              StoppedAt(o, cs, i, s.status) && o.status.code == Success
            else
              LoopPre(s.tree, n, cs, i + 1, rk)
              && o == Cons(cs[i], s.status, AnyLoop(s.tree, n, cs, i + 1, active || Unfinished(s.status.code), rk, pick))
  {
    assert cs[i] in Children(t.shape[n].kind);
    s := TickChild(t, n, cs[i], rk, pick);
    KeepsWF(t, s.tree, n, rk);
  }

  /** Any's loop: see AnyRule. */
  lemma {:induction false} AnyLoopRule(t: Tree, n: NodeId, cs: seq<NodeId>, i: nat, active: bool, rk: Rank, pick: nat -> nat)
    requires LoopPre(t, n, cs, i, rk)
    ensures AnyRule(AnyLoop(t, n, cs, i, active, rk, pick), cs, i, active)
    decreases |cs| - i, 1
  {
    if i == |cs| {
      AnyEnd(AnyLoop(t, n, cs, i, active, rk, pick), cs, i, active);
    } else if cs[i] !in t.dyn[n].open {
      AnyLoopRule(t, n, cs, i + 1, active, rk, pick);
      AnySkip(AnyLoop(t, n, cs, i, active, rk, pick), cs, i, active);
    } else {
      AnyLoopTick(t, n, cs, i, active, rk, pick);
    }
  }

  lemma {:induction false} AnyLoopTick(t: Tree, n: NodeId, cs: seq<NodeId>, i: nat, active: bool, rk: Rank, pick: nat -> nat)
    requires LoopPre(t, n, cs, i, rk) && i < |cs| && cs[i] in t.dyn[n].open
    ensures AnyRule(AnyLoop(t, n, cs, i, active, rk, pick), cs, i, active)
    decreases |cs| - i, 0
  {
    var s := AnyStep(t, n, cs, i, active, rk, pick);
    if s.status.code == Success {
      AnyStop(AnyLoop(t, n, cs, i, active, rk, pick), cs, i, s.status, active);
    } else {
      var a := active || Unfinished(s.status.code);
      AnyLoopRule(s.tree, n, cs, i + 1, a, rk, pick);
      AnyCons(cs[i], s.status, AnyLoop(s.tree, n, cs, i + 1, a, rk, pick), cs, i, active);
    }
  }

  /** One pass of All's loop: skip a child that is not open, stop on a FAIL, else go on with the next. */
  lemma AllStep(t: Tree, n: NodeId, cs: seq<NodeId>, i: nat, active: bool, rk: Rank, pick: nat -> nat) returns (s: Step)
    requires LoopPre(t, n, cs, i, rk) && i < |cs| && cs[i] in t.dyn[n].open
    ensures n in s.tree.dyn && s.tree.dyn[n].open == OpenAfter(t.dyn[n].open, cs[i], s.status.code == Active)
    ensures var o := AllLoop(t, n, cs, i, active, rk, pick);
            if s.status.code == Fail then
              StoppedAt(o, cs, i, s.status) && o.status.code == Fail
            else
              LoopPre(s.tree, n, cs, i + 1, rk)
              && o == Cons(cs[i], s.status, AllLoop(s.tree, n, cs, i + 1, active || Unfinished(s.status.code), rk, pick))
  {
    assert cs[i] in Children(t.shape[n].kind);
    s := TickChild(t, n, cs[i], rk, pick);
    KeepsWF(t, s.tree, n, rk);
  }

  /** All's loop: see AllRule. */
  lemma {:induction false} AllLoopRule(t: Tree, n: NodeId, cs: seq<NodeId>, i: nat, active: bool, rk: Rank, pick: nat -> nat)
    requires LoopPre(t, n, cs, i, rk)
    ensures AllRule(AllLoop(t, n, cs, i, active, rk, pick), cs, i, active)
    decreases |cs| - i, 1
  {
    if i == |cs| {
      AllEnd(AllLoop(t, n, cs, i, active, rk, pick), cs, i, active);
    } else if cs[i] !in t.dyn[n].open {
      AllLoopRule(t, n, cs, i + 1, active, rk, pick);
      AllSkip(AllLoop(t, n, cs, i, active, rk, pick), cs, i, active);
    } else {
      AllLoopTick(t, n, cs, i, active, rk, pick);
    }
  }

  lemma {:induction false} AllLoopTick(t: Tree, n: NodeId, cs: seq<NodeId>, i: nat, active: bool, rk: Rank, pick: nat -> nat)
    requires LoopPre(t, n, cs, i, rk) && i < |cs| && cs[i] in t.dyn[n].open
    ensures AllRule(AllLoop(t, n, cs, i, active, rk, pick), cs, i, active)
    decreases |cs| - i, 0
  {
    var s := AllStep(t, n, cs, i, active, rk, pick);
    if s.status.code == Fail {
      AllStop(AllLoop(t, n, cs, i, active, rk, pick), cs, i, s.status, active);
    } else {
      var a := active || Unfinished(s.status.code);
      AllLoopRule(s.tree, n, cs, i + 1, a, rk, pick);
      AllCons(cs[i], s.status, AllLoop(s.tree, n, cs, i + 1, a, rk, pick), cs, i, active);
    }
  }

  /**
   * One pass of Majority's loop over an open child: tick it, count its result,
   * and stop once failures or successes are a majority.
   */
  lemma MajorityStep(t: Tree, n: NodeId, cs: seq<NodeId>, i: nat, rk: Rank, pick: nat -> nat) returns (st: NodeStatus, t2: Tree)
    requires LoopPre(t, n, cs, i, rk) && i < |cs| && cs[i] in t.dyn[n].open
    ensures n in t2.dyn && t2.dyn[n].open == OpenAfter(t.dyn[n].open, cs[i], st.code == Active)
    ensures t2.dyn[n].numFail == t.dyn[n].numFail + (if st.code == Fail then 1 else 0)
    ensures t2.dyn[n].numSucceed == t.dyn[n].numSucceed + (if st.code == Success then 1 else 0)
    ensures var o := MajorityLoop(t, n, cs, i, rk, pick);
            if MajorityFailed(t2.dyn[n].numFail, |cs|) then
              StoppedAt(o, cs, i, st) && o.status.code == Fail && o.tree == t2
            else if MajoritySucceeded(t2.dyn[n].numSucceed, |cs|) then
              StoppedAt(o, cs, i, st) && o.status.code == Success && o.tree == t2
            else
              LoopPre(t2, n, cs, i + 1, rk) && o == Cons(cs[i], st, MajorityLoop(t2, n, cs, i + 1, rk, pick))
  {
    assert cs[i] in Children(t.shape[n].kind);
    var s := TickChild(t, n, cs[i], rk, pick);
    KeepsWF(t, s.tree, n, rk);
    st := s.status;
    t2 := Tally(s.tree, n, st, rk);
  }

  /** Majority's loop: see MajorityRule; the counters start from the ones stored in the node. */
  lemma {:induction false} MajorityLoopRule(t: Tree, n: NodeId, cs: seq<NodeId>, i: nat, rk: Rank, pick: nat -> nat)
    requires LoopPre(t, n, cs, i, rk)
    ensures var o := MajorityLoop(t, n, cs, i, rk, pick);
            MajorityRule(o, cs, i, t.dyn[n].numFail, t.dyn[n].numSucceed, o.tree.dyn[n].numFail, o.tree.dyn[n].numSucceed)
    decreases |cs| - i, 1
  {
    var o := MajorityLoop(t, n, cs, i, rk, pick);
    if i == |cs| {
      MajorityEnd(o, cs, i, t.dyn[n].numFail, t.dyn[n].numSucceed);
    } else if cs[i] !in t.dyn[n].open {
      MajorityLoopRule(t, n, cs, i + 1, rk, pick);
      MajoritySkip(o, cs, i, t.dyn[n].numFail, t.dyn[n].numSucceed, o.tree.dyn[n].numFail, o.tree.dyn[n].numSucceed);
    } else {
      MajorityLoopTick(t, n, cs, i, rk, pick);
    }
  }

  lemma {:induction false} MajorityLoopTick(t: Tree, n: NodeId, cs: seq<NodeId>, i: nat, rk: Rank, pick: nat -> nat)
    requires LoopPre(t, n, cs, i, rk) && i < |cs| && cs[i] in t.dyn[n].open
    ensures var o := MajorityLoop(t, n, cs, i, rk, pick);
            MajorityRule(o, cs, i, t.dyn[n].numFail, t.dyn[n].numSucceed, o.tree.dyn[n].numFail, o.tree.dyn[n].numSucceed)
    decreases |cs| - i, 0
  {
    var o := MajorityLoop(t, n, cs, i, rk, pick);
    var st, t2 := MajorityStep(t, n, cs, i, rk, pick);
    var nf, ns := o.tree.dyn[n].numFail, o.tree.dyn[n].numSucceed;
    if MajorityFailed(t2.dyn[n].numFail, |cs|) || MajoritySucceeded(t2.dyn[n].numSucceed, |cs|) {
      MajorityStop(o, cs, i, st, t.dyn[n].numFail, t.dyn[n].numSucceed, nf, ns);
    } else {
      MajorityLoopRule(t2, n, cs, i + 1, rk, pick);
      MajorityCons(cs[i], st, MajorityLoop(t2, n, cs, i + 1, rk, pick), cs, i, t.dyn[n].numFail, t.dyn[n].numSucceed, nf, ns);
    }
  }

  /** Progressor's loop at the stored index stops when the child there does not succeed. */
  lemma ProgressorStops(t: Tree, n: NodeId, cs: seq<NodeId>, i: nat, rk: Rank, pick: nat -> nat) returns (st: NodeStatus)
    requires LoopPre(t, n, cs, i, rk) && i < |cs| && t.dyn[n].index == i
    requires cs[i] in t.shape && Below(rk, n, cs[i]) && TickChild(t, n, cs[i], rk, pick).status.code != Success
    ensures var o := ProgressorLoop(t, n, cs, i, rk, pick);
            StoppedAt(o, cs, i, st) && o.status.code == (if Unfinished(st.code) then Active else st.code)
            && o.tree.dyn[n].index == i
  {
    var s := TickChild(t, n, cs[i], rk, pick);
    st := s.status;
    assert ProgressorLoop(t, n, cs, i, rk, pick).tree == s.tree;
  }

  /** Progressor's loop at the stored index moves the index past a child that succeeds and goes on. */
  lemma ProgressorMoves(t: Tree, n: NodeId, cs: seq<NodeId>, i: nat, rk: Rank, pick: nat -> nat) returns (st: NodeStatus, t2: Tree)
    requires LoopPre(t, n, cs, i, rk) && i < |cs| && t.dyn[n].index == i
    requires cs[i] in t.shape && Below(rk, n, cs[i]) && TickChild(t, n, cs[i], rk, pick).status.code == Success
    ensures st.code == Success && LoopPre(t2, n, cs, i + 1, rk) && t2.dyn[n].index == i + 1
    ensures ProgressorLoop(t, n, cs, i, rk, pick) == Cons(cs[i], st, ProgressorLoop(t2, n, cs, i + 1, rk, pick))
  {
    var s := TickChild(t, n, cs[i], rk, pick);
    KeepsWF(t, s.tree, n, rk);
    st := s.status;
    t2 := Advance(s.tree, n, rk);
  }

  /** Progressor's loop: see ProgressorRule; ticking starts at the stored index. */
  lemma {:induction false} ProgressorLoopRule(t: Tree, n: NodeId, cs: seq<NodeId>, i: nat, rk: Rank, pick: nat -> nat)
    requires LoopPre(t, n, cs, i, rk) && (i <= t.dyn[n].index || t.dyn[n].index < 0)
    ensures var o := ProgressorLoop(t, n, cs, i, rk, pick);
            ProgressorRule(o, cs, t.dyn[n].index, o.tree.dyn[n].index)
    decreases |cs| - i, 1
  {
    if i == |cs| {
      assert ProgressorLoop(t, n, cs, i, rk, pick).tree == t;
    } else if t.dyn[n].index != i {
      ProgressorLoopRule(t, n, cs, i + 1, rk, pick);
    } else {
      ProgressorLoopTick(t, n, cs, i, rk, pick);
    }
  }

  lemma {:induction false} ProgressorLoopTick(t: Tree, n: NodeId, cs: seq<NodeId>, i: nat, rk: Rank, pick: nat -> nat)
    requires LoopPre(t, n, cs, i, rk) && i < |cs| && t.dyn[n].index == i
    ensures var o := ProgressorLoop(t, n, cs, i, rk, pick);
            ProgressorRule(o, cs, i, o.tree.dyn[n].index)
    decreases |cs| - i, 0
  {
    assert cs[i] in Children(t.shape[n].kind);
    var o := ProgressorLoop(t, n, cs, i, rk, pick);
    if TickChild(t, n, cs[i], rk, pick).status.code != Success {
      var st := ProgressorStops(t, n, cs, i, rk, pick);
      ProgressorStop(o, cs, i, st);
    } else {
      ProgressorLoopMove(t, n, cs, i, rk, pick);
    }
  }

  lemma {:induction false} ProgressorLoopMove(t: Tree, n: NodeId, cs: seq<NodeId>, i: nat, rk: Rank, pick: nat -> nat)
    requires LoopPre(t, n, cs, i, rk) && i < |cs| && t.dyn[n].index == i
    requires cs[i] in t.shape && Below(rk, n, cs[i]) && TickChild(t, n, cs[i], rk, pick).status.code == Success
    ensures var o := ProgressorLoop(t, n, cs, i, rk, pick);
            ProgressorRule(o, cs, i, o.tree.dyn[n].index)
    decreases |cs| - i, 0, 0
  {
    var st, t2 := ProgressorMoves(t, n, cs, i, rk, pick);
    ProgressorLoopRule(t2, n, cs, i + 1, rk, pick);
    var o2 := ProgressorLoop(t2, n, cs, i + 1, rk, pick);
    ProgressorCons(cs[i], st, o2, cs, i, o2.tree.dyn[n].index);
  }

  /**
   * Random's run: SUCCESS when configure chose no child; otherwise every
   * child's status is reset, the chosen child is ticked and its answer is
   * returned and published, it enters or leaves the open list, and every other
   * child is left PENDING and untouched.
   */
  lemma RandomRunRule(t: Tree, n: NodeId, cs: seq<NodeId>, rk: Rank, pick: nat -> nat)
    requires WF(t, rk) && n in t.shape && t.shape[n].kind == BehaviorNode(RandomPick, cs)
    ensures var r := RandomRun(t, n, rk, pick);
            match t.dyn[n].chosen
            case None => r == Step(t, NodeStatus(Success, "No child selected"))
            case Some(c) =>
              r.status == Tick(Reset(t, n, rk), c, rk, pick).status
              && StatusAt(r.tree, c) == Some(r.status)
              && r.tree.dyn[n].open == OpenAfter(t.dyn[n].open, c, r.status.code == Active)
              && (c in cs && Siblings(cs, rk) ==>
                    forall d | d in cs && d != c :: StatusAt(r.tree, d) == Some(Default) && DynAt(r.tree, d) == DynAt(t, d))
  {
    match t.dyn[n].chosen
    case None =>
    case Some(c) =>
      var reset := Reset(t, n, rk);
      var r := RandomRun(t, n, rk, pick);
      assert r == TickChild(reset, n, c, rk, pick);
      if c in cs && Siblings(cs, rk) {
        forall d | d in cs && d != c
          ensures StatusAt(r.tree, d) == Some(Default) && DynAt(r.tree, d) == DynAt(t, d)
        {
          assert Children(t.shape[n].kind) == cs;
          TickChildSiblings(reset, n, c, d, rk, pick);
        }
      }
  }

  /** With no children, each policy answers at once: see EmptyCode. */
  lemma EmptyChildren(t: Tree, n: NodeId, p: Policy, rk: Rank, pick: nat -> nat)
    requires WF(t, rk) && n in t.shape && t.shape[n].kind == BehaviorNode(p, [])
    requires p == RandomPick ==> t.dyn[n].chosen.None?
    ensures PolicyRun(t, n, p, [], rk, pick).status.code == EmptyCode(p)
  {
    var r := PolicyRun(t, n, p, [], rk, pick);
    match p
    case Selector => SelectorLoopRule(Reset(t, n, rk), n, [], 0, rk, pick);
    case Sequencer => SequencerLoopRule(Reset(t, n, rk), n, [], 0, rk, pick);
    case Runner => RunnerLoopRule(Reset(t, n, rk), n, [], 0, rk, pick);
    case AnyOf => AnyLoopRule(t, n, [], 0, false, rk, pick);
    case AllOf => AllLoopRule(t, n, [], 0, false, rk, pick);
    case RandomPick => RandomRunRule(t, n, [], rk, pick);
    case Progressor => ProgressorLoopRule(t, n, [], 0, rk, pick);
    case Majority => MajorityLoopRule(t, n, [], 0, rk, pick);
    case First => FirstLoopRule(t, n, [], 0, rk, pick);
  }

  /** The configure callback of a behavior starts its bookkeeping over. */
  lemma BehaviorConfigureStartsOver(t: Tree, n: NodeId, p: Policy, cs: seq<NodeId>, rk: Rank, pick: nat -> nat)
    requires WF(t, rk) && n in t.shape && t.shape[n].kind == BehaviorNode(p, cs)
    ensures var d := ConfigureCallback(t, n, rk, pick).dyn[n];
            && ((p == AnyOf || p == AllOf) ==> d == t.dyn[n].(open := cs))
            && (p == Majority ==> d == t.dyn[n].(numFail := 0, numSucceed := 0, open := cs))
            && (p == Progressor ==> d == t.dyn[n].(index := 0))
            && (p == RandomPick ==> (d.chosen.None? <==> |cs| == 0) && (d.chosen.Some? ==> d.chosen.value in cs))
            && (!HasConfigure(p) ==> d == t.dyn[n])
  {
    if HasConfigure(p) {
      assert Memory(t, n).dyn == t.dyn;
    }
  }

  /** One open child ticked by Any: the open list does not grow. */
  lemma AnyShrinkStep(t: Tree, n: NodeId, cs: seq<NodeId>, i: nat, active: bool, rk: Rank, pick: nat -> nat) returns (s: Step)
    requires LoopPre(t, n, cs, i, rk) && i < |cs| && cs[i] in t.dyn[n].open
    ensures n in s.tree.dyn && multiset(s.tree.dyn[n].open) <= multiset(t.dyn[n].open)
    ensures var o := AnyLoop(t, n, cs, i, active, rk, pick);
            if s.status.code == Success then o.tree == s.tree
            else LoopPre(s.tree, n, cs, i + 1, rk)
                 && o.tree == AnyLoop(s.tree, n, cs, i + 1, active || Unfinished(s.status.code), rk, pick).tree
  {
    assert cs[i] in Children(t.shape[n].kind);
    s := TickChild(t, n, cs[i], rk, pick);
    KeepsWF(t, s.tree, n, rk);
  }

  /** Any never adds to its open list while it runs: configure is the only place that fills it. */
  lemma {:induction false} AnyLoopShrinks(t: Tree, n: NodeId, cs: seq<NodeId>, i: nat, active: bool, rk: Rank, pick: nat -> nat)
    requires LoopPre(t, n, cs, i, rk)
    ensures multiset(AnyLoop(t, n, cs, i, active, rk, pick).tree.dyn[n].open) <= multiset(t.dyn[n].open)
    decreases |cs| - i, 1
  {
    if i < |cs| {
      if cs[i] !in t.dyn[n].open {
        AnyLoopShrinks(t, n, cs, i + 1, active, rk, pick);
      } else {
        AnyShrinkTick(t, n, cs, i, active, rk, pick);
      }
    }
  }

  lemma {:induction false} AnyShrinkTick(t: Tree, n: NodeId, cs: seq<NodeId>, i: nat, active: bool, rk: Rank, pick: nat -> nat)
    requires LoopPre(t, n, cs, i, rk) && i < |cs| && cs[i] in t.dyn[n].open
    ensures multiset(AnyLoop(t, n, cs, i, active, rk, pick).tree.dyn[n].open) <= multiset(t.dyn[n].open)
    decreases |cs| - i, 0
  {
    var s := AnyShrinkStep(t, n, cs, i, active, rk, pick);
    if s.status.code != Success {
      AnyLoopShrinks(s.tree, n, cs, i + 1, active || Unfinished(s.status.code), rk, pick);
    }
  }

  /** One open child ticked by All: the open list does not grow. */
  lemma AllShrinkStep(t: Tree, n: NodeId, cs: seq<NodeId>, i: nat, active: bool, rk: Rank, pick: nat -> nat) returns (s: Step)
    requires LoopPre(t, n, cs, i, rk) && i < |cs| && cs[i] in t.dyn[n].open
    ensures n in s.tree.dyn && multiset(s.tree.dyn[n].open) <= multiset(t.dyn[n].open)
    ensures var o := AllLoop(t, n, cs, i, active, rk, pick);
            if s.status.code == Fail then o.tree == s.tree
            else LoopPre(s.tree, n, cs, i + 1, rk)
                 && o.tree == AllLoop(s.tree, n, cs, i + 1, active || Unfinished(s.status.code), rk, pick).tree
  {
    assert cs[i] in Children(t.shape[n].kind);
    s := TickChild(t, n, cs[i], rk, pick);
    KeepsWF(t, s.tree, n, rk);
  }

  /** All never adds to its open list while it runs: configure is the only place that fills it. */
  lemma {:induction false} AllLoopShrinks(t: Tree, n: NodeId, cs: seq<NodeId>, i: nat, active: bool, rk: Rank, pick: nat -> nat)
    requires LoopPre(t, n, cs, i, rk)
    ensures multiset(AllLoop(t, n, cs, i, active, rk, pick).tree.dyn[n].open) <= multiset(t.dyn[n].open)
    decreases |cs| - i, 1
  {
    if i < |cs| {
      if cs[i] !in t.dyn[n].open {
        AllLoopShrinks(t, n, cs, i + 1, active, rk, pick);
      } else {
        AllShrinkTick(t, n, cs, i, active, rk, pick);
      }
    }
  }

  lemma {:induction false} AllShrinkTick(t: Tree, n: NodeId, cs: seq<NodeId>, i: nat, active: bool, rk: Rank, pick: nat -> nat)
    requires LoopPre(t, n, cs, i, rk) && i < |cs| && cs[i] in t.dyn[n].open
    ensures multiset(AllLoop(t, n, cs, i, active, rk, pick).tree.dyn[n].open) <= multiset(t.dyn[n].open)
    decreases |cs| - i, 0
  {
    var s := AllShrinkStep(t, n, cs, i, active, rk, pick);
    if s.status.code != Fail {
      AllLoopShrinks(s.tree, n, cs, i + 1, active || Unfinished(s.status.code), rk, pick);
    }
  }

  /**
   * Any's loop, over a child list without repeats, ticks the children that
   * were open when it started, in order, up to the first SUCCESS; all of them
   * when it answers ACTIVE or FAIL.
   */
  lemma {:induction false} AnyLoopOpen(t: Tree, n: NodeId, cs: seq<NodeId>, i: nat, active: bool, rk: Rank, pick: nat -> nat)
    requires LoopPre(t, n, cs, i, rk) && Distinct(cs)
    ensures var o := AnyLoop(t, n, cs, i, active, rk, pick);
            TicksOpen(o, cs, i, t.dyn[n].open, o.status.code == Success)
    decreases |cs| - i, 1
  {
    if i == |cs| {
      var o := AnyLoop(t, n, cs, i, active, rk, pick);
      assert o.ticked == [];
      TicksOpenEnd(o, cs, i, t.dyn[n].open, o.status.code == Success);
    } else if cs[i] !in t.dyn[n].open {
      var o := AnyLoop(t, n, cs, i + 1, active, rk, pick);
      assert AnyLoop(t, n, cs, i, active, rk, pick) == o;
      AnyLoopOpen(t, n, cs, i + 1, active, rk, pick);
      TicksOpenSkip(o, cs, i, t.dyn[n].open, o.status.code == Success);
    } else {
      AnyOpenTick(t, n, cs, i, active, rk, pick);
    }
  }

  lemma {:induction false} AnyOpenTick(t: Tree, n: NodeId, cs: seq<NodeId>, i: nat, active: bool, rk: Rank, pick: nat -> nat)
    requires LoopPre(t, n, cs, i, rk) && Distinct(cs) && i < |cs| && cs[i] in t.dyn[n].open
    ensures var o := AnyLoop(t, n, cs, i, active, rk, pick);
            TicksOpen(o, cs, i, t.dyn[n].open, o.status.code == Success)
    decreases |cs| - i, 0, 1
  {
    var s := AnyStep(t, n, cs, i, active, rk, pick);
    if s.status.code == Success {
      TicksOpenStop(AnyLoop(t, n, cs, i, active, rk, pick), cs, i, s.status, t.dyn[n].open);
    } else {
      AnyOpenMore(t, n, cs, i, active, rk, pick, s);
    }
  }

  lemma {:induction false} AnyOpenMore(t: Tree, n: NodeId, cs: seq<NodeId>, i: nat, active: bool, rk: Rank, pick: nat -> nat, s: Step)
    requires LoopPre(t, n, cs, i, rk) && Distinct(cs) && i < |cs| && cs[i] in t.dyn[n].open
    requires LoopPre(s.tree, n, cs, i + 1, rk) && s.tree.dyn[n].open == OpenAfter(t.dyn[n].open, cs[i], s.status.code == Active)
    requires s.status.code != Success
    requires AnyLoop(t, n, cs, i, active, rk, pick)
             == Cons(cs[i], s.status, AnyLoop(s.tree, n, cs, i + 1, active || Unfinished(s.status.code), rk, pick))
    ensures var o := AnyLoop(t, n, cs, i, active, rk, pick);
            TicksOpen(o, cs, i, t.dyn[n].open, o.status.code == Success)
    decreases |cs| - i, 0, 0
  {
    var a := active || Unfinished(s.status.code);
    var rest := AnyLoop(s.tree, n, cs, i + 1, a, rk, pick);
    AnyLoopOpen(s.tree, n, cs, i + 1, a, rk, pick);
    OpenInAfterTick(cs, i, t.dyn[n].open, s.status.code == Active);
    TicksOpenCons(s.status, rest, cs, i, t.dyn[n].open, rest.status.code == Success);
  }

  /**
   * All's loop, over a child list without repeats, ticks the children that
   * were open when it started, in order, up to the first FAIL; all of them
   * when it answers ACTIVE or SUCCESS.
   */
  lemma {:induction false} AllLoopOpen(t: Tree, n: NodeId, cs: seq<NodeId>, i: nat, active: bool, rk: Rank, pick: nat -> nat)
    requires LoopPre(t, n, cs, i, rk) && Distinct(cs)
    ensures var o := AllLoop(t, n, cs, i, active, rk, pick);
            TicksOpen(o, cs, i, t.dyn[n].open, o.status.code == Fail)
    decreases |cs| - i, 1
  {
    if i == |cs| {
      var o := AllLoop(t, n, cs, i, active, rk, pick);
      assert o.ticked == [];
      TicksOpenEnd(o, cs, i, t.dyn[n].open, o.status.code == Fail);
    } else if cs[i] !in t.dyn[n].open {
      var o := AllLoop(t, n, cs, i + 1, active, rk, pick);
      assert AllLoop(t, n, cs, i, active, rk, pick) == o;
      AllLoopOpen(t, n, cs, i + 1, active, rk, pick);
      TicksOpenSkip(o, cs, i, t.dyn[n].open, o.status.code == Fail);
    } else {
      AllOpenTick(t, n, cs, i, active, rk, pick);
    }
  }

  lemma {:induction false} AllOpenTick(t: Tree, n: NodeId, cs: seq<NodeId>, i: nat, active: bool, rk: Rank, pick: nat -> nat)
    requires LoopPre(t, n, cs, i, rk) && Distinct(cs) && i < |cs| && cs[i] in t.dyn[n].open
    ensures var o := AllLoop(t, n, cs, i, active, rk, pick);
            TicksOpen(o, cs, i, t.dyn[n].open, o.status.code == Fail)
    decreases |cs| - i, 0, 1
  {
    var s := AllStep(t, n, cs, i, active, rk, pick);
    if s.status.code == Fail {
      TicksOpenStop(AllLoop(t, n, cs, i, active, rk, pick), cs, i, s.status, t.dyn[n].open);
    } else {
      AllOpenMore(t, n, cs, i, active, rk, pick, s);
    }
  }

  lemma {:induction false} AllOpenMore(t: Tree, n: NodeId, cs: seq<NodeId>, i: nat, active: bool, rk: Rank, pick: nat -> nat, s: Step)
    requires LoopPre(t, n, cs, i, rk) && Distinct(cs) && i < |cs| && cs[i] in t.dyn[n].open
    requires LoopPre(s.tree, n, cs, i + 1, rk) && s.tree.dyn[n].open == OpenAfter(t.dyn[n].open, cs[i], s.status.code == Active)
    requires s.status.code != Fail
    requires AllLoop(t, n, cs, i, active, rk, pick)
             == Cons(cs[i], s.status, AllLoop(s.tree, n, cs, i + 1, active || Unfinished(s.status.code), rk, pick))
    ensures var o := AllLoop(t, n, cs, i, active, rk, pick);
            TicksOpen(o, cs, i, t.dyn[n].open, o.status.code == Fail)
    decreases |cs| - i, 0, 0
  {
    var a := active || Unfinished(s.status.code);
    var rest := AllLoop(s.tree, n, cs, i + 1, a, rk, pick);
    AllLoopOpen(s.tree, n, cs, i + 1, a, rk, pick);
    OpenInAfterTick(cs, i, t.dyn[n].open, s.status.code == Active);
    TicksOpenCons(s.status, rest, cs, i, t.dyn[n].open, rest.status.code == Fail);
  }

  /**
   * Majority's loop, over a child list without repeats, ticks the children
   * that were open when it started, in order, up to the one that made a
   * majority; all of them when it answers ACTIVE.
   */
  lemma {:induction false} MajorityLoopOpen(t: Tree, n: NodeId, cs: seq<NodeId>, i: nat, rk: Rank, pick: nat -> nat)
    requires LoopPre(t, n, cs, i, rk) && Distinct(cs)
    ensures var o := MajorityLoop(t, n, cs, i, rk, pick);
            TicksOpen(o, cs, i, t.dyn[n].open, o.status.code != Active)
    decreases |cs| - i, 1
  {
    if i == |cs| {
      var o := MajorityLoop(t, n, cs, i, rk, pick);
      assert o.ticked == [];
      TicksOpenEnd(o, cs, i, t.dyn[n].open, o.status.code != Active);
    } else if cs[i] !in t.dyn[n].open {
      var o := MajorityLoop(t, n, cs, i + 1, rk, pick);
      assert MajorityLoop(t, n, cs, i, rk, pick) == o;
      MajorityLoopOpen(t, n, cs, i + 1, rk, pick);
      TicksOpenSkip(o, cs, i, t.dyn[n].open, o.status.code != Active);
    } else {
      MajorityOpenTick(t, n, cs, i, rk, pick);
    }
  }

  lemma {:induction false} MajorityOpenTick(t: Tree, n: NodeId, cs: seq<NodeId>, i: nat, rk: Rank, pick: nat -> nat)
    requires LoopPre(t, n, cs, i, rk) && Distinct(cs) && i < |cs| && cs[i] in t.dyn[n].open
    ensures var o := MajorityLoop(t, n, cs, i, rk, pick);
            TicksOpen(o, cs, i, t.dyn[n].open, o.status.code != Active)
    decreases |cs| - i, 0, 1
  {
    var st, t2 := MajorityStep(t, n, cs, i, rk, pick);
    if MajorityFailed(t2.dyn[n].numFail, |cs|) || MajoritySucceeded(t2.dyn[n].numSucceed, |cs|) {
      TicksOpenStop(MajorityLoop(t, n, cs, i, rk, pick), cs, i, st, t.dyn[n].open);
    } else {
      MajorityOpenMore(t, n, cs, i, rk, pick, st, t2);
    }
  }

  lemma {:induction false} MajorityOpenMore(t: Tree, n: NodeId, cs: seq<NodeId>, i: nat, rk: Rank, pick: nat -> nat, st: NodeStatus, t2: Tree)
    requires LoopPre(t, n, cs, i, rk) && Distinct(cs) && i < |cs| && cs[i] in t.dyn[n].open
    requires LoopPre(t2, n, cs, i + 1, rk) && t2.dyn[n].open == OpenAfter(t.dyn[n].open, cs[i], st.code == Active)
    requires MajorityLoop(t, n, cs, i, rk, pick) == Cons(cs[i], st, MajorityLoop(t2, n, cs, i + 1, rk, pick))
    ensures var o := MajorityLoop(t, n, cs, i, rk, pick);
            TicksOpen(o, cs, i, t.dyn[n].open, o.status.code != Active)
    decreases |cs| - i, 0, 0
  {
    var rest := MajorityLoop(t2, n, cs, i + 1, rk, pick);
    MajorityLoopOpen(t2, n, cs, i + 1, rk, pick);
    OpenInAfterTick(cs, i, t.dyn[n].open, st.code == Active);
    TicksOpenCons(st, rest, cs, i, t.dyn[n].open, rest.status.code != Active);
  }
}
