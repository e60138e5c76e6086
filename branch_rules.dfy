// What each branch policy's run loop returns, stated on the children it ticked and the results it saw.
module BranchRules {
  import opened NodeStatuses
  import opened Branches
  import opened TreeSpec

  function Last(rs: seq<NodeStatus>): NodeStatus
    requires |rs| > 0
  {
    rs[|rs| - 1]
  }

  /** The last result seen has the given code. */
  predicate EndsWith(rs: seq<NodeStatus>, c: Code)
  {
    |rs| > 0 && Last(rs).code == c
  }

  /** The last result seen is ACTIVE or PENDING. */
  predicate EndsUnfinished(rs: seq<NodeStatus>)
  {
    |rs| > 0 && Unfinished(Last(rs).code)
  }

  /** A finished child that did not succeed: FAIL or CANCEL. */
  predicate Unsuccessful(c: Code)
  {
    c == Fail || c == Cancel
  }

  /** A result First returns as it is. */
  predicate Decided(c: Code)
  {
    c == Fail || c == Success
  }

  /** How many of the results have the given code. */
  function CountCode(rs: seq<NodeStatus>, c: Code): (k: nat)
    ensures k <= |rs|
  {
    if |rs| == 0 then 0 else (if rs[0].code == c then 1 else 0) + CountCode(rs[1..], c)
  }

  /** The loop ticked cs[i], cs[i+1], ... in order, and saw one result per tick. */
  ghost predicate Consecutive(o: Outcome, cs: seq<NodeId>, i: nat)
  {
    |o.results| == |o.ticked| && i + |o.ticked| <= |cs| && o.ticked == cs[i..i + |o.ticked|]
  }

  /** xs lists some of the elements of ys, in their order in ys. */
  predicate Subsequence(xs: seq<NodeId>, ys: seq<NodeId>)
    decreases |ys|
  {
    |xs| == 0 || (|ys| > 0 && ((xs[0] == ys[0] && Subsequence(xs[1..], ys[1..])) || Subsequence(xs, ys[1..])))
  }

  /** The loop ticked some of cs[i..] in order, skipping the ones not open, and saw one result per tick. */
  ghost predicate Skipping(o: Outcome, cs: seq<NodeId>, i: nat)
  {
    |o.results| == |o.ticked| && i <= |cs| && Subsequence(o.ticked, cs[i..])
  }

  /**
   * Selector: every child before the last one ticked failed or was canceled;
   * SUCCESS exactly when the last one succeeded, ACTIVE exactly when it is
   * still running, FAIL exactly when every child was ticked and none succeeded.
   */
  ghost predicate SelectorRule(o: Outcome, cs: seq<NodeId>, i: nat)
  {
    Consecutive(o, cs, i)
    && (forall j | 0 <= j < |o.results| - 1 :: Unsuccessful(o.results[j].code))
    && (o.status.code == Success <==> EndsWith(o.results, Success))
    && (o.status.code == Active <==> EndsUnfinished(o.results))
    && (o.status.code == Fail <==>
          i + |o.ticked| == |cs| && forall j | 0 <= j < |o.results| :: Unsuccessful(o.results[j].code))
  }

  /**
   * Sequencer: every child before the last one ticked succeeded; ACTIVE exactly
   * when the last one is still running, FAIL exactly when it finished without
   * success, SUCCESS exactly when every child was ticked and succeeded.
   */
  ghost predicate SequencerRule(o: Outcome, cs: seq<NodeId>, i: nat)
  {
    Consecutive(o, cs, i)
    && (forall j | 0 <= j < |o.results| - 1 :: o.results[j].code == Success)
    && (o.status.code == Active <==> EndsUnfinished(o.results))
    && (o.status.code == Fail <==> |o.results| > 0 && Unsuccessful(Last(o.results).code))
    && (o.status.code == Success <==>
          i + |o.ticked| == |cs| && forall j | 0 <= j < |o.results| :: o.results[j].code == Success)
  }

  /**
   * Runner: every child before the last one ticked finished; ACTIVE exactly
   * when the last one is still running, otherwise SUCCESS after every child.
   */
  ghost predicate RunnerRule(o: Outcome, cs: seq<NodeId>, i: nat)
  {
    Consecutive(o, cs, i)
    && (forall j | 0 <= j < |o.results| - 1 :: !Unfinished(o.results[j].code))
    && (o.status.code == Active <==> EndsUnfinished(o.results))
    && (o.status.code == Success <==> !EndsUnfinished(o.results))
    && (o.status.code == Success ==> i + |o.ticked| == |cs|)
  }

  /**
   * First: every child before the last one ticked neither failed nor
   * succeeded; a last FAIL or SUCCESS is returned as it is, and otherwise every
   * child was ticked and the result is a bare ACTIVE.
   */
  ghost predicate FirstRule(o: Outcome, cs: seq<NodeId>, i: nat)
  {
    Consecutive(o, cs, i)
    && (forall j | 0 <= j < |o.results| - 1 :: !Decided(o.results[j].code))
    && (|o.results| > 0 && Decided(Last(o.results).code) ==> o.status == Last(o.results))
    && (!(|o.results| > 0 && Decided(Last(o.results).code)) ==>
          o.status == NodeStatus(Active, "") && i + |o.ticked| == |cs|)
  }

  /**
   * Any: no child before the last one ticked succeeded; SUCCESS exactly when
   * the last one did; otherwise ACTIVE exactly when a child was running before
   * the loop or answered ACTIVE or PENDING in it, and FAIL exactly when none did.
   */
  ghost predicate AnyRule(o: Outcome, cs: seq<NodeId>, i: nat, active: bool)
  {
    Skipping(o, cs, i)
    && (forall j | 0 <= j < |o.results| - 1 :: o.results[j].code != Success)
    && (o.status.code == Success <==> EndsWith(o.results, Success))
    && (o.status.code == Active <==>
          !EndsWith(o.results, Success) && (active || exists j | 0 <= j < |o.results| :: Unfinished(o.results[j].code)))
    && (o.status.code == Fail <==>
          !EndsWith(o.results, Success) && !active && forall j | 0 <= j < |o.results| :: !Unfinished(o.results[j].code))
  }

  /** All: the mirror image of Any, with FAIL in place of SUCCESS. */
  ghost predicate AllRule(o: Outcome, cs: seq<NodeId>, i: nat, active: bool)
  {
    Skipping(o, cs, i)
    && (forall j | 0 <= j < |o.results| - 1 :: o.results[j].code != Fail)
    && (o.status.code == Fail <==> EndsWith(o.results, Fail))
    && (o.status.code == Active <==>
          !EndsWith(o.results, Fail) && (active || exists j | 0 <= j < |o.results| :: Unfinished(o.results[j].code)))
    && (o.status.code == Success <==>
          !EndsWith(o.results, Fail) && !active && forall j | 0 <= j < |o.results| :: !Unfinished(o.results[j].code))
  }

  /**
   * Majority: the counters grow by the FAILs and SUCCESSes seen; FAIL exactly
   * when a tick made the failures a majority, SUCCESS exactly when it made the
   * successes one without a failing majority, ACTIVE otherwise.
   */
  ghost predicate MajorityRule(o: Outcome, cs: seq<NodeId>, i: nat, nf0: int, ns0: int, nf: int, ns: int)
  {
    Skipping(o, cs, i)
    && nf == nf0 + CountCode(o.results, Fail) && ns == ns0 + CountCode(o.results, Success)
    && (o.status.code == Fail <==> |o.results| > 0 && MajorityFailed(nf, |cs|))
    && (o.status.code == Success <==> |o.results| > 0 && !MajorityFailed(nf, |cs|) && MajoritySucceeded(ns, |cs|))
    && (o.status.code == Active <==> !(|o.results| > 0 && (MajorityFailed(nf, |cs|) || MajoritySucceeded(ns, |cs|))))
  }

  /**
   * Progressor from stored index k: the children from k on are ticked in order
   * while they succeed, and the index moves past each success; ACTIVE exactly
   * when the last one is still running, SUCCESS exactly when every child from k
   * succeeded, and the last one's own code otherwise. An index outside the
   * children ticks nothing and answers SUCCESS.
   */
  ghost predicate ProgressorRule(o: Outcome, cs: seq<NodeId>, k: int, index: int)
  {
    if 0 <= k < |cs| then
      Consecutive(o, cs, k)
      && (forall j | 0 <= j < |o.results| - 1 :: o.results[j].code == Success)
      && index == k + CountCode(o.results, Success)
      && (o.status.code == Active <==> EndsUnfinished(o.results))
      && (o.status.code == Success <==>
            k + |o.ticked| == |cs| && forall j | 0 <= j < |o.results| :: o.results[j].code == Success)
      && (|o.results| > 0 && Unsuccessful(Last(o.results).code) ==> o.status.code == Last(o.results).code)
    else
      o.ticked == [] && o.results == [] && o.status.code == Success && index == k
  }

  /** Counting the results of a loop that ticked one more child first. */
  lemma CountCons(st: NodeStatus, rs: seq<NodeStatus>, c: Code)
    ensures CountCode([st] + rs, c) == (if st.code == c then 1 else 0) + CountCode(rs, c)
  {
    assert ([st] + rs)[1..] == rs;
  }

  /** A loop that ticks cs[i] first and then goes on from i + 1 ticks consecutively from i. */
  lemma ConsecutiveCons(c: NodeId, st: NodeStatus, o: Outcome, cs: seq<NodeId>, i: nat)
    requires i < |cs| && c == cs[i] && Consecutive(o, cs, i + 1)
    ensures Consecutive(Cons(c, st, o), cs, i)
  {
    assert cs[i..i + 1 + |o.ticked|] == [cs[i]] + cs[i + 1..i + 1 + |o.ticked|];
  }

  /** A loop that ticks cs[i] first, or skips it, and then goes on from i + 1, ticks a subsequence of cs[i..]. */
  lemma SkippingCons(c: NodeId, st: NodeStatus, o: Outcome, cs: seq<NodeId>, i: nat)
    requires i < |cs| && c == cs[i] && Skipping(o, cs, i + 1)
    ensures Skipping(Cons(c, st, o), cs, i) && Skipping(o, cs, i)
  {
    assert cs[i..][1..] == cs[i + 1..];
  }

  lemma SelectorCons(c: NodeId, st: NodeStatus, o: Outcome, cs: seq<NodeId>, i: nat)
    requires i < |cs| && c == cs[i] && Unsuccessful(st.code) && SelectorRule(o, cs, i + 1)
    ensures SelectorRule(Cons(c, st, o), cs, i)
  {
    ConsecutiveCons(c, st, o, cs, i);
    var rs := [st] + o.results;
    forall j | 0 <= j < |rs| ensures rs[j] == (if j == 0 then st else o.results[j - 1]) { }
  }

  lemma SequencerCons(c: NodeId, st: NodeStatus, o: Outcome, cs: seq<NodeId>, i: nat)
    requires i < |cs| && c == cs[i] && st.code == Success && SequencerRule(o, cs, i + 1)
    ensures SequencerRule(Cons(c, st, o), cs, i)
  {
    ConsecutiveCons(c, st, o, cs, i);
    var rs := [st] + o.results;
    forall j | 0 <= j < |rs| ensures rs[j] == (if j == 0 then st else o.results[j - 1]) { }
  }

  lemma RunnerCons(c: NodeId, st: NodeStatus, o: Outcome, cs: seq<NodeId>, i: nat)
    requires i < |cs| && c == cs[i] && !Unfinished(st.code) && RunnerRule(o, cs, i + 1)
    ensures RunnerRule(Cons(c, st, o), cs, i)
  {
    ConsecutiveCons(c, st, o, cs, i);
    var rs := [st] + o.results;
    forall j | 0 <= j < |rs| ensures rs[j] == (if j == 0 then st else o.results[j - 1]) { }
  }

  lemma FirstCons(c: NodeId, st: NodeStatus, o: Outcome, cs: seq<NodeId>, i: nat)
    requires i < |cs| && c == cs[i] && !Decided(st.code) && FirstRule(o, cs, i + 1)
    ensures FirstRule(Cons(c, st, o), cs, i)
  {
    ConsecutiveCons(c, st, o, cs, i);
    var rs := [st] + o.results;
    forall j | 0 <= j < |rs| ensures rs[j] == (if j == 0 then st else o.results[j - 1]) { }
  }

  lemma AnyCons(c: NodeId, st: NodeStatus, o: Outcome, cs: seq<NodeId>, i: nat, active: bool)
    requires i < |cs| && c == cs[i] && st.code != Success && AnyRule(o, cs, i + 1, active || Unfinished(st.code))
    ensures AnyRule(Cons(c, st, o), cs, i, active)
  {
    SkippingCons(c, st, o, cs, i);
    var rs := [st] + o.results;
    forall j | 0 <= j < |rs| ensures rs[j] == (if j == 0 then st else o.results[j - 1]) { }
    if Unfinished(st.code) {
      assert Unfinished(rs[0].code);
    }
    if exists j | 0 <= j < |o.results| :: Unfinished(o.results[j].code) {
      var j :| 0 <= j < |o.results| && Unfinished(o.results[j].code);
      assert rs[j + 1] == o.results[j];
    }
  }

  lemma AllCons(c: NodeId, st: NodeStatus, o: Outcome, cs: seq<NodeId>, i: nat, active: bool)
    requires i < |cs| && c == cs[i] && st.code != Fail && AllRule(o, cs, i + 1, active || Unfinished(st.code))
    ensures AllRule(Cons(c, st, o), cs, i, active)
  {
    SkippingCons(c, st, o, cs, i);
    var rs := [st] + o.results;
    forall j | 0 <= j < |rs| ensures rs[j] == (if j == 0 then st else o.results[j - 1]) { }
    if Unfinished(st.code) {
      assert Unfinished(rs[0].code);
    }
    if exists j | 0 <= j < |o.results| :: Unfinished(o.results[j].code) {
      var j :| 0 <= j < |o.results| && Unfinished(o.results[j].code);
      assert rs[j + 1] == o.results[j];
    }
  }

  lemma MajorityCons(c: NodeId, st: NodeStatus, o: Outcome, cs: seq<NodeId>, i: nat, nf0: int, ns0: int, nf: int, ns: int)
    requires i < |cs| && c == cs[i]
    requires var nf1 := nf0 + (if st.code == Fail then 1 else 0);
             var ns1 := ns0 + (if st.code == Success then 1 else 0);
             !MajorityFailed(nf1, |cs|) && !MajoritySucceeded(ns1, |cs|) && MajorityRule(o, cs, i + 1, nf1, ns1, nf, ns)
    ensures MajorityRule(Cons(c, st, o), cs, i, nf0, ns0, nf, ns)
  {
    SkippingCons(c, st, o, cs, i);
    CountCons(st, o.results, Fail);
    CountCons(st, o.results, Success);
  }

  lemma ProgressorCons(c: NodeId, st: NodeStatus, o: Outcome, cs: seq<NodeId>, k: nat, index: int)
    requires k < |cs| && c == cs[k] && st.code == Success
    requires ProgressorRule(o, cs, k + 1, index)
    ensures ProgressorRule(Cons(c, st, o), cs, k, index)
  {
    CountCons(st, o.results, Success);
    var rs := [st] + o.results;
    forall j | 0 <= j < |rs| ensures rs[j] == (if j == 0 then st else o.results[j - 1]) { }
    if k + 1 < |cs| {
      ConsecutiveCons(c, st, o, cs, k);
    } else {
      assert cs[k..k + 1] == [c];
    }
  }

  /** A loop that ticked only cs[i] and stopped on its result. */
  ghost predicate StoppedAt(o: Outcome, cs: seq<NodeId>, i: nat, st: NodeStatus)
  {
    i < |cs| && o.ticked == [cs[i]] && o.results == [st]
  }

  /** A loop that reached the end of the children without ticking. */
  ghost predicate AtEnd(o: Outcome, cs: seq<NodeId>, i: nat)
  {
    i == |cs| && o.ticked == [] && o.results == []
  }

  lemma StoppedConsecutive(o: Outcome, cs: seq<NodeId>, i: nat, st: NodeStatus)
    requires StoppedAt(o, cs, i, st)
    ensures Consecutive(o, cs, i) && Last(o.results) == st && |o.results| == 1
  {
    assert cs[i..i + 1] == [cs[i]];
  }

  lemma StoppedSkipping(o: Outcome, cs: seq<NodeId>, i: nat, st: NodeStatus)
    requires StoppedAt(o, cs, i, st)
    ensures Skipping(o, cs, i) && Last(o.results) == st && |o.results| == 1
  {
    assert o.ticked[1..] == [];
    assert cs[i..][0] == cs[i];
  }

  lemma SelectorStop(o: Outcome, cs: seq<NodeId>, i: nat, st: NodeStatus)
    requires StoppedAt(o, cs, i, st)
    requires (Unfinished(st.code) && o.status.code == Active) || (st.code == Success && o.status.code == Success)
    ensures SelectorRule(o, cs, i)
  {
    StoppedConsecutive(o, cs, i, st);
  }

  lemma SelectorEnd(o: Outcome, cs: seq<NodeId>, i: nat)
    requires AtEnd(o, cs, i) && o.status.code == Fail
    ensures SelectorRule(o, cs, i)
  {
  }

  lemma SequencerStop(o: Outcome, cs: seq<NodeId>, i: nat, st: NodeStatus)
    requires StoppedAt(o, cs, i, st)
    requires (Unfinished(st.code) && o.status.code == Active) || (Unsuccessful(st.code) && o.status.code == Fail)
    ensures SequencerRule(o, cs, i)
  {
    StoppedConsecutive(o, cs, i, st);
  }

  lemma SequencerEnd(o: Outcome, cs: seq<NodeId>, i: nat)
    requires AtEnd(o, cs, i) && o.status.code == Success
    ensures SequencerRule(o, cs, i)
  {
  }

  lemma RunnerStop(o: Outcome, cs: seq<NodeId>, i: nat, st: NodeStatus)
    requires StoppedAt(o, cs, i, st) && Unfinished(st.code) && o.status.code == Active
    ensures RunnerRule(o, cs, i)
  {
    StoppedConsecutive(o, cs, i, st);
  }

  lemma RunnerEnd(o: Outcome, cs: seq<NodeId>, i: nat)
    requires AtEnd(o, cs, i) && o.status.code == Success
    ensures RunnerRule(o, cs, i)
  {
  }

  lemma FirstStop(o: Outcome, cs: seq<NodeId>, i: nat, st: NodeStatus)
    requires StoppedAt(o, cs, i, st) && Decided(st.code) && o.status == st
    ensures FirstRule(o, cs, i)
  {
    StoppedConsecutive(o, cs, i, st);
  }

  lemma FirstEnd(o: Outcome, cs: seq<NodeId>, i: nat)
    requires AtEnd(o, cs, i) && o.status == NodeStatus(Active, "")
    ensures FirstRule(o, cs, i)
  {
  }

  lemma AnyStop(o: Outcome, cs: seq<NodeId>, i: nat, st: NodeStatus, active: bool)
    requires StoppedAt(o, cs, i, st) && st.code == Success && o.status.code == Success
    ensures AnyRule(o, cs, i, active)
  {
    StoppedSkipping(o, cs, i, st);
  }

  lemma AnySkip(o: Outcome, cs: seq<NodeId>, i: nat, active: bool)
    requires i < |cs| && AnyRule(o, cs, i + 1, active)
    ensures AnyRule(o, cs, i, active)
  {
    SkippingCons(cs[i], Default, o, cs, i);
  }

  lemma AnyEnd(o: Outcome, cs: seq<NodeId>, i: nat, active: bool)
    requires AtEnd(o, cs, i) && o.status.code == (if active then Active else Fail)
    ensures AnyRule(o, cs, i, active)
  {
  }

  lemma AllStop(o: Outcome, cs: seq<NodeId>, i: nat, st: NodeStatus, active: bool)
    requires StoppedAt(o, cs, i, st) && st.code == Fail && o.status.code == Fail
    ensures AllRule(o, cs, i, active)
  {
    StoppedSkipping(o, cs, i, st);
  }

  lemma AllSkip(o: Outcome, cs: seq<NodeId>, i: nat, active: bool)
    requires i < |cs| && AllRule(o, cs, i + 1, active)
    ensures AllRule(o, cs, i, active)
  {
    SkippingCons(cs[i], Default, o, cs, i);
  }

  lemma AllEnd(o: Outcome, cs: seq<NodeId>, i: nat, active: bool)
    requires AtEnd(o, cs, i) && o.status.code == (if active then Active else Success)
    ensures AllRule(o, cs, i, active)
  {
  }

  lemma MajorityStop(o: Outcome, cs: seq<NodeId>, i: nat, st: NodeStatus, nf0: int, ns0: int, nf: int, ns: int)
    requires StoppedAt(o, cs, i, st)
    requires nf == nf0 + (if st.code == Fail then 1 else 0) && ns == ns0 + (if st.code == Success then 1 else 0)
    requires (MajorityFailed(nf, |cs|) && o.status.code == Fail)
             || (!MajorityFailed(nf, |cs|) && MajoritySucceeded(ns, |cs|) && o.status.code == Success)
    ensures MajorityRule(o, cs, i, nf0, ns0, nf, ns)
  {
    StoppedSkipping(o, cs, i, st);
    CountCons(st, [], Fail);
    CountCons(st, [], Success);
    assert o.results == [st] + [];
  }

  lemma MajoritySkip(o: Outcome, cs: seq<NodeId>, i: nat, nf0: int, ns0: int, nf: int, ns: int)
    requires i < |cs| && MajorityRule(o, cs, i + 1, nf0, ns0, nf, ns)
    ensures MajorityRule(o, cs, i, nf0, ns0, nf, ns)
  {
    SkippingCons(cs[i], Default, o, cs, i);
  }

  lemma MajorityEnd(o: Outcome, cs: seq<NodeId>, i: nat, nf0: int, ns0: int)
    requires AtEnd(o, cs, i) && o.status.code == Active
    ensures MajorityRule(o, cs, i, nf0, ns0, nf0, ns0)
  {
  }

  lemma ProgressorStop(o: Outcome, cs: seq<NodeId>, k: nat, st: NodeStatus)
    requires StoppedAt(o, cs, k, st)
    requires (Unfinished(st.code) && o.status.code == Active) || (Unsuccessful(st.code) && o.status.code == st.code)
    ensures ProgressorRule(o, cs, k, k)
  {
    StoppedConsecutive(o, cs, k, st);
    CountCons(st, [], Success);
    assert o.results == [st] + [];
  }

  /** The children of cs that are in the open list, in their order in cs. */
  function OpenIn(cs: seq<NodeId>, open: seq<NodeId>): (r: seq<NodeId>)
    ensures |r| <= |cs|
    ensures forall c :: c in r <==> c in cs && c in open
  {
    if |cs| == 0 then [] else (if cs[0] in open then [cs[0]] else []) + OpenIn(cs[1..], open)
  }

  /**
   * A loop over cs[i..] that ticks only open children ticked them in order,
   * none left out, up to the one it stopped at; all of them when it did not stop.
   */
  ghost predicate TicksOpen(o: Outcome, cs: seq<NodeId>, i: nat, open: seq<NodeId>, stopped: bool)
    requires i <= |cs|
  {
    var all := OpenIn(cs[i..], open);
    |o.ticked| <= |all| && o.ticked == all[..|o.ticked|] && (!stopped ==> o.ticked == all)
  }

  /** Membership in the open list decides OpenIn, so two lists that agree on cs give the same children. */
  lemma {:induction false} OpenInSame(cs: seq<NodeId>, a: seq<NodeId>, b: seq<NodeId>)
    requires forall c | c in cs :: c in a <==> c in b
    ensures OpenIn(cs, a) == OpenIn(cs, b)
    decreases |cs|
  {
    if |cs| > 0 {
      assert forall c | c in cs[1..] :: c in cs;
      OpenInSame(cs[1..], a, b);
    }
  }

  /** Ticking cs[i] changes the open list at cs[i] only, so the open children after it stay the same. */
  lemma OpenInAfterTick(cs: seq<NodeId>, i: nat, open: seq<NodeId>, active: bool)
    requires i < |cs| && Distinct(cs)
    ensures OpenIn(cs[i + 1..], OpenAfter(open, cs[i], active)) == OpenIn(cs[i + 1..], open)
  {
    OpenAfterCounts(open, cs[i], active);
    forall c | c in cs[i + 1..]
      ensures c in OpenAfter(open, cs[i], active) <==> c in open
    {
      assert c != cs[i];
      assert multiset(OpenAfter(open, cs[i], active))[c] == multiset(open)[c];
    }
    OpenInSame(cs[i + 1..], OpenAfter(open, cs[i], active), open);
  }

  lemma TicksOpenEnd(o: Outcome, cs: seq<NodeId>, i: nat, open: seq<NodeId>, stopped: bool)
    requires AtEnd(o, cs, i)
    ensures TicksOpen(o, cs, i, open, stopped)
  {
  }

  lemma TicksOpenStop(o: Outcome, cs: seq<NodeId>, i: nat, st: NodeStatus, open: seq<NodeId>)
    requires StoppedAt(o, cs, i, st) && cs[i] in open
    ensures TicksOpen(o, cs, i, open, true)
  {
    assert cs[i..] == [cs[i]] + cs[i + 1..];
  }

  lemma TicksOpenSkip(o: Outcome, cs: seq<NodeId>, i: nat, open: seq<NodeId>, stopped: bool)
    requires i < |cs| && cs[i] !in open && TicksOpen(o, cs, i + 1, open, stopped)
    ensures TicksOpen(o, cs, i, open, stopped)
  {
    assert cs[i..][1..] == cs[i + 1..];
  }

  lemma TicksOpenCons(st: NodeStatus, o: Outcome, cs: seq<NodeId>, i: nat, open: seq<NodeId>, stopped: bool)
    requires i < |cs| && cs[i] in open && TicksOpen(o, cs, i + 1, open, stopped)
    ensures TicksOpen(Cons(cs[i], st, o), cs, i, open, stopped)
  {
    assert cs[i..][1..] == cs[i + 1..];
    var all := OpenIn(cs[i + 1..], open);
    assert OpenIn(cs[i..], open) == [cs[i]] + all;
    assert ([cs[i]] + all)[..1 + |o.ticked|] == [cs[i]] + all[..|o.ticked|];
  }
}
