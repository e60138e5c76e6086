// The built-in decorators: each ticks its child and maps the child's result.
module Decorators {
  import opened NodeStatuses

  datatype DecoratorKind =
    | Negate
    | Repeat
    | While
    | Until
    | UntilCount(maxCount: int)
    | Failing      // the Fail decorator
    | Succeeding   // the Succeed decorator

  /**
   * The result mapping of every decorator except UntilCount, applied to the
   * child's result r; child is the child's name, used in the texts.
   */
  function Transform(k: DecoratorKind, r: NodeStatus, child: string): NodeStatus
    requires !k.UntilCount?
  {
    match k
    case Negate =>
      if r.code == Success then NodeStatus(Fail, "Negating " + child)
      else if r.code == Fail then NodeStatus(Success, "Negating " + child)
      else r
    case Repeat =>
      if r.code == Success || r.code == Fail then NodeStatus(Active, "Repeating.. " + child)
      else r
    case While =>
      if r.code == Success then NodeStatus(Active, "Continuing.. " + child) else r
    case Until =>
      if r.code == Fail then NodeStatus(Active, "Trying again.. " + child) else r
    case Failing =>
      if r.code == Success then NodeStatus(Fail, "Failing " + child) else r
    case Succeeding =>
      if r.code == Fail then NodeStatus(Success, "Succeeding " + child) else r
  }

  /**
   * One UntilCount step: the child's result r and the stored count give the
   * decorator's result and the new count. The ACTIVE text is a format string
   * whose placeholders are never filled in.
   */
  function UntilCountStep(r: NodeStatus, count: int, maxCount: int): (NodeStatus, int)
  {
    if r.code == Fail then
      if count + 1 < maxCount then (NodeStatus(Active, "Trying again %s until %s.."), count + 1)
      else (r, count + 1)
    else (r, count)
  }

  /** Negate swaps SUCCESS and FAIL and passes everything else through, so it undoes itself. */
  lemma NegateInvolution(r: NodeStatus, child: string)
    ensures Transform(Negate, Transform(Negate, r, child), child).code == r.code
    ensures r.code == Success <==> Transform(Negate, r, child).code == Fail
    ensures r.code == Fail <==> Transform(Negate, r, child).code == Success
    ensures r.code != Success && r.code != Fail ==> Transform(Negate, r, child) == r
  {
  }

  /** Repeat never reports SUCCESS or FAIL; it turns both into ACTIVE. */
  lemma RepeatNeverFinishes(r: NodeStatus, child: string)
    ensures Transform(Repeat, r, child).code != Success
    ensures Transform(Repeat, r, child).code != Fail
    ensures r.code == Success || r.code == Fail ==> Transform(Repeat, r, child).code == Active
    ensures r.code != Success && r.code != Fail ==> Transform(Repeat, r, child) == r
  {
  }

  /** While keeps going on SUCCESS and passes every other result through unchanged. */
  lemma WhileOnSuccess(r: NodeStatus, child: string)
    ensures r.code == Success ==> Transform(While, r, child).code == Active
    ensures r.code != Success ==> Transform(While, r, child) == r
  {
  }

  /** Until keeps going on FAIL and passes every other result through unchanged. */
  lemma UntilOnFail(r: NodeStatus, child: string)
    ensures r.code == Fail ==> Transform(Until, r, child).code == Active
    ensures r.code != Fail ==> Transform(Until, r, child) == r
  {
  }

  /** The Fail decorator never reports SUCCESS, and the Succeed decorator never reports FAIL. */
  lemma FailingAndSucceeding(r: NodeStatus, child: string)
    ensures Transform(Failing, r, child).code != Success
    ensures r.code == Success ==> Transform(Failing, r, child).code == Fail
    ensures r.code != Success ==> Transform(Failing, r, child) == r
    ensures Transform(Succeeding, r, child).code != Fail
    ensures r.code == Fail ==> Transform(Succeeding, r, child).code == Success
    ensures r.code != Fail ==> Transform(Succeeding, r, child) == r
  {
  }

  /** A CANCEL, ACTIVE or PENDING child result passes unchanged through every decorator. */
  lemma NonTerminalPassesThrough(k: DecoratorKind, r: NodeStatus, child: string, count: int)
    requires r.code == Cancel || r.code == Active || r.code == Pending
    ensures !k.UntilCount? ==> Transform(k, r, child) == r
    ensures k.UntilCount? ==> UntilCountStep(r, count, k.maxCount) == (r, count)
  {
  }

  /**
   * UntilCount counts the child's FAILs: each one bumps the count, and the
   * decorator stays ACTIVE while the bumped count is below the maximum.
   */
  lemma UntilCountCounts(r: NodeStatus, count: int, maxCount: int)
    ensures UntilCountStep(r, count, maxCount).1 == (if r.code == Fail then count + 1 else count)
    ensures UntilCountStep(r, count, maxCount).0.code == Active
      <==> r.code == Active || (r.code == Fail && count + 1 < maxCount)
    ensures !(r.code == Fail && count + 1 < maxCount) ==> UntilCountStep(r, count, maxCount).0 == r
  {
  }

  /** The count reached after n FAILs in a row from a fresh configure. */
  function CountAfter(n: nat, maxCount: int): (c: int)
    ensures c == n
  {
    if n == 0 then 0 else UntilCountStep(NodeStatus(Fail, ""), CountAfter(n - 1, maxCount), maxCount).1
  }

  /**
   * From a fresh configure (count 0), the n-th FAIL in a row is turned into
   * ACTIVE exactly when n is below the maximum; the maximum-th FAIL comes through.
   */
  lemma {:induction false} UntilCountRetries(n: nat, maxCount: int, f: NodeStatus)
    requires n >= 1 && f.code == Fail
    ensures UntilCountStep(f, CountAfter(n - 1, maxCount), maxCount).0.code == Active <==> n < maxCount
    ensures n >= maxCount ==> UntilCountStep(f, CountAfter(n - 1, maxCount), maxCount).0 == f
  {
    UntilCountCounts(f, CountAfter(n - 1, maxCount), maxCount);
  }
}
