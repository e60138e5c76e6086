// The composite policies of branch.py and the Majority thresholds.
module Branches {
  import opened NodeStatuses

  datatype Policy =
    | Selector
    | Sequencer
    | Runner
    | AnyOf        // the Any behavior
    | AllOf        // the All behavior
    | RandomPick   // the Random behavior
    | Progressor
    | Majority
    | First

  /** The policies that register a configure callback. */
  predicate HasConfigure(p: Policy)
  {
    p.AnyOf? || p.AllOf? || p.RandomPick? || p.Progressor? || p.Majority?
  }

  /** The code each policy answers when it has no children. */
  function EmptyCode(p: Policy): Code
  {
    match p
    case Selector => Fail
    case AnyOf => Fail
    case Majority => Active
    case First => Active
    case _ => Success
  }

  /** Majority fails once more than half of the n children failed. */
  predicate MajorityFailed(numFail: int, n: int)
  {
    2 * numFail > n
  }

  /** Majority succeeds once at least half of the n children succeeded. */
  predicate MajoritySucceeded(numSucceed: int, n: int)
  {
    2 * numSucceed >= n
  }

  lemma ScaleByPositive(a: real, b: real, m: real)
    requires m > 0.0
    ensures a > b <==> a * m > b * m
    ensures a >= b <==> a * m >= b * m
  {
    assert a * m - b * m == (a - b) * m;
  }

  /** The integer tests agree with the ratio tests num / n > 0.5 and num / n >= 0.5. */
  lemma MajorityMatchesRatio(num: nat, n: nat)
    requires n > 0
    ensures MajorityFailed(num, n) <==> (num as real) / (n as real) > 0.5
    ensures MajoritySucceeded(num, n) <==> (num as real) / (n as real) >= 0.5
  {
    var m := n as real;
    var q := (num as real) / m;
    assert q * m == num as real;
    ScaleByPositive(q, 0.5, m);
    assert 2 * num > n <==> num as real > 0.5 * m;
    assert 2 * num >= n <==> num as real >= 0.5 * m;
  }

  /** An even split is no failing majority but is a succeeding one. */
  lemma MajorityTieSucceeds(k: nat)
    ensures !MajorityFailed(k, 2 * k)
    ensures MajoritySucceeded(k, 2 * k)
  {
  }
}
