// The constant leaves: Success, Fail and Continue.
module Leaves {
  import opened NodeStatuses

  datatype LeafKind = SuccessLeaf | FailLeaf | ContinueLeaf

  /** The run callback of a leaf; it ignores its node data and returns a fresh status. */
  function Run(k: LeafKind): NodeStatus
  {
    match k
    case SuccessLeaf => NodeStatus(Success, "")
    case FailLeaf => NodeStatus(Fail, "")
    case ContinueLeaf => NodeStatus(Active, "")
  }

  /** Every leaf answers with an empty text; only Continue keeps running. */
  lemma RunOutcomes(k: LeafKind)
    ensures Run(k).text == ""
    ensures Run(k).code == Success <==> k == SuccessLeaf
    ensures Run(k).code == Fail <==> k == FailLeaf
    ensures Run(k).code == Active <==> k == ContinueLeaf
    ensures Unfinished(Run(k).code) <==> k == ContinueLeaf
  {
  }
}
