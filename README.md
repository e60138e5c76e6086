# task_behavior_engine behavior trees in Dafny

This project models the core of `task_behavior_engine`, a tick-driven
behavior-tree library. A tree is made of nodes.
- Leaves answer SUCCESS, FAIL or ACTIVE.
- Decorators wrap one child and rewrite its answer.
- Behaviors (branches) tick a list of children under a policy: Selector, Sequencer, Runner, Any, All, Random, Progressor, Majority or First.

Every tick of a node runs the same lifecycle.
- A PENDING node is configured first. Its result becomes ACTIVE "Configured <name>".
- It then runs, or returns the status that `force` left on it.
- Its status is published to the blackboard.
- A finished node (not ACTIVE or PENDING) is cleaned up: it goes back to PENDING "Cleaned up <name>" and its force is cleared.

A behavior remembers which children are still open. On cleanup it cleans those children up, and on cancel it cancels them. The blackboard holds a base memory, one memory per node, remappings that copy keys from one scope into another on every read, and a status table keyed by node.

The model is split into these modules:

| module | file | what it is |
|---|---|---|
| `NodeStatuses` | `node_status.dfy` | NodeStatus values, their names and merge |
| `NodeDatas` | `node_data.dfy` | the NodeData object, a class that also keeps an order of its keys |
| `BoardSpec`, `BoardLemmas` | `board_spec.dfy`, `board_lemmas.dfy` | the blackboard as functions on a `Board` value, and what a read resolves to through chains of remappings |
| `Blackboards` | `blackboard.dfy` | the Blackboard class, each method proved equal to its `BoardSpec` function |
| `Leaves`, `Decorators`, `Branches` | `leaves.dfy`, `decorators.dfy`, `branches.dfy` | the node kinds of `node.py`, `decorator.py` and `branch.py` |
| `TreeSpec` | `tree_spec.dfy` | the whole lifecycle as mutually recursive functions on a `Tree` value (shapes, per-node state, blackboard, random draws) |
| `TreeLemmas`, `BranchRules`, `BranchLemmas` | `tree_lemmas.dfy`, `branch_rules.dfy`, `branch_lemmas.dfy` | what ticks, forces, cancels and cleanups do, and one rule per branch policy that its run loop is proved to obey |
| `ChildLists` | `child_lists.dfy` | add, remove, prepend and insert on a behavior's child list |
| `Arena` | `arena.dfy` | the class `NodeArena`, which holds every node's fields and updates them in place; each method is proved equal to its `TreeSpec` function |

Node objects refer to each other. The model therefore keeps them in one arena, keyed by node id, and a well-formed tree carries a rank that strictly decreases from every parent to each of its children.

## Model

| member | source | states |
|---|---|---|
| NodeStatuses.OrdRoundTrip | src/task_behavior_engine/tree.py:105-109 | the five status codes are exactly the integers 0..4, and code and integer convert back and forth without loss |
| NodeStatuses.EqualsIgnoresText | src/task_behavior_engine/tree.py:131-132 | status equality looks at the code only: two statuses with the same code compare equal to the same codes, whatever their texts |
| NodeStatuses.NameRoundTrip | src/task_behavior_engine/tree.py:115-126 | every code has a non-empty name, and parsing the name gives the code back |
| NodeStatuses.NameFirstLetter | src/task_behavior_engine/tree.py:115-126 | the five names differ in their first letter |
| NodeStatuses.ToStringInjective | src/task_behavior_engine/tree.py:128-129 | two statuses with the same printed form have the same code and text |
| NodeStatuses.Merged | src/task_behavior_engine/tree.py:134-145 | merge keeps the higher code; a lower code leaves the status unchanged, an equal code appends "; text", and a higher code takes the code with the text doubled (see Findings) |
| NodeStatuses.Merge | src/task_behavior_engine/tree.py:134-145 | the in-place merge leaves exactly the status that `Merged` describes |
| NodeStatuses.MergeIntended | src/task_behavior_engine/tree.py:134-145 | the corrected merge: the same as `Merged`, except that a higher code takes the new text once |
| NodeStatuses.MergeHigherDoublesText | src/task_behavior_engine/tree.py:140-142 | for every higher code, merge as written agrees with the intended merge on the code and differs from it on the text |
| NodeStatuses.MergeDoubledExample | src/task_behavior_engine/tree.py:140-142 | merging ACTIVE "b" into PENDING "a" gives "b; b" as written and "b" as intended |
| NodeStatuses.MergeAgreesUnlessHigher | src/task_behavior_engine/tree.py:136-145 | with an equal or lower code, the two merges agree exactly |
| NodeDatas.NodeData.constructor | src/task_behavior_engine/tree.py:30-32 | a new NodeData holds no keys |
| NodeDatas.NodeData.Keys | src/task_behavior_engine/tree.py:70-74 | keys lists each stored key exactly once and nothing else, in the order the model keeps (insertion order) |
| NodeDatas.NodeData.GetData | src/task_behavior_engine/tree.py:76-84 | get_data returns the stored value, or stores and returns the default for a missing key; a new key goes last in the model's key order |
| NodeDatas.NodeData.SetData | src/task_behavior_engine/tree.py:86-91 | set_data maps the key to the value and changes no other key; a new key goes last in the model's key order |
| BoardSpec.NodeMemory | src/task_behavior_engine/tree.py:159-168 | a node's memory is created empty, with no remappings, on first use; an existing one is left alone |
| BoardSpec.Read | src/task_behavior_engine/tree.py:37-62 | reading a key from node data succeeds exactly for a present key without a leading '_'; the empty key fails with IndexError, a '_' key with AttributeError and a missing key with KeyError |
| BoardSpec.Lookup | src/task_behavior_engine/tree.py:193-208 | the base memory is read directly (KeyError when the key is missing); a node scope is first materialized, with its remappings pulled in, and then read |
| BoardSpec.Save | src/task_behavior_engine/tree.py:210-217 | save writes the value under the key in the base memory or in the node's materialized memory, and keeps the blackboard consistent |
| BoardSpec.AddRemapping | src/task_behavior_engine/tree.py:228-239 | add_remapping fails with RuntimeError exactly when the target key of that scope is already remapped; otherwise it appends the remapping and changes nothing else |
| BoardSpec.GetNodeStatus | src/task_behavior_engine/tree.py:252-259 | get_node_status returns the stored status, or stores and returns PENDING "" for a node without one |
| BoardSpec.SetNodeStatus | src/task_behavior_engine/tree.py:261-266 | set_node_status replaces only that node's entry in the status table |
| BoardSpec.ClearNodeStatus | src/task_behavior_engine/tree.py:268-272 | clear_node_status empties the status table and keeps the memories |
| BoardLemmas.MaterializeResolves | src/task_behavior_engine/tree.py:170-191 | when remappings are acyclic, fetching a node's data leaves in it, for every key, the value the remapping chain resolves to, and every other scope's resolved values are unchanged |
| BoardLemmas.LookupResolves | src/task_behavior_engine/tree.py:193-208 | a node-scope get answers exactly the resolved value of the key, or the error reading it raises |
| BoardLemmas.GetResolves | src/task_behavior_engine/tree.py:219-226 | get in a node scope answers the remapped source value when there is one and the node's own value otherwise |
| BoardLemmas.SaveGetBase | src/task_behavior_engine/tree.py:210-226 | a value saved in the base memory is what get returns for that key, and other keys are unaffected |
| BoardLemmas.SaveThenGet | src/task_behavior_engine/tree.py:210-226 | a value saved in a node scope is what get returns unless a remapping pulls that key from elsewhere, in which case the remapped value wins; scopes that rank lower are unaffected |
| BoardLemmas.SaveKeepsSource | src/task_behavior_engine/tree.py:183-189 | saving a key into a node's memory does not change where that key's remapped value comes from |
| BoardLemmas.RemapPull | src/task_behavior_engine/tree.py:228-239 | after a successful add_remapping, a get of the target key answers what a get of the source key answers, or the target's own value when the source read fails |
| BoardLemmas.AddedRemapFound | src/task_behavior_engine/tree.py:235-239 | the new remapping is the one found for its target key, and the target's own stored value is untouched |
| BoardLemmas.PulledIsGet | src/task_behavior_engine/tree.py:183-189 | the value a remapping pulls is exactly what a get of its source key answers |
| BoardLemmas.RemapTwiceFails | src/task_behavior_engine/tree.py:233-234 | remapping the same target key a second time always fails with RuntimeError |
| BoardLemmas.FreshNodeGet | src/task_behavior_engine/tree.py:159-168 | a get in a scope with no memory yet creates that memory and finds nothing in it |
| BoardLemmas.StatusTable | src/task_behavior_engine/tree.py:252-272 | the status table reads back what was set for that node, leaves other nodes alone, reads PENDING after clearing, and a read repeated after a read gives the same status |
| Blackboards.Blackboard.constructor | src/task_behavior_engine/tree.py:150-157 | a new blackboard is empty |
| Blackboards.Blackboard.NodeMemoryOf | src/task_behavior_engine/tree.py:159-168 | the method leaves the blackboard that `BoardSpec.NodeMemory` describes |
| Blackboards.Blackboard.NodeDataOf | src/task_behavior_engine/tree.py:170-191 | the remapping loop leaves the blackboard that `BoardSpec.Materialize` describes |
| Blackboards.Blackboard.Lookup | src/task_behavior_engine/tree.py:193-208 | the method returns the value and leaves the blackboard that `BoardSpec.Lookup` describes |
| Blackboards.Blackboard.Get | src/task_behavior_engine/tree.py:219-226 | the method returns the value and leaves the blackboard that `BoardSpec.Get` describes |
| Blackboards.Blackboard.GetMemory | src/task_behavior_engine/tree.py:241-245 | the method returns the node's materialized memory |
| Blackboards.Blackboard.Save | src/task_behavior_engine/tree.py:210-217 | the method leaves the blackboard that `BoardSpec.Save` describes |
| Blackboards.Blackboard.AddRemapping | src/task_behavior_engine/tree.py:228-239 | the duplicate-target loop returns the error, and leaves the blackboard, that `BoardSpec.AddRemapping` describes |
| Blackboards.Blackboard.GetNodeStatus | src/task_behavior_engine/tree.py:252-259 | matches `BoardSpec.GetNodeStatus` |
| Blackboards.Blackboard.SetNodeStatus | src/task_behavior_engine/tree.py:261-266 | matches `BoardSpec.SetNodeStatus` |
| Blackboards.Blackboard.ClearNodeStatus | src/task_behavior_engine/tree.py:268-272 | matches `BoardSpec.ClearNodeStatus` |
| Leaves.RunOutcomes | src/task_behavior_engine/node.py:28-51 | the Success, Fail and Continue leaves answer exactly SUCCESS, FAIL and ACTIVE, each with an empty text; only Continue is left unfinished |
| Decorators.NegateInvolution | src/task_behavior_engine/decorator.py:36-44 | Negate swaps SUCCESS and FAIL in both directions, negating twice gives back the code, and any other status passes through unchanged |
| Decorators.RepeatNeverFinishes | src/task_behavior_engine/decorator.py:58-63 | Repeat never answers SUCCESS or FAIL: a finished child becomes ACTIVE, and anything else passes through |
| Decorators.WhileOnSuccess | src/task_behavior_engine/decorator.py:77-82 | While turns exactly a SUCCESS into ACTIVE |
| Decorators.UntilOnFail | src/task_behavior_engine/decorator.py:96-101 | Until turns exactly a FAIL into ACTIVE |
| Decorators.FailingAndSucceeding | src/task_behavior_engine/decorator.py:141-168 | Fail never answers SUCCESS and turns exactly a SUCCESS into FAIL; Succeed never answers FAIL and turns exactly a FAIL into SUCCESS |
| Decorators.NonTerminalPassesThrough | src/task_behavior_engine/decorator.py:36-168 | every decorator passes CANCEL, ACTIVE and PENDING through unchanged, and UntilCount then keeps its count |
| Decorators.UntilCountCounts | src/task_behavior_engine/decorator.py:119-126 | UntilCount adds one to its count on each FAIL, and turns the FAIL into ACTIVE only while the new count is below max_count |
| Decorators.UntilCountRetries | src/task_behavior_engine/decorator.py:115-126 | after a fresh configure, the n-th consecutive FAIL is retried (answers ACTIVE) exactly when n < max_count, and from max_count on the FAIL is returned as it is |
| Branches.MajorityMatchesRatio | src/task_behavior_engine/branch.py:270-290 | the integer thresholds equal the source's ratio tests: failures over children > 0.5, successes over children >= 0.5 |
| Branches.MajorityTieSucceeds | src/task_behavior_engine/branch.py:285-290 | an even split counts as a success majority and not as a failure majority |
| TreeSpec.Publish | src/task_behavior_engine/tree.py:453-464 | publishing records a node's result and writes it to its status table entry, and nothing else |
| TreeSpec.Memory | src/task_behavior_engine/tree.py:241-245 | fetching a node's memory changes only the blackboard, and only by extending it |
| TreeSpec.RemoveFirst | src/task_behavior_engine/tree.py:569-584 | removing from the open list takes exactly one occurrence of a listed child and leaves an unlisted one alone |
| TreeSpec.OpenAfterCounts | src/task_behavior_engine/tree.py:569-584 | after ticking a child, the open list holds it once when it answered ACTIVE (once more only if it was not listed) and one occurrence fewer when it did not; other children keep their counts |
| TreeSpec.ResetChildren | src/task_behavior_engine/tree.py:617-621 | reset_children_status sets every child's status to PENDING "" and keeps every other node's status and all memories |
| TreeSpec.PolicyConfigure | src/task_behavior_engine/branch.py:116-266 | configuring a branch changes only its own bookkeeping and keeps its result and force |
| TreeSpec.RandomConfigure | src/task_behavior_engine/branch.py:189-196 | Random's configure chooses nothing exactly when there are no children, and otherwise chooses one of the children |
| TreeSpec.UntilCountConfigure | src/task_behavior_engine/decorator.py:115-117 | UntilCount's configure sets count to 0 and max_count to the configured value in the node's memory, and nothing else |
| TreeSpec.ConfigureCallback | src/task_behavior_engine/tree.py:312-324 | the kind-specific configure keeps the node's result, force and every status |
| TreeSpec.NodeConfigure | src/task_behavior_engine/tree.py:312-324 | _configure leaves the result ACTIVE "Configured <name>" and keeps the force |
| TreeSpec.Configure | src/task_behavior_engine/tree.py:477-486 | every node's configure ends like Node._configure: ACTIVE "Configured <name>", force kept, no status published, and only the node and the nodes below it change; a decorator configures its child first (see `TreeLemmas.DecoratorConfiguresChild`) |
| TreeSpec.Tick | src/task_behavior_engine/tree.py:453-464 | a tick answers the forced status when one is set; its answer is published; an unfinished answer stays as the result with the force kept; a finished one leaves the node PENDING "Cleaned up <name>" with no force; only the node and nodes below it change |
| TreeSpec.Run | src/task_behavior_engine/tree.py:342-360 | _run returns the forced status, published and nothing else, when one is set; otherwise it runs the callback; the answer becomes the result and is published |
| TreeSpec.UntilCountRun | src/task_behavior_engine/decorator.py:119-126 | UntilCount's run changes only the node's memory |
| TreeSpec.Reset | src/task_behavior_engine/tree.py:617-621 | resetting the children's status changes only the status table |
| TreeSpec.TickChild | src/task_behavior_engine/tree.py:569-584 | tick_child answers the child's forced status when one is set, publishes the child's answer, and updates only the open list of the parent, as `OpenAfter` says |
| TreeSpec.Advance | src/task_behavior_engine/branch.py:240 | Progressor's index moves up by one and nothing else in the node changes |
| TreeSpec.Tally | src/task_behavior_engine/branch.py:275-278 | Majority's failure counter grows by one on FAIL, its success counter by one on SUCCESS, and nothing else changes |
| TreeSpec.Cleanup | src/task_behavior_engine/tree.py:610-615 | cleanup leaves the node PENDING "Cleaned up <name>" with no force, and a node that was not ACTIVE keeps its published status; what it does to the children is stated by `TreeLemmas.DecoratorCleanupChild` and `TreeLemmas.BehaviorCleanupAllPending` |
| TreeSpec.NodeCleanup | src/task_behavior_engine/tree.py:326-340 | _cleanup of a node that is not ACTIVE only resets its result and force; otherwise it runs the kind's cleanup first |
| TreeSpec.CleanupChildren | src/task_behavior_engine/tree.py:598-608 | cleanup_children changes the behavior's own state only in its open list |
| TreeSpec.CancelNode | src/task_behavior_engine/tree.py:376-380 | cancel leaves the result and the force at CANCEL "Canceling <name>" and publishes that status; what it does to the children is stated by `TreeLemmas.DecoratorCancelsChild` and `TreeLemmas.BehaviorCancelsChildren` |
| TreeSpec.NodeCancel | src/task_behavior_engine/tree.py:362-374 | _cancel sets the force and result to CANCEL "Canceling <name>" and publishes it |
| TreeSpec.CancelChildren | src/task_behavior_engine/tree.py:586-590 | cancel_children keeps the behavior's own state and status, and changes only nodes below it; what it does to each child is stated by `TreeLemmas.CancelChildrenCancels` |
| TreeSpec.Force | src/task_behavior_engine/tree.py:382-392 | force sets the node's force to the code with text "Forcing <name> to <CODE>" and changes nothing else |
| TreeLemmas.TickSkipsConfigure | src/task_behavior_engine/tree.py:453-458 | a tick of a node that is not PENDING answers what its run answers |
| TreeLemmas.TickConfiguresPending | src/task_behavior_engine/tree.py:453-458 | a tick of a PENDING node configures it first (result ACTIVE "Configured <name>", force kept) and then answers what the configured node's run answers |
| TreeLemmas.ForceLasts | src/task_behavior_engine/tree.py:382-392 | forcing ACTIVE or PENDING makes every later tick answer the forced status, because the force survives the tick |
| TreeLemmas.ForceFinishes | src/task_behavior_engine/tree.py:382-392 | forcing SUCCESS, FAIL or CANCEL makes the next tick answer it, publish it, and leave the node cleaned up with the force cleared |
| TreeLemmas.CancelThenTick | src/task_behavior_engine/tree.py:362-380 | after cancel, the next tick answers CANCEL "Canceling <name>", publishes it and leaves the node cleaned up with no force |
| TreeLemmas.LeafRun | src/task_behavior_engine/node.py:28-51 | an unforced leaf's run answers what its kind answers |
| TreeLemmas.LeafTick | src/task_behavior_engine/node.py:28-51 | a tick of a fresh leaf answers and publishes its kind's answer; only the Continue leaf stays ACTIVE, and the others end PENDING |
| TreeLemmas.ContinueStaysActive | src/task_behavior_engine/node.py:50-51 | an unforced Continue leaf answers ACTIVE on every tick and stays ACTIVE |
| TreeLemmas.ForceContinueToSuccess | src/task_behavior_engine/tree.py:382-392 | a running Continue leaf forced to SUCCESS answers and publishes the forced status on the next tick and is cleaned up |
| TreeLemmas.UntilCountPassesCancel | src/task_behavior_engine/decorator.py:119-126 | UntilCount returns a CANCEL and leaves its memory untouched |
| TreeLemmas.DecoratorRunPassesCancel | src/task_behavior_engine/decorator.py:36-168 | every decorator whose child is being canceled answers the child's CANCEL status unchanged |
| TreeLemmas.DecoratorPassesCancel | src/task_behavior_engine/tree.py:514-521 | ticking a running decorator over a canceled child answers the child's CANCEL, and both end PENDING |
| TreeLemmas.CleanupChildrenPending | src/task_behavior_engine/tree.py:598-608 | after cleanup_children every child is PENDING |
| TreeLemmas.CancelChildrenIdle | src/task_behavior_engine/tree.py:586-590 | cancel_children over children that are all PENDING changes nothing |
| TreeLemmas.NodeCancelOnlyItself | src/task_behavior_engine/tree.py:362-374 | _cancel of a node changes no other node's state |
| TreeLemmas.CancelBehaviorOnlyItself | src/task_behavior_engine/tree.py:592-596 | canceling a behavior whose children are all PENDING changes only the behavior itself |
| TreeLemmas.NodeCleanupOnlyItself | src/task_behavior_engine/tree.py:610-615 | cleaning up a behavior whose children are all PENDING changes only the behavior itself |
| TreeLemmas.BehaviorCleanupAllPending | src/task_behavior_engine/tree.py:598-615 | after a behavior's cleanup, the behavior and every one of its children are PENDING |
| TreeLemmas.TickChildSiblings | src/task_behavior_engine/tree.py:569-584 | tick_child changes no node other than the parent, the child and the nodes below the child |
| TreeLemmas.CancelChildrenCancels | src/task_behavior_engine/tree.py:586-590 | after cancel_children every child that was not PENDING has result, force and published status CANCEL "Canceling <child>", and every PENDING child keeps its record and status |
| TreeLemmas.BehaviorCancelsChildren | src/task_behavior_engine/tree.py:592-596 | a behavior's cancel cancels every child that was not PENDING, leaves the PENDING ones untouched, and then cancels itself |
| TreeLemmas.DecoratorConfigureOnlyItself | src/task_behavior_engine/tree.py:312-324 | a decorator's own configure changes no node's record but its own |
| TreeLemmas.DecoratorConfiguresChild | src/task_behavior_engine/tree.py:477-486 | a decorator's configure leaves its child ACTIVE "Configured <child>" with the child's force kept |
| TreeLemmas.DecoratorCancelsChild | src/task_behavior_engine/tree.py:498-506 | a decorator's cancel leaves both the child and itself with result, force and published status CANCEL "Canceling <name>" |
| TreeLemmas.DecoratorCleanupChild | src/task_behavior_engine/tree.py:488-496 | a decorator's cleanup leaves its child PENDING "Cleaned up <child>" with no force; when the decorator itself was ACTIVE, Node._cleanup cancels it and the child is left canceled instead |
| BranchLemmas.SelectorLoopRule | src/task_behavior_engine/branch.py:37-50 | Selector ticks children in order until one does not fail; it answers SUCCESS exactly when the last child ticked succeeded, ACTIVE exactly when that child is unfinished, and FAIL exactly when every child was ticked and none succeeded |
| BranchLemmas.SequencerLoopRule | src/task_behavior_engine/branch.py:64-77 | Sequencer ticks children in order while they succeed; it answers ACTIVE exactly when the last child ticked is unfinished, FAIL exactly when that child finished without success, and SUCCESS exactly when every child succeeded |
| BranchLemmas.RunnerLoopRule | src/task_behavior_engine/branch.py:90-99 | Runner ticks children in order while they finish; it answers ACTIVE exactly when the last child ticked is unfinished, and SUCCESS after every child otherwise |
| BranchLemmas.FirstLoopRule | src/task_behavior_engine/branch.py:305-313 | First ticks children in order until one answers SUCCESS or FAIL and returns that status; if none does, it ticks them all and answers ACTIVE "" |
| BranchLemmas.AnyLoopRule | src/task_behavior_engine/branch.py:122-136 | Any ticks children in order until one succeeds (which children: see `BranchLemmas.AnyLoopOpen`); it answers SUCCESS exactly then, ACTIVE exactly when some child is still unfinished, and FAIL exactly when every open child finished without success |
| BranchLemmas.AllLoopRule | src/task_behavior_engine/branch.py:159-173 | All is the mirror of Any (which children: see `BranchLemmas.AllLoopOpen`): FAIL exactly on the first failing child, ACTIVE exactly when some child is still unfinished, and SUCCESS exactly when every open child finished without failing |
| BranchLemmas.MajorityLoopRule | src/task_behavior_engine/branch.py:268-292 | Majority's counters end as the start counts plus the FAILs and SUCCESSes seen (which children: see `BranchLemmas.MajorityLoopOpen`); it answers FAIL exactly when failures are over half the children, SUCCESS exactly when successes are at least half without a failing majority, and ACTIVE otherwise |
| BranchLemmas.AnyLoopOpen | src/task_behavior_engine/branch.py:122-136 | Any ticks exactly the children that were open when the run started, in list order, up to the first SUCCESS; when it answers ACTIVE or FAIL it has ticked every one of them |
| BranchLemmas.AllLoopOpen | src/task_behavior_engine/branch.py:159-173 | All ticks exactly the children that were open when the run started, in list order, up to the first FAIL; when it answers ACTIVE or SUCCESS it has ticked every one of them |
| BranchLemmas.MajorityLoopOpen | src/task_behavior_engine/branch.py:268-292 | Majority ticks exactly the children that were open when the run started, in list order, up to the one that makes a majority; when it answers ACTIVE it has ticked every one of them |
| BranchRules.OpenInAfterTick | src/task_behavior_engine/tree.py:569-584 | ticking one child changes the open list for that child only, so the open children after it stay the same |
| BranchLemmas.ProgressorLoopRule | src/task_behavior_engine/branch.py:228-242 | Progressor resumes at its stored index, ticks children while they succeed and moves the index past each success; it answers ACTIVE when the last child ticked is unfinished, SUCCESS exactly when every remaining child succeeded, and otherwise that child's code; an index outside the children ticks nothing and answers SUCCESS |
| BranchLemmas.ProgressorStops | src/task_behavior_engine/branch.py:231-239 | a child at the stored index that does not succeed ends the run with its own code and does not move the index |
| BranchLemmas.ProgressorMoves | src/task_behavior_engine/branch.py:231-240 | a child at the stored index that succeeds moves the index to the next child, which is ticked next |
| BranchLemmas.RandomRunRule | src/task_behavior_engine/branch.py:198-204 | Random without a chosen child answers SUCCESS "No child selected" and changes nothing; otherwise it resets every child's status, answers what a tick of the chosen child answers, publishes it, and updates the open list for it; every other child is left with status PENDING "" and its record untouched |
| BranchLemmas.EmptyChildren | src/task_behavior_engine/branch.py:37-313 | with no children, Selector and Any answer FAIL, Majority and First answer ACTIVE, and Sequencer, Runner, All, Progressor and Random answer SUCCESS |
| BranchLemmas.BehaviorConfigureStartsOver | src/task_behavior_engine/branch.py:116-266 | configure reopens every child for Any, All and Majority, zeroes Majority's counters, rewinds Progressor to index 0, makes Random choose among its children, and leaves the other branches untouched |
| BranchLemmas.AnyLoopShrinks | src/task_behavior_engine/branch.py:122-136 | an Any run never adds children to the open list |
| BranchLemmas.AllLoopShrinks | src/task_behavior_engine/branch.py:159-173 | an All run never adds children to the open list |
| ChildLists.AddChild | src/task_behavior_engine/tree.py:535-547 | add_child fails with RuntimeError exactly when a listed child has the same name; otherwise it appends the child and keeps the rest in order |
| ChildLists.RemoveChild | src/task_behavior_engine/tree.py:549-554 | remove_child fails with ValueError exactly when the child is not listed; otherwise it removes one occurrence of it and nothing else |
| ChildLists.PrependChild | src/task_behavior_engine/tree.py:556-560 | prepend_child puts the child first and keeps the others in order, without checking names |
| ChildLists.InsertIndex | src/task_behavior_engine/tree.py:562-567 | the insert position follows Python's list.insert: a negative index counts from the end and an index out of range is clamped to an end |
| ChildLists.InsertChild | src/task_behavior_engine/tree.py:562-567 | insert_child puts the child at that position and keeps the others in order on either side of it |
| ChildLists.RemoveChildKeepsOrder | src/task_behavior_engine/tree.py:549-554 | remove_child takes off exactly the first occurrence and keeps the order of the rest |
| ChildLists.RemoveUndoesAdd | src/task_behavior_engine/tree.py:538-554 | removing a child that add_child accepted gives back the original list |
| ChildLists.RemoveUndoesPrepend | src/task_behavior_engine/tree.py:549-560 | removing a prepended child gives back the original list |
| ChildLists.RemoveUndoesInsert | src/task_behavior_engine/tree.py:549-567 | removing an inserted child that was not listed before gives back the original list |
| ChildLists.InsertAtEnds | src/task_behavior_engine/tree.py:556-567 | inserting at or before the start is prepend, at or after the end is append, and at -1 goes before the last child |
| ChildLists.AddKeepsNamesDistinct | src/task_behavior_engine/tree.py:535-547 | a list whose names are distinct keeps them distinct through add_child |
| Arena.NodeArena.constructor | src/task_behavior_engine/tree.py:291-310 | a new arena holds no nodes and an empty blackboard |
| Arena.NodeArena.AddNode | src/task_behavior_engine/tree.py:291-310 | a new node starts PENDING with no force, nothing open and zeroed bookkeeping |
| Arena.NodeArena.AddChild | src/task_behavior_engine/tree.py:538-547 | add_child on the arena returns the error, or stores the new child list, that `ChildLists.AddChild` gives, and keeps the tree well formed |
| Arena.NodeArena.RemoveChild | src/task_behavior_engine/tree.py:549-554 | remove_child on the arena returns the error, or stores the new child list, that `ChildLists.RemoveChild` gives |
| Arena.NodeArena.PrependChild | src/task_behavior_engine/tree.py:556-560 | prepend_child on the arena stores the list `ChildLists.PrependChild` gives |
| Arena.NodeArena.InsertChild | src/task_behavior_engine/tree.py:562-567 | insert_child on the arena stores the list `ChildLists.InsertChild` gives |
| Arena.NodeArena.Force | src/task_behavior_engine/tree.py:382-392 | the in-place force leaves the state that `TreeSpec.Force` describes |
| Arena.NodeArena.Tick | src/task_behavior_engine/tree.py:453-464 | the in-place tick returns the status and leaves the state that `TreeSpec.Tick` describes |
| Arena.NodeArena.Configure | src/task_behavior_engine/tree.py:477-486 | matches `TreeSpec.Configure` |
| Arena.NodeArena.NodeConfigure | src/task_behavior_engine/tree.py:312-324 | matches `TreeSpec.NodeConfigure` |
| Arena.NodeArena.PolicyConfigure | src/task_behavior_engine/branch.py:116-266 | matches `TreeSpec.PolicyConfigure` |
| Arena.NodeArena.Run | src/task_behavior_engine/tree.py:342-360 | matches `TreeSpec.Run` |
| Arena.NodeArena.DecoratorRun | src/task_behavior_engine/decorator.py:36-168 | matches `TreeSpec.DecoratorRun` |
| Arena.NodeArena.ResetChildrenStatus | src/task_behavior_engine/tree.py:617-621 | the loop over the children leaves the state that `TreeSpec.Reset` describes |
| Arena.NodeArena.TickChild | src/task_behavior_engine/tree.py:569-584 | matches `TreeSpec.TickChild` |
| Arena.NodeArena.SelectorRun | src/task_behavior_engine/branch.py:37-50 | the loop returns the answer and leaves the state of `TreeSpec.SelectorLoop`, whose rule `BranchLemmas.SelectorLoopRule` proves |
| Arena.NodeArena.SequencerRun | src/task_behavior_engine/branch.py:64-77 | the loop matches `TreeSpec.SequencerLoop` |
| Arena.NodeArena.RunnerRun | src/task_behavior_engine/branch.py:90-99 | the loop matches `TreeSpec.RunnerLoop` |
| Arena.NodeArena.AnyRun | src/task_behavior_engine/branch.py:122-136 | the loop matches `TreeSpec.AnyLoop` |
| Arena.NodeArena.AllRun | src/task_behavior_engine/branch.py:159-173 | the loop matches `TreeSpec.AllLoop` |
| Arena.NodeArena.RandomRun | src/task_behavior_engine/branch.py:198-204 | matches `TreeSpec.RandomRun` |
| Arena.NodeArena.ProgressorRun | src/task_behavior_engine/branch.py:228-242 | the loop matches `TreeSpec.ProgressorLoop` |
| Arena.NodeArena.MajorityRun | src/task_behavior_engine/branch.py:268-292 | the loop matches `TreeSpec.MajorityLoop` |
| Arena.NodeArena.FirstRun | src/task_behavior_engine/branch.py:305-313 | the loop matches `TreeSpec.FirstLoop` |
| Arena.NodeArena.Cleanup | src/task_behavior_engine/tree.py:610-615 | matches `TreeSpec.Cleanup` |
| Arena.NodeArena.NodeCleanup | src/task_behavior_engine/tree.py:326-340 | matches `TreeSpec.NodeCleanup` |
| Arena.NodeArena.CleanupChildren | src/task_behavior_engine/tree.py:598-608 | the loop matches `TreeSpec.CleanupChildren` |
| Arena.NodeArena.CancelNode | src/task_behavior_engine/tree.py:376-380 | matches `TreeSpec.CancelNode` |
| Arena.NodeArena.NodeCancel | src/task_behavior_engine/tree.py:362-374 | matches `TreeSpec.NodeCancel` |
| Arena.NodeArena.CancelChildren | src/task_behavior_engine/tree.py:586-590 | the loop matches `TreeSpec.CancelChildren` |

## Left out

- Logging, thread locks and `__str__` of NodeData are not modelled: they do not change any state the model has.
- Node ids are natural numbers instead of uuids. A node's id also serves as its blackboard scope, so the ids of distinct nodes are distinct by construction.
- `random.choice` is replaced by the arena's oracle `pick`. The n-th choice of the run takes the child at `pick(n) % |children|`, and `draws` counts the choices made.
- Branches.MajorityMatchesRatio: Majority's floating-point divisions become the integer tests `2*failures > n` and `2*successes >= n`. The lemma proves them equal to the exact real ratios; float rounding is not modelled.
- Blackboard remapping cycles: a nested get carries fuel of 1000 levels, standing in for Python's recursion limit. With the fuel spent, the nested get fails with RuntimeError, and the pull treats it as a failed read. The lemmas about resolved values assume acyclic remappings, given as a rank of scopes in which every remapping reads from a lower scope.
- Node data values are limited to nothing, integers and strings. No other Python value types are modelled.
- UntilCount's max_count is an integer in this model. The source accepts any value, and under Python 2 an integer compares below every string, so a string max_count would retry every FAIL.
- UntilCount reads `count` and `max_count` from the node's memory, where its configure always stores integers. If other code later removes them or stores a non-integer there, the model reads 0; Python would raise, or compare by Python 2's mixed-type order.
- Status codes are only the five named codes. `_get_status_str` prints any other integer as its digits, and `force` accepts any integer; neither is modelled.
- The whole tree shares one blackboard. In the source each node holds its own `_blackboard`, and reset_children_status writes through each child's own; nodes with different blackboards are not modelled.
- get_memory returns the live NodeData object, and UntilCount's run writes `count` through it. Blackboards.Blackboard.GetMemory returns a copy instead, and TreeSpec.UntilCountRun writes the new count back into the board itself. Other aliasing of that object is not modelled.
- The blackboard keeps each node's memory as a plain map, the `_data` of its NodeData. The NodeData class models that object's own methods on their own.
- NodeDatas.NodeData.Keys: lists the keys in insertion order. That order is a choice of this model: a Python 2 dict lists its keys in an arbitrary order.
- A node's remappings are pulled in the order they were added. Python 2 iterates the remapping dict in an arbitrary order; this matters only when one remapping of a node reads a key that another remapping of the same node writes.
- Blackboard nesting depth: a get that goes past the fuel bound fails with RuntimeError, as Python 2 does past its recursion limit, but the bound counts nesting levels, not interpreter frames, so the exact depth at which the source fails is not modelled.
- User-defined nodes are not modelled. The only kinds are the leaves, decorators and branches above, so the user run, configure, cleanup and cancel callbacks are absent. So are `NotImplementedError` for a missing run callback and the type check on the value a run returns.
- A decorator always has exactly one child. The built-in decorators read their child's name while running, so in the source a child-less decorator fails. `set_child` and the PENDING default of `Decorator.tick_child` without a child are not part of this model.
- `cancel_child` is modelled only where `cancel_children` uses it. `get_nodedata`, `set_nodedata`, `get_result`, `get_status` and the `register_*` setters are plain accessors and are not modelled separately.
- Shared or cyclic child structures are not modelled. Every method on the arena requires a rank that decreases from parent to child.
- Arena.NodeArena.AddChild: requires the new child to rank below the behavior, which the source does not check. The same holds for Arena.NodeArena.PrependChild and Arena.NodeArena.InsertChild.
- A node's NodeStatus is copied by value. The source returns the stored status object itself, so merging into a returned status would also change the stored one; that aliasing is not modelled.
- The arena holds its blackboard as a `BoardSpec.Board` value updated by the `BoardSpec` functions, and not as a `Blackboards.Blackboard` object. The class is proved equal to those functions separately.
- TreeLemmas.BehaviorCleanupAllPending: requires that no child ranks below a sibling. Ranking nodes by depth in a tree satisfies this.
- TreeLemmas.CancelChildrenCancels: requires that no child ranks below a sibling and that no node appears twice in the child list. add_child refuses a second child with the same name, but prepend_child and insert_child do not check.
- TreeLemmas.BehaviorCancelsChildren: requires the same two conditions as CancelChildrenCancels.
- BranchLemmas.AnyLoopOpen: requires that no node appears twice in the child list, for the same reason. With a repeated child, the second copy is ticked or skipped depending on what the first copy answered. The same holds for BranchLemmas.AllLoopOpen and BranchLemmas.MajorityLoopOpen.
- BranchLemmas.AllLoopOpen: see AnyLoopOpen.
- BranchLemmas.MajorityLoopOpen: see AnyLoopOpen.
- BranchLemmas.RandomRunRule: states that the other children are untouched only when the chosen child is one of the children and no child ranks below a sibling. Configure always chooses one of the children (`TreeSpec.RandomConfigure`).
- BranchLemmas.AnyLoopRule: states the children ticked only as a subsequence of the list. The tie to the open list is BranchLemmas.AnyLoopOpen.
- BranchLemmas.AllLoopRule: the same; the tie to the open list is BranchLemmas.AllLoopOpen.
- BranchLemmas.MajorityLoopRule: the same; the tie to the open list is BranchLemmas.MajorityLoopOpen.
- TreeSpec.Cleanup: its own contract states what happens to the node itself and which nodes may change. The children are covered by TreeLemmas.DecoratorCleanupChild and TreeLemmas.BehaviorCleanupAllPending, because stating that inside the mutually recursive lifecycle functions makes every proof about them too costly.
- TreeSpec.CancelNode: the same; the children are covered by TreeLemmas.DecoratorCancelsChild and TreeLemmas.BehaviorCancelsChildren.
- TreeSpec.CancelChildren: the same; the children are covered by TreeLemmas.CancelChildrenCancels.
- BranchLemmas.EmptyChildren: for Random, requires that configure chose no child. Configure guarantees this for an empty list (`TreeSpec.RandomConfigure`).

## Findings

| source | as written | input that shows it | evidently intended | confidence | as-written member | corrected member |
|---|---|---|---|---|---|---|
| src/task_behavior_engine/tree.py:140-142 | when the merged code is higher, merge sets the text to the new text joined to itself with "; " | merging ACTIVE "b" into PENDING "a" gives ACTIVE "b; b" | ACTIVE "b": the higher code replaces the status, text included | medium, not executed | NodeStatuses.MergeDoubledExample | NodeStatuses.MergeAgreesUnlessHigher |
