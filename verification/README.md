# Verified core of the page pipeline

Dafny models of the parts of the page-processing orchestrator whose correctness is not visible in any
one function, and proofs about them: the structural evaluation metrics, the zero-drop page protocol,
the rate controllers that the replicas share, the single-flight store of the mock model, and the
resumable result stream. `dafny verify dfyconfig.toml` checks everything.

## What is proved

**Tree edit distance** (`app/eval/ted.py`). `EditDistance` is a recursive forest edit distance;
`EditScripts` proves that it is the minimum number of single-node edits over all edit scripts, and
`EditDistance` that it is a metric with the bounds `|n1 - n2|` and `n1 + n2 - 1`. `ParseTree` is the
stack-driven flattening of a document into postorder arrays, proved equal to the recursive postorder
of the document, and `Renderings` proves that reading a document undoes writing one, for every
document that is accepted; `ZhangShasha` fills the two tables in place, with the forest table reused
uncleared, and is proved to return that distance for all trees while its inner loop runs exactly
`W(a) * W(b)` times. `TreeScores` composes them into the entry points. `Levenshtein` is the two-row
form with operand swap, its metric laws, and its agreement with the tree distance on chains.

**The zero-drop page protocol** (`app/queue/state.py`, `app/worker/pipeline.py`,
`app/worker/main.py`, `app/worker/reaper.py`, `app/queue/streams.py`). `PageStates` is the transition
script and what every sequence of script runs keeps. `ZeroDrop` is a step system in which every Redis
command of every handler is one step and deliveries, model outcomes, crashes, own-pending recovery and
reaping interleave freely; `ZeroDropAccounting` shows that its runs are sequences of script runs, so the
exact counting holds of them too. `ZeroDropOutcomes` and `ZeroDropRollbacks` tie the states of a page, and
every step back, to what the model calls returned and to who recovered or reaped the entry.

**Shared controllers** (`app/ratelimit`). Token bucket, circuit breaker and AIMD rate as classes over
real numbers with an explicit clock, and facts about all their runs: when exactly a call is granted, refused,
let through or counted, in terms of the calls before it. Their hashes expire when idle; where a promise
depends on the time to live, the exact condition is proved.

**Box matching** (`app/eval/iou.py`), where the score is shown to be cells in both boxes over cells in either,
**single flight** (`mock_model`), **result stream**
(`app/queue/results.py`, `app/api/stream.py`), **record expiry** (`app/queue/state.py`), **dispatch**
(`app/worker/main.py`) and **admission** (`app/api/admission.py`).

## Where the code does not do what it promises

- *Zero drop has a hole.* A handler on its final layout attempt that finds no capacity calls
  `release_claim`, which rolls back whatever running state it reads, also the VLM claim of another
  handler (`app/worker/pipeline.py:223-245`, `app/worker/pipeline.py:559-594`). The page is then in
  LAYOUT_DONE, from where FAILED is rejected; both handlers acknowledge, and the page is left without a
  queue entry. `ZeroDropLoss.LostIsReached` is a run of one page that ends so. Reaching it takes a
  duplicate entry, which a worker leaves that crashes between the two halves of a requeue.
  `ZeroDropProof.ZeroDropOnGuardedRuns` proves zero drop, with crashes and reaping, for every run that
  does not take that branch; `ZeroDropLoss.ZeroDropExactly` that zero drop holds on all runs of all
  jobs if and only if workers do not crash or the requeue limit is at most one; and
  `ZeroDropLoss.FinalSaturation` in which page states the branch is harmless.
- *The normalised tree score is not always in [0, 1]* (`app/eval/ted.py:263-279`). A chain of three
  against a star of three already exceeds it; the range holds for all trees of `m` and `n` nodes if and
  only if one of `m`, `n` is at most two (`TreeScores.NormalisedRange`).
- *A latency breach can raise the AIMD rate*, exactly when the rate is below the latency floor
  (`AdaptiveRates.DecreaseExact`); some history does so if and only if the latency floor is above the
  minimum rate, latencies are tracked and the ring holds enough samples (`AdaptiveRateRaise.RaiseExactly`).
- *Expiry of an idle token bucket is not always safe* (`app/config.py:73-75`). All runs, at a constant rate or
  a steered one, stay within the bound in all windows if and only if at the highest rate a bucket in deepest
  debt fills up within the time to live (`TokenBucketExpiry.ConformanceExactly`). The shipped numbers meet
  that condition (`TokenBucketOrder.ShippedConforms`); the settings do not enforce it.
- *Grants do not follow arrival order* (`app/ratelimit/token_bucket.py:220-221`) when the rate is steered: with
  the shipped numbers a call at rate 10 starts 800 ms before one that came first at rate 1
  (`TokenBucketOrder.OvertakenByEightTenths`). All runs keep the order if and only if the rate is constant or
  no wait exceeds a millisecond, and the longest wait is within the time to live
  (`TokenBucketOrder.OrderExactly`, `TokenBucketOrder.StrictOrderExactly`).
- *The admission gate forgets.* Its hash expires when no job is offered for the time to live
  (`app/api/admission.py:96`): shedding ends without the low mark, and the counters restart. Hysteresis
  and accounting hold on all runs if and only if offers are less than that apart, or for hysteresis no job
  fits above the low mark (`Admission.HysteresisExactly`, `Admission.AccountingExactly`).
- *The breaker forgets too*: the cooldown is kept on all histories if and only if the time to live is at
  least as long (`CircuitBreakers.CooldownExactly`); and two AIMD decreases are a refractory period apart on
  all histories if and only if the time to live is (`AdaptiveRates.ApartExactly`).
- *Event numbers restart.* Stream and counter expire together (`app/queue/results.py:104-109`), and not every
  transition publishes, so a live job can have two events with number 1
  (`ResultStreams.NumberingRestarts`). The numbers of a job are dense if and only if no two successive
  events are a time to live apart (`ResultStreams.DenseExactly`).
- *Half of the best true-positive count* is guaranteed exactly for positive thresholds; the request
  schema also allows 0, where disjoint boxes count for an assignment but are never matched
  (`BoxMatching.HalfExactlyForPositive`).
- *A worker can hold one task more than `worker_concurrency`*: the read that waits on both lanes asks for
  at least one entry from each (`app/queue/streams.py:664`), also when one slot is left
  (`Dispatch.RoundExact`, `Dispatch.BoundExact`).
- *The gap check of a resumed stream* raises a false alarm when the event of the cursor is gone but no
  later one, and is silent when nothing at all is retained (`EventStreams.FalseAlarm`,
  `EventStreams.SilentLoss`); `EventStreams.GapCheckRight` says exactly when it is right.

## Assumptions

Redis commands do not fail; scripts are atomic. A handler whose entry is recovered or reaped takes no
further step: that is what lease renewal is for (`app/config.py:446-456`). Model calls are arbitrary
outcomes (a result, a failure for good, no capacity). The age of a task may make any attempt final, and
the requeue limit makes it so at the latest. Floating-point numbers are reals, clocks do not go back, and
page expiry follows one clock with sweeps that succeed. Configuration values are parameters with the
constraints that the constructors and settings enforce; a result that needs more says so in its contract,
and has a partner that gives the exact condition.

## Model

| member | source | states |
|---|---|---|
| `EditDistance.Subadditive` | app/eval/ted.py:163-244 | The distance of two concatenated forests is at most the sum of the distances of the parts, which is what lets a table cell reuse subtree distances |
| `EditDistance.SelfDistance` | app/eval/ted.py:163-244 | A tree has distance 0 from itself |
| `EditDistance.ZeroMeansEqual` | app/eval/ted.py:163-244 | Distance 0 is only between equal trees |
| `EditDistance.Symmetric` | app/eval/ted.py:163-244 | The distance is symmetric |
| `EditDistance.Triangle` | app/eval/ted.py:163-244 | The distance satisfies the triangle inequality |
| `EditDistance.TreeBounds` | app/eval/ted.py:163-244 | Between non-empty trees the distance is at least the difference of the node counts and at most their sum less one |
| `EditScripts.NoScriptIsShorter` | app/eval/ted.py:163-244 | No sequence of single-node deletions, insertions and relabellings is shorter than the distance |
| `EditScripts.ShortestScript` | app/eval/ted.py:163-244 | Some sequence of single-node edits is as short as the distance |
| `EditScripts.DistanceIsMinimum` | app/eval/ted.py:163-244 | A number is the minimum edit count of two forests if and only if it is their distance |
| `PostOrder.SubOfSub` | app/eval/ted.py:33-79 | In postorder the subtree of a node is a contiguous range that ends with the node, numbered like the subtree on its own |
| `PostOrder.RangesNest` | app/eval/ted.py:33-79 | The range of a node under another one lies within the range of the other |
| `PostOrder.SameStartNests` | app/eval/ted.py:33-79 | Of two nodes with the same leftmost leaf the later one is an ancestor of the earlier |
| `PostOrder.LeftmostIsLeaf` | app/eval/ted.py:33-79 | The leftmost descendant of a node is a leaf and the start of its range |
| `FlatTrees.KeyrootPerLeaf` | app/eval/ted.py:58-79 | There are exactly as many keyroots as leaves |
| `FlatTrees.KeyrootIsUnique` | app/eval/ted.py:63-79 | Every node lies on the spine of exactly one keyroot |
| `FlatTrees.FlatFormIsPostorder` | app/eval/ted.py:82-138 | The label array of a flattened tree is the recursive postorder of its labels, and the leftmost array that of its leftmost leaves |
| `ParseTree.PushChildren` | app/eval/ted.py:121-125 | Pushing the children in reverse leaves them to be visited from left to right, one level deeper |
| `ParseTree.Flatten` | app/eval/ted.py:96-125 | The stack loop terminates, fails exactly on documents with a mapping that has no label or whose children are not a sequence, and otherwise writes label and leftmost leaf of every node in recursive postorder, and the depth |
| `ParseTree.Keyroots` | app/eval/ted.py:127-136 | The seen-set scan from the right finds exactly the keyroots, in ascending order |
| `ParseTree.Parse` | app/eval/ted.py:82-138 | The flattened form describes the recursive tree of the document; a missing root gives the empty tree |
| `Renderings.RenderedIsRead` | app/eval/ted.py:141-160 | A forest written as documents, each leaf as its bare label or as a mapping with no children or none in the list, is read back with the same labels and the same structure |
| `Renderings.WellFormedExactly` | app/eval/ted.py:141-160 | Documents are accepted if and only if they are written from some forest in that way |
| `Renderings.RoundTrip` | app/eval/ted.py:82-160 | A document written from a tree is read as that tree |
| `Renderings.DifferentTreesDiffer` | app/eval/ted.py:82-298 | Two documents are at distance 0 if and only if they are written from the same tree |
| `Renderings.RenderedDepth` | app/eval/ted.py:96-120 | The reported depth is the number of levels of the tree |
| `ZhangShasha.SpineCell` | app/eval/ted.py:215-229 | A table cell for two whole trees: delete, insert, or match the roots |
| `ZhangShasha.DetachedCell` | app/eval/ted.py:230-242 | A table cell for two forests: delete, insert, or align the two last subtrees as wholes |
| `ZhangShasha.ReadsAreSettled` | app/eval/ted.py:188-242 | Every tree distance that a pass reads and does not write itself was written by an earlier pass |
| `ZhangShasha.FillRow` | app/eval/ted.py:206-242 | One row of a pass sets its cells to the forest distances, completes the tree table of its node, and changes nothing else |
| `ZhangShasha.Pass` | app/eval/ted.py:188-242 | A pass gives the right values whatever the forest table held before, and touches the tree table only under its two keyroots |
| `ZhangShasha.AllPasses` | app/eval/ted.py:188-242 | After the passes for all keyroot pairs every subtree distance is in the tree table; the cells visited are the product of the keyroot weights |
| `ZhangShasha.TreeEditDistance` | app/eval/ted.py:163-244 | The result is the recursive forest edit distance, for all trees and the empty tree, after exactly `W(a) * W(b)` inner iterations |
| `TreeScores.Score` | app/eval/ted.py:282-298 | Parsing and comparing two documents gives the minimum number of edits between their trees and the two node counts, or fails when a document is malformed |
| `TreeScores.Gated` | app/api/evaluate.py:282-308 | A comparison is refused exactly when the product of the keyroot weights exceeds the limit, so an admitted one never visits more cells than the limit |
| `TreeScores.PathAgainstStar` | app/eval/ted.py:263-279 | A chain against a star of other labels keeps at most two nodes |
| `TreeScores.NormalisedExceedsOne` | app/eval/ted.py:263-279 | Two trees of three nodes have a normalised score above 1 |
| `TreeScores.NormalisedRange` | app/eval/ted.py:263-279 | The normalised score of all trees with `m` and `n` nodes is at most 1 if and only if `m` or `n` is at most 2 |
| `Levenshtein.TwoRows` | app/eval/text.py:124-138 | The loop that keeps two rows computes the recursive edit distance |
| `Levenshtein.Compute` | app/eval/text.py:110-138 | With the operand swap and the empty cases the result is the recursive edit distance of the arguments in their own order |
| `Levenshtein.LevMetric` | app/eval/text.py:110-138 | The edit distance of sequences is symmetric, 0 exactly for equal sequences and satisfies the triangle inequality |
| `Levenshtein.ReversalInvariant` | app/eval/text.py:110-138 | Reading both sequences backwards does not change the distance |
| `Levenshtein.ChainDistance` | app/eval/ted.py:163-244 | On single-chain trees the tree edit distance is the edit distance of the label sequences |
| `Levenshtein.LeavesDistance` | app/eval/ted.py:163-244 | On rows of leaves too |
| `PageStates.Terminal` | app/queue/state.py:60-115 | The states without a way out in the table are DONE, FALLBACK_DONE and FAILED |
| `PageStates.WaysIn` | app/queue/state.py:60-115 | The inverted table: from which states each state can be reached |
| `PageStates.PageStore.constructor` | app/queue/state.py:307-357 | Creating a job makes every page pending and the counter zero |
| `PageStates.PageStore.Transition` | app/queue/state.py:133-238 | The script as a function of the job: nothing changes unless the page exists and is in an allowed state; a terminal state counts one more page |
| `PageStates.ResultIsState` | app/queue/state.py:133-238 | On every trace a call returns the state in which it leaves the page, applies exactly when the state was allowed, and returns the counters exactly when it made the page terminal |
| `PageStates.CounterIsExact` | app/queue/state.py:133-238 | After any sequence of script runs by anyone, the done counter is the number of terminal pages |
| `PageStates.ProgressIsKept` | app/queue/state.py:60-115 | A terminal state never changes, and a page with a committed layout is never pending or in layout again |
| `PageStates.OneFinalPerPage` | app/worker/pipeline.py:100-168 | A page has at most one successful terminal transition, hence at most one final event |
| `PageStates.CompletionExact` | app/queue/state.py:272-283 | A transition reports the job complete exactly when it makes the last open page terminal |
| `PageStates.CompletedAtMostOnce` | app/queue/state.py:272-283 | No two transitions report completion |
| `PageStates.CompletedWhenAllTerminal` | app/queue/state.py:272-283 | Once all pages are terminal, a transition has reported it |
| `ZeroDropAccounting.CommandIsRequest` | app/worker/pipeline.py:332-654 | A command changes its page by the transition it asks the store for and by nothing else, with sources that the table allows |
| `ZeroDropAccounting.RunIsTrace` | app/queue/state.py:133-238 | The script runs of a protocol run, crashes and recoveries included, are a trace of the store with the page states of the run at every moment |
| `ZeroDropAccounting.FinishedOnce` | app/worker/pipeline.py:100-168 | On every protocol run a page becomes terminal, and gets its final event, at most once |
| `ZeroDropAccounting.CounterOnRuns` | app/queue/state.py:225-234 | At every moment of a protocol run the done counter is the number of terminal pages |
| `ZeroDropAccounting.CompletedOnce` | app/queue/state.py:272-283 | A protocol run that finishes its job has reported completion by exactly one transition |
| `ZeroDropOutcomes.StateIsEarned` | app/worker/pipeline.py:332-654 | On every run a page has a layout only if a layout call for it came back, is DONE only if a VLM call for it did, FALLBACK_DONE only if one failed for good or found no capacity on a final attempt or an exhausted reaper found it with a layout, and FAILED only if a layout call failed or found no capacity on a final attempt or such a reaper found it without |
| `ZeroDropRollbacks.RollbackIsEarned` | app/worker/pipeline.py:223-245 | On every run a running page is taken back only by a handler whose own entry was recovered or reaped or whose own call found no capacity, or from a VLM claim by one whose layout call came back; never by a plain delivery |
| `ZeroDropProof.CommandFollowsTable` | app/queue/state.py:60-115 | Whatever a handler does to a page follows the transition table |
| `ZeroDropProof.ResponsibleMoves` | app/worker/pipeline.py:332-654 | A handler that is responsible for a page stays so through each of its commands until the page is terminal |
| `ZeroDropProof.ChangerTakesOver` | app/worker/pipeline.py:332-654 | A handler whose compare-and-set succeeds becomes responsible, except when it rolls back a VLM claim on a final layout attempt |
| `ZeroDropProof.SettlementKeepsCover` | app/worker/main.py:554-657 | Requeues, acknowledgements, deliveries, recoveries, claims and crashes leave every page terminal or with a responsible entry |
| `ZeroDropProof.StepKeepsSafe` | app/worker/reaper.py:94-185 | Every action but that rollback keeps every page covered |
| `ZeroDropProof.ZeroDropOnGuardedRuns` | app/worker/pipeline.py:332-654 | In every state of every run without that rollback, crashes and reaping included, each page that is not terminal has a queue entry |
| `ZeroDropLoss.FinalSaturation` | app/worker/pipeline.py:559-594 | A final layout attempt without capacity leaves the page terminal exactly when it was not in LAYOUT_DONE or VLM_RUNNING |
| `ZeroDropLoss.LostIsReached` | app/worker/pipeline.py:559-594 | With crashes and at least two attempts a run of one page reaches a state with the layout committed and no queue entry, with and without stage handoff |
| `ZeroDropLoss.ZeroDropExactly` | app/worker/pipeline.py:332-654 | All runs of all jobs keep an entry for every page that is not terminal, if and only if workers do not crash or the requeue limit is at most one |
| `ZeroDropLimits.StepOrderly` | app/queue/streams.py:460-541 | Without crashes, or with one attempt only, every action keeps at most one active entry per page without a layout, in a stage that fits the page |
| `ZeroDropLimits.NoRollback` | app/worker/pipeline.py:223-245 | In such states no handler is about to roll back a VLM claim of another one on a final layout attempt |
| `ZeroDropProgress.CommandCost` | app/worker/pipeline.py:484-594 | Each command uses up part of its entry's budget; the uncharged handoff is paid for by the layout result |
| `ZeroDropProgress.RunsAreFinite` | app/worker/main.py:479-484 | Without crashes a job of `n` pages takes at most `14 * (attempts + 1) * n` actions in any interleaving |
| `ZeroDropProgress.DeliveriesAreBounded` | app/worker/main.py:554-600 | Without crashes a page is delivered at most `attempts + 1` times |
| `ZeroDropProgress.UnfinishedGoesOn` | app/worker/main.py:492-657 | Without crashes a run can go on as long as some page is not terminal |
| `BoxGeometry.IouMeaning` | app/eval/iou.py:116-136 | The score is in [0, 1] and symmetric, positive exactly for boxes that share area, and 1 exactly for equal boxes with area |
| `BoxCells.IouCountsCells` | app/eval/iou.py:116-136 | On any grid the score of two boxes is the number of cells in both over the number of cells in either, and 0 when there are none |
| `BoxCells.IouStays` | app/eval/iou.py:116-136 | The score does not change when both boxes are moved and stretched alike |
| `GreedyMatching.GreedyIsStable` | app/eval/iou.py:190-201 | Greedy matching is one-to-one, and every pair left out shares a box with a taken pair that precedes it |
| `GreedyMatching.StableIsUnique` | app/eval/iou.py:190-201 | It is the only matching with that property |
| `GreedyMatching.GreedyIsHalfOptimal` | app/eval/iou.py:167-210 | For every worth of scores that never falls as the score grows, no one-to-one choice of pairs is worth more than twice the greedy one |
| `GreedyMatching.ThresholdCommutes` | app/eval/iou.py:298-299 | Dropping matches below a threshold afterwards gives the matches of running greedy on the pairs at or above it |
| `BoxMatching.CollectCandidates` | app/eval/iou.py:184-189 | The candidates are exactly the pairs with a positive score |
| `BoxMatching.ChooseGreedily` | app/eval/iou.py:193-201 | The loop over claimed sets makes the greedy choice, and the sets are the indices matched |
| `BoxMatching.MatchBoxes` | app/eval/iou.py:167-210 | Fails exactly on boxes of negative extent; otherwise the greedy matches, and the unmatched lists are exactly the rest |
| `BoxMatching.MatchesAreStable` | app/eval/iou.py:167-210 | The matches are the one stable matching of the overlapping pairs |
| `BoxMatching.LeftOutForBetter` | app/eval/iou.py:190-201 | An overlapping pair is left out only because a match has one of its boxes with a higher score, or with the same score and lower indices |
| `BoxMatching.HalfOfAnyAssignment` | app/eval/iou.py:167-210 | No assignment of predicted to true boxes, overlapping or not, is worth more than twice the matching, in sum of scores or any other worth that gives nothing for no overlap |
| `BoxMatching.HalfOfIouSum` | app/eval/iou.py:162-164 | No assignment has more than twice the sum of scores of the matching |
| `BoxMatching.HalfOfTruePositives` | app/eval/iou.py:283-310 | At a positive threshold no assignment has more than twice the true positives |
| `BoxMatching.HalfExactlyForPositive` | app/api/evaluate.py:53 | That holds for all boxes if and only if the threshold is positive |
| `BoxMatching.ScoreBoxes` | app/eval/iou.py:283-310 | True positives are the matches at or above the threshold; with the false positives they make up the predicted boxes, with the false negatives the true ones |
| `BoxMatching.CountReaching` | app/eval/iou.py:298-299 | The true positives are the matches whose score is at least the threshold |
| `BoxMatching.RatesMean` | app/eval/iou.py:228-252 | Precision is the part of the predicted boxes that are true positives and recall that of the true boxes, 1 when there are none |
| `BoxMatching.F1IsDice` | app/eval/iou.py:228-259 | F1 is twice the true positives over all boxes of both sides, 1 when there are none, and in [0, 1] |
| `TokenBuckets.TokenBucket.TryAcquire` | app/ratelimit/token_bucket.py:70-136 | The script as a function of the stored balance: refill, grant, reserve or refuse, with the wait rounded up |
| `TokenBuckets.BalanceIsKept` | app/ratelimit/token_bucket.py:93-128 | At any rates and any clock readings the balance stays between minus what the longest wait in whole milliseconds earns and the burst |
| `TokenBucketWork.ExactBalance` | app/ratelimit/token_bucket.py:87-103 | A call finds a full bucket at first and after an expiry, and otherwise exactly what the last call left and the rate has earned since, up to the burst |
| `TokenBucketWork.BalanceAfter` | app/ratelimit/token_bucket.py:104-136 | It leaves what it finds less what it is granted, and reports that in thousandths, rounded down |
| `TokenBucketWork.WaitIsLeast` | app/ratelimit/token_bucket.py:104-118 | The wait a call is told is the least number of milliseconds after which burst and rates cover it together with all grants since any earlier call, and it is granted exactly when it is ready to wait that long |
| `TokenBucketWork.RefusedExactly` | app/ratelimit/token_bucket.py:87-128 | At any rates a call is refused if and only if from some call on, with the hash kept since, the grants and the call exceed what burst and rates allow by the end of its longest wait |
| `TokenBucketWork.SteadySupply` | app/ratelimit/token_bucket.py:96-103 | At a constant rate what is earned between two calls is that rate times the time |
| `TokenBuckets.ExpiryIsHarmless` | app/ratelimit/token_bucket.py:87-92 | A hash that expired would have been full, if what the rate of the call earns within the time to live covers the burst and the deepest debt |
| `TokenBuckets.Conformance` | app/ratelimit/token_bucket.py:70-136 | From one granted call to a later one, with no harmful expiry between them, what is granted in all is at most the burst, what the highest rate earns between their start times and one millisecond more, and the drift of the rate over the longest wait |
| `TokenBuckets.WindowConformance` | app/ratelimit/token_bucket.py:70-136 | The same for all grants that start in any window of time, for rates steered from call to call, if at the highest rate a bucket in deepest debt fills up within the time to live; at a constant rate the drift is nothing |
| `TokenBuckets.FirstComeFirstServed` | app/ratelimit/token_bucket.py:206-223 | At a constant rate, or when no wait exceeds a millisecond, grants start in call order up to less than a millisecond if the longest wait is less than the time to live and a millisecond, and exactly so if it is at most the time to live and the grant costs what the highest rate earns in a millisecond |
| `TokenBucketExpiry.ConformanceExactly` | app/config.py:73-75 | At rates steered in any way between their bounds, all runs conform in all windows if and only if the burst is at most what the highest rate earns in the time to live less the longest wait |
| `TokenBucketOrder.OrderExactly` | app/ratelimit/token_bucket.py:206-223 | No grant of any run starts a whole millisecond before an earlier one, if and only if the rate is constant or no wait exceeds a millisecond, and the longest wait is less than the time to live and a millisecond |
| `TokenBucketOrder.StrictOrderExactly` | app/ratelimit/token_bucket.py:206-223 | No grant of a millisecond of the highest rate or more starts before an earlier one at all, if and only if no call can cost that much, or the rate is constant or no wait exceeds a millisecond and the longest wait is at most the time to live |
| `TokenBucketOrder.ShippedConforms` | app/config.py:44-75 | With the shipped numbers of the VLM bucket all runs conform in all windows |
| `TokenBucketOrder.OvertakenByEightTenths` | app/ratelimit/token_bucket.py:220-221 | With the shipped numbers, of two calls of cost 1 at the same time the later one starts 800 ms before the earlier |
| `CircuitBreakers.CircuitBreaker.Run` | app/ratelimit/breaker.py:57-188 | The script as a function of the stored hash, for all four operations |
| `CircuitBreakers.CooldownHolds` | app/ratelimit/breaker.py:92-106 | If the time to live is at least the cooldown, no call is admitted within the cooldown after an opening or a late failure that restarts it |
| `CircuitBreakers.CooldownExactly` | app/ratelimit/breaker.py:92-185 | That holds on all histories if and only if the time to live is at least the cooldown |
| `CircuitBreakers.EpisodeFits` | app/ratelimit/breaker.py:94-179 | A half-open episode admits at most `max_probes + probe_successes - 1` calls |
| `CircuitBreakerProbes.ProbesExact` | app/ratelimit/breaker.py:94-179 | A number bounds the calls of every half-open episode if and only if it is at least that: some history reaches it |
| `CircuitBreakers.TripsOnEvidence` | app/ratelimit/breaker.py:84-179 | A closed breaker opens only when, among the calls of one window, the outcomes reach the minimum volume and the failures the ratio |
| `CircuitBreakerWindows.TripsExactly` | app/ratelimit/breaker.py:84-179 | A failure opens a closed breaker if and only if the outcomes since the first call of its window, as the call times make it, reach the volume and the ratio; they are what is reported |
| `CircuitBreakerWindows.StaysClosed` | app/ratelimit/breaker.py:84-150 | Nothing else opens a closed breaker, which lets every call pass |
| `CircuitBreakerWindows.EpisodeEndsExactly` | app/ratelimit/breaker.py:138-179 | A half-open episode ends with its first failure, which opens the breaker, or when the successes in it reach their number, which closes it |
| `CircuitBreakerWindows.PeekForesees` | app/ratelimit/breaker.py:121-139 | A look tells what a call would be told and does not change it |
| `CircuitBreakers.RetryIsEnough` | app/ratelimit/breaker.py:103-106 | A caller refused by an open breaker that waits as told finds the cooldown over |
| `CircuitBreakerWindows.RetryIsLeast` | app/ratelimit/breaker.py:103-106 | One that comes back a millisecond before it was told to still finds it open |
| `CircuitBreakerWindows.ProbesRetry` | app/ratelimit/breaker.py:114-119 | A caller for whom no probe is left is told the fourth part of the cooldown, in whole milliseconds rounded up |
| `AdaptiveRates.AdaptiveRate.Run` | app/ratelimit/adaptive.py:55-201 | The script as a function of rate, streak, last decrease and latency ring, as far as they have not expired, with the rounded report |
| `Percentiles.PercentileMeaning` | app/ratelimit/adaptive.py:99-111 | The percentile exceeds a limit exactly when fewer than 95% of the samples keep within it |
| `AdaptiveRates.AlwaysInBounds` | app/ratelimit/adaptive.py:126-189 | On every history the rate stays between its minimum and maximum |
| `AdaptiveRates.DecreaseExact` | app/ratelimit/adaptive.py:154-166 | A decrease raises the rate exactly when it comes from latency and the rate is below the latency floor |
| `AdaptiveRateRaise.RaiseExactly` | app/ratelimit/adaptive.py:126-170 | Some history raises the rate on a decrease if and only if the latency floor is above the minimum rate, latencies are tracked and the ring holds enough samples |
| `AdaptiveRates.CutsApart` | app/ratelimit/adaptive.py:131-170 | Any two decreases are a refractory period apart, if the hash was kept between them or outlives that period |
| `AdaptiveRates.ApartExactly` | app/ratelimit/adaptive.py:131-195 | They are so on all histories if and only if the time to live is at least the refractory period |
| `AdaptiveRates.FallsSlowly` | app/ratelimit/adaptive.py:126-189 | In a span of less than `k + 1` refractory periods the rate is cut by the factor at most `k + 1` times, also when the hash expires meanwhile |
| `AdaptiveRateReports.FallsByFactors` | app/ratelimit/adaptive.py:126-189 | The same in numbers: at least the rate times the factor to the power `k + 1` is left |
| `AdaptiveRateReports.CongestionExact` | app/ratelimit/adaptive.py:126-170 | `n` congestions a refractory period apart bring the rate to exactly the larger of the minimum and the rate times the factor to the power `n` |
| `AdaptiveRates.RecoversExactly` | app/ratelimit/adaptive.py:172-189 | After `n` healthy successes the rate has gained one step for every full round banked, up to the maximum; if the hash expired meanwhile it is at the maximum |
| `AdaptiveRates.RecoversFully` | app/ratelimit/adaptive.py:172-189 | Enough rounds of healthy successes to cover the distance restore the maximum |
| `AdaptiveRateReports.StreakExact` | app/ratelimit/adaptive.py:126-189 | The streak is the number of successes since the last congestion, breach or expiry, less full rounds |
| `AdaptiveRateReports.ReportIsRate` | app/ratelimit/adaptive.py:186-201 | The reported rate is the rate in force to the nearest thousandth, a change is reported exactly when there is one, and a call that only reads changes nothing |
| `AdaptiveRateReports.BreachExactly` | app/ratelimit/adaptive.py:86-129 | A success is a breach exactly when enough latencies are known and fewer than 95% of them keep within the limit |
| `AdaptiveRateReports.RingExact` | app/ratelimit/adaptive.py:86-98 | The list a call finds is the newest of the latencies recorded since it was last found expired, as many as the ring holds |
| `IdempotencyStores.IdempotencyStore.Get` | mock_model/idempotency.py:60-69 | A hit within the time to live is returned and becomes the newest; an expired one is removed |
| `IdempotencyStores.IdempotencyStore.Put` | mock_model/idempotency.py:71-74 | The response becomes the newest, and the oldest go until the bound holds |
| `IdempotencyStores.IdempotencyStore.Begin` | mock_model/idempotency.py:78-94 | The first request of a key leads; later ones get its handle |
| `IdempotencyStores.IdempotencyStore.Finish` | mock_model/idempotency.py:108-112 | The handle leaves the table and carries the body |
| `IdempotencyStores.IdempotencyStore.Abandon` | mock_model/idempotency.py:114-124 | The handle leaves the table and carries the error |
| `IdempotencyStores.IdempotencyStore.RecordExecution` | mock_model/idempotency.py:132-140 | The count of the key goes up, and a second execution is noted as a duplicate |
| `IdempotencyStores.Evict` | mock_model/idempotency.py:142-144 | The loop keeps the newest items up to the bound |
| `Recency.SparedExactly` | mock_model/idempotency.py:142-144 | An eviction spares a key exactly when fewer keys than the bound are newer |
| `SingleFlight.StepKeepsInv` | mock_model/main.py:96-139 | Every interleaving of arrivals, successes, failures, wake-ups and resets keeps table, handles, answers and cache in agreement |
| `SingleFlight.OneLeaderPerKey` | mock_model/idempotency.py:78-94 | A key has at most one running leader |
| `SingleFlight.FollowerSharesOutcome` | mock_model/idempotency.py:96-124 | A follower has a leader of its key, is never left waiting for one that has ended, and gets that leader's body or error |
| `SingleFlight.ReplayIsGenuine` | mock_model/main.py:97-107 | A replayed body is one that a leader of the same key came back with |
| `SingleFlight.ExecutionsExact` | mock_model/main.py:122-136 | The model has succeeded for a key exactly once per cached response that expired, was evicted or was reset, and once more if one is cached |
| `SingleFlight.DuplicatesAreReal` | mock_model/idempotency.py:132-140 | A reported duplicate was executed at least twice and took the loss of a cached response |
| `Replays.ReplayIsFresh` | mock_model/idempotency.py:60-69 | A replay is of the last response stored for the key, at most the time to live old, with no reset since |
| `Replays.FreshIsReplayed` | mock_model/idempotency.py:60-74 | A request within the time to live of the last success of its key is replayed with that body, if fewer other keys than the cache holds were stored or replayed since the key was last used and nothing was reset |
| `Replays.ReplayedExactly` | mock_model/idempotency.py:60-144 | As long as none of those keys expires in between, it is replayed if and only if both conditions hold |
| `Replays.NoticedExactly` | mock_model/idempotency.py:132-144 | A success is reported as a duplicate if and only if the key has succeeded before, nothing was reset since and fewer other keys than the bound have succeeded since |
| `Dispatch.RoundExact` | app/queue/streams.py:582-675 | A read can bring the worker over its limit exactly when one slot is left and the reservation is used up, and then by one |
| `Dispatch.RoundFills` | app/worker/main.py:155-217 | A round fills the worker to its limit when both lanes hold enough and the prefetch allows |
| `Dispatch.RoundKeepsReserve` | app/worker/main.py:155-217 | A round never fills the slots reserved for the lead lane from the main lane |
| `Dispatch.MainIsServed` | app/worker/main.py:155-217 | And the reservation never shuts the main lane out |
| `Dispatch.ResidentBounded` | app/worker/main.py:155-217 | However reads and completions interleave, at most `worker_concurrency + 1` tasks are resident |
| `Dispatch.BoundExact` | app/worker/main.py:155-217 | In every configuration that is the least bound: a run reaches it |
| `Admission.AdmissionGate.Decide` | app/api/admission.py:53-96 | The script as a function of the stored flag and counters, as far as they have not expired |
| `Admission.HeldWithinMark` | app/api/jobs.py:129-155 | With evaluation and enqueueing under one lock, the pages that hold an unsettled entry never exceed the high mark, across any mix of offers, requeues and acknowledgements |
| `Admission.NothingUntilLow` | app/api/admission.py:57-79 | Once shedding, with offers less than the time to live apart, a job is admitted only after an evaluation saw the depth at or below the low mark |
| `AdmissionDecisions.RefusedExactly` | app/api/admission.py:53-96 | A job is refused if and only if it does not fit below the high mark, or the queue has been above the low mark, at every offer and with no pause of a time to live, since an offer that did not fit |
| `Admission.HysteresisExactly` | app/api/admission.py:57-96 | That holds on all runs with a given pace of offers if and only if the pace is at most the time to live, or no job fits above the low mark |
| `Admission.OffersAccounted` | app/api/admission.py:81-89 | With offers less than the time to live apart, admitted and shed make up all offers, in jobs and in pages |
| `AdmissionDecisions.CountersExact` | app/api/admission.py:81-89 | Each of the four counters is the number of jobs, or pages, that were admitted, or refused |
| `Admission.AccountingExactly` | app/api/admission.py:81-96 | That holds on all runs with a given pace of offers if and only if the pace is at most the time to live |
| `Admission.TripsAlternate` | app/api/admission.py:59-79 | Trips and recoveries alternate within the life of the hash, whatever the pace |
| `ResultStreams.ResultStream.Publish` | app/queue/results.py:95-112 | One atomic append as a function of the stream: an id above the last, the next number, trimming that spares the newest, and a new stream and counter after a time to live without events |
| `ResultStreams.IdsAscend` | app/queue/results.py:95-112 | The ids of a job ascend, also across an expiry |
| `ResultStreams.StreamSucceeds` | app/queue/results.py:95-112 | Over any further appends the log only grows at its end and the trimmed part only grows, as readers of the stream rely on |
| `ResultStreams.NewestSurvive` | app/queue/results.py:95-112 | The newest `maxlen` events survive every publication, as far as no pause of a time to live came after them; all before such a pause are gone |
| `ResultStreams.NumberFollows` | app/queue/results.py:104-109 | An event carries the number after that of the event before it exactly when it came within the time to live, and number 1 otherwise |
| `ResultStreams.DenseExactly` | app/queue/results.py:104-109 | The numbers of a job are dense if and only if no two successive events are a time to live apart |
| `ResultStreams.NumbersSeen` | app/queue/results.py:104-109 | So are the numbers of any run of events that a client receives |
| `ResultStreams.NumberingRestarts` | app/queue/results.py:104-109 | Two events a time to live apart both carry number 1 |
| `EventStreams.ReadIsSlice` | app/queue/results.py:233-267 | A read returns the next events after the reader's position, or after the trimmed part |
| `EventStreams.GapExact` | app/queue/results.py:211-231 | While anything is retained, a gap is reported exactly when the event of the cursor has been trimmed |
| `EventStreams.GapCheckRight` | app/queue/results.py:211-231 | The check reports a gap exactly when an event after the cursor is lost, if and only if the reader has seen everything in case nothing is retained, and else the event of the cursor was not the last one trimmed |
| `EventStreams.FalseAlarm` | app/queue/results.py:211-231 | A view in which the check reports a gap and nothing is lost |
| `EventStreams.SilentLoss` | app/queue/results.py:224-230 | A view in which an event is lost and the check reports nothing |
| `EventStreams.Frames` | app/api/stream.py:285-412 | Gap check, history and tail as one loop: what is sent is the progress over the successive reads, up to the batch that ends the job |
| `EventStreams.EndsExactly` | app/api/stream.py:285-412 | A connection stops reading exactly when it has sent the event that ends the job |
| `EventStreams.RoundSendsAll` | app/api/stream.py:285-412 | Until then each round sends all that is stored, or as much as one read returns |
| `EventStreams.SessionIsContiguous` | app/api/stream.py:285-412 | One connection that trimming does not pass sends the events after the cursor, in order, each once; without a cursor, or after a gap was reported, those from the trimmed part on |
| `EventStreams.ResumeIsExact` | app/api/stream.py:285-412 | Over any chain of reconnects that trimming does not pass, from a first connection with or without a cursor, the events received are one run of the log from that start on, in order, each once |
| `PageTtl.JobRecords.Renew` | app/queue/state.py:182-223 | An applied transition renews page and job, and all pages when the last sweep is more than half the time to live ago |
| `PageTtl.HalfTtlExactly` | app/queue/state.py:182-223 | All records of all jobs are there at each of their transitions, those of unstarted pages included, if and only if the pace bound is at most half the time to live |
| `PageTtl.SweepsApart` | app/queue/state.py:212-223 | Any two sweeps are more than half the time to live apart |

## Left out

- Failing Redis commands in the page protocol: the worker's crash handler and `force_terminal` after an exception are reached only through them. A command that fails while the VLM stage is being claimed would make the code try FAILED from LAYOUT_DONE, which the table rejects.
- Record expiry inside the page protocol: it is a model of its own here, under the pace that makes it harmless.
- Exactly two events per page: the table lets a late duplicate layout commit emit a second partial event (`app/queue/state.py:75-79`), so only the final event is counted.
- CircuitBreakers.EpisodeFits: says nothing about an episode coming to an end, because a probe slot taken in `app/worker/client.py` is not returned when the limiter raises.
- EventStreams.Frames: heartbeats, the open and gap frames, the duration limit and the derived completion frame carry no stored event and are not modelled; they end the list of reads.
- ParseTree.Parse: label and children keys are fixed, and a label is a value with equality.
- SingleFlight.StepKeepsInv: requests without a key and followers that are cancelled while they wait touch no shared state and are not modelled.
- Admission.HeldWithinMark: is about one lock for all admissions; the overshoot of API replicas that each hold their own is not modelled, nor is the retry hint.
- Grapheme clusters, text rates and the aggregation of scores: sums and an approximation of UAX #29.
- HTTP, PDF handling, uploads, metrics, tracing, settings, jitter, SSE framing and poison quarantine: plumbing around the modelled logic.
