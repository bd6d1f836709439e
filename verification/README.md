# Verified model of prATC's planning and execution core

prATC reads the open pull requests of a repository, finds duplicates and conflicts among them, plans
what to merge and in which order, and executes action intents against GitHub. This project models
the algorithms behind that in Dafny and proves what they promise.

| part | files |
|---|---|
| counting selections and turning an index into a selection | `Counting.dfy`, `Unranking.dfy` |
| the tiered candidate search and the plan pipeline around it | `TierSearch.dfy`, `PlanPipeline.dfy` |
| the pull request graph, its topological order, its incremental cache | `Graphs.dfy`, `Topology.dfy`, `TopologicalSort.dfy`, `Fingerprints.dfy`, `IncrementalGraphs.dfy` |
| ordering a selection by dependencies and cutting it at a target | `DependencyOrder.dfy`, `Hierarchy.dfy` |
| the selector language: lexer, grammar, parser, printer, evaluator, stages | `Text.dfy`, `SelectorSyntax.dfy`, `SelectorLexer.dfy`, `SelectorParser.dfy`, `SelectorRoundTrip.dfy`, `SelectorEval.dfy`, `Stages.dfy` |
| the sharded concurrent pair scan, and how its conflicts differ from the graph's | `Pairwise.dfy`, `PairwiseResult.dfy`, `ConflictRelations.dfy` |
| duplicate collapse and the plan pool | `Collapse.dfy` |
| the executor protocol and the mutation circuit breaker | `GitHubState.dfy`, `Ledgers.dfy`, `ExecutorModel.dfy`, `Executors.dfy`, `ExecutorRuns.dfy`, `CircuitBreaker.dfy` |
| lane classification, policy gates, the action plan and its audit | `ActionTypes.dfy`, `Lanes.dfy`, `ActionPlans.dfy`, `ActionAudits.dfy` |
| shared values and facts | `Results.dfy`, `Integers.dfy`, `Sequences.dfy`, `Sorting.dfy`, `PullRequests.dfy`, `Rejections.dfy` |

`dafny verify dfyconfig.toml` checks everything.

## How it is modelled

Code that computes a value is a function; code that changes state is a class or a method with the
source's loops, proved against a specification that does not mention the loop. `big.Int` is `int`.
Go's 64-bit `int` is written out where it matters (the range loop of `Expand`, the stage count,
digit arithmetic, `Atoi`). Strings in the selector and executor are byte strings, one `char` per
byte. Scores, priorities and confidences are reals.

The concurrent pair scan is a state machine over the steps of its goroutines: every interleaving of
workers, semaphore, channels, closer and collector is a sequence of `Step`s, and the results hold for
all of them. The executor is modelled twice, as an object that changes a GitHub object and a ledger
object, and as a function on values that the object is proved to compute; statements about whole
runs are about the function. The mutex of the circuit breaker makes its calls atomic, so its
interleavings are sequences of calls between which `Valid` holds.

Numbers of the pull requests in one input are assumed distinct, as everywhere in the source.
Parameters stand for what the model does not look into: the noise filter of file names (`isNoise`),
the SHA-256 digest of a text, the score of a candidate, the priority of a pull request, the
cluster of a number, `strings.ToLower` in the classifier.

## Where the code does not do what it seems to promise

* The incremental graph agrees with a rebuild only if no pull request has its own base as head
  beside another pull request on that base: `Build` tests the base branches for inequality
  (`internal/graph/graph.go:103`, `:113`), the incremental path does not.
  `IncrementalGraphs.IncrementalAgrees` proves this exact condition,
  `IncrementalGraphs.SelfStackedWitness` gives an input, and `IncrementalGraphs.UpdatesDisagree` calls
  `Update` twice on it with different results.
* Expanding a range that ends in the largest `int` never ends, because the loop variable wraps
  (`internal/planning/selector_types.go:139-141`). `SelectorEval.RangeLoopEnds` proves exactly when
  the loop ends, `SelectorEval.ParsedExpandEnds` when expanding a parsed selector does, and
  `SelectorEval.EndlessRange` gives a selector for which it does not.
* The fingerprint of a file list is the digest of its sorted names joined by "|"
  (`internal/graph/incremental.go:78-79`), so a list with the file `a|b` has that of one with `a` and
  `b`. `IncrementalGraphs.BarWitness` gives two versions of a pull request that differ in their
  conflicts and pass as the same; `Fingerprints.JoinedIff` proves which lists without bars in names
  give the same text. The edges of an update are right all the same, because the incremental path
  computes them from the current files (`IncrementalGraphs.IncrementalGraph.IncrementalUpdate`).
* The stage count adds the stage size to the number of IDs on Go's `int`
  (`internal/app/stage_processor.go:46`, `:80`). For a size near the largest `int` the sum wraps and
  the count can be negative, which gives no stage at all: `Stages.LostSelection` loses the selection
  {1, 2} to the largest size. `Stages.RecomposeUndoesProcess` proves exactly when the selection comes
  back, and exactly when there is no stage.
* A failing execution can leave a write behind in two cases: a close that posts its comment before
  finding that the pull request was merged, and a fix applied to a pull request whose state is open
  up to letter case. `ExecutorRuns.FailureLeavesState` proves that these are the only ones,
  `ExecutorRuns.TornCloseWitness` and `ExecutorRuns.TornFixWitness` give one of each. Neither can happen on a GitHub whose flags agree with its
  states (`ExecutorRuns.ConsistentWrites`).
* The pair scan and the graph differ on what a conflict is. The graph leaves out noise files and,
  without shared files, needs both pull requests to signal a conflict (`internal/graph/graph.go:290`,
  `:294`); the scan counts every shared file and one signal (`internal/planning/pairwise.go:173`,
  `:175`). `ConflictRelations.ScanExceedsGraph` proves that the scan reports every conflict of the
  graph and exactly which pairs beyond, `ConflictRelations.ScanIsGraphIff` on which inputs the two
  agree. The scan's reason text says that both signal (`internal/planning/pairwise.go:184`):
  `ConflictRelations.ReasonFalseIff` proves exactly when that is false, and
  `ConflictRelations.OneSignalWitness` and `ConflictRelations.NoiseFileWitness` give inputs.
* The priority comparison of the hierarchical planner's cycle fallback has a tolerance
  (`internal/planning/hierarchy.go:529`), so it can run in a circle: `Hierarchy.NoPriorityOrder` gives
  three candidates without an order. `Hierarchy.PriorityOrderIff` proves that the candidates have an
  order exactly when the comparison is transitive on them.
* The autonomous profile admits merge and close after passed preflight checks, but under no profile
  can a plan made by the builder merge or close live, because the classifier emits only pending
  checks or none (`ActionAudits.BuiltIntents`).

## Model

| member | source | states |
|---|---|---|
| Counting.Count | internal/formula/modes.go:16-59 | The two accumulator loops compute the falling factorial and Pascal's binomial (with the k to n-k swap), and the result is the number of selections of the mode, 0 for negative arguments and unknown modes |
| Counting.ExactStep | internal/formula/modes.go:42-46 | After each multiplication of the combination loop the division is exact, and gives the next binomial of the hockey stick |
| Counting.BinomialSymmetric | internal/formula/modes.go:38-40 | Choosing k and choosing n-k count the same, which the swap relies on |
| Unranking.OrderIsomorphism | internal/formula/modes.go:61-199 | For every mode the indices below the count map one-to-one, onto and in lexicographic order to the selections of that mode |
| Unranking.PermutationIndices | internal/formula/modes.go:107-144 | The loop with the shrinking list of available items returns the index's permutation; a nonempty one fails exactly when the index is out of range, and the empty one is returned for any index, so the zero-block patch and the range check inside are never needed |
| Unranking.CombinationIndices | internal/formula/modes.go:146-176 | The scan over candidates returns the index's combination for every index below the binomial, so the not-found error cannot occur behind the guard |
| Unranking.ReplacementIndices | internal/formula/modes.go:178-199 | The digits filled from the right are those of the index in base n: they recompose to it |
| Unranking.GenerateByIndex | internal/formula/modes.go:61-105 | Succeeds exactly for an index in range, with the pool members at the unranked positions; which error otherwise |
| TierSearch.TierPoolMeaning | internal/formula/tiers.go:50-74 | A tier searches exactly the pull requests its name admits, in order of number |
| TierSearch.BestOfIsFirstBest | internal/formula/engine.go:118-124 | The candidate kept is better than all evaluated before it, and none evaluated after it is better; its score is maximal |
| TierSearch.FirstBestUnique | internal/formula/engine.go:118-124 | Only one of the evaluated candidates is the one kept, ties included |
| TierSearch.TierHasCandidates | internal/formula/engine.go:69-98 | A tier evaluates something exactly when its mode is known and some pull request is eligible |
| TierSearch.EvaluatedAreSelections | internal/formula/engine.go:100-116 | Everything evaluated is a selection of its tier: of the pick count's size, eligible, and without repetition unless the mode repeats |
| TierSearch.Search | internal/formula/engine.go:26-138 | Each error exactly under its condition; never an error from unranking; the result is the best of all candidates of all tiers, with each tier's own best |
| Graphs.Build | internal/graph/graph.go:49-175 | The index-driven scan yields nodes by number and exactly the all-pairs edges, each once and in order |
| Graphs.EdgeMeaning | internal/graph/graph.go:97-143 | A dependency edge stands for base = head with different bases, a conflict edge for a shared base with shared signal files or two conflict flags, from the smaller number to the larger |
| Graphs.EdgeEndpoints | internal/graph/graph.go:97-143 | No edge joins a pull request to itself, and every edge joins two of the given ones |
| Graphs.GraphUnique | internal/graph/graph.go:55-58 | The graph does not depend on the order of the input |
| Graphs.ConflictFiles | internal/graph/graph.go:280-303 | The list is nonempty exactly for conflicting pairs; then it holds the shared signal files, or the mergeability marker when there are none |
| Topology.GreedyIsLeast | internal/graph/graph.go:202-223 | An order that always takes the smallest available number is the lexicographically least topological order |
| Topology.StuckMeansCycle | internal/graph/graph.go:225-227 | A nonempty set in which every node waits for another contains a cycle |
| Topology.OrderedMeansAcyclic | internal/graph/graph.go:225-229 | Where a topological order exists there is no cycle |
| Topology.LeastExistsIffAcyclic | internal/graph/graph.go:177-230 | Every acyclic dependency relation has a lexicographically least topological order, and no cyclic one has |
| TopologicalSort.MinHeap.Pop | internal/graph/graph.go:22-40 | The heap gives back a smallest element and keeps the rest |
| TopologicalSort.TopologicalOrder | internal/graph/graph.go:177-230 | Kahn's loop fails exactly on a cycle, and otherwise returns the least topological order of the nodes |
| TopologicalSort.OrderIsDeterministic | internal/graph/graph.go:177-230 | Two successful runs return the same nodes whatever order maps are iterated in |
| IncrementalGraphs.IncrementalAgrees | internal/graph/incremental.go:251-442 | The edges of the incremental path equal those of a rebuild if and only if no pull request has its own base as head beside another one on that base |
| IncrementalGraphs.SelfStackedWitness | internal/graph/incremental.go:269-294 | An input on which the two computations differ |
| IncrementalGraphs.UpdatesDisagree | internal/graph/incremental.go:107-142 | Two updates with the same input of which only the first returns the graph of a rebuild |
| IncrementalGraphs.IncrementalGraph.Update | internal/graph/incremental.go:107-142 | After any history of calls: the nodes of a rebuild, sorted edges, every edge cached, all fingerprints current; equal to Build's graph exactly when it rebuilt in full or the input is not self-stacked |
| IncrementalGraphs.IncrementalGraph.FullRebuild | internal/graph/incremental.go:144-208 | Returns Build's graph and fills cache and fingerprints for it |
| IncrementalGraphs.IncrementalGraph.IncrementalUpdate | internal/graph/incremental.go:210-462 | With cached edges reused for unaffected pairs, the edges are still exactly those of the current branches and files |
| IncrementalGraphs.UnchangedKeepsEdges | internal/graph/incremental.go:75-105 | Without empty names, bars in names and hash collisions the fingerprint test sees every change of branches, files, mergeability and cluster and no other, and a pull request it passes as unchanged has the same edges with any other as before |
| IncrementalGraphs.BarWitness | internal/graph/incremental.go:75-105 | Two versions of a pull request with different conflict edges that the fingerprint test takes for the same, whatever the hash |
| Fingerprints.JoinedIff | internal/graph/incremental.go:76-78 | Lists without bars in names give the same text to hash if and only if they hold the same names with the same multiplicity, or nothing but at most one empty name |
| IncrementalGraphs.IncrementalGraph.Clear | internal/graph/incremental.go:480-490 | Empties graph, cache and fingerprints |
| DependencyOrder.PrerequisitesKept | internal/planning/hierarchy.go:491-503 | What a cut keeps of the least dependency order is closed: a kept candidate's prerequisite is kept and comes earlier |
| DependencyOrder.LeastPrefixUnique | internal/planning/hierarchy.go:455-485 | What is kept does not depend on the order in which the candidates come |
| DependencyOrder.CircularMeansCycle | internal/planning/hierarchy.go:456-464 | The graph has a cycle exactly when candidates are stacked on each other in a circle |
| Hierarchy.SubGraph | internal/planning/hierarchy.go:416-449 | The candidates' graph has exactly the stacked pairs among them as dependencies |
| Hierarchy.ApplyDependencyOrdering | internal/planning/hierarchy.go:406-514 | Keeps as many candidates as the target allows and rejects exactly the rest; reports a cycle exactly when there is one; keeps a prefix of the least dependency order without a cycle, and with one a prefix of the priority order if there is such an order; consecutive ranks |
| Hierarchy.PriorityOrderIff | internal/planning/hierarchy.go:527-533 | The candidates have a priority order if and only if the comparison is transitive on them |
| Hierarchy.PriorityOrderUnique | internal/planning/hierarchy.go:527-533 | A priority order is unique, so any correct sort finds the same one |
| Hierarchy.NoPriorityOrder | internal/planning/hierarchy.go:527-533 | Three candidates whose comparison runs in a circle |
| PlanPipeline.ApplyFilters | internal/filter/filters.go:21-46 | The pool holds exactly what passes, each other pull request is rejected once for its first reason, nothing is lost |
| PlanPipeline.BuildCandidatePool | internal/filter/pipeline.go:28-40 | The pool is what the filters keep, with clusters assigned, highest priority first and equal priorities by number; nothing is lost |
| PlanPipeline.OrderSelection | internal/planner/planner.go:272-298 | A permutation of the selection: its least dependency order, or its order by number when the dependencies form a cycle |
| PlanPipeline.SearchSucceeds | internal/planner/planner.go:116-138 | With a nonempty pool some tier of the default configuration has candidates exactly when the mode is known |
| PlanPipeline.WinnerInPool | internal/planner/planner.go:128-150 | The search's winner selects from the pool, without repetition unless the mode repeats |
| PlanPipeline.RejectUnselected | internal/planner/planner.go:140-158 | Rejecting the pool members not selected keeps every pull request in exactly one of the two lists |
| PlanPipeline.SortedRejections | internal/planner/planner.go:178-181 | The final sort puts the rejections in increasing order of number and loses none |
| PlanPipeline.Planner.Plan | internal/planner/planner.go:64-200 | Fails only for a target out of bounds or an unknown mode with a nonempty pool; otherwise every input pull request is selected or rejected exactly once, the ordering is a permutation of the selection, and the selection is the best candidate's |
| SelectorLexer.NextToken | internal/planning/selector_parser.go:41-115 | A token other than the end or an unknown character consumes input; those two consume nothing but the white space before them |
| SelectorLexer.Tokenize | internal/planning/selector_parser.go:41-73 | The token list of any text is finite and ends in its only terminal token, although an unknown character is never passed |
| SelectorParser.ParseIsGrammar | internal/planning/selector_parser.go:147-286 | Parse accepts exactly the texts whose tokens the documented grammar derives, and the tree denotes the union of its OR parts, each the intersection of its AND terms |
| SelectorParser.OrComplete | internal/planning/selector_parser.go:162-229 | Whatever follows that does not continue it, a derived expression is parsed to its tree and the rest is left |
| SelectorParser.OrSound | internal/planning/selector_parser.go:162-229 | Whatever the parser accepts is derived by the grammar, token for token |
| SelectorParser.Parser.ParseExpression | internal/planning/selector_parser.go:147-160 | The recursive descent over the mutable lexer computes the same result as parsing the token list |
| SelectorParser.ParseInput | internal/planning/selector_parser.go:278-286 | Trimming, the empty expression, the parse and the check for trailing input, for every text |
| SelectorRoundTrip.PrintedParses | internal/planning/selector_types.go:168-206 | The printed form of any parsed expression parses to it, up to reading a range n-n as the ID n |
| SelectorRoundTrip.RoundTrip | internal/planning/selector_types.go:168-206 | For every text that parses, printing and parsing again succeeds, denotes the same IDs and prints the same |
| SelectorSyntax.NormalSame | internal/planning/selector_types.go:175-206 | Reading n-n as n changes neither the denoted set nor the printed form |
| SelectorSyntax.OrMeans | internal/planning/selector_parser.go:162-210 | The expression built for a syntax tree denotes the union over its OR parts of the intersections of their terms |
| SelectorEval.RangeLoopEnds | internal/planning/selector_types.go:138-141 | The range loop ends if and only if the range is empty or does not end in the largest int |
| SelectorEval.ExpandEnds | internal/planning/selector_types.go:132-165 | Every range loop that expanding an expression reaches ends if and only if the expression is one for which ExpandInto is proved |
| SelectorEval.ParsedExpandEnds | internal/planning/selector_types.go:132-165 | The same for every text that parses, with no condition on its ranges |
| SelectorEval.EndlessRange | internal/planning/selector_types.go:138-141 | A text that parses to a range whose loop never ends |
| SelectorEval.ExpandInto | internal/planning/selector_types.go:132-165 | Adds exactly the IDs the node denotes to the accumulator, key deletions in the AND case included |
| SelectorEval.Eval | internal/planning/selector_eval.go:34-73 | The selected IDs are the sorted, duplicate-free available ones of the denotation; the missing ones are the others |
| SelectorEval.ToPredicate | internal/planning/selector_eval.go:116-122 | The predicate holds exactly for the IDs Eval selects |
| SelectorEval.EvalString | internal/planning/selector_eval.go:77-85 | Fails exactly when parsing fails, with the same error, and otherwise evaluates |
| Stages.Process | internal/app/stage_processor.go:33-70 | The stages are numbered from 1, all but the last are full, and together they are a prefix of the selection: all of it, in the smallest number of stages, exactly when the sum in the count does not wrap or wraps to a count of zero over a selection of one stage; there is no stage exactly in the window where the count is negative |
| Stages.StageCountBounds | internal/app/stage_processor.go:72-80 | The stage count is the smallest positive number of stages that holds the total if and only if the sum does not wrap, and negative exactly in the window of Process |
| Stages.Recompose | internal/app/stage_processor.go:84-109 | Every ID of the stages once, in increasing order |
| Stages.RecomposeUndoesProcess | internal/app/stage_processor.go:33-109 | Calling Process with any stage size and then Recompose on its stages gives back the selection if and only if the stages hold it |
| Stages.LostSelection | internal/app/stage_processor.go:46-51 | The text of an expression that selects 1 and 2, and a stage size for which the count is -1, there is no stage and nothing is recomposed |
| Pairwise.StepKeepsInv | internal/planning/pairwise.go:140-276 | Every step of every goroutine keeps the invariant: slots, counters, channel contents and cursors agree |
| Pairwise.InitialInv | internal/planning/pairwise.go:233-259 | The freshly built shards satisfy it |
| Pairwise.NeverStuck | internal/planning/pairwise.go:140-276 | A state that is not final always has an enabled step, for every shard size, worker count and buffer |
| Pairwise.RunIsBounded | internal/planning/pairwise.go:140-276 | Every run keeps the invariant and has bounded length |
| Pairwise.RunExtends | internal/planning/pairwise.go:140-276 | Every run, whatever its interleaving so far, can be continued to a finished one |
| Pairwise.FinishedRunExists | internal/planning/pairwise.go:140-276 | Every valid configuration has a finished run, so the results about finished runs are about something |
| Pairwise.AllPairsProcessed | internal/planning/pairwise.go:151-213 | Without early exit a finished run has counted n(n-1)/2 pairs |
| Pairwise.CollectedConflicts | internal/planning/pairwise.go:195-271 | The collector has every conflict once, or with a threshold only conflicts and at most the threshold from each shard |
| PairwiseResult.EachPairOnce | internal/planning/pairwise.go:151-167 | No run looks at a pair twice, and without early exit a finished run has looked at each pair once |
| PairwiseResult.ShardedIsDoubleLoop | internal/planning/pairwise.go:110-299 | Without early exit every finished run of any configuration returns the list of the plain double loop |
| PairwiseResult.EarlyExitIsSubset | internal/planning/pairwise.go:207-209 | With a threshold the list is a sorted part of it, at most the threshold for each shard |
| PairwiseResult.ResultIsFirstHits | internal/planning/pairwise.go:140-299 | With or without a threshold every finished run returns what scanning the shards one after the other returns, each up to the threshold |
| PairwiseResult.ResultIsDeterministic | internal/planning/pairwise.go:140-299 | Two finished runs over the same input, shard size and threshold return the same list, whatever their interleavings, worker counts and buffers |
| ConflictRelations.ScanExceedsGraph | internal/planning/pairwise.go:169-184 | The scan reports every conflict of the graph, and beyond them exactly the pairs that share no signal file and do not both signal, but share a file or have one signal |
| ConflictRelations.ScanIsGraphIff | internal/graph/graph.go:280-303 | Over a whole input the scan's pairs are the graph's conflict edges if and only if there is no such pair |
| ConflictRelations.ReasonFalseIff | internal/planning/pairwise.go:179-185 | The text that both pull requests signal a conflict is false exactly for a pair without shared files of which one signals and the other does not |
| ConflictRelations.OneSignalWitness | internal/planning/pairwise.go:175-185 | A pair reported with the false text, and not joined in the graph |
| ConflictRelations.NoiseFileWitness | internal/graph/graph.go:287-298 | A pair reported for a noise file, and not joined in the graph |
| Collapse.ScoreIsBest | internal/app/service.go:2782-2796 | The score kept for a pull request is the best of its groups, never below zero |
| Collapse.SameCanonicalIffConnected | internal/app/service.go:2766-2874 | Two grouped pull requests have the same canonical if and only if a chain of groups connects them |
| Collapse.CollapseConserves | internal/app/service.go:2864-2873 | Groups plus superseded pull requests are the pull requests in the graph |
| Collapse.CollapseUnique | internal/app/service.go:2766-2874 | The groups determine the corpus, so no map iteration order can change it |
| Collapse.Search.Dfs | internal/app/service.go:2802-2811 | The recursive search adds exactly the unvisited part of the component to the list |
| Collapse.PickCanonical | internal/app/service.go:2826-2837 | The arg-max loop finds the member that none beats: best score, then smallest number |
| Collapse.BuildCollapsedCorpus | internal/app/service.go:2758-2874 | The two maps are inverse to each other, no pull request is in both, each is represented by the best member of its component, and the returned list is annotated accordingly |
| Collapse.FilterPool | internal/app/service.go:1213-1240 | The pool loop keeps exactly what nothing rejects, rejects the others once for their first reason, and loses none |
| Collapse.PoolHasOnePerComponent | internal/app/service.go:1231-1239 | The pool holds at most one member of each component, the canonical one |
| GitHubState.FakeGitHub.Merge | internal/executor/fake_github.go:182-207 | Changes the state exactly by the merge effect |
| GitHubState.FakeGitHub.Close | internal/executor/fake_github.go:209-227 | Changes the state exactly by the close effect |
| GitHubState.FakeGitHub.AddComment | internal/executor/fake_github.go:229-241 | Changes the state exactly by the comment effect |
| GitHubState.FakeGitHub.AddLabels | internal/executor/fake_github.go:243-260 | Changes the state exactly by the label effect |
| GitHubState.FakeGitHub.ApplyFix | internal/executor/fake_github.go:262-273 | Changes the state exactly by the fix effect, which writes without changing the pull request |
| Ledgers.RecordedTransitions | internal/executor/ledger.go:41-60 | Recording a transition appends it or, if it is there, leaves the order alone |
| Ledgers.MemoryLedger.RecordTransition | internal/executor/ledger.go:41-60 | Replaces the first record of the transition or appends one |
| Ledgers.MemoryLedger.HasExecuted | internal/executor/ledger.go:68-79 | Finds exactly whether the key's history has an executed record |
| Executors.Executor.ExecuteIntent | internal/executor/executor.go:201-390 | The object's calls change ledger and GitHub, and return, exactly as the function Execute says |
| Executors.Executor.RunPreflightChecks | internal/executor/executor.go:393-456 | Reports the first of the nine checks that fails, if any |
| ExecutorRuns.WritersAreAllowed | internal/executor/executor.go:497-521 | Whatever the call, GitHub changes only if it is live, its profile admits the action, the preflight checks pass and its key was not executed before |
| ExecutorRuns.LiveMergeGuarded | internal/executor/executor.go:393-456 | A merge that succeeds live ran under the autonomous profile on an open, mergeable pull request at the expected head with green CI, satisfied reviews and rate budget, and merged exactly that one |
| ExecutorRuns.FailureLeavesState | internal/executor/executor.go:201-390 | A call that fails changes pull requests, comments, labels or the write count if and only if it is one of two torn cases; one that finds its key executed changes nothing |
| ExecutorRuns.TornFixWitness | internal/executor/verification.go:77-90 | A fix that is written and then reported as failed |
| ExecutorRuns.TornCloseWitness | internal/executor/executor.go:302-311 | A close that leaves its comment behind and then fails |
| ExecutorRuns.ConsistentWrites | internal/executor/fake_github.go:182-273 | On a GitHub whose flags agree with its states a call writes only if it succeeds live, and then what its action costs |
| ExecutorRuns.AtMostOnce | internal/executor/executor.go:216-227 | In any run over one ledger, whatever else changes GitHub in between, after a success, live or dry, every later call with the key reports it as executed and does not touch GitHub |
| ExecutorRuns.NoWriteRun | internal/executor/executor.go:497-521 | A run of dry-run and advisory calls changes nothing on GitHub but the log |
| ExecutorRuns.GuardedRun | internal/executor/executor.go:506-512 | A run whose live calls are guarded changes no pull request, only comments and labels |
| ExecutorRuns.TerminalStatesAbsorb | internal/executor/fake_github.go:182-227 | Over any run of calls, denials and consistent registrations a merged or closed pull request never changes again unless registered anew |
| ExecutorRuns.WritesAreAccountedFor | internal/executor/executor.go:262-390 | Over any run of calls, denials and consistent registrations from a consistent state the writes are at least one and at most two for each key that succeeded live |
| ExecutorRuns.OrderedRun | internal/executor/ledger.go:41-60 | Over any run, outside changes of GitHub included, each key's history keeps its transitions distinct, preflighted after proposed and executed after preflighted |
| ExecutorRuns.ExecutedHistory | internal/executor/executor.go:209-390 | In an executed key's history proposed, preflighted and executed occur once each and in that order |
| CircuitBreaker.Breaker.Acquire | internal/executor/circuit_breaker.go:42-76 | Grants exactly when both limits leave room, which denial otherwise, and counts the grant |
| CircuitBreaker.Breaker.Release | internal/executor/circuit_breaker.go:59-75 | The first call of a release closure frees its slot, repeated calls change nothing |
| CircuitBreaker.Breaker.Status | internal/executor/circuit_breaker.go:79-90 | Reports the live grants, in all and by repository, with no zero entry |
| CircuitBreaker.SlotsConserved | internal/executor/circuit_breaker.go:31-76 | In every reachable state the global count is the sum over repositories and the number of live grants; with none live the breaker is empty |
| Lanes.DecisionContract | internal/actions/classifier.go:79-212 | Every review lands in a lane it qualifies for, with exactly the actions documented for the lane and a reason |
| Lanes.ExactlyOneLane | internal/actions/classifier.go:79-212 | A review lands in a lane if and only if it meets that lane's condition, and the conditions exclude each other |
| Lanes.BlockedNeverMerges | internal/actions/classifier.go:9-10 | A review with blockers is never proposed for merging |
| Lanes.PreflightDenialReason | internal/actions/policy.go:98-116 | Denies unless some check is required and all required ones have passed; the reason names the first required check that has not |
| Lanes.ApplyPolicy | internal/actions/policy.go:39-81 | Every proposed action is executable or denied, once, in the order proposed; executable exactly when the profile lets it run, and each denial has the reason that applies |
| Lanes.NeverLiveMergeOrClose | internal/actions/classifier.go:331-339 | Under no profile is a classified merge or close executable |
| ActionPlans.ActionReviewResults | internal/app/actions.go:148-171 | The payload's reviews, or a placeholder for each pull request, in order of number and with none lost |
| ActionPlans.ActionIntentsFromDecision | internal/app/actions.go:197-238 | One intent for each proposed action, dry unless the profile lets the action run |
| ActionPlans.SummarizeLanes | internal/app/actions.go:240-264 | Grouping by map and listing in lane order gives each nonempty lane its sorted IDs |
| ActionPlans.BuildPlan | internal/app/actions.go:52-83 | The builder loop computes the plan that the audit results are about |
| ActionAudits.AuditLaneCoverage | internal/actions/audit.go:27-104 | Passes exactly the plans whose items match the corpus total, have known lanes and distinct numbers, and whose summaries agree with them |
| ActionAudits.AuditAdvisoryZeroWrite | internal/actions/audit.go:106-126 | Passes an advisory plan exactly when all intents are dry and advisory; other profiles are left to a person |
| ActionAudits.AuditIntentCompleteness | internal/actions/audit.go:128-163 | Passes exactly when every intent has all required fields |
| ActionAudits.BuiltLaneCoverage | internal/app/actions.go:52-83 | A built plan passes the lane audit if and only if it has as many items as the corpus total says |
| ActionAudits.BuiltIntents | internal/app/actions.go:197-238 | A built plan's intents are complete, write nothing under the advisory profile, and never merge or close live |
| ActionAudits.ExecutorAccepts | internal/executor/executor.go:497-517 | Under the plan's own profile the executor's policy gate refuses none of the plan's intents |
| ActionAudits.KeysIdentifyIntents | internal/app/actions.go:275-281 | Intents of a plan with the same idempotency key are the same intent, so the ledger confuses none |
| ActionAudits.Actions | internal/app/actions.go:29-85 | The plan passes its own zero-write and completeness audits, and lane coverage when there is no lane filter and the total is right |

## Left out

* HTTP, GraphQL and REST clients, SQLite stores, the command line, the TUI, reports, logging and telemetry: I/O around the core.
* Timestamps, `UpdatedAt`, durations, reason and error texts, severities, `GraphDelta` and progress callbacks.
* `container/heap`, `sort.Slice`, `sort.Strings`, `slices` and `math/big`: library code. The heap is a class whose operations state their effect, sorting is insertion sort; wherever a sorted list is compared, the order is strict and total on the elements, so any correct sort gives the same list.
* NaN: scores, priorities and confidences are reals.
* `ScoreCandidate`, `PlannerPriority`, `BuildClusters` and the upper levels of the hierarchical planner: they enter as parameters or inputs.
* `headBranchIndex` of `Build` and the unchanged pull requests passed to the incremental update: filled but never read.
* Context cancellation, `ExecuteWithEarlyExit` and `ProcessShard` of the pair scan. Closing the conflict channel and closing the metrics channel are one step of the model.
* `Evaluator.Contains`, `Count`, `IsEmpty`, the set helpers `Union`, `Intersection` and `Difference`, `Deduplicate`, token positions and warning texts of the selector.
* `ExecuteFixAndMerge` with its sandbox, merge options, `RunPreflight` and the token permission check, which always passes.
* A nil circuit breaker, nil mutator and nil ledger.
* `Service.PlanWithOptions` beyond its pool loop: pull requests dropped by the pool selector are not recorded there, so conservation is proved for `Planner.Plan`.
* Work item fields that are only copied, `computePriorityScore`, risk flags and blocked reasons of lane decisions.
- SelectorEval.ExpandInto: requires that no range of the expression that is not empty ends in the largest int, because the loop does not end otherwise; ExpandEnds and ParsedExpandEnds state that this is exactly the condition.
- ExecutorRuns.ConsistentWrites: assumes that merged and closed flags agree with the state text; FailureLeavesState covers every other GitHub.
- PairwiseResult.ShardedIsDoubleLoop: compares conflicts without severity and reason text, and shared files as sets.
- Hierarchy.ApplyDependencyOrdering: when the dependencies form a cycle and the priority comparison runs in a circle too, there is no order to keep a prefix of (PriorityOrderIff), and which candidates are kept is left to the sorting algorithm.
- SelectorParser.ParseInput: case mapping of keywords and white space are modelled on bytes; no letter outside ASCII maps to the letters of the keywords AND and OR.
